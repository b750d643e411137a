/** The destructor's walk over the table, on values: which nodes it releases when descriptors repeat. */
module Teardown {
  import opened ServerApi
  import opened EventLoop
  import Table

  /** Index of the first entry with the last entry's descriptor; this is the one that the destructor removes. */
  function FirstLike(s: seq<Entry>): (i: nat)
    requires s != []
    ensures i < |s| && s[i].0.fd == s[|s| - 1].0.fd
    ensures forall j | 0 <= j < i :: s[j].0.fd != s[i].0.fd
  {
    var last := s[|s| - 1].0;
    var i := Table.Find(s, ComparePollFd, last);
    assert ComparePollFd(last, s[|s| - 1].0) == 0;
    assert forall j | 0 <= j < i :: ComparePollFd(last, s[j].0) != 0;
    i
  }

  /** The nodes in the order of their release: always the last one, while the first of its descriptor is removed. */
  function Released(s: seq<Entry>): (r: seq<SslNode>)
    ensures |r| == |s|
    decreases |s|
  {
    if s == [] then [] else [s[|s| - 1].1] + Released(Table.SwapRemove(s, FirstLike(s)))
  }

  lemma ReleasedFirst(s: seq<Entry>)
    ensures if s == [] then Released(s) == []
            else Released(s) == [s[|s| - 1].1] + Released(Table.SwapRemove(s, FirstLike(s)))
  {
  }

  /** With distinct descriptors every node is released exactly once, from the last entry to the first. */
  lemma {:induction false} ReleasedReverse(s: seq<Entry>)
    requires Table.Distinct(s, Fd)
    ensures forall k | 0 <= k < |s| :: Released(s)[k] == s[|s| - 1 - k].1
    decreases |s|
  {
    if s != [] {
      assert FirstLike(s) == |s| - 1 by {
        var i := FirstLike(s);
        assert i < |s| - 1 ==> Fd(s[i].0) != Fd(s[|s| - 1].0);
      }
      assert Table.SwapRemove(s, |s| - 1) == s[..|s| - 1];
      ReleasedReverse(s[..|s| - 1]);
    }
  }

  /**
   An entry that is the first of its descriptor: its node is still to be released, or a later entry
   with the descriptor takes the slot after its own release, and is released again.
   */
  lemma {:induction false} FirstIsReleased(s: seq<Entry>, j: nat)
    requires j < |s| && forall i | 0 <= i < j :: s[i].0.fd != s[j].0.fd
    ensures s[j].1 in Released(s) || !NoDuplicates(Released(s))
    decreases |s|
  {
    var last, i := s[|s| - 1].1, FirstLike(s);
    var rest := Table.SwapRemove(s, i);
    if j < |s| - 1 {
      assert forall k | 0 <= k < |rest| :: rest[k].0.fd == s[k].0.fd;
      FirstIsReleased(rest, j);
      RepeatsTail(last, Released(rest));
    }
  }

  lemma RepeatsTail<X>(x: X, r: seq<X>)
    ensures !NoDuplicates(r) || x in r ==> !NoDuplicates([x] + r)
  {
    var s := [x] + r;
    if i, j :| 0 <= i < j < |r| && r[i] == r[j] {
      assert s[i + 1] == s[j + 1];
    } else if x in r {
      var i :| 0 <= i < |r| && r[i] == x;
      assert s[0] == s[i + 1];
    }
  }

  /** A repeated descriptor makes the destructor release some node twice. */
  lemma {:induction false} RepeatedIsReleasedTwice(s: seq<Entry>)
    requires !Table.Distinct(s, Fd)
    ensures !NoDuplicates(Released(s))
    decreases |s|
  {
    var n, i := |s| - 1, FirstLike(s);
    var rest := Table.SwapRemove(s, i);
    if i < n {
      assert rest[i] == s[n] && forall k | 0 <= k < |rest| :: rest[k].0.fd == s[k].0.fd;
      FirstIsReleased(rest, i);
    } else {
      assert rest == s[..n];
      assert !Table.Distinct(rest, Fd) by {
        var a, b :| 0 <= a < b < |s| && Fd(s[a].0) == Fd(s[b].0);
        assert b < n && Fd(rest[a].0) == Fd(rest[b].0);
      }
      RepeatedIsReleasedTwice(rest);
    }
    RepeatsTail(s[n].1, Released(rest));
  }

  /** The destructor is right exactly for the tables whose descriptors are distinct. */
  lemma ReleasedOnceIff(s: seq<Entry>)
    requires forall i, j | 0 <= i < j < |s| :: s[i].1 != s[j].1
    ensures NoDuplicates(Released(s)) <==> Table.Distinct(s, Fd)
  {
    if Table.Distinct(s, Fd) {
      ReleasedReverse(s);
    } else {
      RepeatedIsReleasedTwice(s);
    }
  }
}
