/**
 One sweep of the connection table after poll, on values: what has been visited while entries are
 swap-removed under the walking index and a new one is appended.
 */
module EventLoop {
  import opened Basics
  import opened ServerApi
  import Table

  const POLLIN: bv16 := 0x0001

  datatype PollFd = PollFd(fd: int, revents: bv16)
  type Entry = (PollFd, SslNode)

  function Fd(p: PollFd): int { p.fd }
  function ComparePollFd(a: PollFd, b: PollFd): int { a.fd - b.fd }

  lemma CompareAgrees()
    ensures Table.Agrees(ComparePollFd, Fd)
  {
  }

  /** So the server's table is a map from descriptors to connections, for all calls that add only new descriptors. */
  lemma ServerTableIsMap(ops: seq<Table.Op<PollFd, SslNode>>)
    requires Table.FreshAdds(ops, Fd)
    ensures Table.Distinct(Table.Run(ops, ComparePollFd), Fd)
    ensures Table.AsMap(Table.Run(ops, ComparePollFd), Fd) == Table.RunMap(ops, Fd)
  {
    CompareAgrees();
    Table.TableRefinesMap(ops, ComparePollFd, Fd);
  }

  predicate Ready(e: Entry) { e.0.revents & POLLIN != 0 }

  function ReadyCount(s: seq<Entry>): nat {
    if s == [] then 0 else (if Ready(s[0]) then 1 else 0) + ReadyCount(s[1..])
  }

  /** The number of entries with any event, which is what a successful poll returns. */
  function PollCount(s: seq<Entry>): nat {
    if s == [] then 0 else (if s[0].0.revents != 0 then 1 else 0) + PollCount(s[1..])
  }

  /** It counts each entry with an event once. */
  lemma {:induction false} PollCountIs(s: seq<Entry>)
    ensures PollCount(s) == |set i | 0 <= i < |s| && s[i].0.revents != 0|
  {
    if s != [] {
      var n := |s| - 1;
      PollCountIs(s[..n]);
      PollCountSnoc(s[..n], s[n]);
      assert s == s[..n] + [s[n]];
      var there := set i | 0 <= i < n && s[..n][i].0.revents != 0;
      assert (set i | 0 <= i < |s| && s[i].0.revents != 0) == there + if s[n].0.revents != 0 then {n} else {};
    }
  }

  lemma {:induction false} ReadyIsPolled(s: seq<Entry>)
    ensures ReadyCount(s) <= PollCount(s)
  {
    if s != [] { ReadyIsPolled(s[1..]); }
  }

  lemma {:induction false} ReadyCountConcat(a: seq<Entry>, b: seq<Entry>)
    ensures ReadyCount(a + b) == ReadyCount(a) + ReadyCount(b)
  {
    if a == [] {
      assert a + b == b;
    } else {
      ReadyCountConcat(a[1..], b);
      assert (a + b)[1..] == a[1..] + b;
    }
  }

  lemma {:induction false} NoneReady(s: seq<Entry>, i: nat)
    requires ReadyCount(s) == 0 && i < |s|
    ensures !Ready(s[i])
    decreases |s|
  {
    if i > 0 { NoneReady(s[1..], i - 1); }
  }

  /** Connections as (descriptor, node) pairs; with distinct descriptors this is the map from one to the other. */
  function Pairs(s: seq<Entry>): set<(int, SslNode)> { set e | e in s :: (e.0.fd, e.1) }
  function Fds(s: seq<Entry>): set<int> { set e | e in s :: e.0.fd }
  function ReadyFds(s: seq<Entry>): set<int> { set e | e in s && Ready(e) :: e.0.fd }

  ghost predicate NoDuplicates<X>(s: seq<X>) { forall i, j :: 0 <= i < j < |s| ==> s[i] != s[j] }

  /** The world outside during one sweep: which reads succeed. */
  type ReadOk = int -> bool

  predicate Drops(e: Entry, listen: int, ok: ReadOk) { Ready(e) && e.0.fd != listen && !ok(e.0.fd) }

  /** The connections of s that survive a sweep that has visited the descriptors in done. */
  function Kept(s: seq<Entry>, done: set<int>, listen: int, ok: ReadOk): set<(int, SslNode)> {
    set e | e in s && !(e.0.fd in done && Drops(e, listen, ok)) :: (e.0.fd, e.1)
  }

  function Added(acc: Option<Entry>): set<(int, SslNode)> {
    if acc.Some? then {(acc.value.0.fd, acc.value.1)} else {}
  }

  function AddedFd(acc: Option<Entry>): set<int> { if acc.Some? then {acc.value.0.fd} else {} }

  /** An entry that accept appended has no events. Its descriptor may be one that the walk has closed before. */
  predicate NewEntry(s0: seq<Entry>, done: set<int>, e: Entry) {
    e.0.revents == 0 && (e.0.fd !in Fds(s0) || e.0.fd in done)
  }

  ghost predicate Coming(s0: seq<Entry>, c: seq<Entry>, index: nat, done: set<int>, acc: Option<Entry>) {
    && index <= |c|
    && (forall i | index <= i < |c| :: (c[i] in s0 && c[i].0.fd !in done) || acc == Some(c[i]))
    && (forall e | e in s0 :: e.0.fd in done || exists i :: index <= i < |c| && c[i] == e)
  }

  ghost predicate Past(s0: seq<Entry>, done: set<int>, handled: seq<int>) {
    && NoDuplicates(handled)
    && (forall fd :: fd in handled <==> fd in done && fd in ReadyFds(s0))
  }

  ghost predicate SweepInv(s0: seq<Entry>, c: seq<Entry>, index: nat, done: set<int>, handled: seq<int>,
                           acc: Option<Entry>, listen: int, ok: ReadOk) {
    && Table.Distinct(s0, Fd) && Table.Distinct(c, Fd)
    && (acc.Some? ==> NewEntry(s0, done, acc.value) && listen in done)
    && done <= Fds(s0) + AddedFd(acc)
    && Coming(s0, c, index, done, acc)
    && Past(s0, done, handled)
    && Pairs(c) == Kept(s0, done, listen, ok) + Added(acc)
    && Cleared(c, index, listen)
  }

  /** Behind the walk only the listening socket may still show input. */
  ghost predicate Cleared(c: seq<Entry>, index: nat, listen: int) {
    forall i | 0 <= i < index && i < |c| && Ready(c[i]) :: c[i].0.fd == listen
  }

  lemma SweepStarts(s0: seq<Entry>, listen: int, ok: ReadOk)
    requires Table.Distinct(s0, Fd)
    ensures SweepInv(s0, s0, 0, {}, [], None, listen, ok)
  {
    forall e | e in s0
      ensures exists i :: 0 <= i < |s0| && s0[i] == e
    {
    }
  }

  lemma SameFdSameEntry(s0: seq<Entry>, a: Entry, b: Entry)
    requires Table.Distinct(s0, Fd) && a in s0 && b in s0 && a.0.fd == b.0.fd
    ensures a == b
  {
    var i :| 0 <= i < |s0| && s0[i] == a;
    var j :| 0 <= j < |s0| && s0[j] == b;
    assert i < j ==> Fd(s0[i].0) != Fd(s0[j].0);
    assert j < i ==> Fd(s0[j].0) != Fd(s0[i].0);
  }

  /** Visiting the entry at index, which stays in the table: nothing else of the walk changes. */
  lemma ComingAdvance(s0: seq<Entry>, c: seq<Entry>, index: nat, done: set<int>, acc: Option<Entry>, c': seq<Entry>, acc': Option<Entry>)
    requires Table.Distinct(c, Fd) && Table.Distinct(s0, Fd)
    requires Coming(s0, c, index, done, acc) && index < |c| <= |c'|
    requires forall i | index < i < |c| :: c'[i] == c[i]
    requires |c'| == |c| || (|c'| == |c| + 1 && acc' == Some(c'[|c|]))
    requires acc.Some? ==> acc' == acc
    ensures Coming(s0, c', index + 1, done + {c[index].0.fd}, acc')
  {
    var fd := c[index].0.fd;
    forall i | index + 1 <= i < |c'|
      ensures (c'[i] in s0 && c'[i].0.fd !in done + {fd}) || acc' == Some(c'[i])
    {
      if i < |c| { assert Fd(c[index].0) != Fd(c[i].0); }
    }
    forall e | e in s0
      ensures e.0.fd in done + {fd} || exists i :: index + 1 <= i < |c'| && c'[i] == e
    {
      if e.0.fd !in done + {fd} {
        var i :| index <= i < |c| && c[i] == e;
        assert c'[i] == e;
      }
    }
  }

  lemma PastHandled(s0: seq<Entry>, done: set<int>, handled: seq<int>, e: Entry)
    requires Past(s0, done, handled) && e in s0 && Ready(e) && e.0.fd !in done
    ensures Past(s0, done + {e.0.fd}, handled + [e.0.fd])
  {
    assert e.0.fd in ReadyFds(s0);
    assert e.0.fd !in handled;
  }

  lemma PastSkipped(s0: seq<Entry>, done: set<int>, handled: seq<int>, e: Entry, acc: Option<Entry>)
    requires Past(s0, done, handled) && Table.Distinct(s0, Fd) && !Ready(e)
    requires e in s0 || (acc == Some(e) && NewEntry(s0, done, e))
    ensures Past(s0, done + {e.0.fd}, handled)
  {
    assert e.0.fd in done || e.0.fd !in ReadyFds(s0) by {
      if e.0.fd in ReadyFds(s0) {
        var r :| r in s0 && Ready(r) && r.0.fd == e.0.fd;
        assert r.0.fd in Fds(s0);
        if e in s0 { SameFdSameEntry(s0, r, e); }
      }
    }
  }

  lemma KeptUnchanged(s0: seq<Entry>, done: set<int>, e: Entry, acc: Option<Entry>, listen: int, ok: ReadOk)
    requires Table.Distinct(s0, Fd) && (e in s0 || (acc == Some(e) && NewEntry(s0, done, e)))
    requires !Drops(e, listen, ok)
    ensures Kept(s0, done + {e.0.fd}, listen, ok) == Kept(s0, done, listen, ok)
  {
    forall x | x in s0 && x.0.fd == e.0.fd && e.0.fd !in done
      ensures !Drops(x, listen, ok)
    {
      assert x.0.fd in Fds(s0);
      SameFdSameEntry(s0, x, e);
    }
  }

  lemma KeptDropped(s0: seq<Entry>, done: set<int>, e: Entry, listen: int, ok: ReadOk)
    requires Table.Distinct(s0, Fd) && e in s0 && Drops(e, listen, ok)
    ensures Kept(s0, done + {e.0.fd}, listen, ok) == Kept(s0, done, listen, ok) - {(e.0.fd, e.1)}
  {
    forall x | x in s0 && x.0.fd == e.0.fd
      ensures x == e
    {
      SameFdSameEntry(s0, x, e);
    }
  }

  // ---------- The five things one turn of the loop can do ----------

  lemma PairsReplace(c: seq<Entry>, i: nat, e: Entry)
    requires i < |c| && e.0.fd == c[i].0.fd && e.1 == c[i].1
    ensures Pairs(c[i := e]) == Pairs(c)
    ensures Table.Distinct(c, Fd) ==> Table.Distinct(c[i := e], Fd)
  {
    var c' := c[i := e];
    assert forall j | 0 <= j < |c| :: c'[j].0.fd == c[j].0.fd && c'[j].1 == c[j].1;
    forall p | p in Pairs(c)
      ensures p in Pairs(c')
    {
      var x :| x in c && p == (x.0.fd, x.1);
      var j :| 0 <= j < |c| && c[j] == x;
      assert c'[j] in c';
    }
    forall p | p in Pairs(c')
      ensures p in Pairs(c)
    {
      var x :| x in c' && p == (x.0.fd, x.1);
      var j :| 0 <= j < |c'| && c'[j] == x;
      assert c[j] in c;
    }
  }

  lemma DistinctRemove(c: seq<Entry>, i: nat)
    requires i < |c| && Table.Distinct(c, Fd)
    ensures Table.Distinct(Table.SwapRemove(c, i), Fd)
  {
  }

  lemma PairsRemove(c: seq<Entry>, i: nat)
    requires i < |c| && Table.Distinct(c, Fd)
    ensures Pairs(Table.SwapRemove(c, i)) == Pairs(c) - {(c[i].0.fd, c[i].1)}
  {
    var r := Table.SwapRemove(c, i);
    forall p | p in Pairs(r)
      ensures p in Pairs(c) && p != (c[i].0.fd, c[i].1)
    {
      var x :| x in r && p == (x.0.fd, x.1);
      var j :| 0 <= j < |r| && r[j] == x;
      var k := if j == i then |c| - 1 else j;
      assert c[k] == x && c[k] in c;
      assert k < i ==> Fd(c[k].0) != Fd(c[i].0);
      assert i < k ==> Fd(c[i].0) != Fd(c[k].0);
    }
    forall p | p in Pairs(c) && p != (c[i].0.fd, c[i].1)
      ensures p in Pairs(r)
    {
      var x :| x in c && p == (x.0.fd, x.1);
      var j :| 0 <= j < |c| && c[j] == x;
      assert r[if j == |c| - 1 then i else j] in r;
    }
  }

  lemma PairsAppend(c: seq<Entry>, e: Entry)
    ensures Pairs(c + [e]) == Pairs(c) + {(e.0.fd, e.1)}
  {
    assert forall x :: x in c + [e] <==> x in c || x == e;
  }

  /** The entry has no POLLIN: walk on. */
  lemma StepPass(s0: seq<Entry>, c: seq<Entry>, index: nat, done: set<int>, handled: seq<int>,
                 acc: Option<Entry>, listen: int, ok: ReadOk)
    requires SweepInv(s0, c, index, done, handled, acc, listen, ok) && index < |c| && !Ready(c[index])
    ensures SweepInv(s0, c, index + 1, done + {c[index].0.fd}, handled, acc, listen, ok)
  {
    ComingAdvance(s0, c, index, done, acc, c, acc);
    PastSkipped(s0, done, handled, c[index], acc);
    KeptUnchanged(s0, done, c[index], acc, listen, ok);
  }

  /** A successful read: its revents are cleared in place. */
  lemma StepRead(s0: seq<Entry>, c: seq<Entry>, index: nat, done: set<int>, handled: seq<int>,
                 acc: Option<Entry>, listen: int, ok: ReadOk)
    requires SweepInv(s0, c, index, done, handled, acc, listen, ok) && index < |c| && Ready(c[index])
    requires c[index].0.fd != listen && ok(c[index].0.fd)
    ensures var fd := c[index].0.fd;
            SweepInv(s0, c[index := (PollFd(fd, 0), c[index].1)], index + 1, done + {fd}, handled + [fd], acc, listen, ok)
  {
    var e := c[index];
    var c' := c[index := (PollFd(e.0.fd, 0), e.1)];
    ComingAdvance(s0, c, index, done, acc, c', acc);
    PastHandled(s0, done, handled, e);
    KeptUnchanged(s0, done, e, acc, listen, ok);
    PairsReplace(c, index, c'[index]);
  }

  lemma ComingRemove(s0: seq<Entry>, c: seq<Entry>, index: nat, done: set<int>, acc: Option<Entry>)
    requires Table.Distinct(c, Fd) && Coming(s0, c, index, done, acc) && index < |c|
    ensures Coming(s0, Table.SwapRemove(c, index), index, done + {c[index].0.fd}, acc)
  {
    var c', fd := Table.SwapRemove(c, index), c[index].0.fd;
    forall i | index <= i < |c'|
      ensures (c'[i] in s0 && c'[i].0.fd !in done + {fd}) || acc == Some(c'[i])
    {
      var k := if i == index then |c| - 1 else i;
      assert c'[i] == c[k] && Fd(c[index].0) != Fd(c[k].0);
    }
    forall e | e in s0
      ensures e.0.fd in done + {fd} || exists i :: index <= i < |c'| && c'[i] == e
    {
      if e.0.fd !in done + {fd} {
        var i :| index <= i < |c| && c[i] == e;
        assert c'[if i == |c| - 1 then index else i] == e;
      }
    }
  }

  /** A failed read: the last entry takes the slot, and the walk visits the slot again. */
  lemma StepDrop(s0: seq<Entry>, c: seq<Entry>, index: nat, done: set<int>, handled: seq<int>,
                 acc: Option<Entry>, listen: int, ok: ReadOk)
    requires SweepInv(s0, c, index, done, handled, acc, listen, ok) && index < |c| && Ready(c[index])
    requires c[index].0.fd != listen && !ok(c[index].0.fd)
    ensures var fd := c[index].0.fd;
            SweepInv(s0, Table.SwapRemove(c, index), index, done + {fd}, handled + [fd], acc, listen, ok)
  {
    var e := c[index];
    ComingRemove(s0, c, index, done, acc);
    PastHandled(s0, done, handled, e);
    KeptDropped(s0, done, e, listen, ok);
    PairsRemove(c, index);
    DistinctRemove(c, index);
    assert (e.0.fd, e.1) !in Added(acc) by {
      if acc.Some? { assert e.0.fd in Fds(s0); }
    }
  }

  /** Before an accept every entry of the table is one of the old ones, up to its events. */
  lemma OnlyOldFds(s0: seq<Entry>, c: seq<Entry>, index: nat, done: set<int>, handled: seq<int>, listen: int, ok: ReadOk)
    requires SweepInv(s0, c, index, done, handled, None, listen, ok)
    ensures Fds(c) <= Fds(s0)
  {
    forall e | e in c
      ensures e.0.fd in Fds(s0)
    {
      assert (e.0.fd, e.1) in Pairs(c);
    }
  }

  /** The listening socket, wherever it stands; accept may append a new entry. */
  lemma StepAccept(s0: seq<Entry>, c: seq<Entry>, index: nat, done: set<int>, handled: seq<int>,
                   listen: int, ok: ReadOk, acc: Option<Entry>)
    requires SweepInv(s0, c, index, done, handled, None, listen, ok) && index < |c| && Ready(c[index])
    requires c[index].0.fd == listen && (acc.Some? ==> acc.value.0.fd !in Fds(c) && acc.value.0.revents == 0)
    ensures var c' := if acc.Some? then c + [acc.value] else c;
            SweepInv(s0, c', index + 1, done + {listen}, handled + [listen], acc, listen, ok)
  {
    var e := c[index];
    var c' := if acc.Some? then c + [acc.value] else c;
    OnlyOldFds(s0, c, index, done, handled, listen, ok);
    assert e in c;
    assert Cleared(c', index + 1, listen);
    hide Cleared;
    if acc.Some? {
      PairsAppend(c, acc.value);
      DistinctAppend(c, acc.value);
    }
    ComingAdvance(s0, c, index, done, None, c', acc);
    PastHandled(s0, done, handled, e);
    KeptUnchanged(s0, done, e, None, listen, ok);
  }

  lemma DistinctAppend(c: seq<Entry>, e: Entry)
    requires Table.Distinct(c, Fd) && e.0.fd !in Fds(c)
    ensures Table.Distinct(c + [e], Fd)
  {
    assert forall i | 0 <= i < |c| :: c[i] in c && (c + [e])[i] == c[i];
  }

  /** Clearing the revents of an entry that is behind the walk. */
  lemma StepClear(s0: seq<Entry>, c: seq<Entry>, index: nat, done: set<int>, handled: seq<int>,
                  acc: Option<Entry>, listen: int, ok: ReadOk, j: nat)
    requires SweepInv(s0, c, index, done, handled, acc, listen, ok) && j < index && j < |c|
    ensures SweepInv(s0, c[j := (PollFd(c[j].0.fd, 0), c[j].1)], index, done, handled, acc, listen, ok)
  {
    var c' := c[j := (PollFd(c[j].0.fd, 0), c[j].1)];
    PairsReplace(c, j, c'[j]);
    assert forall i | index <= i < |c| :: c'[i] == c[i];
    forall e | e in s0 && e.0.fd !in done
      ensures exists i :: index <= i < |c'| && c'[i] == e
    {
      var i :| index <= i < |c| && c[i] == e;
      assert c'[i] == e;
    }
  }

  /** When nothing ready is left ahead, everything ready was handled and the table is what it should be. */
  ghost predicate SweepResult(s0: seq<Entry>, c: seq<Entry>, handled: seq<int>, acc: Option<Entry>, listen: int, ok: ReadOk) {
    && Table.Distinct(c, Fd)
    && NoDuplicates(handled) && (forall fd :: fd in handled <==> fd in ReadyFds(s0))
    && Pairs(c) == (set e | e in s0 && !Drops(e, listen, ok) :: (e.0.fd, e.1)) + Added(acc)
    && (forall e | e in c && Ready(e) :: e.0.fd == listen)
  }

  lemma SweepEnds(s0: seq<Entry>, c: seq<Entry>, index: nat, done: set<int>, handled: seq<int>,
                  acc: Option<Entry>, listen: int, ok: ReadOk)
    requires SweepInv(s0, c, index, done, handled, acc, listen, ok)
    requires forall i | index <= i < |c| :: !Ready(c[i])
    ensures SweepResult(s0, c, handled, acc, listen, ok)
  {
    forall e | e in s0 && Ready(e)
      ensures e.0.fd in done
    {
    }
    assert Kept(s0, done, listen, ok) == set e | e in s0 && !Drops(e, listen, ok) :: (e.0.fd, e.1);
  }

  // ---------- Which descriptors are open when accept runs ----------

  /** The descriptors in the table when a walk from index comes to the listening socket. */
  function AtAccept(c: seq<Entry>, index: nat, listen: int, ok: ReadOk): set<int>
    decreases |c| - index
  {
    if index >= |c| || c[index].0.fd == listen then Fds(c)
    else if Drops(c[index], listen, ok) then AtAccept(Table.SwapRemove(c, index), index, listen, ok)
    else if Ready(c[index]) then AtAccept(c[index := (PollFd(c[index].0.fd, 0), c[index].1)], index + 1, listen, ok)
    else AtAccept(c, index + 1, listen, ok)
  }

  lemma AtListener(c: seq<Entry>, index: nat, listen: int, ok: ReadOk)
    requires index < |c| && c[index].0.fd == listen
    ensures AtAccept(c, index, listen, ok) == Fds(c)
  {
  }

  /** They are those of the table, less some whose read has failed by then. */
  lemma {:induction false} AtAcceptIsOpen(c: seq<Entry>, index: nat, listen: int, ok: ReadOk)
    ensures AtAccept(c, index, listen, ok) <= Fds(c)
    ensures forall e | e in c && !Drops(e, listen, ok) :: e.0.fd in AtAccept(c, index, listen, ok)
    decreases |c| - index
  {
    if index < |c| && c[index].0.fd != listen {
      if Drops(c[index], listen, ok) {
        var r := Table.SwapRemove(c, index);
        AtAcceptIsOpen(r, index, listen, ok);
        forall e | e in c && !Drops(e, listen, ok)
          ensures e in r
        {
          var j :| 0 <= j < |c| && c[j] == e;
          assert r[if j == |c| - 1 then index else j] == e;
        }
      } else if Ready(c[index]) {
        var r := c[index := (PollFd(c[index].0.fd, 0), c[index].1)];
        AtAcceptIsOpen(r, index + 1, listen, ok);
        PairsReplace(c, index, r[index]);
        assert r[index] in r && !Drops(r[index], listen, ok);
        assert forall e | e in r :: e.0.fd in Fds(c) by {
          forall e | e in r ensures e.0.fd in Fds(c) { assert (e.0.fd, e.1) in Pairs(c); }
        }
        forall e | e in c && !Drops(e, listen, ok)
          ensures e.0.fd in AtAccept(r, index + 1, listen, ok)
        {
          var j :| 0 <= j < |c| && c[j] == e;
          assert r[j] in r;
        }
      } else {
        AtAcceptIsOpen(c, index + 1, listen, ok);
      }
    }
  }

  /** What has been visited does not matter for the rest. */
  lemma {:induction false} AtAcceptBehind(c: seq<Entry>, index: nat, listen: int, ok: ReadOk, j: nat)
    requires j < index && j < |c|
    ensures AtAccept(c[j := (PollFd(c[j].0.fd, 0), c[j].1)], index, listen, ok) <= AtAccept(c, index, listen, ok)
    decreases |c| - index
  {
    var e := (PollFd(c[j].0.fd, 0), c[j].1);
    if index >= |c| || c[index].0.fd == listen {
      forall x | x in c[j := e]
        ensures x.0.fd in Fds(c)
      {
        assert x == e || x in c;
        assert c[j] in c;
      }
    } else if Drops(c[index], listen, ok) {
      var r := Table.SwapRemove(c, index);
      AtAcceptBehind(r, index, listen, ok, j);
      assert r[j := e] == Table.SwapRemove(c[j := e], index);
    } else if Ready(c[index]) {
      var r := c[index := (PollFd(c[index].0.fd, 0), c[index].1)];
      AtAcceptBehind(r, index + 1, listen, ok, j);
      assert r[j := e] == c[j := e][index := r[index]];
    } else {
      AtAcceptBehind(c, index + 1, listen, ok, j);
    }
  }

  // ---------- When the walk stays inside the table ----------

  /** Some entry survives the sweep: the listening socket, one without input, or one whose read succeeds. */
  ghost predicate Stays(s: seq<Entry>, listen: int, ok: ReadOk) { exists e :: e in s && !Drops(e, listen, ok) }

  lemma ListenerStays(s: seq<Entry>, listen: int, ok: ReadOk)
    requires listen in Fds(s)
    ensures Stays(s, listen, ok)
  {
    var e :| e in s && e.0.fd == listen;
    assert !Drops(e, listen, ok);
  }

  /** A table that the walk has emptied had no entry to stay. */
  lemma EmptiedIff(s0: seq<Entry>, c: seq<Entry>, index: nat, done: set<int>, handled: seq<int>,
                   acc: Option<Entry>, listen: int, ok: ReadOk)
    requires SweepInv(s0, c, index, done, handled, acc, listen, ok)
    requires acc.Some? ==> listen in Fds(s0)
    ensures c == [] ==> !Stays(s0, listen, ok)
    ensures c != [] && NothingAhead(c, index) ==> Stays(s0, listen, ok)
  {
    if c == [] {
      forall e | e in s0
        ensures Drops(e, listen, ok)
      {
        assert (e.0.fd, e.1) !in Pairs(c);
      }
    } else if NothingAhead(c, index) {
      SweepEnds(s0, c, index, done, handled, acc, listen, ok);
      assert c[0] in c && (c[0].0.fd, c[0].1) in Pairs(c);
      if acc.Some? { ListenerStays(s0, listen, ok); }
    }
  }

  // ---------- The ready counter ----------

  lemma CountHead(c: seq<Entry>, index: nat)
    requires index < |c|
    ensures ReadyCount(c[index..]) == (if Ready(c[index]) then 1 else 0) + ReadyCount(c[index + 1..])
  {
    assert c[index..][1..] == c[index + 1..];
  }

  lemma CountRemove(c: seq<Entry>, index: nat)
    requires index < |c|
    ensures ReadyCount(Table.SwapRemove(c, index)[index..])
         == ReadyCount(c[index..]) - (if Ready(c[index]) then 1 else 0)
  {
    var r := Table.SwapRemove(c, index);
    CountHead(c, index);
    if index < |c| - 1 {
      var last, mid := c[|c| - 1], c[index + 1..|c| - 1];
      assert c[index + 1..] == mid + [last];
      assert r[index..] == [last] + mid;
      ReadyCountConcat(mid, [last]);
      ReadyCountConcat([last], mid);
    } else {
      assert r[index..] == [] && c[index + 1..] == [];
    }
  }

  predicate NothingAhead(c: seq<Entry>, index: nat) { forall i | index <= i < |c| :: !Ready(c[i]) }

  /** The counter of the walk: it reaches 0 only when nothing ready is left; a failed poll never reaches 0. */
  predicate Budget(sockets: int, c: seq<Entry>, index: nat) {
    if sockets == 0 then NothingAhead(c, index)
    else index < |c| && (sockets > 0 ==> sockets >= ReadyCount(c[index..]))
  }

  lemma BudgetSpent(sockets: int, c: seq<Entry>, index: nat)
    requires index < |c| && (sockets >= 0 ==> sockets >= ReadyCount(c[index..]))
    ensures Budget(sockets, c, index)
  {
    if sockets == 0 {
      forall i | index <= i < |c|
        ensures !Ready(c[i])
      {
        NoneReady(c[index..], i - index);
      }
    }
  }

  // ---------- Poll before the sweep ----------

  /** The events that poll reports for each descriptor. */
  type Events = int -> bv16

  function Polled(c: seq<Entry>, events: Events): (r: seq<Entry>)
    ensures |r| == |c|
    ensures forall i | 0 <= i < |c| :: r[i] == (PollFd(c[i].0.fd, events(c[i].0.fd)), c[i].1)
  {
    seq(|c|, i requires 0 <= i < |c| => (PollFd(c[i].0.fd, events(c[i].0.fd)), c[i].1))
  }

  lemma PolledSnoc(c: seq<Entry>, i: nat, events: Events)
    requires i < |c|
    ensures var e := (PollFd(c[i].0.fd, events(c[i].0.fd)), c[i].1);
            && Polled(c[..i + 1], events) == Polled(c[..i], events) + [e]
            && (Polled(c[..i], events) + c[i..])[i := e] == Polled(c[..i + 1], events) + c[i + 1..]
            && PollCount(Polled(c[..i + 1], events)) ==
               PollCount(Polled(c[..i], events)) + if events(c[i].0.fd) != 0 then 1 else 0
  {
    var p, e := Polled(c[..i], events), (PollFd(c[i].0.fd, events(c[i].0.fd)), c[i].1);
    assert Polled(c[..i + 1], events) == p + [e];
    assert (p + c[i..])[i := e] == p + [e] + c[i + 1..];
    PollCountSnoc(p, e);
  }

  lemma {:induction false} PollCountSnoc(s: seq<Entry>, e: Entry)
    ensures PollCount(s + [e]) == PollCount(s) + if e.0.revents != 0 then 1 else 0
  {
    if s != [] {
      assert (s + [e])[1..] == s[1..] + [e];
      PollCountSnoc(s[1..], e);
    }
  }

  lemma PolledKeeps(c: seq<Entry>, events: Events)
    ensures Table.Distinct(Polled(c, events), Fd) <==> Table.Distinct(c, Fd)
    ensures Fds(Polled(c, events)) == Fds(c)
  {
    var p := Polled(c, events);
    assert forall i | 0 <= i < |c| :: p[i] in p && c[i] in c && Fd(p[i].0) == Fd(c[i].0);
    forall fd | fd in Fds(c)
      ensures fd in Fds(p)
    {
      var i :| 0 <= i < |c| && c[i].0.fd == fd;
      assert p[i] in p;
    }
    forall fd | fd in Fds(p)
      ensures fd in Fds(c)
    {
      var i :| 0 <= i < |p| && p[i].0.fd == fd;
      assert c[i] in c;
    }
  }

  /**
   A turn in terms of the descriptors alone: every open one with input is served once, and the connections
   afterwards are those before, less the clients whose read failed, plus the accepted one.
   */
  ghost predicate TurnResult(table: seq<Entry>, c: seq<Entry>, handled: seq<int>, acc: Option<Entry>,
                             events: Events, listen: int, ok: ReadOk) {
    && Table.Distinct(c, Fd) && NoDuplicates(handled) && (forall e | e in c && Ready(e) :: e.0.fd == listen)
    && (forall fd :: fd in handled <==> fd in Fds(table) && events(fd) & POLLIN != 0)
    && Pairs(c) == (set p | p in Pairs(table) && (events(p.0) & POLLIN != 0 && p.0 != listen ==> ok(p.0))) + Added(acc)
  }

  lemma ReadyPolled(table: seq<Entry>, events: Events)
    ensures forall fd :: fd in ReadyFds(Polled(table, events)) <==> fd in Fds(table) && events(fd) & POLLIN != 0
  {
    var p := Polled(table, events);
    forall fd | fd in Fds(table) && events(fd) & POLLIN != 0
      ensures fd in ReadyFds(p)
    {
      var i :| 0 <= i < |table| && table[i].0.fd == fd;
      assert p[i] in p && Ready(p[i]);
    }
  }

  lemma KeptPolled(table: seq<Entry>, events: Events, listen: int, ok: ReadOk)
    ensures (set e | e in Polled(table, events) && !Drops(e, listen, ok) :: (e.0.fd, e.1))
         == set q | q in Pairs(table) && (events(q.0) & POLLIN != 0 && q.0 != listen ==> ok(q.0))
  {
    var p := Polled(table, events);
    forall q | q in Pairs(table) && (events(q.0) & POLLIN != 0 && q.0 != listen ==> ok(q.0))
      ensures exists e :: e in p && !Drops(e, listen, ok) && (e.0.fd, e.1) == q
    {
      var i :| 0 <= i < |table| && q == (table[i].0.fd, table[i].1);
      assert p[i] in p && !Drops(p[i], listen, ok) && (p[i].0.fd, p[i].1) == q;
    }
  }

  /** Every connection has input and is lost when it is read. */
  ghost predicate AllLost(table: seq<Entry>, events: Events, listen: int, ok: ReadOk) {
    forall e | e in table :: events(e.0.fd) & POLLIN != 0 && e.0.fd != listen && !ok(e.0.fd)
  }

  lemma LostPolled(table: seq<Entry>, events: Events, listen: int, ok: ReadOk)
    ensures Stays(Polled(table, events), listen, ok) <==> !AllLost(table, events, listen, ok)
    ensures PollCount(Polled(table, events)) == 0 && table != [] ==> !AllLost(table, events, listen, ok)
    ensures table == [] ==> PollCount(Polled(table, events)) == 0 && AllLost(table, events, listen, ok)
  {
    var p := Polled(table, events);
    if e :| e in table && !(events(e.0.fd) & POLLIN != 0 && e.0.fd != listen && !ok(e.0.fd)) {
      var i :| 0 <= i < |table| && table[i] == e;
      assert p[i] in p && !Drops(p[i], listen, ok);
    }
    if AllLost(table, events, listen, ok) && table != [] {
      assert table[0] in table && p[0].0.revents & POLLIN != 0;
      assert p[0].0.revents != 0;
    }
  }

  lemma TurnEnds(table: seq<Entry>, c: seq<Entry>, handled: seq<int>, acc: Option<Entry>,
                 events: Events, listen: int, ok: ReadOk)
    requires SweepResult(Polled(table, events), c, handled, acc, listen, ok)
    ensures TurnResult(table, c, handled, acc, events, listen, ok)
  {
    ReadyPolled(table, events);
    KeptPolled(table, events, listen, ok);
  }

  /** What a turn does to one connection other than the accepted one. */
  lemma TurnKeeps(table: seq<Entry>, c: seq<Entry>, handled: seq<int>, acc: Option<Entry>,
                  events: Events, listen: int, ok: ReadOk, p: (int, SslNode))
    requires TurnResult(table, c, handled, acc, events, listen, ok) && (acc.Some? ==> acc.value.0.fd != p.0)
    ensures p in Pairs(c) <==> p in Pairs(table) && (events(p.0) & POLLIN != 0 && p.0 != listen ==> ok(p.0))
  {
  }
}
