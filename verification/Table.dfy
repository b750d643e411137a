/** What DualDynamicArray stores, as a sequence of pairs: search, swap-removal, and the map it stands for. */
module Table {
  /** Index of the first pair whose first element compares equal to t, or -1. */
  function Find<T, N>(s: seq<(T, N)>, compare: (T, T) -> int, t: T): (r: int)
    ensures -1 <= r < |s|
    ensures r >= 0 ==> compare(t, s[r].0) == 0
    ensures forall i | 0 <= i < |s| && (r < 0 || i < r) :: compare(t, s[i].0) != 0
  {
    if s == [] then -1
    else if compare(t, s[0].0) == 0 then 0
    else
      var r := Find(s[1..], compare, t);
      assert forall i | 1 <= i < |s| :: s[i] == s[1..][i - 1];
      if r < 0 then -1 else r + 1
  }

  /** The last pair takes the place of the removed one. */
  function SwapRemove<X>(s: seq<X>, i: nat): (r: seq<X>)
    requires i < |s|
    ensures |r| == |s| - 1
    ensures forall j | 0 <= j < |r| :: r[j] == s[if j == i then |s| - 1 else j]
  {
    s[i := s[|s| - 1]][..|s| - 1]
  }

  /** Exactly one occurrence leaves, whatever the keys are. */
  lemma SwapRemoveIsMultisetRemoval<X>(s: seq<X>, i: nat)
    requires i < |s|
    ensures multiset(SwapRemove(s, i)) == multiset(s) - multiset{s[i]}
  {
    var s' := s[i := s[|s| - 1]];
    var last := s[|s| - 1];
    assert s' == SwapRemove(s, i) + [last];
    assert multiset(s') == multiset(SwapRemove(s, i)) + multiset{last};
    var rest := multiset(s) - multiset{s[i]};
    assert multiset(s') == rest + multiset{last};
    forall x
      ensures multiset(SwapRemove(s, i))[x] == rest[x]
    {
      assert (multiset(SwapRemove(s, i)) + multiset{last})[x] == (rest + multiset{last})[x];
    }
  }

  function Remove<T, N>(s: seq<(T, N)>, compare: (T, T) -> int, t: T): seq<(T, N)> {
    var i := Find(s, compare, t);
    if i < 0 then s else SwapRemove(s, i)
  }

  // ---------- The map ----------

  /** compare tells keys apart: zero exactly on equal keys. */
  ghost predicate Agrees<T(!new), K>(compare: (T, T) -> int, key: T -> K) {
    forall a, b :: compare(a, b) == 0 <==> key(a) == key(b)
  }

  ghost predicate Distinct<T, N, K>(s: seq<(T, N)>, key: T -> K) {
    forall i, j :: 0 <= i < j < |s| ==> key(s[i].0) != key(s[j].0)
  }

  ghost function AsMap<T, N, K>(s: seq<(T, N)>, key: T -> K): map<K, (T, N)>
    requires Distinct(s, key)
  {
    map i | 0 <= i < |s| :: key(s[i].0) := s[i]
  }

  lemma AddIsMapUpdate<T, N, K>(s: seq<(T, N)>, key: T -> K, p: (T, N))
    requires Distinct(s, key) && key(p.0) !in AsMap(s, key)
    ensures Distinct(s + [p], key)
    ensures AsMap(s + [p], key) == AsMap(s, key)[key(p.0) := p]
  {
    var s' := s + [p];
    assert forall i | 0 <= i < |s| :: key(s[i].0) in AsMap(s, key) && s'[i] == s[i];
    assert Distinct(s', key);
    assert key(s'[|s|].0) in AsMap(s', key);
    forall k | k in AsMap(s, key)
      ensures k in AsMap(s', key) && AsMap(s', key)[k] == AsMap(s, key)[k]
    {
      var i :| 0 <= i < |s| && key(s[i].0) == k;
      assert key(s'[i].0) == k;
    }
  }

  lemma FindIsMapLookup<T(!new), N, K>(s: seq<(T, N)>, compare: (T, T) -> int, key: T -> K, t: T)
    requires Agrees(compare, key) && Distinct(s, key)
    ensures var i := Find(s, compare, t);
            if i < 0 then key(t) !in AsMap(s, key)
            else key(t) in AsMap(s, key) && AsMap(s, key)[key(t)] == s[i]
  {
    var i := Find(s, compare, t);
    if i >= 0 {
      assert key(s[i].0) in AsMap(s, key);
    }
  }

  lemma InMap<T, N, K>(s: seq<(T, N)>, key: T -> K, i: nat)
    requires Distinct(s, key) && i < |s|
    ensures key(s[i].0) in AsMap(s, key) && AsMap(s, key)[key(s[i].0)] == s[i]
  {
  }

  lemma SwapRemoveIsMapRemoval<T, N, K>(s: seq<(T, N)>, key: T -> K, i: nat)
    requires Distinct(s, key) && i < |s|
    ensures Distinct(SwapRemove(s, i), key)
    ensures AsMap(SwapRemove(s, i), key) == AsMap(s, key) - {key(s[i].0)}
  {
    var r, m := SwapRemove(s, i), AsMap(s, key);
    assert Distinct(r, key);
    forall j | 0 <= j < |r|
      ensures key(r[j].0) in m && m[key(r[j].0)] == r[j] && key(r[j].0) != key(s[i].0)
    {
      InMap(s, key, if j == i then |s| - 1 else j);
    }
    forall k | k in m && k != key(s[i].0)
      ensures k in AsMap(r, key)
    {
      var j :| 0 <= j < |s| && key(s[j].0) == k;
      InMap(r, key, if j == |s| - 1 then i else j);
    }
    forall k | k in AsMap(r, key)
      ensures k in m && k != key(s[i].0) && AsMap(r, key)[k] == m[k]
    {
      var j :| 0 <= j < |r| && key(r[j].0) == k;
    }
  }

  lemma RemoveIsMapRemoval<T(!new), N, K>(s: seq<(T, N)>, compare: (T, T) -> int, key: T -> K, t: T)
    requires Agrees(compare, key) && Distinct(s, key)
    ensures Distinct(Remove(s, compare, t), key)
    ensures AsMap(Remove(s, compare, t), key) == AsMap(s, key) - {key(t)}
  {
    FindIsMapLookup(s, compare, key, t);
    var i := Find(s, compare, t);
    if i >= 0 { SwapRemoveIsMapRemoval(s, key, i); }
  }

  // ---------- Whole runs ----------

  datatype Op<T, N> = Add(first: T, second: N) | Rem(first: T)

  function Run<T, N>(ops: seq<Op<T, N>>, compare: (T, T) -> int): seq<(T, N)> {
    if ops == [] then []
    else
      var s := Run(ops[..|ops| - 1], compare);
      match ops[|ops| - 1]
      case Add(t, n) => s + [(t, n)]
      case Rem(t) => Remove(s, compare, t)
  }

  /** The map the same operations build; None once a present key is added again. */
  ghost function RunMap<T, N, K>(ops: seq<Op<T, N>>, key: T -> K): (m: map<K, (T, N)>) {
    if ops == [] then map[]
    else
      var m := RunMap(ops[..|ops| - 1], key);
      match ops[|ops| - 1]
      case Add(t, n) => m[key(t) := (t, n)]
      case Rem(t) => m - {key(t)}
  }

  /** No add of a key that is present at that moment. */
  ghost predicate FreshAdds<T, N, K>(ops: seq<Op<T, N>>, key: T -> K) {
    ops == [] ||
    (FreshAdds(ops[..|ops| - 1], key) &&
     (ops[|ops| - 1].Add? ==> key(ops[|ops| - 1].first) !in RunMap(ops[..|ops| - 1], key)))
  }

  /** For every sequence of operations the two parallel arrays hold exactly the map, each key with its own partner. */
  lemma {:induction false} TableRefinesMap<T(!new), N, K>(ops: seq<Op<T, N>>, compare: (T, T) -> int, key: T -> K)
    requires Agrees(compare, key) && FreshAdds(ops, key)
    ensures Distinct(Run(ops, compare), key)
    ensures AsMap(Run(ops, compare), key) == RunMap(ops, key)
  {
    if ops != [] {
      var s := Run(ops[..|ops| - 1], compare);
      TableRefinesMap(ops[..|ops| - 1], compare, key);
      match ops[|ops| - 1] {
        case Add(t, n) => AddIsMapUpdate(s, key, (t, n));
        case Rem(t) => RemoveIsMapRemoval(s, compare, key, t);
      }
    }
  }
}
