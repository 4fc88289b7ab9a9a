/** Whole runs of `HashMap` operations against the mathematical map, their growth cost, and
    iteration. */
module HashMapRuns {
  import opened HashTable
  import opened HashMaps
  import opened Sequences
  import opened Wrappers

  datatype Op<!S, !K, !V> =
    | Insert(key: K, value: V)
    | Get(key: K)
    | GetMut(key: K, write: V -> V)
    | Remove(key: K)
    | Entry(key: K)                                            // looked up and left as it is
    | OrInsertWith(key: K, default: () -> V)
    | Retain(closure: (S, K, V) -> (S, V, bool), start: S)
    | Clear

  datatype Reply<+S, +V> = Found(value: Option<V>) | Present(found: bool) | Closure(end: S) | Done

  /** The entries of a map, each exactly once, in some order. */
  ghost predicate Enumerates<K, V>(entries: seq<(K, V)>, m: map<K, V>) {
    && |entries| == |m|
    && (forall i :: 0 <= i < |entries| ==> entries[i].0 in m && m[entries[i].0] == entries[i].1)
    && (forall i, j :: 0 <= i < j < |entries| ==> entries[i].0 != entries[j].0)
  }

  /** What a closure that carries its state along the entries leaves of them. */
  ghost function SiftEntries<S, K, V>(entries: seq<(K, V)>, f: (S, K, V) -> (S, V, bool), start: S): (S, map<K, V>) {
    if entries == [] then (start, map[])
    else
      var before, (k, v) := SiftEntries(entries[..|entries| - 1], f, start), entries[|entries| - 1];
      var (state, v', keep) := f(before.0, k, v);
      (state, if keep then before.1[k := v'] else before.1)
  }

  /** The closure ran over the entries of `m` in some order and left its last state and `m'`. */
  ghost predicate Sifts<S, K(!new), V(!new)>(m: map<K, V>, f: (S, K, V) -> (S, V, bool), start: S,
                                            end: S, m': map<K, V>) {
    exists entries :: Enumerates(entries, m) && SiftEntries(entries, f, start) == (end, m')
  }

  /** What one operation does to a mathematical map, and what it answers. */
  ghost predicate Steps<S, K(!new), V(!new)>(m: map<K, V>, op: Op<S, K, V>, r: Reply<S, V>, m': map<K, V>) {
    match op
    case Insert(k, v) => r == Found(Lookup(m, k)) && m' == m[k := v]
    case Get(k) => r == Found(Lookup(m, k)) && m' == m
    case GetMut(k, write) => r == Present(k in m) && m' == if k in m then m[k := write(m[k])] else m
    case Remove(k) => r == Found(Lookup(m, k)) && m' == m - {k}
    case Entry(k) => r == Found(Lookup(m, k)) && m' == m
    case OrInsertWith(k, default) =>
      m' == (if k in m then m else m[k := default()]) && r == Found(Lookup(m', k))
    case Retain(f, start) => r.Closure? && Sifts(m, f, start, r.end, m')
    case Clear => r == Done && m' == map[]
  }

  /** The replies of a run of operations from `m`, and the map it ends with. */
  ghost predicate IsRun<S, K(!new), V(!new)>(m: map<K, V>, ops: seq<Op<S, K, V>>, replies: seq<Reply<S, V>>,
                                            m': map<K, V>)
    decreases |ops|
  {
    if ops == [] || replies == [] then ops == [] && replies == [] && m' == m
    else
      exists mid :: LastStep(mid, ops, replies, m') && IsRun(m, ops[..|ops| - 1], replies[..|replies| - 1], mid)
  }

  ghost predicate LastStep<S, K(!new), V(!new)>(m: map<K, V>, ops: seq<Op<S, K, V>>, replies: seq<Reply<S, V>>,
                                               m': map<K, V>) {
    ops != [] && replies != [] && Steps(m, ops[|ops| - 1], replies[|replies| - 1], m')
  }

  lemma {:induction false} RunLength<S, K(!new), V(!new)>(m: map<K, V>, ops: seq<Op<S, K, V>>,
                                                         replies: seq<Reply<S, V>>, m': map<K, V>)
    requires IsRun(m, ops, replies, m')
    ensures |replies| == |ops|
    decreases |ops|
  {
    if ops != [] {
      var mid :| LastStep(mid, ops, replies, m') && IsRun(m, ops[..|ops| - 1], replies[..|replies| - 1], mid);
      RunLength(m, ops[..|ops| - 1], replies[..|replies| - 1], mid);
    }
  }

  predicate Adds<S, K, V>(op: Op<S, K, V>) {
    op.Insert? || op.Entry? || op.OrInsertWith?
  }

  /** How many operations may add an entry. */
  function Calls<S, K, V>(ops: seq<Op<S, K, V>>): nat {
    if ops == [] then 0 else Calls(ops[..|ops| - 1]) + if Adds(ops[|ops| - 1]) then 1 else 0
  }

  method RetainStep<S, K(==, !new), V(!new)>(h: HashMap<K, V>, f: (S, K, V) -> (S, V, bool), start: S) returns (end: S)
    requires h.Valid()
    modifies h
    ensures h.Valid() && Sifts(old(h.model), f, start, end, h.model)
    ensures |h.slots| == old(|h.slots|) && h.used == old(h.used)
    ensures h.tableCost == old(h.tableCost) && h.inserts == old(h.inserts)
  {
    RetainSifts(h.slots, h.hasher, h.model, f, start);
    hide TableInv, Good, Sifted, Sifts;
    end := h.Retain(f, start);
  }

  method Perform<S, K(==, !new), V(!new)>(h: HashMap<K, V>, op: Op<S, K, V>) returns (r: Reply<S, V>)
    requires h.Valid()
    modifies h
    ensures h.Valid() && Steps(old(h.model), op, r, h.model)
    ensures var n := if Adds(op) then 1 else 0;
            && h.inserts == old(h.inserts) + n && h.used <= old(h.used) + n
            && (n == 0 || HasRoom(old(|h.slots|), old(h.used)) ==>
                  |h.slots| == old(|h.slots|) && h.tableCost == old(h.tableCost))
    ensures old(h.Amortised(h.inserts)) ==> h.Amortised(h.inserts)
  {
    hide TableInv, Sifts;
    match op {
      case Insert(k, v) =>
        var previous := h.Insert(k, v);
        r := Found(previous);
      case Get(k) =>
        var value := h.Get(k);
        r := Found(value);
      case GetMut(k, write) =>
        var found := h.GetMut(k, write);
        r := Present(found);
      case Remove(k) =>
        var removed := h.Remove(k);
        r := Found(removed);
      case Entry(k) =>
        var found, ins, _ := h.Entry(k);
        r := Found(if found.Some? then Some(h.slots[ins].value) else None);
      case OrInsertWith(k, default) =>
        var v := h.EntryOrInsertWith(k, default);
        r := Found(Some(v));
      case Retain(f, start) =>
        var end := RetainStep(h, f, start);
        r := Closure(end);
      case Clear =>
        h.Clear();
        r := Done;
    }
  }

  /** Every run is a run of the mathematical map, reply by reply; one that cannot fill the table
      never grows it. */
  method Execute<S, K(==, !new), V(!new)>(h: HashMap<K, V>, ops: seq<Op<S, K, V>>) returns (replies: seq<Reply<S, V>>)
    requires h.Valid()
    modifies h
    ensures h.Valid() && IsRun(old(h.model), ops, replies, h.model)
    ensures h.inserts == old(h.inserts) + Calls(ops)
    ensures old(h.Amortised(h.inserts)) ==> h.Amortised(h.inserts)
    ensures Calls(ops) == 0 || (old(h.used) + Calls(ops)) * 8 < old(|h.slots|) * 7 ==>
              |h.slots| == old(|h.slots|) && h.tableCost == old(h.tableCost)
  {
    hide TableInv, Steps;
    replies := [];
    for i := 0 to |ops|
      invariant h.Valid() && IsRun(old(h.model), ops[..i], replies, h.model)
      invariant h.inserts == old(h.inserts) + Calls(ops[..i]) && h.used <= old(h.used) + Calls(ops[..i])
      invariant old(h.Amortised(h.inserts)) ==> h.Amortised(h.inserts)
      invariant Calls(ops[..i]) == 0 || (old(h.used) + Calls(ops[..i])) * 8 < old(|h.slots|) * 7 ==>
                  |h.slots| == old(|h.slots|) && h.tableCost == old(h.tableCost)
    {
      ghost var mid := h.model;
      assert ops[..i + 1][..i] == ops[..i];
      var r := Perform(h, ops[i]);
      RunLonger(old(h.model), ops[..i], replies, mid, ops[i], r, h.model);
      assert ops[..i] + [ops[i]] == ops[..i + 1];
      replies := replies + [r];
    }
    assert ops[..|ops|] == ops;
  }

  lemma RunLonger<S, K(!new), V(!new)>(m: map<K, V>, ops: seq<Op<S, K, V>>, replies: seq<Reply<S, V>>, mid: map<K, V>,
                           op: Op<S, K, V>, r: Reply<S, V>, m': map<K, V>)
    requires IsRun(m, ops, replies, mid) && Steps(mid, op, r, m')
    ensures IsRun(m, ops + [op], replies + [r], m')
  {
    hide Steps;
    var all, rs := ops + [op], replies + [r];
    assert all[..|all| - 1] == ops && rs[..|rs| - 1] == replies;
    assert LastStep(mid, all, rs, m');
  }

  /** From `new()`: a run with N calls that may add an entry, and any number of others, allocates
      tables of at most 5N + 8 slots in all. */
  method RunFromNew<S, K(==, !new), V(!new)>(hasher: K -> nat, ops: seq<Op<S, K, V>>)
    returns (h: HashMap<K, V>, replies: seq<Reply<S, V>>)
    ensures fresh(h) && h.Valid() && IsRun(map[], ops, replies, h.model)
    ensures h.tableCost <= 5 * Calls(ops) + 8
  {
    h := new HashMap(hasher);
    replies := Execute(h, ops);
  }

  /** From `with_capacity(n)`: in a run with n such calls, and any number of others, the first table
      is the only one ever allocated. */
  method RunWithCapacity<S, K(==, !new), V(!new)>(hasher: K -> nat, n: nat, ops: seq<Op<S, K, V>>)
    returns (h: HashMap<K, V>, replies: seq<Reply<S, V>>)
    requires Calls(ops) <= n
    ensures fresh(h) && h.Valid() && IsRun(map[], ops, replies, h.model)
    ensures h.tableCost == |h.slots| && (n > 0 ==> n * 8 < |h.slots| * 7)
    ensures |h.slots| <= 8 || (|h.slots| / 2) * 7 <= n * 8
  {
    h := new HashMap.WithCapacity(hasher, n);
    replies := Execute(h, ops);
  }

  // ---- tombstones are reused ----

  /** At most the key's home slot is in use. */
  ghost predicate OnlyHome<K, V>(s: seq<Slot<K, V>>, used: nat, home: nat)
    requires |s| == 8 && home < 8
  {
    && used == (if s[home].Empty? then 0 else 1)
    && forall j :: 0 <= j < 8 && j != home ==> s[j].Empty?
  }

  lemma OneUsed<K(!new), V>(s: seq<Slot<K, V>>, len: nat, f: K -> nat, m: map<K, V>, key: K)
    requires TableInv(s, len, 1, f, m) && |s| == 8 && key in m
    ensures OnlyHome(s, 1, Home(f(key), 8))
  {
    hide Distinct, Count, Chain, Home;
    var home := Home(f(key), 8);
    var i :| 0 <= i < |s| && s[i].Full? && s[i].key == key;
    OnlyOneUsed(s, i);
    assert Chain(s, home, i);
    ChainToOnly(s, home, i);
  }

  lemma OnlyOneUsed<K, V>(s: seq<Slot<K, V>>, i: nat)
    requires Count(s, true) == 1 && i < |s| && s[i].Full?
    ensures forall j :: 0 <= j < |s| && j != i ==> s[j].Empty?
  {
    hide Count;
    var rest := s[i := Empty];
    CountUpdate(s, i, Empty, true);
    NoneUsed(rest);
    assert forall j :: 0 <= j < |s| && j != i ==> s[j] == rest[j];
  }

  lemma ChainToOnly<K, V>(s: seq<Slot<K, V>>, home: nat, i: nat)
    requires home < |s| && i < |s| && Chain(s, home, i)
    requires forall j :: 0 <= j < |s| && j != i ==> s[j].Empty?
    ensures i == home
  {
    assert Dist(home, home, |s|) == 0;
  }

  lemma {:induction false} NoneUsed<K, V>(s: seq<Slot<K, V>>)
    requires Count(s, true) == 0
    ensures forall i :: 0 <= i < |s| ==> s[i].Empty?
  {
    if s != [] { NoneUsed(s[..|s| - 1]); }
  }

  lemma PutHome<K, V>(s: seq<Slot<K, V>>, used: nat, x: Slot<K, V>, s': seq<Slot<K, V>>, used': nat)
    requires |s| == 8 && x.Full? && OnlyHome(s, used, Home(x.hash, 8)) && Put(s, used, x, s', used')
    requires s[Home(x.hash, 8)].Full? ==> s[Home(x.hash, 8)].key == x.key
    ensures |s'| == 8 && OnlyHome(s', used', Home(x.hash, 8))
  {
    var home := Home(x.hash, 8);
    var i :| PutAt(s, used, x, s', used', i);
    assert s[home].Full? ==> Holds(s, x.key);
    assert Dist(home, home, 8) == 0;
  }

  ghost predicate OnlyKey<K(!new), V>(s: seq<Slot<K, V>>, used: nat, f: K -> nat, m: map<K, V>, key: K) {
    && m.Keys <= {key}
    && if s == [] then used == 0 else |s| == 8 && OnlyHome(s, used, Home(f(key), 8))
  }

  method InsertAgain<K(==, !new), V(!new)>(h: HashMap<K, V>, key: K, value: V)
    requires h.Valid() && h.tableCost == |h.slots| && OnlyKey(h.slots, h.used, h.hasher, h.model, key)
    modifies h
    ensures h.Valid() && h.tableCost == |h.slots| && OnlyKey(h.slots, h.used, h.hasher, h.model, key)
    ensures Lookup(h.model, key) == Some(value)
  {
    hide AllFull, Probeable;
    ghost var before, load := h.slots, h.used;
    var _ := h.Insert(key, value);
    if before == [] {
      assert |h.model| > 0 by { assert key in h.model; }
      OneUsed(h.slots, h.len, h.hasher, h.model, key);
    } else {
      PutHome(before, load, Full(h.hasher(key), key, value), h.slots, h.used);
    }
  }

  method RemoveAgain<K(==, !new), V(!new)>(h: HashMap<K, V>, key: K)
    requires h.Valid() && h.tableCost == |h.slots| && OnlyKey(h.slots, h.used, h.hasher, h.model, key)
    modifies h
    ensures h.Valid() && h.tableCost == |h.slots| && OnlyKey(h.slots, h.used, h.hasher, h.model, key)
    ensures Lookup(h.model, key) == None
  {
    hide AllFull, Probeable;
    var _ := h.Remove(key);
  }

  /** Inserting (a value) and removing (none) the same key, any number of times and in any order,
      stays in the first table of eight slots, because a tombstone is used again. */
  method OneKey<K(==, !new), V(!new)>(hasher: K -> nat, key: K, steps: seq<Option<V>>) returns (h: HashMap<K, V>)
    ensures fresh(h) && h.Valid() && h.tableCost <= 8 && h.used <= 1 && h.model.Keys <= {key}
    ensures Lookup(h.model, key) == if steps == [] then None else steps[|steps| - 1]
  {
    h := new HashMap(hasher);
    for i := 0 to |steps|
      invariant fresh(h) && h.Valid() && h.tableCost == |h.slots|
      invariant OnlyKey(h.slots, h.used, h.hasher, h.model, key)
      invariant Lookup(h.model, key) == if i == 0 then None else steps[i - 1]
    {
      match steps[i] {
        case Some(v) => InsertAgain(h, key, v);
        case None => RemoveAgain(h, key);
      }
    }
  }

  // ---- when the slot order cannot be seen ----

  /** A closure whose outcome does not depend on the order of the entries. */
  ghost predicate OrderFree<S, K(!new), V(!new)>(f: (S, K, V) -> (S, V, bool), start: S) {
    forall a: seq<(K, V)>, b: seq<(K, V)>, m: map<K, V> :: Enumerates(a, m) && Enumerates(b, m) ==>
      SiftEntries(a, f, start) == SiftEntries(b, f, start)
  }

  /** A run without order-dependent closures is determined: two maps, with whatever hashes and
      capacities, reply alike and end alike. */
  lemma {:induction false} RunsAgree<S, K(!new), V(!new)>(m: map<K, V>, ops: seq<Op<S, K, V>>,
      r1: seq<Reply<S, V>>, m1: map<K, V>, r2: seq<Reply<S, V>>, m2: map<K, V>)
    requires IsRun(m, ops, r1, m1) && IsRun(m, ops, r2, m2)
    requires forall i :: 0 <= i < |ops| && ops[i].Retain? ==> OrderFree(ops[i].closure, ops[i].start)
    ensures r1 == r2 && m1 == m2
    decreases |ops|
  {
    hide Steps;
    var n := |ops|;
    RunLength(m, ops, r1, m1);
    RunLength(m, ops, r2, m2);
    if n > 0 {
      var mid1 :| LastStep(mid1, ops, r1, m1) && IsRun(m, ops[..n - 1], r1[..n - 1], mid1);
      var mid2 :| LastStep(mid2, ops, r2, m2) && IsRun(m, ops[..n - 1], r2[..n - 1], mid2);
      RunsAgree(m, ops[..n - 1], r1[..n - 1], mid1, r2[..n - 1], mid2);
      StepAgrees(mid1, ops[n - 1], r1[n - 1], m1, r2[n - 1], m2);
      assert r1 == r1[..n - 1] + [r1[n - 1]] && r2 == r2[..n - 1] + [r2[n - 1]];
    }
  }

  lemma StepAgrees<S, K(!new), V(!new)>(m: map<K, V>, op: Op<S, K, V>,
      r1: Reply<S, V>, m1: map<K, V>, r2: Reply<S, V>, m2: map<K, V>)
    requires Steps(m, op, r1, m1) && Steps(m, op, r2, m2)
    requires op.Retain? ==> OrderFree(op.closure, op.start)
    ensures r1 == r2 && m1 == m2
  {
    if op.Retain? {
      var a :| Enumerates(a, m) && SiftEntries(a, op.closure, op.start) == (r1.end, m1);
      var b :| Enumerates(b, m) && SiftEntries(b, op.closure, op.start) == (r2.end, m2);
    }
  }

  /** A closure without state of its own. */
  function Stateless<K, V>(f: (K, V) -> (V, bool)): ((), K, V) -> ((), V, bool) {
    (state, k, v) => ((), f(k, v).0, f(k, v).1)
  }

  /** The entries such a closure leaves of a map, whatever the slot order. */
  ghost function Retained<K, V>(m: map<K, V>, f: (K, V) -> (V, bool)): map<K, V> {
    map k | k in m && f(k, m[k]).1 :: f(k, m[k]).0
  }

  ghost function Restricted<K, V>(m: map<K, V>, keys: set<K>): map<K, V> {
    map k | k in m && k in keys :: m[k]
  }

  lemma RetainedMore<K, V>(m: map<K, V>, held: set<K>, k: K, f: (K, V) -> (V, bool))
    requires k in m
    ensures var r, r' := Retained(Restricted(m, held), f), Retained(Restricted(m, held + {k}), f);
            r' == if f(k, m[k]).1 then r[k := f(k, m[k]).0] else r
  {
  }

  ghost function KeysOf<K, V>(entries: seq<(K, V)>): set<K> {
    if entries == [] then {} else KeysOf(entries[..|entries| - 1]) + {entries[|entries| - 1].0}
  }

  lemma {:induction false} KeysOfCount<K, V>(entries: seq<(K, V)>, m: map<K, V>, n: nat)
    requires Enumerates(entries, m) && n <= |entries|
    ensures |KeysOf(entries[..n])| == n && KeysOf(entries[..n]) <= m.Keys
    ensures forall i :: n <= i < |entries| ==> entries[i].0 !in KeysOf(entries[..n])
  {
    if n > 0 {
      KeysOfCount(entries, m, n - 1);
      assert entries[..n][..n - 1] == entries[..n - 1] && entries[..n][n - 1] == entries[n - 1];
    }
  }

  lemma {:induction false} SameSize<K>(a: set<K>, b: set<K>)
    requires a <= b && |a| == |b|
    ensures a == b
  {
    assert |b - a| == |b| - |a| by { assert b == a + (b - a); }
  }

  lemma {:induction false} StatelessPrefix<K, V>(entries: seq<(K, V)>, m: map<K, V>, f: (K, V) -> (V, bool), n: nat)
    requires Enumerates(entries, m) && n <= |entries|
    ensures SiftEntries(entries[..n], Stateless(f), ()).1 == Retained(Restricted(m, KeysOf(entries[..n])), f)
  {
    hide Enumerates, Retained;
    if n > 0 {
      StatelessPrefix(entries, m, f, n - 1);
      assert entries[..n][..n - 1] == entries[..n - 1] && entries[..n][n - 1] == entries[n - 1];
      EntryIn(entries, m, n - 1);
      RetainedMore(m, KeysOf(entries[..n - 1]), entries[n - 1].0, f);
    } else {
      RetainedNone(m, f);
    }
  }

  lemma EntryIn<K, V>(entries: seq<(K, V)>, m: map<K, V>, i: nat)
    requires Enumerates(entries, m) && i < |entries|
    ensures entries[i].0 in m && m[entries[i].0] == entries[i].1
  {
  }

  lemma RetainedNone<K, V>(m: map<K, V>, f: (K, V) -> (V, bool))
    ensures Retained(Restricted(m, {}), f) == map[]
  {
  }

  /** A closure without state of its own leaves what it keeps of the map, in whatever order. */
  lemma StatelessRetained<K, V>(entries: seq<(K, V)>, m: map<K, V>, f: (K, V) -> (V, bool))
    requires Enumerates(entries, m)
    ensures SiftEntries(entries, Stateless(f), ()).1 == Retained(m, f)
  {
    var n := |entries|;
    assert entries[..n] == entries;
    StatelessPrefix(entries, m, f, n);
    KeysOfCount(entries, m, n);
    SameSize(KeysOf(entries), m.Keys);
    assert Restricted(m, m.Keys) == m;
  }

  lemma StatelessIsOrderFree<K(!new), V(!new)>(f: (K, V) -> (V, bool))
    ensures OrderFree(Stateless(f), ())
  {
    forall a: seq<(K, V)>, b: seq<(K, V)>, m: map<K, V> | Enumerates(a, m) && Enumerates(b, m)
      ensures SiftEntries(a, Stateless(f), ()) == SiftEntries(b, Stateless(f), ())
    {
      StatelessRetained(a, m, f);
      StatelessRetained(b, m, f);
    }
  }

  // ---- iteration ----

  function Yield<K, V>(x: Slot<K, V>): seq<(K, V)> {
    if x.Full? then [(x.key, x.value)] else []
  }

  /** The entries of a slot array in slot order. */
  function Entries<K, V>(s: seq<Slot<K, V>>): seq<(K, V)> {
    if s == [] then [] else Yield(s[0]) + Entries(s[1..])
  }

  class Iter<K, V> {
    const slots: seq<Slot<K, V>>
    var idx: nat

    constructor (slots: seq<Slot<K, V>>)
      ensures this.slots == slots && idx == 0
    {
      this.slots := slots;
      idx := 0;
    }

    /** Yields the next entry still to come, or `None` when there is none. */
    method Next() returns (entry: Option<(K, V)>)
      requires idx <= |slots|
      modifies this
      ensures idx <= |slots|
      ensures entry.Some? ==> Entries(slots[old(idx)..]) == [entry.value] + Entries(slots[idx..])
      ensures entry.None? ==> Entries(slots[old(idx)..]) == [] && idx == |slots|
    {
      while idx < |slots|
        invariant old(idx) <= idx <= |slots| && Entries(slots[old(idx)..]) == Entries(slots[idx..])
      {
        var i := idx;
        idx := idx + 1;
        assert slots[i..][1..] == slots[i + 1..];
        if slots[i].Full? {
          return Some((slots[i].key, slots[i].value));
        }
      }
      entry := None;
    }
  }

  /** Iterating over a table visits every entry of its map exactly once. */
  lemma {:induction false} EntriesAreTheMap<K(!new), V>(s: seq<Slot<K, V>>, f: K -> nat, m: map<K, V>)
    requires Good(s, f, m)
    ensures |Entries(s)| == |m|
    ensures forall i :: 0 <= i < |Entries(s)| ==> Entries(s)[i].0 in m && m[Entries(s)[i].0] == Entries(s)[i].1
    ensures forall i, j :: 0 <= i < j < |Entries(s)| ==> Entries(s)[i].0 != Entries(s)[j].0
  {
    EntriesCount(s);
    EntriesDistinct(s);
    forall i | 0 <= i < |Entries(s)|
      ensures Entries(s)[i].0 in m && m[Entries(s)[i].0] == Entries(s)[i].1
    {
      var p := EntryAt(s, i);
    }
  }

  lemma {:induction false} EntriesCount<K, V>(s: seq<Slot<K, V>>)
    ensures |Entries(s)| == Count(s, false)
  {
    if s != [] {
      EntriesCount(s[1..]);
      CountFront(s);
    }
  }

  lemma {:induction false} CountFront<K, V>(s: seq<Slot<K, V>>)
    requires s != []
    ensures Count(s, false) == Weight(s[0], false) + Count(s[1..], false)
    decreases |s|
  {
    if |s| > 1 {
      CountFront(s[..|s| - 1]);
      assert s[..|s| - 1][1..] == s[1..][..|s| - 2];
    } else {
      assert s[..|s| - 1] == [] && s[1..] == [];
    }
  }

  /** The slot that the i-th entry comes from. */
  lemma {:induction false} EntryAt<K, V>(s: seq<Slot<K, V>>, i: nat) returns (p: nat)
    requires i < |Entries(s)|
    ensures p < |s| && s[p].Full? && Entries(s)[i] == (s[p].key, s[p].value)
  {
    if s[0].Full? && i == 0 {
      p := 0;
    } else {
      var q := EntryAt(s[1..], if s[0].Full? then i - 1 else i);
      p := q + 1;
    }
  }

  lemma {:induction false} EntriesDistinct<K, V>(s: seq<Slot<K, V>>)
    requires Distinct(s)
    ensures forall i, j :: 0 <= i < j < |Entries(s)| ==> Entries(s)[i].0 != Entries(s)[j].0
  {
    if s != [] {
      EntriesDistinct(s[1..]);
      var rest := Entries(s[1..]);
      if s[0].Full? {
        forall j | 0 <= j < |rest|
          ensures rest[j].0 != s[0].key
        {
          var p := EntryAt(s[1..], j);
          assert s[1..][p] == s[p + 1];
        }
        assert Entries(s) == [(s[0].key, s[0].value)] + rest;
      } else {
        assert Entries(s) == rest;
      }
    }
  }

  // ---- retaining goes over the entries in slot order ----

  lemma EntriesFront<K, V>(s: seq<Slot<K, V>>)
    ensures s == [] ==> Entries(s) == []
    ensures s != [] ==> Entries(s) == Yield(s[0]) + Entries(s[1..])
  {
  }

  lemma {:induction false} EntriesSnoc<K, V>(s: seq<Slot<K, V>>)
    requires s != []
    ensures Entries(s) == Entries(s[..|s| - 1]) + Yield(s[|s| - 1])
    decreases |s|
  {
    hide *;
    var front, last := s[..|s| - 1], s[|s| - 1];
    EntriesFront(s);
    EntriesFront(front);
    if |s| > 1 {
      var tail := s[1..];
      assert tail[..|tail| - 1] == front[1..] && tail[|tail| - 1] == last && front[0] == s[0];
      EntriesSnoc(tail);
      Associate(Yield(s[0]), Entries(front[1..]), Yield(last));
    } else {
      assert s[1..] == front;
    }
  }

  lemma {:induction false} EntriesSifted<S, K, V>(s: seq<Slot<K, V>>, f: (S, K, V) -> (S, V, bool), start: S)
    ensures SiftEntries(Entries(s), f, start) == Sifted(s, f, start)
    decreases |s|
  {
    if s != [] {
      var front, x := s[..|s| - 1], s[|s| - 1];
      EntriesSifted(front, f, start);
      EntriesSnoc(s);
      if x.Full? {
        assert Entries(s)[..|Entries(s)| - 1] == Entries(front);
      } else {
        assert Entries(s) == Entries(front);
      }
    }
  }

  lemma RetainSifts<S, K(!new), V(!new)>(s: seq<Slot<K, V>>, hasher: K -> nat, m: map<K, V>,
                                  f: (S, K, V) -> (S, V, bool), start: S)
    requires Good(s, hasher, m)
    ensures Sifts(m, f, start, Sifted(s, f, start).0, Sifted(s, f, start).1)
  {
    hide Good, Sifted;
    EntriesAreTheMap(s, hasher, m);
    EntriesSifted(s, f, start);
    assert Enumerates(Entries(s), m);
  }
}
