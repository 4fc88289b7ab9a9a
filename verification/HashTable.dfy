/** The slot array of `HashMap` as a value: what it means for it to represent a map, and what
    writing one slot does to that. */
module HashTable {
  import opened Bits

  datatype Slot<K, V> = Empty | Tombstone | Full(hash: nat, key: K, value: V)

  // ---- counting slots ----

  /** 1 for a full slot, and for a tombstone when those count too. */
  function Weight<K, V>(x: Slot<K, V>, tombstones: bool): nat {
    if x.Full? || (tombstones && x.Tombstone?) then 1 else 0
  }

  /** How many slots are full, or not empty when tombstones count. */
  function Count<K, V>(s: seq<Slot<K, V>>, tombstones: bool): nat {
    if s == [] then 0 else Count(s[..|s| - 1], tombstones) + Weight(s[|s| - 1], tombstones)
  }

  lemma {:induction false} CountUpdate<K, V>(s: seq<Slot<K, V>>, i: nat, x: Slot<K, V>, tombstones: bool)
    requires i < |s|
    ensures Count(s[i := x], tombstones) == Count(s, tombstones) - Weight(s[i], tombstones) + Weight(x, tombstones)
  {
    var n := |s| - 1;
    if i < n {
      CountUpdate(s[..n], i, x, tombstones);
      assert s[i := x][..n] == s[..n][i := x];
    } else {
      assert s[i := x][..n] == s[..n];
    }
  }

  lemma {:induction false} CountBound<K, V>(s: seq<Slot<K, V>>)
    ensures Count(s, false) <= Count(s, true) <= |s|
    ensures Count(s, true) == |s| <==> forall i :: 0 <= i < |s| ==> !s[i].Empty?
  {
    if s != [] { CountBound(s[..|s| - 1]); }
  }

  lemma {:induction false} CountEmpty<K, V>(s: seq<Slot<K, V>>, tombstones: bool)
    requires forall i :: 0 <= i < |s| ==> s[i].Empty?
    ensures Count(s, tombstones) == 0
  {
    if s != [] { CountEmpty(s[..|s| - 1], tombstones); }
  }

  // ---- cyclic positions ----

  /** The slot a hash starts probing at. */
  function Home(hash: nat, cap: nat): (i: nat)
    requires cap > 0
    ensures i < cap
  {
    hash % cap
  }

  /** How many steps forward, cyclically, slot `i` is from slot `home`. */
  function Dist(home: nat, i: nat, cap: nat): nat
    requires home < cap && i < cap
  {
    if home <= i then i - home else i + cap - home
  }

  function Next(i: nat, cap: nat): nat
    requires i < cap
  {
    if i + 1 == cap then 0 else i + 1
  }

  /** The source's index arithmetic, `hash & mask` and `(i + 1) & mask`. */
  lemma MaskedIndex(hash: nat, i: nat, cap: nat)
    requires IsPow2(cap) && i < cap
    ensures And(hash, cap - 1) == Home(hash, cap)
    ensures And(i + 1, cap - 1) == Next(i, cap)
  {
    MaskIsRemainder(hash, cap);
    MaskIsRemainder(i + 1, cap);
    NextIsRemainder(i, cap);
  }

  lemma NextIsRemainder(i: nat, cap: nat)
    requires i < cap
    ensures (i + 1) % cap == Next(i, cap)
  {
  }

  // ---- what a table represents ----

  /** No empty slot lies on the way from `home` to `i`. */
  ghost predicate Chain<K, V>(s: seq<Slot<K, V>>, home: nat, i: nat)
    requires home < |s| && i < |s|
  {
    forall j :: 0 <= j < |s| && Dist(home, j, |s|) < Dist(home, i, |s|) ==> !s[j].Empty?
  }

  /** One more occupied slot passed. */
  lemma ChainNext<K, V>(s: seq<Slot<K, V>>, home: nat, i: nat, e: nat)
    requires home < |s| && i < |s| && e < |s|
    requires Chain(s, home, i) && !s[i].Empty? && s[e].Empty? && Dist(home, i, |s|) <= Dist(home, e, |s|)
    ensures Dist(home, Next(i, |s|), |s|) == Dist(home, i, |s|) + 1 <= Dist(home, e, |s|)
    ensures Chain(s, home, Next(i, |s|))
  {
    assert i != e;
  }

  /** Stored hashes match keys, and every key is reachable by probing from its home slot. */
  ghost predicate Probeable<K, V>(s: seq<Slot<K, V>>, f: K -> nat) {
    forall i :: 0 <= i < |s| && s[i].Full? ==>
      s[i].hash == f(s[i].key) && Chain(s, Home(s[i].hash, |s|), i)
  }

  ghost predicate Distinct<K, V>(s: seq<Slot<K, V>>) {
    forall i, j :: 0 <= i < |s| && 0 <= j < |s| && s[i].Full? && s[j].Full? && s[i].key == s[j].key ==> i == j
  }

  ghost predicate Holds<K, V>(s: seq<Slot<K, V>>, k: K) {
    exists i :: 0 <= i < |s| && s[i].Full? && s[i].key == k
  }

  ghost predicate Represents<K(!new), V>(s: seq<Slot<K, V>>, m: map<K, V>) {
    && (forall i :: 0 <= i < |s| && s[i].Full? ==> s[i].key in m && m[s[i].key] == s[i].value)
    && (forall k :: k in m ==> Holds(s, k))
  }

  /** A slot array that represents `m`, whatever its load. */
  ghost predicate Good<K(!new), V>(s: seq<Slot<K, V>>, f: K -> nat, m: map<K, V>) {
    && Probeable(s, f) && Distinct(s) && Represents(s, m)
    && |m| == Count(s, false)
  }

  predicate IsCapacity(cap: nat) {
    cap == 0 || (cap >= 8 && IsPow2(cap))
  }

  /** Everything `HashMap` keeps true of its fields between calls. */
  ghost predicate TableInv<K(!new), V>(s: seq<Slot<K, V>>, len: nat, used: nat, f: K -> nat, m: map<K, V>) {
    && IsCapacity(|s|)
    && Good(s, f, m)
    && len == Count(s, false) && used == Count(s, true)
    && (|s| > 0 ==> used * 8 < |s| * 7)
  }

  // ---- writing one slot ----

  /** Occupying a slot never breaks a probe chain. */
  lemma ProbeKept<K, V>(s: seq<Slot<K, V>>, f: K -> nat, i: nat, x: Slot<K, V>)
    requires Probeable(s, f) && i < |s| && !x.Empty?
    requires x.Full? ==> x.hash == f(x.key) && Chain(s, Home(x.hash, |s|), i)
    ensures Probeable(s[i := x], f)
  {
    var s' := s[i := x];
    forall j | 0 <= j < |s'| && s'[j].Full?
      ensures s'[j].hash == f(s'[j].key) && Chain(s', Home(s'[j].hash, |s'|), j)
    {
      assert j != i ==> s'[j] == s[j];
      assert Chain(s, Home(s'[j].hash, |s|), j);
    }
  }

  /** A key stored outside slot `i` is still stored after writing `i`. */
  lemma HoldsKept<K, V>(s: seq<Slot<K, V>>, i: nat, x: Slot<K, V>, k: K)
    requires i < |s| && Holds(s, k)
    requires s[i].Full? && s[i].key == k ==> x.Full? && x.key == k
    ensures Holds(s[i := x], k)
  {
    var j :| 0 <= j < |s| && s[j].Full? && s[j].key == k;
    assert s[i := x][j].Full? && s[i := x][j].key == k;
  }

  /** Filling a free slot that the probe for an absent key reaches adds that key. */
  lemma Fill<K(!new), V>(s: seq<Slot<K, V>>, f: K -> nat, m: map<K, V>, i: nat, k: K, v: V)
    requires Good(s, f, m) && i < |s| && !s[i].Full? && k !in m
    requires Chain(s, Home(f(k), |s|), i)
    ensures Good(s[i := Full(f(k), k, v)], f, m[k := v])
    ensures Count(s[i := Full(f(k), k, v)], false) == Count(s, false) + 1
    ensures Count(s[i := Full(f(k), k, v)], true) == Count(s, true) + 1 - Weight(s[i], true)
  {
    var x := Full(f(k), k, v);
    CountUpdate(s, i, x, false);
    CountUpdate(s, i, x, true);
    ProbeKept(s, f, i, x);
    FillRepresents(s, m, i, x);
  }

  lemma FillRepresents<K(!new), V>(s: seq<Slot<K, V>>, m: map<K, V>, i: nat, x: Slot<K, V>)
    requires Represents(s, m) && Distinct(s) && i < |s| && !s[i].Full? && x.Full? && x.key !in m
    ensures Represents(s[i := x], m[x.key := x.value]) && Distinct(s[i := x])
  {
    var s', m' := s[i := x], m[x.key := x.value];
    assert s'[i].Full? && s'[i].key == x.key;
    forall k | k in m'
      ensures Holds(s', k)
    {
      if k != x.key { HoldsKept(s, i, x, k); }
    }
    assert forall j :: 0 <= j < |s| && s[j].Full? ==> s[j].key != x.key;
  }

  /** Overwriting the value of a full slot updates that key. */
  lemma Overwrite<K(!new), V>(s: seq<Slot<K, V>>, f: K -> nat, m: map<K, V>, i: nat, x: Slot<K, V>)
    requires Good(s, f, m) && i < |s| && s[i].Full? && x.Full? && x.hash == s[i].hash && x.key == s[i].key
    ensures Good(s[i := x], f, m[x.key := x.value])
    ensures Count(s[i := x], false) == Count(s, false) && Count(s[i := x], true) == Count(s, true)
  {
    CountUpdate(s, i, x, false);
    CountUpdate(s, i, x, true);
    ProbeKept(s, f, i, x);
    OverwriteRepresents(s, m, i, x);
    assert m[x.key := x.value].Keys == m.Keys;
  }

  lemma OverwriteRepresents<K(!new), V>(s: seq<Slot<K, V>>, m: map<K, V>, i: nat, x: Slot<K, V>)
    requires Represents(s, m) && Distinct(s) && i < |s| && s[i].Full? && x.Full? && x.key == s[i].key
    ensures Represents(s[i := x], m[x.key := x.value]) && Distinct(s[i := x])
  {
    forall k | k in m
      ensures Holds(s[i := x], k)
    {
      HoldsKept(s, i, x, k);
    }
  }

  /** Turning a full slot into a tombstone removes that key and keeps every other reachable. */
  lemma Bury<K(!new), V>(s: seq<Slot<K, V>>, f: K -> nat, m: map<K, V>, i: nat)
    requires Good(s, f, m) && i < |s| && s[i].Full?
    ensures Good(s[i := Tombstone], f, m - {s[i].key})
    ensures Count(s[i := Tombstone], false) == Count(s, false) - 1
    ensures Count(s[i := Tombstone], true) == Count(s, true)
  {
    CountUpdate(s, i, Tombstone, false);
    CountUpdate(s, i, Tombstone, true);
    ProbeKept(s, f, i, Tombstone);
    BuryRepresents(s, m, i);
    assert (m - {s[i].key}).Keys == m.Keys - {s[i].key};
  }

  lemma BuryRepresents<K(!new), V>(s: seq<Slot<K, V>>, m: map<K, V>, i: nat)
    requires Represents(s, m) && Distinct(s) && i < |s| && s[i].Full?
    ensures Represents(s[i := Tombstone], m - {s[i].key}) && Distinct(s[i := Tombstone])
  {
    forall k | k in m - {s[i].key}
      ensures Holds(s[i := Tombstone], k)
    {
      HoldsKept(s, i, Tombstone, k);
    }
  }

  /** A probe that meets an empty slot after passing only other keys proves absence. */
  lemma Absent<K(!new), V>(s: seq<Slot<K, V>>, f: K -> nat, m: map<K, V>, i: nat, k: K)
    requires Good(s, f, m) && i < |s| && s[i].Empty?
    requires var home := Home(f(k), |s|);
             forall j :: 0 <= j < |s| && Dist(home, j, |s|) < Dist(home, i, |s|) ==> !(s[j].Full? && s[j].key == k)
    ensures k !in m
  {
    forall p | 0 <= p < |s| && s[p].Full?
      ensures s[p].key != k
    {
      assert Chain(s, Home(s[p].hash, |s|), p);
    }
    assert !Holds(s, k);
  }

  lemma AllEmptyGood<K(!new), V>(s: seq<Slot<K, V>>, f: K -> nat)
    requires forall i :: 0 <= i < |s| ==> s[i].Empty?
    ensures Good(s, f, map[]) && Count(s, true) == 0
  {
    CountEmpty(s, false);
    CountEmpty(s, true);
  }
}
