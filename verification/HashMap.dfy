/** `HashMap`: open addressing with linear probing, tombstones and rehash by stored hash. Every
    method is proved to do to the mathematical map `model` what its name says. */
module HashMaps {
  import opened Bits
  import opened HashTable
  import opened Wrappers

  /** Doubles from 8 slots until `items` entries stay strictly below seven eighths of the table. */
  method CapacityFor(items: nat) returns (cap: nat)
    ensures IsPow2(cap) && cap >= 8 && items * 8 < cap * 7
    ensures cap == 8 || (cap / 2) * 7 <= items * 8
  {
    hide IsPow2;
    cap := 8;
    EightIsPow2();
    while items * 8 >= cap * 7
      invariant IsPow2(cap) && cap >= 8 && (cap == 8 || (cap / 2) * 7 <= items * 8)
      decreases items * 8 - cap
    {
      DoubleIsPow2(cap);
      cap := cap * 2;
    }
  }

  lemma EightIsPow2()
    ensures IsPow2(8)
  {
    assert IsPow2(1) && IsPow2(2) && IsPow2(4);
  }

  lemma DoubleIsPow2(n: nat)
    requires IsPow2(n)
    ensures IsPow2(n * 2)
  {
    assert n * 2 / 2 == n;
  }

  /** The inner loop of the rehash: the first empty slot from the hash's home slot. */
  method EmptySlotFor<K, V>(slots: seq<Slot<K, V>>, hash: nat) returns (i: nat)
    requires IsPow2(|slots|) && Count(slots, true) < |slots|
    ensures i < |slots| && slots[i].Empty? && Chain(slots, Home(hash, |slots|), i)
  {
    var cap := |slots|;
    var mask := cap - 1;
    ghost var home := Home(hash, cap);
    CountBound(slots);
    ghost var e :| 0 <= e < cap && slots[e].Empty?;
    MaskedIndex(hash, home, cap);
    i := And(hash, mask);
    while !slots[i].Empty?
      invariant i < cap && Dist(home, i, cap) <= Dist(home, e, cap)
      invariant Chain(slots, home, i)
      decreases cap - Dist(home, i, cap)
    {
      ChainNext(slots, home, i, e);
      MaskedIndex(hash, i, cap);
      i := And(i + 1, mask);
    }
  }

  /** Linear probing for `key`: the slot that holds it if it is in the table, and otherwise the
      slot to insert it at, which is the first slot from its home that is not full: the first
      tombstone passed, or the empty slot that ended the probe. */
  method Probe<K(==, !new), V>(slots: seq<Slot<K, V>>, hash: nat, key: K, ghost f: K -> nat, ghost m: map<K, V>)
    returns (found: Option<nat>, ins: nat)
    requires IsPow2(|slots|) && Good(slots, f, m) && Count(slots, true) < |slots| && hash == f(key)
    ensures ins < |slots| && (found.Some? <==> key in m)
    ensures found.Some? ==> ins == found.value && slots[ins].Full? && slots[ins].key == key && slots[ins].hash == hash
    ensures found.Some? ==> m[key] == slots[ins].value
    ensures found.None? ==> !slots[ins].Full? && Chain(slots, Home(hash, |slots|), ins)
    ensures found.None? ==> AllFull(slots, Home(hash, |slots|), ins)
  {
    var cap := |slots|;
    var mask := cap - 1;
    ghost var home := Home(hash, cap);
    CountBound(slots);
    ghost var e :| 0 <= e < cap && slots[e].Empty?;
    MaskedIndex(hash, home, cap);
    var i: nat := And(hash, mask);
    var insert: Option<nat> := None;
    while true
      invariant i < cap && Dist(home, i, cap) <= Dist(home, e, cap)
      invariant Passed(slots, home, i, key, insert)
      decreases cap - Dist(home, i, cap)
    {
      match slots[i] {
        case Empty =>
          Absent(slots, f, m, i, key);
          return None, if insert.Some? then insert.value else i;
        case Tombstone =>
          if insert.None? {
            insert := Some(i);
          }
        case Full(h, k, _) =>
          if h == hash && k == key {
            return Some(i), i;
          }
      }
      ChainNext(slots, home, i, e);
      PassedNext(slots, home, i, key, insert);
      MaskedIndex(hash, i, cap);
      i := And(i + 1, mask);
    }
  }

  /** An entry written into a table: over the key's own, or if it has none at the first slot from the
      key's home that is not full. `used` grows only if that slot was empty. */
  ghost predicate PutAt<K, V>(before: seq<Slot<K, V>>, used: nat, x: Slot<K, V>, after: seq<Slot<K, V>>, used': nat,
                              i: nat)
    requires x.Full?
  {
    && i < |before| && after == before[i := x]
    && used' == used + (if before[i].Empty? then 1 else 0)
    && if before[i].Full? then before[i].key == x.key
       else !Holds(before, x.key) && AllFull(before, Home(x.hash, |before|), i)
  }

  ghost predicate Put<K, V>(before: seq<Slot<K, V>>, used: nat, x: Slot<K, V>, after: seq<Slot<K, V>>, used': nat)
    requires x.Full?
  {
    exists i :: PutAt(before, used, x, after, used', i)
  }

  ghost predicate AllFull<K, V>(s: seq<Slot<K, V>>, home: nat, i: nat)
    requires home < |s| && i < |s|
  {
    forall j :: 0 <= j < |s| && Dist(home, j, |s|) < Dist(home, i, |s|) ==> s[j].Full?
  }

  /** What a probe that has reached slot `i` knows about the slots it passed. */
  ghost predicate Passed<K, V>(s: seq<Slot<K, V>>, home: nat, i: nat, key: K, insert: Option<nat>)
    requires home < |s| && i < |s|
  {
    && Chain(s, home, i)
    && (forall j :: 0 <= j < |s| && Dist(home, j, |s|) < Dist(home, i, |s|) ==> !(s[j].Full? && s[j].key == key))
    && (insert.None? ==> AllFull(s, home, i))
    && (insert.Some? ==>
          && insert.value < |s| && s[insert.value].Tombstone? && AllFull(s, home, insert.value)
          && Dist(home, insert.value, |s|) < Dist(home, i, |s|))
  }

  lemma PassedNext<K, V>(s: seq<Slot<K, V>>, home: nat, i: nat, key: K, insert: Option<nat>)
    requires home < |s| && i < |s| && Dist(home, Next(i, |s|), |s|) == Dist(home, i, |s|) + 1
    requires Passed(s, home, i, key, if insert == Some(i) then None else insert)
    requires !s[i].Empty? && !(s[i].Full? && s[i].key == key)
    requires s[i].Tombstone? ==> insert.Some?
    requires insert == Some(i) ==> s[i].Tombstone?
    ensures Passed(s, home, Next(i, |s|), key, insert)
  {
  }

  /** The key's slot, and no other, has become a tombstone. */
  ghost predicate BuriedAt<K, V>(before: seq<Slot<K, V>>, key: K, after: seq<Slot<K, V>>, i: nat) {
    i < |before| && before[i].Full? && before[i].key == key && after == before[i := Tombstone]
  }

  ghost predicate Buried<K, V>(before: seq<Slot<K, V>>, key: K, after: seq<Slot<K, V>>) {
    exists i :: BuriedAt(before, key, after, i)
  }

  class HashMap<K(==, !new), V> {
    const hasher: K -> nat
    var slots: seq<Slot<K, V>>
    var len: nat
    var used: nat
    ghost var model: map<K, V>
    ghost var inserts: nat      // `insert` and `entry` calls so far
    ghost var tableCost: nat    // sum of the sizes of all tables allocated so far

    ghost predicate Valid()
      reads this
    {
      TableInv(slots, len, used, hasher, model)
    }

    /** What table growth has cost a map that started out empty: each doubling was paid for by
        the inserts that filled the table before it. */
    ghost predicate Amortised(calls: nat)
      reads this
    {
      && tableCost == (if |slots| == 0 then 0 else 2 * |slots| - 8)
      && used <= calls
      && (|slots| <= 8 || 7 * |slots| <= 16 * calls)
    }

    constructor (hasher: K -> nat)
      ensures Valid() && model == map[] && this.hasher == hasher
      ensures inserts == 0 && tableCost == 0 && slots == [] && Amortised(0)
    {
      this.hasher := hasher;
      slots, len, used := [], 0, 0;
      model, inserts, tableCost := map[], 0, 0;
    }

    constructor WithCapacity(hasher: K -> nat, cap: nat)
      ensures Valid() && model == map[] && this.hasher == hasher && used == 0 && inserts == 0
      ensures |slots| == tableCost && (if cap > 0 then cap * 8 < |slots| * 7 else slots == [])
      ensures |slots| <= 8 || (|slots| / 2) * 7 <= cap * 8
    {
      this.hasher := hasher;
      slots, len, used := [], 0, 0;
      model, inserts, tableCost := map[], 0, 0;
      new;
      if cap > 0 {
        var c := CapacityFor(cap);
        GrowTo(c);
      }
    }

    method GrowTo(newCap: nat)
      requires Valid() && newCap >= 8 && IsPow2(newCap) && len * 8 < newCap * 7
      modifies this
      ensures Valid() && model == old(model) && |slots| == newCap && used == len == old(len)
      ensures inserts == old(inserts) && tableCost == old(tableCost) + newCap
    {
      hide Good;
      slots := Rehash(slots, newCap, hasher, model);
      used := len;
      tableCost := tableCost + newCap;
    }

    /** Room for one more entry: the load stays below 7/8 after it. */
    method EnsureCapacity(ghost calls: nat)
      requires Valid()
      modifies this
      ensures Valid() && model == old(model) && len == old(len) && used <= old(used)
      ensures |slots| > 0 && (used + 1) * 8 < |slots| * 7
      ensures inserts == old(inserts)
      ensures HasRoom(old(|slots|), old(used)) ==>
                slots == old(slots) && used == old(used) && tableCost == old(tableCost)
      ensures !HasRoom(old(|slots|), old(used)) ==> Regrown(old(|slots|), old(tableCost))
      ensures old(Amortised(calls)) && old(used) < calls ==> Amortised(calls) && used < calls
    {
      hide Good;
      CountBound(slots);
      if |slots| == 0 {
        GrowTo(8);
      } else if (used + 1) * 8 >= |slots| * 7 {
        DoubleIsPow2(|slots|);
        GrowTo(|slots| * 2);
      }
    }

    /** Write a new entry into a free slot: filling an empty one grows `used`, reusing a
        tombstone does not. */
    method Occupy(i: nat, hash: nat, key: K, value: V)
      requires Valid() && i < |slots| && (used + 1) * 8 < |slots| * 7
      requires !slots[i].Full? && key !in model && hash == hasher(key) && Chain(slots, Home(hash, |slots|), i)
      modifies this`slots, this`used, this`len, this`model
      ensures Valid() && model == old(model)[key := value]
      ensures slots == old(slots)[i := Full(hash, key, value)] && len == old(len) + 1
      ensures used == old(used) + (if old(slots[i]).Empty? then 1 else 0)
    {
      hide Good;
      Fill(slots, hasher, model, i, key, value);
      if slots[i].Empty? {
        used := used + 1;
      }
      slots := slots[i := Full(hash, key, value)];
      len := len + 1;
      model := model[key := value];
    }

    /** Replace the value in a full slot. */
    method Replace(i: nat, value: V)
      requires Valid() && i < |slots| && slots[i].Full?
      modifies this`slots, this`model
      ensures Valid() && model == old(model)[old(slots[i].key) := value]
      ensures slots == old(slots)[i := old(slots[i]).(value := value)]
    {
      hide Good;
      var x := slots[i].(value := value);
      Overwrite(slots, hasher, model, i, x);
      slots := slots[i := x];
      model := model[x.key := value];
    }

    /** Take an entry out. Probes must still pass its slot, so `used` keeps counting it. */
    method Entomb(i: nat)
      requires Valid() && i < |slots| && slots[i].Full?
      modifies this`slots, this`len, this`model
      ensures Valid() && model == old(model) - {old(slots[i].key)}
      ensures slots == old(slots)[i := Tombstone]
    {
      hide Good;
      Bury(slots, hasher, model, i);
      model := model - {slots[i].key};
      slots := slots[i := Tombstone];
      len := len - 1;
    }

    method Insert(key: K, value: V) returns (previous: Option<V>)
      requires Valid()
      modifies this
      ensures Valid() && model == old(model)[key := value]
      ensures previous == Lookup(old(model), key)
      ensures HasRoom(old(|slots|), old(used)) ==>
                Put(old(slots), old(used), Full(hasher(key), key, value), slots, used)
      ensures !HasRoom(old(|slots|), old(used)) ==> Regrown(old(|slots|), old(tableCost))
      ensures Charged(old(|slots|), old(used), old(tableCost)) && inserts == old(inserts) + 1
      ensures old(Amortised(inserts)) ==> Amortised(inserts)
    {
      hide Good, Put;
      inserts := inserts + 1;
      EnsureCapacity(inserts);
      previous := Store(key, value);
    }

    /** The rest of `insert`, with room in the table. */
    method Store(key: K, value: V) returns (previous: Option<V>)
      requires Valid() && |slots| > 0 && (used + 1) * 8 < |slots| * 7
      modifies this`slots, this`used, this`len, this`model
      ensures Valid() && model == old(model)[key := value] && previous == Lookup(old(model), key)
      ensures Put(old(slots), old(used), Full(hasher(key), key, value), slots, used) && |slots| == old(|slots|)
      ensures used <= old(used) + 1 && (old(used) == old(len) ==> used == len)
    {
      hide Good, AllFull, Holds;
      var hash := hasher(key);
      var found, ins := Probe(slots, hash, key, hasher, model);
      match found {
        case Some(i) =>
          previous := Some(slots[i].value);
          Replace(i, value);
        case None =>
          NoTombstones(slots, ins);
          NotHeld(slots, hasher, model, key);
          Occupy(ins, hash, key, value);
          previous := None;
      }
      assert PutAt(old(slots), old(used), Full(hash, key, value), slots, used, ins);
    }

    /** What one without room does: a table of eight slots or of twice as many as before, and no
        tombstones left. */
    ghost predicate Regrown(cap: nat, cost: nat)
      reads this
    {
      |slots| == (if cap == 0 then 8 else 2 * cap) && tableCost == cost + |slots| && used == len
    }

    ghost predicate Charged(cap: nat, filled: nat, cost: nat)
      reads this
    {
      used <= filled + 1 && (HasRoom(cap, filled) ==> |slots| == cap && tableCost == cost)
    }

    method Get(key: K) returns (value: Option<V>)
      requires Valid()
      ensures value == Lookup(model, key)
    {
      if |slots| == 0 {
        return None;
      }
      var hash := hasher(key);
      var found, _ := Probe(slots, hash, key, hasher, model);
      value := if found.Some? then Some(slots[found.value].value) else None;
    }

    /** `get_mut`, with the write the caller makes through the reference. */
    method GetMut(key: K, write: V -> V) returns (found: bool)
      requires Valid()
      modifies this
      ensures Valid() && (found <==> key in old(model))
      ensures model == if found then old(model)[key := write(old(model)[key])] else old(model)
      ensures |slots| == old(|slots|) && used == old(used) && tableCost == old(tableCost) && inserts == old(inserts)
    {
      hide Good;
      NoSlots(slots, hasher, model);
      if |slots| == 0 {
        return false;
      }
      var hash := hasher(key);
      var at, _ := Probe(slots, hash, key, hasher, model);
      found := at.Some?;
      if found {
        Replace(at.value, write(slots[at.value].value));
      }
    }

    method Remove(key: K) returns (removed: Option<V>)
      requires Valid()
      modifies this
      ensures Valid() && model == old(model) - {key}
      ensures removed == Lookup(old(model), key)
      ensures if removed.None? then slots == old(slots) else Buried(old(slots), key, slots)
      ensures |slots| == old(|slots|) && used == old(used) && tableCost == old(tableCost) && inserts == old(inserts)
    {
      hide Good;
      NoSlots(slots, hasher, model);
      if |slots| == 0 {
        return None;
      }
      var hash := hasher(key);
      var found, _ := Probe(slots, hash, key, hasher, model);
      match found {
        case Some(i) =>
          removed := Some(slots[i].value);
          Entomb(i);
          assert BuriedAt(old(slots), key, slots, i);
        case None =>
          assert model - {key} == model;
          removed := None;
      }
    }

    /** `entry(key)`: makes room for one more entry and finds the key's slot, or the slot it would
        go to. The map is as before, whether or not the entry is then filled. */
    method Entry(key: K) returns (found: Option<nat>, ins: nat, hash: nat)
      requires Valid()
      modifies this
      ensures Valid() && model == old(model) && hash == hasher(key)
      ensures ins < |slots| && (used + 1) * 8 < |slots| * 7 && (found.Some? <==> key in model)
      ensures found.Some? ==>
                found.value == ins && slots[ins].Full? && slots[ins].key == key && slots[ins].value == model[key]
      ensures found.None? ==> !slots[ins].Full? && Chain(slots, Home(hash, |slots|), ins)
      ensures found.None? ==> AllFull(slots, Home(hash, |slots|), ins)
      ensures HasRoom(old(|slots|), old(used)) ==> slots == old(slots) && used == old(used)
      ensures !HasRoom(old(|slots|), old(used)) ==> Regrown(old(|slots|), old(tableCost))
      ensures used <= old(used) && Charged(old(|slots|), old(used), old(tableCost)) && inserts == old(inserts) + 1
      ensures old(Amortised(inserts)) ==> Amortised(inserts) && used < inserts
    {
      hide Good;
      inserts := inserts + 1;
      EnsureCapacity(inserts);
      hash := hasher(key);
      found, ins := Probe(slots, hash, key, hasher, model);
    }

    /** `entry(key).or_insert_with(default)`, returning what the reference points at. */
    method EntryOrInsertWith(key: K, default: () -> V) returns (value: V)
      requires Valid()
      modifies this
      ensures Valid() && model == if key in old(model) then old(model) else old(model)[key := default()]
      ensures value == model[key]
      ensures HasRoom(old(|slots|), old(used)) ==>
                if key in old(model) then slots == old(slots) && used == old(used)
                else Put(old(slots), old(used), Full(hasher(key), key, value), slots, used)
      ensures !HasRoom(old(|slots|), old(used)) ==> Regrown(old(|slots|), old(tableCost))
      ensures Charged(old(|slots|), old(used), old(tableCost)) && inserts == old(inserts) + 1
      ensures old(Amortised(inserts)) ==> Amortised(inserts)
    {
      hide Good, AllFull, Holds;
      var found, ins, hash := Entry(key);
      match found {
        case Some(i) =>
          value := slots[i].value;
        case None =>
          value := default();
          ghost var table, load := slots, used;
          NoTombstones(slots, ins);
          NotHeld(slots, hasher, model, key);
          Occupy(ins, hash, key, value);
          assert PutAt(table, load, Full(hash, key, value), slots, used, ins);
      }
    }

    /** `f` is called once on each entry, in slot order, with the state the previous call left; it
        may change the value and says whether to keep it. */
    method Retain<S>(f: (S, K, V) -> (S, V, bool), start: S) returns (end: S)
      requires Valid()
      modifies this
      ensures Valid() && (end, model) == Sifted(old(slots), f, start)
      ensures |slots| == old(|slots|) && used == old(used) && tableCost == old(tableCost) && inserts == old(inserts)
    {
      hide Good, Sifted, HeldKeys;
      end := start;
      SiftedNone(slots, f, start, model);
      for i := 0 to |slots|
        invariant Valid() && |slots| == old(|slots|) && used == old(used)
        invariant tableCost == old(tableCost) && inserts == old(inserts)
        invariant forall j :: i <= j < |slots| ==> slots[j] == old(slots)[j]
        invariant end == Sifted(old(slots)[..i], f, start).0
        invariant model == Halfway(old(model), old(slots)[..i], f, start)
      {
        SiftedNext(old(slots), hasher, old(model), i, f, start);
        match slots[i] {
          case Full(_, k, v) =>
            var (state, v', keep) := f(end, k, v);
            end := state;
            Replace(i, v');
            if !keep {
              Entomb(i);
            }
          case _ =>
        }
      }
      SiftedAll(old(slots), hasher, old(model), f, start);
    }

    method Clear()
      requires Valid()
      modifies this
      ensures Valid() && model == map[] && |slots| == old(|slots|) && used == 0
      ensures tableCost == old(tableCost) && inserts == old(inserts)
    {
      for i := 0 to |slots|
        invariant |slots| == old(|slots|) && tableCost == old(tableCost) && inserts == old(inserts)
        invariant forall j :: 0 <= j < i ==> slots[j].Empty?
      {
        slots := slots[i := Empty];
      }
      AllEmptyGood(slots, hasher);
      len, used, model := 0, 0, map[];
    }
  }

  /** What `retain` leaves of the entries of `s`, taken in order: the closure's last state and the
      entries it kept, with the values it gave them. */
  ghost function Sifted<S, K, V>(s: seq<Slot<K, V>>, f: (S, K, V) -> (S, V, bool), start: S): (S, map<K, V>) {
    if s == [] then (start, map[])
    else
      var before, x := Sifted(s[..|s| - 1], f, start), s[|s| - 1];
      if !x.Full? then before
      else
        var (state, v, keep) := f(before.0, x.key, x.value);
        (state, if keep then before.1[x.key := v] else before.1)
  }

  ghost function HeldKeys<K, V>(s: seq<Slot<K, V>>): set<K> {
    if s == [] then {}
    else HeldKeys(s[..|s| - 1]) + if s[|s| - 1].Full? then {s[|s| - 1].key} else {}
  }

  /** The map when `retain` has been through the slots `s`: their entries sifted, the others left. */
  ghost function Halfway<S, K, V>(m: map<K, V>, s: seq<Slot<K, V>>, f: (S, K, V) -> (S, V, bool), start: S): map<K, V> {
    (m - HeldKeys(s)) + Sifted(s, f, start).1
  }

  lemma {:induction false} HeldKeysAreHeld<K, V>(s: seq<Slot<K, V>>, k: K)
    ensures k in HeldKeys(s) <==> Holds(s, k)
    decreases |s|
  {
    if s != [] {
      var front := s[..|s| - 1];
      HeldKeysAreHeld(front, k);
      if Holds(s, k) && !(s[|s| - 1].Full? && s[|s| - 1].key == k) {
        var i :| 0 <= i < |s| && s[i].Full? && s[i].key == k;
        assert front[i] == s[i];
      }
      if Holds(front, k) {
        HoldsLonger(s, |s| - 1, k);
        assert s[..|s|] == s;
      }
    }
  }

  lemma {:induction false} SiftedKeys<S, K, V>(s: seq<Slot<K, V>>, f: (S, K, V) -> (S, V, bool), start: S)
    ensures Sifted(s, f, start).1.Keys <= HeldKeys(s)
    decreases |s|
  {
    if s != [] { SiftedKeys(s[..|s| - 1], f, start); }
  }

  lemma SiftedNone<S, K, V>(s: seq<Slot<K, V>>, f: (S, K, V) -> (S, V, bool), start: S, m: map<K, V>)
    ensures Sifted(s[..0], f, start) == (start, map[]) && Halfway(m, s[..0], f, start) == m
  {
    assert s[..0] == [];
  }

  /** One slot further: only that slot's entry changes. */
  lemma SiftedNext<S, K(!new), V>(s: seq<Slot<K, V>>, hasher: K -> nat, m: map<K, V>, i: nat,
                                 f: (S, K, V) -> (S, V, bool), start: S)
    requires Good(s, hasher, m) && i < |s|
    ensures var now, next := Halfway(m, s[..i], f, start), Halfway(m, s[..i + 1], f, start);
            var before, after := Sifted(s[..i], f, start), Sifted(s[..i + 1], f, start);
            if !s[i].Full? then next == now && after.0 == before.0
            else
              var (state, v, keep) := f(before.0, s[i].key, s[i].value);
              after.0 == state && next == if keep then now[s[i].key := v] else now[s[i].key := v] - {s[i].key}
  {
    hide Good;
    assert s[..i + 1][..i] == s[..i] && s[..i + 1][i] == s[i];
    if s[i].Full? {
      var k, held, kept := s[i].key, HeldKeys(s[..i]), Sifted(s[..i], f, start);
      NotHeldBefore(s, hasher, m, i);
      HeldKeysAreHeld(s[..i], k);
      SiftedKeys(s[..i], f, start);
      SiftStep(m, held, kept.1, k, f(kept.0, k, s[i].value).1);
      assert HeldKeys(s[..i + 1]) == held + {k};
    }
  }

  lemma SiftStep<K, V>(m: map<K, V>, held: set<K>, kept: map<K, V>, k: K, v: V)
    requires k !in held && kept.Keys <= held
    ensures (m - (held + {k})) + kept[k := v] == ((m - held) + kept)[k := v]
    ensures (m - (held + {k})) + kept == ((m - held) + kept)[k := v] - {k}
  {
  }

  lemma SiftedAll<S, K(!new), V>(s: seq<Slot<K, V>>, hasher: K -> nat, m: map<K, V>,
                                f: (S, K, V) -> (S, V, bool), start: S)
    requires Good(s, hasher, m)
    ensures s[..|s|] == s && Halfway(m, s, f, start) == Sifted(s, f, start).1
  {
    forall k | k in m
      ensures k in HeldKeys(s)
    {
      HeldKeysAreHeld(s, k);
    }
    assert m - HeldKeys(s) == map[];
  }

  lemma {:induction false} NoTombstones<K, V>(s: seq<Slot<K, V>>, i: nat)
    requires i < |s|
    ensures Count(s, true) == Count(s, false) ==> !s[i].Tombstone?
  {
    if s[i].Tombstone? {
      CountUpdate(s, i, Empty, true);
      CountUpdate(s, i, Empty, false);
      CountBound(s[i := Empty]);
    }
  }

  lemma NotHeld<K(!new), V>(s: seq<Slot<K, V>>, hasher: K -> nat, m: map<K, V>, key: K)
    requires Good(s, hasher, m) && key !in m
    ensures !Holds(s, key)
  {
  }

  lemma NoSlots<K(!new), V>(s: seq<Slot<K, V>>, hasher: K -> nat, m: map<K, V>)
    requires Good(s, hasher, m)
    ensures s == [] ==> m == map[]
  {
    if s == [] {
      assert forall k :: k in m ==> Holds(s, k);
    }
  }

  lemma EntryOf<K(!new), V>(s: seq<Slot<K, V>>, hasher: K -> nat, m: map<K, V>, i: nat)
    requires Good(s, hasher, m) && i < |s| && s[i].Full?
    ensures s[i].key in m && m[s[i].key] == s[i].value && s[i].hash == hasher(s[i].key)
  {
  }

  function Lookup<K, V>(m: map<K, V>, k: K): Option<V> {
    if k in m then Some(m[k]) else None
  }

  /** A table with room for one more entry is not grown. */
  predicate HasRoom(cap: nat, used: nat) {
    cap > 0 && (used + 1) * 8 < cap * 7
  }

  method EmptySlots<K(!new), V>(n: nat, ghost f: K -> nat) returns (slots: seq<Slot<K, V>>)
    ensures |slots| == n && Good(slots, f, map[]) && Count(slots, true) == Count(slots, false) == 0
  {
    slots := [];
    while |slots| < n
      invariant |slots| <= n && forall i :: 0 <= i < |slots| ==> slots[i].Empty?
    {
      slots := slots + [Empty];
    }
    AllEmptyGood(slots, f);
  }

  /** A full slot goes to the first empty slot from its hash's home. */
  method Reinsert<K(!new), V>(slots: seq<Slot<K, V>>, x: Slot<K, V>, ghost f: K -> nat, ghost m: map<K, V>)
    returns (filled: seq<Slot<K, V>>)
    requires IsPow2(|slots|) && Good(slots, f, m) && Count(slots, true) < |slots|
    requires x.Full? && x.hash == f(x.key) && x.key !in m
    ensures |filled| == |slots| && Good(filled, f, m[x.key := x.value])
    ensures Count(filled, true) == Count(slots, true) + 1 && Count(filled, false) == Count(slots, false) + 1
  {
    hide Good;
    var i := EmptySlotFor(slots, x.hash);
    Fill(slots, f, m, i, x.key, x.value);
    filled := slots[i := x];
  }

  /** A table of `newCap` empty slots filled from `before` by stored hash. */
  method Rehash<K(!new), V>(before: seq<Slot<K, V>>, newCap: nat, ghost f: K -> nat, ghost m: map<K, V>)
    returns (slots: seq<Slot<K, V>>)
    requires Good(before, f, m) && IsPow2(newCap) && Count(before, false) < newCap
    ensures |slots| == newCap && Good(slots, f, m)
    ensures Count(slots, true) == Count(slots, false) == Count(before, false)
  {
    hide Good, Moved;
    slots := EmptySlots(newCap, f);
    ghost var moved: map<K, V> := map[];
    MovedNone(before, m);
    for n := 0 to |before|
      invariant |slots| == newCap && Good(slots, f, moved) && Moved(before, n, m, moved)
      invariant Count(slots, true) == Count(slots, false) == Count(before[..n], false)
    {
      assert before[..n + 1][..n] == before[..n];
      CountPrefix(before, n + 1);
      ghost var next := MovedStep(before, n, f, m, moved);
      if before[n].Full? {
        slots := Reinsert(slots, before[n], f, moved);
      }
      moved := next;
    }
    assert before[..|before|] == before;
    AllMoved(before, f, m, moved);
  }

  /** The keys of the first `n` slots, and only those, have been moved. */
  ghost predicate Moved<K(!new), V>(before: seq<Slot<K, V>>, n: nat, m: map<K, V>, moved: map<K, V>)
    requires n <= |before|
  {
    && (forall k :: k in moved ==> k in m && moved[k] == m[k] && Holds(before[..n], k))
    && (forall i :: 0 <= i < n && before[i].Full? ==> before[i].key in moved)
  }

  lemma MovedNone<K(!new), V>(before: seq<Slot<K, V>>, m: map<K, V>)
    ensures Moved(before, 0, m, map[])
  {
  }

  lemma MovedStep<K(!new), V>(before: seq<Slot<K, V>>, n: nat, f: K -> nat, m: map<K, V>, moved: map<K, V>)
    returns (next: map<K, V>)
    requires n < |before| && Good(before, f, m) && Moved(before, n, m, moved)
    ensures Moved(before, n + 1, m, next)
    ensures before[n].Full? ==>
              && before[n].key !in moved && next == moved[before[n].key := before[n].value]
              && before[n].hash == f(before[n].key)
    ensures !before[n].Full? ==> next == moved
  {
    hide Good;
    var x := before[n];
    if x.Full? {
      EntryOf(before, f, m, n);
      NotHeldBefore(before, f, m, n);
    }
    next := if x.Full? then moved[x.key := x.value] else moved;
    forall k | k in moved
      ensures Holds(before[..n + 1], k)
    {
      HoldsLonger(before, n, k);
    }
    if x.Full? {
      assert before[..n + 1][n] == x;
      assert Holds(before[..n + 1], x.key);
    }
  }

  lemma HoldsLonger<K, V>(s: seq<Slot<K, V>>, n: nat, k: K)
    requires n < |s| && Holds(s[..n], k)
    ensures Holds(s[..n + 1], k)
  {
    var j :| 0 <= j < n && s[..n][j].Full? && s[..n][j].key == k;
    assert s[..n + 1][j] == s[..n][j];
  }

  lemma NotHeldBefore<K(!new), V>(s: seq<Slot<K, V>>, f: K -> nat, m: map<K, V>, n: nat)
    requires n < |s| && Good(s, f, m) && s[n].Full?
    ensures !Holds(s[..n], s[n].key)
  {
    assert forall j :: 0 <= j < n ==> s[..n][j] == s[j];
  }

  lemma AllMoved<K(!new), V>(before: seq<Slot<K, V>>, f: K -> nat, m: map<K, V>, moved: map<K, V>)
    requires Good(before, f, m) && Moved(before, |before|, m, moved)
    ensures moved == m
  {
    forall k | k in m
      ensures k in moved
    {
      assert Holds(before, k);
    }
  }

  lemma {:induction false} CountPrefix<K, V>(s: seq<Slot<K, V>>, n: nat)
    requires n <= |s|
    ensures Count(s[..n], false) <= Count(s, false)
    decreases |s|
  {
    if n < |s| {
      CountPrefix(s[..|s| - 1], n);
      assert s[..|s| - 1][..n] == s[..n];
    } else {
      assert s[..n] == s;
    }
  }
}
