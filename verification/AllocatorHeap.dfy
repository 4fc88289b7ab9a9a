/** The allocator's heap as a value: arenas carved into blocks, intrusive free lists threaded
    through the blocks' first words, and what each operation does to them. */
module AllocatorHeap {
  import opened Arithmetic

  const GRAN: nat := 16384
  const MIN_MAP_ALIGN: nat := 4096
  const MIN_SHIFT: nat := 4
  const MAX_SMALL: nat := MIN_MAP_ALIGN
  const NUM_CLASSES: nat := 9
  const ARENA: nat := 0x10_0000

  type Addr = nat

  function Shl(shift: nat): (r: nat)
    ensures r > 0
  {
    if shift == 0 then 1 else 2 * Shl(shift - 1)
  }

  function ClassSize(idx: nat): (r: nat)
    ensures r > 0
  {
    Shl(idx + MIN_SHIFT)
  }

  lemma ClassSizes()
    ensures ClassSize(0) == 16 && ClassSize(1) == 32 && ClassSize(2) == 64
    ensures ClassSize(3) == 128 && ClassSize(4) == 256 && ClassSize(5) == 512
    ensures ClassSize(6) == 1024 && ClassSize(7) == 2048 && ClassSize(8) == 4096
  {
    assert Shl(4) == 16 && Shl(5) == 32 && Shl(6) == 64;
    assert Shl(7) == 128 && Shl(8) == 256 && Shl(9) == 512;
    assert Shl(10) == 1024 && Shl(11) == 2048 && Shl(12) == 4096;
  }

  /** How many blocks an arena holds. */
  function Blocks(idx: nat): nat
    requires idx < NUM_CLASSES
  {
    ClassSizes();
    ARENA / ClassSize(idx)
  }

  /** Where an arena's j-th block starts. */
  function BlockAt(base: Addr, j: nat, idx: nat): Addr
    requires idx < NUM_CLASSES
  {
    base + j * ClassSize(idx)
  }

  /** Blocks tile their arena: they are aligned to their size, in order, and inside. */
  lemma Tiling(base: Addr, j: nat, k: nat, idx: nat)
    requires idx < NUM_CLASSES && j < Blocks(idx) && k < Blocks(idx)
    ensures ClassSize(idx) >= 16
    ensures base <= BlockAt(base, j, idx) && BlockAt(base, j, idx) + ClassSize(idx) <= base + ARENA
    ensures j < k ==> BlockAt(base, j, idx) + ClassSize(idx) <= BlockAt(base, k, idx)
    ensures base % MIN_MAP_ALIGN == 0 ==> BlockAt(base, j, idx) % ClassSize(idx) == 0
  {
    ClassSizes();
    var size := ClassSize(idx);
    MulMono(j + 1, Blocks(idx), size);
    if j < k { MulMono(j + 1, k, size); }
    if base % MIN_MAP_ALIGN == 0 {
      assert MIN_MAP_ALIGN == (MIN_MAP_ALIGN / size) * size;
      var m, n := base / MIN_MAP_ALIGN, MIN_MAP_ALIGN / size;
      assert base == m * MIN_MAP_ALIGN;
      assert base == m * n * size by { MulAssoc(m, n, size); }
      assert BlockAt(base, j, idx) == (m * n + j) * size;
      DivMod(m * n + j, 0, size);
    }
  }

  lemma MulAssoc(a: nat, b: nat, c: nat)
    ensures a * (b * c) == a * b * c
  {
  }

  // ---- the heap ----

  /** Which arena a block was carved from, at what position, and of which class. */
  datatype Block = Block(base: Addr, j: nat, idx: nat)

  datatype Heap = Heap(
    free: seq<Addr>,           // the head of each class's free list, 0 when empty
    mem: map<Addr, nat>,       // memory words
    // bookkeeping the program does not keep
    lists: seq<seq<Addr>>,     // each free list in order
    blocks: map<Addr, Block>,  // every block ever carved
    live: map<Addr, nat>,      // small blocks in the client's hands, with their class
    arenas: map<Addr, nat>,    // mapped arenas, with their class
    large: map<Addr, nat>)     // mapped large allocations, with their length

  /** Two address ranges do not overlap. */
  predicate Apart(a: Addr, la: nat, b: Addr, lb: nat) {
    a + la <= b || b + lb <= a
  }

  ghost predicate RegionsOk(h: Heap) {
    && (forall b :: b in h.arenas ==> b > 0 && b % MIN_MAP_ALIGN == 0 && h.arenas[b] < NUM_CLASSES)
    && (forall b :: b in h.large ==> b > 0 && b % MIN_MAP_ALIGN == 0 && h.large[b] > 0)
    && (forall a, b :: a in h.arenas && b in h.arenas && a != b ==> Apart(a, ARENA, b, ARENA))
    && (forall a, b :: a in h.arenas && b in h.large ==> Apart(a, ARENA, b, h.large[b]))
    && (forall a, b :: a in h.large && b in h.large && a != b ==> Apart(a, h.large[a], b, h.large[b]))
  }

  ghost predicate BlocksOk(h: Heap) {
    forall p :: p in h.blocks ==>
      var b := h.blocks[p];
      && b.base in h.arenas && h.arenas[b.base] == b.idx && b.idx < NUM_CLASSES
      && b.j < Blocks(b.idx) && p == BlockAt(b.base, b.j, b.idx)
  }

  /** Following next pointers from `head` visits exactly `list` and ends. */
  ghost predicate Linked(mem: map<Addr, nat>, head: Addr, list: seq<Addr>) {
    && head == (if list == [] then 0 else list[0])
    && forall i {:trigger After(list, i)} :: 0 <= i < |list| ==>
         list[i] > 0 && list[i] in mem && mem[list[i]] == After(list, i)
  }

  /** What follows the i-th block of a list: the next one, or null. */
  function After(list: seq<Addr>, i: nat): Addr {
    if i + 1 < |list| then list[i + 1] else 0
  }

  ghost predicate NoRepeats(list: seq<Addr>) {
    forall i, j :: 0 <= i < j < |list| ==> list[i] != list[j]
  }

  ghost predicate ListOk(h: Heap, c: nat)
    requires c < |h.lists| && c < |h.free|
  {
    && Linked(h.mem, h.free[c], h.lists[c])
    && NoRepeats(h.lists[c])
    && forall i :: 0 <= i < |h.lists[c]| ==>
         var p := h.lists[c][i]; p in h.blocks && h.blocks[p].idx == c && p !in h.live
  }

  ghost function KeysWith(m: map<Addr, nat>, c: nat): set<Addr> {
    set p | p in m && m[p] == c
  }

  ghost function LiveOf(h: Heap, c: nat): set<Addr> {
    KeysWith(h.live, c)
  }

  ghost function ArenasOf(h: Heap, c: nat): set<Addr> {
    KeysWith(h.arenas, c)
  }

  /** Every block of class `c` ever carved is on its free list or live. */
  ghost predicate Conserved(h: Heap, c: nat)
    requires c < |h.lists| && c < NUM_CLASSES
  {
    |h.lists[c]| + |LiveOf(h, c)| == |ArenasOf(h, c)| * Blocks(c)
  }

  ghost predicate Inv(h: Heap) {
    && |h.free| == NUM_CLASSES && |h.lists| == NUM_CLASSES
    && RegionsOk(h) && BlocksOk(h)
    && (forall p :: p in h.live ==> p in h.blocks && h.live[p] == h.blocks[p].idx)
    && (forall c :: 0 <= c < NUM_CLASSES ==> ListOk(h, c) && Conserved(h, c))
  }

  /** Distinct blocks never overlap, whatever their classes and arenas. */
  lemma BlocksApart(h: Heap, p: Addr, q: Addr)
    requires RegionsOk(h) && BlocksOk(h) && p in h.blocks && q in h.blocks && p != q
    ensures Apart(p, ClassSize(h.blocks[p].idx), q, ClassSize(h.blocks[q].idx))
  {
    var b, d := h.blocks[p], h.blocks[q];
    Tiling(b.base, b.j, b.j, b.idx);
    Tiling(d.base, d.j, d.j, d.idx);
    if b.base == d.base {
      if b.j < d.j { Tiling(b.base, b.j, d.j, b.idx); } else { Tiling(b.base, d.j, b.j, b.idx); }
    } else {
      assert Apart(b.base, ARENA, d.base, ARENA);
    }
  }

  /** A block lies inside a mapped arena, clear of every large allocation, aligned to its size. */
  lemma BlockPlace(h: Heap, p: Addr)
    requires RegionsOk(h) && BlocksOk(h) && p in h.blocks
    ensures var b := h.blocks[p];
            && p > 0 && p % ClassSize(b.idx) == 0
            && b.base <= p && p + ClassSize(b.idx) <= b.base + ARENA
            && forall l :: l in h.large ==> Apart(p, ClassSize(b.idx), l, h.large[l])
  {
    var b := h.blocks[p];
    Tiling(b.base, b.j, b.j, b.idx);
    forall l | l in h.large
      ensures Apart(p, ClassSize(b.idx), l, h.large[l])
    {
      assert Apart(b.base, ARENA, l, h.large[l]);
    }
  }

  // ---- taking and giving back a block ----

  function Pop(h: Heap, c: nat): Heap
    requires c < |h.free| && c < |h.lists| && h.lists[c] != [] && h.free[c] in h.mem
  {
    var p := h.free[c];
    h.(free := h.free[c := h.mem[p]], lists := h.lists[c := h.lists[c][1..]], live := h.live[p := c])
  }

  lemma LinkAt(mem: map<Addr, nat>, head: Addr, list: seq<Addr>, i: nat)
    requires Linked(mem, head, list) && i < |list|
    ensures list[i] > 0 && list[i] in mem && mem[list[i]] == After(list, i)
  {
    assert After(list, i) >= 0;
  }

  lemma LinkedTail(mem: map<Addr, nat>, list: seq<Addr>)
    requires list != [] && Linked(mem, list[0], list) && NoRepeats(list)
    ensures list[0] in mem && Linked(mem, mem[list[0]], list[1..]) && NoRepeats(list[1..])
    ensures forall i :: 0 <= i < |list[1..]| ==> list[1..][i] == list[i + 1] != list[0]
  {
    var rest := list[1..];
    LinkAt(mem, list[0], list, 0);
    forall i | 0 <= i < |rest|
      ensures rest[i] > 0 && rest[i] in mem && mem[rest[i]] == After(rest, i)
    {
      LinkAt(mem, list[0], list, i + 1);
      assert rest[i] == list[i + 1] && After(rest, i) == After(list, i + 1);
    }
  }

  lemma PopInv(h: Heap, c: nat)
    requires Inv(h) && c < NUM_CLASSES && h.lists[c] != []
    ensures h.free[c] == h.lists[c][0] && h.free[c] in h.mem && h.free[c] in h.blocks && h.free[c] !in h.live
    ensures h.blocks[h.free[c]].idx == c
    ensures Inv(Pop(h, c))
  {
    assert ListOk(h, c);
    LinkedTail(h.mem, h.lists[c]);
    var h' := Pop(h, c);
    assert RegionsOk(h') && BlocksOk(h');
    hide RegionsOk, BlocksOk, Conserved, Linked, NoRepeats;
    forall d | 0 <= d < NUM_CLASSES
      ensures ListOk(h', d) && Conserved(h', d)
    {
      PopList(h, c, d);
    }
  }

  lemma PopList(h: Heap, c: nat, d: nat)
    requires Inv(h) && c < NUM_CLASSES && d < NUM_CLASSES && h.lists[c] != [] && h.free[c] in h.mem
    ensures var h' := Pop(h, c); ListOk(h', d) && Conserved(h', d)
  {
    hide RegionsOk, BlocksOk;
    assert ListOk(h, c) && ListOk(h, d) && Conserved(h, d);
    LinkedTail(h.mem, h.lists[c]);
    hide Linked, NoRepeats;
    var p, h' := h.free[c], Pop(h, c);
    assert p == h.lists[c][0];
    assert ArenasOf(h', d) == ArenasOf(h, d);
    if d == c {
      assert LiveOf(h', c) == LiveOf(h, c) + {p};
    } else {
      assert LiveOf(h', d) == LiveOf(h, d);
      assert h'.lists[d] == h.lists[d] && h'.free[d] == h.free[d];
    }
  }

  function Push(h: Heap, c: nat, p: Addr): Heap
    requires c < |h.free| && c < |h.lists|
  {
    h.(free := h.free[c := p], mem := h.mem[p := h.free[c]],
       lists := h.lists[c := [p] + h.lists[c]], live := h.live - {p})
  }

  lemma LinkedCons(mem: map<Addr, nat>, head: Addr, list: seq<Addr>, p: Addr)
    requires Linked(mem, head, list) && NoRepeats(list) && p > 0
    requires forall i :: 0 <= i < |list| ==> list[i] != p
    ensures Linked(mem[p := head], p, [p] + list) && NoRepeats([p] + list)
  {
    var longer := [p] + list;
    forall i | 0 <= i < |longer|
      ensures longer[i] > 0 && longer[i] in mem[p := head] && mem[p := head][longer[i]] == After(longer, i)
    {
      if i > 0 {
        LinkAt(mem, head, list, i - 1);
        assert longer[i] == list[i - 1] && After(longer, i) == After(list, i - 1);
      }
    }
    assert forall i :: 1 <= i < |longer| ==> longer[i] == list[i - 1];
  }

  lemma LinkedKept(mem: map<Addr, nat>, head: Addr, list: seq<Addr>, a: Addr, v: nat)
    requires Linked(mem, head, list)
    requires forall i :: 0 <= i < |list| ==> list[i] != a
    ensures Linked(mem[a := v], head, list)
  {
    forall i | 0 <= i < |list|
      ensures list[i] > 0 && list[i] in mem[a := v] && mem[a := v][list[i]] == After(list, i)
    {
      LinkAt(mem, head, list, i);
    }
  }

  lemma PushInv(h: Heap, c: nat, p: Addr)
    requires Inv(h) && c < NUM_CLASSES && p in h.live && h.live[p] == c
    ensures Inv(Push(h, c, p))
  {
    var h' := Push(h, c, p);
    assert RegionsOk(h') && BlocksOk(h');
    hide RegionsOk, BlocksOk, ListOk, Conserved;
    forall d | 0 <= d < NUM_CLASSES
      ensures ListOk(h', d) && Conserved(h', d)
    {
      PushList(h, c, p, d);
    }
  }

  lemma PushList(h: Heap, c: nat, p: Addr, d: nat)
    requires Inv(h) && c < NUM_CLASSES && d < NUM_CLASSES && p in h.live && h.live[p] == c
    ensures var h' := Push(h, c, p); ListOk(h', d) && Conserved(h', d)
  {
    hide Linked, NoRepeats, RegionsOk, BlocksOk;
    var h' := Push(h, c, p);
    BlockPlace(h, p);
    assert ListOk(h, d) && Conserved(h, d);
    assert ArenasOf(h', d) == ArenasOf(h, d);
    assert forall i :: 0 <= i < |h.lists[d]| ==> h.lists[d][i] != p;
    if d == c {
      LinkedCons(h.mem, h.free[c], h.lists[c], p);
      assert LiveOf(h', c) == LiveOf(h, c) - {p};
      assert forall i :: 1 <= i < |h'.lists[c]| ==> h'.lists[c][i] == h.lists[c][i - 1];
    } else {
      LinkedKept(h.mem, h.free[d], h.lists[d], p, h.free[c]);
      assert LiveOf(h', d) == LiveOf(h, d);
    }
  }

  // ---- the client's writes ----

  /** An address the client may write: inside a live block or a large allocation. */
  ghost predicate Owned(h: Heap, a: Addr) {
    || (exists p :: p in h.live && p <= a < p + ClassSize(h.live[p]))
    || (exists l :: l in h.large && l <= a < l + h.large[l])
  }

  /** Nothing the client may write lies in a free block, whose first bytes are its next pointer. */
  lemma OwnedIsNotFree(h: Heap, a: Addr, c: nat, i: nat)
    requires Inv(h) && Owned(h, a) && c < NUM_CLASSES && i < |h.lists[c]|
    ensures a < h.lists[c][i] || h.lists[c][i] + ClassSize(c) <= a
  {
    assert ListOk(h, c);
    var q := h.lists[c][i];
    BlockPlace(h, q);
    if p :| p in h.live && p <= a < p + ClassSize(h.live[p]) {
      BlocksApart(h, p, q);
    }
  }

  lemma WriteInv(h: Heap, a: Addr, v: nat)
    requires Inv(h) && Owned(h, a)
    ensures Inv(h.(mem := h.mem[a := v]))
  {
    var h' := h.(mem := h.mem[a := v]);
    forall d | 0 <= d < NUM_CLASSES
      ensures ListOk(h', d) && Conserved(h', d)
    {
      assert ListOk(h, d) && Conserved(h, d);
      assert ArenasOf(h', d) == ArenasOf(h, d) && LiveOf(h', d) == LiveOf(h, d);
      forall i | 0 <= i < |h.lists[d]|
        ensures h.lists[d][i] != a
      {
        OwnedIsNotFree(h, a, d, i);
      }
      LinkedKept(h.mem, h.free[d], h.lists[d], a, v);
    }
  }

  // ---- mapping memory ----

  /** What the kernel promises of a fresh mapping: page-aligned and clear of everything mapped. */
  ghost predicate FreshRegion(h: Heap, base: Addr, len: nat) {
    && base > 0 && base % MIN_MAP_ALIGN == 0 && len > 0
    && (forall a :: a in h.arenas ==> Apart(a, ARENA, base, len))
    && (forall l :: l in h.large ==> Apart(l, h.large[l], base, len))
  }

  /** `blocks` is `h.blocks` and the blocks `from..` of a fresh arena of class `c`. */
  ghost predicate CarvedBlocks(h: Heap, c: nat, base: Addr, from: nat, blocks: map<Addr, Block>)
    requires c < NUM_CLASSES
  {
    && (forall p :: p in h.blocks ==> p in blocks && blocks[p] == h.blocks[p])
    && (forall j :: from <= j < Blocks(c) ==>
          BlockAt(base, j, c) in blocks && blocks[BlockAt(base, j, c)] == Block(base, j, c))
    && (forall p :: p in blocks && p !in h.blocks ==>
          blocks[p].base == base && blocks[p].idx == c && blocks[p].j < Blocks(c) && p == BlockAt(base, blocks[p].j, c))
  }

  /** Blocks `from..` of the arena are threaded onto the list that starts at `h.free[c]`, and
      nothing outside the arena is written. */
  ghost predicate CarvedMem(h: Heap, c: nat, base: Addr, from: nat, mem: map<Addr, nat>)
    requires c < NUM_CLASSES && c < |h.free|
  {
    && (forall a :: a in h.mem && !(base <= a < base + ARENA) ==> a in mem && mem[a] == h.mem[a])
    && (forall j {:trigger NextAfter(h, c, base, j)} :: from <= j < Blocks(c) ==>
          BlockAt(base, j, c) in mem && mem[BlockAt(base, j, c)] == NextAfter(h, c, base, j))
  }

  function NextAfter(h: Heap, c: nat, base: Addr, j: nat): Addr
    requires c < NUM_CLASSES && c < |h.free|
  {
    if j + 1 < Blocks(c) then BlockAt(base, j + 1, c) else h.free[c]
  }

  function FreshList(c: nat, base: Addr): seq<Addr>
    requires c < NUM_CLASSES
  {
    seq(Blocks(c), j requires 0 <= j < Blocks(c) => BlockAt(base, j, c))
  }

  function Carve(h: Heap, c: nat, base: Addr, mem: map<Addr, nat>, blocks: map<Addr, Block>): Heap
    requires c < NUM_CLASSES && c < |h.free| && c < |h.lists|
  {
    h.(free := h.free[c := BlockAt(base, 0, c)], mem := mem, lists := h.lists[c := FreshList(c, base) + h.lists[c]],
       blocks := blocks, arenas := h.arenas[base := c])
  }

  /** Old blocks lie outside a fresh region. */
  lemma OldBlockOutside(h: Heap, base: Addr, p: Addr)
    requires RegionsOk(h) && BlocksOk(h) && FreshRegion(h, base, ARENA) && p in h.blocks
    ensures !(base <= p < base + ARENA)
  {
    BlockPlace(h, p);
    ClassSizes();
    assert Apart(h.blocks[p].base, ARENA, base, ARENA);
  }

  lemma CarveBlocksOk(h: Heap, c: nat, base: Addr, mem: map<Addr, nat>, blocks: map<Addr, Block>)
    requires Inv(h) && c < NUM_CLASSES && FreshRegion(h, base, ARENA) && CarvedBlocks(h, c, base, 0, blocks)
    ensures var h' := Carve(h, c, base, mem, blocks); RegionsOk(h') && BlocksOk(h')
  {
    assert base !in h.arenas;
  }

  lemma FreshLinkAt(h: Heap, c: nat, base: Addr, mem: map<Addr, nat>, i: nat)
    requires Inv(h) && c < NUM_CLASSES && FreshRegion(h, base, ARENA) && CarvedMem(h, c, base, 0, mem) && i < Blocks(c)
    ensures var list := FreshList(c, base) + h.lists[c];
            list[i] > 0 && list[i] in mem && mem[list[i]] == After(list, i)
  {
    var list := FreshList(c, base) + h.lists[c];
    assert ListOk(h, c);
    Tiling(base, i, i, c);
    assert list[i] == BlockAt(base, i, c);
    if i + 1 < Blocks(c) {
      assert list[i + 1] == BlockAt(base, i + 1, c);
    } else {
      assert i + 1 < |list| ==> list[i + 1] == h.lists[c][0];
    }
    assert After(list, i) == NextAfter(h, c, base, i);
  }

  lemma OldLinkAt(h: Heap, c: nat, base: Addr, mem: map<Addr, nat>, d: nat, i: nat)
    requires Inv(h) && c < NUM_CLASSES && FreshRegion(h, base, ARENA) && CarvedMem(h, c, base, 0, mem)
    requires d < NUM_CLASSES && i < |h.lists[d]|
    ensures var p := h.lists[d][i]; p > 0 && p in mem && mem[p] == After(h.lists[d], i)
  {
    hide RegionsOk, BlocksOk;
    assert ListOk(h, d);
    LinkAt(h.mem, h.free[d], h.lists[d], i);
    OldBlockOutside(h, base, h.lists[d][i]);
  }

  lemma FreshLinked(h: Heap, c: nat, base: Addr, mem: map<Addr, nat>)
    requires Inv(h) && c < NUM_CLASSES && FreshRegion(h, base, ARENA) && CarvedMem(h, c, base, 0, mem)
    ensures Linked(mem, BlockAt(base, 0, c), FreshList(c, base) + h.lists[c])
  {
    assert |h.lists| == NUM_CLASSES && |h.free| == NUM_CLASSES;
    hide Inv, CarvedMem, FreshRegion;
    ClassSizes();
    var list, n := FreshList(c, base) + h.lists[c], Blocks(c);
    forall i | 0 <= i < |list|
      ensures list[i] > 0 && list[i] in mem && mem[list[i]] == After(list, i)
    {
      if i < n {
        FreshLinkAt(h, c, base, mem, i);
      } else {
        OldLinkAt(h, c, base, mem, c, i - n);
        assert list[i] == h.lists[c][i - n] && After(list, i) == After(h.lists[c], i - n);
      }
    }
  }

  lemma FreshNoRepeats(h: Heap, c: nat, base: Addr)
    requires Inv(h) && c < NUM_CLASSES && FreshRegion(h, base, ARENA)
    ensures NoRepeats(FreshList(c, base) + h.lists[c])
  {
    hide RegionsOk, BlocksOk;
    assert ListOk(h, c);
    ClassSizes();
    var list, n := FreshList(c, base) + h.lists[c], Blocks(c);
    forall i, j | 0 <= i < j < |list|
      ensures list[i] != list[j]
    {
      if j < n {
        Tiling(base, i, j, c);
      } else if i < n {
        Tiling(base, i, i, c);
        assert list[j] == h.lists[c][j - n];
        OldBlockOutside(h, base, list[j]);
      } else {
        assert list[i] == h.lists[c][i - n] && list[j] == h.lists[c][j - n];
      }
    }
  }

  lemma OtherLinked(h: Heap, c: nat, base: Addr, mem: map<Addr, nat>, d: nat)
    requires Inv(h) && c < NUM_CLASSES && FreshRegion(h, base, ARENA) && CarvedMem(h, c, base, 0, mem)
    requires d < NUM_CLASSES
    ensures Linked(mem, h.free[d], h.lists[d])
  {
    assert ListOk(h, d);
    forall i | 0 <= i < |h.lists[d]|
      ensures var p := h.lists[d][i]; p > 0 && p in mem && mem[p] == After(h.lists[d], i)
    {
      OldLinkAt(h, c, base, mem, d, i);
    }
  }

  lemma CarveInv(h: Heap, c: nat, base: Addr, mem: map<Addr, nat>, blocks: map<Addr, Block>)
    requires Inv(h) && c < NUM_CLASSES && FreshRegion(h, base, ARENA)
    requires CarvedMem(h, c, base, 0, mem) && CarvedBlocks(h, c, base, 0, blocks)
    ensures Inv(Carve(h, c, base, mem, blocks))
  {
    var h' := Carve(h, c, base, mem, blocks);
    CarveBlocksOk(h, c, base, mem, blocks);
    forall d | 0 <= d < NUM_CLASSES
      ensures ListOk(h', d) && Conserved(h', d)
    {
      CarveList(h, c, base, mem, blocks, d);
    }
  }

  lemma CarveList(h: Heap, c: nat, base: Addr, mem: map<Addr, nat>, blocks: map<Addr, Block>, d: nat)
    requires Inv(h) && c < NUM_CLASSES && FreshRegion(h, base, ARENA) && d < NUM_CLASSES
    requires CarvedMem(h, c, base, 0, mem) && CarvedBlocks(h, c, base, 0, blocks)
    ensures var h' := Carve(h, c, base, mem, blocks); ListOk(h', d) && Conserved(h', d)
  {
    hide RegionsOk, BlocksOk;
    var h' := Carve(h, c, base, mem, blocks);
    assert ListOk(h, d) && Conserved(h, d);
    ArenaCount(h, c, base, mem, blocks, d);
    if d == c {
      FreshLinked(h, c, base, mem);
      FreshNoRepeats(h, c, base);
      FreshOwned(h, c, base, mem, blocks);
      hide Linked, NoRepeats;
      assert ListOk(h', c);
      var k := |ArenasOf(h, c)|;
      assert (k + 1) * Blocks(c) == k * Blocks(c) + Blocks(c);
    } else {
      OtherLinked(h, c, base, mem, d);
      hide Linked, NoRepeats;
      assert ListOk(h', d);
    }
  }

  lemma ArenaCount(h: Heap, c: nat, base: Addr, mem: map<Addr, nat>, blocks: map<Addr, Block>, d: nat)
    requires Inv(h) && c < NUM_CLASSES && FreshRegion(h, base, ARENA)
    ensures var h' := Carve(h, c, base, mem, blocks);
            && LiveOf(h', d) == LiveOf(h, d)
            && |ArenasOf(h', d)| == |ArenasOf(h, d)| + if d == c then 1 else 0
  {
    assert base !in h.arenas;
    KeysAdded(h.arenas, base, c, d);
  }

  lemma KeysAdded(m: map<Addr, nat>, key: Addr, c: nat, d: nat)
    requires key !in m
    ensures |KeysWith(m[key := c], d)| == |KeysWith(m, d)| + if d == c then 1 else 0
  {
    if d == c {
      assert KeysWith(m[key := c], d) == KeysWith(m, d) + {key};
    } else {
      assert KeysWith(m[key := c], d) == KeysWith(m, d);
    }
  }

  lemma FreshOwned(h: Heap, c: nat, base: Addr, mem: map<Addr, nat>, blocks: map<Addr, Block>)
    requires Inv(h) && c < NUM_CLASSES && FreshRegion(h, base, ARENA) && CarvedBlocks(h, c, base, 0, blocks)
    ensures var list := FreshList(c, base) + h.lists[c];
            forall i :: 0 <= i < |list| ==> list[i] in blocks && blocks[list[i]].idx == c && list[i] !in h.live
  {
    hide RegionsOk, BlocksOk;
    assert ListOk(h, c);
    var list, n := FreshList(c, base) + h.lists[c], Blocks(c);
    forall i | 0 <= i < |list|
      ensures list[i] in blocks && blocks[list[i]].idx == c && list[i] !in h.live
    {
      if i < n {
        Tiling(base, i, i, c);
        assert list[i] == BlockAt(base, i, c);
        if list[i] in h.blocks { OldBlockOutside(h, base, list[i]); }
      } else {
        assert list[i] == h.lists[c][i - n];
      }
    }
  }

  // ---- large allocations ----

  lemma MapLargeInv(h: Heap, base: Addr, len: nat)
    requires Inv(h) && FreshRegion(h, base, len)
    ensures Inv(h.(large := h.large[base := len]))
  {
    var h' := h.(large := h.large[base := len]);
    SameLists(h, h');
    assert BlocksOk(h');
    hide ListOk, Conserved, BlocksOk;
    assert RegionsOk(h');
  }

  lemma UnmapLargeInv(h: Heap, base: Addr)
    requires Inv(h) && base in h.large
    ensures Inv(h.(large := h.large - {base}))
  {
    var h' := h.(large := h.large - {base});
    SameLists(h, h');
    assert BlocksOk(h');
    hide ListOk, Conserved, BlocksOk;
    assert RegionsOk(h');
  }

  lemma SameLists(h: Heap, h': Heap)
    requires Inv(h) && h' == h.(large := h'.large)
    ensures forall d :: 0 <= d < NUM_CLASSES ==> ListOk(h', d) && Conserved(h', d)
  {
    hide RegionsOk, BlocksOk;
    forall d | 0 <= d < NUM_CLASSES
      ensures ListOk(h', d) && Conserved(h', d)
    {
      assert ListOk(h, d) && Conserved(h, d);
      assert LiveOf(h', d) == LiveOf(h, d) && ArenasOf(h', d) == ArenasOf(h, d);
    }
  }
}
