/** The segregated free-list allocator. Its methods run one at a time (the source's spinlock);
    what `mmap` returns is a parameter, constrained only by the kernel's promise. */
module Allocators {
  import opened AllocatorHeap
  import opened Arithmetic
  import opened Bits
  import opened Wrappers

  function Max(a: nat, b: nat): nat {
    if a < b then b else a
  }

  /** What a request needs: its size and alignment, and never less than the smallest class. */
  function Need(size: nat, align: nat): nat {
    Max(Max(size, align), Shl(MIN_SHIFT))
  }

  /** The class a request belongs to, if it is small. */
  ghost function ClassOf(size: nat, align: nat): Option<nat> {
    if Need(size, align) > MAX_SMALL then None
    else Some(SmallestClass(Need(size, align), 0))
  }

  ghost function SmallestClass(need: nat, idx: nat): nat
    decreases NUM_CLASSES - idx
  {
    if idx >= NUM_CLASSES || need <= ClassSize(idx) then idx else SmallestClass(need, idx + 1)
  }

  lemma {:induction false} SmallestFits(need: nat, idx: nat)
    requires need <= MAX_SMALL && idx < NUM_CLASSES
    ensures SmallestClass(need, idx) < NUM_CLASSES && need <= ClassSize(SmallestClass(need, idx))
    decreases NUM_CLASSES - idx
  {
    ClassSizes();
    if need > ClassSize(idx) {
      SmallestFits(need, idx + 1);
    }
  }

  /** A request's class has blocks large and aligned enough for it. */
  lemma ClassFits(size: nat, align: nat)
    ensures var c := ClassOf(size, align);
            c.Some? ==> c.value < NUM_CLASSES && size <= ClassSize(c.value) && align <= ClassSize(c.value)
  {
    if Need(size, align) <= MAX_SMALL {
      SmallestFits(Need(size, align), 0);
    }
  }

  /** The first class that fits, found by doubling; none if the request is not small. */
  method ClassFor(size: nat, align: nat) returns (idx: Option<nat>)
    ensures idx == ClassOf(size, align)
    ensures idx.None? <==> size > 4096 || align > 4096
    ensures idx.Some? ==>
              && idx.value < NUM_CLASSES && size <= ClassSize(idx.value) && align <= ClassSize(idx.value)
              && (idx.value > 0 ==> ClassSize(idx.value - 1) < size || ClassSize(idx.value - 1) < align)
  {
    ClassSizes();
    var need := Need(size, align);
    if need > MAX_SMALL {
      return None;
    }
    var shift := MIN_SHIFT;
    while Shl(shift) < need
      invariant MIN_SHIFT <= shift <= 12
      invariant SmallestClass(need, shift - MIN_SHIFT) == SmallestClass(need, 0)
      invariant shift == MIN_SHIFT || ClassSize(shift - 1 - MIN_SHIFT) < need
      decreases 12 - shift
    {
      assert Shl(shift) == ClassSize(shift - MIN_SHIFT);
      shift := shift + 1;
    }
    idx := Some(shift - MIN_SHIFT);
  }

  function RoundUp(v: nat, to: nat): nat
    requires to > 0
  {
    AndNot(v + to - 1, to - 1)
  }

  /** Rounding up gives the least multiple that is large enough. */
  lemma RoundUpIsLeast(v: nat, to: nat)
    requires IsPow2(to)
    ensures RoundUp(v, to) % to == 0 && v <= RoundUp(v, to) < v + to
  {
    assert to > 0;
    hide And, AndNot, IsPow2;
    MaskedFloor(v + to - 1, to);
  }

  lemma MaskedFloor(x: nat, to: nat)
    requires IsPow2(to)
    ensures AndNot(x, to - 1) % to == 0 && AndNot(x, to - 1) <= x < AndNot(x, to - 1) + to
  {
    assert to > 0;
    hide And, AndNot, IsPow2;
    Split(x, to - 1);
    MaskIsRemainder(x, to);
    var r := And(x, to - 1);
    Floor(x, r, to);
    assert AndNot(x, to - 1) == x - r;
  }

  // ---- the steps of a run ----

  ghost predicate Init(h: Heap) {
    && |h.free| == |h.lists| == NUM_CLASSES
    && (forall c :: 0 <= c < NUM_CLASSES ==> h.free[c] == 0 && h.lists[c] == [])
    && h.blocks == map[] && h.live == map[] && h.arenas == map[] && h.large == map[]
  }

  /** What passes between the allocator and its client: a block taken (null for a refusal), a
      block given back, a word written. */
  datatype Event = Took(size: nat, align: nat, p: Addr) | Gave(p: Addr, size: nat, align: nat) | Wrote(a: Addr, v: nat)

  /** `full` is `h` after a fresh arena at `base` was carved into blocks of class `c`. */
  ghost predicate CarvedInto(h: Heap, c: nat, base: Addr, mem: map<Addr, nat>, blocks: map<Addr, Block>, full: Heap)
    requires c < NUM_CLASSES && c < |h.free| && c < |h.lists|
  {
    && FreshRegion(h, base, ARENA) && CarvedMem(h, c, base, 0, mem) && CarvedBlocks(h, c, base, 0, blocks)
    && full == Carve(h, c, base, mem, blocks)
  }

  /** `full` is `h`, or `h` refilled because its list of class `c` was empty. */
  ghost predicate Refilled(h: Heap, c: nat, full: Heap)
    requires c < NUM_CLASSES && c < |h.free| && c < |h.lists|
  {
    full == h || (h.lists[c] == [] && exists base, mem, blocks :: CarvedInto(h, c, base, mem, blocks, full))
  }

  /** `h'` is `full` with the first free block of class `c`, at `p`, handed out. */
  ghost predicate Taken(full: Heap, c: nat, p: Addr, h': Heap) {
    && c < |full.free| && c < |full.lists| && full.lists[c] != [] && full.free[c] in full.mem
    && p == full.free[c] && h' == Pop(full, c)
  }

  ghost predicate Step(h: Heap, e: Event, h': Heap)
    requires |h.free| == |h.lists| == NUM_CLASSES
  {
    match e
    case Took(size, align, p) =>
      IsPow2(align) && (
        if p == 0 then h' == h
        else
          match ClassOf(size, align)
          case Some(c) => c < NUM_CLASSES && exists full :: Refilled(h, c, full) && Taken(full, c, p, h')
          case None =>
            var len := RoundUp(size, GRAN);
            align <= GRAN && FreshRegion(h, p, len) && h' == h.(large := h.large[p := len]))
    case Gave(p, size, align) =>
      if p == 0 then h' == h
      else
        && Holds(h, p, size, align)
        && match ClassOf(size, align) {
             case Some(c) => c < NUM_CLASSES && h' == Push(h, c, p)
             case None => h' == h.(large := h.large - {p})
           }
    case Wrote(a, v) => Owned(h, a) && h' == h.(mem := h.mem[a := v])
  }

  lemma RefilledSafe(h: Heap, c: nat, full: Heap)
    requires Inv(h) && c < NUM_CLASSES && Refilled(h, c, full)
    ensures Inv(full) && full.live == h.live && full.large == h.large && DataKept(h, full.mem, {})
  {
    assert |h.free| == |h.lists| == NUM_CLASSES;
    hide Inv, CarvedMem, CarvedBlocks, FreshRegion, DataKept;
    KeepsItself(h);
    if full != h {
      var base, mem, blocks :| CarvedInto(h, c, base, mem, blocks, full);
      assert CarvedInto(h, c, base, mem, blocks, full);
      CarveInv(h, c, base, mem, blocks);
      CarveKeeps(h, c, base, mem);
    }
  }

  lemma TookSmallSafe(h: Heap, size: nat, align: nat, c: nat, full: Heap, p: Addr, h': Heap)
    requires Inv(h) && IsPow2(align) && ClassOf(size, align) == Some(c) && c < NUM_CLASSES
    requires Refilled(h, c, full) && Taken(full, c, p, h')
    ensures Inv(h') && DataKept(h, h'.mem, {}) && h'.live == h.live[p := c] && h'.large == h.large && p !in h.live
    ensures Clear(h, p, size) && Mapped(h', p, size) && Holds(h', p, size, align) && p % align == 0
  {
    hide Inv, Refilled, IsPow2, DataKept;
    RefilledSafe(h, c, full);
    PopInv(full, c);
    ClassFits(size, align);
    SmallClear(h, h', p, c, size, align);
  }

  lemma TookLargeSafe(h: Heap, size: nat, align: nat, p: Addr)
    requires Inv(h) && IsPow2(align) && ClassOf(size, align).None? && FreshRegion(h, p, RoundUp(size, GRAN))
    ensures var h' := h.(large := h.large[p := RoundUp(size, GRAN)]);
            && Inv(h') && p !in h.large && Clear(h, p, size) && Mapped(h', p, size) && Holds(h', p, size, align)
    ensures align <= MIN_MAP_ALIGN ==> p % align == 0
  {
    var len := RoundUp(size, GRAN);
    assert p !in h.large;
    hide Inv, FreshRegion, IsPow2;
    PageSizes();
    RoundUpIsLeast(size, GRAN);
    MapLargeInv(h, p, len);
    LargeClear(h, p, len, size, align);
  }

  /** Taking a block keeps the heap right and gives the client memory of its own. */
  lemma TookSafe(h: Heap, size: nat, align: nat, p: Addr, h': Heap)
    requires Inv(h) && Step(h, Took(size, align, p), h')
    ensures Inv(h') && DataKept(h, h'.mem, {})
    ensures p != 0 ==> Clear(h, p, size) && Mapped(h', p, size) && Holds(h', p, size, align)
    ensures p != 0 && align <= MIN_MAP_ALIGN ==> p % align == 0
    ensures forall q :: q in h.live ==> q in h'.live && h'.live[q] == h.live[q]
    ensures forall q :: q in h.large ==> q in h'.large && h'.large[q] == h.large[q]
  {
    assert |h.free| == |h.lists| == NUM_CLASSES;
    hide Inv, IsPow2, Refilled, Taken, Clear, Mapped, Holds, FreshRegion, DataKept, ClassOf, RoundUp;
    KeepsItself(h);
    if p != 0 {
      match ClassOf(size, align) {
        case Some(c) =>
          var full :| Refilled(h, c, full) && Taken(full, c, p, h');
          TookSmallSafe(h, size, align, c, full, p, h');
        case None =>
          TookLargeSafe(h, size, align, p);
      }
    }
  }

  /** Giving a block back keeps the heap right and touches nobody else's data. */
  lemma GaveSafe(h: Heap, p: Addr, size: nat, align: nat, h': Heap)
    requires Inv(h) && Step(h, Gave(p, size, align), h')
    ensures Inv(h') && h'.live == h.live - {p} && h'.large == h.large - {p}
    ensures DataKept(h.(large := h'.large), h'.mem, {p})
  {
    if p == 0 {
      NullNotHeld(h);
    } else {
      OneKind(h, p);
      match ClassOf(size, align) {
        case Some(c) =>
          PushInv(h, c, p);
          PushKeeps(h, c, p);
        case None =>
          UnmapLargeInv(h, p);
      }
    }
  }

  /** Last in, first out: the block given back is the next one of its class to be taken, and taking it
      undoes giving it back. */
  lemma Reused(h: Heap, p: Addr, size: nat, align: nat, h1: Heap, size2: nat, align2: nat, q: Addr, h2: Heap)
    requires Inv(h) && p != 0 && q != 0 && ClassOf(size, align).Some?
    requires ClassOf(size2, align2) == ClassOf(size, align)
    requires Step(h, Gave(p, size, align), h1) && Step(h1, Took(size2, align2, q), h2)
    ensures q == p && h2.free == h.free && h2.lists == h.lists && h2.live == h.live && h2.arenas == h.arenas
  {
    var c := ClassOf(size, align).value;
    var full :| Refilled(h1, c, full) && Taken(full, c, q, h2);
    hide ClassOf, Refilled, Inv;
    RefillsOnlyEmpty(h1, c, full);
    assert h1.lists[c][1..] == h.lists[c];
    assert h2.free == h.free && h2.lists == h.lists;
    assert h2.live == h.live;
  }

  lemma RefillsOnlyEmpty(h: Heap, c: nat, full: Heap)
    requires c < NUM_CLASSES && c < |h.free| && c < |h.lists| && Refilled(h, c, full) && h.lists[c] != []
    ensures full == h
  {
  }

  class Allocator {
    const free: array<Addr>
    var mem: map<Addr, nat>
    ghost var lists: seq<seq<Addr>>
    ghost var blocks: map<Addr, Block>
    ghost var live: map<Addr, nat>
    ghost var arenas: map<Addr, nat>
    ghost var large: map<Addr, nat>

    ghost function View(): Heap
      reads this, free
    {
      Heap(free[..], mem, lists, blocks, live, arenas, large)
    }

    ghost predicate Valid()
      reads this, free
    {
      Inv(View())
    }

    constructor ()
      ensures Valid() && fresh(free) && Init(View())
    {
      free := new Addr[NUM_CLASSES](_ => 0);
      mem := map[];
      lists := seq(NUM_CLASSES, _ => []);
      blocks, live, arenas, large := map[], map[], map[], map[];
      new;
      EmptyInv(View());
    }

    /** Carve a fresh arena into blocks and thread them onto the class's free list. `base` is
        what `map` returned, 0 for failure. */
    method Refill(idx: nat, base: Addr) returns (ok: bool)
      requires Valid() && idx < NUM_CLASSES && (base != 0 ==> FreshRegion(View(), base, ARENA))
      modifies this, free
      ensures Valid() && (ok <==> base != 0)
      ensures !ok ==> View() == old(View())
      ensures ok ==> CarvedInto(old(View()), idx, base, mem, blocks, View())
    {
      if base == 0 {
        return false;
      }
      ghost var h := View();
      ghost var carved;
      var words, next;
      words, next, carved := CarveArena(mem, free[idx], idx, base, h);
      CarveInv(h, idx, base, words, carved);
      hide Inv, FreshRegion, CarvedMem, CarvedBlocks;
      mem := words;
      free[idx] := next;
      assert free[..] == h.free[idx := next];
      lists := lists[idx := FreshList(idx, base) + lists[idx]];
      arenas, blocks := arenas[base := idx], carved;
      ok := true;
    }

    /** Pop a block of the class, refilling the list first if it is empty. `asked` is the length asked
        of `map`, 0 if it was not called. */
    method AllocSmall(idx: nat, base: Addr) returns (p: Addr, asked: nat, ghost full: Heap)
      requires Valid() && idx < NUM_CLASSES && (base != 0 ==> FreshRegion(View(), base, ARENA))
      modifies this, free
      ensures Valid() && (p == 0 <==> old(lists[idx]) == [] && base == 0)
      ensures asked == if old(lists[idx]) == [] then 0x10_0000 else 0
      ensures p == 0 ==> View() == old(View())
      ensures p != 0 ==> Refilled(old(View()), idx, full) && Taken(full, idx, p, View())
    {
      ghost var h := View();
      p, asked, full := 0, 0, h;
      HeadAndList(h, idx);
      hide CarvedInto;
      if free[idx] == 0 {
        asked := ARENA;
        var ok := Refill(idx, base);
        if !ok {
          return;
        }
        full := View();
        CarvedHead(h, idx, base, mem, blocks, full);
      }
      assert Refilled(h, idx, full);
      hide Inv, FreshRegion, Refilled;
      p := PopBlock(idx);
    }

    /** Take the head of a list that is not empty. */
    method PopBlock(idx: nat) returns (p: Addr)
      requires Valid() && idx < NUM_CLASSES && idx < free.Length && free[idx] != 0
      modifies this, free
      ensures Valid() && p != 0 && Taken(old(View()), idx, p, View())
    {
      ghost var full := View();
      HeadAndList(full, idx);
      PopInv(full, idx);
      hide Inv;
      p := free[idx];
      free[idx] := mem[p];
      assert free[..] == full.free[idx := mem[p]];
      lists := lists[idx := lists[idx][1..]];
      live := live[p := idx];
      assert View() == Pop(full, idx);
    }

    /** Push a block back: its first word becomes the next pointer. */
    method FreeSmall(idx: nat, p: Addr)
      requires Valid() && idx < NUM_CLASSES && p in live && live[p] == idx
      modifies this, free
      ensures Valid() && View() == Push(old(View()), idx, p)
    {
      ghost var h := View();
      PushInv(h, idx, p);
      hide Inv;
      mem := mem[p := free[idx]];
      free[idx] := p;
      assert free[..] == h.free[idx := p];
      lists := lists[idx := [p] + lists[idx]];
      live := live - {p};
      assert View() == Push(h, idx, p);
    }

    /** `GlobalAlloc::alloc`. A block that is returned overlaps nothing the client already has,
        lies in mapped memory, is aligned as asked up to a page, and disturbs no client data; null
        is returned only when mapping failed or the alignment is unsupported. The kernel is asked, for
        `asked` bytes, only for what no free block can serve. */
    method Alloc(size: nat, align: nat, base: Addr) returns (p: Addr, asked: nat)
      requires Valid() && IsPow2(align)
      requires base != 0 ==> FreshRegion(View(), base, MapLength(size, align))
      modifies this, free
      ensures Valid() && Step(old(View()), Took(size, align, p), View())
      ensures p != 0 ==> Clear(old(View()), p, size) && Mapped(View(), p, size) && Holds(View(), p, size, align)
      ensures p != 0 && align <= MIN_MAP_ALIGN ==> p % align == 0
      ensures p == 0 ==> View() == old(View())
      ensures p == 0 <==>
                match ClassOf(size, align)
                case Some(c) => base == 0 && old(lists)[c] == []
                case None => base == 0 || align > 16384
      ensures asked == match ClassOf(size, align)
                       case Some(c) => if old(lists)[c] == [] then 0x10_0000 else 0
                       case None => if align > 16384 then 0 else RoundUp(size, 16384)
      ensures p != 0 ==> if size <= 4096 && align <= 4096 then p in live else p in large && large[p] == asked
      ensures DataKept(old(View()), mem, {})
    {
      ghost var h := View();
      var idx := ClassFor(size, align);
      match idx {
        case Some(c) =>
          ghost var full;
          p, asked, full := AllocSmall(c, base);
        case None =>
          p, asked := 0, 0;
          if align <= GRAN {
            p, asked := base, RoundUp(size, GRAN);
          }
          if p != 0 {
            large := large[p := asked];
          }
      }
      TookSafe(h, size, align, p, View());
    }

    /** `GlobalAlloc::dealloc`, with the layout the block was allocated with. A large allocation is
        unmapped at the length it was mapped with; `unmapped` is 0 for a small one. */
    method Dealloc(p: Addr, size: nat, align: nat) returns (unmapped: nat)
      requires Valid() && (p != 0 ==> Holds(View(), p, size, align))
      modifies this, free
      ensures Valid() && Step(old(View()), Gave(p, size, align), View())
      ensures p == 0 ==> View() == old(View())
      ensures live == old(live) - {p} && large == old(large) - {p}
      ensures unmapped == if p in old(large) then old(large)[p] else 0
      ensures DataKept(old(View()).(large := large), mem, {p})
    {
      ghost var h := View();
      unmapped := 0;
      OneKind(h, p);
      NullNotHeld(h);
      if p != 0 {
        var idx := ClassFor(size, align);
        match idx {
          case Some(c) =>
            FreeSmall(c, p);
          case None =>
            unmapped := RoundUp(size, GRAN);
            large := large - {p};
        }
      }
      GaveSafe(h, p, size, align, View());
    }

    /** The client overwrites any word of its own. */
    method ClientWrite(a: Addr, v: nat)
      requires Valid() && Owned(View(), a)
      modifies this
      ensures Valid() && Step(old(View()), Wrote(a, v), View())
    {
      WriteInv(View(), a, v);
      mem := mem[a := v];
    }
  }

  /** How much memory a request would map. */
  ghost function MapLength(size: nat, align: nat): nat {
    if ClassOf(size, align).Some? then ARENA else RoundUp(size, GRAN)
  }

  /** `p` is an allocation for this layout. */
  ghost predicate Holds(h: Heap, p: Addr, size: nat, align: nat) {
    match ClassOf(size, align)
    case Some(c) => p in h.live && h.live[p] == c
    case None => p in h.large && h.large[p] == RoundUp(size, GRAN)
  }

  /** The range overlaps no allocation. */
  ghost predicate Clear(h: Heap, p: Addr, size: nat) {
    && (forall q :: q in h.live ==> Apart(p, size, q, ClassSize(h.live[q])))
    && (forall l :: l in h.large ==> Apart(p, size, l, h.large[l]))
  }

  ghost predicate Mapped(h: Heap, p: Addr, size: nat) {
    || (exists b :: b in h.arenas && b <= p && p + size <= b + ARENA)
    || (p in h.large && size <= h.large[p])
  }

  lemma PageSizes()
    ensures IsPow2(GRAN) && IsPow2(MIN_MAP_ALIGN)
    ensures forall c :: 0 <= c < NUM_CLASSES ==> IsPow2(ClassSize(c))
  {
    ClassSizes();
    assert IsPow2(16) && IsPow2(32) && IsPow2(64) && IsPow2(128) && IsPow2(256);
    assert IsPow2(512) && IsPow2(1024) && IsPow2(2048) && IsPow2(4096);
    assert IsPow2(8192) && IsPow2(16384);
  }

  lemma SmallClear(h: Heap, h': Heap, p: Addr, c: nat, size: nat, align: nat)
    requires Inv(h) && Inv(h') && c < NUM_CLASSES && p !in h.live && h'.live == h.live[p := c] && h'.large == h.large
    requires p in h'.blocks && h'.blocks[p].idx == c && IsPow2(align)
    requires size <= ClassSize(c) && align <= ClassSize(c)
    ensures Clear(h, p, size) && Mapped(h', p, size) && p % align == 0
  {
    BlockPlace(h', p);
    forall q | q in h.live
      ensures Apart(p, size, q, ClassSize(h.live[q]))
    {
      assert q in h'.live;
      BlocksApart(h', p, q);
    }
    var b := h'.blocks[p].base;
    assert b in h'.arenas;
    PageSizes();
    Pow2Divides(align, ClassSize(c));
    DividesTrans(p, ClassSize(c), align);
  }

  lemma LargeClear(h: Heap, p: Addr, len: nat, size: nat, align: nat)
    requires Inv(h) && FreshRegion(h, p, len) && size <= len && IsPow2(align)
    ensures Clear(h, p, size)
    ensures align <= MIN_MAP_ALIGN ==> p % align == 0
  {
    forall q | q in h.live
      ensures Apart(p, size, q, ClassSize(h.live[q]))
    {
      BlockPlace(h, q);
      assert Apart(h.blocks[q].base, ARENA, p, len);
    }
    if align <= MIN_MAP_ALIGN {
      PageSizes();
      Pow2Divides(align, MIN_MAP_ALIGN);
      DividesTrans(p, MIN_MAP_ALIGN, align);
    }
  }

  /** An address is never both a small block and a large allocation, and null is neither. */
  lemma OneKind(h: Heap, p: Addr)
    requires Inv(h)
    ensures !(p in h.live && p in h.large)
    ensures p in h.live ==> h.large - {p} == h.large
    ensures p in h.large ==> h.live - {p} == h.live
  {
    if p in h.live {
      BlockPlace(h, p);
      assert p in h.large ==> Apart(p, ClassSize(h.blocks[p].idx), p, h.large[p]);
    }
    assert RegionsOk(h);
    hide Inv, BlocksOk;
  }

  lemma NullNotHeld(h: Heap)
    requires Inv(h)
    ensures 0 !in h.large && h.live - {0} == h.live && h.large - {0} == h.large
  {
    if 0 in h.live { BlockPlace(h, 0); }
  }

  /** Every word in the client's hands, except in the blocks just given back, is unchanged. */
  ghost predicate DataKept(h: Heap, mem: map<Addr, nat>, given: set<Addr>) {
    forall a :: a in h.mem && Owned(h.(live := h.live - given), a) ==> a in mem && mem[a] == h.mem[a]
  }

  lemma KeepsItself(h: Heap)
    ensures DataKept(h, h.mem, {})
  {
  }

  /** The head is null exactly when the list is empty. */
  lemma HeadAndList(h: Heap, c: nat)
    requires Inv(h) && c < NUM_CLASSES
    ensures h.free[c] == 0 <==> h.lists[c] == []
  {
    assert ListOk(h, c);
    if h.lists[c] != [] { LinkAt(h.mem, h.free[c], h.lists[c], 0); }
  }

  lemma CarvedHead(h: Heap, c: nat, base: Addr, mem: map<Addr, nat>, blocks: map<Addr, Block>, full: Heap)
    requires Inv(h) && c < NUM_CLASSES && CarvedInto(h, c, base, mem, blocks, full)
    ensures full.free[c] != 0
  {
    assert BlockAt(base, 0, c) == base;
  }

  lemma CarveKeeps(h: Heap, c: nat, base: Addr, mem: map<Addr, nat>)
    requires Inv(h) && c < NUM_CLASSES && FreshRegion(h, base, ARENA) && CarvedMem(h, c, base, 0, mem)
    ensures DataKept(h, mem, {})
  {
    assert h.live - {} == h.live;
    forall a | a in h.mem && Owned(h, a)
      ensures !(base <= a < base + ARENA)
    {
      if p :| p in h.live && p <= a < p + ClassSize(h.live[p]) {
        BlockPlace(h, p);
        assert Apart(h.blocks[p].base, ARENA, base, ARENA);
      }
    }
  }

  lemma PushKeeps(h: Heap, c: nat, p: Addr)
    requires Inv(h) && c < NUM_CLASSES && p in h.live && h.live[p] == c
    ensures DataKept(h, Push(h, c, p).mem, {p})
  {
    var h' := h.(live := h.live - {p});
    BlockPlace(h, p);
    forall a | a in h.mem && Owned(h', a)
      ensures a != p
    {
      if q :| q in h'.live && q <= a < q + ClassSize(h'.live[q]) {
        BlocksApart(h, p, q);
      }
    }
  }

  /** The carving loop: from the last block down, each block's first word gets the address of
      the block after it, and the last one the old head. */
  method CarveArena(mem: map<Addr, nat>, head: Addr, idx: nat, base: Addr, ghost h: Heap)
    returns (words: map<Addr, nat>, next: Addr, ghost carved: map<Addr, Block>)
    requires Inv(h) && idx < NUM_CLASSES && FreshRegion(h, base, ARENA) && mem == h.mem && head == h.free[idx]
    ensures CarvedMem(h, idx, base, 0, words) && CarvedBlocks(h, idx, base, 0, carved) && next == BlockAt(base, 0, idx)
  {
    ClassSizes();
    CarveNone(h, idx, base);
    hide Inv, FreshRegion, CarvedMem, CarvedBlocks;
    var block := ClassSize(idx);
    var count := ARENA / block;
    words, carved, next := mem, h.blocks, head;
    var i := count;
    while i > 0
      invariant 0 <= i <= count == Blocks(idx)
      invariant next == if i < count then BlockAt(base, i, idx) else head
      invariant CarvedMem(h, idx, base, i, words) && CarvedBlocks(h, idx, base, i, carved)
    {
      i := i - 1;
      var blk := base + i * block;
      CarveOneWord(h, idx, base, i, words);
      CarveOneBlock(h, idx, base, i, carved);
      words := words[blk := next];
      carved := carved[blk := Block(base, i, idx)];
      next := blk;
    }
  }

  lemma EmptyInv(h: Heap)
    requires Init(h)
    ensures Inv(h)
  {
    assert forall c :: LiveOf(h, c) == {} && ArenasOf(h, c) == {};
  }

  lemma CarveNone(h: Heap, c: nat, base: Addr)
    requires c < NUM_CLASSES && c < |h.free|
    ensures CarvedMem(h, c, base, Blocks(c), h.mem) && CarvedBlocks(h, c, base, Blocks(c), h.blocks)
  {
  }

  lemma CarvedAt(h: Heap, c: nat, base: Addr, from: nat, mem: map<Addr, nat>, j: nat)
    requires c < NUM_CLASSES && c < |h.free| && CarvedMem(h, c, base, from, mem) && from <= j < Blocks(c)
    ensures BlockAt(base, j, c) in mem && mem[BlockAt(base, j, c)] == NextAfter(h, c, base, j)
  {
    assert NextAfter(h, c, base, j) >= 0;
  }

  lemma CarveOneWord(h: Heap, c: nat, base: Addr, i: nat, mem: map<Addr, nat>)
    requires c < NUM_CLASSES && c < |h.free| && i < Blocks(c) && CarvedMem(h, c, base, i + 1, mem)
    ensures CarvedMem(h, c, base, i, mem[BlockAt(base, i, c) := NextAfter(h, c, base, i)])
  {
    var p := BlockAt(base, i, c);
    var mem' := mem[p := NextAfter(h, c, base, i)];
    Tiling(base, i, i, c);
    forall j | i <= j < Blocks(c)
      ensures BlockAt(base, j, c) in mem' && mem'[BlockAt(base, j, c)] == NextAfter(h, c, base, j)
    {
      if j > i {
        Tiling(base, i, j, c);
        CarvedAt(h, c, base, i + 1, mem, j);
      }
    }
  }

  lemma CarveOneBlock(h: Heap, c: nat, base: Addr, i: nat, blocks: map<Addr, Block>)
    requires Inv(h) && c < NUM_CLASSES && i < Blocks(c) && FreshRegion(h, base, ARENA)
    requires CarvedBlocks(h, c, base, i + 1, blocks)
    ensures CarvedBlocks(h, c, base, i, blocks[BlockAt(base, i, c) := Block(base, i, c)])
  {
    var p := BlockAt(base, i, c);
    Tiling(base, i, i, c);
    if p in h.blocks { OldBlockOutside(h, base, p); }
    hide Inv, FreshRegion;
    forall j | i < j < Blocks(c)
      ensures BlockAt(base, j, c) != p
    {
      Tiling(base, i, j, c);
    }
  }
}
