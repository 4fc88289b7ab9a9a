/** Whole runs of the allocator: any mix of allocations, deallocations and client writes, from
    the empty allocator. The class's methods take exactly the steps these runs are made of. */
module AllocatorRuns {
  import opened AllocatorHeap
  import opened Allocators
  import opened Arithmetic
  import opened Bits

  ghost predicate StepAt(trace: seq<Heap>, events: seq<Event>, i: nat)
    requires |trace| == |events| + 1 && i < |events|
  {
    |trace[i].free| == |trace[i].lists| == NUM_CLASSES && Step(trace[i], events[i], trace[i + 1])
  }

  /** `events` leads through the states of `trace`, starting from the empty allocator. */
  ghost predicate Run(trace: seq<Heap>, events: seq<Event>) {
    && |trace| == |events| + 1 && Init(trace[0])
    && forall i :: 0 <= i < |events| ==> StepAt(trace, events, i)
  }

  lemma InvStep(h: Heap, e: Event, h': Heap)
    requires Inv(h) && Step(h, e, h')
    ensures Inv(h')
  {
    match e {
      case Took(size, align, p) => TookSafe(h, size, align, p, h');
      case Gave(p, size, align) => GaveSafe(h, p, size, align, h');
      case Wrote(a, v) => WriteInv(h, a, v);
    }
  }

  lemma {:induction false} InvRun(trace: seq<Heap>, events: seq<Event>, n: nat)
    requires Run(trace, events) && n < |trace|
    ensures Inv(trace[n])
  {
    hide Inv, Step, Init;
    if n == 0 {
      EmptyInv(trace[0]);
    } else {
      InvRun(trace, events, n - 1);
      assert StepAt(trace, events, n - 1);
      InvStep(trace[n - 1], events[n - 1], trace[n]);
    }
  }

  /** The allocator claim over whole runs: at every moment the free lists are intact, acyclic
      and disjoint from what is live, and each class's arenas are exactly its free and its live
      blocks; and every block handed out was clear of all others, mapped, and aligned. */
  lemma {:induction false} Safety(trace: seq<Heap>, events: seq<Event>, i: nat)
    requires Run(trace, events) && i < |trace|
    ensures Inv(trace[i])
    ensures forall c :: 0 <= c < NUM_CLASSES ==>
              |trace[i].lists[c]| + |LiveOf(trace[i], c)| == |ArenasOf(trace[i], c)| * (ARENA / ClassSize(c))
    ensures i < |events| && events[i].Took? && events[i].p != 0 ==>
              var e := events[i];
              && Clear(trace[i], e.p, e.size) && Mapped(trace[i + 1], e.p, e.size)
              && (0 < e.align <= MIN_MAP_ALIGN ==> e.p % e.align == 0)
  {
    InvRun(trace, events, i);
    forall c | 0 <= c < NUM_CLASSES
      ensures |trace[i].lists[c]| + |LiveOf(trace[i], c)| == |ArenasOf(trace[i], c)| * (ARENA / ClassSize(c))
    {
      assert Conserved(trace[i], c);
    }
    hide Inv;
    if i < |events| && events[i].Took? {
      assert StepAt(trace, events, i);
      TookSafe(trace[i], events[i].size, events[i].align, events[i].p, trace[i + 1]);
    }
  }

  /** The word at `a` lies in the client's allocation at `q`. */
  ghost predicate Within(h: Heap, q: Addr, a: Addr) {
    || (q in h.live && q <= a < q + ClassSize(h.live[q]))
    || (q in h.large && q <= a < q + h.large[q])
  }

  predicate Disturbs(e: Event, q: Addr, a: Addr) {
    (e.Gave? && e.p == q) || (e.Wrote? && e.a == a)
  }

  lemma KeptWord(h: Heap, mem: map<Addr, nat>, given: set<Addr>, q: Addr, a: Addr)
    requires DataKept(h, mem, given) && Within(h.(live := h.live - given), q, a) && a in h.mem
    ensures a in mem && mem[a] == h.mem[a]
  {
    assert Owned(h.(live := h.live - given), a);
  }

  lemma WriteKeeps(h: Heap, b: Addr, v: nat, h': Heap, q: Addr, a: Addr)
    requires Inv(h) && Step(h, Wrote(b, v), h') && Within(h, q, a) && a in h.mem && a != b
    ensures Within(h', q, a) && a in h'.mem && h'.mem[a] == h.mem[a]
  {
  }

  lemma SurvivesStep(h: Heap, e: Event, h': Heap, q: Addr, a: Addr)
    requires Inv(h) && Step(h, e, h') && Within(h, q, a) && a in h.mem && !Disturbs(e, q, a)
    ensures Within(h', q, a) && a in h'.mem && h'.mem[a] == h.mem[a]
  {
    hide Inv, Step, DataKept, Clear, Mapped, Holds;
    match e {
      case Took(size, align, p) =>
        TookSafe(h, size, align, p, h');
        assert h.live - {} == h.live;
        KeptWord(h, h'.mem, {}, q, a);
      case Gave(p, size, align) =>
        GaveSafe(h, p, size, align, h');
        KeptWord(h.(large := h'.large), h'.mem, {p}, q, a);
      case Wrote(b, v) =>
        WriteKeeps(h, b, v, h', q, a);
    }
  }

  /** What the client stored stays: over any stretch of any run in which the client neither gives
      the block back nor writes that word again, the block stays the client's and the word keeps
      its value. */
  lemma {:induction false} DataSurvives(trace: seq<Heap>, events: seq<Event>, from: nat, until: nat, q: Addr, a: Addr)
    requires Run(trace, events) && from <= until < |trace|
    requires Within(trace[from], q, a) && a in trace[from].mem
    requires forall i :: from <= i < until ==> !Disturbs(events[i], q, a)
    ensures Within(trace[until], q, a) && a in trace[until].mem && trace[until].mem[a] == trace[from].mem[a]
    decreases until
  {
    hide Inv, Step, Within, Disturbs;
    if from < until {
      DataSurvives(trace, events, from, until - 1, q, a);
      InvRun(trace, events, until - 1);
      assert StepAt(trace, events, until - 1);
      SurvivesStep(trace[until - 1], events[until - 1], trace[until], q, a);
    }
  }

  // ---- alignment ----

  /** Step `i` of the run hands out a block for this layout. */
  ghost predicate HandsOut(trace: seq<Heap>, events: seq<Event>, i: nat, size: nat, align: nat) {
    && Run(trace, events) && i < |events|
    && events[i].Took? && events[i].size == size && events[i].align == align && events[i].p != 0
  }

  ghost predicate AlwaysAligned(size: nat, align: nat)
    requires align > 0
  {
    forall trace, events: seq<Event>, i: nat :: HandsOut(trace, events, i, size, align) ==> events[i].p % align == 0
  }

  /** Which layouts are aligned in every run: those of at most a page's alignment, and those for
      which no block is ever handed out, because the alignment is refused or nothing is mapped. */
  lemma {:induction false} AlignmentIsExact(size: nat, align: nat)
    requires IsPow2(align)
    ensures AlwaysAligned(size, align) <==> align <= MIN_MAP_ALIGN || align > GRAN || size == 0
  {
    assert align > 0;
    hide IsPow2;
    if align <= MIN_MAP_ALIGN {
      forall trace, events: seq<Event>, i: nat | HandsOut(trace, events, i, size, align)
        ensures events[i].p % align == 0
      {
        Safety(trace, events, i);
      }
    } else if align > GRAN || size == 0 {
      forall trace, events: seq<Event>, i: nat
        ensures !HandsOut(trace, events, i, size, align)
      {
        if HandsOut(trace, events, i, size, align) {
          NeverHandedOut(trace, events, i, size, align);
        }
      }
    } else {
      var trace, events := Misaligned(size, align);
      assert HandsOut(trace, events, 0, size, align);
    }
  }

  lemma LargeOnly(size: nat, align: nat)
    requires align > MIN_MAP_ALIGN
    ensures ClassOf(size, align).None?
  {
  }

  lemma NeverHandedOut(trace: seq<Heap>, events: seq<Event>, i: nat, size: nat, align: nat)
    requires Run(trace, events) && i < |events| && events[i].Took? && events[i].size == size && events[i].align == align
    requires align > GRAN || (align > MIN_MAP_ALIGN && size == 0)
    ensures events[i].p == 0
  {
    LargeOnly(size, align);
    assert StepAt(trace, events, i);
    NothingToMap();
  }

  lemma NothingToMap()
    ensures RoundUp(0, GRAN) == 0
  {
    hide RoundUp, IsPow2;
    PageSizes();
    RoundUpIsLeast(0, GRAN);
  }

  /** A page a process can be given, that no larger power of two divides. */
  const PAGE: Addr := 0x7f00_0000_1000

  lemma PageIsOnlyAPage(align: nat)
    requires IsPow2(align) && MIN_MAP_ALIGN < align <= GRAN
    ensures PAGE % MIN_MAP_ALIGN == 0 && PAGE % align != 0
  {
    var below := PAGE - MIN_MAP_ALIGN;
    assert below % GRAN == 0;
    assert IsPow2(GRAN) by { PageSizes(); }
    hide IsPow2;
    Pow2Divides(align, GRAN);
    DividesTrans(below, GRAN, align);
    DivMod(below / align, MIN_MAP_ALIGN, align);
  }

  /** From the empty allocator, one large request that the kernel answers with such a page. */
  lemma Misaligned(size: nat, align: nat) returns (trace: seq<Heap>, events: seq<Event>)
    requires IsPow2(align) && MIN_MAP_ALIGN < align <= GRAN && size > 0
    ensures HandsOut(trace, events, 0, size, align) && events[0].p % align != 0
  {
    hide IsPow2, RoundUp;
    var empty := Heap(seq(NUM_CLASSES, _ => 0), map[], seq(NUM_CLASSES, _ => []), map[], map[], map[], map[]);
    LargeOnly(size, align);
    PageSizes();
    RoundUpIsLeast(size, GRAN);
    PageIsOnlyAPage(align);
    events := [Took(size, align, PAGE)];
    trace := [empty, empty.(large := map[PAGE := RoundUp(size, GRAN)])];
    assert StepAt(trace, events, 0);
  }
}
