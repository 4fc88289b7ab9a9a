/** `thread::scope`: a parent that runs its body, then waits for every thread spawned in the
    scope, including those spawned by other scoped threads. */
module ScopedThreads {
  import opened Threads

  datatype ParentPc =
    | InBody
    | LoadRunning
    | WaitLoad          // in futex_wait(&wake, 0)
    | WaitCall
    | Asleep
    | ResetWake
    | Returned

  datatype ChildPc =
    | Unborn
    | Counted           // `running` incremented, thread not started yet
    | Running
    | SlotWritten       // closure done and its result stored
    | StoreOwed         // was the last one: about to store 1 to `wake`
    | WakeOwed          // about to call futex_wake
    | Done

  datatype State = State(running: nat, wake: nat, parent: ParentPc, pc: map<Tid, ChildPc>)

  datatype Event =
    | SpawnByParent(c: Tid)
    | SpawnByChild(parent: Tid, c: Tid)
    | FinishBody
    | ParentStep
    | Spurious
    | ChildStep(c: Tid)

  predicate Enabled(s: State, e: Event) {
    match e
    case SpawnByParent(c) => s.parent.InBody? && c in s.pc && s.pc[c].Unborn?
    case SpawnByChild(p, c) => p in s.pc && s.pc[p].Running? && c in s.pc && s.pc[c].Unborn?
    case FinishBody => s.parent.InBody?
    case ParentStep => !s.parent.InBody? && !s.parent.Asleep? && !s.parent.Returned?
    case Spurious => s.parent.Asleep?
    case ChildStep(c) => c in s.pc && !s.pc[c].Unborn? && !s.pc[c].Done?
  }

  function Apply(s: State, e: Event): State
    requires Enabled(s, e)
  {
    match e
    case SpawnByParent(c) => s.(running := s.running + 1, pc := s.pc[c := Counted])
    case SpawnByChild(_, c) => s.(running := s.running + 1, pc := s.pc[c := Counted])
    case FinishBody => s.(parent := LoadRunning)
    case Spurious => s.(parent := WaitLoad)
    case ParentStep => (
      match s.parent
      case LoadRunning => s.(parent := if s.running == 0 then Returned else WaitLoad)
      case WaitLoad => s.(parent := if s.wake == 0 then WaitCall else ResetWake)
      case WaitCall => s.(parent := if s.wake == 0 then Asleep else WaitLoad)
      case _ => s.(wake := 0, parent := LoadRunning))
    case ChildStep(c) =>
      match s.pc[c]
      case Counted => s.(pc := s.pc[c := Running])
      case Running => s.(pc := s.pc[c := SlotWritten])
      case SlotWritten =>
        s.(running := if s.running > 0 then s.running - 1 else 0,
           pc := s.pc[c := if s.running == 1 then StoreOwed else Done])
      case StoreOwed => s.(wake := 1, pc := s.pc[c := WakeOwed])
      case _ =>
        s.(parent := if s.parent.Asleep? then WaitLoad else s.parent, pc := s.pc[c := Done])
  }

  ghost predicate Init(s: State) {
    s.running == 0 && s.wake == 0 && s.parent.InBody? && forall c :: c in s.pc ==> s.pc[c] == Unborn
  }

  predicate Legal(s: State, run: seq<Event>)
    decreases |run|
  {
    run == [] || (Enabled(s, run[0]) && Legal(Apply(s, run[0]), run[1..]))
  }

  function Final(s: State, run: seq<Event>): State
    requires Legal(s, run)
    decreases |run|
  {
    if run == [] then s else Final(Apply(s, run[0]), run[1..])
  }

  // ---- what every step keeps ----

  /** Spawned, but not yet counted off. */
  predicate Live(p: ChildPc) {
    p.Counted? || p.Running? || p.SlotWritten?
  }

  ghost function LiveSet(s: State): set<Tid> {
    set c | c in s.pc && Live(s.pc[c])
  }

  predicate Waiting(p: ParentPc) {
    p.WaitLoad? || p.WaitCall? || p.Asleep?
  }

  ghost predicate StoreComing(s: State) {
    exists c :: c in s.pc && s.pc[c].StoreOwed?
  }

  ghost predicate WakeComing(s: State) {
    exists c :: c in s.pc && s.pc[c].WakeOwed?
  }

  ghost predicate WakeInv(s: State) {
    && s.wake <= 1
    && (Waiting(s.parent) && s.running == 0 ==> s.wake == 1 || StoreComing(s))
    && (s.parent.Asleep? && s.wake == 1 ==> WakeComing(s))
    && (s.parent.Returned? ==> s.running == 0)
  }

  ghost predicate Inv(s: State) {
    s.running == |LiveSet(s)| && WakeInv(s)
  }

  /** Which children a step makes live or counts off. */
  lemma LiveStep(s: State, e: Event)
    requires Enabled(s, e)
    ensures LiveSet(Apply(s, e)) ==
            if e.SpawnByParent? || e.SpawnByChild? then LiveSet(s) + {e.c}
            else if e.ChildStep? && s.pc[e.c].SlotWritten? then LiveSet(s) - {e.c}
            else LiveSet(s)
  {
    var s' := Apply(s, e);
    assert s'.pc.Keys == s.pc.Keys;
    if e.ChildStep? {
      assert Live(s'.pc[e.c]) <==> s.pc[e.c].Counted? || s.pc[e.c].Running?;
      assert forall c :: c in s.pc && c != e.c ==> s'.pc[c] == s.pc[c];
    }
  }

  lemma CountStep(s: State, e: Event)
    requires s.running == |LiveSet(s)| && Enabled(s, e)
    ensures Apply(s, e).running == |LiveSet(Apply(s, e))|
  {
    LiveStep(s, e);
    assert e.ChildStep? && s.pc[e.c].SlotWritten? ==> e.c in LiveSet(s);
    assert e.SpawnByParent? || e.SpawnByChild? ==> e.c !in LiveSet(s);
  }

  lemma WakeStep(s: State, e: Event)
    requires Inv(s) && Enabled(s, e)
    ensures WakeInv(Apply(s, e))
  {
    var s' := Apply(s, e);
    assert e.SpawnByChild? ==> e.parent in LiveSet(s);
    assert e.ChildStep? && s.pc[e.c].SlotWritten? ==> e.c in LiveSet(s);
    if e.ChildStep? {
      assert s'.pc[e.c] != s.pc[e.c];
    }
    if c :| c in s.pc && s.pc[c].StoreOwed? {
      assert s'.pc[c].StoreOwed? || s'.wake == 1;
    }
    if c :| c in s.pc && s.pc[c].WakeOwed? {
      assert s'.pc[c].WakeOwed? || !s'.parent.Asleep?;
    }
  }

  lemma {:induction false} InvRun(s: State, run: seq<Event>)
    requires Inv(s) && Legal(s, run)
    ensures Inv(Final(s, run))
    decreases |run|
  {
    if run != [] {
      CountStep(s, run[0]);
      WakeStep(s, run[0]);
      InvRun(Apply(s, run[0]), run[1..]);
    }
  }

  lemma {:induction false} InitInv(s: State)
    requires Init(s)
    ensures Inv(s)
  {
    assert LiveSet(s) == {};
  }

  /** The scope claim over whole runs: `scope` has returned only if every spawned closure has
      finished and stored its result, and a parent asleep with nothing running is owed a store
      or a wake. */
  lemma {:induction false} Safety(s: State, run: seq<Event>)
    requires Init(s) && Legal(s, run)
    ensures var f := Final(s, run);
            && (f.parent.Returned? ==> forall c :: c in f.pc ==> !Live(f.pc[c]))
            && (f.parent.Asleep? && f.running == 0 ==> StoreComing(f) || WakeComing(f))
  {
    InitInv(s);
    InvRun(s, run);
    var f := Final(s, run);
    if f.parent.Returned? {
      assert LiveSet(f) == {};
      assert forall c :: c in f.pc && Live(f.pc[c]) ==> c in LiveSet(f);
    }
  }

  // ---- what becomes of the closures ----

  /** The children spawned in a run, in order. */
  function Spawned(s: State, run: seq<Event>): seq<Tid>
    requires Legal(s, run)
    decreases |run|
  {
    if run == [] then []
    else
      (if run[0].SpawnByParent? || run[0].SpawnByChild? then [run[0].c] else [])
      + Spawned(Apply(s, run[0]), run[1..])
  }

  /** The children whose closure ran to its end in a run and left its result, in order. */
  function Ran(s: State, run: seq<Event>): seq<Tid>
    requires Legal(s, run)
    decreases |run|
  {
    if run == [] then []
    else
      (if run[0].ChildStep? && s.pc[run[0].c].Running? && Apply(s, run[0]).pc[run[0].c].SlotWritten? then [run[0].c]
       else [])
      + Ran(Apply(s, run[0]), run[1..])
  }

  /** The closure is still to run. */
  predicate ToRun(p: ChildPc) {
    p.Counted? || p.Running?
  }

  ghost predicate Finished(p: ChildPc) {
    p.SlotWritten? || p.StoreOwed? || p.WakeOwed? || p.Done?
  }

  /** What the rest of a run does to one child: nothing before it is spawned, then its closure once. */
  lemma {:induction false} ChildRun(s: State, run: seq<Event>, c: Tid)
    requires Legal(s, run) && c in s.pc
    ensures var f, spawned, ran := Final(s, run), multiset(Spawned(s, run))[c], multiset(Ran(s, run))[c];
            && c in f.pc
            && spawned == (if s.pc[c].Unborn? && !f.pc[c].Unborn? then 1 else 0)
            && ran == (if !Finished(s.pc[c]) && Finished(f.pc[c]) then 1 else 0)
            && (Finished(s.pc[c]) ==> Finished(f.pc[c])) && (!s.pc[c].Unborn? ==> !f.pc[c].Unborn?)
    decreases |run|
  {
    if run != [] {
      var e := run[0];
      var s' := Apply(s, e);
      ChildMove(s, e, c);
      hide Apply, Enabled;
      ChildRun(s', run[1..], c);
    }
  }

  predicate Spawns(e: Event, c: Tid) {
    (e.SpawnByParent? || e.SpawnByChild?) && e.c == c
  }

  lemma ChildMove(s: State, e: Event, c: Tid)
    requires Enabled(s, e) && c in s.pc
    ensures var s' := Apply(s, e);
            && c in s'.pc && s'.pc.Keys == s.pc.Keys
            && (s.pc[c].Unborn? ==> s'.pc[c].Unborn? || (s'.pc[c].Counted? && Spawns(e, c)))
            && (Spawns(e, c) ==> s.pc[c].Unborn? && s'.pc[c].Counted?)
            && (ToRun(s.pc[c]) ==> ToRun(s'.pc[c]) || (s'.pc[c].SlotWritten? && s.pc[c].Running? && e == ChildStep(c)))
            && (Finished(s.pc[c]) ==> Finished(s'.pc[c]))
  {
  }

  /** Every closure spawned in the scope ran exactly once, and left its result, before `scope` returned,
      and nothing else ran. */
  lemma {:induction false} EachClosureRunsOnce(s: State, run: seq<Event>)
    requires Init(s) && Legal(s, run)
    ensures forall c :: multiset(Ran(s, run))[c] <= multiset(Spawned(s, run))[c] <= 1
    ensures Final(s, run).parent.Returned? ==> multiset(Ran(s, run)) == multiset(Spawned(s, run))
  {
    hide Legal, Final, Spawned, Ran, Init, Apply, Enabled;
    forall c
      ensures multiset(Ran(s, run))[c] <= multiset(Spawned(s, run))[c] <= 1
      ensures Final(s, run).parent.Returned? ==> multiset(Ran(s, run))[c] == multiset(Spawned(s, run))[c]
    {
      ClosureRunsOnce(s, run, c);
    }
  }

  lemma ClosureRunsOnce(s: State, run: seq<Event>, c: Tid)
    requires Init(s) && Legal(s, run)
    ensures multiset(Ran(s, run))[c] <= multiset(Spawned(s, run))[c] <= 1
    ensures Final(s, run).parent.Returned? ==> multiset(Ran(s, run))[c] == multiset(Spawned(s, run))[c]
  {
    hide Legal, Final, Spawned, Ran, Apply, Enabled;
    Safety(s, run);
    if c in s.pc {
      ChildRun(s, run, c);
    } else {
      NoSuchChild(s, run, c);
    }
  }

  lemma {:induction false} NoSuchChild(s: State, run: seq<Event>, c: Tid)
    requires Legal(s, run) && c !in s.pc
    ensures multiset(Spawned(s, run))[c] == 0 && multiset(Ran(s, run))[c] == 0
    decreases |run|
  {
    if run != [] {
      NoSuchChild(Apply(s, run[0]), run[1..], c);
    }
  }

  /** The last child to be counted off, and no other, stores 1 and wakes the parent. */
  lemma OnlyTheLastWakes(s: State, c: Tid)
    requires Inv(s) && Enabled(s, ChildStep(c)) && s.pc[c].SlotWritten?
    ensures c in Apply(s, ChildStep(c)).pc
    ensures Apply(s, ChildStep(c)).pc[c].StoreOwed? <==> LiveSet(s) == {c}
    ensures Apply(s, ChildStep(c)).pc[c].Done? <==> LiveSet(s) != {c}
  {
    assert c in LiveSet(s);
    assert LiveSet(s) != {c} ==> |LiveSet(s) - {c}| > 0 by {
      if LiveSet(s) - {c} == {} { assert LiveSet(s) == {c}; }
    }
  }

  /** The parent leaves `futex_wait` only when `wake` is 1, and `scope` returns only if nothing runs. */
  lemma ParentStepLaw(s: State, e: Event)
    requires Inv(s) && Enabled(s, e)
    ensures var p, p' := s.parent, Apply(s, e).parent;
            && (Waiting(p) ==> Waiting(p') || (p' == ResetWake && s.wake == 1))
            && (p.InBody? ==> p'.InBody? || (e.FinishBody? && p' == LoadRunning))
            && (p.LoadRunning? && e.ParentStep? ==>
                  if LiveSet(s) == {} then p'.Returned? else Waiting(p'))
            && (p'.Returned? ==> p.Returned? || p.LoadRunning?)
  {
    assert |LiveSet(s)| == 0 <==> LiveSet(s) == {};
  }

  /** Nobody is ever kept from a step: the body and every closure that runs, and nobody else, can spawn,
      a thread that is there can go on, and a sleeping parent can return from the kernel on its own. */
  lemma NothingBlocks(s: State, p: Tid, c: Tid)
    requires p in s.pc && c in s.pc && s.pc[c].Unborn?
    ensures Enabled(s, SpawnByParent(c)) <==> s.parent.InBody?
    ensures Enabled(s, SpawnByChild(p, c)) <==> s.pc[p] == Running
    ensures !s.pc[p].Unborn? && !s.pc[p].Done? ==> Enabled(s, ChildStep(p))
    ensures s.parent.InBody? ==> Enabled(s, FinishBody)
    ensures s.parent.Asleep? ==> Enabled(s, Spurious)
    ensures !s.parent.Returned? ==> Enabled(s, FinishBody) || Enabled(s, ParentStep) || Enabled(s, Spurious)
  {
  }

  // ---- `scope` can always return ----

  function ParentWeight(p: ParentPc): nat {
    match p
    case InBody => 6
    case Asleep => 5
    case WaitCall => 4
    case WaitLoad => 3
    case ResetWake => 2
    case LoadRunning => 1
    case Returned => 0
  }

  function ChildWeight(p: ChildPc): nat {
    match p
    case Counted => 5
    case Running => 4
    case SlotWritten => 3
    case StoreOwed => 2
    case WakeOwed => 1
    case Unborn => 0
    case Done => 0
  }

  ghost function Left(s: State): nat {
    ParentWeight(s.parent) + Total(s.pc, ChildWeight)
  }

  predicate SpawnOrSpurious(e: Event) {
    e.SpawnByParent? || e.SpawnByChild? || e.Spurious?
  }

  lemma Progress(s: State) returns (e: Event)
    requires Inv(s) && !s.parent.Returned?
    ensures Enabled(s, e) && !SpawnOrSpurious(e)
    ensures Left(Apply(s, e)) < Left(s)
  {
    if c :| c in s.pc && !s.pc[c].Unborn? && !s.pc[c].Done? {
      e := ChildStep(c);
      var s' := Apply(s, e);
      TotalUpdate(s.pc, c, s'.pc[c], ChildWeight);
    } else {
      assert LiveSet(s) == {};
      assert !StoreComing(s) && !WakeComing(s);
      e := if s.parent.InBody? then FinishBody else ParentStep;
    }
  }

  /** From every reachable state, once no more threads are spawned, the threads already there
      can run to their end and `scope` returns, within five steps per thread and six more. */
  lemma {:induction false} CanReturn(s: State) returns (run: seq<Event>)
    requires Inv(s)
    ensures Legal(s, run) && Final(s, run).parent.Returned?
    ensures |run| <= Left(s) <= 6 + |s.pc| * 5
    ensures forall i :: 0 <= i < |run| ==> !SpawnOrSpurious(run[i])
    decreases Left(s)
  {
    TotalBound(s.pc, ChildWeight, 5);
    if s.parent.Returned? {
      run := [];
    } else {
      var e := Progress(s);
      CountStep(s, e);
      WakeStep(s, e);
      var rest := CanReturn(Apply(s, e));
      run := [e] + rest;
    }
  }

  // ---- no livelock: without new spawns every schedule comes to an end ----

  /** Steps the parent can take before a child moves. */
  function ParentLocal(wake: nat, p: ParentPc): nat {
    match p
    case InBody => 8
    case LoadRunning => if wake == 0 then 3 else 7
    case WaitLoad => if wake == 0 then 2 else 5
    case WaitCall => if wake == 0 then 1 else 6
    case ResetWake => 4
    case Asleep => 0
    case Returned => 0
  }

  /** Each child step counts as ten, to pay for what it may make the parent do again. */
  ghost function Measure(s: State): nat {
    10 * Total(s.pc, ChildWeight) + ParentLocal(s.wake, s.parent)
  }

  lemma Shrinks(s: State, e: Event)
    requires Enabled(s, e) && !SpawnOrSpurious(e)
    ensures Measure(Apply(s, e)) < Measure(s)
  {
    var s' := Apply(s, e);
    if e.ChildStep? {
      TotalUpdate(s.pc, e.c, s'.pc[e.c], ChildWeight);
    }
  }

  lemma {:induction false} RunShrinks(s: State, run: seq<Event>)
    requires Legal(s, run) && forall i :: 0 <= i < |run| ==> !SpawnOrSpurious(run[i])
    ensures |run| + Measure(Final(s, run)) <= Measure(s)
    decreases |run|
  {
    hide Measure, Enabled, Apply;
    if run != [] {
      Shrinks(s, run[0]);
      RunShrinks(Apply(s, run[0]), run[1..]);
    }
  }

  /** Every schedule ends: a run without spawns and spurious returns has at most 50 steps a thread
      and eight more, and where it cannot go on, `scope` has returned. */
  lemma {:induction false} EveryScheduleEnds(s: State, run: seq<Event>)
    requires Inv(s) && Legal(s, run) && forall i :: 0 <= i < |run| ==> !SpawnOrSpurious(run[i])
    ensures |run| <= 50 * |s.pc| + 8
    ensures (forall e :: Enabled(Final(s, run), e) ==> SpawnOrSpurious(e)) ==> Final(s, run).parent.Returned?
  {
    RunShrinks(s, run);
    TotalBound(s.pc, ChildWeight, 5);
    InvRun(s, run);
    var f := Final(s, run);
    if !f.parent.Returned? {
      var e := Progress(f);
      assert Enabled(f, e) && !SpawnOrSpurious(e);
    }
  }
}
