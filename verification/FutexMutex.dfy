/** The three-state futex `Mutex`, one step per atomic operation or kernel call, for any
    finite set of threads. The word is 0 (free), 1 (held) or 2 (held, maybe waiters). */
module FutexMutex {
  import opened Threads
  import opened Wrappers
  import opened Arithmetic

  /** Where a thread is inside `raw_lock`, `raw_unlock` or `futex_wait`. */
  datatype Pc =
    | Idle
    | Swapping    // about to swap 2 into the word
    | WaitLoad    // in futex_wait, about to load the word
    | WaitCall    // saw 2, about to make the FUTEX_WAIT call
    | Asleep      // in the kernel
    | Holding
    | WakeOwed    // swapped 0 over 2, about to call futex_wake

  datatype State = State(word: nat, pc: map<Tid, Pc>)

  datatype Event =
    | CompareExchange(t: Tid)              // first line of raw_lock
    | TryLock(t: Tid)
    | SwapTwo(t: Tid)
    | Load(t: Tid)
    | FutexWait(t: Tid)
    | Spurious(t: Tid)                     // FUTEX_WAIT returns without a wake
    | SwapZero(t: Tid)                     // raw_unlock
    | FutexWake(t: Tid, woken: Option<Tid>)

  predicate At(s: State, t: Tid, p: Pc) {
    t in s.pc && s.pc[t] == p
  }

  predicate Enabled(s: State, e: Event) {
    match e
    case CompareExchange(t) => At(s, t, Idle)
    case TryLock(t) => At(s, t, Idle)
    case SwapTwo(t) => At(s, t, Swapping)
    case Load(t) => At(s, t, WaitLoad)
    case FutexWait(t) => At(s, t, WaitCall)
    case Spurious(t) => At(s, t, Asleep)
    case SwapZero(t) => At(s, t, Holding)
    case FutexWake(t, woken) =>
      && At(s, t, WakeOwed)
      && match woken
         case None => forall u :: u in s.pc ==> s.pc[u] != Asleep
         case Some(u) => At(s, u, Asleep)
  }

  function Apply(s: State, e: Event): State
    requires Enabled(s, e)
  {
    match e
    case CompareExchange(t) =>
      if s.word == 0 then State(1, s.pc[t := Holding]) else s.(pc := s.pc[t := Swapping])
    case TryLock(t) =>
      if s.word == 0 then State(1, s.pc[t := Holding]) else s
    case SwapTwo(t) =>
      State(2, s.pc[t := if s.word == 0 then Holding else WaitLoad])
    case Load(t) =>
      s.(pc := s.pc[t := if s.word == 2 then WaitCall else Swapping])
    case FutexWait(t) =>
      s.(pc := s.pc[t := if s.word == 2 then Asleep else WaitLoad])
    case Spurious(t) =>
      s.(pc := s.pc[t := WaitLoad])
    case SwapZero(t) =>
      State(0, s.pc[t := if s.word == 2 then WakeOwed else Idle])
    case FutexWake(t, woken) =>
      var pc := s.pc[t := Idle];
      s.(pc := if woken.Some? then pc[woken.value := WaitLoad] else pc)
  }

  // ---- runs ----

  ghost predicate Init(s: State) {
    s.word == 0 && forall t :: t in s.pc ==> s.pc[t] == Idle
  }

  predicate Legal(s: State, run: seq<Event>)
    decreases |run|
  {
    run == [] || (Enabled(s, run[0]) && Legal(Apply(s, run[0]), run[1..]))
  }

  function Final(s: State, run: seq<Event>): State
    requires Legal(s, run)
    decreases |run|
  {
    if run == [] then s else Final(Apply(s, run[0]), run[1..])
  }

  // ---- what every step keeps ----

  ghost predicate Free(s: State) {
    forall t :: t in s.pc ==> !At(s, t, Holding)
  }

  /** A thread inside `raw_lock` that is awake, and so will swap in 2 or acquire. */
  predicate Contending(s: State, t: Tid) {
    t in s.pc && (s.pc[t].Swapping? || s.pc[t].WaitLoad? || s.pc[t].WaitCall?)
  }

  ghost predicate WakeComing(s: State) {
    || s.word == 2
    || (exists t :: At(s, t, WakeOwed))
    || (exists t :: Contending(s, t))
  }

  ghost predicate Exclusive(s: State) {
    && s.word <= 2
    && (s.word == 0 <==> Free(s))
    && (forall t, u :: At(s, t, Holding) && At(s, u, Holding) ==> t == u)
  }

  ghost predicate Inv(s: State) {
    Exclusive(s) && forall t :: At(s, t, Asleep) ==> WakeComing(s)
  }

  lemma InvStep(s: State, e: Event)
    requires Inv(s) && Enabled(s, e)
    ensures Inv(Apply(s, e))
  {
    ExclusiveStep(s, e);
    forall x | At(Apply(s, e), x, Asleep)
      ensures WakeComing(Apply(s, e))
    {
      WakeComingStep(s, e, x);
    }
  }

  lemma ExclusiveStep(s: State, e: Event)
    requires Exclusive(s) && Enabled(s, e)
    ensures Exclusive(Apply(s, e))
  {
    var s' := Apply(s, e);
    assert forall x :: x != e.t ==> (At(s', x, Holding) <==> At(s, x, Holding));
    assert At(s, e.t, Holding) ==> s.word != 0;
    assert s'.word != 0 && s.word == 0 ==> At(s', e.t, Holding);
    if s.word != 0 && s'.word != 0 {
      var h :| h in s.pc && At(s, h, Holding);
      assert At(s', h, Holding);
    }
  }

  lemma WakeComingStep(s: State, e: Event, x: Tid)
    requires Inv(s) && Enabled(s, e) && At(Apply(s, e), x, Asleep)
    ensures WakeComing(Apply(s, e))
  {
    var s' := Apply(s, e);
    if s'.word != 2 && !At(s', e.t, WakeOwed) && !Contending(s', e.t) {
      if e.FutexWake? {
        assert At(s, x, Asleep);
        assert Contending(s', e.woken.value);
      } else {
        assert At(s, x, Asleep) && WakeComing(s);
        if t :| At(s, t, WakeOwed) { assert At(s', t, WakeOwed); }
        else if t :| Contending(s, t) { assert Contending(s', t); }
      }
    }
  }

  /** The mutex claim over whole runs. In every reachable state the word is non-zero exactly
      when exactly one thread holds the lock, and a sleeping thread has a wake coming: the word
      is 2, an unlocker still owes its wake, or an awake contender is about to swap in 2. */
  lemma {:induction false} Safety(s: State, run: seq<Event>)
    requires Init(s) && Legal(s, run)
    ensures var f := Final(s, run);
            && |Holders(f)| == (if f.word == 0 then 0 else 1)
            && (forall t :: At(f, t, Asleep) ==> WakeComing(f))
  {
    InvRun(s, run);
    HoldersCount(Final(s, run));
  }

  ghost function Holders(s: State): set<Tid> {
    set t | t in s.pc && s.pc[t] == Holding
  }

  lemma {:induction false} InvRun(s: State, run: seq<Event>)
    requires Inv(s) || Init(s)
    requires Legal(s, run)
    ensures Inv(Final(s, run))
    decreases |run|
  {
    if run != [] {
      InvStep(s, run[0]);
      InvRun(Apply(s, run[0]), run[1..]);
    }
  }

  lemma HoldersCount(s: State)
    requires Exclusive(s)
    ensures |Holders(s)| == (if s.word == 0 then 0 else 1)
  {
    if s.word == 0 {
      assert forall t :: t in Holders(s) ==> At(s, t, Holding);
      assert Holders(s) == {};
    } else {
      var h :| h in s.pc && At(s, h, Holding);
      assert forall t :: t in Holders(s) ==> At(s, t, Holding);
      assert Holders(s) == {h};
    }
  }

  /** A free lock with nobody in transit has no sleepers. */
  lemma FreeMeansNoSleepers(s: State, run: seq<Event>, t: Tid)
    requires Init(s) && Legal(s, run)
    requires Final(s, run).word == 0
    requires forall u :: u in Final(s, run).pc ==> Final(s, run).pc[u] in {Idle, Asleep}
    ensures !At(Final(s, run), t, Asleep)
  {
    InvRun(s, run);
  }

  // ---- the protocol implements a lock ----

  ghost function Abstract(s: State): Lock {
    if h :| At(s, h, Holding) then Some(h) else None
  }

  function AbstractEvent(s: State, e: Event): LockEvent
    requires Enabled(s, e)
  {
    if s.word == 0 && (e.CompareExchange? || e.TryLock? || e.SwapTwo?) then Acquire(e.t)
    else if e.SwapZero? then Release(e.t)
    else Internal
  }

  /** Every step of the protocol is a step of the abstract lock, by the same thread. */
  lemma RefinesLock(s: State, e: Event)
    requires Inv(s) && Enabled(s, e)
    ensures LockEnabled(Abstract(s), AbstractEvent(s, e))
    ensures Abstract(Apply(s, e)) == LockApply(Abstract(s), AbstractEvent(s, e))
  {
    ExclusiveStep(s, e);
    var s' := Apply(s, e);
    assert forall x :: x != e.t ==> (At(s', x, Holding) <==> At(s, x, Holding));
    if s.word != 0 {
      var h :| h in s.pc && At(s, h, Holding);
      assert At(s, e.t, Holding) ==> e.t == h;
    }
    if s'.word != 0 {
      var h :| h in s'.pc && At(s', h, Holding);
    }
  }

  /** What the clients of the lock see of a run. */
  function AbstractRun(s: State, run: seq<Event>): seq<LockEvent>
    requires Legal(s, run)
    decreases |run|
  {
    if run == [] then [] else [AbstractEvent(s, run[0])] + AbstractRun(Apply(s, run[0]), run[1..])
  }

  /** Every run of the protocol is a run of the abstract lock, ending with the same holder. */
  lemma {:induction false} RunRefinesLock(s: State, run: seq<Event>)
    requires Inv(s) && Legal(s, run)
    ensures LockLegal(Abstract(s), AbstractRun(s, run))
    ensures LockFinal(Abstract(s), AbstractRun(s, run)) == Abstract(Final(s, run))
    decreases |run|
  {
    hide Inv, Abstract, AbstractEvent, LockEnabled, LockApply;
    if run != [] {
      InvStep(s, run[0]);
      RefinesLock(s, run[0]);
      RunRefinesLock(Apply(s, run[0]), run[1..]);
      assert AbstractRun(s, run)[1..] == AbstractRun(Apply(s, run[0]), run[1..]);
    }
  }

  // ---- what a call does to its caller ----

  datatype Stage = Outside | InLock | Holder | InUnlock

  /** Where a thread's client is. */
  function StageOf(p: Pc): Stage {
    match p
    case Idle => Outside
    case Holding => Holder
    case WakeOwed => InUnlock
    case _ => InLock
  }

  /** How a step may move its thread: `lock` returns only with the lock, taken when nobody has it,
      and at once if nobody has it; `try_lock` never waits; `unlock` leaves the lock free. */
  ghost predicate Moves(s: State, e: Event, before: Stage, after: Stage, s': State) {
    match e
    case CompareExchange(_) => before == Outside && after == if Free(s) then Holder else InLock
    case TryLock(_) => before == Outside && if Free(s) then after == Holder else s' == s
    case SwapZero(_) => before == Holder && (after == Outside || after == InUnlock) && Free(s')
    case FutexWake(_, _) => before == InUnlock && after == Outside
    case _ => before == InLock && (after == InLock || (after == Holder && Free(s)))
  }

  /** Every step moves its own thread as its call promises, and no other. */
  lemma ClientStep(s: State, e: Event)
    requires Inv(s) && Enabled(s, e)
    ensures var s' := Apply(s, e);
            && s'.pc.Keys == s.pc.Keys && Moves(s, e, StageOf(s.pc[e.t]), StageOf(s'.pc[e.t]), s')
            && forall u :: u in s.pc && u != e.t ==> StageOf(s'.pc[u]) == StageOf(s.pc[u])
  {
    ExclusiveStep(s, e);
  }

  /** `try_lock` gets the lock if and only if nobody has it, and otherwise changes nothing. */
  lemma TryLockIsExact(s: State, t: Tid)
    requires Inv(s) && At(s, t, Idle)
    ensures Enabled(s, TryLock(t))
    ensures At(Apply(s, TryLock(t)), t, Holding) <==> Free(s)
    ensures !Free(s) ==> Apply(s, TryLock(t)) == s
  {
    ClientStep(s, TryLock(t));
  }

  /** An undisturbed lock and unlock take one step each and leave no trace: no wake is owed. */
  lemma FastPath(s: State, t: Tid)
    requires Inv(s) && Free(s) && At(s, t, Idle)
    ensures Enabled(s, CompareExchange(t))
    ensures var s' := Apply(s, CompareExchange(t));
            && At(s', t, Holding) && Enabled(s', SwapZero(t)) && Apply(s', SwapZero(t)) == s
  {
    assert s.pc[t := Holding][t := Idle] == s.pc;
  }

  /** Nobody is ever kept from a step: a thread outside can call, one that is awake can go on, a sleeper
      can return on its own, and a wake can choose any sleeper. */
  lemma NothingBlocks(s: State, t: Tid, u: Tid)
    requires t in s.pc
    ensures At(s, t, Idle) ==> Enabled(s, CompareExchange(t)) && Enabled(s, TryLock(t))
    ensures At(s, t, Asleep) ==> Enabled(s, Spurious(t))
    ensures At(s, t, WakeOwed) && At(s, u, Asleep) ==> Enabled(s, FutexWake(t, Some(u)))
    ensures !At(s, t, Asleep) ==> exists e :: Enabled(s, e) && e.t == t
  {
    var e := match s.pc[t] {
      case Idle => TryLock(t)
      case Swapping => SwapTwo(t)
      case WaitLoad => Load(t)
      case WaitCall => FutexWait(t)
      case Holding => SwapZero(t)
      case Asleep => Spurious(t)
      case WakeOwed => FutexWake(t, if x :| At(s, x, Asleep) then Some(x) else None)
    };
    if At(s, t, WakeOwed) && e.woken.None? {
      assert forall x :: x in s.pc ==> !At(s, x, Asleep);
    }
    assert Enabled(s, e);
  }

  predicate InWait(p: Pc) {
    p.WaitLoad? || p.WaitCall? || p.Asleep?
  }

  /** A thread enters `futex_wait`, at its load, only by swapping 2 over a held word, and leaves it, for
      another swap, only when it loads a word that is not 2. */
  lemma WaitBounds(s: State, e: Event, u: Tid)
    requires Enabled(s, e) && u in s.pc
    ensures var s' := Apply(s, e);
            && u in s'.pc
            && (InWait(s'.pc[u]) && !InWait(s.pc[u]) ==>
                  e == SwapTwo(u) && s.word != 0 && s'.word == 2 && s'.pc[u] == WaitLoad)
            && (InWait(s.pc[u]) && !InWait(s'.pc[u]) ==> e == Load(u) && s.word != 2 && s'.pc[u] == Swapping)
  {
  }

  // ---- no deadlock: from every reachable state the work can be finished ----

  /** Steps left on the way from here back to `Idle` when nobody interferes. */
  function Weight(p: Pc): nat {
    match p
    case Asleep => 6
    case WaitCall => 5
    case WaitLoad => 4
    case Swapping => 3
    case Holding => 2
    case WakeOwed => 1
    case Idle => 0
  }

  predicate NewCallOrSpurious(e: Event) {
    e.CompareExchange? || e.TryLock? || e.Spurious?
  }

  ghost predicate Quiet(s: State) {
    forall t :: t in s.pc ==> s.pc[t] == Idle
  }

  /** In every state that is not quiet some thread can make progress: a step that is neither a
      new lock call nor a spurious return, and that lowers the total of steps left. */
  lemma Progress(s: State) returns (e: Event)
    requires Inv(s) && !Quiet(s)
    ensures Enabled(s, e) && !NewCallOrSpurious(e)
    ensures Total(Apply(s, e).pc, Weight) < Total(s.pc, Weight)
  {
    if h :| At(s, h, Holding) {
      e := SwapZero(h);
    } else {
      assert s.word == 0;
      if t :| At(s, t, WakeOwed) {
        if u :| At(s, u, Asleep) {
          e := FutexWake(t, Some(u));
        } else {
          assert forall u :: u in s.pc ==> !At(s, u, Asleep);
          e := FutexWake(t, None);
        }
      } else {
        var u :| u in s.pc && s.pc[u] != Idle;
        assert At(s, u, Asleep) ==> WakeComing(s);
        assert !At(s, u, Holding) && !At(s, u, WakeOwed);
        assert Contending(s, u) || At(s, u, Asleep);
        var c :| Contending(s, c);
        assert Contending(s, c);
        e := if s.pc[c].Swapping? then SwapTwo(c) else if s.pc[c].WaitLoad? then Load(c) else FutexWait(c);
      }
    }
    TotalDrop(s.pc, Apply(s, e).pc, e.t, Weight);
  }

  /** From every reachable state there is a continuation of at most six steps per thread, with
      no new calls, after which every pending lock and unlock has returned. */
  lemma {:induction false} Drain(s: State) returns (run: seq<Event>)
    requires Inv(s)
    ensures Legal(s, run) && Quiet(Final(s, run))
    ensures |run| <= Total(s.pc, Weight) <= |s.pc| * 6
    ensures forall i :: 0 <= i < |run| ==> !NewCallOrSpurious(run[i])
    decreases Total(s.pc, Weight)
  {
    TotalBound(s.pc, Weight, 6);
    if Quiet(s) {
      run := [];
    } else {
      var e := Progress(s);
      InvStep(s, e);
      var rest := Drain(Apply(s, e));
      run := [e] + rest;
    }
  }

  // ---- no livelock: without new calls every schedule comes to an end ----

  /** 1 for a thread that has still to release the lock, or to get it and release it. */
  function Unreleased(p: Pc): nat {
    if p.Idle? || p.WakeOwed? then 0 else 1
  }

  /** Steps a thread can take before the next release; `marked` says that the word is 2. */
  function Local(marked: bool, p: Pc): nat {
    match p
    case Swapping => if marked then 3 else 4
    case WaitLoad => if marked then 2 else 5
    case WaitCall => if marked then 1 else 6
    case WakeOwed => 7
    case _ => 0
  }

  ghost function Locals(s: State): map<Tid, nat> {
    map t | t in s.pc :: Local(s.word == 2, s.pc[t])
  }

  ghost function Releases(s: State): nat {
    Total(s.pc, Unreleased)
  }

  ghost function Measure(s: State): nat {
    Releases(s) * (7 * |s.pc| + 1) + Total(Locals(s), Id)
  }

  lemma LocalsBound(s: State)
    ensures Total(Locals(s), Id) <= 7 * |s.pc|
  {
    assert Locals(s).Keys == s.pc.Keys;
    TotalBound(Locals(s), Id, 7);
  }

  /** A release uses up one of the releases to come. */
  lemma ReleaseShrinks(s: State, t: Tid)
    requires Enabled(s, SwapZero(t))
    ensures Measure(Apply(s, SwapZero(t))) < Measure(s)
  {
    var s' := Apply(s, SwapZero(t));
    TotalUpdate(s.pc, t, s'.pc[t], Unreleased);
    LocalsBound(s');
    assert s'.pc.Keys == s.pc.Keys && |s'.pc| == |s.pc|;
    MulSucc(Releases(s'), 7 * |s.pc| + 1);
  }

  lemma LocalShrinks(s: State, s': State)
    requires s'.pc.Keys == s.pc.Keys && Releases(s') == Releases(s) && Total(Locals(s'), Id) < Total(Locals(s), Id)
    ensures Measure(s') < Measure(s)
  {
    assert |s'.pc| == |s.pc|;
  }

  /** A wake moves one sleeper, for less than the waker's own share. */
  lemma WakeShrinks(s: State, t: Tid, woken: Option<Tid>)
    requires Enabled(s, FutexWake(t, woken))
    ensures Measure(Apply(s, FutexWake(t, woken))) < Measure(s)
  {
    hide Measure, Total;
    var s', marked := Apply(s, FutexWake(t, woken)), s.word == 2;
    TotalSame(s.pc, s'.pc, Unreleased);
    var mid := Locals(s)[t := 0];
    TotalUpdate(Locals(s), t, 0, Id);
    if woken.Some? {
      TotalUpdate(mid, woken.value, Local(marked, WaitLoad), Id);
      assert Locals(s') == mid[woken.value := Local(marked, WaitLoad)];
    } else {
      assert Locals(s') == mid;
    }
    LocalShrinks(s, s');
  }

  lemma OwnStepLocal(s: State, e: Event, u: Tid)
    requires Enabled(s, e) && (e.SwapTwo? || e.Load? || e.FutexWait?) && u in s.pc
    ensures var s' := Apply(s, e);
            && s'.pc.Keys == s.pc.Keys
            && Unreleased(s'.pc[u]) == Unreleased(s.pc[u])
            && Local(s'.word == 2, s'.pc[u]) <= Local(s.word == 2, s.pc[u])
            && (u == e.t ==> Local(s'.word == 2, s'.pc[u]) < Local(s.word == 2, s.pc[u]))
  {
  }

  /** Any other step is one of the stepping thread's own. */
  lemma OwnStepShrinks(s: State, e: Event)
    requires Enabled(s, e) && (e.SwapTwo? || e.Load? || e.FutexWait?)
    ensures Measure(Apply(s, e)) < Measure(s)
  {
    var s' := Apply(s, e);
    OwnStepLocal(s, e, e.t);
    hide Measure, Total, Apply, Local, Unreleased;
    forall u | u in s.pc
      ensures Unreleased(s'.pc[u]) == Unreleased(s.pc[u])
      ensures Local(s'.word == 2, s'.pc[u]) <= Local(s.word == 2, s.pc[u])
    {
      OwnStepLocal(s, e, u);
    }
    TotalSame(s.pc, s'.pc, Unreleased);
    TotalDrop(Locals(s), Locals(s'), e.t, Id);
    LocalShrinks(s, s');
  }

  lemma Shrinks(s: State, e: Event)
    requires Enabled(s, e) && !NewCallOrSpurious(e)
    ensures Measure(Apply(s, e)) < Measure(s) && |Apply(s, e).pc| == |s.pc|
  {
    hide Measure;
    assert Apply(s, e).pc.Keys == s.pc.Keys;
    match e {
      case SwapZero(t) => ReleaseShrinks(s, t);
      case FutexWake(t, woken) => WakeShrinks(s, t, woken);
      case _ => OwnStepShrinks(s, e);
    }
  }

  /** Every schedule ends: a run without new calls and spurious returns has at most about seven
      times the square of the number of threads steps, and where it cannot go on, all is quiet. */
  lemma {:induction false} EveryScheduleEnds(s: State, run: seq<Event>)
    requires Inv(s) && Legal(s, run) && forall i :: 0 <= i < |run| ==> !NewCallOrSpurious(run[i])
    ensures |run| <= |s.pc| * (7 * |s.pc| + 1) + 7 * |s.pc|
    ensures (forall e :: Enabled(Final(s, run), e) ==> NewCallOrSpurious(e)) ==> Quiet(Final(s, run))
  {
    RunShrinks(s, run);
    MeasureBound(s);
    InvRun(s, run);
    var f := Final(s, run);
    if !Quiet(f) {
      var e := Progress(f);
      assert Enabled(f, e) && !NewCallOrSpurious(e);
    }
  }

  lemma MeasureBound(s: State)
    ensures Measure(s) <= |s.pc| * (7 * |s.pc| + 1) + 7 * |s.pc|
  {
    LocalsBound(s);
    TotalBound(s.pc, Unreleased, 1);
    MulMono(Releases(s), |s.pc|, 7 * |s.pc| + 1);
  }

  lemma {:induction false} RunShrinks(s: State, run: seq<Event>)
    requires Legal(s, run) && forall i :: 0 <= i < |run| ==> !NewCallOrSpurious(run[i])
    ensures |run| + Measure(Final(s, run)) <= Measure(s)
    decreases |run|
  {
    hide Measure, Enabled, Apply;
    if run != [] {
      Shrinks(s, run[0]);
      RunShrinks(Apply(s, run[0]), run[1..]);
    }
  }
}
