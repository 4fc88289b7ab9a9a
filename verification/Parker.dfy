/** The `park`/`unpark` token: one owner that parks, with or without a timeout, and any number
    of `unpark` calls. */
module Parker {
  import opened Threads

  datatype OwnerPc =
    | Running
    | FirstSwap(timed: bool)     // about to swap 0 on entry
    | WaitLoad(timed: bool)
    | WaitCall(timed: bool)
    | Asleep(timed: bool)
    | SwapAgain(timed: bool)     // out of the futex wait, about to swap 0

  datatype UnparkPc = Idle | WakeOwed | Returned

  datatype State = State(
    word: nat,
    owner: OwnerPc,
    pc: map<Tid, UnparkPc>,
    unparks: nat,        // `unpark` swaps so far
    consumed: nat,       // tokens taken so far
    parks: nat)          // returns from untimed `park` so far

  datatype Event =
    | Park(timed: bool)
    | OwnerStep
    | Wakeup                     // spurious return or timeout of the FUTEX_WAIT call
    | Unpark(t: Tid)             // swap 1
    | FutexWake(t: Tid)

  predicate Enabled(s: State, e: Event) {
    match e
    case Park(_) => s.owner.Running?
    case OwnerStep => !s.owner.Running? && !s.owner.Asleep?
    case Wakeup => s.owner.Asleep?
    case Unpark(t) => t in s.pc && s.pc[t].Idle?
    case FutexWake(t) => t in s.pc && s.pc[t].WakeOwed?
  }

  function AfterCall(timed: bool): OwnerPc {
    if timed then SwapAgain(true) else WaitLoad(false)
  }

  function Apply(s: State, e: Event): State
    requires Enabled(s, e)
  {
    match e
    case Park(timed) => s.(owner := FirstSwap(timed))
    case Wakeup => s.(owner := AfterCall(s.owner.timed))
    case Unpark(t) =>
      s.(word := 1, unparks := s.unparks + 1, pc := s.pc[t := if s.word == 0 then WakeOwed else Returned])
    case FutexWake(t) =>
      s.(owner := if s.owner.Asleep? then AfterCall(s.owner.timed) else s.owner, pc := s.pc[t := Returned])
    case OwnerStep =>
      var s' := OwnerNext(s);
      if s'.owner.Running? && !s.owner.timed then s'.(parks := s.parks + 1) else s'
  }

  /** The next step of the owner's call. */
  function OwnerNext(s: State): State
    requires !s.owner.Running? && !s.owner.Asleep?
  {
    match s.owner
    case FirstSwap(timed) => TakeToken(s, WaitLoad(timed))
    case WaitLoad(timed) => s.(owner := if s.word == 0 then WaitCall(timed) else SwapAgain(timed))
    case WaitCall(timed) => s.(owner := if s.word == 0 then Asleep(timed) else AfterCall(timed))
    case SwapAgain(timed) => TakeToken(s, if timed then Running else WaitLoad(timed))
  }

  /** Swap 0 into the word: return if a token was there, otherwise go to `missed`. */
  function TakeToken(s: State, missed: OwnerPc): State {
    if s.word == 1 then s.(word := 0, owner := Running, consumed := s.consumed + 1) else s.(word := 0, owner := missed)
  }

  ghost predicate Init(s: State) {
    && s.word == 0 && s.owner.Running? && s.unparks == 0 && s.consumed == 0 && s.parks == 0
    && forall t :: t in s.pc ==> s.pc[t] == Idle
  }

  predicate Legal(s: State, run: seq<Event>)
    decreases |run|
  {
    run == [] || (Enabled(s, run[0]) && Legal(Apply(s, run[0]), run[1..]))
  }

  function Final(s: State, run: seq<Event>): State
    requires Legal(s, run)
    decreases |run|
  {
    if run == [] then s else Final(Apply(s, run[0]), run[1..])
  }

  ghost predicate WakeComing(s: State) {
    exists t :: t in s.pc && s.pc[t].WakeOwed?
  }

  ghost predicate Inv(s: State) {
    && s.word <= 1
    && s.parks <= s.consumed && s.consumed + s.word <= s.unparks
    && (s.owner.Asleep? ==> s.word == 0 || WakeComing(s))
  }

  lemma InvStep(s: State, e: Event)
    requires Inv(s) && Enabled(s, e)
    ensures Inv(Apply(s, e))
  {
    var s' := Apply(s, e);
    if s'.owner.Asleep? && s'.word != 0 {
      if e.Unpark? && s.word == 0 {
        assert s'.pc[e.t].WakeOwed?;
      } else {
        var t :| t in s.pc && s.pc[t].WakeOwed?;
        assert s'.pc[t].WakeOwed?;
      }
    }
  }

  lemma {:induction false} InvRun(s: State, run: seq<Event>)
    requires Inv(s) && Legal(s, run)
    ensures Inv(Final(s, run))
    decreases |run|
  {
    if run != [] {
      InvStep(s, run[0]);
      InvRun(Apply(s, run[0]), run[1..]);
    }
  }

  /** The parker claim over whole runs: `park` returns at most once per `unpark`, and a sleeping
      owner has no token or is owed a wake. */
  lemma {:induction false} Safety(s: State, run: seq<Event>)
    requires Init(s) && Legal(s, run)
    ensures var f := Final(s, run);
            && f.parks <= f.consumed <= f.unparks
            && (f.owner.Asleep? ==> f.word == 0 || WakeComing(f))
  {
    InvRun(s, run);
  }

  // ---- what a call does ----

  /** How a step may move the owner's call. It returns by taking the token if there is one, and untimed
      only if there is one; until then it stays the call it is and takes nothing. */
  ghost predicate OwnerMoves(s: State, e: Event, s': State)
    requires !s.owner.Running?
  {
    if s'.owner.Running? then
      && e.OwnerStep? && s'.word == 0 && s'.consumed == s.consumed + s.word
      && (if s.owner.timed then s'.parks == s.parks else s.word == 1 && s'.parks == s.parks + 1)
    else
      && s'.owner.timed == s.owner.timed && s'.consumed == s.consumed && s'.parks == s.parks
      && s'.word == if e.Unpark? then 1 else s.word
  }

  lemma OwnerCallStep(s: State, e: Event)
    requires Inv(s) && Enabled(s, e)
    ensures s.owner.Running? ==> forall timed :: Enabled(s, Park(timed))
    ensures s.owner.Asleep? ==> Enabled(s, Wakeup)
    ensures !s.owner.Running? ==> OwnerMoves(s, e, Apply(s, e))
    ensures e.Park? ==> Apply(s, e) == s.(owner := FirstSwap(e.timed))
  {
  }

  /** `unpark` leaves a token, and calls the kernel if and only if there was none. */
  lemma UnparkStep(s: State, t: Tid)
    requires Inv(s) && t in s.pc && s.pc[t].Idle?
    ensures Enabled(s, Unpark(t))
    ensures var s' := Apply(s, Unpark(t));
            && s'.word == 1 && s'.unparks == s.unparks + 1 && s'.owner == s.owner
            && t in s'.pc && (s'.pc[t].WakeOwed? <==> s.word == 0)
  {
  }

  predicate InWait(p: OwnerPc) {
    p.WaitLoad? || p.WaitCall? || p.Asleep?
  }

  /** An untimed wait is left only when there is a token. A timed one is left for good by whatever ends
      its kernel call, and then the call returns at its next step. */
  lemma WaitEnds(s: State, e: Event)
    requires Inv(s) && Enabled(s, e) && InWait(s.owner)
    ensures var p := Apply(s, e).owner;
            && !p.Running? && (InWait(p) || s.word == 1 || s.owner.timed)
            && (s.owner == Asleep(true) && p != s.owner ==>
                  Enabled(Apply(s, e), OwnerStep) && Apply(Apply(s, e), OwnerStep).owner.Running?)
  {
  }

  /** A token is kept until the owner takes it: after an `unpark`, whatever other `unpark` calls
      do meanwhile, the next `park` returns at its first step without sleeping. */
  lemma {:induction false} TokenMakesParkReturn(s: State, t: Tid, run: seq<Event>, timed: bool)
    requires s.owner.Running? && Enabled(s, Unpark(t))
    requires Legal(Apply(s, Unpark(t)), run)
    requires forall i :: 0 <= i < |run| ==> run[i].Unpark? || run[i].FutexWake?
    ensures var f := Final(Apply(s, Unpark(t)), run);
            && Enabled(f, Park(timed))
            && var g := Apply(f, Park(timed));
               && Enabled(g, OwnerStep)
               && Apply(g, OwnerStep).owner.Running? && Apply(g, OwnerStep).consumed == f.consumed + 1
  {
    TokenKept(Apply(s, Unpark(t)), run);
  }

  lemma {:induction false} TokenKept(s: State, run: seq<Event>)
    requires s.word == 1 && s.owner.Running? && Legal(s, run)
    requires forall i :: 0 <= i < |run| ==> run[i].Unpark? || run[i].FutexWake?
    ensures Final(s, run).word == 1 && Final(s, run).owner.Running?
    decreases |run|
  {
    if run != [] {
      TokenKept(Apply(s, run[0]), run[1..]);
    }
  }

  /** When every `unpark` has returned, only an owner without a token can be asleep. */
  lemma {:induction false} NoLostToken(s: State, run: seq<Event>)
    requires Init(s) && Legal(s, run) && Final(s, run).word == 1
    requires forall t :: t in Final(s, run).pc ==> !Final(s, run).pc[t].WakeOwed?
    ensures !Final(s, run).owner.Asleep?
  {
    InvRun(s, run);
  }

  /** A token in the word ends the owner's call: at most three steps, of the owner and of an
      unparker that owes its wake, make it return. */
  lemma {:induction false} TokenReturns(s: State) returns (run: seq<Event>)
    requires Inv(s) && s.word == 1
    ensures Legal(s, run) && Final(s, run).owner.Running? && |run| <= Distance(s.owner) <= 3
    ensures forall i :: 0 <= i < |run| ==> run[i].OwnerStep? || run[i].FutexWake?
    decreases Distance(s.owner)
  {
    if s.owner.Running? {
      run := [];
    } else {
      var e := if s.owner.Asleep? then FutexWake(Waker(s)) else OwnerStep;
      InvStep(s, e);
      var next := Apply(s, e);
      if next.owner.Running? {
        run := [e];
      } else {
        var rest := TokenReturns(next);
        run := [e] + rest;
        assert run[1..] == rest;
      }
    }
  }

  /** An unparker that owes its wake. */
  ghost function Waker(s: State): (t: Tid)
    requires WakeComing(s)
    ensures t in s.pc && s.pc[t].WakeOwed?
  {
    var t :| t in s.pc && s.pc[t].WakeOwed?;
    t
  }

  /** Steps from here to the return of the owner's call when a token is there. */
  function Distance(p: OwnerPc): nat {
    match p
    case Running => 0
    case FirstSwap(_) => 1
    case SwapAgain(_) => 1
    case WaitLoad(_) => 2
    case WaitCall(_) => 3
    case Asleep(_) => 3
  }

  // ---- every schedule ends ----

  /** New calls, and returns from the futex wait that no wake caused. */
  predicate NewCallOrSpurious(e: Event) {
    e.Park? || e.Unpark? || e.Wakeup?
  }

  function Owes(p: UnparkPc): nat {
    if p.WakeOwed? then 1 else 0
  }

  /** Steps the owner can take before it returns or sleeps, with that word and no wake. */
  function OwnSteps(word: nat, p: OwnerPc): nat {
    match p
    case Running => 0
    case Asleep(_) => 0
    case FirstSwap(_) => 4
    case SwapAgain(_) => 4
    case WaitLoad(_) => if word == 0 then 3 else 5
    case WaitCall(_) => if word == 0 then 1 else 6
  }

  ghost function Measure(s: State): nat {
    6 * Total(s.pc, Owes) + OwnSteps(s.word, s.owner)
  }

  lemma StepShrinks(s: State, e: Event)
    requires Inv(s) && Enabled(s, e) && !NewCallOrSpurious(e)
    ensures Measure(Apply(s, e)) < Measure(s) && Apply(s, e).pc.Keys == s.pc.Keys
  {
    hide Total;
    if e.FutexWake? {
      TotalUpdate(s.pc, e.t, Returned, Owes);
    }
  }

  lemma {:induction false} RunShrinks(s: State, run: seq<Event>)
    requires Inv(s) && Legal(s, run) && forall i :: 0 <= i < |run| ==> !NewCallOrSpurious(run[i])
    ensures |run| + Measure(Final(s, run)) <= Measure(s)
    decreases |run|
  {
    hide Inv, Measure, Enabled, Apply;
    if run != [] {
      StepShrinks(s, run[0]);
      InvStep(s, run[0]);
      RunShrinks(Apply(s, run[0]), run[1..]);
    }
  }

  /** Every schedule ends: a run of the owner's steps and of wakes has at most six steps for the owner
      and six for each unparker, and where it cannot go on, the owner's call has returned or sleeps
      without a token. */
  lemma {:induction false} EveryScheduleEnds(s: State, run: seq<Event>)
    requires Inv(s) && Legal(s, run) && forall i :: 0 <= i < |run| ==> !NewCallOrSpurious(run[i])
    ensures |run| <= 6 * (|s.pc| + 1)
    ensures (forall e :: Enabled(Final(s, run), e) ==> NewCallOrSpurious(e)) ==>
              Final(s, run).owner.Running? || (Final(s, run).owner.Asleep? && Final(s, run).word == 0)
  {
    RunShrinks(s, run);
    TotalBound(s.pc, Owes, 1);
    InvRun(s, run);
    var f := Final(s, run);
    if f.owner.Asleep? && f.word != 0 {
      assert Enabled(f, FutexWake(Waker(f))) && !NewCallOrSpurious(FutexWake(Waker(f)));
    } else if !f.owner.Running? && !f.owner.Asleep? {
      assert Enabled(f, OwnerStep) && !NewCallOrSpurious(OwnerStep);
    }
  }
}
