/** `Barrier::wait` over the abstract lock (which `FutexMutex` implements) and the condition
    variable, for any number of threads calling it any number of times. */
module Barrier {
  import opened Threads
  import opened Wrappers
  import opened Condvar
  import opened Arithmetic
  import opened Sequences

  /** `generation` is a 64-bit counter compared for equality. */
  const USIZE: nat := 0x1_0000_0000_0000_0000

  datatype Pc =
    | Idle
    | Locking
    | Entered                            // holds the lock, before `count += 1`
    | Checking(gen: nat)                 // holds the lock, at the `while` test
    | SeqLoad(gen: nat)                  // holds the lock, in `Condvar::wait`
    | WaitUnlock(gen: nat, seen: nat)    // holds the lock, about to release it
    | WaitLoad(gen: nat, seen: nat)
    | WaitCall(gen: nat, seen: nat)
    | Asleep(gen: nat, seen: nat)
    | Relocking(gen: nat)
    | Bumping(gen: nat)                  // leader, holds the lock, in `notify_all`
    | Waking(gen: nat)                   // leader, holds the lock, seq already bumped
    | Leaving(gen: nat, leader: bool)    // holds the lock, result decided

  /** One call's passage through `count += 1`. */
  datatype Arrival = Arrival(t: Tid, gen: nat, leader: bool)

  datatype State = State(
    n: nat,
    lock: Lock,
    count: nat,
    generation: nat,
    bumps: nat,
    pc: map<Tid, Pc>,
    log: seq<Arrival>)

  datatype Event =
    | Call(t: Tid)
    | Acquire(t: Tid)       // `lock()`, or the re-lock inside `Condvar::wait`
    | Arrive(t: Tid)
    | Check(t: Tid)
    | LoadSeq(t: Tid)
    | Unlock(t: Tid)        // the release inside `Condvar::wait`, or the guard's drop
    | WordLoad(t: Tid)
    | FutexWait(t: Tid)
    | Spurious(t: Tid)
    | Bump(t: Tid)
    | WakeAll(t: Tid)

  predicate Enabled(s: State, e: Event) {
    && e.t in s.pc
    && var p := s.pc[e.t];
       match e
       case Call(_) => p.Idle?
       case Acquire(_) => (p.Locking? || p.Relocking?) && s.lock.None?
       case Arrive(_) => p.Entered?
       case Check(_) => p.Checking?
       case LoadSeq(_) => p.SeqLoad?
       case Unlock(_) => p.WaitUnlock? || p.Leaving?
       case WordLoad(_) => p.WaitLoad?
       case FutexWait(_) => p.WaitCall?
       case Spurious(_) => p.Asleep?
       case Bump(_) => p.Bumping?
       case WakeAll(_) => p.Waking?
  }

  function Woken(p: Pc): Pc {
    if p.Asleep? then WaitLoad(p.gen, p.seen) else p
  }

  function Goto(s: State, t: Tid, p: Pc): State {
    s.(pc := s.pc[t := p])
  }

  function Apply(s: State, e: Event): State
    requires Enabled(s, e)
  {
    var t, p := e.t, s.pc[e.t];
    match e
    case Call(_) => Goto(s, t, Locking)
    case Acquire(_) =>
      Goto(s, t, if p.Locking? then Entered else Checking(p.gen)).(lock := Some(t))
    case Arrive(_) =>
      var gen, count := s.generation, s.count + 1;
      if count < s.n then
        Goto(s, t, Checking(gen)).(count := count, log := s.log + [Arrival(t, gen, false)])
      else
        Goto(s, t, Bumping(gen)).(count := 0, generation := gen + 1, log := s.log + [Arrival(t, gen, true)])
    case Check(_) =>
      Goto(s, t, if p.gen % USIZE == s.generation % USIZE then SeqLoad(p.gen) else Leaving(p.gen, false))
    case LoadSeq(_) => Goto(s, t, WaitUnlock(p.gen, s.bumps))
    case Unlock(_) =>
      Goto(s, t, if p.WaitUnlock? then WaitLoad(p.gen, p.seen) else Idle).(lock := None)
    case WordLoad(_) =>
      Goto(s, t, if SameSeq(s.bumps, p.seen) then WaitCall(p.gen, p.seen) else Relocking(p.gen))
    case FutexWait(_) =>
      Goto(s, t, if SameSeq(s.bumps, p.seen) then Asleep(p.gen, p.seen) else WaitLoad(p.gen, p.seen))
    case Spurious(_) => Goto(s, t, WaitLoad(p.gen, p.seen))
    case Bump(_) => Goto(s, t, Waking(p.gen)).(bumps := s.bumps + 1)
    case WakeAll(_) =>
      s.(pc := map u | u in s.pc :: if u == t then Leaving(p.gen, true) else Woken(s.pc[u]))
  }

  // ---- runs ----

  ghost predicate Init(s: State) {
    && s.lock.None? && s.count == 0 && s.generation == 0 && s.log == []
    && forall t :: t in s.pc ==> s.pc[t] == Idle
  }

  /** No waiter about to compare has seen 2^32 notifies or 2^64 generations go by. */
  ghost predicate NoWrap(s: State) {
    forall t :: t in s.pc ==>
      && (s.pc[t].Checking? ==> s.generation < s.pc[t].gen + USIZE)
      && (s.pc[t].WaitLoad? || s.pc[t].WaitCall? ==> s.bumps < s.pc[t].seen + WORD)
  }

  predicate Legal(s: State, run: seq<Event>)
    decreases |run|
  {
    run == [] || (Enabled(s, run[0]) && Legal(Apply(s, run[0]), run[1..]))
  }

  function Final(s: State, run: seq<Event>): State
    requires Legal(s, run)
    decreases |run|
  {
    if run == [] then s else Final(Apply(s, run[0]), run[1..])
  }

  /** No waiter ever sleeps through 2^32 notifies or 2^64 generations. */
  ghost predicate Bounded(s: State, run: seq<Event>)
    requires Legal(s, run)
    decreases |run|
  {
    NoWrap(s) && (run == [] || Bounded(Apply(s, run[0]), run[1..]))
  }

  // ---- what every step keeps ----

  /** `Barrier::new(0)` behaves like `Barrier::new(1)`: every arrival is a leader. */
  function Size(s: State): nat {
    if s.n == 0 then 1 else s.n
  }

  predicate HoldsLock(p: Pc) {
    !p.Idle? && !p.Locking? && !p.WaitLoad? && !p.WaitCall? && !p.Asleep? && !p.Relocking?
  }

  ghost predicate LockInv(s: State) {
    && (s.lock.Some? ==> s.lock.value in s.pc)
    && forall t :: t in s.pc ==> (HoldsLock(s.pc[t]) <==> s.lock == Some(t))
  }

  /** Arrivals come in blocks of `Size`, one generation each, and the last of each block is
      the leader. */
  ghost predicate LogInv(s: State) {
    && s.count < Size(s)
    && |s.log| == s.generation * Size(s) + s.count
    && forall i :: 0 <= i < |s.log| ==>
         && s.log[i].gen == i / Size(s)
         && s.log[i].leader == (i % Size(s) == Size(s) - 1)
  }

  predicate Waiting(p: Pc) {
    p.Checking? || p.SeqLoad? || p.WaitUnlock? || p.WaitLoad? || p.WaitCall? || p.Asleep? || p.Relocking?
  }

  ghost function Blocked(s: State): set<Tid> {
    set t | t in s.pc && Waiting(s.pc[t]) && s.pc[t].gen == s.generation
  }

  predicate Notifying(s: State) {
    s.lock.Some? && s.lock.value in s.pc && (s.pc[s.lock.value].Bumping? || s.pc[s.lock.value].Waking?)
  }

  predicate BumpPending(s: State) {
    s.lock.Some? && s.lock.value in s.pc && s.pc[s.lock.value].Bumping?
  }

  ghost predicate PcInv(s: State, p: Pc) {
    && (Waiting(p) ==> p.gen <= s.generation)
    && (p.SeqLoad? || p.WaitUnlock? ==> p.gen == s.generation)
    && (p.Bumping? || p.Waking? || p.Leaving? ==> p.gen < s.generation)
    && (p.WaitUnlock? || p.WaitLoad? || p.WaitCall? || p.Asleep? ==>
          p.seen <= s.bumps && (p.gen < s.generation ==> p.seen < s.bumps || BumpPending(s)))
    && (p.Asleep? && p.gen < s.generation ==> Notifying(s))
  }

  ghost predicate WaitInv(s: State) {
    forall t :: t in s.pc ==> PcInv(s, s.pc[t])
  }

  /** A call that waits, leads or leaves is in the history with the generation and the role it
      has: what it returns is what the history says of it. */
  ghost predicate RoleInv(s: State) {
    forall t :: t in s.pc ==>
      var p := s.pc[t];
      && (Waiting(p) ==> Arrival(t, p.gen, false) in s.log)
      && (p.Bumping? || p.Waking? ==> Arrival(t, p.gen, true) in s.log)
      && (p.Leaving? ==> Arrival(t, p.gen, p.leader) in s.log)
  }

  /** A waiter's generation is not in the future, and that of a call on its way out is past. */
  ghost predicate GenInv(s: State) {
    forall t :: t in s.pc ==>
      var p := s.pc[t];
      && (Waiting(p) ==> p.gen <= s.generation)
      && (p.Bumping? || p.Waking? || p.Leaving? ==> p.gen < s.generation)
  }

  /** What holds whether or not a counter has wrapped. */
  ghost predicate CoreInv(s: State) {
    LockInv(s) && LogInv(s) && RoleInv(s) && GenInv(s) && |Blocked(s)| == s.count
  }

  ghost predicate Inv(s: State) {
    CoreInv(s) && WaitInv(s)
  }

  lemma LockStep(s: State, e: Event)
    requires LockInv(s) && Enabled(s, e)
    ensures LockInv(Apply(s, e))
  {
  }

  lemma LogStep(s: State, e: Event)
    requires LogInv(s) && Enabled(s, e)
    ensures LogInv(Apply(s, e))
  {
    if e.Arrive? {
      LogArrive(s, e.t);
    } else {
      LogKept(s, e);
    }
  }

  lemma LogKept(s: State, e: Event)
    requires LogInv(s) && Enabled(s, e) && !e.Arrive?
    ensures LogInv(Apply(s, e))
  {
    var s' := Apply(s, e);
    assert s'.log == s.log && s'.count == s.count && s'.generation == s.generation && s'.n == s.n;
  }

  lemma LogArrive(s: State, t: Tid)
    requires LogInv(s) && Enabled(s, Arrive(t))
    ensures LogInv(Apply(s, Arrive(t)))
  {
    var i, m := |s.log|, Size(s);
    DivMod(s.generation, s.count, m);
    assert i / m == s.generation && i % m == s.count;
    assert (s.generation + 1) * m == s.generation * m + m;
  }

  lemma WaitStep(s: State, e: Event)
    requires LockInv(s) && WaitInv(s) && Enabled(s, e) && NoWrap(s)
    ensures WaitInv(Apply(s, e))
  {
    var s', p := Apply(s, e), s.pc[e.t];
    if p.Checking? && p.gen % USIZE == s.generation % USIZE { SameResidue(p.gen, s.generation, USIZE); }
    if (p.WaitLoad? || p.WaitCall?) && SameSeq(s.bumps, p.seen) { SameResidue(p.seen, s.bumps, WORD); }
    forall u | u in s'.pc
      ensures PcInv(s', s'.pc[u])
    {
      assert PcInv(s, s.pc[u]);
    }
  }

  lemma RoleStep(s: State, e: Event)
    requires RoleInv(s) && Enabled(s, e)
    ensures RoleInv(Apply(s, e))
  {
    var s' := Apply(s, e);
    assert forall a :: a in s.log ==> a in s'.log;
    assert e.Arrive? ==> s'.log[|s.log|] in s'.log;
  }

  lemma BlockedKept(s: State, e: Event)
    requires Enabled(s, e) && !e.Arrive?
    ensures Blocked(Apply(s, e)) == Blocked(s) && Apply(s, e).count == s.count
  {
    var s' := Apply(s, e);
    assert s'.generation == s.generation && s'.pc.Keys == s.pc.Keys;
    forall u | u in s.pc
      ensures u in Blocked(s') <==> u in Blocked(s)
    {
    }
  }

  lemma BlockedArrive(s: State, t: Tid)
    requires GenInv(s) && Enabled(s, Arrive(t))
    ensures var s' := Apply(s, Arrive(t));
            Blocked(s') == if s.count + 1 < s.n then Blocked(s) + {t} else {}
  {
  }

  lemma BlockedStep(s: State, e: Event)
    requires GenInv(s) && Enabled(s, e) && |Blocked(s)| == s.count
    ensures |Blocked(Apply(s, e))| == Apply(s, e).count
  {
    if e.Arrive? {
      BlockedArrive(s, e.t);
      assert e.t !in Blocked(s);
    } else {
      BlockedKept(s, e);
    }
  }

  lemma GenStep(s: State, e: Event)
    requires GenInv(s) && Enabled(s, e)
    ensures GenInv(Apply(s, e))
  {
  }

  lemma CoreStep(s: State, e: Event)
    requires CoreInv(s) && Enabled(s, e)
    ensures CoreInv(Apply(s, e)) && Apply(s, e).n == s.n
  {
    hide LockInv, LogInv, RoleInv, GenInv, Enabled, Blocked;
    LockStep(s, e);
    LogStep(s, e);
    RoleStep(s, e);
    GenStep(s, e);
    BlockedStep(s, e);
  }

  lemma {:induction false} CoreRun(s: State, run: seq<Event>)
    requires CoreInv(s) && Legal(s, run)
    ensures CoreInv(Final(s, run)) && Final(s, run).n == s.n
    decreases |run|
  {
    hide CoreInv, Enabled, Apply;
    if run != [] {
      CoreStep(s, run[0]);
      CoreRun(Apply(s, run[0]), run[1..]);
    }
  }

  lemma InvStep(s: State, e: Event)
    requires Inv(s) && Enabled(s, e) && NoWrap(s)
    ensures Inv(Apply(s, e))
  {
    hide LockInv, LogInv, WaitInv, RoleInv, GenInv, NoWrap, Apply, Enabled, Blocked;
    CoreStep(s, e);
    WaitStep(s, e);
  }

  lemma {:induction false} InvRun(s: State, run: seq<Event>)
    requires Inv(s) && Legal(s, run) && Bounded(s, run)
    ensures Inv(Final(s, run))
    decreases |run|
  {
    hide Inv, Enabled, Apply, NoWrap;
    if run != [] {
      InvStep(s, run[0]);
      InvRun(Apply(s, run[0]), run[1..]);
    }
  }

  lemma InitInv(s: State)
    requires Init(s)
    ensures Inv(s)
  {
    assert Blocked(s) == {};
  }

  /** The barrier claim over every run: arrivals come in blocks of n with exactly one leader, the
      last; `count` stays below n and is the number of calls waiting for the current generation;
      a call of generation g leaves only after all n arrivals of g, and returns that it led exactly
      if the history says so. And while no wait wraps, a sleeper of a finished generation has a
      `notify_all` still in progress. */
  lemma {:induction false} Safety(s: State, run: seq<Event>)
    requires Init(s) && Legal(s, run)
    ensures var f := Final(s, run);
            && LogInv(f) && |Blocked(f)| == f.count
            && (forall t :: t in f.pc && f.pc[t].Leaving? ==>
                  (f.pc[t].gen + 1) * Size(f) <= |f.log| && Arrival(t, f.pc[t].gen, f.pc[t].leader) in f.log)
            && (Bounded(s, run) ==> forall t :: Overslept(f, t) ==> Notifying(f))
  {
    InitInv(s);
    CoreRun(s, run);
    var f := Final(s, run);
    forall t | t in f.pc && f.pc[t].Leaving?
      ensures (f.pc[t].gen + 1) * Size(f) <= |f.log|
    {
      MulMono(f.pc[t].gen + 1, f.generation, Size(f));
    }
    if Bounded(s, run) {
      InvRun(s, run);
      assert forall t :: t in f.pc ==> PcInv(f, f.pc[t]);
    }
  }

  /** The call sleeps although its generation is finished. */
  predicate Overslept(s: State, t: Tid) {
    t in s.pc && s.pc[t].Asleep? && s.pc[t].gen < s.generation
  }

  /** Once nothing moves any more, the sleepers are exactly the `count < n` arrivals of the
      current, incomplete generation. */
  lemma {:induction false} OnlyIncompleteGenerationSleeps(s: State, run: seq<Event>)
    requires Init(s) && Legal(s, run) && Bounded(s, run)
    requires forall t :: t in Final(s, run).pc ==> Final(s, run).pc[t].Idle? || Final(s, run).pc[t].Asleep?
    ensures var f := Final(s, run);
            var sleepers := set t | t in f.pc && f.pc[t].Asleep?;
            && (forall t :: t in sleepers ==> f.pc[t].gen == f.generation)
            && |sleepers| == f.count < Size(f)
  {
    InitInv(s);
    InvRun(s, run);
    var f := Final(s, run);
    assert !Notifying(f);
    assert forall t :: t in f.pc ==> PcInv(f, f.pc[t]);
    assert (set t | t in f.pc && f.pc[t].Asleep?) == Blocked(f);
  }

  // ---- what each call returns ----

  /** A call is back: its thread was inside and is idle again. */
  predicate Returns(s: State, e: Event)
    requires Enabled(s, e)
  {
    !s.pc[e.t].Idle? && e.t in Apply(s, e).pc && Apply(s, e).pc[e.t].Idle?
  }

  /** The return of one step, with the generation and the result the call had decided on. */
  function ReturnedNow(s: State, e: Event): seq<Arrival>
    requires Enabled(s, e)
  {
    if Returns(s, e) && s.pc[e.t].Leaving? then [Arrival(e.t, s.pc[e.t].gen, s.pc[e.t].leader)] else []
  }

  /** The returns of a run, in order. */
  function Returned(s: State, run: seq<Event>): seq<Arrival>
    requires Legal(s, run)
    decreases |run|
  {
    if run == [] then [] else ReturnedNow(s, run[0]) + Returned(Apply(s, run[0]), run[1..])
  }

  /** The calls to `wait` of a run. */
  function Called(s: State, run: seq<Event>): seq<Tid>
    requires Legal(s, run)
    decreases |run|
  {
    if run == [] then []
    else (if run[0].Call? then [run[0].t] else []) + Called(Apply(s, run[0]), run[1..])
  }

  /** The passages of one thread. */
  function Of(log: seq<Arrival>, t: Tid): seq<Arrival> {
    if log == [] then [] else (if log[0].t == t then [log[0]] else []) + Of(log[1..], t)
  }

  lemma {:induction false} OfAppend(a: seq<Arrival>, b: seq<Arrival>, t: Tid)
    ensures Of(a + b, t) == Of(a, t) + Of(b, t)
  {
    if a == [] {
      assert a + b == b;
    } else {
      assert (a + b)[1..] == a[1..] + b;
      OfAppend(a[1..], b, t);
    }
  }

  /** The passage of the call in progress, once it has arrived. */
  function Pending(t: Tid, p: Pc): seq<Arrival> {
    if Waiting(p) then [Arrival(t, p.gen, false)]
    else if p.Bumping? || p.Waking? then [Arrival(t, p.gen, true)]
    else if p.Leaving? then [Arrival(t, p.gen, p.leader)]
    else []
  }

  function Inside(p: Pc): nat {
    if p.Idle? then 0 else 1
  }

  lemma OtherCall(s: State, e: Event, t: Tid)
    requires Enabled(s, e) && t in s.pc && e.t != t
    ensures var s' := Apply(s, e);
            t in s'.pc && Pending(t, s'.pc[t]) == Pending(t, s.pc[t]) && Inside(s'.pc[t]) == Inside(s.pc[t])
  {
  }

  /** A call enters the history when it arrives, with the role it will report, and is back only with
      a result. */
  lemma OwnCall(s: State, e: Event)
    requires Enabled(s, e)
    ensures var s', t := Apply(s, e), e.t;
            && t in s'.pc && (Returns(s, e) ==> s.pc[t].Leaving?)
            && Inside(s.pc[t]) + (if e.Call? then 1 else 0) == Inside(s'.pc[t]) + (if Returns(s, e) then 1 else 0)
            && (if e.Arrive? then
                  Pending(t, s.pc[t]) == [] && |Pending(t, s'.pc[t])| == 1 && s'.log == s.log + Pending(t, s'.pc[t])
                else
                  s'.log == s.log && Pending(t, s'.pc[t]) == if Returns(s, e) then [] else Pending(t, s.pc[t]))
  {
    if e.Arrive? || e.WakeAll? || e.Bump? {
    } else if e.Check? || e.Unlock? || e.Acquire? {
    }
  }

  /** One step, seen from one thread: what it adds to the history of arrivals is what it adds to the
      returns, up to the passage in progress. */
  lemma StepOf(s: State, e: Event, t: Tid)
    requires Enabled(s, e) && t in s.pc
    ensures var s', mine := Apply(s, e), Returns(s, e) && e.t == t;
            && t in s'.pc && s.log <= s'.log
            && Pending(t, s.pc[t]) + Of(s'.log[|s.log|..], t) ==
               (if mine then Pending(t, s.pc[t]) else []) + Pending(t, s'.pc[t])
            && Inside(s.pc[t]) + (if e.Call? && e.t == t then 1 else 0) ==
               Inside(s'.pc[t]) + (if mine then 1 else 0)
  {
    OwnCall(s, e);
    if e.t != t { OtherCall(s, e, t); }
    hide Apply, Enabled, Pending, Inside;
    var s' := Apply(s, e);
    if e.Arrive? {
      var last := Pending(e.t, s'.pc[e.t])[0];
      assert s'.log[|s.log|..] == [last];
      ArrivesAs(e.t, s'.pc[e.t]);
      assert Of([last], t) == if e.t == t then [last] else [];
    } else {
      assert s'.log[|s.log|..] == [];
    }
  }

  lemma ArrivesAs(t: Tid, p: Pc)
    ensures |Pending(t, p)| == 1 ==> Pending(t, p)[0].t == t
  {
  }

  lemma Chained<T>(p0: seq<T>, n1: seq<T>, n2: seq<T>, now: seq<T>, p1: seq<T>, later: seq<T>, p2: seq<T>)
    requires p0 + n1 == now + p1 && p1 + n2 == later + p2
    ensures p0 + (n1 + n2) == (now + later) + p2
  {
    Associate(p0, n1, n2);
    Associate(now, p1, n2);
    Associate(now, later, p2);
  }

  lemma ReturnedOf(s: State, e: Event, t: Tid)
    requires Enabled(s, e) && t in s.pc
    ensures Of(ReturnedNow(s, e), t) == if Returns(s, e) && e.t == t then Pending(t, s.pc[t]) else []
    ensures |Of(ReturnedNow(s, e), t)| == if Returns(s, e) && e.t == t then 1 else 0
  {
    OwnCall(s, e);
    hide Apply, Enabled;
    var now := ReturnedNow(s, e);
    assert now != [] ==> now[1..] == [];
  }

  lemma {:induction false} PassageRun(s: State, run: seq<Event>, t: Tid)
    requires Legal(s, run) && t in s.pc
    ensures var f := Final(s, run);
            && t in f.pc && s.log <= f.log
            && Pending(t, s.pc[t]) + Of(f.log[|s.log|..], t) == Of(Returned(s, run), t) + Pending(t, f.pc[t])
    decreases |run|
  {
    if run != [] {
      var e := run[0];
      hide Apply, Enabled, Pending, Inside, Returns, Of, ReturnedNow;
      var s', f := Apply(s, e), Final(s, run);
      StepOf(s, e, t);
      ReturnedOf(s, e, t);
      PassageRun(s', run[1..], t);
      var now, later := ReturnedNow(s, e), Returned(s', run[1..]);
      var new1, new2 := s'.log[|s.log|..], f.log[|s'.log|..];
      assert f.log[|s.log|..] == new1 + new2;
      OfAppend(new1, new2, t);
      OfAppend(now, later, t);
      Chained(Pending(t, s.pc[t]), Of(new1, t), Of(new2, t), Of(now, t), Pending(t, s'.pc[t]), Of(later, t),
              Pending(t, f.pc[t]));
    } else {
      assert s.log[|s.log|..] == [];
    }
  }

  lemma {:induction false} CallRun(s: State, run: seq<Event>, t: Tid)
    requires Legal(s, run) && t in s.pc
    ensures t in Final(s, run).pc
    ensures Inside(s.pc[t]) + multiset(Called(s, run))[t] == |Of(Returned(s, run), t)| + Inside(Final(s, run).pc[t])
    decreases |run|
  {
    if run != [] {
      var e := run[0];
      hide Apply, Enabled, Pending, Inside, Returns, Of, ReturnedNow;
      var s' := Apply(s, e);
      StepOf(s, e, t);
      ReturnedOf(s, e, t);
      CallRun(s', run[1..], t);
      OfAppend(ReturnedNow(s, e), Returned(s', run[1..]), t);
      assert multiset(Called(s, run)) == multiset(if e.Call? then [e.t] else []) + multiset(Called(s', run[1..]));
    }
  }

  /** What every call answers, over every run: the returns of a thread, in order, are its passages
      through the history of arrivals, each with its generation and its result, short only of the
      passage in progress; and every call but the one in progress has returned once. */
  lemma EachCallReturnsItsPassage(s: State, run: seq<Event>, t: Tid)
    requires Init(s) && Legal(s, run) && t in s.pc
    ensures var f, returned := Final(s, run), Of(Returned(s, run), t);
            && t in f.pc && Of(f.log, t) == returned + Pending(t, f.pc[t])
            && multiset(Called(s, run))[t] == |returned| + Inside(f.pc[t])
  {
    PassageRun(s, run, t);
    CallRun(s, run, t);
    assert Final(s, run).log[0..] == Final(s, run).log;
  }

  /** Nobody is ever kept from a step, except by the lock. */
  lemma NothingBlocks(s: State, t: Tid)
    requires t in s.pc
    ensures s.pc[t].Idle? ==> Enabled(s, Call(t))
    ensures s.pc[t].Asleep? ==> Enabled(s, Spurious(t))
    ensures (s.pc[t].Locking? || s.pc[t].Relocking? ==> s.lock.None?) ==> exists e :: Enabled(s, e) && e.t == t
  {
    var e := match s.pc[t] {
      case Idle => Call(t)
      case Locking => Event.Acquire(t)
      case Entered => Arrive(t)
      case Checking(_) => Check(t)
      case SeqLoad(_) => LoadSeq(t)
      case WaitUnlock(_, _) => Unlock(t)
      case WaitLoad(_, _) => WordLoad(t)
      case WaitCall(_, _) => FutexWait(t)
      case Asleep(_, _) => Spurious(t)
      case Relocking(_) => Event.Acquire(t)
      case Bumping(_) => Bump(t)
      case Waking(_) => WakeAll(t)
      case Leaving(_, _) => Unlock(t)
    };
    assert Enabled(s, e) || (e.Acquire? && s.lock.Some?);
  }

  predicate InWait(p: Pc) {
    p.WaitLoad? || p.WaitCall? || p.Asleep?
  }

  /** A call leaves the futex only when it loads a 32-bit `seq` that has changed, and at the `while`
      test the loop exactly if the 64-bit generation has. */
  lemma WaitBounds(s: State, e: Event, u: Tid)
    requires Enabled(s, e) && u in s.pc && Waiting(s.pc[u])
    ensures var p, s' := s.pc[u], Apply(s, e);
            && u in s'.pc
            && (InWait(p) && !InWait(s'.pc[u]) ==>
                  e == WordLoad(u) && s.bumps % 0x1_0000_0000 != p.seen % 0x1_0000_0000)
            && (!Waiting(s'.pc[u]) ==> e == Check(u))
            && (e == Check(u) ==>
                  (Waiting(s'.pc[u]) <==>
                   p.gen % 0x1_0000_0000_0000_0000 == s.generation % 0x1_0000_0000_0000_0000))
  {
  }

  // ---- finished generations return ----

  /** Steps left before a call has returned, or waits for generation `g`. */
  function Weight(g: nat, p: Pc): nat {
    match p
    case Idle => 0
    case Leaving(_, _) => 1
    case Checking(gen) => if gen == g then 15 else 2
    case Waking(_) => 3
    case Bumping(_) => 4
    case Relocking(_) => 10
    case WaitLoad(_, _) => 11
    case WaitCall(_, _) => 12
    case Asleep(_, _) => 12
    case WaitUnlock(_, _) => 13
    case SeqLoad(_) => 14
    case Entered => 16
    case Locking => 17
  }

  ghost function Weights(s: State): map<Tid, nat> {
    map t | t in s.pc :: Weight(s.generation, s.pc[t])
  }

  ghost function Left(s: State): nat {
    Total(Weights(s), Id)
  }

  /** Every call has returned or waits, without the lock, for the current generation. */
  ghost predicate Settled(s: State) {
    forall t :: t in s.pc ==> s.pc[t].Idle? || (Waiting(s.pc[t]) && !HoldsLock(s.pc[t]) && s.pc[t].gen == s.generation)
  }

  /** No waiter would wrap through `n` more notifies and generations. */
  ghost predicate Room(s: State, n: nat) {
    && n < WORD
    && forall t :: t in s.pc ==>
         var p := s.pc[t];
         && (Waiting(p) ==> s.generation + n < p.gen + USIZE)
         && (p.WaitUnlock? || p.WaitLoad? || p.WaitCall? || p.Asleep? ==> s.bumps + n < p.seen + WORD)
  }

  predicate NewCallOrSpurious(e: Event) {
    e.Call? || e.Spurious?
  }

  lemma RoomStep(s: State, e: Event, n: nat, n': nat)
    requires Room(s, n) && Enabled(s, e) && n' < n
    ensures Room(Apply(s, e), n')
  {
  }

  lemma LeftBound(s: State)
    requires Room(s, Left(s))
    ensures Left(s) <= |s.pc| * 17 && NoWrap(s)
  {
    assert Weights(s).Keys == s.pc.Keys;
    TotalBound(Weights(s), Id, 17);
  }

  /** The step of whoever holds the lock. */
  function HolderStep(t: Tid, p: Pc): Event
    requires HoldsLock(p)
  {
    match p
    case Entered => Arrive(t)
    case Checking(_) => Check(t)
    case SeqLoad(_) => LoadSeq(t)
    case Bumping(_) => Bump(t)
    case Waking(_) => WakeAll(t)
    case _ => Unlock(t)
  }

  lemma HolderLighter(s: State, t: Tid)
    requires LockInv(s) && WaitInv(s) && NoWrap(s) && s.lock == Some(t)
    ensures t in s.pc && HoldsLock(s.pc[t])
    ensures var e := HolderStep(t, s.pc[t]);
            && Enabled(s, e) && e.t == t
            && var s' := Apply(s, e);
               s'.pc.Keys == s.pc.Keys && Weight(s'.generation, s'.pc[t]) < Weight(s.generation, s.pc[t])
  {
    var p := s.pc[t];
    assert PcInv(s, p);
    if p.Checking? && p.gen % USIZE == s.generation % USIZE { SameResidue(p.gen, s.generation, USIZE); }
  }

  lemma OthersNoHeavier(s: State, e: Event, u: Tid)
    requires LockInv(s) && Enabled(s, e) && s.lock == Some(e.t) && !NewCallOrSpurious(e) && u in s.pc && u != e.t
    ensures var s' := Apply(s, e); Weight(s'.generation, s'.pc[u]) <= Weight(s.generation, s.pc[u])
  {
    assert !HoldsLock(s.pc[u]);
  }

  lemma HolderProgress(s: State, t: Tid)
    requires Inv(s) && NoWrap(s) && s.lock == Some(t)
    ensures t in s.pc && HoldsLock(s.pc[t])
    ensures var e := HolderStep(t, s.pc[t]); Enabled(s, e) && Lightens(s, e)
  {
    hide LockInv, WaitInv, RoleInv, LogInv, NoWrap, Apply, Enabled, Weight;
    HolderLighter(s, t);
    var e := HolderStep(t, s.pc[t]);
    forall u | u in s.pc && u != t
      ensures var s' := Apply(s, e); Weight(s'.generation, s'.pc[u]) <= Weight(s.generation, s.pc[u])
    {
      OthersNoHeavier(s, e, u);
    }
  }

  /** The step lowers the stepping call's weight and raises nobody's. */
  ghost predicate Lightens(s: State, e: Event)
    requires Enabled(s, e)
  {
    var s' := Apply(s, e);
    && Weight(s'.generation, s'.pc[e.t]) < Weight(s.generation, s.pc[e.t])
    && forall u :: u in s.pc ==> Weight(s'.generation, s'.pc[u]) <= Weight(s.generation, s.pc[u])
  }

  /** With the lock free, a call that is not settled has a step of its own. */
  lemma FreeProgress(s: State, t: Tid) returns (e: Event)
    requires Inv(s) && NoWrap(s) && s.lock.None? && t in s.pc && !s.pc[t].Idle?
    requires !(Waiting(s.pc[t]) && s.pc[t].gen == s.generation)
    ensures Enabled(s, e) && Lightens(s, e) && !NewCallOrSpurious(e)
  {
    var p := s.pc[t];
    assert PcInv(s, p);
    e := if p.WaitLoad? then WordLoad(t) else if p.WaitCall? then FutexWait(t) else Event.Acquire(t);
    if (p.WaitLoad? || p.WaitCall?) && SameSeq(s.bumps, p.seen) { SameResidue(p.seen, s.bumps, WORD); }
  }

  lemma LighterTotal(s: State, e: Event)
    requires Enabled(s, e) && Lightens(s, e)
    ensures Left(Apply(s, e)) < Left(s)
  {
    TotalDrop(Weights(s), Weights(Apply(s, e)), e.t, Id);
  }

  lemma Progress(s: State) returns (e: Event)
    requires Inv(s) && NoWrap(s) && !Settled(s)
    ensures Enabled(s, e) && !NewCallOrSpurious(e) && Left(Apply(s, e)) < Left(s)
  {
    if s.lock.Some? {
      HolderProgress(s, s.lock.value);
      e := HolderStep(s.lock.value, s.pc[s.lock.value]);
    } else {
      var t :| t in s.pc && !s.pc[t].Idle? &&
               !(Waiting(s.pc[t]) && !HoldsLock(s.pc[t]) && s.pc[t].gen == s.generation);
      e := FreeProgress(s, t);
    }
    LighterTotal(s, e);
  }

  /** From every reachable state there is a continuation of at most 17 steps per call, with no
      new calls, after which every call has returned except those that wait for a generation
      still incomplete. */
  lemma {:induction false} Drain(s: State) returns (run: seq<Event>)
    requires Inv(s) && Room(s, Left(s))
    ensures Legal(s, run) && Bounded(s, run) && Inv(Final(s, run)) && Settled(Final(s, run))
    ensures |run| <= Left(s) <= |s.pc| * 17
    ensures forall i :: 0 <= i < |run| ==> !NewCallOrSpurious(run[i])
    decreases Left(s)
  {
    hide Inv, Enabled, Apply, Settled, NoWrap, Room, NewCallOrSpurious, Left;
    LeftBound(s);
    if Settled(s) {
      run := [];
    } else {
      var e := Progress(s);
      InvStep(s, e);
      RoomStep(s, e, Left(s), Left(Apply(s, e)));
      var rest := Drain(Apply(s, e));
      run := [e] + rest;
      assert run[1..] == rest;
    }
  }

  // ---- no livelock: without new calls every schedule comes to an end ----

  /** 1 for a call that has still to arrive. */
  function ToArrive(p: Pc): nat {
    if p.Locking? || p.Entered? then 1 else 0
  }

  /** Steps a call can take before the next arrival. The two steps of a `notify_all` among `n` calls
      pay for what the others then do. */
  function Local(bumps: nat, n: nat, p: Pc): nat {
    match p
    case Idle => 0
    case Asleep(_, _) => 0
    case Entered => 1
    case Locking => 2
    case Leaving(_, _) => 1
    case WaitCall(_, seen) => if SameSeq(bumps, seen) then 1 else 8
    case WaitLoad(_, seen) => if SameSeq(bumps, seen) then 2 else 7
    case WaitUnlock(_, seen) => if SameSeq(bumps, seen) then 3 else 8
    case SeqLoad(_) => 4
    case Checking(_) => 5
    case Relocking(_) => 6
    case Waking(_) => 7 * n + 9
    case Bumping(_) => 14 * n + 17
  }

  ghost function Locals(s: State): map<Tid, nat> {
    map t | t in s.pc :: Local(s.bumps, |s.pc|, s.pc[t])
  }

  ghost function ArrivalsLeft(s: State): nat {
    Total(s.pc, ToArrive)
  }

  ghost function Phase(n: nat): nat {
    n * (14 * n + 17) + 1
  }

  ghost function Measure(s: State): nat {
    ArrivalsLeft(s) * Phase(|s.pc|) + Total(Locals(s), Id)
  }

  lemma LocalsBound(s: State)
    ensures Total(Locals(s), Id) < Phase(|s.pc|)
  {
    assert Locals(s).Keys == s.pc.Keys;
    TotalBound(Locals(s), Id, 14 * |s.pc| + 17);
  }

  lemma LocalShrinks(s: State, s': State)
    requires s'.pc.Keys == s.pc.Keys && ArrivalsLeft(s') == ArrivalsLeft(s)
    requires Total(Locals(s'), Id) < Total(Locals(s), Id)
    ensures Measure(s') < Measure(s)
  {
    hide Phase;
    assert |s'.pc| == |s.pc|;
  }

  lemma FewerArrivals(s: State, s': State)
    requires s'.pc.Keys == s.pc.Keys && ArrivalsLeft(s') < ArrivalsLeft(s)
    ensures Measure(s') < Measure(s)
  {
    hide Phase, ArrivalsLeft, Locals;
    assert |s'.pc| == |s.pc|;
    LocalsBound(s');
    MulSucc(ArrivalsLeft(s'), Phase(|s.pc|));
    MulMono(ArrivalsLeft(s') + 1, ArrivalsLeft(s), Phase(|s.pc|));
  }

  lemma ArriveShrinks(s: State, t: Tid)
    requires Enabled(s, Arrive(t))
    ensures Measure(Apply(s, Arrive(t))) < Measure(s)
  {
    hide Measure, Total;
    var s' := Apply(s, Arrive(t));
    TotalUpdate(s.pc, t, s'.pc[t], ToArrive);
    FewerArrivals(s, s');
  }

  lemma ArrivalsKept(s: State, e: Event)
    requires Enabled(s, e) && !NewCallOrSpurious(e) && !e.Arrive?
    ensures var s' := Apply(s, e);
            && s'.pc.Keys == s.pc.Keys && |s'.pc| == |s.pc|
            && ArrivalsLeft(s') == ArrivalsLeft(s)
  {
    var s' := Apply(s, e);
    TotalSame(s.pc, s'.pc, ToArrive);
    assert s'.pc.Keys == s.pc.Keys;
  }

  /** A notify raises nobody by more than seven, and pays for all. */
  lemma NotifyLocal(s: State, e: Event, u: Tid)
    requires Enabled(s, e) && (e.Bump? || e.WakeAll?) && u in s.pc
    ensures var s', n := Apply(s, e), |s.pc|;
            && u in s'.pc
            && (u != e.t ==> Local(s'.bumps, n, s'.pc[u]) <= Local(s.bumps, n, s.pc[u]) + 7)
            && (u == e.t ==> Local(s'.bumps, n, s'.pc[u]) + 7 * n < Local(s.bumps, n, s.pc[u]))
  {
  }

  lemma NotifyShrinks(s: State, e: Event)
    requires Enabled(s, e) && (e.Bump? || e.WakeAll?)
    ensures Measure(Apply(s, e)) < Measure(s)
  {
    ArrivalsKept(s, e);
    NotifyLocal(s, e, e.t);
    hide *;
    var s', n := Apply(s, e), |s.pc|;
    var before, after := Locals(s), Locals(s');
    LocalsAre(s);
    LocalsAre(s');
    var paid := before[e.t := after[e.t]];
    assert |paid| == n by { assert paid.Keys == s.pc.Keys; }
    forall u | u in s.pc
      ensures after[u] <= paid[u] + 7
    {
      NotifyLocal(s, e, u);
    }
    TotalUpdate(before, e.t, after[e.t], Id);
    TotalRaise(paid, after, 7);
    IdIs(before[e.t]);
    IdIs(after[e.t]);
    LocalShrinks(s, s');
  }

  lemma LocalsAre(s: State)
    ensures Locals(s).Keys == s.pc.Keys
    ensures forall u :: u in s.pc ==> Locals(s)[u] == Local(s.bumps, |s.pc|, s.pc[u])
  {
  }

  lemma IdIs(n: nat)
    ensures Id(n) == n
  {
  }

  /** Any other step is one of the stepping call's own. */
  lemma OwnStepShrinks(s: State, e: Event)
    requires Enabled(s, e) && !NewCallOrSpurious(e) && !e.Arrive? && !e.Bump? && !e.WakeAll?
    ensures Measure(Apply(s, e)) < Measure(s)
  {
    OwnStepLocal(s, e);
    ArrivalsKept(s, e);
    hide *;
    var s', x := Apply(s, e), Local(s.bumps, |s.pc|, Apply(s, e).pc[e.t]);
    LocalsAre(s);
    LocalsAre(s');
    TotalUpdate(Locals(s), e.t, x, Id);
    assert Locals(s') == Locals(s)[e.t := x];
    IdIs(x);
    IdIs(Locals(s)[e.t]);
    LocalShrinks(s, s');
  }

  lemma OwnStepLocal(s: State, e: Event)
    requires Enabled(s, e) && !NewCallOrSpurious(e) && !e.Arrive? && !e.Bump? && !e.WakeAll?
    ensures var s', n := Apply(s, e), |s.pc|;
            && e.t in s'.pc && s'.pc == s.pc[e.t := s'.pc[e.t]] && s'.bumps == s.bumps
            && Local(s.bumps, n, s'.pc[e.t]) < Local(s.bumps, n, s.pc[e.t])
  {
  }

  lemma {:induction false} RunShrinks(s: State, run: seq<Event>)
    requires Legal(s, run) && forall i :: 0 <= i < |run| ==> !NewCallOrSpurious(run[i])
    ensures |run| + Measure(Final(s, run)) <= Measure(s)
    decreases |run|
  {
    hide Measure, Enabled, Apply;
    if run != [] {
      var e := run[0];
      if e.Arrive? {
        ArriveShrinks(s, e.t);
      } else if e.Bump? || e.WakeAll? {
        NotifyShrinks(s, e);
      } else {
        OwnStepShrinks(s, e);
      }
      RunShrinks(Apply(s, e), run[1..]);
    }
  }

  lemma MeasureBound(s: State)
    ensures Measure(s) < (|s.pc| + 1) * Phase(|s.pc|)
  {
    hide Phase;
    LocalsBound(s);
    TotalBound(s.pc, ToArrive, 1);
    MulMono(ArrivalsLeft(s) + 1, |s.pc| + 1, Phase(|s.pc|));
    MulSucc(ArrivalsLeft(s), Phase(|s.pc|));
  }

  /** Every schedule ends: a run without new calls and spurious returns has at most as many steps as
      a cubic bound in the number of calls, and where it cannot go on, only calls that wait for an
      incomplete generation have not returned. */
  lemma {:induction false} EveryScheduleEnds(s: State, run: seq<Event>)
    requires Inv(s) && Legal(s, run) && forall i :: 0 <= i < |run| ==> !NewCallOrSpurious(run[i])
    ensures |run| < (|s.pc| + 1) * Phase(|s.pc|)
    ensures Bounded(s, run) && (forall e :: Enabled(Final(s, run), e) ==> NewCallOrSpurious(e)) ==>
              Settled(Final(s, run))
  {
    hide Inv, NoWrap, Apply, Enabled, NewCallOrSpurious;
    RunShrinks(s, run);
    MeasureBound(s);
    var f := Final(s, run);
    if Bounded(s, run) && !Settled(f) {
      InvRun(s, run);
      BoundedEnd(s, run);
      var e := Progress(f);
      assert Enabled(f, e) && !NewCallOrSpurious(e);
    }
  }

  lemma {:induction false} BoundedEnd(s: State, run: seq<Event>)
    requires Legal(s, run) && Bounded(s, run)
    ensures NoWrap(Final(s, run))
    decreases |run|
  {
    hide Apply, Enabled, NoWrap;
    if run != [] {
      BoundedEnd(Apply(s, run[0]), run[1..]);
    }
  }
}
