/** The channel gets things done: from every reachable state the calls already made can finish,
    and a blocked `recv` is stuck for good exactly when it missed the last sender's notify. */
module MpscProgress {
  import opened Threads
  import opened Wrappers
  import opened Condvar
  import opened Arithmetic
  import opened Mpsc

  ghost predicate AllFinished<T(!new)>(s: State<T>) {
    forall t :: t in s.pc ==> Finished(s.pc[t])
  }

  predicate InRecv<T>(p: RxPc<T>) {
    !p.RxIdle? && !p.RxGone?
  }

  /** Every call has returned, and the receiver is not in a call or sleeps in it. */
  ghost predicate Settled<T(!new)>(s: State<T>) {
    AllFinished(s) && (!InRecv(s.rx) || s.rx.RxAsleep?)
  }

  // ---- the receiver ----

  /** Receiver steps left when nobody else moves; a stale `seq` costs one more turn of the loop. */
  function RxWeight<T>(p: RxPc<T>, bumps: nat): nat {
    match p
    case RxIdle => 0
    case RxGone => 0
    case RxAsleep(_) => 0
    case RxUnlock(_) => 1
    case RxWaitCall(seen) => if seen == bumps then 1 else 14
    case RxWaitLoad(seen) => if seen == bumps then 2 else 12
    case RxWaitUnlock(seen) => if seen == bumps then 3 else 13
    case RxSeqLoad => 4
    case RxSenders(_) => 5
    case RxPop(_) => 6
    case RxLocking(_) => 7
    case RxRelocking => 7
  }

  /** The receiver's `seq` comparison is exact while the counter has not wrapped. */
  lemma SeqIsExact<T(!new)>(s: State<T>)
    requires WaitInv(s) && NoWrap(s) && RxWaiting(s.rx)
    ensures SameSeq(s.bumps, s.rx.seen) <==> s.rx.seen == s.bumps
  {
    if SameSeq(s.bumps, s.rx.seen) {
      SameResidue(s.rx.seen, s.bumps, WORD);
    }
  }

  lemma RxLighter<T(!new)>(s: State<T>)
    requires WaitInv(s) && NoWrap(s) && Enabled(s, RxAdvance)
    ensures RxWeight(ApplyRx(s).rx, ApplyRx(s).bumps) < RxWeight(s.rx, s.bumps)
    ensures NoWrap(ApplyRx(s)) && ApplyRx(s).missed == s.missed
  {
    hide WaitInv;
    if RxWaiting(s.rx) { SeqIsExact(s); }
    RxFrame(s);
  }

  /** With every call finished the lock is the receiver's or free. */
  lemma RxEnabled<T(!new)>(s: State<T>)
    requires LockInv(s) && AllFinished(s) && !Settled(s)
    ensures Enabled(s, RxAdvance)
  {
    assert forall t :: t in s.pc ==> !CallHolds(s.pc[t]);
    assert s.lock.Some? ==> s.lock.value == Rx;
  }

  lemma RxStep<T(!new)>(s: State<T>) returns (next: State<T>)
    requires Inv(s) && NoWrap(s) && AllFinished(s) && !Settled(s)
    ensures Enabled(s, RxAdvance) && next == Apply(s, RxAdvance)
    ensures Inv(next) && NoWrap(next) && AllFinished(next) && RxWeight(next.rx, next.bumps) < RxWeight(s.rx, s.bumps)
    ensures next.handles == s.handles && next.missed == s.missed && InRecv(s.rx) && !next.rx.RxGone?
  {
    assert LockInv(s) && WaitInv(s);
    RxEnabled(s);
    RxLighter(s);
    RxFrame(s);
    InvStep(s, RxAdvance);
    next := ApplyRx(s);
  }

  /** With every call finished, at most 14 steps of the receiver alone return its call or put it
      to sleep. */
  lemma {:induction false} RxDrain<T(!new)>(s: State<T>) returns (run: seq<Event<T>>)
    requires Inv(s) && NoWrap(s) && AllFinished(s)
    ensures Legal(s, run) && Bounded(s, run) && |run| <= RxWeight(s.rx, s.bumps) <= 14
    ensures forall i :: 0 <= i < |run| ==> run[i] == RxAdvance
    ensures var f := Final(s, run); Inv(f) && Settled(f) && f.handles == s.handles && f.missed == s.missed
    ensures s.rx.RxGone? ==> Final(s, run).rx.RxGone?
    ensures InRecv(s.rx) ==> !Final(s, run).rx.RxGone?
    decreases RxWeight(s.rx, s.bumps)
  {
    assert RxWeight(s.rx, s.bumps) <= 14;
    if Settled(s) {
      run := [];
    } else {
      hide Inv, ApplyRx, NoWrap, Settled, RxWeight, Enabled;
      var next := RxStep(s);
      var rest := RxDrain(next);
      Prepend(s, RxAdvance, rest, Final(next, rest));
      run := [RxAdvance] + rest;
    }
  }

  // ---- the last sender's drop ----

  /** Some continuation, of whatever events, returns from the receiver's call. */
  ghost predicate CanReturn<T(!new)>(s: State<T>) {
    exists more :: Legal(s, more) && Final(s, more).rx.RxIdle?
  }

  /** A receiver that did not miss the last notify returns by its own steps, at most 14. */
  lemma {:induction false} RecvReturns<T(!new)>(s: State<T>, run: seq<Event<T>>) returns (more: seq<Event<T>>)
    requires Started(s, run) && Bounded(s, run)
    requires Final(s, run).handles == {} && AllFinished(Final(s, run))
    requires InRecv(Final(s, run).rx) && !Final(s, run).missed
    ensures Legal(Final(s, run), more) && Final(Final(s, run), more).rx.RxIdle?
    ensures |more| <= 14 && forall i :: 0 <= i < |more| ==> more[i] == RxAdvance
  {
    MissedRun(s, run);
    InvRun(s, run);
    var f := Final(s, run);
    BoundedEnd(s, run);
    more := RxDrain(f);
    MissedRun(f, more);
    var g := Final(f, more);
    assert !DropBumpOwed(g) && !WakeOwed(g);
  }

  lemma {:induction false} BoundedEnd<T(!new)>(s: State<T>, run: seq<Event<T>>)
    requires Legal(s, run) && Bounded(s, run)
    ensures NoWrap(Final(s, run))
    decreases |run|
  {
    if run != [] {
      BoundedEnd(Apply(s, run[0]), run[1..]);
    }
  }

  /** Once every sender is gone and every call has finished, a `recv` in progress can still return
      if and only if the last sender's notify did not fall between the receiver's load of
      `senders` and its load of `seq`. */
  lemma {:induction false} LastDropWakesIffNotMissed<T(!new)>(s: State<T>, run: seq<Event<T>>)
    requires Started(s, run) && Bounded(s, run)
    requires Final(s, run).handles == {} && AllFinished(Final(s, run)) && InRecv(Final(s, run).rx)
    ensures CanReturn(Final(s, run)) <==> !Final(s, run).missed
  {
    var f := Final(s, run);
    if f.missed {
      forall more | Legal(f, more)
        ensures !Final(f, more).rx.RxIdle?
      {
        MissedIsForever(s, run, more);
      }
    } else {
      var more := RecvReturns(s, run);
    }
  }

  // ---- everything pending ----

  /** Steps left of a call, each counted as twenty so that it pays for the turn it may cost the
      receiver. */
  function CallWeight<T>(p: CallPc<T>): nat {
    match p
    case SendStart(_, _) => 120
    case SendLocking(_, _) => 100
    case SendPush(_, _) => 80
    case SendUnlock(_, _) => 60
    case SendBump(_, _) => 40
    case SendWake(_, _) => 20
    case DropBump => 40
    case DropWake => 20
    case _ => 0
  }

  ghost function Left<T(!new)>(s: State<T>): nat {
    Total(s.pc, CallWeight) + RxWeight(s.rx, s.bumps)
  }

  /** The receiver's wait would not wrap through `n` more notifies. */
  predicate Room<T>(s: State<T>, n: nat) {
    n < WORD && (RxWaiting(s.rx) ==> s.bumps + n < s.rx.seen + WORD)
  }

  lemma CallLighter<T(!new)>(s: State<T>, t: Tid)
    requires Enabled(s, Advance(t))
    ensures Left(ApplyCall(s, t)) < Left(s)
  {
    CallFrame(s, t);
    CallEffect(s, t);
    CallPays(s, t);
    hide ApplyCall, CallWeight, RxWeight;
    var s' := ApplyCall(s, t);
    TotalUpdate(s.pc, t, s'.pc[t], CallWeight);
    RxCost(s.rx, s.bumps, s'.rx, s'.bumps);
  }

  lemma CallPays<T(!new)>(s: State<T>, t: Tid)
    requires Enabled(s, Advance(t))
    ensures t in ApplyCall(s, t).pc && CallWeight(ApplyCall(s, t).pc[t]) + 20 <= CallWeight(s.pc[t])
  {
    var p := s.pc[t];
    if p.SendStart? {
    } else if p.SendLocking? || p.SendPush? {
    } else if p.SendUnlock? || p.SendBump? {
    } else if p.SendWake? {
    }
  }

  lemma RxCost<T>(p: RxPc<T>, bumps: nat, p': RxPc<T>, bumps': nat)
    requires p' == p || (p.RxAsleep? && p' == RxWaitLoad(p.seen))
    ensures RxWeight(p', bumps') <= RxWeight(p, bumps) + 14
  {
  }

  /** Who can move while some call is unfinished: that call, or whoever holds the lock it wants. */
  lemma Progress<T(!new)>(s: State<T>, t: Tid) returns (e: Event<T>)
    requires Inv(s) && NoWrap(s) && t in s.pc && !Finished(s.pc[t])
    ensures Enabled(s, e) && (e.Advance? || e.RxAdvance?) && Left(Apply(s, e)) < Left(s)
  {
    assert LockInv(s) && WaitInv(s);
    hide Inv;
    if s.pc[t].SendLocking? && s.lock == Some(Rx) {
      e := RxAdvance;
      RxLighter(s);
      RxFrame(s);
    } else {
      e := Advance(if s.pc[t].SendLocking? && s.lock.Some? then s.lock.value.t else t);
      CallLighter(s, e.t);
    }
  }

  lemma RoomStep<T(!new)>(s: State<T>, e: Event<T>, n: nat, n': nat)
    requires Enabled(s, e) && (e.Advance? || e.RxAdvance?) && Room(s, n) && n' < n
    ensures Room(Apply(s, e), n')
  {
    hide Room;
    if e.Advance? {
      RoomCall(s, e.t, n, n');
    } else {
      RoomRx(s, n, n');
    }
  }

  lemma RoomCall<T(!new)>(s: State<T>, t: Tid, n: nat, n': nat)
    requires Enabled(s, Advance(t)) && Room(s, n) && n' < n
    ensures Room(ApplyCall(s, t), n')
  {
    CallEffect(s, t);
    assert ApplyCall(s, t).bumps <= s.bumps + 1;
    hide ApplyCall;
  }

  lemma RoomRx<T(!new)>(s: State<T>, n: nat, n': nat)
    requires Enabled(s, RxAdvance) && Room(s, n) && n' < n
    ensures Room(ApplyRx(s), n')
  {
    RxFrame(s);
    var s' := ApplyRx(s);
    assert RxWaiting(s'.rx) ==> s'.rx.seen == s.bumps || (RxWaiting(s.rx) && s'.rx.seen == s.rx.seen);
    hide ApplyRx;
  }

  /** The receiver's call has its answer, or there is one for it in the queue. */
  predicate Answerable<T>(s: State<T>) {
    s.rx.RxIdle? || s.rx.RxUnlock? || (s.queue != [] && !s.rx.RxGone?)
  }

  lemma AnswerableStep<T(!new)>(s: State<T>, e: Event<T>)
    requires ClosedInv(s) && Answerable(s) && Enabled(s, e) && (e.Advance? || e.RxAdvance?)
    ensures Answerable(Apply(s, e))
  {
    if e.Advance? {
      CallEffect(s, e.t);
    }
  }

  lemma SettledAnswer<T(!new)>(s: State<T>)
    requires Inv(s) && Settled(s)
    ensures Answerable(s) ==> s.rx.RxIdle?
    ensures s.rx.RxAsleep? ==> s.received == s.pushed
  {
    assert !BumpOwed(s) && !WakeOwed(s);
  }

  /** From every reachable state there is a continuation in which only calls already made take
      steps, after which every `send` and drop has returned; the receiver's call has returned too
      if a value was queued for it, and otherwise sleeps only with everything pushed received. */
  lemma {:induction false} Drain<T(!new)>(s: State<T>) returns (run: seq<Event<T>>)
    requires Inv(s) && Room(s, Left(s))
    ensures Legal(s, run) && Bounded(s, run) && Settled(Final(s, run))
    ensures |run| <= Left(s) <= |s.pc| * 120 + 14
    ensures forall i :: 0 <= i < |run| ==> run[i].Advance? || run[i].RxAdvance?
    ensures Answerable(s) ==> Final(s, run).rx.RxIdle?
    ensures Final(s, run).rx.RxAsleep? ==> Final(s, run).received == Final(s, run).pushed
  {
    hide *;
    LeftBound(s);
    var f;
    run, f := DrainTo(s);
  }

  lemma {:induction false} DrainTo<T(!new)>(s: State<T>) returns (run: seq<Event<T>>, f: State<T>)
    requires Inv(s) && Room(s, Left(s))
    ensures Legal(s, run) && Bounded(s, run) && f == Final(s, run) && |run| <= Left(s)
    ensures forall i :: 0 <= i < |run| ==> run[i].Advance? || run[i].RxAdvance?
    ensures Settled(f) && (Answerable(s) ==> f.rx.RxIdle?) && (f.rx.RxAsleep? ==> f.received == f.pushed)
    decreases Left(s)
  {
    hide *;
    LeftBound(s);
    if AllFinished(s) {
      run := DrainReceiver(s);
      f := Final(s, run);
    } else {
      var e, next := DrainStep(s);
      var rest;
      rest, f := DrainTo(next);
      Prepend(s, e, rest, f);
      run := [e] + rest;
    }
  }

  lemma DrainStep<T(!new)>(s: State<T>) returns (e: Event<T>, next: State<T>)
    requires Inv(s) && Room(s, Left(s)) && NoWrap(s) && !AllFinished(s)
    ensures Enabled(s, e) && (e.Advance? || e.RxAdvance?) && next == Apply(s, e)
    ensures Inv(next) && Left(next) < Left(s) && Room(next, Left(next)) && (Answerable(s) ==> Answerable(next))
  {
    var t :| t in s.pc && !Finished(s.pc[t]);
    hide CoreInv, Room, NoWrap, Finished, Apply, Left, Answerable;
    e := Progress(s, t);
    next := Apply(s, e);
    InvStep(s, e);
    RoomStep(s, e, Left(s), Left(next));
    if Answerable(s) { AnswerKept(s, e); }
  }

  lemma AnswerKept<T(!new)>(s: State<T>, e: Event<T>)
    requires CoreInv(s) && Answerable(s) && Enabled(s, e) && (e.Advance? || e.RxAdvance?)
    ensures Answerable(Apply(s, e))
  {
    AnswerableStep(s, e);
  }

  lemma LeftBound<T(!new)>(s: State<T>)
    requires Room(s, Left(s))
    ensures Left(s) <= |s.pc| * 120 + 14 && NoWrap(s) && RxWeight(s.rx, s.bumps) <= Left(s)
  {
    TotalBound(s.pc, CallWeight, 120);
  }

  lemma {:induction false} AnswerableRun<T(!new)>(s: State<T>, run: seq<Event<T>>)
    requires CoreInv(s) && Answerable(s) && Legal(s, run) && forall i :: 0 <= i < |run| ==> run[i] == RxAdvance
    ensures Answerable(Final(s, run))
    decreases |run|
  {
    hide CoreInv, Answerable, Apply;
    if run != [] {
      CoreStep(s, run[0]);
      AnswerKept(s, run[0]);
      AnswerableRun(Apply(s, run[0]), run[1..]);
    }
  }

  lemma DrainReceiver<T(!new)>(s: State<T>) returns (run: seq<Event<T>>)
    requires Inv(s) && NoWrap(s) && AllFinished(s)
    ensures Legal(s, run) && Bounded(s, run) && Settled(Final(s, run)) && |run| <= RxWeight(s.rx, s.bumps)
    ensures forall i :: 0 <= i < |run| ==> run[i] == RxAdvance
    ensures Answerable(s) ==> Final(s, run).rx.RxIdle?
    ensures Final(s, run).rx.RxAsleep? ==> Final(s, run).received == Final(s, run).pushed
  {
    hide CoreInv, NoWrap, Answerable, Settled, Legal, Final, Bounded, Enabled, RxWeight;
    run := RxDrain(s);
    if Answerable(s) { AnswerableRun(s, run); }
    SettledAnswer(Final(s, run));
  }

  // ---- no livelock: without new calls every schedule comes to an end ----

  lemma StepLighter<T(!new)>(s: State<T>, e: Event<T>)
    requires Inv(s) && NoWrap(s) && Enabled(s, e) && (e.Advance? || e.RxAdvance?)
    ensures Left(Apply(s, e)) < Left(s)
  {
    hide CoreInv, NoWrap, RxWeight, CallWeight;
    if e.Advance? {
      CallLighter(s, e.t);
    } else {
      RxLighter(s);
      RxFrame(s);
    }
  }

  lemma {:induction false} RunLighter<T(!new)>(s: State<T>, run: seq<Event<T>>)
    requires Inv(s) && Legal(s, run) && Bounded(s, run)
    requires forall i :: 0 <= i < |run| ==> run[i].Advance? || run[i].RxAdvance?
    ensures |run| + Left(Final(s, run)) <= Left(s)
    decreases |run|
  {
    hide Inv, Apply, Left, NoWrap;
    if run != [] {
      StepLighter(s, run[0]);
      InvStep(s, run[0]);
      RunLighter(Apply(s, run[0]), run[1..]);
    }
  }

  /** Every schedule of the calls already made ends, within 120 steps a call and 14 more, and where
      it cannot go on, the channel is settled. */
  lemma {:induction false} EveryScheduleEnds<T(!new)>(s: State<T>, run: seq<Event<T>>)
    requires Inv(s) && Legal(s, run) && Bounded(s, run)
    requires forall i :: 0 <= i < |run| ==> run[i].Advance? || run[i].RxAdvance?
    ensures |run| <= |s.pc| * 120 + 14
    ensures (forall e :: Enabled(Final(s, run), e) ==> !e.Advance? && !e.RxAdvance?) ==> Settled(Final(s, run))
  {
    hide Inv, Apply, NoWrap, Settled, Enabled;
    RunLighter(s, run);
    TotalBound(s.pc, CallWeight, 120);
    InvRun(s, run);
    BoundedEnd(s, run);
    CanGoOn(Final(s, run));
  }

  lemma CanGoOn<T(!new)>(s: State<T>)
    requires Inv(s) && NoWrap(s)
    ensures Settled(s) || exists e :: Enabled(s, e) && (e.Advance? || e.RxAdvance?)
  {
    assert LockInv(s);
    hide CoreInv, NoWrap, LockInv, Enabled;
    if AllFinished(s) {
      if !Settled(s) {
        RxEnabled(s);
      }
    } else {
      var t :| t in s.pc && !Finished(s.pc[t]);
      var e := Progress(s, t);
    }
  }
}
