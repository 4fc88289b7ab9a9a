/** The `mpsc` channel: any number of concurrent `send`, `clone` and sender-drop calls against
    one receiver, over the abstract lock and the condition variable. A `Tid` names one call. */
module Mpsc {
  import opened Threads
  import opened Wrappers
  import opened Condvar
  import opened Arithmetic

  type Handle = nat

  /** A value together with the `send` call that pushed it. */
  datatype Item<T> = Item(call: Tid, value: T)

  datatype CallPc<T> =
    | Fresh
    | SendStart(h: Handle, value: T)     // about to load `receiver_gone`
    | SendLocking(h: Handle, value: T)
    | SendPush(h: Handle, value: T)      // holds the lock
    | SendUnlock(h: Handle, value: T)    // holds the lock, value pushed
    | SendBump(h: Handle, value: T)      // in `notify_one`
    | SendWake(h: Handle, value: T)
    | SentOk(value: T)
    | HandedBack(value: T)
    | DropBump                           // last sender gone, in `notify_all`
    | DropWake
    | Dropped

  datatype Outcome<T> = Got(value: T) | Disconnected | NothingYet

  datatype RxPc<T> =
    | RxIdle
    | RxLocking(blocking: bool)
    | RxPop(blocking: bool)              // holds the lock from here ...
    | RxSenders(blocking: bool)          // queue was empty, about to load `senders`
    | RxSeqLoad                          // in `Condvar::wait`
    | RxWaitUnlock(seen: nat)
    | RxUnlock(outcome: Outcome<T>)      // ... to here
    | RxWaitLoad(seen: nat)
    | RxWaitCall(seen: nat)
    | RxAsleep(seen: nat)
    | RxRelocking
    | RxGone

  datatype Owner = Rx | Call(t: Tid)

  datatype State<T> = State(
    lock: Option<Owner>,
    queue: seq<Item<T>>,
    senders: nat,
    receiverGone: bool,
    bumps: nat,
    handles: set<Handle>,
    pc: map<Tid, CallPc<T>>,
    rx: RxPc<T>,
    // history
    pushed: seq<Item<T>>,
    received: seq<Item<T>>,
    disconnected: bool,      // some `recv` or `try_recv` has reported disconnection
    missed: bool)            // the final notify fell between the `senders` and the `seq` load

  datatype Event<T> =
    | CallSend(t: Tid, h: Handle, value: T)
    | CallDrop(t: Tid, h: Handle)
    | Clone(from: Handle, to: Handle)
    | Advance(t: Tid)        // the next step of call `t`
    | Recv(blocking: bool)   // start `recv` or `try_recv`
    | RxAdvance              // the next step of the receiver
    | RxSpurious
    | RxDrop

  predicate InFlight<T>(p: CallPc<T>) {
    p.SendStart? || p.SendLocking? || p.SendPush? || p.SendUnlock? || p.SendBump? || p.SendWake?
  }

  predicate Finished<T>(p: CallPc<T>) {
    p.Fresh? || p.SentOk? || p.HandedBack? || p.Dropped?
  }

  ghost predicate Enabled<T(!new)>(s: State<T>, e: Event<T>) {
    match e
    case CallSend(t, h, _) => t in s.pc && s.pc[t].Fresh? && h in s.handles
    case CallDrop(t, h) =>
      && t in s.pc && s.pc[t].Fresh? && h in s.handles
      && forall u :: u in s.pc && InFlight(s.pc[u]) ==> s.pc[u].h != h
    case Clone(from, to) => from in s.handles && to !in s.handles
    case Advance(t) =>
      t in s.pc && !Finished(s.pc[t]) && (s.pc[t].SendLocking? ==> s.lock.None?)
    case Recv(_) => s.rx.RxIdle?
    case RxAdvance =>
      && !s.rx.RxIdle? && !s.rx.RxGone? && !s.rx.RxAsleep?
      && (s.rx.RxLocking? || s.rx.RxRelocking? ==> s.lock.None?)
    case RxSpurious => s.rx.RxAsleep?
    case RxDrop => s.rx.RxIdle?
  }

  function WakeRx<T>(p: RxPc<T>): RxPc<T> {
    if p.RxAsleep? then RxWaitLoad(p.seen) else p
  }

  function Goto<T>(s: State<T>, t: Tid, p: CallPc<T>): State<T> {
    s.(pc := s.pc[t := p])
  }

  function ApplyCall<T>(s: State<T>, t: Tid): State<T>
    requires t in s.pc && !Finished(s.pc[t])
  {
    match s.pc[t]
    case SendStart(h, v) => Goto(s, t, if s.receiverGone then HandedBack(v) else SendLocking(h, v))
    case SendLocking(h, v) => Goto(s, t, SendPush(h, v)).(lock := Some(Call(t)))
    case SendPush(h, v) =>
      Goto(s, t, SendUnlock(h, v)).(queue := s.queue + [Item(t, v)], pushed := s.pushed + [Item(t, v)])
    case SendUnlock(h, v) => Goto(s, t, SendBump(h, v)).(lock := None)
    case SendBump(h, v) => Goto(s, t, SendWake(h, v)).(bumps := s.bumps + 1)
    case SendWake(_, v) => Goto(s, t, SentOk(v)).(rx := WakeRx(s.rx))
    case DropBump => Goto(s, t, DropWake).(bumps := s.bumps + 1, missed := s.missed || s.rx.RxSeqLoad?)
    case DropWake => Goto(s, t, Dropped).(rx := WakeRx(s.rx))
  }

  function ApplyRx<T>(s: State<T>): State<T>
    requires !s.rx.RxIdle? && !s.rx.RxGone? && !s.rx.RxAsleep?
  {
    match s.rx
    case RxLocking(b) => s.(rx := RxPop(b), lock := Some(Rx))
    case RxRelocking => s.(rx := RxPop(true), lock := Some(Rx))
    case RxPop(b) =>
      if s.queue != [] then
        s.(rx := RxUnlock(Got(s.queue[0].value)), queue := s.queue[1..], received := s.received + [s.queue[0]])
      else s.(rx := RxSenders(b))
    case RxSenders(b) =>
      if s.senders == 0 then s.(rx := RxUnlock(Disconnected), disconnected := true)
      else if b then s.(rx := RxSeqLoad)
      else s.(rx := RxUnlock(NothingYet))
    case RxSeqLoad => s.(rx := RxWaitUnlock(s.bumps))
    case RxWaitUnlock(seen) => s.(rx := RxWaitLoad(seen), lock := None)
    case RxWaitLoad(seen) => s.(rx := if SameSeq(s.bumps, seen) then RxWaitCall(seen) else RxRelocking)
    case RxWaitCall(seen) => s.(rx := if SameSeq(s.bumps, seen) then RxAsleep(seen) else RxWaitLoad(seen))
    case RxUnlock(_) => s.(rx := RxIdle, lock := None)
  }

  /** Starting and ending calls, cloning and dropping handles, and spurious wake-ups. */
  function ApplyEnv<T>(s: State<T>, e: Event<T>): State<T>
    requires !e.Advance? && !e.RxAdvance?
  {
    match e
    case CallSend(t, h, v) => Goto(s, t, SendStart(h, v))
    case CallDrop(t, h) =>
      Goto(s, t, if s.senders == 1 then DropBump else Dropped)
        .(handles := s.handles - {h}, senders := if s.senders > 0 then s.senders - 1 else 0)
    case Clone(_, to) => s.(handles := s.handles + {to}, senders := s.senders + 1)
    case Recv(b) => s.(rx := RxLocking(b))
    case RxSpurious => s.(rx := WakeRx(s.rx))
    case RxDrop => s.(rx := RxGone, receiverGone := true)
  }

  function Apply<T>(s: State<T>, e: Event<T>): State<T>
    requires e.Advance? ==> e.t in s.pc && !Finished(s.pc[e.t])
    requires e.RxAdvance? ==> !s.rx.RxIdle? && !s.rx.RxGone? && !s.rx.RxAsleep?
  {
    if e.Advance? then ApplyCall(s, e.t) else if e.RxAdvance? then ApplyRx(s) else ApplyEnv(s, e)
  }

  // ---- runs ----

  ghost predicate Init<T(!new)>(s: State<T>) {
    && s.lock.None? && s.queue == [] && s.senders == 1 && |s.handles| == 1 && !s.receiverGone
    && (forall t :: t in s.pc ==> s.pc[t] == Fresh)
    && s.rx == RxIdle && s.pushed == [] && s.received == [] && !s.disconnected && !s.missed
  }

  predicate RxWaiting<T>(p: RxPc<T>) {
    p.RxWaitUnlock? || p.RxWaitLoad? || p.RxWaitCall? || p.RxAsleep?
  }

  /** The receiver's wait has seen fewer than 2^32 notifies. */
  predicate NoWrap<T>(s: State<T>) {
    RxWaiting(s.rx) ==> s.bumps < s.rx.seen + WORD
  }

  ghost predicate Legal<T(!new)>(s: State<T>, run: seq<Event<T>>)
    decreases |run|
  {
    run == [] || (Enabled(s, run[0]) && Legal(Apply(s, run[0]), run[1..]))
  }

  ghost function Final<T(!new)>(s: State<T>, run: seq<Event<T>>): State<T>
    requires Legal(s, run)
    decreases |run|
  {
    if run == [] then s else Final(Apply(s, run[0]), run[1..])
  }

  /** Fewer than 2^32 notifies happen during any one wait of the run. */
  ghost predicate Bounded<T(!new)>(s: State<T>, run: seq<Event<T>>)
    requires Legal(s, run)
    decreases |run|
  {
    NoWrap(s) && (run == [] || Bounded(Apply(s, run[0]), run[1..]))
  }

  // ---- what every step keeps ----

  predicate RxHolds<T>(p: RxPc<T>) {
    p.RxPop? || p.RxSenders? || p.RxSeqLoad? || p.RxWaitUnlock? || p.RxUnlock?
  }

  predicate CallHolds<T>(p: CallPc<T>) {
    p.SendPush? || p.SendUnlock?
  }

  ghost predicate LockInv<T(!new)>(s: State<T>) {
    && (RxHolds(s.rx) <==> s.lock == Some(Rx))
    && (s.lock.Some? && s.lock.value.Call? ==> s.lock.value.t in s.pc)
    && (forall t :: t in s.pc ==> (CallHolds(s.pc[t]) <==> s.lock == Some(Call(t))))
  }

  ghost predicate HandleInv<T(!new)>(s: State<T>) {
    && s.senders == |s.handles|
    && (forall t :: t in s.pc && InFlight(s.pc[t]) ==> s.pc[t].h in s.handles)
    && (forall t :: t in s.pc && (s.pc[t].DropBump? || s.pc[t].DropWake?) ==> s.handles == {})
  }

  /** What has been received, followed by what is queued, is what was pushed, in push order. */
  ghost predicate FifoInv<T(!new)>(s: State<T>) {
    s.received + s.queue == s.pushed
  }

  predicate HasPushed<T>(p: CallPc<T>) {
    p.SendUnlock? || p.SendBump? || p.SendWake? || p.SentOk?
  }

  /** Each `send` is in the push history exactly once, with its own value, or not at all. */
  ghost predicate PushInv<T(!new)>(s: State<T>) {
    && (forall i, j :: 0 <= i < j < |s.pushed| ==> s.pushed[i].call != s.pushed[j].call)
    && (forall i :: 0 <= i < |s.pushed| ==>
          var t := s.pushed[i].call;
          t in s.pc && HasPushed(s.pc[t]) && s.pc[t].value == s.pushed[i].value)
    && (forall t :: t in s.pc && HasPushed(s.pc[t]) ==> Item(t, s.pc[t].value) in s.pushed)
  }

  ghost predicate ClosedInv<T(!new)>(s: State<T>) {
    && (s.disconnected ==> s.handles == {} && s.queue == [])
    && (s.rx.RxUnlock? && s.rx.outcome.Disconnected? ==> s.disconnected)
    && (s.rx.RxSenders? || s.rx.RxSeqLoad? || s.rx.RxWaitUnlock? ==> s.queue == [])
  }

  ghost predicate BumpOwed<T(!new)>(s: State<T>) {
    exists t :: t in s.pc && (s.pc[t].SendUnlock? || s.pc[t].SendBump?)
  }

  ghost predicate WakeOwed<T(!new)>(s: State<T>) {
    exists t :: t in s.pc && (s.pc[t].SendWake? || s.pc[t].DropWake?)
  }

  /** A receiver that waits on the current `seq` has nothing to receive, or the sender of what
      there is has yet to bump it; one that sleeps on a stale `seq` is owed a wake. */
  ghost predicate WaitInv<T(!new)>(s: State<T>) {
    RxWaiting(s.rx) ==>
      && s.rx.seen <= s.bumps
      && (s.rx.seen == s.bumps ==> s.queue == [] || BumpOwed(s))
      && (s.rx.RxAsleep? && s.rx.seen < s.bumps ==> WakeOwed(s))
  }

  predicate SeenInv<T>(s: State<T>) {
    RxWaiting(s.rx) ==> s.rx.seen <= s.bumps
  }

  /** What holds whether or not `seq` has wrapped. */
  ghost predicate CoreInv<T(!new)>(s: State<T>) {
    LockInv(s) && HandleInv(s) && FifoInv(s) && PushInv(s) && ClosedInv(s) && SeenInv(s)
  }

  ghost predicate Inv<T(!new)>(s: State<T>) {
    CoreInv(s) && WaitInv(s)
  }

  // -- steps of a call --

  /** A call's step moves only that call's program counter. */
  lemma CallFrame<T(!new)>(s: State<T>, t: Tid)
    requires t in s.pc && !Finished(s.pc[t])
    ensures var s' := ApplyCall(s, t);
            && t in s'.pc && s'.pc == s.pc[t := s'.pc[t]]
            && s'.handles == s.handles && s'.senders == s.senders
  {
  }

  /** It touches the queue only to push, and the receiver only to wake it. */
  lemma CallEffect<T(!new)>(s: State<T>, t: Tid)
    requires t in s.pc && !Finished(s.pc[t])
    ensures var s' := ApplyCall(s, t);
            && s'.received == s.received && s'.disconnected == s.disconnected
            && (s'.rx == s.rx || (s.rx.RxAsleep? && s'.rx == RxWaitLoad(s.rx.seen)))
            && (s.pc[t].SendPush? || (s'.queue == s.queue && s'.pushed == s.pushed))
  {
  }

  lemma LockCall<T(!new)>(s: State<T>, t: Tid)
    requires LockInv(s) && Enabled(s, Advance(t))
    ensures LockInv(ApplyCall(s, t))
  {
    CallFrame(s, t);
    CallEffect(s, t);
    var s' := ApplyCall(s, t);
    assert CallHolds(s'.pc[t]) <==> s'.lock == Some(Call(t));
    assert s.lock == s'.lock || s.lock == Some(Call(t)) || s.lock == None;
    assert s'.lock == s.lock || s'.lock == Some(Call(t)) || s'.lock == None;
    forall u | u in s'.pc
      ensures CallHolds(s'.pc[u]) <==> s'.lock == Some(Call(u))
    {
      if u != t {
        assert s'.pc[u] == s.pc[u];
      }
    }
  }

  lemma HandleCall<T(!new)>(s: State<T>, t: Tid)
    requires HandleInv(s) && Enabled(s, Advance(t))
    ensures HandleInv(ApplyCall(s, t))
  {
    CallFrame(s, t);
    var p, p' := s.pc[t], ApplyCall(s, t).pc[t];
    assert InFlight(p') ==> InFlight(p) && p'.h == p.h;
    assert p'.DropBump? || p'.DropWake? ==> p.DropBump?;
  }

  lemma HistoryCall<T(!new)>(s: State<T>, t: Tid)
    requires FifoInv(s) && PushInv(s) && Enabled(s, Advance(t))
    ensures FifoInv(ApplyCall(s, t)) && PushInv(ApplyCall(s, t))
  {
    CallFrame(s, t);
    CallEffect(s, t);
    var s' := ApplyCall(s, t);
    if s.pc[t].SendPush? {
      var item := Item(t, s.pc[t].value);
      assert s'.received + s'.queue == s.received + s.queue + [item];
      PushAdded(s, s', t);
    } else {
      PushKept(s, s', t);
    }
  }

  /** Moving one call without pushing keeps the push history right. */
  lemma PushKept<T(!new)>(s: State<T>, s': State<T>, t: Tid)
    requires PushInv(s) && s'.pushed == s.pushed && t in s.pc && t in s'.pc && s'.pc == s.pc[t := s'.pc[t]]
    requires HasPushed(s'.pc[t]) <==> HasPushed(s.pc[t])
    requires HasPushed(s.pc[t]) ==> s'.pc[t].value == s.pc[t].value
    ensures PushInv(s')
  {
  }

  lemma PushAdded<T(!new)>(s: State<T>, s': State<T>, t: Tid)
    requires PushInv(s) && t in s.pc && t in s'.pc && s'.pc == s.pc[t := s'.pc[t]]
    requires !HasPushed(s.pc[t]) && HasPushed(s'.pc[t])
    requires s'.pushed == s.pushed + [Item(t, s'.pc[t].value)]
    ensures PushInv(s')
  {
    assert s'.pushed[|s.pushed|] == Item(t, s'.pc[t].value);
  }

  lemma ClosedCall<T(!new)>(s: State<T>, t: Tid)
    requires LockInv(s) && HandleInv(s) && ClosedInv(s) && Enabled(s, Advance(t))
    ensures ClosedInv(ApplyCall(s, t))
  {
    CallFrame(s, t);
    CallEffect(s, t);
    if s.pc[t].SendPush? {
      assert s.lock == Some(Call(t)) && s.pc[t].h in s.handles;
    }
  }

  lemma WaitCall<T(!new)>(s: State<T>, t: Tid)
    requires WaitInv(s) && Enabled(s, Advance(t))
    ensures WaitInv(ApplyCall(s, t))
  {
    CallFrame(s, t);
    CallEffect(s, t);
    var s' := ApplyCall(s, t);
    var p, p' := s.pc[t], s'.pc[t];
    if RxWaiting(s'.rx) {
      assert s'.bumps == s.bumps + if p.SendBump? || p.DropBump? then 1 else 0;
      if p'.SendUnlock? || p'.SendBump? {
        assert BumpOwed(s');
      } else if s'.bumps == s.bumps {
        assert !p.SendUnlock? && !p.SendPush?;
        if u :| u in s.pc && (s.pc[u].SendUnlock? || s.pc[u].SendBump?) { assert s'.pc[u] == s.pc[u]; }
      }
      if s'.rx.RxAsleep? {
        assert !p.SendWake? && !p.DropWake?;
        if s'.bumps > s.bumps {
          assert p'.SendWake? || p'.DropWake?;
        } else if u :| u in s.pc && (s.pc[u].SendWake? || s.pc[u].DropWake?) {
          assert s'.pc[u] == s.pc[u];
        }
      }
    }
  }

  // -- steps of the receiver --

  lemma RxFrame<T(!new)>(s: State<T>)
    requires Enabled(s, RxAdvance)
    ensures var s' := ApplyRx(s);
            && s'.pc == s.pc && s'.handles == s.handles && s'.senders == s.senders
            && s'.pushed == s.pushed && s'.bumps == s.bumps
  {
    if s.rx.RxPop? {
    } else if s.rx.RxSenders? {
    } else if s.rx.RxLocking? || s.rx.RxRelocking? || s.rx.RxUnlock? {
    }
  }

  lemma LockRx<T(!new)>(s: State<T>)
    requires LockInv(s) && Enabled(s, RxAdvance)
    ensures LockInv(ApplyRx(s))
  {
    RxFrame(s);
    var s' := ApplyRx(s);
    assert s'.lock == if RxHolds(s'.rx) then Some(Rx) else if RxHolds(s.rx) then None else s.lock;
  }

  lemma FifoRx<T(!new)>(s: State<T>)
    requires FifoInv(s) && Enabled(s, RxAdvance)
    ensures FifoInv(ApplyRx(s))
  {
    if s.rx.RxPop? && s.queue != [] {
      assert s.queue == [s.queue[0]] + s.queue[1..];
    }
  }

  lemma ClosedRx<T(!new)>(s: State<T>)
    requires HandleInv(s) && ClosedInv(s) && Enabled(s, RxAdvance)
    ensures ClosedInv(ApplyRx(s))
  {
  }

  lemma WaitRx<T(!new)>(s: State<T>)
    requires LockInv(s) && ClosedInv(s) && WaitInv(s) && Enabled(s, RxAdvance) && NoWrap(s)
    ensures WaitInv(ApplyRx(s))
  {
    RxFrame(s);
    var s' := ApplyRx(s);
    if RxWaiting(s.rx) && SameSeq(s.bumps, s.rx.seen) { SameResidue(s.rx.seen, s.bumps, WORD); }
    assert BumpOwed(s) ==> BumpOwed(s');
    assert RxWaiting(s'.rx) ==> s'.queue == s.queue;
  }

  // -- the environment --

  lemma HandleDrop<T(!new)>(s: State<T>, t: Tid, h: Handle)
    requires HandleInv(s) && Enabled(s, CallDrop(t, h))
    ensures HandleInv(ApplyEnv(s, CallDrop(t, h)))
    ensures var s' := ApplyEnv(s, CallDrop(t, h));
            t in s'.pc && (s'.handles == {} <==> s'.pc[t].DropBump?)
  {
    var s' := ApplyEnv(s, CallDrop(t, h));
    var rest := s.handles - {h};
    assert s.handles == rest + {h} && |rest| == |s.handles| - 1;
    assert s'.handles == rest && s'.senders == |rest|;
    assert s'.pc == s.pc[t := s'.pc[t]];
    assert !InFlight(s'.pc[t]);
    assert forall u :: u in s.pc ==> !s.pc[u].DropBump? && !s.pc[u].DropWake?;
  }

  lemma HandleEnv<T(!new)>(s: State<T>, e: Event<T>)
    requires HandleInv(s) && Enabled(s, e) && !e.Advance? && !e.RxAdvance?
    ensures HandleInv(ApplyEnv(s, e))
  {
    if e.CallDrop? {
      HandleDrop(s, e.t, e.h);
    } else if e.Clone? {
      assert |s.handles + {e.to}| == |s.handles| + 1;
    }
  }

  lemma OtherEnv<T(!new)>(s: State<T>, e: Event<T>)
    requires LockInv(s) && FifoInv(s) && ClosedInv(s) && Enabled(s, e) && !e.Advance? && !e.RxAdvance?
    ensures var s' := ApplyEnv(s, e);
            && LockInv(s') && FifoInv(s') && ClosedInv(s')
  {
  }

  lemma PushEnv<T(!new)>(s: State<T>, e: Event<T>)
    requires PushInv(s) && SeenInv(s) && Enabled(s, e) && !e.Advance? && !e.RxAdvance?
    ensures PushInv(ApplyEnv(s, e)) && SeenInv(ApplyEnv(s, e))
  {
    var s' := ApplyEnv(s, e);
    assert s'.pushed == s.pushed;
    if e.CallSend? || e.CallDrop? {
      PushKept(s, s', e.t);
    } else {
      assert s'.pc == s.pc;
    }
  }

  /** The environment starts calls but never touches a debt to the receiver. */
  lemma WaitEnv<T(!new)>(s: State<T>, e: Event<T>)
    requires WaitInv(s) && Enabled(s, e) && !e.Advance? && !e.RxAdvance?
    ensures WaitInv(ApplyEnv(s, e))
  {
    var s' := ApplyEnv(s, e);
    if e.CallSend? || e.CallDrop? {
      if u :| u in s.pc && (s.pc[u].SendUnlock? || s.pc[u].SendBump?) { assert s'.pc[u] == s.pc[u]; }
      if u :| u in s.pc && (s.pc[u].SendWake? || s.pc[u].DropWake?) { assert s'.pc[u] == s.pc[u]; }
    } else {
      assert s'.pc == s.pc;
    }
  }

  lemma SeenCall<T(!new)>(s: State<T>, t: Tid)
    requires SeenInv(s) && Enabled(s, Advance(t))
    ensures SeenInv(ApplyCall(s, t))
  {
    CallEffect(s, t);
    assert s.bumps <= ApplyCall(s, t).bumps;
  }

  lemma CoreStep<T(!new)>(s: State<T>, e: Event<T>)
    requires CoreInv(s) && Enabled(s, e)
    ensures CoreInv(Apply(s, e))
  {
    hide LockInv, HandleInv, FifoInv, ClosedInv, SeenInv;
    if e.Advance? {
      LockCall(s, e.t);
      HandleCall(s, e.t);
      HistoryCall(s, e.t);
      ClosedCall(s, e.t);
      SeenCall(s, e.t);
    } else if e.RxAdvance? {
      CoreRx(s);
    } else {
      HandleEnv(s, e);
      OtherEnv(s, e);
      PushEnv(s, e);
    }
  }

  lemma CoreRx<T(!new)>(s: State<T>)
    requires CoreInv(s) && Enabled(s, RxAdvance)
    ensures CoreInv(ApplyRx(s))
  {
    hide LockInv, HandleInv, FifoInv, ClosedInv, PushInv, SeenInv, ApplyRx;
    RxFrame(s);
    LockRx(s);
    FifoRx(s);
    ClosedRx(s);
    HistoryRx(s);
    SeenRx(s);
  }

  lemma HistoryRx<T(!new)>(s: State<T>)
    requires HandleInv(s) && PushInv(s) && Enabled(s, RxAdvance)
    ensures HandleInv(ApplyRx(s)) && PushInv(ApplyRx(s))
  {
    hide ApplyRx, Enabled;
    RxFrame(s);
  }

  lemma SeenRx<T(!new)>(s: State<T>)
    requires SeenInv(s) && Enabled(s, RxAdvance)
    ensures SeenInv(ApplyRx(s))
  {
    if s.rx.RxSeqLoad? {
    } else if s.rx.RxWaitUnlock? || s.rx.RxWaitLoad? {
    } else if s.rx.RxWaitCall? {
    }
  }

  lemma {:induction false} CoreRun<T(!new)>(s: State<T>, run: seq<Event<T>>)
    requires CoreInv(s) && Legal(s, run)
    ensures CoreInv(Final(s, run))
    decreases |run|
  {
    hide CoreInv, Apply;
    if run != [] {
      CoreStep(s, run[0]);
      CoreRun(Apply(s, run[0]), run[1..]);
    }
  }

  lemma InvStep<T(!new)>(s: State<T>, e: Event<T>)
    requires Inv(s) && Enabled(s, e) && NoWrap(s)
    ensures Inv(Apply(s, e))
  {
    hide LockInv, HandleInv, FifoInv, PushInv, ClosedInv, WaitInv, NoWrap;
    CoreStep(s, e);
    if e.Advance? {
      WaitCall(s, e.t);
    } else if e.RxAdvance? {
      WaitRx(s);
    } else {
      WaitEnv(s, e);
    }
  }

  lemma {:induction false} InvRun<T(!new)>(s: State<T>, run: seq<Event<T>>)
    requires Inv(s) && Legal(s, run) && Bounded(s, run)
    ensures Inv(Final(s, run))
    decreases |run|
  {
    hide Inv, Apply, NoWrap;
    if run != [] {
      InvStep(s, run[0]);
      InvRun(Apply(s, run[0]), run[1..]);
    }
  }

  ghost predicate Started<T(!new)>(s: State<T>, run: seq<Event<T>>) {
    Init(s) && Legal(s, run)
  }

  /** The channel claim over every run: received then queued is pushed, in order; a call that
      returned Ok pushed its value exactly once and one that handed it back never did; a report
      of disconnection means everything pushed was received and no sender is left. And while no
      wait has seen 2^32 notifies, the receiver never sleeps past a message. */
  lemma {:induction false} Safety<T(!new)>(s: State<T>, run: seq<Event<T>>)
    requires Started(s, run)
    ensures var f := Final(s, run);
            && f.received + f.queue == f.pushed
            && PushInv(f)
            && (f.disconnected ==> f.received == f.pushed && f.senders == 0 && f.handles == {})
            && (Bounded(s, run) ==> WaitInv(f))
  {
    CoreRun(s, run);
    if Bounded(s, run) {
      InvRun(s, run);
    }
  }

  /** Nothing can arrive after a report of disconnection. */
  lemma {:induction false} NothingAfterDisconnect<T(!new)>(s: State<T>, run: seq<Event<T>>)
    requires CoreInv(s) && s.disconnected && Legal(s, run)
    ensures Final(s, run).pushed == s.pushed && Final(s, run).received == s.received
    decreases |run|
  {
    hide CoreInv, Apply;
    if run != [] {
      CoreStep(s, run[0]);
      DisconnectedStep(s, run[0]);
      NothingAfterDisconnect(Apply(s, run[0]), run[1..]);
    }
  }

  lemma DisconnectedStep<T(!new)>(s: State<T>, e: Event<T>)
    requires CoreInv(s) && s.disconnected && Enabled(s, e)
    ensures var s' := Apply(s, e); s'.pushed == s.pushed && s'.received == s.received && s'.disconnected
  {
    hide LockInv, FifoInv, PushInv;
    if e.Advance? {
      assert !InFlight(s.pc[e.t]);
    }
  }

  /** When every call has finished, a sleeping receiver has received everything pushed. */
  lemma {:induction false} SleepsOnlyWhenDrained<T(!new)>(s: State<T>, run: seq<Event<T>>)
    requires Started(s, run) && Bounded(s, run)
    requires forall t :: t in Final(s, run).pc ==> Finished(Final(s, run).pc[t])
    requires Final(s, run).rx.RxAsleep?
    ensures Final(s, run).received == Final(s, run).pushed
  {
    InvRun(s, run);
    var f := Final(s, run);
    assert !BumpOwed(f) && !WakeOwed(f);
  }

  // ---- what the last sender's drop does to a blocked `recv` ----

  ghost predicate DropBumpOwed<T(!new)>(s: State<T>) {
    exists t :: t in s.pc && s.pc[t].DropBump?
  }

  /** Committed to wait on a `seq` that nothing will bump: `recv` cannot return from here. */
  predicate Parked<T>(s: State<T>) {
    s.rx.RxSeqLoad? || (RxWaiting(s.rx) && s.rx.seen == s.bumps)
  }

  ghost predicate MissedInv<T(!new)>(s: State<T>) {
    && (forall t, u :: t in s.pc && u in s.pc && s.pc[t].DropBump? && s.pc[u].DropBump? ==> t == u)
    && (s.missed ==> s.handles == {} && !DropBumpOwed(s) && Parked(s))
    && (s.handles == {} && Parked(s) ==> s.missed || DropBumpOwed(s))
  }

  lemma MissedCall<T(!new)>(s: State<T>, t: Tid)
    requires HandleInv(s) && SeenInv(s) && MissedInv(s) && Enabled(s, Advance(t))
    ensures MissedInv(ApplyCall(s, t))
  {
    CallFrame(s, t);
    CallEffect(s, t);
    var s' := ApplyCall(s, t);
    var p, p' := s.pc[t], s'.pc[t];
    assert p.SendBump? ==> s.handles != {};
    assert !p'.DropBump?;
    if p.DropBump? {
      assert s'.bumps == s.bumps + 1 && s'.rx == s.rx && s.handles == {};
      assert s'.missed <==> s.missed || s.rx.RxSeqLoad?;
      assert !DropBumpOwed(s');
    } else {
      assert s'.missed == s.missed;
      assert p.SendBump? || s'.bumps == s.bumps;
      if u :| u in s.pc && s.pc[u].DropBump? { assert s'.pc[u].DropBump?; }
      assert DropBumpOwed(s') <==> DropBumpOwed(s);
      assert Parked(s') && s.handles == {} ==> Parked(s);
      assert Parked(s) && s.handles == {} ==> Parked(s');
    }
  }

  lemma MissedRx<T(!new)>(s: State<T>)
    requires HandleInv(s) && MissedInv(s) && Enabled(s, RxAdvance)
    ensures MissedInv(ApplyRx(s))
  {
    RxFrame(s);
    var s' := ApplyRx(s);
    assert s'.missed == s.missed;
    assert DropBumpOwed(s') <==> DropBumpOwed(s);
    assert s.handles == {} ==> s.senders == 0;
    assert s.handles == {} ==> (Parked(s') <==> Parked(s));
  }

  lemma MissedEnv<T(!new)>(s: State<T>, e: Event<T>)
    requires HandleInv(s) && MissedInv(s) && Enabled(s, e) && !e.Advance? && !e.RxAdvance?
    ensures MissedInv(ApplyEnv(s, e))
  {
    var s' := ApplyEnv(s, e);
    assert s'.missed == s.missed && s'.bumps == s.bumps;
    if e.CallDrop? {
      HandleDrop(s, e.t, e.h);
      assert s.handles != {} && s'.rx == s.rx;
      assert forall u :: u in s.pc ==> !s.pc[u].DropBump?;
      assert s'.pc == s.pc[e.t := s'.pc[e.t]];
    } else {
      if u :| u in s.pc && s.pc[u].DropBump? { assert s'.pc[u].DropBump?; }
      assert forall u :: u in s'.pc ==> (s'.pc[u].DropBump? <==> s.pc[u].DropBump?);
      assert Parked(s') <==> Parked(s);
    }
  }

  lemma {:induction false} MissedRun<T(!new)>(s: State<T>, run: seq<Event<T>>)
    requires CoreInv(s) && MissedInv(s) && Legal(s, run)
    ensures CoreInv(Final(s, run)) && MissedInv(Final(s, run)) && (s.missed ==> Final(s, run).missed)
    decreases |run|
  {
    if run != [] {
      var e := run[0];
      CoreStep(s, e);
      if e.Advance? { MissedCall(s, e.t); } else if e.RxAdvance? { MissedRx(s); } else { MissedEnv(s, e); }
      MissedRun(Apply(s, e), run[1..]);
    }
  }

  /** Once every sender is gone and every call has finished, the receiver waits on a `seq` that
      stays as it is exactly if the last sender's notify fell between its load of `senders` and its
      load of `seq`. */
  lemma {:induction false} ParkedIffMissed<T(!new)>(s: State<T>, run: seq<Event<T>>)
    requires Started(s, run)
    requires Final(s, run).handles == {}
    requires forall t :: t in Final(s, run).pc ==> Finished(Final(s, run).pc[t])
    ensures Parked(Final(s, run)) <==> Final(s, run).missed
    ensures Bounded(s, run) && Final(s, run).rx.RxAsleep? ==> Final(s, run).missed
  {
    MissedRun(s, run);
    var f := Final(s, run);
    assert !DropBumpOwed(f) && !WakeOwed(f);
    if Bounded(s, run) {
      InvRun(s, run);
    }
  }

  /** A receiver that missed the last notify waits for ever, whatever happens next. */
  lemma {:induction false} MissedIsForever<T(!new)>(s: State<T>, run: seq<Event<T>>, more: seq<Event<T>>)
    requires Started(s, run) && Final(s, run).missed && Legal(Final(s, run), more)
    ensures Parked(Final(Final(s, run), more))
  {
    MissedRun(s, run);
    MissedRun(Final(s, run), more);
  }

  lemma Prepend<T(!new)>(s: State<T>, e: Event<T>, rest: seq<Event<T>>, f: State<T>)
    requires Enabled(s, e) && Legal(Apply(s, e), rest) && Final(Apply(s, e), rest) == f
    ensures Legal(s, [e] + rest) && Final(s, [e] + rest) == f
    ensures NoWrap(s) && Bounded(Apply(s, e), rest) ==> Bounded(s, [e] + rest)
  {
    assert ([e] + rest)[1..] == rest;
  }

  /** A run in which the only sender is dropped and `recv` sleeps for ever: the wake-up the
      source promises a blocked receiver on the last drop can be lost. */
  lemma LostDropWake() returns (s: State<nat>, run: seq<Event<nat>>)
    ensures Started(s, run) && Bounded(s, run)
    ensures Final(s, run).handles == {} && Final(s, run).rx.RxAsleep? && Final(s, run).missed
    ensures forall t :: t in Final(s, run).pc ==> Finished(Final(s, run).pc[t])
  {
    s := State(None, [], 1, false, 0, {7}, map[0 := Fresh], RxIdle, [], [], false, false);
    var checked := s.(lock := Some(Rx), rx := RxSeqLoad);
    var dropped := checked.(handles := {}, senders := 0, bumps := 1, pc := map[0 := Dropped], missed := true);
    var f := dropped.(lock := None, rx := RxAsleep(1));
    var tail := SleepAfterDrop(dropped, f);
    var middle := DropInWindow(checked, dropped, tail, f);
    run := CheckSenders(s, checked, middle, f);
  }

  lemma CheckSenders(s: State<nat>, checked: State<nat>, tail: seq<Event<nat>>, f: State<nat>)
    returns (run: seq<Event<nat>>)
    requires s.lock.None? && s.queue == [] && s.senders == 1 && s.rx == RxIdle
    requires checked == s.(lock := Some(Rx), rx := RxSeqLoad)
    requires Legal(checked, tail) && Bounded(checked, tail) && Final(checked, tail) == f
    ensures Legal(s, run) && Bounded(s, run) && Final(s, run) == f
  {
    hide Legal, Final, Bounded;
    var s1 := s.(rx := RxLocking(true));
    var s2 := s.(lock := Some(Rx), rx := RxPop(true));
    var s3 := s2.(rx := RxSenders(true));
    Prepend(s3, RxAdvance, tail, f);
    Prepend(s2, RxAdvance, [RxAdvance] + tail, f);
    Prepend(s1, RxAdvance, [RxAdvance] + ([RxAdvance] + tail), f);
    var rest := [RxAdvance] + ([RxAdvance] + ([RxAdvance] + tail));
    Prepend(s, Recv(true), rest, f);
    run := [Recv(true)] + rest;
  }

  lemma SleepAfterDrop(s: State<nat>, f: State<nat>) returns (run: seq<Event<nat>>)
    requires s.lock == Some(Rx) && s.rx == RxSeqLoad && s.bumps == 1
    requires f == s.(lock := None, rx := RxAsleep(1))
    ensures Legal(s, run) && Bounded(s, run) && Final(s, run) == f
  {
    var s1 := s.(rx := RxWaitUnlock(1));
    var s2 := s.(lock := None, rx := RxWaitLoad(1));
    var s3 := s2.(rx := RxWaitCall(1));
    Prepend(s3, RxAdvance, [], f);
    Prepend(s2, RxAdvance, [RxAdvance] + [], f);
    Prepend(s1, RxAdvance, [RxAdvance] + ([RxAdvance] + []), f);
    run := [RxAdvance] + ([RxAdvance] + ([RxAdvance] + ([RxAdvance] + [])));
    Prepend(s, RxAdvance, run[1..], f);
  }

  lemma DropInWindow(s: State<nat>, dropped: State<nat>, tail: seq<Event<nat>>, f: State<nat>)
    returns (run: seq<Event<nat>>)
    requires s.handles == {7} && s.senders == 1 && s.bumps == 0 && s.pc == map[0 := Fresh]
    requires s.rx == RxSeqLoad && !s.missed
    requires dropped == s.(handles := {}, senders := 0, bumps := 1, pc := map[0 := Dropped], missed := true)
    requires Legal(dropped, tail) && Bounded(dropped, tail) && Final(dropped, tail) == f
    ensures Legal(s, run) && Bounded(s, run) && Final(s, run) == f
  {
    hide Legal, Final, Bounded;
    var s1 := s.(handles := {}, senders := 0, pc := map[0 := DropBump]);
    var s2 := s1.(bumps := 1, pc := map[0 := DropWake], missed := true);
    assert ApplyCall(s2, 0) == dropped by { assert s2.pc[0 := Dropped] == dropped.pc; }
    Prepend(s2, Advance(0), tail, f);
    var tail1 := [Advance(0)] + tail;
    assert ApplyCall(s1, 0) == s2 by { assert s1.pc[0 := DropWake] == s2.pc; }
    Prepend(s1, Advance(0), tail1, f);
    run := DropStep(s, s1, [Advance(0)] + tail1, f);
  }

  lemma DropStep(s: State<nat>, s1: State<nat>, tail: seq<Event<nat>>, f: State<nat>)
    returns (run: seq<Event<nat>>)
    requires s.handles == {7} && s.senders == 1 && s.pc == map[0 := Fresh] && s.rx == RxSeqLoad
    requires s1 == s.(handles := {}, senders := 0, pc := map[0 := DropBump])
    requires Legal(s1, tail) && Bounded(s1, tail) && Final(s1, tail) == f
    ensures Legal(s, run) && Bounded(s, run) && Final(s, run) == f
  {
    assert ApplyEnv(s, CallDrop(0, 7)) == s1 by {
      assert s.pc[0 := DropBump] == s1.pc;
      assert s.handles - {7} == {};
    }
    Prepend(s, CallDrop(0, 7), tail, f);
    run := [CallDrop(0, 7)] + tail;
  }
}
