/** What the clients of a channel see of a run: the values they asked to send, the receiving calls
    they made, and what each call answered. */
module MpscAnswers {
  import opened Threads
  import opened Wrappers
  import opened Mpsc

  datatype View<T> = View(
    asked: map<Tid, T>,          // the value each `send` was called with
    calls: seq<bool>,            // the receiving calls: true for `recv`, false for `try_recv`
    answers: seq<Outcome<T>>)    // what they have returned, in order

  /** A call is observed when it is made, and its answer when the receiver is idle again. */
  ghost function Observe<T(!new)>(v: View<T>, s: State<T>, e: Event<T>): View<T>
    requires Enabled(s, e)
  {
    match e
    case CallSend(t, _, value) => v.(asked := v.asked[t := value])
    case Recv(blocking) => v.(calls := v.calls + [blocking])
    case RxAdvance =>
      if s.rx.RxUnlock? && Apply(s, e).rx.RxIdle? then v.(answers := v.answers + [s.rx.outcome]) else v
    case _ => v
  }

  ghost function Seen<T(!new)>(v: View<T>, s: State<T>, run: seq<Event<T>>): View<T>
    requires Legal(s, run)
    decreases |run|
  {
    if run == [] then v else Seen(Observe(v, s, run[0]), Apply(s, run[0]), run[1..])
  }

  /** The values among some answers. */
  function Values<T>(answers: seq<Outcome<T>>): seq<T> {
    if answers == [] then []
    else Values(answers[..|answers| - 1]) + ValueOf(answers[|answers| - 1])
  }

  function ValueOf<T>(o: Outcome<T>): seq<T> {
    if o.Got? then [o.value] else []
  }

  function ItemValues<T>(items: seq<Item<T>>): seq<T> {
    if items == [] then [] else ItemValues(items[..|items| - 1]) + [items[|items| - 1].value]
  }

  lemma ValuesSnoc<T>(answers: seq<Outcome<T>>, o: Outcome<T>)
    ensures Values(answers + [o]) == Values(answers) + ValueOf(o)
  {
    assert (answers + [o])[..|answers|] == answers;
  }

  lemma ItemValuesSnoc<T>(items: seq<Item<T>>, item: Item<T>)
    ensures ItemValues(items + [item]) == ItemValues(items) + [item.value]
  {
    assert (items + [item])[..|items|] == items;
  }

  // ---- what every step keeps ----

  predicate Busy<T>(p: RxPc<T>) {
    !p.RxIdle? && !p.RxGone?
  }

  /** The answer that is decided but not yet returned. */
  function InHand<T>(p: RxPc<T>): seq<T> {
    if p.RxUnlock? then ValueOf(p.outcome) else []
  }

  /** The values answered, then the one about to be, are the values received. */
  ghost predicate ValueInv<T(!new)>(s: State<T>, v: View<T>) {
    Values(v.answers) + InHand(s.rx) == ItemValues(s.received)
  }

  /** The receiver knows which kind of call it is in. */
  predicate KindOk<T>(p: RxPc<T>, blocking: bool) {
    match p
    case RxLocking(b) => b == blocking
    case RxPop(b) => b == blocking
    case RxSenders(b) => b == blocking
    case RxUnlock(o) => o.NothingYet? ==> !blocking
    case _ => blocking
  }

  /** Every receiving call but the one in progress has been answered, and only `try_recv` with
      "nothing yet". */
  ghost predicate KindInv<T(!new)>(s: State<T>, v: View<T>) {
    && |v.calls| == |v.answers| + (if Busy(s.rx) then 1 else 0)
    && (Busy(s.rx) ==> KindOk(s.rx, v.calls[|v.answers|]))
    && forall i :: 0 <= i < |v.answers| && v.answers[i].NothingYet? ==> !v.calls[i]
  }

  /** A report of disconnection is final. */
  ghost predicate FinalInv<T(!new)>(s: State<T>, v: View<T>) {
    && (s.disconnected && s.rx.RxUnlock? ==> s.rx.outcome.Disconnected?)
    && (forall i :: 0 <= i < |v.answers| && v.answers[i].Disconnected? ==> s.disconnected)
    && forall i, j :: 0 <= i < j < |v.answers| && v.answers[i].Disconnected? ==> v.answers[j].Disconnected?
  }

  predicate Carries<T>(p: CallPc<T>) {
    InFlight(p) || p.SentOk? || p.HandedBack?
  }

  /** A `send` carries the value it was called with to its end, and hands it back only to a sender
      whose receiver is gone. */
  ghost predicate SendInv<T(!new)>(s: State<T>, v: View<T>) {
    && (s.receiverGone <==> s.rx.RxGone?)
    && forall t :: t in s.pc && Carries(s.pc[t]) ==>
         && t in v.asked && s.pc[t].value == v.asked[t]
         && (s.pc[t].HandedBack? ==> s.receiverGone)
  }

  ghost predicate ViewInv<T(!new)>(s: State<T>, v: View<T>) {
    ValueInv(s, v) && KindInv(s, v) && FinalInv(s, v) && SendInv(s, v)
  }

  // -- steps of a call --

  lemma CallView<T(!new)>(s: State<T>, v: View<T>, t: Tid)
    requires ViewInv(s, v) && Enabled(s, Advance(t))
    ensures ViewInv(ApplyCall(s, t), v)
  {
    CallFrame(s, t);
    CallEffect(s, t);
    SendCarries(s, t);
    var s' := ApplyCall(s, t);
    hide Values, ItemValues, ApplyCall;
    assert InHand(s'.rx) == InHand(s.rx) && Busy(s'.rx) == Busy(s.rx);
  }

  lemma SendCarries<T(!new)>(s: State<T>, t: Tid)
    requires Enabled(s, Advance(t))
    ensures var p, s' := s.pc[t], ApplyCall(s, t);
            && t in s'.pc && s'.receiverGone == s.receiverGone
            && (Carries(s'.pc[t]) ==> Carries(p) && s'.pc[t].value == p.value)
            && (s'.pc[t].HandedBack? <==> p.SendStart? && s.receiverGone)
  {
    var p := s.pc[t];
    if p.SendStart? || p.SendLocking? {
    } else if p.SendPush? || p.SendUnlock? {
    } else if p.SendBump? || p.SendWake? {
    }
  }

  // -- steps of the receiver --

  /** A decided answer is returned next and changes nothing more. */
  lemma UnlockRx<T(!new)>(s: State<T>)
    requires s.rx.RxUnlock?
    ensures ApplyRx(s) == s.(rx := RxIdle, lock := None)
  {
  }

  /** Until then the call goes on, as the same kind of call, and a value enters the history of received
      items exactly as it becomes the answer. */
  lemma BusyRx<T(!new)>(s: State<T>, blocking: bool)
    requires Enabled(s, RxAdvance) && !s.rx.RxUnlock?
    ensures var s' := ApplyRx(s);
            && Busy(s'.rx) && (KindOk(s.rx, blocking) ==> KindOk(s'.rx, blocking))
            && (if s'.rx.RxUnlock? && s'.rx.outcome.Got?
                then s.queue != [] && s'.received == s.received + [s.queue[0]] && s'.rx.outcome == Got(s.queue[0].value)
                else s'.received == s.received)
  {
    if s.rx.RxPop? {
    } else if s.rx.RxSenders? {
    } else if s.rx.RxLocking? || s.rx.RxRelocking? {
    }
  }

  lemma ValueRx<T(!new)>(s: State<T>, v: View<T>)
    requires ValueInv(s, v) && Enabled(s, RxAdvance)
    ensures ValueInv(ApplyRx(s), Observe(v, s, RxAdvance))
  {
    hide ApplyRx, Values, ItemValues;
    if s.rx.RxUnlock? {
      UnlockRx(s);
      ValuesSnoc(v.answers, s.rx.outcome);
    } else {
      BusyRx(s, true);
      if s.queue != [] { ItemValuesSnoc(s.received, s.queue[0]); }
    }
  }

  lemma KindRx<T(!new)>(s: State<T>, v: View<T>)
    requires KindInv(s, v) && Enabled(s, RxAdvance)
    ensures KindInv(ApplyRx(s), Observe(v, s, RxAdvance))
  {
    hide ApplyRx;
    if s.rx.RxUnlock? {
      UnlockRx(s);
    } else {
      BusyRx(s, v.calls[|v.answers|]);
    }
  }

  lemma FinalRx<T(!new)>(s: State<T>, v: View<T>)
    requires HandleInv(s) && ClosedInv(s) && FinalInv(s, v) && Enabled(s, RxAdvance)
    ensures FinalInv(ApplyRx(s), Observe(v, s, RxAdvance))
  {
  }

  lemma SendRx<T(!new)>(s: State<T>, v: View<T>)
    requires SendInv(s, v) && Enabled(s, RxAdvance)
    ensures SendInv(ApplyRx(s), Observe(v, s, RxAdvance))
  {
    RxFrame(s);
    assert ApplyRx(s).receiverGone == s.receiverGone && !ApplyRx(s).rx.RxGone?;
  }

  // -- the environment --

  lemma EnvView<T(!new)>(s: State<T>, v: View<T>, e: Event<T>)
    requires ViewInv(s, v) && Enabled(s, e) && !e.Advance? && !e.RxAdvance?
    ensures ViewInv(ApplyEnv(s, e), Observe(v, s, e))
  {
    hide Values, ItemValues;
    var s', v' := ApplyEnv(s, e), Observe(v, s, e);
    assert s'.received == s.received && v'.answers == v.answers && InHand(s'.rx) == InHand(s.rx);
    if e.CallSend? || e.CallDrop? {
      assert s'.rx == s.rx && s'.pc == s.pc[e.t := s'.pc[e.t]];
    } else {
      assert s'.pc == s.pc;
    }
  }

  lemma ViewStep<T(!new)>(s: State<T>, v: View<T>, e: Event<T>)
    requires CoreInv(s) && ViewInv(s, v) && Enabled(s, e)
    ensures ViewInv(Apply(s, e), Observe(v, s, e))
  {
    hide LockInv, HandleInv, FifoInv, PushInv, ClosedInv, ValueInv, KindInv, FinalInv, SendInv;
    if e.Advance? {
      CallView(s, v, e.t);
    } else if e.RxAdvance? {
      ValueRx(s, v);
      KindRx(s, v);
      FinalRx(s, v);
      SendRx(s, v);
    } else {
      EnvView(s, v, e);
    }
  }

  lemma {:induction false} ViewRun<T(!new)>(s: State<T>, v: View<T>, run: seq<Event<T>>)
    requires CoreInv(s) && ViewInv(s, v) && Legal(s, run)
    ensures ViewInv(Final(s, run), Seen(v, s, run))
    decreases |run|
  {
    hide CoreInv, ViewInv, Apply, Observe;
    if run != [] {
      CoreStep(s, run[0]);
      ViewStep(s, v, run[0]);
      ViewRun(Apply(s, run[0]), Observe(v, s, run[0]), run[1..]);
    }
  }

  /** The channel as its clients see it, over every run. The values answered are the values taken from
      the queue, in order, so a prefix of the values pushed; every value pushed is the one its `send`
      was called with; every receiving call but the one in progress has one answer; only `try_recv`
      answers "nothing yet"; after a report of disconnection there is nothing but such reports; and
      `send` gives back its own value, only when the receiver is gone. */
  lemma {:induction false} AnswersAreRight<T(!new)>(s: State<T>, run: seq<Event<T>>)
    requires Started(s, run)
    ensures var f, v := Final(s, run), Seen(View(map[], [], []), s, run);
            && Values(v.answers) + InHand(f.rx) == ItemValues(f.received) <= ItemValues(f.pushed)
            && (f.rx.RxUnlock? && f.rx.outcome.Got? ==>
                  f.received != [] && f.rx.outcome.value == f.received[|f.received| - 1].value)
            && (forall i :: 0 <= i < |f.pushed| ==>
                  f.pushed[i].call in v.asked && f.pushed[i].value == v.asked[f.pushed[i].call])
            && |v.calls| == |v.answers| + (if Busy(f.rx) then 1 else 0)
            && (forall i :: 0 <= i < |v.answers| && v.answers[i].NothingYet? ==> !v.calls[i])
            && (forall i, j :: 0 <= i < j < |v.answers| && v.answers[i].Disconnected? ==> v.answers[j].Disconnected?)
            && (forall t :: t in f.pc && f.pc[t].HandedBack? ==>
                  f.receiverGone && t in v.asked && f.pc[t].value == v.asked[t])
  {
    StartView(s);
    hide Init, LockInv, HandleInv, ClosedInv, SeenInv, Legal, Final, Seen, Values, ItemValues;
    CoreRun(s, run);
    ViewRun(s, View(map[], [], []), run);
    var f := Final(s, run);
    ItemValuesPrefix(f.received, f.queue);
    LastValue(f.received);
  }

  lemma LastValue<T>(items: seq<Item<T>>)
    ensures |ItemValues(items)| == |items|
    ensures items != [] ==> ItemValues(items)[|items| - 1] == items[|items| - 1].value
  {
  }

  lemma StartView<T(!new)>(s: State<T>)
    requires Init(s)
    ensures CoreInv(s) && ViewInv(s, View(map[], [], []))
  {
  }

  lemma {:induction false} ItemValuesPrefix<T>(a: seq<Item<T>>, b: seq<Item<T>>)
    ensures ItemValues(a) <= ItemValues(a + b)
    decreases |b|
  {
    if b == [] {
      assert a + b == a;
    } else {
      var front, last := b[..|b| - 1], b[|b| - 1];
      ItemValuesPrefix(a, front);
      assert a + b == (a + front) + [last];
      ItemValuesSnoc(a + front, last);
    }
  }

  /** When an answer is decided it is the right one: the oldest value if there is any, otherwise
      disconnection if and only if no sender is left, otherwise "nothing yet" from `try_recv` and a
      wait from `recv`. */
  lemma AnswerIsRight<T(!new)>(s: State<T>)
    requires CoreInv(s) && Enabled(s, RxAdvance)
    ensures var s' := ApplyRx(s);
            && (s.rx.RxPop? ==> (s'.rx.RxUnlock? <==> s.queue != []))
            && (s.rx.RxSenders? ==> (s'.rx.RxUnlock? <==> s.handles == {} || !s.rx.blocking))
            && (s'.rx.RxUnlock? ==>
                  match s'.rx.outcome
                  case Got(v) => s.queue != [] && v == s.queue[0].value && s'.queue == s.queue[1..]
                  case Disconnected => s.queue == [] && s.handles == {}
                  case NothingYet => s.queue == [] && s.handles != {} && s.rx == RxSenders(false))
  {
    hide FifoInv, PushInv;
    var s' := ApplyRx(s);
    assert s'.rx.RxUnlock? ==> s.rx.RxPop? || s.rx.RxSenders?;
  }

  /** `send` gives its value back if and only if the receiver was gone when it looked. */
  lemma HandsBackIffGone<T(!new)>(s: State<T>, t: Tid)
    requires Enabled(s, Advance(t))
    ensures var s' := ApplyCall(s, t);
            t in s'.pc && (s'.pc[t].HandedBack? <==> s.pc[t].SendStart? && s.receiverGone)
  {
    SendCarries(s, t);
    hide ApplyCall;
  }

  /** A `send` called after the receiver is gone never pushes: whatever else happens, it is over only by
      giving its value back. */
  lemma {:induction false} GoneForGood<T(!new)>(s: State<T>, run: seq<Event<T>>, t: Tid)
    requires Legal(s, run) && s.receiverGone && t in s.pc && NotSending(s.pc[t])
    ensures var f := Final(s, run); f.receiverGone && t in f.pc && NotSending(f.pc[t]) && !HasPushed(f.pc[t])
    decreases |run|
  {
    hide Apply;
    if run != [] {
      GoneStep(s, run[0], t);
      GoneForGood(Apply(s, run[0]), run[1..], t);
    }
  }

  /** Not past the look at `receiver_gone`, or over without a push. */
  predicate NotSending<T>(p: CallPc<T>) {
    p.Fresh? || p.SendStart? || p.HandedBack? || p.DropBump? || p.DropWake? || p.Dropped?
  }

  lemma GoneStep<T(!new)>(s: State<T>, e: Event<T>, t: Tid)
    requires Enabled(s, e) && s.receiverGone && t in s.pc && NotSending(s.pc[t])
    ensures var s' := Apply(s, e); s'.receiverGone && t in s'.pc && NotSending(s'.pc[t])
  {
    if e.Advance? {
      CallFrame(s, e.t);
      SendCarries(s, e.t);
      if e.t == t {
        var p := s.pc[t];
        if p.SendStart? {
        } else if p.DropBump? || p.DropWake? {
        }
      } else {
        hide ApplyCall;
      }
    } else if e.RxAdvance? {
      RxFrame(s);
      assert ApplyRx(s).receiverGone;
    }
  }

  /** Nobody is ever kept from a step, except by the lock, and from dropping a handle by a `send` that
      still borrows it. */
  lemma NothingBlocks<T(!new)>(s: State<T>, t: Tid, h: Handle, value: T)
    requires t in s.pc
    ensures s.pc[t].Fresh? && h in s.handles ==> Enabled(s, CallSend(t, h, value))
    ensures s.pc[t].Fresh? && h in s.handles && (forall u :: u in s.pc && InFlight(s.pc[u]) ==> s.pc[u].h != h) ==>
              Enabled(s, CallDrop(t, h))
    ensures !Finished(s.pc[t]) && (s.pc[t].SendLocking? ==> s.lock.None?) ==> Enabled(s, Advance(t))
    ensures s.rx.RxIdle? ==> Enabled(s, Recv(true)) && Enabled(s, Recv(false)) && Enabled(s, RxDrop)
    ensures s.rx.RxAsleep? ==> Enabled(s, RxSpurious)
    ensures Busy(s.rx) && !s.rx.RxAsleep? && (s.rx.RxLocking? || s.rx.RxRelocking? ==> s.lock.None?) ==>
              Enabled(s, RxAdvance)
  {
  }

  predicate InWait<T>(p: RxPc<T>) {
    p.RxWaitLoad? || p.RxWaitCall? || p.RxAsleep?
  }

  /** The receiver waits on the `seq` it loaded with the lock held, and leaves the wait only when it loads
      a 32-bit `seq` with another value. */
  lemma WaitBounds<T(!new)>(s: State<T>, e: Event<T>)
    requires Enabled(s, e)
    ensures var p, p' := s.rx, Apply(s, e).rx;
            && (p'.RxWaitUnlock? && !p.RxWaitUnlock? ==> p.RxSeqLoad? && e.RxAdvance? && p'.seen == s.bumps)
            && (InWait(p') && !InWait(p) ==> p.RxWaitUnlock? && p'.RxWaitLoad? && p'.seen == p.seen)
            && (InWait(p) && InWait(p') ==> p'.seen == p.seen)
            && (InWait(p) && !InWait(p') ==>
                  && e.RxAdvance? && p.RxWaitLoad? && p'.RxRelocking?
                  && s.bumps % 0x1_0000_0000 != p.seen % 0x1_0000_0000)
  {
    if e.Advance? {
      CallEffect(s, e.t);
      hide ApplyCall;
    } else if e.RxAdvance? {
      if s.rx.RxPop? || s.rx.RxSenders? {
      } else if s.rx.RxWaitUnlock? || s.rx.RxSeqLoad? {
      }
    }
  }
}
