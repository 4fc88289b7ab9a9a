/** The futex `RwLock`: a 32-bit word whose high bit is the writer and whose low 31 bits
    count readers. A `Tid` stands for one call or one live guard, so a thread that holds
    several read guards appears as several of them. */
module RwLock {
  import opened Arithmetic
  import Bits
  import opened Threads

  const RW_WRITER: nat := 0x8000_0000

  /** The `s & RW_WRITER == 0` test on a 32-bit word. */
  predicate NoWriterBit(word: nat) {
    word < RW_WRITER
  }

  /** On 32 bits it is the mask test of the source. */
  lemma NoWriterBitIsMask(word: nat)
    requires word < 0x1_0000_0000
    ensures NoWriterBit(word) <==> Bits.And(word, 0x8000_0000) == 0
  {
    Bits.HighBit();
    Bits.AndPow2(word, RW_WRITER);
  }

  datatype Side = Reader | Writer

  datatype Pc =
    | Idle
    | ReadLoad                           // top of the loop in `read`
    | ReadCas(seen: nat)                 // saw no writer, about to bump the count
    | WriteCas                           // top of the loop in `write`
    | WriteLoad                          // lost the exchange, about to load
    | WaitLoad(side: Side, seen: nat)    // in futex_wait, about to load
    | WaitCall(side: Side, seen: nat)    // about to make the FUTEX_WAIT call
    | Asleep(side: Side, seen: nat)      // in the kernel
    | Reading
    | Writing
    | WakeAllOwed                        // released, about to call futex_wake_all
    | TryReadCas(seen: nat)              // in `try_read`, after its load

  datatype State = State(word: nat, pc: map<Tid, Pc>)

  datatype Event =
    | CallRead(t: Tid)
    | CallWrite(t: Tid)
    | Load(t: Tid)                        // the load of `read` or of `write`
    | CasRead(t: Tid, spurious: bool)     // compare_exchange_weak may fail on its own
    | CasWrite(t: Tid)
    | TryRead(t: Tid)
    | TryReadExchange(t: Tid)
    | TryWrite(t: Tid)
    | WordLoad(t: Tid)                    // the load inside futex_wait
    | FutexWait(t: Tid)
    | Spurious(t: Tid)
    | DropRead(t: Tid)
    | DropWrite(t: Tid)
    | WakeAll(t: Tid)

  predicate Enabled(s: State, e: Event) {
    && e.t in s.pc
    && var p := s.pc[e.t];
       match e
       case CallRead(_) => p.Idle?
       case CallWrite(_) => p.Idle?
       case Load(_) => p.ReadLoad? || p.WriteLoad?
       case CasRead(_, _) => p.ReadCas?
       case CasWrite(_) => p.WriteCas?
       case TryRead(_) => p.Idle?
       case TryReadExchange(_) => p.TryReadCas?
       case TryWrite(_) => p.Idle?
       case WordLoad(_) => p.WaitLoad?
       case FutexWait(_) => p.WaitCall?
       case Spurious(_) => p.Asleep?
       case DropRead(_) => p.Reading?
       case DropWrite(_) => p.Writing?
       case WakeAll(_) => p.WakeAllOwed?
  }

  /** Where a wait goes once the word no longer has the value it saw. */
  function Retry(side: Side): Pc {
    match side case Reader => ReadLoad case Writer => WriteCas
  }

  function Apply(s: State, e: Event): State
    requires Enabled(s, e)
  {
    var t, p, w := e.t, s.pc[e.t], s.word;
    match e
    case CallRead(_) => s.(pc := s.pc[t := ReadLoad])
    case CallWrite(_) => s.(pc := s.pc[t := WriteCas])
    case Load(_) =>
      if p.ReadLoad? then s.(pc := s.pc[t := if NoWriterBit(w) then ReadCas(w) else WaitLoad(Reader, w)])
      else s.(pc := s.pc[t := if w != 0 then WaitLoad(Writer, w) else WriteCas])
    case CasRead(_, spurious) =>
      if w == p.seen && !spurious then State((w + 1) % 0x1_0000_0000, s.pc[t := Reading])
      else s.(pc := s.pc[t := ReadLoad])
    case CasWrite(_) =>
      if w == 0 then State(RW_WRITER, s.pc[t := Writing]) else s.(pc := s.pc[t := WriteLoad])
    case TryRead(_) => if NoWriterBit(w) then s.(pc := s.pc[t := TryReadCas(w)]) else s
    case TryReadExchange(_) =>
      if w == p.seen then State((w + 1) % 0x1_0000_0000, s.pc[t := Reading]) else s.(pc := s.pc[t := Idle])
    case TryWrite(_) => if w == 0 then State(RW_WRITER, s.pc[t := Writing]) else s
    case WordLoad(_) =>
      s.(pc := s.pc[t := if w == p.seen then WaitCall(p.side, p.seen) else Retry(p.side)])
    case FutexWait(_) =>
      s.(pc := s.pc[t := if w == p.seen then Asleep(p.side, p.seen) else WaitLoad(p.side, p.seen)])
    case Spurious(_) => s.(pc := s.pc[t := WaitLoad(p.side, p.seen)])
    case DropRead(_) =>
      State((w + 0xFFFF_FFFF) % 0x1_0000_0000, s.pc[t := if w == 1 then WakeAllOwed else Idle])
    case DropWrite(_) => State(0, s.pc[t := WakeAllOwed])
    case WakeAll(_) =>
      s.(pc := map u | u in s.pc :: if u == t then Idle else Woken(s.pc[u]))
  }

  function Woken(p: Pc): Pc {
    if p.Asleep? then WaitLoad(p.side, p.seen) else p
  }

  // ---- runs ----

  ghost predicate Init(s: State) {
    s.word == 0 && forall t :: t in s.pc ==> s.pc[t] == Idle
  }

  ghost function Readers(s: State): set<Tid> {
    set t | t in s.pc && s.pc[t].Reading?
  }

  ghost function Writers(s: State): set<Tid> {
    set t | t in s.pc && s.pc[t].Writing?
  }

  predicate Legal(s: State, run: seq<Event>)
    decreases |run|
  {
    run == [] || (Enabled(s, run[0]) && Legal(Apply(s, run[0]), run[1..]))
  }

  function Final(s: State, run: seq<Event>): State
    requires Legal(s, run)
    decreases |run|
  {
    if run == [] then s else Final(Apply(s, run[0]), run[1..])
  }

  /** Fewer than 2^31 read guards are live at any time of the run. */
  ghost predicate Bounded(s: State, run: seq<Event>)
    requires Legal(s, run)
    decreases |run|
  {
    |Readers(s)| < RW_WRITER && (run == [] || Bounded(Apply(s, run[0]), run[1..]))
  }

  // ---- what every step keeps ----

  /** The word is the number of readers, at most 2^31, with no writer, or exactly RW_WRITER with
      one writer and no reader. */
  ghost predicate WordCounts(s: State) {
    Counts(Readers(s), Writers(s), s.word)
  }

  ghost predicate Counts(readers: set<Tid>, writers: set<Tid>, word: nat) {
    || (writers == {} && word == |readers| <= RW_WRITER)
    || (|writers| == 1 && readers == {} && word == RW_WRITER)
  }

  ghost predicate WakeAllComing(s: State) {
    exists t :: t in s.pc && s.pc[t] == WakeAllOwed
  }

  ghost predicate SleepersSafe(s: State) {
    forall t :: t in s.pc && s.pc[t].Asleep? ==> WakeAllComing(s) || s.word != 0
  }

  predicate SleepingReader(s: State, t: Tid) {
    t in s.pc && s.pc[t].Asleep? && s.pc[t].side == Reader
  }

  /** A reader sleeps only while the word is the one it waits on, or a wake-all is coming. */
  ghost predicate ReadersSafe(s: State) {
    forall t :: SleepingReader(s, t) ==> WakeAllComing(s) || s.word == RW_WRITER
  }

  /** What a call saw: readers wait only on the writer's word, writers never on 0, and the
      count is only ever bumped from a value without the writer bit. */
  ghost predicate SeenOk(p: Pc) {
    && ((p.WaitLoad? || p.WaitCall? || p.Asleep?) ==>
          if p.side == Reader then p.seen == RW_WRITER else p.seen != 0)
    && ((p.ReadCas? || p.TryReadCas?) ==> NoWriterBit(p.seen))
  }

  ghost predicate Inv(s: State) {
    && WordCounts(s)
    && SleepersSafe(s)
    && (forall t :: t in s.pc ==> SeenOk(s.pc[t]))
  }

  lemma InvStep(s: State, e: Event)
    requires Inv(s) && Enabled(s, e)
    ensures Inv(Apply(s, e))
  {
    CountStep(s, e);
    SleepStep(s, e);
  }

  /** How the reader and writer sets move with the stepping thread. */
  lemma SetsStep(s: State, e: Event)
    requires Enabled(s, e)
    ensures var s' := Apply(s, e);
            && Readers(s') == (if s'.pc[e.t].Reading? then Readers(s) + {e.t} else Readers(s) - {e.t})
            && Writers(s') == (if s'.pc[e.t].Writing? then Writers(s) + {e.t} else Writers(s) - {e.t})
            && (e.t in Readers(s) <==> s.pc[e.t].Reading?)
            && (e.t in Writers(s) <==> s.pc[e.t].Writing?)
  {
  }

  /** What a step does to the word, by what it does to the stepping call's guard. */
  lemma WordStep(s: State, e: Event)
    requires Enabled(s, e) && SeenOk(s.pc[e.t])
    ensures var s', p, p' := Apply(s, e), s.pc[e.t], Apply(s, e).pc[e.t];
            && (p'.Reading? && !p.Reading? ==> NoWriterBit(s.word) && s'.word == s.word + 1)
            && (p'.Writing? && !p.Writing? ==> s.word == 0 && s'.word == RW_WRITER && !p.Reading?)
            && (p.Reading? && s.word != 0 ==> !p'.Reading? && !p'.Writing? && s'.word == (s.word - 1) % 0x1_0000_0000)
            && (p.Writing? ==> !p'.Reading? && !p'.Writing? && s'.word == 0)
            && (!p.Reading? && !p.Writing? && !p'.Reading? && !p'.Writing? ==> s'.word == s.word)
  {
  }

  lemma CountStep(s: State, e: Event)
    requires WordCounts(s) && Enabled(s, e) && SeenOk(s.pc[e.t])
    ensures WordCounts(Apply(s, e))
  {
    SetsStep(s, e);
    WordStep(s, e);
    var s' := Apply(s, e);
    CountSets(Readers(s), Writers(s), s.word, e.t, s'.pc[e.t].Reading?, s'.pc[e.t].Writing?, s'.word);
  }

  /** The counting argument on its own: one call enters or leaves one of the two sets. */
  lemma CountSets(readers: set<Tid>, writers: set<Tid>, word: nat,
                  t: Tid, nowReads: bool, nowWrites: bool, word': nat)
    requires Counts(readers, writers, word)
    requires !(nowReads && nowWrites)
    requires nowReads && t !in readers ==> NoWriterBit(word) && word' == word + 1
    requires nowWrites && t !in writers ==> word == 0 && word' == RW_WRITER && t !in readers
    requires t in readers && word != 0 ==> !nowReads && !nowWrites && word' == (word - 1) % 0x1_0000_0000
    requires t in writers ==> !nowReads && !nowWrites && word' == 0
    requires t !in readers && t !in writers && !nowReads && !nowWrites ==> word' == word
    ensures Counts(if nowReads then readers + {t} else readers - {t},
                   if nowWrites then writers + {t} else writers - {t}, word')
  {
    if t in writers {
      Single(writers, t);
    }
  }

  lemma Single(a: set<Tid>, t: Tid)
    requires |a| == 1 && t in a
    ensures a == {t}
  {
    assert |a - {t}| == 0;
  }

  lemma SleepStep(s: State, e: Event)
    requires Inv(s) && Enabled(s, e)
    ensures SleepersSafe(Apply(s, e))
    ensures forall x :: x in Apply(s, e).pc ==> SeenOk(Apply(s, e).pc[x])
  {
    var s', t := Apply(s, e), e.t;
    assert s.pc[t].Writing? ==> t in Writers(s);
    assert s.pc[t].Reading? ==> t in Readers(s);
    forall x | x in s'.pc && s'.pc[x].Asleep?
      ensures WakeAllComing(s') || s'.word != 0
    {
      if s'.pc[t] == WakeAllOwed || x == t || e.WakeAll? {
      } else {
        assert s.pc[x].Asleep?;
        if o :| o in s.pc && s.pc[o] == WakeAllOwed { assert s'.pc[o] == WakeAllOwed; }
      }
    }
  }

  lemma {:induction false} InvRun(s: State, run: seq<Event>)
    requires Inv(s) && Legal(s, run)
    ensures Inv(Final(s, run))
    decreases |run|
  {
    hide Inv, Enabled, Apply;
    if run != [] {
      InvStep(s, run[0]);
      InvRun(Apply(s, run[0]), run[1..]);
    }
  }

  lemma InitInv(s: State)
    requires Init(s)
    ensures Inv(s) && ReadersSafe(s)
  {
    assert Readers(s) == {} && Writers(s) == {};
  }

  /** The RwLock claim over every run: the word counts the readers or is the writer's, whose guard
      is then the only one; no sleeper is forgotten; and the high bit tells whether there is a
      writer if and only if fewer than 2^31 readers are live. */
  lemma {:induction false} Safety(s: State, run: seq<Event>)
    requires Init(s) && Legal(s, run)
    ensures var f := Final(s, run);
            && WordCounts(f)
            && SleepersSafe(f)
            && ((NoWriterBit(f.word) <==> Writers(f) == {}) <==> |Readers(f)| < RW_WRITER)
            && (Bounded(s, run) ==> ReadersSafe(f))
  {
    InitInv(s);
    InvRun(s, run);
    if Bounded(s, run) {
      ReadersSafeRun(s, run);
    }
    BoundIsExact(Final(s, run));
  }

  /** The bound for the writer bit is exact. */
  lemma BoundIsExact(s: State)
    requires WordCounts(s)
    ensures (NoWriterBit(s.word) <==> Writers(s) == {}) <==> |Readers(s)| < RW_WRITER
  {
  }

  // ---- what a call does to its caller ----

  datatype Stage = Outside | WantsRead | WantsWrite | TriesRead | Reads | Writes | Releases

  /** Where a call's client is. */
  function StageOf(p: Pc): Stage {
    match p
    case Idle => Outside
    case ReadLoad => WantsRead
    case ReadCas(_) => WantsRead
    case WriteCas => WantsWrite
    case WriteLoad => WantsWrite
    case WaitLoad(side, _) => Wants(side)
    case WaitCall(side, _) => Wants(side)
    case Asleep(side, _) => Wants(side)
    case Reading => Reads
    case Writing => Writes
    case WakeAllOwed => Releases
    case TryReadCas(_) => TriesRead
  }

  function Wants(side: Side): Stage {
    match side case Reader => WantsRead case Writer => WantsWrite
  }

  ghost predicate Unlocked(s: State) {
    Readers(s) == {} && Writers(s) == {}
  }

  /** How a step may move its call. `read` and `write` return only with their own guard, the first when
      there is no writer, the second when there is nobody; `try_write` gets it exactly then and
      otherwise changes nothing; `try_read` gets it or is back after at most two steps, and is refused
      at once exactly if there is a writer or the count is full; a dropped guard owes a wake if it was
      the only one. */
  ghost predicate Moves(s: State, e: Event, before: Stage, after: Stage, s': State) {
    match e
    case CallRead(_) => before == Outside && after == WantsRead
    case CallWrite(_) => before == Outside && after == WantsWrite
    case TryRead(_) =>
      before == Outside && if Writers(s) == {} && |Readers(s)| < RW_WRITER then after == TriesRead else s' == s
    case TryReadExchange(_) => before == TriesRead && (after == Outside || (after == Reads && Writers(s) == {}))
    case TryWrite(_) => before == Outside && if Unlocked(s) then after == Writes else s' == s
    case CasWrite(_) => before == WantsWrite && after == if Unlocked(s) then Writes else WantsWrite
    case CasRead(_, _) => before == WantsRead && (after == WantsRead || (after == Reads && Writers(s) == {}))
    case DropRead(_) => before == Reads && after == if Readers(s) == {e.t} then Releases else Outside
    case DropWrite(_) => before == Writes && after == Releases && Unlocked(s')
    case WakeAll(_) => before == Releases && after == Outside
    case _ => after == before && (before == WantsRead || before == WantsWrite)
  }

  /** Every step moves its own call as it promises, and no other. */
  lemma ClientStep(s: State, e: Event)
    requires Inv(s) && Enabled(s, e)
    ensures var s' := Apply(s, e);
            && s'.pc.Keys == s.pc.Keys && Moves(s, e, StageOf(s.pc[e.t]), StageOf(s'.pc[e.t]), s')
            && forall u :: u in s.pc && u != e.t ==> StageOf(s'.pc[u]) == StageOf(s.pc[u])
  {
    hide WordCounts, Readers, Writers, SleepersSafe;
    CountStep(s, e);
    WordTells(s);
    WordTells(Apply(s, e));
    if e.DropRead? {
      LastReader(s, e.t);
    }
    OwnMove(s, e);
    OthersStay(s, e);
  }

  /** What the word says of the guards. */
  lemma WordTells(s: State)
    requires WordCounts(s)
    ensures s.word == 0 <==> Unlocked(s)
    ensures NoWriterBit(s.word) <==> Writers(s) == {} && |Readers(s)| < RW_WRITER
  {
  }

  lemma LastReader(s: State, t: Tid)
    requires WordCounts(s) && t in s.pc && s.pc[t].Reading?
    ensures s.word == 1 <==> Readers(s) == {t}
  {
    assert t in Readers(s);
    if s.word == 1 { Single(Readers(s), t); }
  }

  lemma OwnMove(s: State, e: Event)
    requires Enabled(s, e) && SeenOk(s.pc[e.t]) && (s.word == 0 <==> Unlocked(s))
    requires NoWriterBit(s.word) <==> Writers(s) == {} && |Readers(s)| < RW_WRITER
    requires Apply(s, e).word == 0 <==> Unlocked(Apply(s, e))
    requires e.DropRead? ==> (s.word == 1 <==> Readers(s) == {e.t})
    ensures Moves(s, e, StageOf(s.pc[e.t]), StageOf(Apply(s, e).pc[e.t]), Apply(s, e))
  {
    hide Readers, Writers, Unlocked;
    if e.Load? || e.CasRead? || e.CasWrite? {
    } else if e.TryRead? || e.TryReadExchange? || e.TryWrite? {
    } else if e.WordLoad? || e.FutexWait? || e.Spurious? {
    }
  }

  lemma OthersStay(s: State, e: Event)
    requires Enabled(s, e)
    ensures var s' := Apply(s, e);
            && s'.pc.Keys == s.pc.Keys
            && forall u :: u in s.pc && u != e.t ==> StageOf(s'.pc[u]) == StageOf(s.pc[u])
  {
  }

  /** An undisturbed `try_read` gets its guard unless there is a writer or the count is full. */
  lemma TryReadAlone(s: State, t: Tid)
    requires Inv(s) && t in s.pc && s.pc[t].Idle? && Writers(s) == {} && |Readers(s)| < RW_WRITER
    ensures Enabled(s, TryRead(t))
    ensures var s' := Apply(s, TryRead(t));
            Enabled(s', TryReadExchange(t)) && Readers(Apply(s', TryReadExchange(t))) == Readers(s) + {t}
  {
    WordTells(s);
    SetsStep(s, TryRead(t));
    SetsStep(Apply(s, TryRead(t)), TryReadExchange(t));
  }

  /** Nobody is ever kept from a step: a call can be made, one that is awake can go on, and a sleeper can
      return on its own. */
  lemma NothingBlocks(s: State, t: Tid)
    requires t in s.pc
    ensures s.pc[t].Idle? ==>
              Enabled(s, CallRead(t)) && Enabled(s, CallWrite(t)) && Enabled(s, TryRead(t)) && Enabled(s, TryWrite(t))
    ensures s.pc[t].Asleep? ==> Enabled(s, Spurious(t))
    ensures s.pc[t].ReadCas? ==> Enabled(s, CasRead(t, true)) && Enabled(s, CasRead(t, false))
    ensures exists e :: Enabled(s, e) && e.t == t
  {
    var e := match s.pc[t] {
      case Idle => CallRead(t)
      case ReadLoad => Load(t)
      case ReadCas(_) => CasRead(t, false)
      case WriteCas => CasWrite(t)
      case WriteLoad => Load(t)
      case WaitLoad(_, _) => WordLoad(t)
      case WaitCall(_, _) => FutexWait(t)
      case Asleep(_, _) => Spurious(t)
      case Reading => DropRead(t)
      case Writing => DropWrite(t)
      case WakeAllOwed => WakeAll(t)
      case TryReadCas(_) => TryReadExchange(t)
    };
    assert Enabled(s, e);
  }

  predicate InWait(p: Pc) {
    p.WaitLoad? || p.WaitCall? || p.Asleep?
  }

  /** A call enters `futex_wait`, at its load, only on a word it has just seen taken, and leaves it, to
      try again, only when it loads another one. */
  lemma WaitBounds(s: State, e: Event, u: Tid)
    requires Enabled(s, e) && u in s.pc
    ensures var s' := Apply(s, e);
            && u in s'.pc
            && (InWait(s'.pc[u]) && !InWait(s.pc[u]) ==>
                  && e == Load(u) && s'.pc[u].WaitLoad? && s'.pc[u].seen == s.word
                  && if s'.pc[u].side == Reader then !NoWriterBit(s.word) else s.word != 0)
            && (InWait(s.pc[u]) && !InWait(s'.pc[u]) ==> e == WordLoad(u) && s.word != s.pc[u].seen)
            && (InWait(s.pc[u]) && InWait(s'.pc[u]) ==> s'.pc[u].seen == s.pc[u].seen)
  {
  }

  // ---- what needs the bound ----

  /** The step that leaves a sleeping reader behind: a reader drops its guard, without a wake, when
      2^31 readers were live and their count passed for the writer's word. */
  ghost predicate Forgets(s: State, e: Event) {
    && e.DropRead? && |Readers(s)| == RW_WRITER && !WakeAllComing(s)
    && exists x :: SleepingReader(s, x)
  }

  /** A step keeps the clause for sleeping readers if and only if it is not that one. */
  lemma ReadersSafeStep(s: State, e: Event)
    requires Inv(s) && ReadersSafe(s) && Enabled(s, e)
    ensures ReadersSafe(Apply(s, e)) <==> !Forgets(s, e)
  {
    var s', t := Apply(s, e), e.t;
    assert s.pc[t].Writing? ==> t in Writers(s);
    assert s.pc[t].Reading? ==> t in Readers(s);
    if Forgets(s, e) {
      var x :| SleepingReader(s, x);
      assert SleepingReader(s', x) && s'.word == RW_WRITER - 1;
      assert !WakeAllComing(s');
    } else {
      forall x | SleepingReader(s', x)
        ensures WakeAllComing(s') || s'.word == RW_WRITER
      {
        SafeReader(s, e, x);
      }
    }
  }

  lemma SafeReader(s: State, e: Event, x: Tid)
    requires Inv(s) && ReadersSafe(s) && Enabled(s, e) && !Forgets(s, e) && SleepingReader(Apply(s, e), x)
    ensures WakeAllComing(Apply(s, e)) || Apply(s, e).word == RW_WRITER
  {
    var s', t := Apply(s, e), e.t;
    assert SeenOk(s.pc[t]);
    assert s.pc[t].Writing? ==> t in Writers(s);
    assert s.pc[t].Reading? ==> t in Readers(s);
    if s'.pc[t] == WakeAllOwed || x == t || e.WakeAll? {
    } else {
      assert SleepingReader(s, x);
      if o :| o in s.pc && s.pc[o] == WakeAllOwed { assert s'.pc[o] == WakeAllOwed; }
    }
  }

  lemma {:induction false} ReadersSafeRun(s: State, run: seq<Event>)
    requires Inv(s) && ReadersSafe(s) && Legal(s, run) && Bounded(s, run)
    ensures ReadersSafe(Final(s, run))
    decreases |run|
  {
    hide Inv, Enabled, Apply, ReadersSafe, Readers;
    if run != [] {
      InvStep(s, run[0]);
      ReadersSafeStep(s, run[0]);
      ReadersSafeRun(Apply(s, run[0]), run[1..]);
    }
  }

  /** `ReadersSafe` in every state of a run. */
  ghost predicate AlwaysSafe(s: State, run: seq<Event>)
    requires Legal(s, run)
    decreases |run|
  {
    ReadersSafe(s) && (run == [] || AlwaysSafe(Apply(s, run[0]), run[1..]))
  }

  ghost predicate NeverForgets(s: State, run: seq<Event>)
    requires Legal(s, run)
    decreases |run|
  {
    run == [] || (!Forgets(s, run[0]) && NeverForgets(Apply(s, run[0]), run[1..]))
  }

  /** Over whole runs: no state of a run leaves a sleeping reader behind if and only if no step of it
      is that one. */
  lemma {:induction false} ReadersSafeExactly(s: State, run: seq<Event>)
    requires Init(s) && Legal(s, run)
    ensures AlwaysSafe(s, run) <==> NeverForgets(s, run)
  {
    InitInv(s);
    SafeFromHere(s, run);
  }

  lemma {:induction false} SafeFromHere(s: State, run: seq<Event>)
    requires Inv(s) && ReadersSafe(s) && Legal(s, run)
    ensures AlwaysSafe(s, run) <==> NeverForgets(s, run)
    decreases |run|
  {
    hide Inv, Enabled, Apply, ReadersSafe, Forgets;
    if run != [] {
      var s' := Apply(s, run[0]);
      InvStep(s, run[0]);
      ReadersSafeStep(s, run[0]);
      if ReadersSafe(s') {
        SafeFromHere(s', run[1..]);
      } else {
        assert !AlwaysSafe(s', run[1..]);
      }
    }
  }

  lemma {:induction false} Append(s: State, a: seq<Event>, b: seq<Event>)
    requires Legal(s, a) && Legal(Final(s, a), b)
    ensures Legal(s, a + b) && Final(s, a + b) == Final(Final(s, a), b)
    decreases |a|
  {
    hide Enabled, Apply;
    if a == [] {
      assert a + b == b;
    } else {
      assert (a + b)[1..] == a[1..] + b;
      Append(Apply(s, a[0]), a[1..], b);
    }
  }

  /** `n` read guards are live, and calls up to 2^31 are still to come. */
  ghost function Crowd(n: nat): State {
    State(n, map t: nat | t <= RW_WRITER :: Role(n, t))
  }

  function Role(n: nat, t: Tid): Pc {
    if t < n then Reading else Idle
  }

  lemma EnterOne(n: nat) returns (run: seq<Event>)
    requires n < RW_WRITER
    ensures Legal(Crowd(n), run) && Final(Crowd(n), run) == Crowd(n + 1)
  {
    var s := Crowd(n);
    var s1 := s.(pc := s.pc[n := ReadLoad]);
    var s2 := s.(pc := s.pc[n := ReadCas(n)]);
    assert Apply(s, CallRead(n)) == s1;
    assert Apply(s1, Load(n)) == s2 by { assert s1.pc[n := ReadCas(n)] == s2.pc; }
    assert Apply(s2, CasRead(n, false)) == Crowd(n + 1) by { assert s2.pc[n := Reading] == Crowd(n + 1).pc; }
    One(s2, CasRead(n, false));
    One(s1, Load(n));
    One(s, CallRead(n));
    Append(s1, [Load(n)], [CasRead(n, false)]);
    run := [CallRead(n)] + ([Load(n)] + [CasRead(n, false)]);
    Append(s, [CallRead(n)], [Load(n)] + [CasRead(n, false)]);
  }

  lemma One(s: State, e: Event)
    requires Enabled(s, e)
    ensures Legal(s, [e]) && Final(s, [e]) == Apply(s, e)
  {
    assert [e][1..] == [];
  }

  lemma {:induction false} EnterMany(n: nat) returns (run: seq<Event>)
    requires n <= RW_WRITER
    ensures Legal(Crowd(0), run) && Final(Crowd(0), run) == Crowd(n)
  {
    hide Crowd, Legal, Final;
    if n == 0 {
      run := [];
      Nothing(Crowd(0));
    } else {
      var before := EnterMany(n - 1);
      var last := EnterOne(n - 1);
      Append(Crowd(0), before, last);
      run := before + last;
    }
  }

  lemma Nothing(s: State)
    ensures Legal(s, []) && Final(s, []) == s
  {
  }

  /** The bound is needed: 2^31 readers enter, one more sleeps on their count, and when one of them
      leaves it sleeps on with neither a writer nor a wake to come. */
  lemma ForgottenReader() returns (s: State, run: seq<Event>)
    ensures Init(s) && Legal(s, run) && Writers(Final(s, run)) == {} && !ReadersSafe(Final(s, run))
  {
    s := Crowd(0);
    var full, c := Crowd(RW_WRITER), RW_WRITER;
    CrowdFacts();
    hide Crowd, Legal, Final, Apply;
    var enter := EnterMany(RW_WRITER);
    var sleep := FallAsleep(full, c);
    var s4 := full.(pc := full.pc[c := Asleep(Reader, c)]);
    One(s4, DropRead(0));
    Append(full, sleep, [DropRead(0)]);
    Append(s, enter, sleep + [DropRead(0)]);
    run := enter + (sleep + [DropRead(0)]);
    LeftBehind(s4);
  }

  lemma CrowdFacts()
    ensures Init(Crowd(0))
    ensures var full := Crowd(RW_WRITER);
            && full.word == RW_WRITER && RW_WRITER in full.pc && full.pc[RW_WRITER] == Idle
            && 0 in full.pc && full.pc[0] == Reading
            && forall t :: t in full.pc && t != RW_WRITER ==> full.pc[t] == Reading
  {
  }

  lemma LeftBehind(s: State)
    requires s.word == RW_WRITER && 0 in s.pc && s.pc[0] == Reading && SleepingReader(s, RW_WRITER)
    requires forall t :: t in s.pc && t != RW_WRITER ==> s.pc[t] == Reading
    ensures var f := Apply(s, DropRead(0)); Writers(f) == {} && !ReadersSafe(f)
  {
    var f := Apply(s, DropRead(0));
    assert f == State(RW_WRITER - 1, s.pc[0 := Idle]);
    assert SleepingReader(f, RW_WRITER) && !WakeAllComing(f);
  }

  lemma FallAsleep(s: State, t: Tid) returns (run: seq<Event>)
    requires s.word == RW_WRITER && t in s.pc && s.pc[t] == Idle
    ensures Legal(s, run) && Final(s, run) == s.(pc := s.pc[t := Asleep(Reader, RW_WRITER)])
  {
    var s1 := s.(pc := s.pc[t := ReadLoad]);
    var s2 := s.(pc := s.pc[t := WaitLoad(Reader, RW_WRITER)]);
    var s3 := s.(pc := s.pc[t := WaitCall(Reader, RW_WRITER)]);
    var s4 := s.(pc := s.pc[t := Asleep(Reader, RW_WRITER)]);
    assert Apply(s1, Load(t)) == s2 by { assert s1.pc[t := s2.pc[t]] == s2.pc; }
    assert Apply(s2, WordLoad(t)) == s3 by { assert s2.pc[t := s3.pc[t]] == s3.pc; }
    assert Apply(s3, FutexWait(t)) == s4 by { assert s3.pc[t := s4.pc[t]] == s4.pc; }
    One(s, CallRead(t));
    One(s1, Load(t));
    One(s2, WordLoad(t));
    One(s3, FutexWait(t));
    Append(s2, [WordLoad(t)], [FutexWait(t)]);
    Append(s1, [Load(t)], [WordLoad(t)] + [FutexWait(t)]);
    run := [CallRead(t)] + ([Load(t)] + ([WordLoad(t)] + [FutexWait(t)]));
    Append(s, [CallRead(t)], [Load(t)] + ([WordLoad(t)] + [FutexWait(t)]));
  }

  // ---- no deadlock: from every reachable state the work can be finished ----

  function Weight(p: Pc): nat {
    match p
    case Asleep(_, _) => 10
    case WaitCall(_, _) => 9
    case WaitLoad(_, _) => 8
    case ReadCas(seen) => if seen == 0 then 4 else 6
    case ReadLoad => 5
    case WriteLoad => 5
    case WriteCas => 4
    case TryReadCas(_) => 4
    case Reading => 3
    case Writing => 3
    case WakeAllOwed => 1
    case Idle => 0
  }

  ghost predicate Quiet(s: State) {
    forall t :: t in s.pc ==> s.pc[t] == Idle
  }

  predicate NewCallOrSpurious(e: Event) {
    || e.CallRead? || e.CallWrite? || e.TryRead? || e.TryWrite?
    || e.Spurious? || (e.CasRead? && e.spurious)
  }

  /** A step lightens no thread but its own, except that a wake-all lightens sleepers too. */
  lemma StepDrop(s: State, e: Event)
    requires Enabled(s, e) && Weight(Apply(s, e).pc[e.t]) < Weight(s.pc[e.t])
    ensures Total(Apply(s, e).pc, Weight) < Total(s.pc, Weight)
  {
    var pc' := Apply(s, e).pc;
    assert forall u :: u in s.pc && u != e.t ==> pc'[u] == s.pc[u] || pc'[u] == Woken(s.pc[u]);
    TotalDrop(s.pc, pc', e.t, Weight);
  }

  lemma PickWaiting(s: State, t: Tid) returns (e: Event)
    requires s.word == 0 && t in s.pc && SeenOk(s.pc[t])
    requires s.pc[t] != Idle && !s.pc[t].Asleep? && !s.pc[t].Reading? && !s.pc[t].Writing?
    ensures Enabled(s, e) && e.t == t && !NewCallOrSpurious(e)
    ensures Weight(Apply(s, e).pc[t]) < Weight(s.pc[t])
  {
    e := match s.pc[t]
         case ReadCas(_) => CasRead(t, false)
         case TryReadCas(_) => TryReadExchange(t)
         case WriteCas => CasWrite(t)
         case WaitLoad(_, _) => WordLoad(t)
         case WaitCall(_, _) => FutexWait(t)
         case WakeAllOwed => WakeAll(t)
         case _ => Load(t);
  }

  /** In every state that is not quiet some call can make progress. */
  lemma Progress(s: State) returns (e: Event)
    requires Inv(s) && !Quiet(s)
    ensures Enabled(s, e) && !NewCallOrSpurious(e)
    ensures Total(Apply(s, e).pc, Weight) < Total(s.pc, Weight)
  {
    if r :| r in Readers(s) {
      e := DropRead(r);
    } else if w :| w in Writers(s) {
      e := DropWrite(w);
    } else {
      assert Readers(s) == {} && Writers(s) == {} && s.word == 0;
      var t :| t in s.pc && s.pc[t] != Idle;
      if o :| o in s.pc && s.pc[o] == WakeAllOwed { t := o; }
      assert t !in Readers(s) && t !in Writers(s);
      assert SeenOk(s.pc[t]) && !s.pc[t].Asleep?;
      e := PickWaiting(s, t);
    }
    StepDrop(s, e);
  }

  /** From every reachable state there is a continuation, with no new calls, after which every
      pending `read` and `write` has got its guard and every guard has been dropped. */
  lemma {:induction false} Drain(s: State) returns (run: seq<Event>)
    requires Inv(s)
    ensures Legal(s, run) && Quiet(Final(s, run))
    ensures |run| <= Total(s.pc, Weight) <= |s.pc| * 10
    ensures forall i :: 0 <= i < |run| ==> !NewCallOrSpurious(run[i])
    decreases Total(s.pc, Weight)
  {
    hide Inv, Enabled, Apply, Quiet, NewCallOrSpurious;
    TotalBound(s.pc, Weight, 10);
    if Quiet(s) {
      run := [];
    } else {
      var e := Progress(s);
      InvStep(s, e);
      var rest := Drain(Apply(s, e));
      run := [e] + rest;
    }
  }

  // ---- no livelock: without new calls every schedule comes to an end ----

  /** How often a call can still change the word: to get its guard and to drop it. */
  function Changes(p: Pc): nat {
    match p
    case Idle => 0
    case WakeAllOwed => 0
    case Reading => 1
    case Writing => 1
    case _ => 2
  }

  /** Steps a call can take before the word changes again. A wake-all of `n` calls pays for what
      the woken ones then do. */
  function Local(word: nat, n: nat, p: Pc): nat {
    match p
    case ReadLoad => 4
    case ReadCas(seen) => if seen == word then 1 else 5
    case WriteCas => if word == 0 then 1 else 5
    case WriteLoad => 4
    case WaitLoad(_, seen) => if seen == word then 3 else 6
    case WaitCall(_, seen) => if seen == word then 2 else 7
    case WakeAllOwed => 6 * n + 7
    case _ => 0
  }

  ghost function Locals(s: State): map<Tid, nat> {
    map t | t in s.pc :: Local(s.word, |s.pc|, s.pc[t])
  }

  ghost function ChangesLeft(s: State): nat {
    Total(s.pc, Changes)
  }

  ghost function Phase(n: nat): nat {
    n * (6 * n + 7) + 1
  }

  ghost function Measure(s: State): nat {
    ChangesLeft(s) * Phase(|s.pc|) + Total(Locals(s), Id)
  }

  lemma LocalsBound(s: State)
    ensures Total(Locals(s), Id) < Phase(|s.pc|)
  {
    assert Locals(s).Keys == s.pc.Keys;
    TotalBound(Locals(s), Id, 6 * |s.pc| + 7);
  }

  lemma LocalShrinks(s: State, s': State)
    requires s'.pc.Keys == s.pc.Keys && ChangesLeft(s') == ChangesLeft(s)
    requires Total(Locals(s'), Id) < Total(Locals(s), Id)
    ensures Measure(s') < Measure(s)
  {
    hide Phase;
    assert |s'.pc| == |s.pc|;
  }

  lemma ChangeShrinks(s: State, s': State)
    requires s'.pc.Keys == s.pc.Keys && ChangesLeft(s') < ChangesLeft(s)
    ensures Measure(s') < Measure(s)
  {
    hide Phase;
    assert |s'.pc| == |s.pc|;
    LocalsBound(s');
    MulSucc(ChangesLeft(s'), Phase(|s.pc|));
    MulMono(ChangesLeft(s') + 1, ChangesLeft(s), Phase(|s.pc|));
  }

  /** What any step but a wake-all does: it uses up a change, or it is one of the stepping call's
      own steps under the same word. */
  lemma StepKinds(s: State, e: Event)
    requires Enabled(s, e) && !NewCallOrSpurious(e) && !e.WakeAll?
    ensures var s', p, p' := Apply(s, e), s.pc[e.t], Apply(s, e).pc[e.t];
            && s'.pc == s.pc[e.t := p']
            && (|| Changes(p') < Changes(p)
                || (&& Changes(p') == Changes(p) && s'.word == s.word
                    && Local(s.word, |s.pc|, p') < Local(s.word, |s.pc|, p)))
  {
  }

  lemma OwnStepShrinks(s: State, e: Event)
    requires Enabled(s, e) && !NewCallOrSpurious(e) && !e.WakeAll?
    ensures Measure(Apply(s, e)) < Measure(s)
  {
    StepKinds(s, e);
    hide Measure, Total, Apply, Local, Changes, NewCallOrSpurious;
    var s', p' := Apply(s, e), Apply(s, e).pc[e.t];
    TotalUpdate(s.pc, e.t, p', Changes);
    assert s'.pc.Keys == s.pc.Keys && |s'.pc| == |s.pc|;
    if Changes(p') < Changes(s.pc[e.t]) {
      ChangeShrinks(s, s');
    } else {
      TotalUpdate(Locals(s), e.t, Local(s.word, |s.pc|, p'), Id);
      assert Locals(s') == Locals(s)[e.t := Local(s.word, |s.pc|, p')];
      LocalShrinks(s, s');
    }
  }

  lemma WakeAllLocal(s: State, t: Tid, u: Tid)
    requires Enabled(s, WakeAll(t)) && u in s.pc
    ensures var s', n := Apply(s, WakeAll(t)), |s.pc|;
            && s'.pc.Keys == s.pc.Keys && s'.word == s.word
            && Changes(s'.pc[u]) == Changes(s.pc[u])
            && Local(s.word, n, s'.pc[u]) <= (if u == t then 0 else Local(s.word, n, s.pc[u])) + 6
            && Local(s.word, n, s.pc[t]) == 6 * n + 7
  {
  }

  lemma WakeAllShrinks(s: State, t: Tid)
    requires Enabled(s, WakeAll(t))
    ensures Measure(Apply(s, WakeAll(t))) < Measure(s)
  {
    WakeAllLocal(s, t, t);
    hide Measure, Total, Apply, Local, Changes;
    var s', n := Apply(s, WakeAll(t)), |s.pc|;
    var paid := Locals(s)[t := 0];
    assert |s'.pc| == n && |paid| == n by { assert paid.Keys == s.pc.Keys; }
    forall u | u in s.pc
      ensures Changes(s'.pc[u]) == Changes(s.pc[u]) && Locals(s')[u] <= paid[u] + 6
    {
      WakeAllLocal(s, t, u);
    }
    TotalSame(s.pc, s'.pc, Changes);
    TotalUpdate(Locals(s), t, 0, Id);
    TotalRaise(paid, Locals(s'), 6);
    LocalShrinks(s, s');
  }

  lemma Shrinks(s: State, e: Event)
    requires Enabled(s, e) && !NewCallOrSpurious(e)
    ensures Measure(Apply(s, e)) < Measure(s) && |Apply(s, e).pc| == |s.pc|
  {
    hide Measure;
    assert Apply(s, e).pc.Keys == s.pc.Keys;
    if e.WakeAll? {
      WakeAllShrinks(s, e.t);
    } else {
      OwnStepShrinks(s, e);
    }
  }

  lemma {:induction false} RunShrinks(s: State, run: seq<Event>)
    requires Legal(s, run) && forall i :: 0 <= i < |run| ==> !NewCallOrSpurious(run[i])
    ensures |run| + Measure(Final(s, run)) <= Measure(s)
    decreases |run|
  {
    hide Measure, Enabled, Apply;
    if run != [] {
      Shrinks(s, run[0]);
      RunShrinks(Apply(s, run[0]), run[1..]);
    }
  }

  lemma MeasureBound(s: State)
    ensures Measure(s) < (2 * |s.pc| + 1) * Phase(|s.pc|)
  {
    hide Phase;
    LocalsBound(s);
    TotalBound(s.pc, Changes, 2);
    MulMono(ChangesLeft(s) + 1, 2 * |s.pc| + 1, Phase(|s.pc|));
    MulSucc(ChangesLeft(s), Phase(|s.pc|));
  }

  /** Every schedule ends: a run without new calls and spurious failures has at most as many steps
      as a cubic bound in the number of calls, and where it cannot go on, all is quiet. */
  lemma {:induction false} EveryScheduleEnds(s: State, run: seq<Event>)
    requires Inv(s) && Legal(s, run) && forall i :: 0 <= i < |run| ==> !NewCallOrSpurious(run[i])
    ensures |run| < (2 * |s.pc| + 1) * Phase(|s.pc|)
    ensures (forall e :: Enabled(Final(s, run), e) ==> NewCallOrSpurious(e)) ==> Quiet(Final(s, run))
  {
    RunShrinks(s, run);
    MeasureBound(s);
    InvRun(s, run);
    var f := Final(s, run);
    if !Quiet(f) {
      var e := Progress(f);
      assert Enabled(f, e) && !NewCallOrSpurious(e);
    }
  }
}
