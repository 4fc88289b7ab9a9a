/** Vocabulary shared by the futex protocols: thread identifiers, program-counter maps,
    the abstract lock that `Mutex` implements, and a weight over all threads used to
    measure how much work is left. */
module Threads {
  import opened Arithmetic
  import opened Wrappers

  type Tid = nat

  /** The sum of `w` over the program counters of all threads. */
  ghost function Total<P(!new)>(pc: map<Tid, P>, w: P -> nat): (n: nat)
  {
    if pc == map[] then 0
    else
      var t :| t in pc;
      w(pc[t]) + Total(pc - {t}, w)
  }

  /** The weight of a number is the number. */
  function Id(n: nat): nat {
    n
  }

  /** Which thread is counted first does not matter. */
  lemma {:induction false} TotalSplit<P(!new)>(pc: map<Tid, P>, t: Tid, w: P -> nat)
    requires t in pc
    ensures Total(pc, w) == w(pc[t]) + Total(pc - {t}, w)
    decreases |pc|
  {
    var u :| u in pc && Total(pc, w) == w(pc[u]) + Total(pc - {u}, w);
    if u != t {
      assert |pc - {u}| < |pc| by { assert (pc - {u}).Keys < pc.Keys; CardMono((pc - {u}).Keys, pc.Keys); }
      assert |pc - {t}| < |pc| by { assert (pc - {t}).Keys < pc.Keys; CardMono((pc - {t}).Keys, pc.Keys); }
      TotalSplit(pc - {u}, t, w);
      TotalSplit(pc - {t}, u, w);
      assert pc - {u} - {t} == pc - {t} - {u};
    }
  }

  lemma {:induction false} CardMono(a: set<Tid>, b: set<Tid>)
    requires a < b
    ensures |a| < |b|
  {
    var x :| x in b && x !in a;
    SubsetCard(a, b - {x});
  }

  lemma {:induction false} SubsetCard<T>(a: set<T>, b: set<T>)
    requires a <= b
    ensures |a| <= |b|
  {
    if a != {} {
      var x :| x in a;
      SubsetCard(a - {x}, b - {x});
    }
  }

  /** Moving one thread changes the total by the difference of its weights. */
  lemma {:induction false} TotalUpdate<P(!new)>(pc: map<Tid, P>, t: Tid, p: P, w: P -> nat)
    requires t in pc
    ensures Total(pc[t := p], w) == Total(pc, w) - w(pc[t]) + w(p)
  {
    TotalSplit(pc, t, w);
    TotalSplit(pc[t := p], t, w);
    assert pc[t := p] - {t} == pc - {t};
  }

  /** If no thread gets heavier and thread `t` gets lighter, the total drops. */
  lemma {:induction false} TotalDrop<P(!new)>(pc: map<Tid, P>, pc': map<Tid, P>, t: Tid, w: P -> nat)
    requires pc.Keys == pc'.Keys && t in pc
    requires forall u :: u in pc ==> w(pc'[u]) <= w(pc[u])
    requires w(pc'[t]) < w(pc[t])
    ensures Total(pc', w) < Total(pc, w)
  {
    TotalSplit(pc, t, w);
    TotalSplit(pc', t, w);
    TotalMono(pc - {t}, pc' - {t}, w);
  }

  lemma {:induction false} TotalMono<P(!new)>(pc: map<Tid, P>, pc': map<Tid, P>, w: P -> nat)
    requires pc.Keys == pc'.Keys
    requires forall u :: u in pc ==> w(pc'[u]) <= w(pc[u])
    ensures Total(pc', w) <= Total(pc, w)
    decreases |pc|
  {
    if pc != map[] {
      var t :| t in pc;
      TotalSplit(pc, t, w);
      TotalSplit(pc', t, w);
      CardMono((pc - {t}).Keys, pc.Keys);
      TotalMono(pc - {t}, pc' - {t}, w);
    } else {
      assert pc' == map[];
    }
  }

  /** A total is at most the heaviest weight times the number of threads. */
  lemma {:induction false} TotalBound<P(!new)>(pc: map<Tid, P>, w: P -> nat, max: nat)
    requires forall u :: u in pc ==> w(pc[u]) <= max
    ensures Total(pc, w) <= |pc| * max
    decreases |pc|
  {
    assert pc == map[] ==> Total(pc, w) == 0;
    hide Total;
    if pc != map[] {
      var t :| t in pc;
      var rest := pc - {t};
      TotalSplit(pc, t, w);
      assert |pc| == |rest| + 1 by { assert rest.Keys == pc.Keys - {t}; }
      TotalBound(rest, w, max);
      MulSucc(|rest|, max);
    }
  }

  /** If no thread gets heavier by more than `d`, the total grows by at most `d` a thread. */
  lemma {:induction false} TotalRaise(m: map<Tid, nat>, m': map<Tid, nat>, d: nat)
    requires m.Keys == m'.Keys
    requires forall u :: u in m ==> m'[u] <= m[u] + d
    ensures Total(m', Id) <= Total(m, Id) + |m| * d
    decreases |m|
  {
    assert m == map[] ==> m' == map[] && Total(m', Id) == 0;
    hide Total;
    if m != map[] {
      var t :| t in m;
      var rest, rest' := m - {t}, m' - {t};
      TotalSplit(m, t, Id);
      TotalSplit(m', t, Id);
      assert |m| == |rest| + 1 by { assert rest.Keys == m.Keys - {t}; }
      TotalRaise(rest, rest', d);
      MulSucc(|rest|, d);
    }
  }

  /** A total depends only on the weights. */
  lemma TotalSame<P(!new)>(pc: map<Tid, P>, pc': map<Tid, P>, w: P -> nat)
    requires pc.Keys == pc'.Keys
    requires forall u :: u in pc ==> w(pc'[u]) == w(pc[u])
    ensures Total(pc', w) == Total(pc, w)
  {
    TotalMono(pc, pc', w);
    TotalMono(pc', pc, w);
  }

  // ---- the abstract lock ----

  /** What a client of a lock can observe: who holds it. */
  type Lock = Option<Tid>

  datatype LockEvent = Acquire(t: Tid) | Release(t: Tid) | Internal

  predicate LockEnabled(l: Lock, e: LockEvent) {
    match e
    case Acquire(_) => l.None?
    case Release(t) => l == Some(t)
    case Internal => true
  }

  function LockApply(l: Lock, e: LockEvent): Lock {
    match e
    case Acquire(t) => Some(t)
    case Release(_) => None
    case Internal => l
  }

  /** A sequence of events the lock allows, and where it leads. */
  predicate LockLegal(l: Lock, run: seq<LockEvent>)
    decreases |run|
  {
    run == [] || (LockEnabled(l, run[0]) && LockLegal(LockApply(l, run[0]), run[1..]))
  }

  function LockFinal(l: Lock, run: seq<LockEvent>): Lock
    decreases |run|
  {
    if run == [] then l else LockFinal(LockApply(l, run[0]), run[1..])
  }
}
