/** Inner readers and writers that may be short, interrupted or failing, and the provided
    methods that retry over them. A script of choices stands for what the kernel decides on
    each call; every behaviour with finitely many interrupts is some script. */
module IoTraits {
  import opened Sequences

  datatype ErrorKind = Interrupted | WriteZero | Other
  datatype IoResult<+T> = Ok(value: T) | Err(kind: ErrorKind)

  datatype ReadChoice = Deliver(limit: nat) | ReadInterrupted | ReadFailed

  /** The next read is refused, with this error. */
  predicate Refused(script: seq<ReadChoice>, kind: ErrorKind) {
    script != [] && ((script[0].ReadInterrupted? && kind == Interrupted) || (script[0].ReadFailed? && kind == Other))
  }

  /** The most the next read may deliver to a destination of that length. */
  function Limit(script: seq<ReadChoice>, len: nat): nat {
    if script == [] || !script[0].Deliver? then len else if script[0].limit == 0 then 1 else script[0].limit
  }

  function Min(a: nat, b: nat): nat {
    if a < b then a else b
  }

  /** A byte source. `Deliver(limit)` may be short but never returns 0 before the end. */
  class Source {
    var remaining: seq<Byte>
    var script: seq<ReadChoice>

    constructor (bytes: seq<Byte>, script: seq<ReadChoice>)
      ensures remaining == bytes && this.script == script
    {
      remaining, this.script := bytes, script;
    }

    method Read(dst: array<Byte>) returns (r: IoResult<nat>)
      modifies this, dst
      ensures r.Ok? ==>
                && r.value <= dst.Length && r.value <= old(|remaining|)
                && dst[..r.value] == old(remaining)[..r.value] && remaining == old(remaining)[r.value..]
                && (r.value == 0 <==> dst.Length == 0 || old(remaining) == [])
                && r.value == Min(Min(dst.Length, old(|remaining|)), Limit(old(script), dst.Length))
      ensures r.Err? ==> remaining == old(remaining) && dst[..] == old(dst[..])
      ensures r.Ok? ==> dst[r.value..] == old(dst[..])[r.value..]
      ensures |script| <= old(|script|) && (r.Err? ==> |script| < old(|script|))
      ensures (forall c :: c in script ==> c in old(script)) && (r == Err(Other) ==> ReadFailed in old(script))
      ensures if r.Err? then Refused(old(script), r.kind)
              else !Refused(old(script), Interrupted) && !Refused(old(script), Other)
    {
      var limit := dst.Length;
      if script != [] {
        var choice := script[0];
        script := script[1..];
        match choice {
          case ReadInterrupted => return Err(Interrupted);
          case ReadFailed => return Err(Other);
          case Deliver(n) => limit := if n == 0 then 1 else n;
        }
      }
      var n := Min(Min(dst.Length, |remaining|), limit);
      forall i | 0 <= i < n {
        dst[i] := remaining[i];
      }
      remaining := remaining[n..];
      r := Ok(n);
    }
  }

  datatype WriteChoice = Accept(limit: nat) | WriteInterrupted | WriteFailed

  /** A choice that lets a retrying writer go on. */
  predicate Benign(c: WriteChoice) {
    c.WriteInterrupted? || (c.Accept? && c.limit > 0)
  }

  predicate AllBenign(script: seq<WriteChoice>) {
    forall c :: c in script ==> Benign(c)
  }

  /** What one write of `len` bytes answers, and the choices left after it. */
  function Outcome(len: nat, script: seq<WriteChoice>): IoResult<nat> {
    if script == [] then Ok(len)
    else
      match script[0]
      case WriteInterrupted => Err(Interrupted)
      case WriteFailed => Err(Other)
      case Accept(n) => Ok(Min(len, n))
  }

  function Rest(script: seq<WriteChoice>): seq<WriteChoice> {
    if script == [] then [] else script[1..]
  }

  /** How many of `len` bytes a writer that retries short and interrupted writes gets through
      before it gives up: all of them, unless it meets a failure or a write that accepts nothing. */
  function Accepted(len: nat, script: seq<WriteChoice>): (n: nat)
    ensures n <= len
    decreases |script|, len
  {
    if len == 0 then 0
    else if script == [] then len
    else
      match Outcome(len, script)
      case Err(kind) => if kind == Interrupted then Accepted(len, script[1..]) else 0
      case Ok(n) => if n == 0 then 0 else n + Accepted(len - n, script[1..])
  }

  /** The choices such a writer leaves. */
  function LeftOver(len: nat, script: seq<WriteChoice>): seq<WriteChoice>
    decreases |script|, len
  {
    if len == 0 || script == [] then script
    else
      match Outcome(len, script)
      case Err(kind) => if kind == Interrupted then LeftOver(len, script[1..]) else script[1..]
      case Ok(n) => if n == 0 then script[1..] else LeftOver(len - n, script[1..])
  }

  /** Why such a writer gives up, if it does. */
  function GivesUp(len: nat, script: seq<WriteChoice>): ErrorKind
    decreases |script|, len
  {
    if len == 0 || script == [] then Other
    else
      match Outcome(len, script)
      case Err(kind) => if kind == Interrupted then GivesUp(len, script[1..]) else kind
      case Ok(n) => if n == 0 then WriteZero else GivesUp(len - n, script[1..])
  }

  lemma GivesUpStep(len: nat, script: seq<WriteChoice>)
    requires len > 0 && script != []
    ensures GivesUp(len, script) == match Outcome(len, script) {
              case Err(kind) => if kind == Interrupted then GivesUp(len, Rest(script)) else kind
              case Ok(n) => if 0 < n <= len then GivesUp(len - n, Rest(script)) else WriteZero
            }
  {
  }

  /** After any interrupts, the first thing the writer does is fail or accept nothing. */
  predicate StallsFirst(script: seq<WriteChoice>) {
    script != [] && match script[0] {
      case WriteInterrupted => StallsFirst(script[1..])
      case WriteFailed => true
      case Accept(n) => n == 0
    }
  }

  /** What one write settles, and what it leaves to the next. */
  lemma AcceptedStep(len: nat, script: seq<WriteChoice>)
    ensures len == 0 ==> Accepted(len, script) == 0
    ensures len > 0 ==>
              Accepted(len, script) == match Outcome(len, script) {
                case Err(kind) => if kind == Interrupted then Accepted(len, Rest(script)) else 0
                case Ok(n) => if n == 0 then 0 else if n <= len then n + Accepted(len - n, Rest(script)) else 0
              }
    ensures len == 0 ==> LeftOver(len, script) == script
    ensures len > 0 ==>
              LeftOver(len, script) == match Outcome(len, script) {
                case Err(kind) => if kind == Interrupted then LeftOver(len, Rest(script)) else Rest(script)
                case Ok(n) => if 0 < n <= len then LeftOver(len - n, Rest(script)) else Rest(script)
              }
    ensures Outcome(len, script).Ok? ==> Outcome(len, script).value <= len
    ensures |Rest(script)| <= |script|
  {
  }

  /** A write that is refused or takes nothing uses up a choice. */
  lemma RefusalUsesChoice(len: nat, script: seq<WriteChoice>)
    requires Outcome(len, script).Err? || (len > 0 && Outcome(len, script) == Ok(0))
    ensures |Rest(script)| < |script|
  {
  }

  lemma {:induction false} NothingAccepted(len: nat, script: seq<WriteChoice>)
    requires len > 0
    ensures Accepted(len, script) == 0 <==> StallsFirst(script)
  {
    if script != [] && script[0].WriteInterrupted? {
      NothingAccepted(len, script[1..]);
    }
  }

  lemma {:induction false} BenignAccepts(len: nat, script: seq<WriteChoice>)
    requires AllBenign(script)
    ensures Accepted(len, script) == len
    decreases |script|
  {
    if len > 0 && script != [] {
      assert script[0] in script;
      if script[0].WriteInterrupted? {
        BenignAccepts(len, script[1..]);
      } else if script[0].limit < len {
        BenignAccepts(len - script[0].limit, script[1..]);
      }
    }
  }

  /** A byte sink. */
  class Sink {
    var written: seq<Byte>
    var flushed: seq<Byte>          // what had been written at the last successful flush
    var script: seq<WriteChoice>

    constructor (script: seq<WriteChoice>)
      ensures written == flushed == [] && this.script == script
    {
      written, flushed, this.script := [], [], script;
    }

    method Write(data: seq<Byte>) returns (r: IoResult<nat>)
      modifies this`written, this`script
      ensures r == Outcome(|data|, old(script)) && script == Rest(old(script))
      ensures r.Ok? ==> r.value <= |data|
      ensures written == if r.Ok? then old(written) + data[..r.value] else old(written)
      ensures old(AllBenign(script)) ==>
                && AllBenign(script) && (r.Err? ==> r.kind == Interrupted) && (r.Ok? && data != [] ==> r.value > 0)
    {
      var limit := |data|;
      if script != [] {
        var choice := script[0];
        assert choice in script;
        script := script[1..];
        match choice {
          case WriteInterrupted => return Err(Interrupted);
          case WriteFailed => return Err(Other);
          case Accept(n) => limit := n;
        }
      }
      var n := Min(|data|, limit);
      written := written + data[..n];
      r := Ok(n);
    }

    /** Flushing may be interrupted or fail like a write. */
    method Flush() returns (r: IoResult<()>)
      modifies this`flushed, this`script
      ensures r == if old(script) == [] then Ok(()) else match old(script)[0] {
                     case WriteInterrupted => Err(Interrupted)
                     case WriteFailed => Err(Other)
                     case Accept(_) => Ok(())
                   }
      ensures script == Rest(old(script))
      ensures flushed == if r.Ok? then written else old(flushed)
    {
      r := Ok(());
      if script != [] {
        match script[0] {
          case WriteInterrupted => r := Err(Interrupted);
          case WriteFailed => r := Err(Other);
          case Accept(_) =>
        }
        script := script[1..];
      }
      if r.Ok? {
        flushed := written;
      }
    }

    /** Retry short writes and interrupts until everything is written. A failure leaves a prefix
        of the data written, whose length the script decides. */
    method WriteAll(data: seq<Byte>) returns (r: IoResult<()>, ghost sent: nat)
      modifies this`written, this`script
      ensures sent == Accepted(|data|, old(script)) && written == old(written) + data[..sent]
      ensures r.Ok? <==> sent == |data|
      ensures r.Err? ==> r.kind != Interrupted && r.kind == GivesUp(|data|, old(script))
      ensures script == LeftOver(|data|, old(script))
      ensures |script| <= old(|script|) && (r.Err? ==> |script| < old(|script|))
      ensures old(AllBenign(script)) ==> AllBenign(script) && r.Ok?
    {
      hide *;
      var rest := data;
      sent := 0;
      if AllBenign(script) { BenignAccepts(|data|, script); }
      while rest != []
        invariant sent <= |data| && rest == data[sent..] && written == old(written) + data[..sent]
        invariant Accepted(|data|, old(script)) == sent + Accepted(|rest|, script)
        invariant LeftOver(|data|, old(script)) == LeftOver(|rest|, script)
        invariant script != [] ==> GivesUp(|data|, old(script)) == GivesUp(|rest|, script)
        invariant |script| <= old(|script|) && (old(AllBenign(script)) ==> AllBenign(script))
        decreases |rest|, |script|
      {
        AcceptedStep(|rest|, script);
        ghost var before := script;
        if before != [] { GivesUpStep(|rest|, before); }
        var w := Write(rest);
        match w {
          case Ok(n) =>
            if n == 0 {
              RefusalUsesChoice(|rest|, before);
              return Err(WriteZero), sent;
            }
            PartWritten(old(written), data, sent, n);
            sent := sent + n;
            rest := rest[n..];
          case Err(kind) =>
            RefusalUsesChoice(|rest|, before);
            if kind != Interrupted {
              return Err(kind), sent;
            }
        }
      }
      AcceptedStep(0, script);
      assert data[..sent] == data;
      r := Ok(());
    }
  }

  lemma PartWritten<T>(base: seq<T>, data: seq<T>, sent: nat, n: nat)
    requires sent + n <= |data|
    ensures base + data[..sent] + data[sent..][..n] == base + data[..sent + n]
    ensures data[sent..][n..] == data[sent + n..]
  {
    assert data[..sent] + data[sent..][..n] == data[..sent + n];
  }

  lemma TakeTwice<T>(s: seq<T>, n: nat, m: nat)
    requires m <= n <= |s|
    ensures s[..n][..m] == s[..m]
  {
  }

  /** `io::copy`: on success the writer has received exactly what the reader held; on failure
      a prefix of it. */
  method Copy(reader: Source, writer: Sink) returns (r: IoResult<nat>, ghost sent: nat)
    modifies reader, writer
    ensures sent <= old(|reader.remaining|) && writer.written == old(writer.written) + old(reader.remaining)[..sent]
    ensures r.Ok? ==> reader.remaining == [] && sent == r.value == old(|reader.remaining|)
    ensures r.Err? ==> r.kind != Interrupted
    ensures old(AllBenign(writer.script)) && ReadFailed !in old(reader.script) ==> r.Ok?
  {
    var buf := new Byte[8192](_ => 0);
    ghost var all := reader.remaining;
    var total := 0;
    sent := 0;
    while true
      invariant sent == total <= |all| && reader.remaining == all[total..]
      invariant writer.written == old(writer.written) + all[..total]
      invariant old(AllBenign(writer.script)) ==> AllBenign(writer.script)
      invariant forall c :: c in reader.script ==> c in old(reader.script)
      decreases |reader.remaining|, |reader.script|
    {
      var got := reader.Read(buf);
      match got {
        case Err(kind) =>
          if kind != Interrupted {
            return Err(kind), sent;
          }
        case Ok(n) =>
          if n == 0 {
            return Ok(total), sent;
          }
          var w;
          ghost var part;
          w, part := writer.WriteAll(buf[..n]);
          assert buf[..n] == all[total..][..n];
          TakeTwice(all[total..], n, part);
          PartWritten(old(writer.written), all, total, part);
          PartWritten(old(writer.written), all, total, n);
          sent := total + part;
          if w.Err? {
            return Err(w.kind), sent;
          }
          total := total + n;
      }
    }
  }
}
