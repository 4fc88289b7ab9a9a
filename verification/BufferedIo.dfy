/** `BufReader`, `Lines` and `BufWriter`: the buffers are transparent. */
module BufferedIo {
  import opened IoTraits
  import opened Sequences

  const NEWLINE: Byte := 10
  const RETURN: Byte := 13

  // ---- what reading up to a delimiter means ----

  /** The bytes up to and including the first `delim`, or all of them if there is none. */
  function UpTo(bs: seq<Byte>, delim: Byte): (r: seq<Byte>)
    ensures |r| <= |bs| && r == bs[..|r|] && (bs != [] ==> r != [])
    ensures forall i :: 0 <= i < |r| - 1 ==> r[i] != delim
    ensures |r| < |bs| ==> r[|r| - 1] == delim
  {
    if bs == [] then []
    else if bs[0] == delim then [delim]
    else [bs[0]] + UpTo(bs[1..], delim)
  }

  lemma {:induction false} UpToAppend(a: seq<Byte>, b: seq<Byte>, delim: Byte)
    ensures delim in a ==> UpTo(a + b, delim) == UpTo(a, delim)
    ensures delim !in a ==> UpTo(a + b, delim) == a + UpTo(b, delim)
  {
    if a == [] {
      assert a + b == b;
    } else if a[0] != delim {
      assert (a + b)[1..] == a[1..] + b;
      assert a == [a[0]] + a[1..];
      UpToAppend(a[1..], b, delim);
    }
  }

  /** A line without its terminator: "\n", and one "\r" before it. */
  function Strip(line: seq<Byte>): seq<Byte> {
    if line != [] && line[|line| - 1] == NEWLINE then
      var cut := line[..|line| - 1];
      if cut != [] && cut[|cut| - 1] == RETURN then cut[..|cut| - 1] else cut
    else line
  }

  /** Which terminators are taken off: bytes 13 10, or a lone byte 10, once and only at the end. */
  lemma StripIsExact(x: seq<Byte>)
    ensures Strip(x + [13, 10]) == x
    ensures x == [] || x[|x| - 1] != 13 ==> Strip(x + [10]) == x
    ensures x == [] || x[|x| - 1] != 10 ==> Strip(x) == x
  {
    assert (x + [13, 10])[..|x| + 1] == x + [13] && (x + [13])[..|x|] == x && (x + [10])[..|x|] == x;
  }

  /** The source split after each newline. */
  function RawLines(bs: seq<Byte>): seq<seq<Byte>> {
    if bs == [] then []
    else
      var line := UpTo(bs, NEWLINE);
      [line] + RawLines(bs[|line|..])
  }

  function LinesOf(bs: seq<Byte>): seq<seq<Byte>> {
    if bs == [] then []
    else
      var line := UpTo(bs, NEWLINE);
      [Strip(line)] + LinesOf(bs[|line|..])
  }

  /** Splitting loses nothing: the raw lines are non-empty, hold a newline only at their end,
      all but the last end with one, and together are the source; `LinesOf` strips each. */
  lemma {:induction false} SplitIsExact(bs: seq<Byte>)
    ensures Flatten(RawLines(bs)) == bs
    ensures |LinesOf(bs)| == |RawLines(bs)|
    ensures forall i :: 0 <= i < |RawLines(bs)| ==> RawLines(bs)[i] != [] && LinesOf(bs)[i] == Strip(RawLines(bs)[i])
    ensures forall i, j :: 0 <= i < |RawLines(bs)| && 0 <= j < |RawLines(bs)[i]| - 1 ==> RawLines(bs)[i][j] != NEWLINE
    ensures forall i :: 0 <= i < |RawLines(bs)| - 1 ==> RawLines(bs)[i][|RawLines(bs)[i]| - 1] == NEWLINE
  {
    hide UpTo, Strip;
    if bs != [] {
      var line := UpTo(bs, NEWLINE);
      var rest := bs[|line|..];
      SplitIsExact(rest);
      assert RawLines(bs) == [line] + RawLines(rest);
      assert RawLines(bs)[1..] == RawLines(rest);
      assert bs == line + rest;
    }
  }

  class BufReader {
    const inner: Source
    const buf: array<Byte>
    var pos: nat
    var cap: nat

    ghost predicate Valid()
      reads this
    {
      pos <= cap <= buf.Length
    }

    ghost function Buffered(): seq<Byte>
      requires Valid()
      reads this, buf
    {
      buf[pos..cap]
    }

    /** Everything not yet delivered, buffered or not, in order. */
    ghost function Pending(): seq<Byte>
      requires Valid()
      reads this, buf, inner
    {
      Buffered() + inner.remaining
    }

    constructor (capacity: nat, inner: Source)
      ensures Valid() && this.inner == inner && fresh(buf) && buf.Length == capacity && Pending() == inner.remaining
    {
      this.inner := inner;
      buf := new Byte[capacity](_ => 0);
      pos, cap := 0, 0;
    }

    /** Refill an empty buffer. Nothing is delivered and nothing lost; on success the buffer is
        empty only at the end of the source or if it has no room at all. */
    method FillBuf() returns (r: IoResult<()>)
      requires Valid()
      modifies this, buf, inner
      ensures Valid() && Pending() == old(Pending())
      ensures r.Ok? && Buffered() == [] ==> Pending() == [] || buf.Length == 0
      ensures old(Buffered()) != [] ==> r.Ok? && Buffered() == old(Buffered()) && unchanged(inner)
      ensures r.Err? ==> Refused(old(inner.script), r.kind)
      ensures r.Err? ==> r.kind != WriteZero && |inner.script| < old(|inner.script|) && Buffered() == []
      ensures r == Err(Other) ==> ReadFailed in old(inner.script)
      ensures forall c :: c in inner.script ==> c in old(inner.script)
      ensures |inner.script| <= old(|inner.script|)
    {
      if pos >= cap {
        var got := inner.Read(buf);
        if got.Err? {
          assert buf[pos..cap] == [];
          return Err(got.kind);
        }
        cap := got.value;
        pos := 0;
        assert buf[0..cap] == old(inner.remaining)[..cap];
      }
      r := Ok(());
    }

    method Consume(amt: nat)
      requires Valid()
      modifies this`pos
      ensures Valid() && Pending() == old(Pending())[Min(amt, old(|Buffered()|))..]
      ensures Buffered() == old(Buffered())[Min(amt, old(|Buffered()|))..]
    {
      pos := Min(pos + amt, cap);
    }

    /** Reading delivers the next bytes of the source, and returns 0 only for an empty destination or at
        the end; an error delivers nothing. What is buffered is delivered without another inner read;
        a large destination is read past an empty buffer, which is left alone. */
    method Read(dst: array<Byte>) returns (r: IoResult<nat>)
      requires Valid() && dst != buf
      modifies this, buf, inner, dst
      ensures Valid()
      ensures r.Ok? ==>
                && r.value <= dst.Length && r.value <= |old(Pending())|
                && dst[..r.value] == old(Pending())[..r.value] && Pending() == old(Pending())[r.value..]
                && (r.value == 0 <==> dst.Length == 0 || old(Pending()) == [])
      ensures r.Err? ==> Pending() == old(Pending()) && Refused(old(inner.script), r.kind)
      ensures old(Buffered()) == [] && dst.Length >= buf.Length ==> Buffered() == [] && buf[..] == old(buf[..])
      ensures old(Buffered()) != [] ==> r == Ok(Min(old(|Buffered()|), dst.Length)) && unchanged(inner)
      ensures |inner.script| <= old(|inner.script|) && (r.Err? ==> |inner.script| < old(|inner.script|))
    {
      ghost var before := Pending();
      if pos == cap && dst.Length >= buf.Length {
        assert Buffered() == [];
        r := inner.Read(dst);
        assert Buffered() == [];
        return;
      }
      var filled := FillBuf();
      if filled.Err? {
        return Err(filled.kind);
      }
      var n := Min(cap - pos, dst.Length);
      forall i | 0 <= i < n {
        dst[i] := buf[pos + i];
      }
      assert dst[..n] == Buffered()[..n] == before[..n];
      Consume(n);
      r := Ok(n);
    }

    /** Consume the buffered bytes up to the delimiter, or all of them. */
    method TakeChunk(delim: Byte) returns (chunk: seq<Byte>, done: bool)
      requires Valid()
      modifies this`pos
      ensures Valid() && old(Pending()) == chunk + Pending()
      ensures done ==> EndsAt(chunk, delim)
      ensures !done ==> delim !in chunk && chunk == old(Buffered())
    {
      var available := buf[pos..cap];
      var i := Position(available, delim);
      done := i < |available|;
      var used := if done then i + 1 else i;
      chunk := available[..used];
      ghost var all := Pending();
      ChunkShape(available, i, delim);
      assert chunk == all[..used];
      hide EndsAt;
      Consume(used);
      assert all == all[..used] + all[used..];
    }

    /** `read_until`: appends exactly the bytes up to the delimiter, however the source is cut
        into reads. A buffer without room reads nothing at all. */
    method ReadUntil(delim: Byte) returns (r: IoResult<nat>, out: seq<Byte>)
      requires Valid()
      modifies this, buf, inner
      ensures Valid() && old(Pending()) == out + Pending()
      ensures r.Ok? && buf.Length > 0 ==> out == UpTo(old(Pending()), delim) && r.value == |out|
      ensures r.Ok? && buf.Length == 0 ==> r.value == 0 && out == []
      ensures r.Err? ==> r.kind == Other && ReadFailed in old(inner.script) && delim !in out
      ensures |inner.script| <= old(|inner.script|) && (r.Err? ==> |inner.script| < old(|inner.script|))
      ensures forall c :: c in inner.script ==> c in old(inner.script)
    {
      hide UpTo, EndsAt, Pending, Buffered;
      ghost var all := Pending();
      var read := 0;
      out := [];
      while true
        invariant Valid() && read == |out| && all == out + Pending() && delim !in out
        invariant buf.Length == 0 ==> out == []
        invariant forall c :: c in inner.script ==> c in old(inner.script)
        invariant |inner.script| <= old(|inner.script|)
        decreases |Pending()|, |inner.script|
      {
        var filled := FillBuf();
        ghost var before := Pending();
        if filled.Err? {
          if filled.kind != Interrupted {
            return Err(filled.kind), out;
          }
        } else {
          var chunk, done := TakeChunk(delim);
          ghost var after, was := Pending(), out;
          out := out + chunk;
          Advance(all, was, before, chunk, after, delim, done, out);
          read := read + |chunk|;
          if done || |chunk| == 0 {
            return Ok(read), out;
          }
        }
      }
    }
  }

  lemma Advance(all: seq<Byte>, out: seq<Byte>, before: seq<Byte>, chunk: seq<Byte>, after: seq<Byte>,
                delim: Byte, done: bool, out': seq<Byte>)
    requires all == out + before && before == chunk + after && out' == out + chunk
    requires delim !in out && (if done then EndsAt(chunk, delim) else delim !in chunk)
    ensures all == out' + after && |before| == |chunk| + |after|
    ensures done || before == [] ==> UpTo(all, delim) == out'
    ensures !done ==> delim !in out'
  {
    hide UpTo;
    assert out + (chunk + after) == out + chunk + after;
    UpToStep(out, chunk, after, delim, done);
  }

  /** The position of the first `delim`, or the length if there is none. */
  method Position(bs: seq<Byte>, delim: Byte) returns (i: nat)
    ensures i <= |bs| && delim !in bs[..i] && (i < |bs| ==> bs[i] == delim)
  {
    i := 0;
    while i < |bs| && bs[i] != delim
      invariant i <= |bs| && delim !in bs[..i]
    {
      i := i + 1;
    }
  }

  /** `delim` occurs once, at the end. */
  ghost predicate EndsAt(bs: seq<Byte>, delim: Byte) {
    bs != [] && bs[|bs| - 1] == delim && delim !in bs[..|bs| - 1]
  }

  lemma ChunkShape(bs: seq<Byte>, i: nat, delim: Byte)
    requires i <= |bs| && delim !in bs[..i] && (i < |bs| ==> bs[i] == delim)
    ensures i < |bs| ==> EndsAt(bs[..i + 1], delim)
    ensures i == |bs| ==> delim !in bs && bs[..i] == bs
  {
    if i < |bs| {
      assert bs[..i + 1][..i] == bs[..i];
    } else {
      assert bs[..i] == bs;
    }
  }

  /** One chunk further: either the delimiter ends it, or it belongs to the line entirely. */
  lemma UpToStep(out: seq<Byte>, chunk: seq<Byte>, rest: seq<Byte>, delim: Byte, done: bool)
    requires delim !in out && (if done then EndsAt(chunk, delim) else delim !in chunk)
    ensures done ==> UpTo(out + chunk + rest, delim) == out + chunk
    ensures chunk + rest == [] ==> UpTo(out + chunk + rest, delim) == out
  {
    if done {
      var n := |chunk| - 1;
      var head, tail := out + chunk[..n], [delim] + rest;
      assert out + chunk + rest == head + tail;
      UpToAppend(head, tail, delim);
      assert out + chunk == head + [delim];
    } else if chunk + rest == [] {
      UpToAppend(out, [], delim);
      assert out + chunk + rest == out + [];
    }
  }

  datatype ReadOp = ReadInto(len: nat) | Fill | ConsumeSome(amt: nat) | Until(delim: Byte)

  /** What one operation delivers of the pending bytes, with `held` of them buffered before and `held'`
      after it. */
  ghost predicate Delivers(op: ReadOp, ok: bool, capacity: nat, pending: seq<Byte>, held: nat, held': nat,
                           bytes: seq<Byte>) {
    && bytes <= pending && held <= |pending| && held' <= capacity
    && match op {
         case ReadInto(len) =>
           |bytes| <= len && (if ok then bytes == [] <==> len == 0 || pending == [] else bytes == [])
         case Fill =>
           && bytes == [] && (held > 0 ==> ok && held' == held)
           && (ok && held' == 0 ==> pending == [] || capacity == 0)
         case ConsumeSome(amt) => ok && |bytes| == Min(amt, held) && held' == held - |bytes|
         case Until(delim) =>
           if ok then bytes == (if capacity > 0 then UpTo(pending, delim) else []) else delim !in bytes
       }
  }

  /** One operation on a reader: what it leaves pending is what was pending without the bytes it
      delivers, whether it succeeds or fails. */
  method Perform(reader: BufReader, op: ReadOp) returns (bytes: seq<Byte>, ok: bool)
    requires reader.Valid()
    modifies reader, reader.buf, reader.inner
    ensures reader.Valid() && old(reader.Pending()) == bytes + reader.Pending()
    ensures Delivers(op, ok, reader.buf.Length, old(reader.Pending()), old(|reader.Buffered()|),
                     |reader.Buffered()|, bytes)
    ensures |reader.inner.script| + (if ok then 0 else 1) <= old(|reader.inner.script|)
  {
    hide UpTo;
    ghost var all := reader.Pending();
    bytes, ok := [], true;
    match op {
      case ReadInto(len) =>
        var dst := new Byte[len];
        var r := reader.Read(dst);
        ok := r.Ok?;
        if ok {
          Cut(all, r.value);
          bytes := dst[..r.value];
        }
      case Fill =>
        var r := reader.FillBuf();
        ok := r.Ok?;
      case ConsumeSome(amt) =>
        var available := reader.buf[reader.pos..reader.cap];
        var n := Min(amt, |available|);
        bytes := available[..n];
        Cut(all, n);
        assert bytes == all[..n];
        reader.Consume(amt);
      case Until(delim) =>
        var r, line := reader.ReadUntil(delim);
        bytes, ok := line, r.Ok?;
    }
  }

  /** The i-th operation delivers from what the ones before it have left. */
  ghost predicate DeliversAt(bytes: seq<Byte>, capacity: nat, ops: seq<ReadOp>, delivered: seq<seq<Byte>>,
                             ok: seq<bool>, held: seq<nat>, i: nat)
    requires |delivered| == |ok| == |ops| && |held| == |ops| + 1 && i < |ops|
  {
    var start := |Flatten(delivered[..i])|;
    start <= |bytes| && Delivers(ops[i], ok[i], capacity, bytes[start..], held[i], held[i + 1], delivered[i])
  }

  ghost predicate ReadHistory(bytes: seq<Byte>, capacity: nat, ops: seq<ReadOp>, delivered: seq<seq<Byte>>,
                              ok: seq<bool>, held: seq<nat>) {
    && |delivered| == |ok| == |ops| && |held| == |ops| + 1 && held[0] == 0
    && forall i :: 0 <= i < |ops| ==> DeliversAt(bytes, capacity, ops, delivered, ok, held, i)
  }

  function FailedReads(ok: seq<bool>): nat {
    if ok == [] then 0 else FailedReads(ok[..|ok| - 1]) + if ok[|ok| - 1] then 0 else 1
  }

  lemma ReadNext(bytes: seq<Byte>, capacity: nat, ops: seq<ReadOp>, delivered: seq<seq<Byte>>, ok: seq<bool>,
                 held: seq<nat>, pending: seq<Byte>, op: ReadOp, more: seq<Byte>, fine: bool, after: nat)
    requires ReadHistory(bytes, capacity, ops, delivered, ok, held) && Flatten(delivered) + pending == bytes
    requires Delivers(op, fine, capacity, pending, held[|ops|], after, more)
    ensures ReadHistory(bytes, capacity, ops + [op], delivered + [more], ok + [fine], held + [after])
    ensures Flatten(delivered + [more]) == Flatten(delivered) + more
    ensures FailedReads(ok + [fine]) == FailedReads(ok) + if fine then 0 else 1
  {
    hide Delivers, Flatten;
    FlattenSnoc(delivered, more);
    assert (ok + [fine])[..|ok|] == ok;
    var n, ops', delivered', ok', held' := |ops|, ops + [op], delivered + [more], ok + [fine], held + [after];
    forall i | 0 <= i < n + 1
      ensures DeliversAt(bytes, capacity, ops', delivered', ok', held', i)
    {
      assert delivered'[..i] == delivered[..i];
      if i < n {
        assert DeliversAt(bytes, capacity, ops, delivered, ok, held, i);
      } else {
        assert delivered[..n] == delivered && bytes[|Flatten(delivered)|..] == pending;
      }
    }
  }

  /** Any mix of operations, through any buffer and over any inner reader: each delivers what it
      promises of the bytes not yet delivered; all that is delivered, then what is still buffered, then
      what the inner reader still holds, is the source; and no more operations fail than the inner
      reader has choices. */
  method ReadThrough(bytes: seq<Byte>, script: seq<ReadChoice>, capacity: nat, ops: seq<ReadOp>)
    returns (delivered: seq<seq<Byte>>, ok: seq<bool>, held: seq<nat>, buffered: seq<Byte>, unread: seq<Byte>)
    ensures ReadHistory(bytes, capacity, ops, delivered, ok, held) && |buffered| == held[|ops|]
    ensures Flatten(delivered) + buffered + unread == bytes && FailedReads(ok) <= |script|
  {
    var source := new Source(bytes, script);
    var reader := new BufReader(capacity, source);
    delivered, ok, held := [], [], [0];
    for i := 0 to |ops|
      invariant reader.Valid() && fresh(reader) && fresh(reader.buf) && fresh(reader.inner)
      invariant reader.buf.Length == capacity && reader.inner == source
      invariant ReadHistory(bytes, capacity, ops[..i], delivered, ok, held)
      invariant Flatten(delivered) + reader.Pending() == bytes && held[i] == |reader.Buffered()|
      invariant FailedReads(ok) + |source.script| <= |script|
    {
      hide Delivers, Flatten, FailedReads, ReadHistory;
      ghost var pending := reader.Pending();
      var more, fine := Perform(reader, ops[i]);
      var after := reader.cap - reader.pos;
      ReadNext(bytes, capacity, ops[..i], delivered, ok, held, pending, ops[i], more, fine, after);
      assert ops[..i] + [ops[i]] == ops[..i + 1];
      Associate(Flatten(delivered), more, reader.Pending());
      delivered, ok, held := delivered + [more], ok + [fine], held + [after];
    }
    assert ops[..|ops|] == ops;
    buffered, unread := reader.buf[reader.pos..reader.cap], source.remaining;
    Associate(Flatten(delivered), buffered, unread);
  }

  /** The iterator behind `lines()`, on bytes. */
  class Lines {
    const reader: BufReader

    constructor (reader: BufReader)
      ensures this.reader == reader
    {
      this.reader := reader;
    }

    /** The next line of the source, without its terminator, or `Ok(false)` at the end, which a
        reader without room reports at once. When the source fails, the `lost` bytes, part of one
        unfinished line, have been taken from it and are not delivered. */
    method Next() returns (r: IoResult<bool>, line: seq<Byte>, ghost lost: seq<Byte>)
      requires reader.Valid()
      modifies reader, reader.buf, reader.inner
      ensures reader.Valid()
      ensures r.Ok? ==> (r.value <==> reader.buf.Length > 0 && old(reader.Pending()) != [])
      ensures r.Ok? && r.value ==>
                && LinesOf(old(reader.Pending())) == [line] + LinesOf(reader.Pending())
                && |reader.Pending()| < |old(reader.Pending())|
      ensures r == Ok(false) ==> reader.Pending() == old(reader.Pending())
      ensures r.Err? ==>
                && ReadFailed in old(reader.inner.script)
                && old(reader.Pending()) == lost + reader.Pending() && NEWLINE !in lost
      ensures forall c :: c in reader.inner.script ==> c in old(reader.inner.script)
    {
      hide UpTo, LinesOf;
      ghost var all := reader.Pending();
      LinesStep(all);
      var n, bytes := reader.ReadUntil(NEWLINE);
      lost := bytes;
      match n {
        case Err(kind) => r, line := Err(kind), [];
        case Ok(n) =>
          if n == 0 {
            r, line := Ok(false), [];
          } else {
            line := bytes;
            if line[|line| - 1] == NEWLINE {
              line := line[..|line| - 1];
              if line != [] && line[|line| - 1] == RETURN {
                line := line[..|line| - 1];
              }
            }
            r := Ok(true);
          }
      }
    }

    /** Iterate to the end. */
    method Collect() returns (lines: seq<seq<Byte>>)
      requires reader.Valid() && ReadFailed !in reader.inner.script
      modifies reader, reader.buf, reader.inner
      ensures reader.Valid()
      ensures lines == if reader.buf.Length == 0 then [] else LinesOf(old(reader.Pending()))
    {
      hide LinesOf, UpTo;
      ghost var all := reader.Pending();
      lines := [];
      while true
        invariant reader.Valid() && ReadFailed !in reader.inner.script
        invariant if reader.buf.Length == 0 then lines == [] else lines + LinesOf(reader.Pending()) == LinesOf(all)
        decreases |reader.Pending()|
      {
        ghost var before := reader.Pending();
        var r, line, _ := Next();
        if r == Ok(false) {
          LinesStep(before);
          return;
        }
        Collected(lines, line, all, before, reader.Pending());
        lines := lines + [line];
      }
    }
  }

  lemma Collected(lines: seq<seq<Byte>>, line: seq<Byte>, all: seq<Byte>, before: seq<Byte>, after: seq<Byte>)
    requires lines + LinesOf(before) == LinesOf(all) && LinesOf(before) == [line] + LinesOf(after)
    ensures lines + [line] + LinesOf(after) == LinesOf(all)
  {
    hide LinesOf;
    assert lines + ([line] + LinesOf(after)) == lines + [line] + LinesOf(after);
  }

  lemma LinesStep(bs: seq<Byte>)
    ensures bs == [] ==> LinesOf(bs) == [] && UpTo(bs, NEWLINE) == []
    ensures bs != [] ==>
              var line := UpTo(bs, NEWLINE);
              line != [] && LinesOf(bs) == [Strip(line)] + LinesOf(bs[|line|..])
  {
  }

  /** Reading all lines over any schedule of short and interrupted reads gives the lines of the
      source if and only if the buffer has room or there is nothing to read; without room it
      gives none. */
  method AllLines(bytes: seq<Byte>, script: seq<ReadChoice>, capacity: nat) returns (lines: seq<seq<Byte>>)
    requires ReadFailed !in script
    ensures lines == LinesOf(bytes) <==> capacity > 0 || bytes == []
    ensures capacity == 0 ==> lines == []
  {
    var source := new Source(bytes, script);
    var reader := new BufReader(capacity, source);
    var it := new Lines(reader);
    LinesStep(bytes);
    lines := it.Collect();
  }

  /** A failing input: without room, a source of one line has none. */
  method NoRoomNoLines() returns (lines: seq<seq<Byte>>)
    ensures lines == [] && LinesOf([97, NEWLINE]) == [[97]]
  {
    assert UpTo([97, NEWLINE], NEWLINE) == [97, NEWLINE];
    LinesStep([97, NEWLINE]);
    LinesStep([]);
    lines := AllLines([97, NEWLINE], [], 0);
  }

  /** The data goes to a buffer that already holds `held` bytes, without a flush. */
  predicate Fits(held: nat, data: seq<Byte>, capacity: nat) {
    held + |data| <= capacity && |data| < capacity
  }

  /** What a buffered write of `len` bytes answers: the error of the flush it needs, or what the inner
      writer says to data as large as the buffer, or success. */
  function WriteAnswer(held: nat, len: nat, capacity: nat, script: seq<WriteChoice>): IoResult<nat> {
    var due := held + len > capacity;
    if due && Accepted(held, script) < held then Err(GivesUp(held, script))
    else if len < capacity then Ok(len)
    else Outcome(len, if due then LeftOver(held, script) else script)
  }

  class BufWriter {
    const inner: Sink
    const capacity: nat
    var buf: seq<Byte>

    /** Everything accepted so far, in order. */
    ghost function Content(): seq<Byte>
      reads this, inner
    {
      inner.written + buf
    }

    ghost predicate Valid()
      reads this
    {
      |buf| <= capacity
    }

    constructor (capacity: nat, inner: Sink)
      ensures Valid() && this.inner == inner && this.capacity == capacity && buf == []
    {
      this.inner := inner;
      this.capacity := capacity;
      buf := [];
    }

    /** Move the buffer to the inner writer. When that fails the buffer is kept whole, so the
        `sent` bytes that got through are then there twice: content is conserved unless the
        inner writer takes some bytes and then stalls. */
    method FlushBuf() returns (r: IoResult<()>, ghost sent: nat)
      requires Valid()
      modifies this`buf, inner`written, inner`script
      ensures Valid() && sent == Accepted(old(|buf|), old(inner.script))
      ensures r.Ok? <==> sent == old(|buf|)
      ensures r.Ok? ==> buf == [] && inner.written == old(Content())
      ensures r.Err? ==>
                && buf == old(buf) && inner.written == old(inner.written) + buf[..sent]
                && (Content() == old(Content()) <==> StallsFirst(old(inner.script)))
      ensures r.Err? ==> r.kind != Interrupted && r.kind == GivesUp(old(|buf|), old(inner.script))
      ensures old(AllBenign(inner.script)) ==> r.Ok? && AllBenign(inner.script)
      ensures inner.script == LeftOver(old(|buf|), old(inner.script))
      ensures |inner.script| <= old(|inner.script|) && (r.Err? ==> |inner.script| < old(|inner.script|))
    {
      r, sent := Ok(()), 0;
      if buf != [] {
        NothingAccepted(|buf|, inner.script);
        r, sent := inner.WriteAll(buf);
        if r.Ok? {
          assert buf[..sent] == buf;
          buf := [];
        } else {
          assert |Content()| == |old(Content())| + sent;
        }
      }
    }

    /** Accepting `n` bytes appends exactly those. A refused write accepts nothing; when the flush it
        needed failed, the `again` buffered bytes that got through are written and still in the
        buffer. */
    method Write(data: seq<Byte>) returns (r: IoResult<nat>, ghost again: nat)
      requires Valid()
      modifies this`buf, inner`written, inner`script
      ensures Valid()
      ensures r == WriteAnswer(old(|buf|), |data|, capacity, old(inner.script))
      ensures r.Ok? ==> r.value <= |data| && Content() == old(Content()) + data[..r.value]
      ensures again == if old(|buf|) + |data| > capacity then Repeats(old(|buf|), old(inner.script)) else 0
      ensures r.Err? ==> Content() == old(inner.written) + old(buf)[..again] + old(buf)
      ensures r == Err(Interrupted) ==> again == 0 && |data| >= capacity
      ensures old(AllBenign(inner.script)) ==> AllBenign(inner.script) && (r.Err? ==> r.kind == Interrupted)
      ensures old(AllBenign(inner.script)) && r.Ok? && data != [] ==> r.value > 0
      ensures r.Ok? && |data| < capacity ==> r.value == |data|
      ensures Fits(old(|buf|), data, capacity) ==>
                r.Ok? && buf == old(buf) + data && unchanged(inner)
      ensures |inner.script| <= old(|inner.script|)
      ensures r.Err? || (r == Ok(0) && data != []) ==> |inner.script| < old(|inner.script|)
    {
      hide Accepted, LeftOver, StallsFirst, AllBenign;
      again := 0;
      if |buf| + |data| > capacity {
        var flushed, sent := FlushBuf();
        if flushed.Err? {
          return Err(flushed.kind), sent;
        }
      }
      if |data| >= capacity {
        assert capacity == 0 || buf == [] || data == [];
        ghost var before := inner.script;
        AcceptedStep(|data|, before);
        r := inner.Write(data);
        if r.Err? || (r == Ok(0) && data != []) { RefusalUsesChoice(|data|, before); }
        assert buf == [];
      } else {
        Associate(inner.written, buf, data);
        buf := buf + data;
        assert data[..|data|] == data;
        r := Ok(|data|);
      }
    }

    /** The provided `write_all`, over the buffered `write`. It succeeds only with everything
        appended; when it fails, `accepted` bytes were taken, and a stretch of what was in the
        buffer may have been written twice. */
    method WriteAll(data: seq<Byte>) returns (r: IoResult<()>, ghost accepted: nat, ghost at: nat, ghost again: nat)
      requires Valid()
      modifies this`buf, inner`written, inner`script
      ensures Valid() && accepted <= |data|
      ensures r.Ok? ==> accepted == |data| && Content() == old(Content()) + data
      ensures r.Err? ==> r.kind != Interrupted && Stutters(old(Content()) + data[..accepted], Content(), at, again)
      ensures Fits(old(|buf|), data, capacity) ==> r.Ok? && |buf| == old(|buf|) + |data|
      ensures |inner.script| <= old(|inner.script|) && (r.Err? ==> |inner.script| < old(|inner.script|))
      ensures old(AllBenign(inner.script)) ==> r.Ok? && AllBenign(inner.script)
    {
      hide AllBenign, Stutters;
      var rest := data;
      accepted, at, again := 0, 0, 0;
      while rest != []
        invariant Valid() && (old(AllBenign(inner.script)) ==> AllBenign(inner.script))
        invariant |inner.script| <= old(|inner.script|)
        invariant Fits(old(|buf|), data, capacity) ==> |buf| == old(|buf|) + accepted
        invariant accepted <= |data| && rest == data[accepted..] && Content() == old(Content()) + data[..accepted]
        decreases |rest|, |inner.script|
      {
        ghost var whole, moved, held := Content(), inner.written, buf;
        var w, twice := Write(rest);
        match w {
          case Ok(n) =>
            if n == 0 {
              assert rest[..0] == [] && Content() == whole;
              NoStutter(whole);
              return Err(WriteZero), accepted, 0, 0;
            }
            PartWritten(old(Content()), data, accepted, n);
            accepted := accepted + n;
            rest := rest[n..];
          case Err(kind) =>
            if kind != Interrupted {
              StutterAt(moved, held, twice);
              return Err(kind), accepted, |moved|, twice;
            }
            assert held[..0] == [];
            Associate(moved, [], held);
        }
      }
      assert data[..accepted] == data;
      r := Ok(());
    }

    /** Dropping the writer: one more attempt to flush, whose failure nobody sees. */
    method Drop()
      requires Valid()
      modifies this`buf, inner`written, inner`script
      ensures inner.written == old(inner.written) + old(buf)[..Accepted(old(|buf|), old(inner.script))]
      ensures old(AllBenign(inner.script)) ==> inner.written == old(Content())
    {
      var _, sent := FlushBuf();
      assert sent == old(|buf|) ==> old(buf)[..sent] == old(buf);
    }

    /** `into_inner`: everything accepted reaches an inner writer that takes the whole buffer. When
        that fails the writer is dropped, so a second attempt follows the first. */
    method IntoInner() returns (r: IoResult<Sink>)
      requires Valid()
      modifies this`buf, inner`written, inner`script
      ensures r.Ok? <==> Accepted(old(|buf|), old(inner.script)) == old(|buf|)
      ensures r.Ok? ==> r.value == inner && inner.written == old(Content()) && buf == []
      ensures r.Err? ==>
                var n, script := old(|buf|), old(inner.script);
                inner.written == old(inner.written) + old(buf)[..Accepted(n, script)]
                                 + old(buf)[..Accepted(n, LeftOver(n, script))]
      ensures old(AllBenign(inner.script)) ==> r.Ok?
    {
      hide Accepted, LeftOver, StallsFirst, AllBenign;
      var f, _ := FlushBuf();
      if f.Err? {
        Drop();
        return Err(f.kind);
      }
      r := Ok(inner);
    }

    /** `flush`: on success everything accepted has been written and flushed by the inner writer.
        Its own flush is not retried, so an interrupt there is reported, with all written. */
    method Flush() returns (r: IoResult<()>, ghost again: nat)
      requires Valid()
      modifies this`buf, inner
      ensures Valid() && again == Repeats(old(|buf|), old(inner.script))
      ensures r.Ok? ==> inner.flushed == inner.written == old(Content()) && buf == []
      ensures r.Err? ==> Content() == old(inner.written) + old(buf)[..again] + old(buf)
      ensures r == Err(Interrupted) ==> again == 0
      ensures |inner.script| <= old(|inner.script|) && (r.Err? ==> |inner.script| < old(|inner.script|))
      ensures old(AllBenign(inner.script)) ==>
                && AllBenign(inner.script) && inner.written == old(Content()) && buf == []
                && (r.Err? ==> r.kind == Interrupted)
    {
      var f, sent := FlushBuf();
      again := 0;
      if f.Err? {
        return f, sent;
      }
      assert inner.script != [] ==> inner.script[0] in inner.script;
      r := inner.Flush();
    }
  }

  /** How many buffered bytes a failed flush of `len` bytes leaves written twice. */
  function Repeats(len: nat, script: seq<WriteChoice>): (n: nat)
    ensures n <= len
  {
    if Accepted(len, script) < len then Accepted(len, script) else 0
  }

  /** `got` is `whole` with the `again` bytes from `at` on written twice. */
  ghost predicate Stutters(whole: seq<Byte>, got: seq<Byte>, at: nat, again: nat) {
    at + again <= |whole| && got == whole[..at + again] + whole[at..]
  }

  lemma NoStutter(whole: seq<Byte>)
    ensures Stutters(whole, whole, 0, 0)
  {
    assert whole[..0] + whole[0..] == whole;
  }

  lemma StutterAt(moved: seq<Byte>, held: seq<Byte>, again: nat)
    requires again <= |held|
    ensures Stutters(moved + held, moved + held[..again] + held, |moved|, again)
  {
    var whole := moved + held;
    assert whole[..|moved| + again] == moved + held[..again];
    assert whole[|moved|..] == held;
  }

  /** A failing input: of two buffered bytes the inner writer takes one and then fails, and the
      content becomes three bytes, the first of them twice. */
  method HalfFlushed() returns (inner: seq<Byte>, buffered: seq<Byte>)
    ensures inner == [1] && buffered == [1, 2] && inner + buffered == [1, 1, 2]
  {
    var sink := new Sink([Accept(1), WriteFailed]);
    var writer := new BufWriter(8, sink);
    var _, _ := writer.Write([1, 2]);
    assert writer.buf == [1, 2] && writer.buf[..1] == [1];
    Halves();
    var _, _ := writer.FlushBuf();
    inner, buffered := sink.written, writer.buf;
  }

  lemma Halves()
    ensures Accepted(2, [Accept(1), WriteFailed]) == 1 && !StallsFirst([Accept(1), WriteFailed])
  {
    assert [Accept(1), WriteFailed][1..] == [WriteFailed];
  }

  lemma StutterAppend(whole: seq<Byte>, got: seq<Byte>, at: nat, again: nat, more: seq<Byte>)
    requires Stutters(whole, got, at, again)
    ensures Stutters(whole + more, got + more, at, again)
  {
    assert (whole + more)[..at + again] == whole[..at + again];
    assert (whole + more)[at..] == whole[at..] + more;
    Associate(whole[..at + again], whole[at..], more);
  }

  /** `got` is `whole` with `n` stretches, one after the other, written twice. */
  ghost predicate Repeated(whole: seq<Byte>, got: seq<Byte>, n: nat)
    decreases n
  {
    if n == 0 then got == whole
    else exists mid, at, again :: Stutters(mid, got, at, again) && Repeated(whole, mid, n - 1)
  }

  lemma {:induction false} RepeatedAppend(whole: seq<Byte>, got: seq<Byte>, n: nat, more: seq<Byte>)
    requires Repeated(whole, got, n)
    ensures Repeated(whole + more, got + more, n)
    decreases n
  {
    if n > 0 {
      var mid, at, again :| Stutters(mid, got, at, again) && Repeated(whole, mid, n - 1);
      StutterAppend(mid, got, at, again, more);
      RepeatedAppend(whole, mid, n - 1, more);
    }
  }

  datatype WriteOp = WriteSome(data: seq<Byte>) | WriteWhole(data: seq<Byte>) | FlushNow

  /** The operation failed, other than by an interrupt. */
  predicate Failed(status: IoResult<()>) {
    status.Err? && status.kind != Interrupted
  }

  /** What one operation may report as taken, and take, with `held` bytes buffered before and `held'`
      after it: `write` what it reports, all of it when it is smaller than the buffer; `write_all` all
      or, when it fails, a prefix nobody is told of. What fits is only buffered, and a flush that
      succeeds leaves nothing behind. */
  ghost predicate Takes(op: WriteOp, capacity: nat, held: nat, held': nat, status: IoResult<()>, told: seq<Byte>,
                        taken: seq<Byte>) {
    && held' <= capacity
    && (!op.FlushNow? && Fits(held, op.data, capacity) ==> status.Ok? && held' == held + |op.data|)
    && match op {
         case WriteSome(data) =>
           && taken == told <= data && (status.Err? ==> told == [])
           && (|data| < capacity ==> status != Err(Interrupted) && (status.Ok? ==> told == data))
         case WriteWhole(data) =>
           && taken <= data && status != Err(Interrupted)
           && (if status.Ok? then told == taken == data else told == [])
         case FlushNow => told == taken == [] && (status.Ok? ==> held' == 0)
       }
  }

  /** A `write` of something that succeeds takes something. */
  predicate Advances(op: WriteOp, status: IoResult<()>, told: seq<Byte>) {
    op.WriteSome? && op.data != [] && status.Ok? ==> told != []
  }

  /** One operation on a writer: the bytes it takes are appended, and only if it fails is a stretch of
      the content then there twice. */
  method PerformWrite(writer: BufWriter, op: WriteOp)
    returns (told: seq<Byte>, status: IoResult<()>, ghost taken: seq<Byte>, ghost at: nat, ghost again: nat)
    requires writer.Valid()
    modifies writer, writer.inner
    ensures writer.Valid()
    ensures Takes(op, writer.capacity, old(|writer.buf|), |writer.buf|, status, told, taken)
    ensures !Failed(status) ==> taken == told && writer.Content() == old(writer.Content()) + taken
    ensures Failed(status) ==> Stutters(old(writer.Content()) + taken, writer.Content(), at, again)
    ensures |writer.inner.script| + (if status.Err? then 1 else 0) <= old(|writer.inner.script|)
    ensures old(AllBenign(writer.inner.script)) ==>
              !Failed(status) && AllBenign(writer.inner.script) && Advances(op, status, told)
  {
    hide AllBenign, Repeats, Stutters;
    told, status, taken, at, again := [], Ok(()), [], 0, 0;
    ghost var moved, held := writer.inner.written, writer.buf;
    assert moved + held + [] == moved + held;
    match op {
      case WriteSome(data) =>
        var r, twice := writer.Write(data);
        if r.Ok? {
          told := data[..r.value];
          taken := told;
        } else {
          status, at, again := Err(r.kind), |moved|, twice;
          StutterAt(moved, held, twice);
          assert twice == 0 ==> moved + held[..twice] + held == moved + held;
        }
      case WriteWhole(data) =>
        var r, n, from, twice := writer.WriteAll(data);
        told, status := if r.Ok? then data else [], r;
        taken, at, again := data[..n], from, twice;
        assert r.Ok? ==> data[..n] == data;
      case FlushNow =>
        var r, twice := writer.Flush();
        status := r;
        if r.Err? {
          at, again := |moved|, twice;
          StutterAt(moved, held, twice);
          assert twice == 0 ==> moved + held[..twice] + held == moved + held;
        }
    }
  }

  function Failures(status: seq<IoResult<()>>): nat {
    if status == [] then 0 else Failures(status[..|status| - 1]) + if Failed(status[|status| - 1]) then 1 else 0
  }

  function Refusals(status: seq<IoResult<()>>): nat {
    if status == [] then 0 else Refusals(status[..|status| - 1]) + if status[|status| - 1].Err? then 1 else 0
  }

  /** What was reported, taken and left in the buffer, operation by operation. */
  ghost predicate WriteHistory(ops: seq<WriteOp>, capacity: nat, held: seq<nat>, told: seq<seq<Byte>>,
                               status: seq<IoResult<()>>, taken: seq<seq<Byte>>) {
    && |told| == |status| == |taken| == |ops| && |held| == |ops| + 1 && held[0] == 0
    && forall i :: 0 <= i < |ops| ==> Takes(ops[i], capacity, held[i], held[i + 1], status[i], told[i], taken[i])
  }

  lemma HistoryStart(capacity: nat)
    ensures WriteHistory([], capacity, [0], [], [], []) && Repeated(Flatten([]), [], Failures([])) && Refusals([]) == 0
    ensures Failures([]) == 0
  {
  }

  lemma HistoryNext(ops: seq<WriteOp>, capacity: nat, held: seq<nat>, told: seq<seq<Byte>>, status: seq<IoResult<()>>,
                    taken: seq<seq<Byte>>, op: WriteOp, after: nat, t: seq<Byte>, st: IoResult<()>, k: seq<Byte>)
    requires WriteHistory(ops, capacity, held, told, status, taken)
    requires Takes(op, capacity, held[|ops|], after, st, t, k)
    ensures WriteHistory(ops + [op], capacity, held + [after], told + [t], status + [st], taken + [k])
    ensures Flatten(told + [t]) == Flatten(told) + t && Flatten(taken + [k]) == Flatten(taken) + k
    ensures Failures(status + [st]) == Failures(status) + if Failed(st) then 1 else 0
    ensures Refusals(status + [st]) == Refusals(status) + if st.Err? then 1 else 0
  {
    hide Takes, Failed;
    FlattenSnoc(told, t);
    FlattenSnoc(taken, k);
    assert (status + [st])[..|status|] == status;
  }

  /** Any mix of writes and flushes, through any buffer and over any inner writer: inner then buffered
      bytes are the bytes taken, in order, with at most one stretch written twice for each operation
      that failed, and no more operations are refused than the inner writer has choices. Over one that
      is only short or interrupted none fails, and taking it out leaves it with exactly the bytes
      reported as taken. */
  method WriteThrough(ops: seq<WriteOp>, script: seq<WriteChoice>, capacity: nat)
    returns (told: seq<seq<Byte>>, status: seq<IoResult<()>>, held: seq<nat>, content: seq<Byte>, written: seq<Byte>,
             ghost taken: seq<seq<Byte>>)
    ensures WriteHistory(ops, capacity, held, told, status, taken)
    ensures Repeated(Flatten(taken), content, Failures(status)) && Refusals(status) <= |script|
    ensures AllBenign(script) ==>
              && Failures(status) == 0 && written == content == Flatten(told)
              && forall i :: 0 <= i < |ops| ==> Advances(ops[i], status[i], told[i])
  {
    hide AllBenign, Stutters, Takes, Advances, Repeated, Failures, Refusals, Flatten, WriteHistory;
    var sink := new Sink(script);
    var writer := new BufWriter(capacity, sink);
    HistoryStart(capacity);
    assert writer.Content() == [];
    told, status, held, taken := [], [], [0], [];
    for i := 0 to |ops|
      invariant writer.Valid() && fresh(writer) && fresh(writer.inner) && writer.inner == sink
      invariant writer.capacity == capacity && WriteHistory(ops[..i], capacity, held, told, status, taken)
      invariant |told| == |status| == |taken| == i && |held| == i + 1 && held[i] == |writer.buf|
      invariant Repeated(Flatten(taken), writer.Content(), Failures(status))
      invariant |sink.script| + Refusals(status) <= |script| && (Failures(status) == 0 ==> taken == told)
      invariant AllBenign(script) ==> Failures(status) == 0 && AllBenign(sink.script)
      invariant AllBenign(script) ==> forall j :: 0 <= j < i ==> Advances(ops[j], status[j], told[j])
    {
      ghost var before := writer.Content();
      var t, st, k, at, again := PerformWrite(writer, ops[i]);
      HistoryNext(ops[..i], capacity, held, told, status, taken, ops[i], |writer.buf|, t, st, k);
      assert ops[..i] + [ops[i]] == ops[..i + 1];
      RepeatedAppend(Flatten(taken), before, Failures(status), k);
      if Failed(st) {
        RepeatedOnce(Flatten(taken) + k, before + k, Failures(status), writer.Content(), at, again);
      }
      told, status, held, taken := told + [t], status + [st], held + [|writer.buf|], taken + [k];
    }
    assert ops[..|ops|] == ops;
    if Failures(status) == 0 { RepeatedNever(Flatten(taken), writer.Content()); }
    content := writer.inner.written + writer.buf;
    var _ := writer.IntoInner();
    written := sink.written;
  }

  lemma RepeatedNever(whole: seq<Byte>, got: seq<Byte>)
    requires Repeated(whole, got, 0)
    ensures got == whole
  {
  }

  lemma RepeatedOnce(whole: seq<Byte>, mid: seq<Byte>, n: nat, got: seq<Byte>, at: nat, again: nat)
    requires Repeated(whole, mid, n) && Stutters(mid, got, at, again)
    ensures Repeated(whole, got, n + 1)
  {
  }
}
