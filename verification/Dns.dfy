/** The stub resolver's message code: building a query, skipping names and reading the answer
    section, against the wire format of sections 4.1 and 4.1.4 of RFC 1035. */
module Dns {
  import opened Wrappers
  import opened Sequences
  import opened Bits

  const TYPE_A: nat := 1
  const TYPE_AAAA: nat := 28
  const CLASS_IN: nat := 1
  const RECURSION_DESIRED: nat := 0x0100
  const DOT: Byte := 46

  type U16 = x: nat | x < 0x1_0000
  type U32 = x: nat | x < 0x1_0000_0000

  datatype IpAddr = V4(a: Byte, b: Byte, c: Byte, d: Byte) | V6(octets: seq<Byte>)

  // ---- the wire format ----

  /** What the parser takes for a label: any length byte that is neither 0 nor a pointer. */
  type LaxLabel = l: seq<Byte> | 1 <= |l| < 192 witness [0]

  /** What the format allows: the two top bits of the length byte are clear. */
  type Label = l: LaxLabel | |l| <= 63 witness [0]

  /** How a name ends: with the root label, or with a pointer to an earlier name. */
  datatype NameEnd = Root | Pointer(offset: nat)

  datatype Name = Name(labels: seq<Label>, end: NameEnd)

  datatype Question = Question(name: Name, qtype: U16, qclass: U16)

  datatype Record = Record(name: Name, rtype: U16, rclass: U16, ttl: U32, rdata: seq<Byte>)

  /** `rest` stands for the encoded authority and additional sections. */
  datatype Message = Message(id: U16, flags: U16, questions: seq<Question>, answers: seq<Record>,
                             authorities: U16, additionals: U16, rest: seq<Byte>)

  ghost predicate NameFits(n: Name) {
    n.end.Pointer? ==> n.end.offset < 0x4000
  }

  ghost predicate Fits(m: Message) {
    && |m.questions| < 0x1_0000 && |m.answers| < 0x1_0000
    && (forall q :: q in m.questions ==> NameFits(q.name))
    && (forall r :: r in m.answers ==> NameFits(r.name) && |r.rdata| < 0x1_0000)
  }

  function Be16(x: U16): seq<Byte> {
    [x / 256, x % 256]
  }

  function Be32(x: U32): seq<Byte> {
    Be16(x / 0x1_0000) + Be16(x % 0x1_0000)
  }

  ghost function EncodeLabels(labels: seq<LaxLabel>): seq<Byte> {
    if labels == [] then [] else [|labels[0]|] + labels[0] + EncodeLabels(labels[1..])
  }

  ghost function EncodeEnd(end: NameEnd): seq<Byte>
    requires end.Pointer? ==> end.offset < 0x4000
  {
    match end
    case Root => [0]
    case Pointer(offset) => [192 + offset / 256, offset % 256]
  }

  ghost function EncodeName(n: Name): seq<Byte>
    requires NameFits(n)
  {
    EncodeLabels(n.labels) + EncodeEnd(n.end)
  }

  ghost function EncodeQuestions(qs: seq<Question>): seq<Byte>
    requires forall q :: q in qs ==> NameFits(q.name)
  {
    if qs == [] then []
    else EncodeName(qs[0].name) + (Be16(qs[0].qtype) + Be16(qs[0].qclass)) + EncodeQuestions(qs[1..])
  }

  /** Type, class, time to live and data length: the fixed ten bytes of a record. */
  ghost function EncodeFixed(r: Record): (s: seq<Byte>)
    requires |r.rdata| < 0x1_0000
    ensures |s| == 10 && U16At(s, 0) == r.rtype && U16At(s, 8) == |r.rdata|
  {
    Be16(r.rtype) + Be16(r.rclass) + Be32(r.ttl) + Be16(|r.rdata|)
  }

  ghost function EncodeRecords(rs: seq<Record>): seq<Byte>
    requires forall r :: r in rs ==> NameFits(r.name) && |r.rdata| < 0x1_0000
  {
    if rs == [] then []
    else EncodeName(rs[0].name) + (EncodeFixed(rs[0]) + rs[0].rdata) + EncodeRecords(rs[1..])
  }

  ghost function EncodeHeader(m: Message): (s: seq<Byte>)
    requires Fits(m)
    ensures |s| == 12 && U16At(s, 4) == |m.questions| && U16At(s, 6) == |m.answers|
  {
    Be16(m.id) + Be16(m.flags) + Be16(|m.questions|) + Be16(|m.answers|) + Be16(m.authorities) + Be16(m.additionals)
  }

  ghost function Encode(m: Message): seq<Byte>
    requires Fits(m)
  {
    EncodeHeader(m) + EncodeQuestions(m.questions) + EncodeRecords(m.answers) + m.rest
  }

  // ---- what the records mean ----

  function AddressOf(rtype: nat, rdata: seq<Byte>, qtype: nat): seq<IpAddr> {
    if rtype != qtype then []
    else if qtype == TYPE_A && |rdata| == 4 then [V4(rdata[0], rdata[1], rdata[2], rdata[3])]
    else if qtype == TYPE_AAAA && |rdata| == 16 then [V6(rdata)]
    else []
  }

  /** The addresses of the asked type, in record order. */
  ghost function Addresses(rs: seq<Record>, qtype: nat): seq<IpAddr> {
    if rs == [] then [] else AddressOf(rs[0].rtype, rs[0].rdata, qtype) + Addresses(rs[1..], qtype)
  }

  function Octets(a: IpAddr): seq<Byte> {
    match a
    case V4(a, b, c, d) => [a, b, c, d]
    case V6(octets) => octets
  }

  ghost function AllOctets(addresses: seq<IpAddr>): seq<seq<Byte>> {
    if addresses == [] then [] else [Octets(addresses[0])] + AllOctets(addresses[1..])
  }

  /** The data of the records that hold an address of the asked type: type 1 with four bytes, or type 28
      with sixteen. */
  ghost function AddressData(rs: seq<Record>, qtype: nat): seq<seq<Byte>> {
    if rs == [] then []
    else
      var r := rs[0];
      (if r.rtype == qtype && ((qtype == 1 && |r.rdata| == 4) || (qtype == 28 && |r.rdata| == 16)) then [r.rdata]
       else [])
      + AddressData(rs[1..], qtype)
  }

  /** The addresses are those data, byte for byte and in order: of the first kind for type 1, of the
      second for type 28. */
  lemma {:induction false} AddressesAreData(rs: seq<Record>, qtype: nat)
    ensures AllOctets(Addresses(rs, qtype)) == AddressData(rs, qtype)
    ensures forall a :: a in Addresses(rs, qtype) ==> if qtype == 1 then a.V4? else qtype == 28 && a.V6?
  {
    if rs != [] {
      AddressesAreData(rs[1..], qtype);
      var first, rest := AddressOf(rs[0].rtype, rs[0].rdata, qtype), Addresses(rs[1..], qtype);
      if first == [] {
        assert first + rest == rest;
      } else {
        assert |first| == 1 && (first + rest)[1..] == rest && Octets(first[0]) == rs[0].rdata;
      }
    }
  }

  // ---- what the parser computes ----

  function U16At(s: seq<Byte>, p: nat): nat
    requires p + 2 <= |s|
  {
    var high: nat := s[p];
    high * 256 + s[p + 1]
  }

  /** The offset just past the name at `p`, or None when a length byte is missing. */
  ghost function Skip(msg: seq<Byte>, p: nat): (r: Option<nat>)
    ensures r.Some? ==> p < r.value <= |msg| + 1
    decreases if p < |msg| then |msg| - p else 0
  {
    if p >= |msg| then None
    else if msg[p] >= 192 then Some(p + 2)
    else if msg[p] == 0 then Some(p + 1)
    else Skip(msg, p + 1 + msg[p])
  }

  ghost function SkipQuestions(msg: seq<Byte>, p: nat, n: nat): Option<nat>
    decreases n
  {
    if n == 0 then Some(p)
    else
      var e := Skip(msg, p);
      if e.None? then None else SkipQuestions(msg, e.value + 4, n - 1)
  }

  ghost function Prepend<T>(xs: seq<T>, rest: Option<seq<T>>): Option<seq<T>> {
    if rest.None? then None else Some(xs + rest.value)
  }

  /** Up to `n` records from `p`. A record that does not fit ends the list; a name that does
      not end makes the message malformed. */
  ghost function Answers(msg: seq<Byte>, p: nat, n: nat, qtype: nat): Option<seq<IpAddr>>
    decreases n
  {
    if n == 0 then Some([])
    else
      var e := Skip(msg, p);
      if e.None? then None
      else if e.value + 10 > |msg| then Some([])
      else
        var data, length := e.value + 10, U16At(msg, e.value + 8);
        if data + length > |msg| then Some([])
        else
          Prepend(AddressOf(U16At(msg, e.value), msg[data..data + length], qtype),
                  Answers(msg, data + length, n - 1, qtype))
  }

  ghost function Parse(msg: seq<Byte>, qtype: nat): Option<seq<IpAddr>> {
    if |msg| < 12 then None
    else
      var p := SkipQuestions(msg, 12, U16At(msg, 4));
      if p.None? then None else Answers(msg, p.value, U16At(msg, 6), qtype)
  }

  // ---- the parser ----

  /** The mask test of the parser singles out the two top bits. */
  lemma PointerBits(b: Byte)
    ensures And(b, 0xc0) == 0xc0 <==> b >= 192
  {
    hide And;
    AndEven(b, 96);
    AndEven(b / 2, 48);
    AndEven(b / 4, 24);
    AndEven(b / 8, 12);
    AndEven(b / 16, 6);
    AndEven(b / 32, 3);
    MaskIsRemainder(b / 64, 4);
  }

  method SkipName(msg: seq<Byte>, start: nat) returns (r: Option<nat>)
    ensures r == Skip(msg, start)
  {
    var p := start;
    while true
      invariant Skip(msg, start) == Skip(msg, p)
      decreases if p < |msg| then |msg| - p else 0
    {
      if p >= |msg| {
        return None;
      }
      var length := msg[p];
      PointerBits(length);
      if And(length, 0xc0) == 0xc0 {
        return Some(p + 2);
      } else if length == 0 {
        return Some(p + 1);
      } else {
        p := p + 1 + length;
      }
    }
  }

  method ParseDnsAnswers(msg: seq<Byte>, qtype: U16) returns (r: Option<seq<IpAddr>>)
    ensures r == Parse(msg, qtype)
  {
    if |msg| < 12 {
      return None;
    }
    var qd, an := U16At(msg, 4), U16At(msg, 6);
    var p := 12;
    for i := 0 to qd
      invariant SkipQuestions(msg, 12, qd) == SkipQuestions(msg, p, qd - i)
    {
      var e := SkipName(msg, p);
      if e.None? {
        return None;
      }
      p := e.value + 4;
    }
    r := ReadAnswers(msg, p, an, qtype);
  }

  lemma PrependLaws<T>(xs: seq<T>, ys: seq<T>, rest: Option<seq<T>>)
    ensures Prepend(xs, Prepend(ys, rest)) == Prepend(xs + ys, rest)
    ensures Prepend([], rest) == rest
    ensures Prepend(xs, Some([])) == Some(xs) && Prepend(xs, None).None?
  {
    assert xs + [] == xs;
    if rest.Some? {
      assert xs + (ys + rest.value) == (xs + ys) + rest.value;
      assert [] + rest.value == rest.value;
    }
  }

  /** The second loop of the parser. */
  method ReadAnswers(msg: seq<Byte>, start: nat, an: nat, qtype: U16) returns (r: Option<seq<IpAddr>>)
    ensures r == Answers(msg, start, an, qtype)
  {
    var p: nat, out: seq<IpAddr> := start, [];
    hide Skip, U16At, Prepend;
    PrependLaws(out, [], Answers(msg, p, an, qtype));
    for i := 0 to an
      invariant Answers(msg, start, an, qtype) == Prepend(out, Answers(msg, p, an - i, qtype))
    {
      var e := SkipName(msg, p);
      PrependLaws(out, [], None);
      if e.None? {
        return None;
      }
      p := e.value;
      if p + 10 > |msg| {
        return Some(out);
      }
      var rtype, rdlen := U16At(msg, p), U16At(msg, p + 8);
      p := p + 10;
      if p + rdlen > |msg| {
        return Some(out);
      }
      ghost var before := out;
      if rtype == qtype {
        if qtype == TYPE_A && rdlen == 4 {
          out := out + [V4(msg[p], msg[p + 1], msg[p + 2], msg[p + 3])];
        } else if qtype == TYPE_AAAA && rdlen == 16 {
          out := out + [V6(msg[p..p + 16])];
        }
      }
      assert out == before + AddressOf(rtype, msg[p..p + rdlen], qtype);
      p := p + rdlen;
      PrependLaws(before, AddressOf(rtype, msg[p - rdlen..p], qtype), Answers(msg, p, an - i - 1, qtype));
    }
    PrependLaws(out, [], None);
    r := Some(out);
  }

  // ---- encoded messages are read back ----

  /** Labels the parser takes and an end are skipped exactly, wherever they stand. */
  lemma {:induction false} SkipLax(pre: seq<Byte>, labels: seq<LaxLabel>, end: NameEnd, post: seq<Byte>)
    requires end.Pointer? ==> end.offset < 0x4000
    ensures Skip(pre + (EncodeLabels(labels) + EncodeEnd(end)) + post, |pre|) ==
            Some(|pre| + |EncodeLabels(labels) + EncodeEnd(end)|)
    decreases |labels|
  {
    var name := EncodeLabels(labels) + EncodeEnd(end);
    var msg := pre + name + post;
    if labels == [] {
      assert name == EncodeEnd(end);
      assert msg[|pre|] == EncodeEnd(end)[0];
    } else {
      var first, tail := labels[0], EncodeLabels(labels[1..]) + EncodeEnd(end);
      var head := [|first|] + first;
      assert name == head + tail;
      assert msg == (pre + head) + tail + post;
      assert msg[|pre|] == |first|;
      SkipLax(pre + head, labels[1..], end, post);
    }
  }

  /** So a well-formed name is skipped exactly to its end. */
  lemma SkipEncoded(pre: seq<Byte>, n: Name, post: seq<Byte>)
    requires NameFits(n)
    ensures Skip(pre + EncodeName(n) + post, |pre|) == Some(|pre| + |EncodeName(n)|)
  {
    SkipLax(pre, n.labels, n.end, post);
  }

  /** Conversely, whatever is skipped reads as labels closed by a zero byte or by the first byte
      of a pointer, and the offset is just past them. Lengths from 64 to 191, which the format
      reserves, are taken for labels. */
  lemma {:induction false} SkipOnlyNames(msg: seq<Byte>, p: nat) returns (labels: seq<LaxLabel>, q: nat)
    requires Skip(msg, p).Some?
    ensures p <= q < |msg| && msg[p..q] == EncodeLabels(labels)
    ensures (msg[q] == 0 && Skip(msg, p) == Some(q + 1)) || (msg[q] >= 192 && Skip(msg, p) == Some(q + 2))
    decreases if p < |msg| then |msg| - p else 0
  {
    if msg[p] == 0 || msg[p] >= 192 {
      labels, q := [], p;
    } else {
      var next := p + 1 + msg[p];
      labels, q := SkipOnlyNames(msg, next);
      var first := msg[p + 1..next];
      assert |first| == msg[p];
      Slices(msg, p, next, q);
      labels := [first] + labels;
    }
  }

  lemma {:induction false} QuestionsEncoded(pre: seq<Byte>, qs: seq<Question>, post: seq<Byte>)
    requires forall q :: q in qs ==> NameFits(q.name)
    ensures SkipQuestions(pre + EncodeQuestions(qs) + post, |pre|, |qs|) == Some(|pre| + |EncodeQuestions(qs)|)
    decreases |qs|
  {
    hide EncodeName, Skip, NameFits;
    if qs != [] {
      var name, fixed := EncodeName(qs[0].name), Be16(qs[0].qtype) + Be16(qs[0].qclass);
      var tail := EncodeQuestions(qs[1..]);
      assert |fixed| == 4;
      Regroup(pre, name, fixed, tail, post);
      SkipEncoded(pre, qs[0].name, fixed + tail + post);
      QuestionsEncoded(pre + name + fixed, qs[1..], post);
    }
  }

  lemma {:induction false} AnswersEncoded(pre: seq<Byte>, rs: seq<Record>, post: seq<Byte>, qtype: nat)
    requires forall r :: r in rs ==> NameFits(r.name) && |r.rdata| < 0x1_0000
    ensures Answers(pre + EncodeRecords(rs) + post, |pre|, |rs|, qtype) == Some(Addresses(rs, qtype))
    decreases |rs|
  {
    hide EncodeName, EncodeFixed, Skip, NameFits, U16At, AddressOf;
    if rs != [] {
      var name, fixed, data := EncodeName(rs[0].name), EncodeFixed(rs[0]), rs[0].rdata;
      var tail := EncodeRecords(rs[1..]);
      Regroup(pre, name, fixed + data, tail, post);
      SkipEncoded(pre, rs[0].name, fixed + data + tail + post);
      RecordAt(pre + name, fixed, data, tail, post);
      AnswersEncoded(pre + name + (fixed + data), rs[1..], post, qtype);
    }
  }

  lemma RecordAt(before: seq<Byte>, fixed: seq<Byte>, data: seq<Byte>, tail: seq<Byte>, post: seq<Byte>)
    requires |fixed| == 10
    ensures var msg, n := before + (fixed + data + tail + post), |before|;
            && n + 10 + |data| <= |msg|
            && U16At(msg, n) == U16At(fixed, 0) && U16At(msg, n + 8) == U16At(fixed, 8)
            && msg[n + 10..n + 10 + |data|] == data
  {
    var msg := before + (fixed + data + tail + post);
    assert forall i :: 0 <= i < 10 ==> msg[|before| + i] == fixed[i];
  }

  /** Every encoded message is read back: exactly the addresses of the asked type, in order. */
  lemma ParseEncoded(m: Message, qtype: nat)
    requires Fits(m)
    ensures Parse(Encode(m), qtype) == Some(Addresses(m.answers, qtype))
  {
    hide EncodeHeader, EncodeQuestions, EncodeRecords, SkipQuestions, Answers, Addresses, U16At;
    var header, qs, rs := EncodeHeader(m), EncodeQuestions(m.questions), EncodeRecords(m.answers);
    assert Encode(m) == header + qs + (rs + m.rest);
    HeaderAt(header, qs + rs + m.rest);
    assert Encode(m) == header + (qs + rs + m.rest);
    QuestionsEncoded(header, m.questions, rs + m.rest);
    AnswersEncoded(header + qs, m.answers, m.rest, qtype);
  }

  lemma HeaderAt(header: seq<Byte>, after: seq<Byte>)
    requires |header| == 12
    ensures U16At(header + after, 4) == U16At(header, 4) && U16At(header + after, 6) == U16At(header, 6)
  {
  }

  // ---- the query ----

  /** The pieces of a host name between its dots. */
  function SplitDots(host: seq<Byte>): (pieces: seq<seq<Byte>>)
    ensures |pieces| > 0
  {
    if host == [] then [[]]
    else
      var rest := SplitDots(host[1..]);
      if host[0] == DOT then [[]] + rest else [[host[0]] + rest[0]] + rest[1..]
  }

  ghost function JoinDots(pieces: seq<seq<Byte>>): seq<Byte>
    requires |pieces| > 0
  {
    if |pieces| == 1 then pieces[0] else pieces[0] + [DOT] + JoinDots(pieces[1..])
  }

  /** Splitting is exact: no piece holds a dot, and the dotted pieces are the name. */
  lemma {:induction false} SplitDotsIsExact(host: seq<Byte>)
    ensures forall p :: p in SplitDots(host) ==> 46 !in p
    ensures JoinDots(SplitDots(host)) == host
  {
    if host != [] {
      SplitDotsIsExact(host[1..]);
      var pieces, rest := SplitDots(host), SplitDots(host[1..]);
      if host[0] == DOT {
        assert pieces[1..] == rest;
      } else {
        assert pieces[1..] == rest[1..];
      }
    }
  }

  ghost predicate LegalPieces(pieces: seq<seq<Byte>>) {
    forall p :: p in pieces ==> 1 <= |p| <= 63
  }

  /** The message a query stands for. */
  ghost function QueryMessage(id: U16, labels: seq<Label>, qtype: U16): Message {
    Message(id, RECURSION_DESIRED, [Question(Name(labels, Root), qtype, CLASS_IN)], [], 0, 0, [])
  }

  lemma {:induction false} EncodeLabelsAppend(labels: seq<Label>, l: Label)
    ensures EncodeLabels(labels + [l]) == EncodeLabels(labels) + [|l|] + l
  {
    if labels == [] {
      assert (labels + [l])[1..] == [];
    } else {
      EncodeLabelsAppend(labels[1..], l);
      assert (labels + [l])[1..] == labels[1..] + [l];
    }
  }

  /** Builds the query; refused exactly when some label is empty or longer than 63 bytes. */
  method BuildQuery(id: U16, host: seq<Byte>, qtype: U16) returns (r: Option<seq<Byte>>)
    ensures r.Some? <==> LegalPieces(SplitDots(host))
    ensures r.Some? ==> r.value == Encode(QueryMessage(id, SplitDots(host), qtype))
    ensures r.Some? ==>
              r.value == [id / 256, id % 256, 1, 0, 0, 1, 0, 0, 0, 0, 0, 0]
                         + EncodeLabels(SplitDots(host)) + [0, qtype / 256, qtype % 256, 0, 1]
  {
    assert EncodeLabels([]) == [];
    hide Encode, EncodeLabels, Fits, SplitDots;
    var pieces := SplitDots(host);
    var q := Be16(id) + [0x01, 0x00] + [0x00, 0x01] + [0x00, 0x00, 0x00, 0x00, 0x00, 0x00];
    ghost var header := q;
    ghost var labels: seq<Label> := [];
    for i := 0 to |pieces|
      invariant labels == pieces[..i] && q == header + EncodeLabels(labels)
    {
      var piece := pieces[i];
      if piece == [] || |piece| > 63 {
        return None;
      }
      EncodeLabelsAppend(labels, piece);
      labels := labels + [piece];
      q := q + [|piece|] + piece;
    }
    assert labels == pieces;
    q := q + [0];
    q := q + Be16(qtype);
    q := q + Be16(CLASS_IN);
    QueryBytes(id, labels, qtype, header, q);
    QueryText(id, EncodeLabels(labels), qtype, header, q);
    r := Some(q);
  }

  lemma QueryText(id: U16, name: seq<Byte>, qtype: U16, header: seq<Byte>, q: seq<Byte>)
    requires header == Be16(id) + [0x01, 0x00] + [0x00, 0x01] + [0x00, 0x00, 0x00, 0x00, 0x00, 0x00]
    requires q == header + name + [0] + Be16(qtype) + Be16(CLASS_IN)
    ensures q == [id / 256, id % 256, 1, 0, 0, 1, 0, 0, 0, 0, 0, 0] + name + [0, qtype / 256, qtype % 256, 0, 1]
  {
  }

  lemma QueryBytes(id: U16, labels: seq<Label>, qtype: U16, header: seq<Byte>, q: seq<Byte>)
    requires header == Be16(id) + [0x01, 0x00] + [0x00, 0x01] + [0x00, 0x00, 0x00, 0x00, 0x00, 0x00]
    requires q == header + EncodeLabels(labels) + [0] + Be16(qtype) + Be16(CLASS_IN)
    ensures q == Encode(QueryMessage(id, labels, qtype))
  {
    var m := QueryMessage(id, labels, qtype);
    assert EncodeHeader(m) == header;
    assert m.questions[1..] == [];
    assert EncodeQuestions(m.questions) == EncodeName(m.questions[0].name) + Be16(qtype) + Be16(CLASS_IN);
    assert EncodeRecords(m.answers) == [];
  }

  /** The question the resolver builds is one the parser skips exactly to its end. */
  lemma QuestionSkipped(id: U16, labels: seq<Label>, qtype: U16)
    ensures var q := Encode(QueryMessage(id, labels, qtype));
            && Skip(q, 12) == Some(|q| - 4)
            && SkipQuestions(q, 12, U16At(q, 4)) == Some(|q|)
            && Parse(q, qtype) == Some([])
  {
    var m := QueryMessage(id, labels, qtype);
    var q, header, name := Encode(m), EncodeHeader(m), m.questions[0].name;
    var fixed := Be16(qtype) + Be16(CLASS_IN);
    assert m.questions[1..] == [];
    assert EncodeQuestions(m.questions) == EncodeName(name) + fixed;
    assert EncodeRecords(m.answers) == [];
    assert q == header + EncodeName(name) + fixed;
    SkipEncoded(header, name, fixed);
    assert forall i :: 0 <= i < 12 ==> q[i] == header[i];
    ParseEncoded(m, qtype);
  }
}
