/** Where the resolver's message code and the format part: datagrams cut short, label lengths the
    format reserves, and names longer than it allows. */
module DnsLimits {
  import opened Arithmetic
  import opened Dns
  import opened Sequences
  import opened Wrappers

  // ---- datagrams cut short ----

  lemma {:induction false} SkipTruncated(msg: seq<Byte>, k: nat, p: nat)
    requires k <= |msg| && Skip(msg[..k], p).Some?
    ensures Skip(msg, p) == Skip(msg[..k], p)
    decreases if p < k then k - p else 0
  {
    if msg[p] < 192 && msg[p] != 0 {
      SkipTruncated(msg, k, p + 1 + msg[p]);
    }
  }

  /** A name that ends inside the cut is skipped there too. */
  lemma {:induction false} SkipInside(msg: seq<Byte>, k: nat, p: nat)
    requires k <= |msg| && Skip(msg, p).Some? && Skip(msg, p).value <= k
    ensures Skip(msg[..k], p) == Skip(msg, p)
    decreases if p < |msg| then |msg| - p else 0
  {
    if msg[p] < 192 && msg[p] != 0 {
      SkipInside(msg, k, p + 1 + msg[p]);
    }
  }

  lemma {:induction false} QuestionsTruncated(msg: seq<Byte>, k: nat, p: nat, n: nat)
    requires k <= |msg| && SkipQuestions(msg[..k], p, n).Some?
    ensures SkipQuestions(msg, p, n) == SkipQuestions(msg[..k], p, n)
    decreases n
  {
    if n > 0 {
      SkipTruncated(msg, k, p);
      QuestionsTruncated(msg, k, Skip(msg, p).value + 4, n - 1);
    }
  }

  lemma U16Truncated(msg: seq<Byte>, k: nat, p: nat)
    requires p + 2 <= k <= |msg|
    ensures U16At(msg[..k], p) == U16At(msg, p)
  {
  }

  /** The end of the record at `p`, if all of it is there. */
  ghost function RecordEnd(msg: seq<Byte>, p: nat): (r: Option<nat>)
    ensures r.Some? ==> Skip(msg, p).Some? && Skip(msg, p).value + 10 <= r.value <= |msg|
  {
    var e := Skip(msg, p);
    if e.None? || e.value + 10 > |msg| then None
    else
      var end := e.value + 10 + U16At(msg, e.value + 8);
      if end > |msg| then None else Some(end)
  }

  /** A record the cut leaves whole is the same record. */
  lemma RecordTruncated(msg: seq<Byte>, k: nat, p: nat)
    requires k <= |msg| && RecordEnd(msg[..k], p).Some?
    ensures RecordEnd(msg, p) == RecordEnd(msg[..k], p)
  {
    hide Skip, U16At;
    SkipTruncated(msg, k, p);
    U16Truncated(msg, k, Skip(msg, p).value + 8);
  }

  /** What the record at `p` adds to the answer. */
  ghost function RecordAddress(msg: seq<Byte>, p: nat, qtype: nat): seq<IpAddr>
    requires RecordEnd(msg, p).Some?
  {
    var e := Skip(msg, p).value;
    AddressOf(U16At(msg, e), msg[e + 10..RecordEnd(msg, p).value], qtype)
  }

  lemma SameAddress(msg: seq<Byte>, k: nat, p: nat, qtype: nat)
    requires k <= |msg| && RecordEnd(msg[..k], p).Some?
    ensures RecordEnd(msg, p) == RecordEnd(msg[..k], p)
    ensures RecordAddress(msg, p, qtype) == RecordAddress(msg[..k], p, qtype)
  {
    hide Skip, U16At, RecordEnd, AddressOf;
    RecordTruncated(msg, k, p);
    SkipTruncated(msg, k, p);
    var e, end := Skip(msg, p).value, RecordEnd(msg, p).value;
    U16Truncated(msg, k, e);
    assert msg[..k][e + 10..end] == msg[e + 10..end];
  }

  /** The parser's record loop, one record at a time. */
  lemma AnswersStep(msg: seq<Byte>, p: nat, n: nat, qtype: nat)
    ensures n == 0 ==> Answers(msg, p, n, qtype) == Some([])
    ensures n > 0 && Skip(msg, p).None? ==> Answers(msg, p, n, qtype).None?
    ensures n > 0 && Skip(msg, p).Some? && RecordEnd(msg, p).None? ==> Answers(msg, p, n, qtype) == Some([])
    ensures n > 0 && RecordEnd(msg, p).Some? ==>
              var rest := Answers(msg, RecordEnd(msg, p).value, n - 1, qtype);
              && (rest.None? ==> Answers(msg, p, n, qtype).None?)
              && (rest.Some? ==> Answers(msg, p, n, qtype) == Some(RecordAddress(msg, p, qtype) + rest.value))
  {
    hide Skip, AddressOf, U16At;
  }

  lemma {:induction false} AnswersTruncated(msg: seq<Byte>, k: nat, p: nat, n: nat, qtype: nat)
    requires k <= |msg| && Answers(msg[..k], p, n, qtype).Some? && Answers(msg, p, n, qtype).Some?
    ensures Answers(msg[..k], p, n, qtype).value <= Answers(msg, p, n, qtype).value
    decreases n
  {
    hide *;
    var cut := msg[..k];
    AnswersStep(cut, p, n, qtype);
    AnswersStep(msg, p, n, qtype);
    if n > 0 && RecordEnd(cut, p).Some? {
      SameAddress(msg, k, p, qtype);
      AnswersTruncated(msg, k, RecordEnd(cut, p).value, n - 1, qtype);
    }
  }

  /** Whatever the bytes: if both a message and a cut of it parse, the addresses read from the cut
      are the first of those read from the whole. */
  lemma ParseTruncated(msg: seq<Byte>, k: nat, qtype: nat)
    requires k <= |msg| && Parse(msg[..k], qtype).Some? && Parse(msg, qtype).Some?
    ensures Parse(msg[..k], qtype).value <= Parse(msg, qtype).value
  {
    hide Skip, SkipQuestions, Answers;
    QuestionsTruncated(msg, k, 12, U16At(msg, 4));
    AnswersTruncated(msg, k, SkipQuestions(msg, 12, U16At(msg, 4)).value, U16At(msg, 6), qtype);
  }

  // ---- a cut that parses although the whole does not ----

  /** Where record `i` starts, if all records before it are there. */
  ghost function NthRecord(msg: seq<Byte>, p: nat, i: nat): (r: Option<nat>)
    ensures r.Some? ==> p <= r.value
    decreases i
  {
    if i == 0 then Some(p)
    else
      var end := RecordEnd(msg, p);
      if end.None? then None else NthRecord(msg, end.value, i - 1)
  }

  /** The name of record `i` does not end. */
  ghost predicate Unended(msg: seq<Byte>, p: nat, i: nat) {
    NthRecord(msg, p, i).Some? && Skip(msg, NthRecord(msg, p, i).value).None?
  }

  /** The cut at `k` falls in record `i`, behind its name. */
  ghost predicate Straddles(msg: seq<Byte>, p: nat, k: nat, i: nat)
    requires k <= |msg|
  {
    && NthRecord(msg, p, i).Some?
    && var q := NthRecord(msg, p, i).value;
       Skip(msg[..k], q).Some? && RecordEnd(msg[..k], q).None?
  }

  ghost predicate SomeUnended(msg: seq<Byte>, p: nat, n: nat) {
    exists i :: 0 <= i < n && Unended(msg, p, i)
  }

  ghost predicate SomeStraddles(msg: seq<Byte>, p: nat, k: nat, n: nat)
    requires k <= |msg|
  {
    exists i :: 0 <= i < n && Straddles(msg, p, k, i)
  }

  lemma ShiftUnended(msg: seq<Byte>, p: nat, n: nat)
    requires n > 0
    ensures Skip(msg, p).None? ==> SomeUnended(msg, p, n)
    ensures Skip(msg, p).Some? && RecordEnd(msg, p).None? ==> !SomeUnended(msg, p, n)
    ensures RecordEnd(msg, p).Some? ==> (SomeUnended(msg, p, n) <==> SomeUnended(msg, RecordEnd(msg, p).value, n - 1))
  {
    hide Skip, RecordEnd;
    assert Unended(msg, p, 0) <==> Skip(msg, p).None?;
    if RecordEnd(msg, p).Some? {
      var end := RecordEnd(msg, p).value;
      if i :| 0 <= i < n && Unended(msg, p, i) { assert Unended(msg, end, i - 1); }
      if i :| 0 <= i < n - 1 && Unended(msg, end, i) { assert Unended(msg, p, i + 1); }
    }
  }

  /** The record loop fails exactly on a name that does not end. */
  lemma {:induction false} FailsIffUnended(msg: seq<Byte>, p: nat, n: nat, qtype: nat)
    ensures Answers(msg, p, n, qtype).None? <==> SomeUnended(msg, p, n)
    decreases n
  {
    AnswersStep(msg, p, n, qtype);
    if n > 0 {
      hide *;
      ShiftUnended(msg, p, n);
      if RecordEnd(msg, p).Some? {
        FailsIffUnended(msg, RecordEnd(msg, p).value, n - 1, qtype);
      }
    }
  }

  /** A cut inside the first record's name leaves no later record to straddle. */
  lemma NoneLater(msg: seq<Byte>, k: nat, p: nat, i: nat)
    requires k <= |msg| && Skip(msg[..k], p).None? && i > 0
    ensures !Straddles(msg, p, k, i)
  {
    var end := RecordEnd(msg, p);
    if end.Some? && NthRecord(msg, p, i).Some? {
      if Skip(msg, p).value <= k { SkipInside(msg, k, p); }
    }
  }

  lemma ShiftStraddles(msg: seq<Byte>, k: nat, p: nat, n: nat)
    requires k <= |msg| && n > 0
    ensures Skip(msg[..k], p).None? ==> !SomeStraddles(msg, p, k, n)
    ensures Skip(msg[..k], p).Some? && RecordEnd(msg[..k], p).None? ==> SomeStraddles(msg, p, k, n)
    ensures RecordEnd(msg[..k], p).Some? ==>
              (SomeStraddles(msg, p, k, n) <==> SomeStraddles(msg, RecordEnd(msg[..k], p).value, k, n - 1))
  {
    hide Skip, RecordEnd;
    var cut := msg[..k];
    assert Straddles(msg, p, k, 0) <==> Skip(cut, p).Some? && RecordEnd(cut, p).None?;
    if RecordEnd(cut, p).Some? {
      RecordTruncated(msg, k, p);
      var end := RecordEnd(cut, p).value;
      if i :| 0 <= i < n && Straddles(msg, p, k, i) { assert Straddles(msg, end, k, i - 1); }
      if i :| 0 <= i < n - 1 && Straddles(msg, end, k, i) { assert Straddles(msg, p, k, i + 1); }
    } else if Skip(cut, p).None? {
      forall i | 0 < i < n
        ensures !Straddles(msg, p, k, i)
      {
        NoneLater(msg, k, p, i);
      }
    }
  }

  lemma {:induction false} CutAnswers(msg: seq<Byte>, k: nat, p: nat, n: nat, qtype: nat)
    requires k <= |msg| && Answers(msg, p, n, qtype).None?
    ensures Answers(msg[..k], p, n, qtype).Some? <==> SomeStraddles(msg, p, k, n)
    decreases n
  {
    hide *;
    AnswersStep(msg[..k], p, n, qtype);
    AnswersStep(msg, p, n, qtype);
    ShiftStraddles(msg, k, p, n);
    if RecordEnd(msg[..k], p).Some? {
      RecordTruncated(msg, k, p);
      CutAnswers(msg, k, RecordEnd(msg, p).value, n - 1, qtype);
    }
  }

  /** A cut parses although the whole message does not if and only if the questions end inside it,
      some record's name in the whole does not end, and the cut falls behind the name of an
      earlier record but before that record's end. */
  lemma CutParsesAlone(msg: seq<Byte>, k: nat, qtype: nat)
    requires k <= |msg|
    ensures Parse(msg, qtype).None? && Parse(msg[..k], qtype).Some? <==>
              && k >= 12 && SkipQuestions(msg[..k], 12, U16At(msg, 4)).Some?
              && var start := SkipQuestions(msg[..k], 12, U16At(msg, 4)).value;
                 SomeUnended(msg, start, U16At(msg, 6)) && SomeStraddles(msg, start, k, U16At(msg, 6))
  {
    hide Skip, SkipQuestions, Answers, SomeUnended, SomeStraddles;
    if k >= 12 && SkipQuestions(msg[..k], 12, U16At(msg, 4)).Some? {
      var start, an := SkipQuestions(msg[..k], 12, U16At(msg, 4)).value, U16At(msg, 6);
      QuestionsTruncated(msg, k, 12, U16At(msg, 4));
      FailsIffUnended(msg, start, an, qtype);
      if Answers(msg, start, an, qtype).None? {
        CutAnswers(msg, k, start, an, qtype);
      }
    }
  }

  /** Such an input: two records are announced, one is there; cut inside it the message parses. */
  lemma CutOfMissingRecord() returns (msg: seq<Byte>)
    ensures |msg| == 23 && Parse(msg, TYPE_A).None? && Parse(msg[..20], TYPE_A) == Some([])
  {
    msg := [0, 0, 0, 0, 0, 0, 0, 2, 0, 0, 0, 0] + [0] + [0, 0, 0, 0, 0, 0, 0, 0, 0, 0];
    assert U16At(msg, 4) == 0 && U16At(msg, 6) == 2 && U16At(msg, 21) == 0;
    assert SkipQuestions(msg, 12, 0) == Some(12) && SkipQuestions(msg[..20], 12, 0) == Some(12);
    assert Skip(msg, 12) == Some(13) && Skip(msg, 23).None? && Skip(msg[..20], 12) == Some(13);
    AnswersStep(msg, 12, 2, TYPE_A);
    AnswersStep(msg, 23, 1, TYPE_A);
    AnswersStep(msg[..20], 12, 2, TYPE_A);
  }

  // ---- label lengths the format reserves ----

  /** Every length byte of the name at `p` has its two top bits clear. */
  ghost predicate ShortLabels(msg: seq<Byte>, p: nat)
    decreases if p < |msg| then |msg| - p else 0
  {
    p < |msg| && (msg[p] == 0 || msg[p] >= 192 || (msg[p] < 64 && ShortLabels(msg, p + 1 + msg[p])))
  }

  ghost predicate NameAt(n: Name, msg: seq<Byte>, p: nat, e: nat) {
    p <= e <= |msg| && NameFits(n) && EncodeName(n) == msg[p..e]
  }

  lemma {:induction false} ReadName(msg: seq<Byte>, p: nat) returns (n: Name)
    requires Skip(msg, p).Some? && Skip(msg, p).value <= |msg| && ShortLabels(msg, p)
    ensures NameAt(n, msg, p, Skip(msg, p).value)
    decreases if p < |msg| then |msg| - p else 0
  {
    if msg[p] == 0 {
      n := Name([], Root);
      assert EncodeName(n) == [0];
    } else if msg[p] >= 192 {
      var high: nat, low: nat := msg[p] - 192, msg[p + 1];
      n := Name([], Pointer(high * 256 + low));
      DivMod(high, low, 256);
      assert EncodeName(n) == [msg[p], msg[p + 1]];
    } else {
      var next := p + 1 + msg[p];
      var tail := ReadName(msg, next);
      var first := msg[p + 1..next];
      n := Name([first] + tail.labels, tail.end);
      assert |first| == msg[p] && n.labels[1..] == tail.labels;
      assert EncodeName(n) == [msg[p]] + first + EncodeName(tail);
      Slices(msg, p, next, Skip(msg, p).value);
    }
  }

  lemma NameParts(n: Name)
    requires NameFits(n)
    ensures n.labels == [] ==> EncodeName(n) == EncodeEnd(n.end)
    ensures n.labels != [] ==>
              var tail := n.(labels := n.labels[1..]);
              NameFits(tail) && EncodeName(n) == [|n.labels[0]|] + n.labels[0] + EncodeName(tail)
  {
    if n.labels != [] {
      Associate([|n.labels[0]|] + n.labels[0], EncodeLabels(n.labels[1..]), EncodeEnd(n.end));
    }
  }

  lemma SliceParts<T>(s: seq<T>, p: nat, e: nat, x: T, a: seq<T>, b: seq<T>)
    requires p <= e <= |s| && s[p..e] == [x] + a + b
    ensures p + 1 + |a| <= e && s[p] == x && s[p + 1 + |a|..e] == b
  {
    var name := s[p..e];
    assert s[p] == name[0] && s[p + 1 + |a|..e] == name[1 + |a|..];
  }

  lemma {:induction false} NamesAreShort(n: Name, msg: seq<Byte>, p: nat, e: nat)
    requires NameAt(n, msg, p, e)
    ensures ShortLabels(msg, p)
    decreases |n.labels|
  {
    hide EncodeName, NameFits;
    NameParts(n);
    if n.labels == [] {
      assert msg[p] == msg[p..e][0];
    } else {
      var first, tail := n.labels[0], n.(labels := n.labels[1..]);
      SliceParts(msg, p, e, |first|, first, EncodeName(tail));
      NamesAreShort(tail, msg, p + 1 + |first|, e);
    }
  }

  /** What is skipped is a name the format allows if and only if no length byte on the way is in
      the reserved range from 64 to 191, and a pointer at its end has its second byte. */
  lemma AllowedIffShort(msg: seq<Byte>, p: nat)
    requires Skip(msg, p).Some?
    ensures (exists n :: NameAt(n, msg, p, Skip(msg, p).value)) <==>
              ShortLabels(msg, p) && Skip(msg, p).value <= |msg|
  {
    if ShortLabels(msg, p) && Skip(msg, p).value <= |msg| {
      var n := ReadName(msg, p);
    } else {
      forall n
        ensures !NameAt(n, msg, p, Skip(msg, p).value)
      {
        if NameAt(n, msg, p, Skip(msg, p).value) {
          NamesAreShort(n, msg, p, Skip(msg, p).value);
        }
      }
    }
  }

  /** Such an input: a label of 64 bytes is skipped like any other. */
  lemma ReservedLengthSkipped() returns (msg: seq<Byte>)
    ensures |msg| == 66 && Skip(msg, 0) == Some(66) && !exists n :: NameAt(n, msg, 0, 66)
  {
    var wide: LaxLabel := seq(64, _ => 97);
    msg := [64] + wide + [0];
    assert EncodeLabels([wide]) == [64] + wide by { assert [wide][1..] == []; }
    assert msg == [] + (EncodeLabels([wide]) + EncodeEnd(Root)) + [];
    SkipLax([], [wide], Root, []);
    AllowedIffShort(msg, 0);
  }

  /** Another: the first byte of a pointer at the end of the message is skipped with the byte that
      is not there. */
  lemma CutPointerSkipped()
    ensures Skip([192], 0) == Some(2) && ShortLabels([192], 0) && !exists n :: NameAt(n, [192], 0, 2)
  {
    AllowedIffShort([192], 0);
  }

  // ---- the length of a whole name ----

  lemma {:induction false} EncodedLength(pieces: seq<Label>)
    requires pieces != []
    ensures |EncodeLabels(pieces)| == |JoinDots(pieces)| + 1
  {
    if |pieces| == 1 {
      assert pieces[1..] == [];
    } else {
      EncodedLength(pieces[1..]);
    }
  }

  /** A query's name takes two bytes more than the host has, so a host that is accepted keeps to
      the 255 bytes of section 2.3.4 of RFC 1035 if and only if it has at most 253. */
  lemma NameWithinLimit(host: seq<Byte>)
    requires LegalPieces(SplitDots(host))
    ensures |EncodeName(Name(SplitDots(host), Root))| == |host| + 2
    ensures |EncodeName(Name(SplitDots(host), Root))| <= 255 <==> |host| <= 253
  {
    SplitDotsIsExact(host);
    EncodedLength(SplitDots(host));
  }

  lemma {:induction false} SplitFirst(a: seq<Byte>, b: seq<Byte>)
    requires DOT !in a
    ensures SplitDots(a + [DOT] + b) == [a] + SplitDots(b) && SplitDots(a) == [a]
  {
    if a == [] {
      assert ([DOT] + b)[1..] == b && a + [DOT] + b == [DOT] + b;
    } else {
      assert (a + [DOT] + b)[1..] == a[1..] + [DOT] + b;
      SplitFirst(a[1..], b);
      assert [a[0]] + a[1..] == a;
    }
  }

  /** Such an input: three labels of 63 bytes and one of 62 are accepted. */
  lemma LongHostAccepted() returns (host: seq<Byte>)
    ensures |host| == 254 && LegalPieces(SplitDots(host)) && |EncodeName(Name(SplitDots(host), Root))| == 256
  {
    var wide: seq<Byte>, last: seq<Byte> := seq(63, _ => 97), seq(62, _ => 97);
    var two := wide + [DOT] + last;
    var three := wide + [DOT] + two;
    host := wide + [DOT] + three;
    SplitFirst(last, []);
    SplitFirst(wide, last);
    SplitFirst(wide, two);
    SplitFirst(wide, three);
    NameWithinLimit(host);
  }
}
