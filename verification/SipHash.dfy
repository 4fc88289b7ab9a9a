/** Streaming SipHash-1-3 against its one-shot specification: section 2 of "SipHash: a fast
    short-input PRF" (Aumasson and Bernstein), with one compression round per word and three
    finalization rounds. */
module SipHash {
  import opened Arithmetic
  import opened Sequences

  type Word = bv64

  // The word operations, named so that proofs about their order need not look inside them.

  function Add(x: Word, y: Word): Word { x + y }
  function Xor(x: Word, y: Word): Word { x ^ y }
  function Or(x: Word, y: Word): Word { x | y }
  function Rotl(x: Word, n: nat): Word
    requires n <= 64
  {
    x.RotateLeft(n)
  }
  function Shl8(x: Word): Word { x << 8 }
  function Widen(b: Byte): Word { b as Word }

  datatype Lanes = Lanes(v0: Word, v1: Word, v2: Word, v3: Word)

  // ---- the specification ----

  /** A little-endian word of up to eight bytes; missing bytes are zero. */
  function LittleEndian(bs: seq<Byte>): Word {
    if bs == [] then 0 else Or(Widen(bs[0]), Shl8(LittleEndian(bs[1..])))
  }

  function Init(k0: Word, k1: Word): Lanes {
    Lanes(k0 ^ 0x736f6d6570736575, k1 ^ 0x646f72616e646f6d, k0 ^ 0x6c7967656e657261, k1 ^ 0x7465646279746573)
  }

  /** One SipRound in the order the paper gives it. */
  function SipRound(v: Lanes): Lanes {
    var v0, v2 := Add(v.v0, v.v1), Add(v.v2, v.v3);
    var v1, v3 := Rotl(v.v1, 13), Rotl(v.v3, 16);
    var v1, v3 := Xor(v1, v0), Xor(v3, v2);
    var v0 := Rotl(v0, 32);
    var v2, v0 := Add(v2, v1), Add(v0, v3);
    var v1, v3 := Rotl(v1, 17), Rotl(v3, 21);
    var v1, v3 := Xor(v1, v2), Xor(v3, v0);
    var v2 := Rotl(v2, 32);
    Lanes(v0, v1, v2, v3)
  }

  function Compress(v: Lanes, m: Word): Lanes {
    var w := SipRound(v.(v3 := Xor(v.v3, m)));
    w.(v0 := Xor(w.v0, m))
  }

  /** Absorb a message of whole words. */
  function Absorb(v: Lanes, bs: seq<Byte>): Lanes {
    if |bs| < 8 then v else Compress(Absorb(v, bs[..|bs| - 8]), LittleEndian(bs[|bs| - 8..]))
  }

  function Zeros(n: nat): seq<Byte> {
    seq(n, _ => 0)
  }

  function LengthByte(n: nat): Byte {
    n % 256
  }

  /** The message followed by zeros and its length modulo 256, to a multiple of eight bytes. */
  function Padded(msg: seq<Byte>): seq<Byte> {
    msg + Zeros(7 - |msg| % 8) + [LengthByte(|msg|)]
  }

  function Finalize(v: Lanes): Word {
    var w := SipRound(SipRound(SipRound(v.(v2 := Xor(v.v2, 0xff)))));
    Xor(Xor(Xor(w.v0, w.v1), w.v2), w.v3)
  }

  function SipHash13(k0: Word, k1: Word, msg: seq<Byte>): Word {
    Finalize(Absorb(Init(k0, k1), Padded(msg)))
  }

  /** The keyless state spells a text, eight ASCII characters to a word, most significant first. */
  lemma InitSpells()
    ensures var v := Init(0, 0);
            BigEndian(v.v0) + BigEndian(v.v1) + BigEndian(v.v2) + BigEndian(v.v3) == "somepseudorandomlygeneratedbytes"
  {
  }

  function BigEndian(x: Word): string {
    [CharAt(x >> 56), CharAt(x >> 48), CharAt(x >> 40), CharAt(x >> 32),
     CharAt(x >> 24), CharAt(x >> 16), CharAt(x >> 8), CharAt(x)]
  }

  function CharAt(x: Word): char {
    ((x & 0xff) as int) as char
  }

  /** The worked example of Appendix A of the paper: the key 00 01 .. 0f and the first message word,
      through the two rounds of SipHash-2-4. */
  lemma PaperRounds()
    ensures Init(0x0706050403020100, 0x0f0e0d0c0b0a0908) ==
            Lanes(0x7469686173716475, 0x6b617f6d656e6665, 0x6b7f62616d677361, 0x7b6b696e727e6c7b)
    ensures SipRound(Lanes(0x7469686173716475, 0x6b617f6d656e6665, 0x6b7f62616d677361, 0x7c6d6c6a717c6d7b)) ==
            Lanes(0x64668a929363847f, 0x4ed232083d9aa8dc, 0xf2f74892d8141a2e, 0x9290f9810552f4a8)
    ensures SipRound(Lanes(0x64668a929363847f, 0x4ed232083d9aa8dc, 0xf2f74892d8141a2e, 0x9290f9810552f4a8)) ==
            Lanes(0x4d07749cdd0858e0, 0x0d52f6f62a4f59a4, 0x634cb3577b01fd3d, 0xa5224d6f55c7d9c8)
  {
  }

  /** Two of the reference vectors the repository checks its hasher against: the empty message and the
      fifteen bytes 00 01 .. 0e, under the key 00 01 .. 0f. */
  lemma ReferenceVectors()
    ensures SipHash13(0x0706050403020100, 0x0f0e0d0c0b0a0908, []) == 0xabac0158050fc4dc
    ensures SipHash13(0x0706050403020100, 0x0f0e0d0c0b0a0908, [0, 1, 2, 3, 4, 5, 6, 7, 8, 9, 10, 11, 12, 13, 14]) ==
            0xd320d86d2a519956
  {
    EmptyRounds();
    FifteenRounds();
    hide Init, Compress, Finalize, LittleEndian;
    EmptyWord(Init(0x0706050403020100, 0x0f0e0d0c0b0a0908));
    FifteenWords(Init(0x0706050403020100, 0x0f0e0d0c0b0a0908));
  }

  lemma EmptyRounds()
    ensures Finalize(Compress(Init(0x0706050403020100, 0x0f0e0d0c0b0a0908), 0)) == 0xabac0158050fc4dc
  {
    EmptyFinal();
    assert Init(0, 0).v0 == 0x736f6d6570736575;
    hide Finalize;
    assert Compress(Lanes(0x7469686173716475, 0x6b617f6d656e6665, 0x6b7f62616d677361, 0x7b6b696e727e6c7b), 0) ==
           Lanes(0x6864848c93698c85, 0x41d43f143c94a7dc, 0xf3f94792d7121732, 0x5e52f75805987c12);
  }

  lemma EmptyFinal()
    ensures Finalize(Lanes(0x6864848c93698c85, 0x41d43f143c94a7dc, 0xf3f94792d7121732, 0x5e52f75805987c12)) ==
            0xabac0158050fc4dc
  {
    EmptyFinalRounds();
    hide SipRound;
  }

  lemma EmptyFinalRounds()
    ensures SipRound(Lanes(0x6864848c93698c85, 0x41d43f143c94a7dc, 0xf3f94792d71217cd, 0x5e52f75805987c12)) ==
            Lanes(0x75126fd44af1912d, 0x084235164f060b8e, 0x37b0503a8026831d, 0x1b4678cdfb4533aa)
    ensures SipRound(Lanes(0x75126fd44af1912d, 0x084235164f060b8e, 0x37b0503a8026831d, 0x1b4678cdfb4533aa)) ==
            Lanes(0xc432cf08c616526b, 0x54f9871e68946396, 0xd3f2147a8eed3612, 0x8d9bd73d7633150d)
    ensures SipRound(Lanes(0xc432cf08c616526b, 0x54f9871e68946396, 0xd3f2147a8eed3612, 0x8d9bd73d7633150d)) ==
            Lanes(0xe55b538c295a1cab, 0xbd36c35d5ec49422, 0xa7f8c7bd8b5d86ed, 0x54395634f9cccab8)
  {
    assert Init(0, 0) == Lanes(0x736f6d6570736575, 0x646f72616e646f6d, 0x6c7967656e657261, 0x7465646279746573);
  }

  lemma FifteenRounds()
    ensures Finalize(Compress(Compress(Init(0x0706050403020100, 0x0f0e0d0c0b0a0908), 0x0706050403020100),
                              0x0f0e0d0c0b0a0908)) == 0xd320d86d2a519956
  {
    FifteenFinal();
    assert Init(0, 0).v0 == 0x736f6d6570736575;
    hide Finalize;
    assert Compress(Lanes(0x7469686173716475, 0x6b617f6d656e6665, 0x6b7f62616d677361, 0x7b6b696e727e6c7b),
                    0x0706050403020100) ==
           Lanes(0x63608f969061857f, 0x4ed232083d9aa8dc, 0xf2f74892d8141a2e, 0x9290f9810552f4a8);
    assert Compress(Lanes(0x63608f969061857f, 0x4ed232083d9aa8dc, 0xf2f74892d8141a2e, 0x9290f9810552f4a8),
                    0x0f0e0d0c0b0a0908) ==
           Lanes(0x3d196caec50a42e6, 0x09513282305757a8, 0x7f54bf4f850a034d, 0x5af41813840cc888);
  }

  lemma FifteenFinal()
    ensures Finalize(Lanes(0x3d196caec50a42e6, 0x09513282305757a8, 0x7f54bf4f850a034d, 0x5af41813840cc888)) ==
            0xd320d86d2a519956
  {
    FifteenFinalRounds();
    hide SipRound;
  }

  lemma FifteenFinalRounds()
    ensures SipRound(Lanes(0x3d196caec50a42e6, 0x09513282305757a8, 0x7f54bf4f850a03b2, 0x5af41813840cc888)) ==
            Lanes(0xb7bcedfe080935fe, 0x88f78fb41fe3a7ab, 0x28ab67de3a83b09d, 0xda44de2cd1d17e94)
    ensures SipRound(Lanes(0xb7bcedfe080935fe, 0x88f78fb41fe3a7ab, 0x28ab67de3a83b09d, 0xda44de2cd1d17e94)) ==
            Lanes(0x04c97583b3767327, 0x48afe26a0601b96d, 0x5f6edbe8b4334459, 0xff872dbd1dcde8b5)
    ensures SipRound(Lanes(0x04c97583b3767327, 0x48afe26a0601b96d, 0x5f6edbe8b4334459, 0xff872dbd1dcde8b5)) ==
            Lanes(0x2cc340fc882e2a76, 0x3e713c786b55d0e7, 0x6056b28f102a20d3, 0xa1c41666d9004314)
  {
    assert Init(0, 0) == Lanes(0x736f6d6570736575, 0x646f72616e646f6d, 0x6c7967656e657261, 0x7465646279746573);
  }

  lemma ZeroWord()
    ensures LittleEndian([0, 0, 0, 0, 0, 0, 0, 0]) == 0
  {
    WordOf(0, 0, 0, 0, 0, 0, 0, 0);
    hide LittleEndian;
  }

  lemma FirstWord()
    ensures LittleEndian([0, 1, 2, 3, 4, 5, 6, 7]) == 0x0706050403020100
  {
    WordOf(0, 1, 2, 3, 4, 5, 6, 7);
    hide LittleEndian;
  }

  lemma SecondWord()
    ensures LittleEndian([8, 9, 10, 11, 12, 13, 14, 15]) == 0x0f0e0d0c0b0a0908
  {
    WordOf(8, 9, 10, 11, 12, 13, 14, 15);
    hide LittleEndian;
  }

  lemma OneWord(v: Lanes, bs: seq<Byte>)
    requires |bs| == 8
    ensures Absorb(v, bs) == Compress(v, LittleEndian(bs))
  {
    hide Compress, LittleEndian;
    assert bs[..0] == [] && bs[0..] == bs;
  }

  lemma EmptyWord(v: Lanes)
    ensures Absorb(v, Padded([])) == Compress(v, 0)
  {
    hide Compress, LittleEndian, Absorb;
    var zero: seq<Byte> := [0, 0, 0, 0, 0, 0, 0, 0];
    assert Padded([]) == zero;
    ZeroWord();
    OneWord(v, zero);
  }

  lemma FifteenWords(v: Lanes)
    ensures Absorb(v, Padded([0, 1, 2, 3, 4, 5, 6, 7, 8, 9, 10, 11, 12, 13, 14])) ==
            Compress(Compress(v, 0x0706050403020100), 0x0f0e0d0c0b0a0908)
  {
    hide Compress, LittleEndian;
    var w1: seq<Byte>, w2: seq<Byte> := [0, 1, 2, 3, 4, 5, 6, 7], [8, 9, 10, 11, 12, 13, 14, 15];
    assert Padded([0, 1, 2, 3, 4, 5, 6, 7, 8, 9, 10, 11, 12, 13, 14]) == w1 + w2;
    FirstWord();
    SecondWord();
    OneWord(v, w1);
    assert (w1 + w2)[..8] == w1 && (w1 + w2)[8..] == w2;
  }

  lemma LittleEndianCons(b: Byte, rest: seq<Byte>)
    ensures LittleEndian([b] + rest) == Or(Widen(b), Shl8(LittleEndian(rest)))
  {
    assert ([b] + rest)[1..] == rest;
  }

  lemma WordOf(a: Byte, b: Byte, c: Byte, d: Byte, e: Byte, f: Byte, g: Byte, h: Byte)
    ensures LittleEndian([a, b, c, d, e, f, g, h]) ==
            Or(Widen(a), Shl8(Or(Widen(b), Shl8(Or(Widen(c), Shl8(Or(Widen(d), Shl8(
            Or(Widen(e), Shl8(Or(Widen(f), Shl8(Or(Widen(g), Shl8(Or(Widen(h), Shl8(0))))))))))))))))
  {
    hide Or, Shl8, Widen;
    FourOf(e, f, g, h, []);
    FourOf(a, b, c, d, [e, f, g, h]);
    assert [e, f, g, h] + [] == [e, f, g, h] && [a, b, c, d] + [e, f, g, h] == [a, b, c, d, e, f, g, h];
  }

  lemma FourOf(a: Byte, b: Byte, c: Byte, d: Byte, rest: seq<Byte>)
    ensures LittleEndian([a, b, c, d] + rest) ==
            Or(Widen(a), Shl8(Or(Widen(b), Shl8(Or(Widen(c), Shl8(Or(Widen(d), Shl8(LittleEndian(rest)))))))))
  {
    hide Or, Shl8, Widen, LittleEndian;
    LittleEndianCons(d, rest);
    LittleEndianCons(c, [d] + rest);
    LittleEndianCons(b, [c] + ([d] + rest));
    LittleEndianCons(a, [b] + ([c] + ([d] + rest)));
    assert [a] + ([b] + ([c] + ([d] + rest))) == [a, b, c, d] + rest;
  }

  // ---- the implementation ----

  /** `x << (8 * i)`. */
  function ShiftBytes(x: Word, i: nat): Word {
    if i == 0 then x else Shl8(ShiftBytes(x, i - 1))
  }

  lemma ShiftBytesIsShift(x: Word)
    ensures ShiftBytes(x, 1) == x << 8 && ShiftBytes(x, 2) == x << 16 && ShiftBytes(x, 3) == x << 24
    ensures ShiftBytes(x, 4) == x << 32 && ShiftBytes(x, 5) == x << 40 && ShiftBytes(x, 6) == x << 48
    ensures ShiftBytes(x, 7) == x << 56
  {
    ShiftSteps(x);
    hide Shl8;
    assert ShiftBytes(x, 1) == Shl8(x);
    assert ShiftBytes(x, 2) == Shl8(ShiftBytes(x, 1));
    assert ShiftBytes(x, 3) == Shl8(ShiftBytes(x, 2));
    assert ShiftBytes(x, 4) == Shl8(ShiftBytes(x, 3));
    assert ShiftBytes(x, 5) == Shl8(ShiftBytes(x, 4));
    assert ShiftBytes(x, 6) == Shl8(ShiftBytes(x, 5));
    assert ShiftBytes(x, 7) == Shl8(ShiftBytes(x, 6));
  }

  lemma ShiftSteps(x: Word)
    ensures Shl8(x) == x << 8 && Shl8(x << 8) == x << 16 && Shl8(x << 16) == x << 24 && Shl8(x << 24) == x << 32
    ensures Shl8(x << 32) == x << 40 && Shl8(x << 40) == x << 48 && Shl8(x << 48) == x << 56
  {
  }

  lemma ShiftDistributes(x: Word, y: Word)
    ensures Shl8(Or(x, y)) == Or(Shl8(x), Shl8(y))
  {
  }

  lemma OrAssoc(x: Word, y: Word, z: Word)
    ensures Or(x, Or(y, z)) == Or(Or(x, y), z)
  {
  }

  lemma OrZero(x: Word)
    ensures Or(x, 0) == x && Or(0, x) == x && Shl8(0) == 0
  {
  }

  /** Bytes that follow a partial word fill its upper end. */
  lemma {:induction false} Join(a: seq<Byte>, b: seq<Byte>)
    ensures LittleEndian(a + b) == Or(LittleEndian(a), ShiftBytes(LittleEndian(b), |a|))
  {
    hide Or, Shl8, Widen;
    if a == [] {
      assert a + b == b;
      OrZero(LittleEndian(b));
    } else {
      var rest, high := LittleEndian(a[1..]), LittleEndian(b);
      assert (a + b)[1..] == a[1..] + b;
      Join(a[1..], b);
      ShiftDistributes(rest, ShiftBytes(high, |a| - 1));
      OrAssoc(Widen(a[0]), Shl8(rest), ShiftBytes(high, |a|));
    }
  }

  lemma {:induction false} TrailingZeros(a: seq<Byte>, n: nat)
    ensures LittleEndian(a + Zeros(n)) == LittleEndian(a)
  {
    hide Or, Shl8, Widen;
    ZerosAreZero(n);
    Join(a, Zeros(n));
    ShiftZero(|a|);
    OrZero(LittleEndian(a));
  }

  lemma {:induction false} ZerosAreZero(n: nat)
    ensures LittleEndian(Zeros(n)) == 0
  {
    if n > 0 {
      assert Zeros(n)[1..] == Zeros(n - 1);
      ZerosAreZero(n - 1);
    }
  }

  lemma {:induction false} ShiftZero(i: nat)
    ensures ShiftBytes(0, i) == 0
  {
    if i > 0 { ShiftZero(i - 1); }
  }

  /** The first `|bs| - |bs| % 8` bytes, and the rest. */
  function Whole(bs: seq<Byte>): seq<Byte> {
    bs[..|bs| - |bs| % 8]
  }

  function Rest(bs: seq<Byte>): seq<Byte> {
    bs[|bs| - |bs| % 8..]
  }

  /** Absorbing whole words is incremental. */
  lemma {:induction false} AbsorbWord(v: Lanes, bs: seq<Byte>, w: seq<Byte>)
    requires |w| == 8
    ensures Absorb(v, bs + w) == Compress(Absorb(v, bs), LittleEndian(w))
  {
    assert (bs + w)[..|bs + w| - 8] == bs;
    assert (bs + w)[|bs + w| - 8..] == w;
  }

  /** Load `len` bytes, fewer than eight, byte by byte. */
  method PartialWord(buf: seq<Byte>, start: nat, len: nat) returns (out: Word)
    requires start + len <= |buf|
    ensures out == LittleEndian(buf[start..start + len])
  {
    hide *;
    out := 0;
    var i := 0;
    NoByte();
    assert buf[start..start] == [];
    while i < len
      invariant i <= len && out == LittleEndian(buf[start..start + i])
    {
      NextByte(buf, start, i);
      out := Or(out, ShiftBytes(Widen(buf[start + i]), i));
      i := i + 1;
    }
  }

  lemma NoByte()
    ensures LittleEndian([]) == 0
  {
  }

  lemma NextByte(buf: seq<Byte>, start: nat, i: nat)
    requires start + i < |buf|
    ensures LittleEndian(buf[start..start + i + 1]) ==
            Or(LittleEndian(buf[start..start + i]), ShiftBytes(Widen(buf[start + i]), i))
  {
    hide *;
    assert buf[start..start + i + 1] == buf[start..start + i] + [buf[start + i]];
    Join(buf[start..start + i], [buf[start + i]]);
    OneByteWord(buf[start + i]);
  }

  lemma OneByteWord(b: Byte)
    ensures LittleEndian([b]) == Widen(b)
  {
    assert [b][1..] == [];
    OrZero(Widen(b));
  }

  /** The round as the source orders it. */
  method Sipround(v: Lanes) returns (w: Lanes)
    ensures w == SipRound(v)
  {
    hide Add, Xor, Rotl;
    var v0, v1, v2, v3 := v.v0, v.v1, v.v2, v.v3;
    v0 := Add(v0, v1);
    v1 := Rotl(v1, 13);
    v1 := Xor(v1, v0);
    v0 := Rotl(v0, 32);
    v2 := Add(v2, v3);
    v3 := Rotl(v3, 16);
    v3 := Xor(v3, v2);
    v0 := Add(v0, v3);
    v3 := Rotl(v3, 21);
    v3 := Xor(v3, v0);
    v2 := Add(v2, v1);
    v1 := Rotl(v1, 17);
    v1 := Xor(v1, v2);
    v2 := Rotl(v2, 32);
    w := Lanes(v0, v1, v2, v3);
  }

  /** Fold one word into the lanes. */
  method AbsorbOne(v: Lanes, m: Word) returns (w: Lanes)
    ensures w == Compress(v, m)
  {
    hide Xor, SipRound;
    w := v.(v3 := Xor(v.v3, m));
    w := Sipround(w);
    w := w.(v0 := Xor(w.v0, m));
  }

  /** A `usize` counter. */
  function Wrap(n: nat): nat {
    n % 0x1_0000_0000_0000_0000
  }

  lemma WrapAdd(n: nat, k: nat)
    ensures Wrap(Wrap(n) + k) == Wrap(n + k)
  {
    var m := 0x1_0000_0000_0000_0000;
    var a, b := n / m, (Wrap(n) + k) / m;
    assert n == a * m + Wrap(n) && Wrap(n) + k == b * m + Wrap(Wrap(n) + k);
    assert n + k == (a + b) * m + Wrap(Wrap(n) + k);
    DivMod(a + b, Wrap(Wrap(n) + k), m);
  }

  /** `n as u64 & 0xff`. */
  function LowByte(n: nat): Word {
    (n % 256) as Word
  }

  lemma WrapLowByte(n: nat)
    ensures LowByte(Wrap(n)) == LowByte(n)
  {
    WrapMod(n);
    hide Wrap;
  }

  lemma WrapMod(n: nat)
    ensures Wrap(n) % 256 == n % 256
  {
    var a, b, r := n / 0x1_0000_0000_0000_0000, Wrap(n) / 256, Wrap(n) % 256;
    assert n == (a * 0x100_0000_0000_0000 + b) * 256 + r;
    DivMod(a * 0x100_0000_0000_0000 + b, r, 256);
  }

  lemma NothingWritten(v: Lanes)
    ensures Absorb(v, Whole([])) == v && LittleEndian(Rest([])) == 0 && Wrap(0) == 0
  {
    hide Compress, Or, Shl8, Widen;
    assert Whole([]) == [] && Rest([]) == [];
  }

  class SipHasher13 {
    var v: Lanes
    var length: nat      // a 64-bit counter
    var tail: Word
    var ntail: nat
    ghost const k0: Word
    ghost const k1: Word
    ghost var stream: seq<Byte>    // everything written so far

    /** The lanes have absorbed all complete words, `tail` is the little-endian remainder. */
    ghost predicate Valid()
      reads this
    {
      && v == Absorb(Init(k0, k1), Whole(stream))
      && tail == LittleEndian(Rest(stream))
      && ntail == |stream| % 8
      && length == Wrap(|stream|)
    }

    constructor (k0: Word, k1: Word)
      ensures Valid() && stream == [] && this.k0 == k0 && this.k1 == k1
    {
      NothingWritten(Init(k0, k1));
      hide Init, Absorb, Whole, Rest, LittleEndian, Wrap;
      this.k0, this.k1 := k0, k1;
      v := Init(k0, k1);
      length, tail, ntail := 0, 0, 0;
      stream := [];
    }

    /** The first part of `write`: complete the partial word, or run out of input trying. */
    method TopUp(msg: seq<Byte>) returns (needed: nat, done: bool)
      requires Valid()
      modifies this`v, this`tail, this`ntail
      ensures done ==>
                && v == Absorb(Init(k0, k1), Whole(stream + msg)) && tail == LittleEndian(Rest(stream + msg))
                && ntail == |stream + msg| % 8
      ensures !done ==>
                needed <= |msg| && (|stream| + needed) % 8 == 0 && v == Absorb(Init(k0, k1), stream + msg[..needed])
    {
      hide Or, Compress, Init, LittleEndian, ShiftBytes, Absorb, Wrap, Whole, Rest;
      needed, done := 0, false;
      WholeAndRest(stream);
      if ntail != 0 {
        needed := 8 - ntail;
        var take := if |msg| < needed then |msg| else needed;
        var low := PartialWord(msg, 0, take);
        TailJoin(stream, msg, take);
        tail := Or(tail, ShiftBytes(low, ntail));
        if |msg| < needed {
          ntail := ntail + |msg|;
          ShortWrite(stream, msg);
          done := true;
          return;
        }
        v := AbsorbOne(v, tail);
        TailDone(Init(k0, k1), stream, msg, needed);
        ntail, tail := 0, 0;
      } else {
        assert stream + msg[..0] == stream;
      }
    }

    method Write(msg: seq<Byte>)
      requires Valid()
      modifies this
      ensures Valid() && stream == old(stream) + msg
    {
      hide LittleEndian, Init, Absorb, Wrap, Whole, Rest;
      var len := |msg|;
      ghost var before := stream;
      var needed, done := TopUp(msg);
      WrapAdd(|before|, len);
      length := Wrap(length + len);
      stream := before + msg;
      if done {
        return;
      }
      var remaining := len - needed;
      var left := remaining % 8;
      Boundary(|before|, needed, len);
      v := AbsorbWords(v, msg, needed, len - left, Init(k0, k1), before);
      FullWrite(before, msg, len - left);
      assert msg[len - left..len] == msg[len - left..];
      tail := PartialWord(msg, len - left, left);
      ntail := left;
    }

    method Finish() returns (hash: Word)
      requires Valid()
      ensures hash == SipHash13(k0, k1, stream)
    {
      hide Or, Xor, Compress, Init, LittleEndian, ShiftBytes, Absorb, SipRound;
      hide Wrap, LowByte, Whole, Rest, LastBytes, Padded;
      var b := Or(ShiftBytes(LowByte(length), 7), tail);
      WrapLowByte(|stream|);
      LastWord(stream);
      var w := AbsorbOne(v, b);
      AbsorbWord(Init(k0, k1), Whole(stream), LastBytes(stream));
      w := w.(v2 := Xor(w.v2, 0xff));
      w := Sipround(w);
      w := Sipround(w);
      w := Sipround(w);
      hash := Xor(Xor(Xor(w.v0, w.v1), w.v2), w.v3);
    }
  }

  lemma WholeAndRest(bs: seq<Byte>)
    ensures Whole(bs) + Rest(bs) == bs && |Rest(bs)| == |bs| % 8
    ensures |bs| % 8 == 0 ==> Whole(bs) == bs
  {
  }

  /** Bytes OR-ed in above the tail extend it. */
  lemma TailJoin(before: seq<Byte>, msg: seq<Byte>, take: nat)
    requires take <= |msg|
    ensures LittleEndian(Rest(before) + msg[..take]) ==
            Or(LittleEndian(Rest(before)), ShiftBytes(LittleEndian(msg[0..take]), |before| % 8))
  {
    hide Or, LittleEndian, ShiftBytes;
    assert msg[0..take] == msg[..take];
    Join(Rest(before), msg[..take]);
  }

  /** Absorbing the completed tail absorbs everything up to its end. */
  lemma TailDone(init: Lanes, before: seq<Byte>, msg: seq<Byte>, needed: nat)
    requires needed <= |msg| && |before| % 8 + needed == 8
    ensures Absorb(init, before + msg[..needed]) ==
            Compress(Absorb(init, Whole(before)), LittleEndian(Rest(before) + msg[..needed]))
  {
    hide Compress, LittleEndian, Absorb;
    AbsorbWord(init, Whole(before), Rest(before) + msg[..needed]);
    assert Whole(before) + (Rest(before) + msg[..needed]) == before + msg[..needed];
  }

  /** Where a chunk's last complete word ends. */
  lemma Boundary(n: nat, needed: nat, len: nat)
    requires (n + needed) % 8 == 0 && needed <= len
    ensures var end := len - (len - needed) % 8;
            needed <= end <= len < end + 8 && (end - needed) % 8 == 0 && (n + end) % 8 == 0
  {
  }

  /** The loop over the complete words of a chunk. */
  method AbsorbWords(v: Lanes, msg: seq<Byte>, from: nat, to: nat, ghost init: Lanes, ghost before: seq<Byte>)
    returns (w: Lanes)
    requires from <= to <= |msg| && (to - from) % 8 == 0 && v == Absorb(init, before + msg[..from])
    ensures w == Absorb(init, before + msg[..to])
  {
    hide Compress, LittleEndian, Absorb;
    w := v;
    var i := from;
    while i < to
      invariant from <= i <= to && (to - i) % 8 == 0
      invariant w == Absorb(init, before + msg[..i])
    {
      var mi := LittleEndian(msg[i..i + 8]);
      AbsorbWord(init, before + msg[..i], msg[i..i + 8]);
      assert before + msg[..i + 8] == before + msg[..i] + msg[i..i + 8];
      w := AbsorbOne(w, mi);
      i := i + 8;
    }
  }

  /** The bytes of the final word: the remainder, zeros, and the length modulo 256. */
  function LastBytes(msg: seq<Byte>): seq<Byte> {
    Rest(msg) + Zeros(7 - |msg| % 8) + [LengthByte(|msg|)]
  }

  lemma OrComm(x: Word, y: Word)
    ensures Or(x, y) == Or(y, x)
  {
  }

  lemma LastWord(msg: seq<Byte>)
    ensures LittleEndian(LastBytes(msg)) == Or(ShiftBytes(LowByte(|msg|), 7), LittleEndian(Rest(msg)))
    ensures |LastBytes(msg)| == 8 && Whole(msg) + LastBytes(msg) == Padded(msg)
  {
    hide Or, Shl8, Widen, LittleEndian, ShiftBytes, LengthByte, LowByte, Whole, Rest;
    LowByteWord(|msg|);
    WholeAndRest(msg);
    LastJoin(Rest(msg), 7 - |msg| % 8, LengthByte(|msg|));
    AssociateThree(Whole(msg), Rest(msg), Zeros(7 - |msg| % 8), [LengthByte(|msg|)]);
  }

  lemma LastJoin(rest: seq<Byte>, zeros: nat, n: Byte)
    requires |rest| + zeros == 7
    ensures LittleEndian(rest + Zeros(zeros) + [n]) == Or(ShiftBytes(Widen(n), 7), LittleEndian(rest))
  {
    hide Or, Shl8, Widen, LittleEndian, ShiftBytes;
    TrailingZeros(rest, zeros);
    Join(rest + Zeros(zeros), [n]);
    OneByteWord(n);
    OrComm(ShiftBytes(Widen(n), 7), LittleEndian(rest));
  }

  lemma LowByteWord(n: nat)
    ensures Widen(LengthByte(n)) == LowByte(n)
  {
  }

  /** A write that does not complete a word leaves the whole words alone. */
  lemma ShortWrite(before: seq<Byte>, msg: seq<Byte>)
    requires |before| % 8 + |msg| < 8
    ensures Whole(before + msg) == Whole(before) && Rest(before + msg) == Rest(before) + msg[..|msg|]
    ensures |before + msg| % 8 == |before| % 8 + |msg|
  {
    var n := |before| - |before| % 8;
    assert |before + msg| - |before + msg| % 8 == n;
    assert (before + msg)[..n] == before[..n];
    assert (before + msg)[n..] == before[n..] + msg;
    assert msg[..|msg|] == msg;
  }

  /** A write that reaches word boundary `i` of the chunk leaves the bytes after it over. */
  lemma FullWrite(before: seq<Byte>, msg: seq<Byte>, i: nat)
    requires i <= |msg| < i + 8 && (|before| + i) % 8 == 0
    ensures Whole(before + msg) == before + msg[..i] && Rest(before + msg) == msg[i..]
    ensures |before + msg| % 8 == |msg| - i
  {
    var n := |before| + i;
    assert |before + msg| - |before + msg| % 8 == n;
    assert (before + msg)[..n] == before + msg[..i];
    assert (before + msg)[n..] == msg[i..];
  }

  /** However the input is cut into chunks, the result is the specification's hash of the
      concatenation. */
  method HashChunks(k0: Word, k1: Word, chunks: seq<seq<Byte>>) returns (hash: Word)
    ensures hash == SipHash13(k0, k1, Flatten(chunks))
  {
    hide SipHash13;
    var h := new SipHasher13(k0, k1);
    for i := 0 to |chunks|
      invariant h.Valid() && h.stream + Flatten(chunks[i..]) == Flatten(chunks) && h.k0 == k0 && h.k1 == k1
    {
      assert Flatten(chunks[i..]) == chunks[i] + Flatten(chunks[i + 1..]);
      Associate(h.stream, chunks[i], Flatten(chunks[i + 1..]));
      h.Write(chunks[i]);
    }
    assert chunks[|chunks|..] == [] && h.stream + [] == h.stream;
    hash := h.Finish();
  }
}
