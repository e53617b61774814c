/** The packet checksum of the loader (patmos/c/bootloader/download.c): the reflected CRC-32 of
    section 8 of RFC 1952, computed bit by bit, and the damage it always detects.

    Lemmas about bit vectors name every intermediate word (w, v, c', ...): the solver then only
    compares names. */
module Crc {
  import opened Bytes

  const POLY: bv32 := 0xEDB8_8320
  const ONES: bv32 := 0xFFFF_FFFF

  /** One shift of the register. */
  function Step(c: bv32): bv32
  {
    if c & 1 > 0 then (c >> 1) ^ POLY else c >> 1
  }

  function Steps(c: bv32, n: nat): bv32
    decreases n
  {
    if n == 0 then c else Steps(Step(c), n - 1)
  }

  /** Up to 32 bits as one word, the first bit lowest. */
  function Word(q: seq<bool>): bv32
  {
    if q == [] then 0 else Cons(q[0], Word(q[1..]))
  }

  function Cons(b: bool, w: bv32): bv32
  {
    if b then (w << 1) | 1 else w << 1
  }

  /** A byte as a 32-bit word. */
  function Widen(b: byte): bv32
  {
    Word(Bits(b))
  }

  /** The register after one more byte: xor it in, then shift once per bit. */
  function Absorb(c: bv32, b: byte): bv32
  {
    Steps(c ^ Widen(b), |Bits(b)|)
  }

  /** The register after the bytes of `p`. */
  function Update(c: bv32, p: seq<byte>): bv32
    decreases p
  {
    if p == [] then c else Update(Absorb(c, p[0]), p[1..])
  }

  /** The final flip. */
  function Flip(c: bv32): bv32
  {
    c ^ ONES
  }

  function Checksum(p: seq<byte>): bv32
  {
    Flip(Update(ONES, p))
  }

  // ----- The same register fed one message bit at a time -----------------------------------

  /** The bits of a message in the order they are sent: each byte from its least significant bit. */
  function MessageBits(p: seq<byte>): (q: seq<bool>)
    ensures |q| == 8 * |p|
  {
    if p == [] then [] else Bits(p[0]) + MessageBits(p[1..])
  }

  function Feed(c: bv32, b: bool): bv32
  {
    Step(if b then c ^ 1 else c)
  }

  function FeedAll(c: bv32, q: seq<bool>): bv32
    decreases q
  {
    if q == [] then c else FeedAll(Feed(c, q[0]), q[1..])
  }

  // ----- Words as bytes ------------------------------------------------------------------------

  function LowWordBits(c: bv32, n: nat): (q: seq<bool>)
    ensures |q| == n
    decreases n
  {
    if n == 0 then [] else [c & 1 == 1] + LowWordBits(c >> 1, n - 1)
  }

  /** `(unsigned char) c` */
  function Narrow(c: bv32): byte
  {
    FromBits(LowWordBits(c, 8))
  }

  function LowMask(n: nat): bv32
  {
    if n == 0 then 0 else (LowMask(n - 1) << 1) | 1
  }

  lemma MaskStep(c: bv32, c': bv32, m: bv32, m': bv32, w: bv32, w': bv32)
    requires c' == c >> 1 && m == (m' << 1) | 1 && w == c & m && w' == c' & m'
    ensures c & 1 == 1 ==> w == (w' << 1) | 1
    ensures c & 1 != 1 ==> w == w' << 1
  {
  }

  lemma MaskNone(c: bv32)
    ensures c & 0 == 0
  {
  }

  lemma WordOfOne(q: seq<bool>, w': bv32, w: bv32)
    requires q != [] && q[0] && w' == Word(q[1..]) && w == (w' << 1) | 1
    ensures Word(q) == w
  {
  }

  lemma WordOfZero(q: seq<bool>, w': bv32, w: bv32)
    requires q != [] && !q[0] && w' == Word(q[1..]) && w == w' << 1
    ensures Word(q) == w
  {
  }

  lemma {:induction false} WordOfLowBits(c: bv32, n: nat, m: bv32, w: bv32)
    requires m == LowMask(n) && w == c & m
    ensures Word(LowWordBits(c, n)) == w
    decreases n
  {
    if n == 0 {
      MaskNone(c);
    } else {
      var m', c' := LowMask(n - 1), c >> 1;
      var w' := c' & m';
      WordOfLowBits(c', n - 1, m', w');
      LowBitsCons(c, n, c', m, m', w, w');
    }
  }

  lemma LowBitsCons(c: bv32, n: nat, c': bv32, m: bv32, m': bv32, w: bv32, w': bv32)
    requires n > 0 && c' == c >> 1 && m == (m' << 1) | 1 && w == c & m && w' == c' & m'
    requires Word(LowWordBits(c', n - 1)) == w'
    ensures Word(LowWordBits(c, n)) == w
  {
    hide Word;
    var q := LowWordBits(c, n);
    assert q[1..] == LowWordBits(c', n - 1);
    MaskStep(c, c', m, m', w, w');
    if c & 1 == 1 { WordOfOne(q, w', w); } else { WordOfZero(q, w', w); }
  }

  lemma WidenNarrow(c: bv32, w: bv32)
    requires w == c & 0xFF
    ensures Widen(Narrow(c)) == w
  {
    assert LowMask(8) == 0xFF;
    WordOfLowBits(c, 8, 0xFF, w);
  }

  /** The checksum field of a packet, most significant byte first. */
  function Field(c: bv32): (f: seq<byte>)
    ensures |f| == 4
  {
    [Narrow(c >> 24), Narrow(c >> 16), Narrow(c >> 8), Narrow(c)]
  }

  /** `received <<= 8; received |= data` */
  function ShiftIn(c: bv32, b: byte): bv32
  {
    (c << 8) | Widen(b)
  }

  lemma ByteOnTop(c: bv32)
    ensures ((c >> 8) << 8) | (c & 0xFF) == c
  {
  }

  lemma ShiftInNarrow(r: bv32, c: bv32)
    requires r == c >> 8
    ensures ShiftIn(r, Narrow(c)) == c
  {
    hide Narrow; hide Widen;
    ByteOnTop(c);
    WidenNarrow(c, c & 0xFF);
  }

  /** The register that receives the checksum field `f`. */
  function Received(f: seq<byte>): bv32
  {
    if f == [] then 0 else ShiftIn(Received(f[..|f| - 1]), f[|f| - 1])
  }

  lemma ReceivedNone(f: seq<byte>)
    ensures Received(f[..0]) == 0
  {
  }

  lemma ReceivedNext(f: seq<byte>, n: nat, r: bv32, c: bv32)
    requires n < |f| && f[n] == Narrow(c) && r == Received(f[..n]) && r == c >> 8
    ensures Received(f[..n + 1]) == c
  {
    hide Narrow; hide ShiftIn;
    ShiftInNarrow(r, c);
    assert f[..n + 1][..n] == f[..n];
  }

  lemma FourReceived(f: seq<byte>, c3: bv32, c2: bv32, c1: bv32, c: bv32)
    requires f == [Narrow(c3), Narrow(c2), Narrow(c1), Narrow(c)]
    requires c3 >> 8 == 0 && c2 >> 8 == c3 && c1 >> 8 == c2 && c >> 8 == c1
    ensures Received(f) == c
  {
    ReceivedNone(f);
    hide Narrow; hide ShiftIn; hide Received;
    ReceivedNext(f, 0, 0, c3);
    ReceivedNext(f, 1, c3, c2);
    ReceivedNext(f, 2, c2, c1);
    ReceivedNext(f, 3, c1, c);
    assert f[..4] == f;
  }

  lemma ShiftsCompose(c: bv32) returns (c3: bv32, c2: bv32, c1: bv32)
    ensures c3 == c >> 24 && c2 == c >> 16 && c1 == c >> 8
    ensures c3 >> 8 == 0 && c2 >> 8 == c3 && c1 >> 8 == c2
  {
    c3, c2, c1 := c >> 24, c >> 16, c >> 8;
  }

  lemma FieldIs(c: bv32, c3: bv32, c2: bv32, c1: bv32)
    requires c3 == c >> 24 && c2 == c >> 16 && c1 == c >> 8
    ensures Field(c) == [Narrow(c3), Narrow(c2), Narrow(c1), Narrow(c)]
  {
    hide Narrow;
  }

  /** Shifting in the four bytes of the field gives the checksum back. */
  lemma FieldReceived(c: bv32)
    ensures Received(Field(c)) == c
  {
    hide Narrow; hide Received; hide Field;
    var c3, c2, c1 := ShiftsCompose(c);
    FieldIs(c, c3, c2, c1);
    FourReceived(Field(c), c3, c2, c1, c);
  }

  // ----- The shift is injective ------------------------------------------------------------

  lemma ShiftBack(c: bv32)
    ensures c & 1 > 0 ==> ((c >> 1) ^ POLY) & 0x8000_0000 != 0 && ((((c >> 1) ^ POLY) ^ POLY) << 1) | 1 == c
    ensures c & 1 == 0 ==> (c >> 1) & 0x8000_0000 == 0 && (c >> 1) << 1 == c
  {
  }

  /** The top bit of a shifted register tells which branch was taken, so nothing is lost. */
  lemma StepInjective(c: bv32, d: bv32)
    requires Step(c) == Step(d)
    ensures c == d
  {
    ShiftBack(c);
    ShiftBack(d);
  }

  lemma {:induction false} StepsInjective(c: bv32, d: bv32, n: nat)
    requires Steps(c, n) == Steps(d, n)
    ensures c == d
    decreases n
  {
    if n > 0 {
      StepsInjective(Step(c), Step(d), n - 1);
      StepInjective(c, d);
    }
  }

  lemma FlipTwice(c: bv32)
    ensures (c ^ 1) ^ 1 == c
  {
  }

  lemma FeedInjective(c: bv32, d: bv32, b: bool)
    requires Feed(c, b) == Feed(d, b)
    ensures c == d
  {
    if b {
      StepInjective(c ^ 1, d ^ 1);
      FlipTwice(c);
      FlipTwice(d);
    } else {
      StepInjective(c, d);
    }
  }

  lemma {:induction false} FeedAllInjective(c: bv32, d: bv32, q: seq<bool>)
    requires FeedAll(c, q) == FeedAll(d, q)
    ensures c == d
    decreases q
  {
    if q != [] {
      FeedAllInjective(Feed(c, q[0]), Feed(d, q[0]), q[1..]);
      FeedInjective(c, d, q[0]);
    }
  }

  lemma {:induction false} FeedAllConcat(c: bv32, q: seq<bool>, r: seq<bool>)
    ensures FeedAll(c, q + r) == FeedAll(FeedAll(c, q), r)
    decreases q
  {
    if q == [] {
      assert q + r == r;
    } else {
      FeedAllConcat(Feed(c, q[0]), q[1..], r);
      assert (q + r)[1..] == q[1..] + r;
    }
  }

  // ----- A word of n message bits leaves the bits from n upwards clear -----------------------

  function Above(n: nat): bv32
  {
    if n == 0 then ONES else Above(n - 1) << 1
  }

  lemma MaskShift(a: bv32, w: bv32)
    ensures (w << 1) & (a << 1) == (w & a) << 1 && ((w << 1) | 1) & (a << 1) == (w & a) << 1
    ensures (0 as bv32) << 1 == 0
  {
  }

  lemma MaskCons(a: bv32, w: bv32, b: bool)
    requires w & a == 0
    ensures Cons(b, w) & (a << 1) == 0
  {
    if b { MaskShift(a, w); } else { MaskShift(a, w); }
  }

  lemma {:induction false} WordBelow(q: seq<bool>, w: bv32, a: bv32)
    requires w == Word(q) && a == Above(|q|)
    ensures w & a == 0
    decreases q
  {
    if q != [] {
      var t := q[1..];
      var w', a' := Word(t), Above(|t|);
      WordBelow(t, w', a');
      MaskCons(a', w', q[0]);
    }
  }

  lemma SubMask(a: bv32, b: bv32)
    requires a & b == b
    ensures (a << 1) & (b << 1) == b << 1
    ensures b & 0x8000_0000 != 0 ==> a & 0x8000_0000 != 0
  {
  }

  lemma {:induction false} AboveNested(n: nat)
    ensures Above(n) & Above(n + 1) == Above(n + 1)
  {
    if n > 0 {
      AboveNested(n - 1);
      SubMask(Above(n - 1), Above(n));
    }
  }

  lemma AboveTop31()
    ensures Above(31) == 0x8000_0000
  {
    assert Above(4) == 0xFFFF_FFF0;
    assert Above(8) == 0xFFFF_FF00;
    assert Above(12) == 0xFFFF_F000;
    assert Above(16) == 0xFFFF_0000;
    assert Above(20) == 0xFFF0_0000;
    assert Above(24) == 0xFF00_0000;
    assert Above(28) == 0xF000_0000;
  }

  lemma {:induction false} AboveTop(n: nat)
    requires n <= 31
    ensures Above(n) & 0x8000_0000 != 0
    decreases 31 - n
  {
    if n < 31 {
      AboveTop(n + 1);
      AboveNested(n);
      SubMask(Above(n), Above(n + 1));
    } else {
      AboveTop31();
    }
  }

  lemma TopOutside(a: bv32, w: bv32)
    requires a & 0x8000_0000 != 0 && w & a == 0
    ensures w & 0x8000_0000 == 0
  {
  }

  lemma WordTopClear(q: seq<bool>, w: bv32)
    requires |q| <= 31 && w == Word(q)
    ensures w & 0x8000_0000 == 0
  {
    var a := Above(|q|);
    WordBelow(q, w, a);
    AboveTop(|q|);
    TopOutside(a, w);
  }

  lemma ZeroParts(w: bv32, x: bv32)
    requires w & 0x8000_0000 == 0 && x == w << 1
    ensures x >> 1 == w && x & 1 == 0
  {
  }

  lemma OneParts(w: bv32, x: bv32)
    requires w & 0x8000_0000 == 0 && x == (w << 1) | 1
    ensures x >> 1 == w && x & 1 == 1
  {
  }

  lemma ConsParts(b: bool, w: bv32, x: bv32)
    requires w & 0x8000_0000 == 0 && x == Cons(b, w)
    ensures x >> 1 == w && (x & 1 == 1 <==> b)
  {
    if b { OneParts(w, x); } else { ZeroParts(w, x); }
  }

  lemma {:induction false} WordInjective(q: seq<bool>, r: seq<bool>)
    requires |q| == |r| <= 32 && Word(q) == Word(r)
    ensures q == r
  {
    if q != [] {
      var q', r' := q[1..], r[1..];
      var w, v := Word(q'), Word(r');
      WordTopClear(q', w);
      WordTopClear(r', v);
      ConsParts(q[0], w, Word(q));
      ConsParts(r[0], v, Word(r));
      WordInjective(q', r');
      assert q == [q[0]] + q[1..] && r == [r[0]] + r[1..];
    }
  }

  // ----- Feeding bits one by one is feeding their word at once -------------------------------

  lemma SplitFacts(x: bv32, w: bv32)
    requires w & 0x8000_0000 == 0
    ensures (x ^ (w << 1)) & 1 == x & 1 && (x ^ (w << 1)) >> 1 == (x >> 1) ^ w
    ensures ((x >> 1) ^ w) ^ POLY == ((x >> 1) ^ POLY) ^ w
  {
  }

  lemma StepSplit(x: bv32, w: bv32)
    requires w & 0x8000_0000 == 0
    ensures Step(x ^ (w << 1)) == Step(x) ^ w
  {
    SplitFacts(x, w);
  }

  lemma ConsFlip(c: bv32, w: bv32)
    ensures c ^ ((w << 1) | 1) == (c ^ 1) ^ (w << 1)
  {
  }

  lemma FeedSplit(c: bv32, b: bool, w: bv32, w': bv32, v: bv32) returns (c': bv32, v': bv32)
    requires w' & 0x8000_0000 == 0 && w == Cons(b, w') && v == c ^ w
    ensures c' == Feed(c, b) && v' == Step(v) && v' == c' ^ w'
  {
    ConsFlip(c, w');
    StepSplit(if b then c ^ 1 else c, w');
    c', v' := Feed(c, b), Step(v);
  }

  lemma XorZero(c: bv32)
    ensures c ^ 0 == c
  {
  }

  /** Up to 32 bits may be xored into the register together and shifted afterwards. */
  lemma {:induction false} FeedAllIsWord(c: bv32, q: seq<bool>, w: bv32, v: bv32)
    requires |q| <= 32 && w == Word(q) && v == c ^ w
    ensures FeedAll(c, q) == Steps(v, |q|)
    decreases q
  {
    if q == [] {
      XorZero(c);
    } else {
      var t := q[1..];
      var w' := Word(t);
      WordTopClear(t, w');
      var c', v' := FeedSplit(c, q[0], w, w', v);
      FeedAllIsWord(c', t, w', v');
    }
  }

  lemma ByteAsBits(c: bv32, b: byte)
    ensures Absorb(c, b) == FeedAll(c, Bits(b))
  {
    var q := Bits(b);
    var w := Word(q);
    var v := c ^ w;
    FeedAllIsWord(c, q, w, v);
  }

  /** The byte-wise loop computes the bit-serial register. */
  lemma {:induction false} UpdateAsBits(c: bv32, p: seq<byte>)
    ensures Update(c, p) == FeedAll(c, MessageBits(p))
    decreases p
  {
    if p != [] {
      var t := p[1..];
      var c' := Absorb(c, p[0]);
      ByteAsBits(c, p[0]);
      FeedAllConcat(c, Bits(p[0]), MessageBits(t));
      UpdateAsBits(c', t);
    }
  }

  lemma {:induction false} MessageBitsInjective(p: seq<byte>, q: seq<byte>)
    requires |p| == |q| && MessageBits(p) == MessageBits(q)
    ensures p == q
  {
    if p != [] {
      assert MessageBits(p)[..8] == Bits(p[0]) && MessageBits(q)[..8] == Bits(q[0]);
      assert MessageBits(p)[8..] == MessageBits(p[1..]) && MessageBits(q)[8..] == MessageBits(q[1..]);
      BitsInjective(p[0], q[0]);
      MessageBitsInjective(p[1..], q[1..]);
      assert p == [p[0]] + p[1..] && q == [q[0]] + q[1..];
    }
  }

  // ----- Burst detection ---------------------------------------------------------------------

  /** `p` and `q` differ at most in the 32 message bits from bit `s` on. */
  predicate DifferWithinBurst(p: seq<byte>, q: seq<byte>, s: nat)
    requires |p| == |q|
  {
    forall j :: 0 <= j < 8 * |p| && MessageBits(p)[j] != MessageBits(q)[j] ==> s <= j < s + 32
  }

  lemma BitBurstDetected(c: bv32, x: seq<bool>, y: seq<bool>, s: nat)
    requires |x| == |y| && x != y
    requires forall j :: 0 <= j < |x| && x[j] != y[j] ==> s <= j < s + 32
    ensures FeedAll(c, x) != FeedAll(c, y)
  {
    var a := if s < |x| then s else |x|;
    var b := if a + 32 < |x| then a + 32 else |x|;
    assert x == x[..a] + x[a..b] + x[b..] && y == y[..a] + y[a..b] + y[b..];
    assert x[..a] == y[..a] && x[b..] == y[b..];
    var d := FeedAll(c, x[..a]);
    FeedAllConcat(c, x[..a], x[a..b]);
    FeedAllConcat(c, y[..a], y[a..b]);
    FeedAllConcat(c, x[..a] + x[a..b], x[b..]);
    FeedAllConcat(c, y[..a] + y[a..b], y[b..]);
    if FeedAll(c, x) == FeedAll(c, y) {
      FeedAllInjective(FeedAll(d, x[a..b]), FeedAll(d, y[a..b]), x[b..]);
      WindowInjective(d, x[a..b], y[a..b]);
      assert false;
    }
  }

  lemma XorCancel(c: bv32, w: bv32)
    ensures c ^ (c ^ w) == w
  {
  }

  lemma WindowInjective(c: bv32, q: seq<bool>, r: seq<bool>)
    requires |q| == |r| <= 32 && FeedAll(c, q) == FeedAll(c, r)
    ensures q == r
  {
    var w, v := Word(q), Word(r);
    var cw, cv := c ^ w, c ^ v;
    FeedAllIsWord(c, q, w, cw);
    FeedAllIsWord(c, r, v, cv);
    StepsInjective(cw, cv, |q|);
    XorCancel(c, w);
    XorCancel(c, v);
    WordInjective(q, r);
  }

  lemma FlipAll(c: bv32)
    ensures (c ^ ONES) ^ ONES == c
  {
  }

  /** Every burst of at most 32 bits, anywhere in a packet of any length, changes its checksum. */
  lemma BurstDetected(p: seq<byte>, q: seq<byte>, s: nat)
    requires |p| == |q| && p != q && DifferWithinBurst(p, q, s)
    ensures Checksum(p) != Checksum(q)
  {
    var u, v := Update(ONES, p), Update(ONES, q);
    UpdateAsBits(ONES, p);
    UpdateAsBits(ONES, q);
    if MessageBits(p) == MessageBits(q) { MessageBitsInjective(p, q); }
    BitBurstDetected(ONES, MessageBits(p), MessageBits(q), s);
    FlipAll(u);
    FlipAll(v);
  }
}
