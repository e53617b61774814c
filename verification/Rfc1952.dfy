/** The checksum of the loader (patmos/c/bootloader/download.c) is the CRC-32 of section 8 of RFC 1952, in that
    section's own table-driven form with its own constants; it is also what the host's java.util.zip.CRC32 computes. */
module Rfc1952 {
  import opened Bytes
  import opened Crc

  // ----- The sample code of section 8 --------------------------------------------------------------------

  /** make_crc_table: `k` rounds on one table entry. */
  function Entry(c: bv32, k: nat): bv32
    decreases k
  {
    if k == 0 then c else Entry(if c & 1 != 0 then 0xEDB8_8320 ^ (c >> 1) else c >> 1, k - 1)
  }

  /** update_crc, one byte: `c = crc_table[(c ^ buf[n]) & 0xff] ^ (c >> 8)`. */
  function CrcByte(c: bv32, b: bv32): bv32
  {
    Entry((c ^ b) & 0xFF, 8) ^ (c >> 8)
  }

  function CrcBytes(c: bv32, p: seq<byte>): bv32
    decreases p
  {
    if p == [] then c else CrcBytes(CrcByte(c, Widen(p[0])), p[1..])
  }

  /** crc: all bits set before, all bits flipped after. */
  function CrcOf(p: seq<byte>): bv32
  {
    CrcBytes(0xFFFF_FFFF, p) ^ 0xFFFF_FFFF
  }

  // ----- The bit loop of the loader computes it --------------------------------------------------------------

  lemma OneRound(c: bv32)
    ensures Step(c) == if c & 1 != 0 then 0xEDB8_8320 ^ (c >> 1) else c >> 1
  {
  }

  lemma {:induction false} EntryIsSteps(c: bv32, k: nat)
    ensures Entry(c, k) == Steps(c, k)
    decreases k
  {
    hide Step;
    if k > 0 {
      OneRound(c);
      EntryIsSteps(Step(c), k - 1);
    }
  }

  lemma StepsNext(c: bv32, k: nat)
    requires k > 0
    ensures Steps(c, k) == Steps(Step(c), k - 1)
  {
    hide Step;
  }

  /** `x` is `l` with `u` laid over it. */
  predicate Laid(x: bv32, l: bv32, u: bv32)
  {
    x == l ^ u
  }

  /** `u` is `w` one place up, and no bit was lost. */
  predicate Doubled(u: bv32, w: bv32)
  {
    u == w << 1 && w & 0x8000_0000 == 0
  }

  /** `u` is `h` moved up by `k` places, and no bit was lost. */
  ghost predicate Raised(h: bv32, k: nat, u: bv32)
    decreases k
  {
    if k == 0 then u == h else exists w :: Doubled(u, w) && Raised(h, k - 1, w)
  }

  lemma LaidNext(x: bv32, l: bv32, u: bv32, w: bv32)
    requires Laid(x, l, u) && Doubled(u, w)
    ensures Laid(Step(x), Step(l), w)
  {
    hide Step;
    StepSplit(l, w);
  }

  /** While `k` low bits are shifted out, what stands above them only moves down. */
  lemma {:induction false} StepsSplit(x: bv32, l: bv32, h: bv32, k: nat, u: bv32)
    requires Laid(x, l, u) && Raised(h, k, u)
    ensures Laid(Steps(x, k), Steps(l, k), h)
    decreases k
  {
    hide Step; hide Laid; hide Doubled;
    if k > 0 {
      var w :| Doubled(u, w) && Raised(h, k - 1, w);
      LaidNext(x, l, u, w);
      StepsSplit(Step(x), Step(l), h, k - 1, w);
      StepsNext(x, k);
      StepsNext(l, k);
    }
  }

  lemma RaisedNone(h: bv32)
    ensures Raised(h, 0, h)
  {
  }

  lemma RaisedNext(h: bv32, k: nat, w: bv32, u: bv32)
    requires Raised(h, k, w) && Doubled(u, w)
    ensures Raised(h, k + 1, u)
  {
    hide Doubled;
  }

  lemma Doublings(h: bv32)
    requires h & 0xFF00_0000 == 0
    ensures Doubled(h << 1, h) && Doubled(h << 2, h << 1) && Doubled(h << 3, h << 2)
    ensures Doubled(h << 4, h << 3) && Doubled(h << 5, h << 4) && Doubled(h << 6, h << 5)
    ensures Doubled(h << 7, h << 6) && Doubled(h << 8, h << 7)
  {
  }

  lemma RaisedEight(h: bv32)
    requires h & 0xFF00_0000 == 0
    ensures Raised(h, 8, h << 8)
  {
    Doublings(h);
    RaisedNone(h);
    hide Doubled; hide Raised;
    RaisedNext(h, 0, h, h << 1);
    RaisedNext(h, 1, h << 1, h << 2);
    RaisedNext(h, 2, h << 2, h << 3);
    RaisedNext(h, 3, h << 3, h << 4);
    RaisedNext(h, 4, h << 4, h << 5);
    RaisedNext(h, 5, h << 5, h << 6);
    RaisedNext(h, 6, h << 6, h << 7);
    RaisedNext(h, 7, h << 7, h << 8);
  }

  lemma ByteAndAbove(x: bv32)
    ensures (x >> 8) & 0xFF00_0000 == 0 && Laid(x, x & 0xFF, (x >> 8) << 8)
  {
  }

  /** Eight shifts: the low byte goes through the table, the rest moves down by a byte. */
  lemma EightSteps(x: bv32)
    ensures Laid(Steps(x, 8), Steps(x & 0xFF, 8), x >> 8)
  {
    hide Steps; hide Laid; hide Raised;
    ByteAndAbove(x);
    RaisedEight(x >> 8);
    StepsSplit(x, x & 0xFF, x >> 8, 8, (x >> 8) << 8);
  }

  /** Xoring in `w` leaves what is above the low byte. */
  predicate LowOnly(c: bv32, w: bv32)
  {
    (c ^ w) >> 8 == c >> 8
  }

  lemma ByteAndRest(c: bv32, w: bv32)
    requires w & 0xFFFF_FF00 == 0
    ensures LowOnly(c, w)
  {
  }

  lemma BytesAreLow(b: byte, a: bv32)
    requires a == Above(|Bits(b)|)
    ensures a == 0xFFFF_FF00 && Widen(b) & a == 0
  {
    WordBelow(Bits(b), Widen(b), a);
    AboveEight(|Bits(b)|);
  }

  lemma AboveEight(n: nat)
    requires n == 8
    ensures Above(n) == 0xFFFF_FF00
  {
    assert Above(n - 7) == 0xFFFF_FFFE;
    assert Above(n - 6) == 0xFFFF_FFFC;
    assert Above(n - 5) == 0xFFFF_FFF8;
    assert Above(n - 4) == 0xFFFF_FFF0;
    assert Above(n - 3) == 0xFFFF_FFE0;
    assert Above(n - 2) == 0xFFFF_FFC0;
    assert Above(n - 1) == 0xFFFF_FF80;
  }

  lemma RestOfByte(c: bv32, b: byte, w: bv32)
    requires w == Widen(b)
    ensures LowOnly(c, w)
  {
    BytesAreLow(b, Above(|Bits(b)|));
    hide Widen; hide Above; hide LowOnly;
    ByteAndRest(c, w);
  }

  lemma AbsorbIs(c: bv32, b: byte)
    ensures Absorb(c, b) == Steps(c ^ Widen(b), 8)
  {
    hide Widen; hide Bits; hide Steps;
  }

  lemma CrcByteIs(c: bv32, w: bv32, r: bv32)
    requires (c ^ w) >> 8 == c >> 8 && Laid(r, Entry((c ^ w) & 0xFF, 8), (c ^ w) >> 8)
    ensures CrcByte(c, w) == r
  {
    hide Entry;
  }

  lemma EntryOfByte(x: bv32)
    ensures Laid(Steps(x, 8), Entry(x & 0xFF, 8), x >> 8)
  {
    hide Steps; hide Entry; hide Laid;
    EightSteps(x);
    EntryIsSteps(x & 0xFF, 8);
  }

  lemma CrcByteSteps(c: bv32, w: bv32)
    requires LowOnly(c, w)
    ensures CrcByte(c, w) == Steps(c ^ w, 8)
  {
    hide Steps; hide Entry; hide Laid; hide CrcByte;
    EntryOfByte(c ^ w);
    CrcByteIs(c, w, Steps(c ^ w, 8));
  }

  lemma ByteAgrees(c: bv32, b: byte)
    ensures Absorb(c, b) == CrcByte(c, Widen(b))
  {
    hide *;
    RestOfByte(c, b, Widen(b));
    AbsorbIs(c, b);
    CrcByteSteps(c, Widen(b));
  }

  lemma {:induction false} BytesAgree(c: bv32, p: seq<byte>)
    ensures Update(c, p) == CrcBytes(c, p)
    decreases |p|
  {
    hide Absorb; hide CrcByte; hide Widen;
    if p != [] {
      ByteAgrees(c, p[0]);
      BytesAgree(Absorb(c, p[0]), p[1..]);
    }
  }

  /** For every payload the loader's checksum is the CRC of section 8 of RFC 1952. */
  lemma ChecksumIsCrc(p: seq<byte>)
    ensures Checksum(p) == CrcOf(p)
  {
    BytesAgree(0xFFFF_FFFF, p);
    hide Update; hide CrcBytes;
  }

  // ----- How a byte enters the register -----------------------------------------------------------------------

  function Down(w: bv32, k: nat): bv32
    decreases k
  {
    if k == 0 then w else Down(w >> 1, k - 1)
  }

  lemma {:induction false} WordBit(q: seq<bool>, w: bv32, k: nat)
    requires k < |q| <= 32 && w == Word(q)
    ensures Down(w, k) & 1 == 1 <==> q[k]
    decreases k
  {
    var v := Word(q[1..]);
    WordTopClear(q[1..], v);
    ConsParts(q[0], v, w);
    if k > 0 { WordBit(q[1..], v, k - 1); }
  }

  predicate Halved(w: bv32, v: bv32)
  {
    v == w >> 1
  }

  lemma {:induction false} DownNext(w: bv32, k: nat, v: bv32, u: bv32)
    requires Down(w, k) == v && Halved(v, u)
    ensures Down(w, k + 1) == u
    decreases k
  {
    if k > 0 {
      hide Halved;
      DownNext(w >> 1, k - 1, v, u);
    }
  }

  lemma Halvings(w: bv32)
    ensures Halved(w, w >> 1) && Halved(w >> 1, w >> 2) && Halved(w >> 2, w >> 3) && Halved(w >> 3, w >> 4)
    ensures Halved(w >> 4, w >> 5) && Halved(w >> 5, w >> 6) && Halved(w >> 6, w >> 7)
  {
  }

  lemma DownNone(w: bv32)
    ensures Down(w, 0) == w
  {
  }

  lemma DownIs(w: bv32)
    ensures Down(w, 0) == w && Down(w, 1) == w >> 1 && Down(w, 2) == w >> 2 && Down(w, 3) == w >> 3
    ensures Down(w, 4) == w >> 4 && Down(w, 5) == w >> 5 && Down(w, 6) == w >> 6 && Down(w, 7) == w >> 7
  {
    DownNone(w);
    Halvings(w);
    hide Down; hide Halved;
    DownNext(w, 0, w, w >> 1);
    DownNext(w, 1, w >> 1, w >> 2);
    DownNext(w, 2, w >> 2, w >> 3);
    DownNext(w, 3, w >> 3, w >> 4);
    DownNext(w, 4, w >> 4, w >> 5);
    DownNext(w, 5, w >> 5, w >> 6);
    DownNext(w, 6, w >> 6, w >> 7);
  }

  /** A byte is xored into the lowest eight bits of the register, its own lowest bit lowest. */
  lemma WidenIs(b: byte)
    ensures Widen(b) & 0xFFFF_FF00 == 0
    ensures (Widen(b) & 1 == 1 <==> b % 2 == 1) && ((Widen(b) >> 1) & 1 == 1 <==> b / 2 % 2 == 1)
    ensures ((Widen(b) >> 2) & 1 == 1 <==> b / 4 % 2 == 1) && ((Widen(b) >> 3) & 1 == 1 <==> b / 8 % 2 == 1)
    ensures ((Widen(b) >> 4) & 1 == 1 <==> b / 16 % 2 == 1) && ((Widen(b) >> 5) & 1 == 1 <==> b / 32 % 2 == 1)
    ensures ((Widen(b) >> 6) & 1 == 1 <==> b / 64 % 2 == 1) && ((Widen(b) >> 7) & 1 == 1 <==> b / 128 % 2 == 1)
  {
    var w, q := Widen(b), Bits(b);
    BytesAreLow(b, Above(|q|));
    BitValues(b);
    DownIs(w);
    hide Bits; hide Down; hide Word; hide Above;
    WordBit(q, w, 0);
    WordBit(q, w, 1);
    WordBit(q, w, 2);
    WordBit(q, w, 3);
    WordBit(q, w, 4);
    WordBit(q, w, 5);
    WordBit(q, w, 6);
    WordBit(q, w, 7);
  }

  // ----- A packet of the host ---------------------------------------------------------------------------------

  lemma OnesShifted()
    ensures Steps(0xFFFF_FFFF, 8) == 0x2DFD_1072
  {
    assert Steps(0xB242_0DE3, 4) == 0x2DFD_1072;
    assert Steps(0xA49B_3D4F, 6) == 0x2DFD_1072;
  }

  lemma ZeroWord(q: seq<bool>)
    requires forall k :: 0 <= k < |q| ==> !q[k]
    ensures Word(q) == 0
  {
    if q != [] {
      ZeroWord(q[1..]);
      MaskShift(0, 0);
    }
  }

  lemma ZeroWidens()
    ensures Widen(0) == 0
  {
    BitValues(0);
    ZeroWord(Bits(0));
  }

  lemma ZeroIn(c: bv32)
    ensures c ^ 0 == c && 0x2DFD_1072 ^ 0xFFFF_FFFF == 0xD202_EF8D as bv32
  {
  }

  lemma ZeroAbsorbed(c: bv32)
    ensures Absorb(c, 0) == Steps(c, 8)
  {
    ZeroWidens();
    ZeroIn(c);
    hide Widen; hide Steps;
    AbsorbIs(c, 0);
  }

  lemma UpdateOne(c: bv32, b: byte)
    ensures Update(c, [b]) == Absorb(c, b)
  {
    hide Absorb;
  }

  /** What java.util.zip.CRC32 makes of a single zero byte. */
  lemma ChecksumOfZero()
    ensures Checksum([0]) == 0xD202_EF8D
  {
    OnesShifted();
    ZeroIn(0);
    hide Steps; hide Absorb; hide Update;
    ZeroAbsorbed(0xFFFF_FFFF);
    UpdateOne(0xFFFF_FFFF, 0);
  }
}
