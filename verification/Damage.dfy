/** Damaged packets (patmos/c/bootloader/download.c): `download` consumes a payload before it compares the
    checksum, so a damaged one is rejected unless its own bytes send the loader into a fill loop without end. */
module Damage {
  import opened Bytes
  import opened Crc
  import opened Download
  import opened Image
  import Rfc1952
  import opened Seqs
  import opened Wrappers

  // ----- When the fill loop hangs ----------------------------------------------------------------------

  /** The byte count of the fill loop after `k` turns, with C's wrap-around, is always below memsize. */
  ghost predicate FillsForever(s: Sections)
  {
    forall k: nat :: (WordAligned(s.byteCount) + 4 * k) % WRAP < s.memsize
  }

  /** Byte `m` of the payload completes a section whose fill loop has no end. */
  ghost predicate HangsAt(s: Sections, y: seq<byte>, m: nat)
    requires m < |y|
  {
    var t := ConsumeAll(s, y[..m]);
    t.Some? && Complete(Collect(t.value, y[m])) && FillsForever(Collect(t.value, y[m]))
  }

  /** From any state whatever: the bytes are never consumed exactly if one of them starts such a fill loop. */
  lemma {:induction false} NeverConsumedIff(s: Sections, y: seq<byte>)
    ensures ConsumeAll(s, y).None? <==> exists m :: 0 <= m < |y| && HangsAt(s, y, m)
    decreases |y|
  {
    if y != [] {
      var n := |y| - 1;
      var x := y[..n];
      assert y == x + [y[n]];
      NeverConsumedIff(s, x);
      forall m | 0 <= m < n ensures HangsAt(s, x, m) <==> HangsAt(s, y, m) {
        assert x[..m] == y[..m] && x[m] == y[m];
      }
      LastByte(s, x, y[n]);
      hide ConsumeAll; hide HangsAt; hide Collect;
    }
  }

  lemma LastByte(s: Sections, x: seq<byte>, b: byte)
    ensures ConsumeAll(s, x + [b]).None? <==> ConsumeAll(s, x).None? || HangsAt(s, x + [b], |x|)
  {
    assert (x + [b])[..|x|] == x;
    ConsumeConcat(s, x, [b]);
    var t := ConsumeAll(s, x);
    if t.Some? {
      var c := Collect(t.value, b);
      assert ConsumeAll(t.value, [b]) == Consume(t.value, b) by {
        hide Consume;
        assert [b][1..] == [];
      }
      FillEndsIff(WordAligned(c.byteCount), c.memsize);
      hide ConsumeAll; hide Collect; hide EndSection;
    }
  }

  // ----- The same read off the bytes ----------------------------------------------------------------------

  /** The big-endian word at position `i`. */
  function WordAt(y: seq<byte>, i: nat): (w: nat)
    requires i + 4 <= |y|
  {
    var a: nat, b: nat, c: nat, d: nat := y[i], y[i + 1], y[i + 2], y[i + 3];
    a * 0x100_0000 + b * 0x1_0000 + c * 0x100 + d
  }

  /** Some section among these bytes is complete and has a memsize above 2^32 - 4: each section is a filesize, an
      offset, a memsize, and as many bytes as filesize says. */
  predicate SectionHangs(y: seq<byte>)
    decreases |y|
  {
    |y| >= 12 && 12 + WordAt(y, 0) <= |y| && (NeverFilled(WordAt(y, 8)) || SectionHangs(y[12 + WordAt(y, 0)..]))
  }

  /** The same for all payload bytes from the start: entry point and number of sections come first. */
  predicate Hangs(y: seq<byte>)
  {
    |y| >= 8 && SectionHangs(y[8..])
  }

  lemma FieldConsumed(s: Sections, y: seq<byte>)
    requires s.state != SECTION_DATA && Fresh(s) && |y| >= 4
    ensures ConsumeAll(s, y[..4]) == HeaderDone(Header(s.(integer := WordAt(y, 0), byteCount := 4)))
  {
    hide ConsumeAll; hide HeaderDone; hide Header;
    HeaderBytes(s, y[..4], y[0], y[1], y[2], y[3]);
  }

  /** A section's data from its next byte on: consumed, unless it is complete and its fill loop has no end. */
  lemma {:induction false} DataOn(s: Sections, z: seq<byte>)
    requires s.state == SECTION_DATA && s.byteCount < s.filesize && |z| <= s.filesize - s.byteCount
    ensures var t := ConsumeAll(s, z);
            if |z| < s.filesize - s.byteCount then t.Some?
            else if NeverFilled(s.memsize) then t.None?
            else t.Some? && BetweenSections(t.value)
    decreases |z|
  {
    hide EndSection; hide Address; hide Weight;
    if z != [] {
      var t := Consume(s, z[0]);
      EndOfSection(Collect(s, z[0]));
      if |z| == 1 {
        assert z[1..] == [];
      } else {
        DataOn(t.value, z[1..]);
      }
    }
  }

  lemma EndOfSection(s: Sections)
    ensures BetweenSections(Clear(EndSection(s)))
  {
    hide Fill;
  }

  /** A section's header: it leads to the data, or past it if there is none. */
  lemma HeadOn(s: Sections, y: seq<byte>)
    requires BetweenSections(s) && |y| >= 12
    ensures var t := ConsumeAll(s, y[..12]);
            if WordAt(y, 0) > 0 then t.Some? && AtStart(t.value, WordAt(y, 0), WordAt(y, 8))
            else if NeverFilled(WordAt(y, 8)) then t.None?
            else t.Some? && BetweenSections(t.value)
  {
    var s1 := s.(state := SECTION_OFFSET, filesize := WordAt(y, 0));
    var s2 := s1.(state := SECTION_MEMSIZE, offset := WordAt(y, 4));
    var s3 := s2.(state := SECTION_DATA, memsize := WordAt(y, 8));
    EndOfSection(s3.(integer := WordAt(y, 8)));
    FieldConsumed(s, y);
    FieldConsumed(s1, y[4..]);
    FieldConsumed(s2, y[8..]);
    assert y[4..][..4] == y[4..8] && y[8..][..4] == y[8..12];
    assert y[..8] == y[..4] + y[4..8] && y[..12] == y[..8] + y[8..12];
    ConsumeConcat(s, y[..4], y[4..8]);
    ConsumeConcat(s, y[..8], y[8..12]);
    hide ConsumeAll; hide WordAt; hide EndSection;
  }

  /** The first byte of a section's data is next. */
  predicate AtStart(s: Sections, filesize: nat, memsize: nat)
  {
    s.state == SECTION_DATA && s.byteCount == 0 && s.filesize == filesize && s.memsize == memsize
  }

  /** Less than a section's header is always consumed. */
  lemma HeadOpen(s: Sections, y: seq<byte>)
    requires BetweenSections(s) && |y| < 12
    ensures ConsumeAll(s, y).Some?
  {
    hide ConsumeAll; hide WordAt;
    var s1 := s.(state := SECTION_OFFSET, filesize := if |y| < 4 then 0 else WordAt(y, 0));
    var s2 := s1.(state := SECTION_MEMSIZE, offset := if |y| < 8 then 0 else WordAt(y[4..], 0));
    if |y| < 4 {
      HeaderPrefix(s, y);
    } else {
      FieldConsumed(s, y);
      assert y == y[..4] + y[4..];
      ConsumeConcat(s, y[..4], y[4..]);
      if |y| < 8 {
        HeaderPrefix(s1, y[4..]);
      } else {
        FieldConsumed(s1, y[4..]);
        assert y[4..] == y[4..][..4] + y[8..];
        ConsumeConcat(s1, y[4..][..4], y[8..]);
        HeaderPrefix(s2, y[8..]);
      }
    }
  }

  lemma {:induction false} SectionHangsIff(s: Sections, y: seq<byte>)
    requires BetweenSections(s)
    ensures ConsumeAll(s, y).None? <==> SectionHangs(y)
    decreases |y|
  {
    hide ConsumeAll; hide WordAt;
    if |y| < 12 {
      HeadOpen(s, y);
    } else {
      var n, z := WordAt(y, 0), y[12..];
      HeadOn(s, y);
      assert y == y[..12] + z;
      ConsumeConcat(s, y[..12], z);
      if n == 0 {
        assert y[12 + n..] == z;
        if !NeverFilled(WordAt(y, 8)) {
          SectionHangsIff(ConsumeAll(s, y[..12]).value, z);
        }
      } else {
        DataThenRest(ConsumeAll(s, y[..12]).value, z, n);
        if n <= |z| && !NeverFilled(WordAt(y, 8)) {
          assert z[n..] == y[12 + n..];
          SectionHangsIff(ConsumeAll(ConsumeAll(s, y[..12]).value, z[..n]).value, z[n..]);
        }
      }
    }
  }

  /** A section's data, and what follows it. */
  lemma DataThenRest(s: Sections, z: seq<byte>, n: nat)
    requires AtStart(s, n, s.memsize) && n > 0
    ensures n > |z| ==> ConsumeAll(s, z).Some?
    ensures n <= |z| && NeverFilled(s.memsize) ==> ConsumeAll(s, z).None?
    ensures n <= |z| && !NeverFilled(s.memsize) ==>
              var t := ConsumeAll(s, z[..n]);
              t.Some? && BetweenSections(t.value) && ConsumeAll(s, z) == ConsumeAll(t.value, z[n..])
  {
    hide ConsumeAll;
    if n > |z| {
      DataOn(s, z);
    } else {
      DataOn(s, z[..n]);
      assert z == z[..n] + z[n..];
      ConsumeConcat(s, z[..n], z[n..]);
    }
  }

  /** The exact condition, on the payload bytes alone: `download` is never done with them if and only if some section
      among them is complete and has a memsize above 2^32 - 4. */
  lemma HangsIff(mem: Memory, y: seq<byte>)
    ensures ConsumeAll(Begin(mem), y).None? <==> Hangs(y)
  {
    hide ConsumeAll; hide WordAt;
    var s := Begin(mem);
    var s1 := s.(state := SECTION_NUMBER, entrypoint := if |y| < 4 then 0 else WordAt(y, 0));
    var s2 := s1.(state := SECTION_FILESIZE, number := if |y| < 8 then 0 else WordAt(y[4..], 0));
    if |y| < 4 {
      HeaderPrefix(s, y);
    } else {
      FieldConsumed(s, y);
      assert y == y[..4] + y[4..];
      ConsumeConcat(s, y[..4], y[4..]);
      if |y| < 8 {
        HeaderPrefix(s1, y[4..]);
      } else {
        FieldConsumed(s1, y[4..]);
        assert y[4..] == y[4..][..4] + y[8..];
        ConsumeConcat(s1, y[4..][..4], y[8..]);
        SectionHangsIff(s2, y[8..]);
      }
    }
  }

  // ----- Damaged packets ------------------------------------------------------------------------------------

  /** A packet whose payload was damaged within 32 consecutive bits is never accepted: the loader returns NULL,
      unless the damaged payload itself sends it into an endless fill loop. */
  lemma DamagedPacketRejected(l: Loader, p: seq<byte>, q: seq<byte>, s: nat, rest: seq<byte>)
    requires Idle(l) && IsPayload(p) && |q| == |p| && q != p && DifferWithinBurst(p, q, s)
    ensures Run(l, Frame(q, Checksum(p)) + rest)
            == match ConsumeAll(l.sections, q)
               case None => Filling
               case Some(t) => Rejected(t.mem, l.acks + [Narrow(Checksum(q))])
    ensures Run(l, Frame(q, Checksum(p)) + rest) == Filling <==> exists m :: 0 <= m < |q| && HangsAt(l.sections, q, m)
  {
    BurstDetected(p, q, s);
    NeverConsumedIff(l.sections, q);
    hide Run; hide Update; hide Flip; hide Narrow; hide Frame; hide ConsumeAll; hide HangsAt;
    FrameRun(l, q, Checksum(p), rest);
  }

  /** A packet whose checksum field is not the CRC of its payload is answered and then makes the loader return NULL,
      whatever its payload, unless that starts an endless fill loop. */
  lemma WrongChecksumRejected(l: Loader, q: seq<byte>, check: bv32, rest: seq<byte>)
    requires Idle(l) && IsPayload(q) && check != Rfc1952.CrcOf(q)
    ensures Run(l, Frame(q, check) + rest)
            == match ConsumeAll(l.sections, q)
               case None => Filling
               case Some(t) => Rejected(t.mem, l.acks + [Narrow(Rfc1952.CrcOf(q))])
  {
    Rfc1952.ChecksumIsCrc(q);
    hide Run; hide Update; hide Flip; hide Narrow; hide Frame; hide ConsumeAll; hide Rfc1952.CrcOf;
    FrameRun(l, q, check, rest);
  }

  lemma NarrowBytes()
    ensures Narrow(0xD2) == 0xD2 && Narrow(0xD202) == 0x02 && Narrow(0xD2_02EF) == 0xEF && Narrow(0xD202_EF8D) == 0x8D
  {
    hide Pow2;
  }

  lemma ZeroPacket()
    ensures Frame([0], 0xD202_EF8D) == [0x01, 0xD2, 0x02, 0xEF, 0x8D, 0x00]
  {
    NarrowBytes();
    var c: bv32 := 0xD202_EF8D;
    assert c >> 24 == 0xD2 && c >> 16 == 0xD202 && c >> 8 == 0xD2_02EF;
    hide Narrow;
  }

  lemma ZeroConsumed(s: Sections)
    requires s.state == ENTRYPOINT && s.byteCount == 0 && s.integer == 0
    ensures ConsumeAll(s, [0]) == Some(s.(byteCount := 1))
  {
    var t := s.(byteCount := 1);
    assert 0 * Weight(0) == 0;
    assert Consume(s, 0) == Some(t) by { hide Weight; }
    assert [0 as byte][1..] == [];
    hide Consume;
  }

  /** The packet that the host makes of a single zero byte, byte by byte on the line: answered with 0x8D, and on to the
      next packet. */
  lemma ZeroPacketAnswered(mem: Memory, rest: seq<byte>) returns (l: Loader)
    ensures Run(Start(mem), [0x01, 0xD2, 0x02, 0xEF, 0x8D, 0x00] + rest) == Run(l, rest)
    ensures Idle(l) && l.acks == [0x8D] && l.sections == Begin(mem).(byteCount := 1)
  {
    hide Narrow; hide Run; hide Frame; hide ConsumeAll; hide Checksum;
    NarrowBytes();
    ZeroPacket();
    Rfc1952.ChecksumOfZero();
    ZeroConsumed(Begin(mem));
    var t, c := Begin(mem).(byteCount := 1), Checksum([0]);
    PacketAccepted(Start(mem), [0], rest, t);
    l := Loader(t, 0, 5, c, c, Start(mem).acks + [Narrow(c)]);
  }

  /** What becomes of a program when packet `k` arrives as `q`. */
  function Damaged(mem: Memory, ps: seq<seq<byte>>, k: nat, q: seq<byte>): Outcome
    requires k < |ps|
  {
    match ConsumeAll(Begin(mem), Flatten(ps[..k]) + q)
    case None => Filling
    case Some(t) => Rejected(t.mem, Acks(ps[..k]) + [Narrow(Checksum(q))])
  }

  /** Whichever packet of a program is damaged within 32 consecutive bits of its payload, the program is not entered:
      the loader fills memory for ever if and only if the payload bytes up to the end of that packet hold a complete
      section with a memsize above 2^32 - 4, and returns NULL after that packet otherwise. */
  lemma DamagedProgramRejected(p: Program, ps: seq<seq<byte>>, mem: Memory, k: nat, q: seq<byte>, s: nat,
      rest: seq<byte>)
    requires Sound(p) && Splits(ps, p) && k < |ps|
    requires |q| == |ps[k]| && q != ps[k] && DifferWithinBurst(ps[k], q, s)
    ensures var o := Run(Start(mem), Wire(ps[..k]) + (Frame(q, Checksum(ps[k])) + rest));
            && o == Damaged(mem, ps, k, q)
            && (o == Filling <==> Hangs(Flatten(ps[..k]) + q))
            && (!Hangs(Flatten(ps[..k]) + q) ==> o.Rejected? && o.acks == Acks(ps[..k]) + [Narrow(Checksum(q))])
  {
    var t := ProgramCompletes(mem, p);
    hide ProgramBytes; hide Run; hide Wire; hide Completes; hide Acks; hide Frame; hide Narrow; hide Checksum;
    hide ConsumeAll; hide Hangs; hide Flatten; hide HangsAt;
    var l := PacketsOn(Start(mem), ps, k, Frame(q, Checksum(ps[k])) + rest, t);
    DamagedPacketRejected(l, ps[k], q, s, rest);
    ConsumeConcat(Begin(mem), Flatten(ps[..k]), q);
    HangsIff(mem, Flatten(ps[..k]) + q);
    assert [] + Acks(ps[..k]) == Acks(ps[..k]);
  }

  // ----- A damaged packet that is never rejected --------------------------------------------------------------

  lemma {:induction false} BitsConcat(a: seq<byte>, b: seq<byte>)
    ensures MessageBits(a + b) == MessageBits(a) + MessageBits(b)
    decreases |a|
  {
    hide Bits;
    if a == [] {
      assert a + b == b;
    } else {
      TailConcat(a, b);
      BitsConcat(a[1..], b);
    }
  }

  /** Damage to four bytes is a burst of at most 32 bits. */
  lemma FourBytesBurst(a: seq<byte>, m: seq<byte>, m': seq<byte>, b: seq<byte>)
    requires |m| == |m'| == 4
    ensures DifferWithinBurst(a + m + b, a + m' + b, 8 * |a|)
  {
    BitsConcat(a + m, b);
    BitsConcat(a + m', b);
    BitsConcat(a, m);
    BitsConcat(a, m');
    hide MessageBits;
  }

  const ALL_ONES: seq<byte> := [255, 255, 255, 255]

  /** A program of one section, sent as one packet, up to its memsize field, and from there on. */
  function BeforeMemsize(entry: word, sec: Section): (a: seq<byte>)
    requires Fits(sec)
    ensures |a| == 16
  {
    PutInt(entry) + PutInt(1) + PutInt(|sec.data|) + PutInt(sec.offset)
  }

  lemma OneSection(entry: word, sec: Section)
    requires Fits(sec)
    ensures Sound(Program(entry, [sec]))
    ensures ProgramBytes(Program(entry, [sec])) == BeforeMemsize(entry, sec) + PutInt(sec.memsize) + sec.data
  {
    hide PutInt;
    assert SectionsBytes([sec]) == SectionBytes(sec) + [];
  }

  /** The four bytes of the section's memsize field arrive as 2^32 - 1. */
  function Garbled(entry: word, sec: Section): seq<byte>
    requires Fits(sec)
  {
    BeforeMemsize(entry, sec) + ALL_ONES + sec.data
  }

  lemma GarbledHangs(entry: word, sec: Section)
    requires Fits(sec)
    ensures Hangs(Garbled(entry, sec))
  {
    var q, z := Garbled(entry, sec), Garbled(entry, sec)[8..];
    assert q[8..12] == PutInt(|sec.data|);
    PutIntValue(|sec.data|);
    assert WordAt(z, 0) == |sec.data| by {
      assert z[0] == q[8] && z[1] == q[9] && z[2] == q[10] && z[3] == q[11];
    }
    assert q[16..20] == ALL_ONES;
    assert WordAt(z, 8) == WRAP - 1 by {
      assert z[8] == q[16] && z[9] == q[17] && z[10] == q[18] && z[11] == q[19];
    }
  }

  /** Every program of one section that fits one packet can be damaged within 32 consecutive bits so that `download`
      is never done with it: with the bits of the memsize field all set, the fill loop has no end. */
  lemma CanHang(entry: word, sec: Section, mem: Memory, rest: seq<byte>)
    requires Fits(sec) && |sec.data| <= 235
    ensures var p, q := Program(entry, [sec]), Garbled(entry, sec);
            && Sound(p) && Splits([ProgramBytes(p)], p) && |q| == |ProgramBytes(p)| && q != ProgramBytes(p)
            && DifferWithinBurst(ProgramBytes(p), q, 128)
            && Run(Start(mem), Frame(q, Checksum(ProgramBytes(p))) + rest) == Filling
  {
    OneSection(entry, sec);
    var p, q, a := Program(entry, [sec]), Garbled(entry, sec), BeforeMemsize(entry, sec);
    var x := ProgramBytes(p);
    FourBytesBurst(a, PutInt(sec.memsize), ALL_ONES, sec.data);
    assert q != x by {
      PutIntValue(sec.memsize);
      assert x[16..20] == PutInt(sec.memsize) && q[16..20] == ALL_ONES;
    }
    assert Flatten([x]) == x;
    GarbledHangs(entry, sec);
    hide ProgramBytes; hide Run; hide Hangs; hide Checksum; hide Frame; hide DifferWithinBurst; hide Garbled;
    DamagedProgramRejected(p, [x], mem, 0, q, 128, rest);
    assert Flatten([x][..0]) + q == q;
    assert Wire([x][..0]) + (Frame(q, Checksum(x)) + rest) == Frame(q, Checksum(x)) + rest;
  }
}
