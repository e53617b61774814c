/** What the host sends (patmos/tools/java/src/patserdow/Main.java, Transmitter.java) and what the
    loader makes of it: an image of sections, split into packets in any way. */
module Image {
  import opened Bytes
  import opened Crc
  import opened Download
  import opened Seqs
  import opened Wrappers

  datatype Section = Section(offset: word, data: seq<byte>, memsize: word)
  datatype Program = Program(entrypoint: word, sections: seq<Section>)

  /** A section starts at a word boundary, and all of it lies below the end of the address space. */
  predicate Fits(s: Section)
  {
    s.offset % 4 == 0 && s.offset + |s.data| <= WRAP - 4 && s.offset + s.memsize <= WRAP - 4
  }

  predicate Sound(p: Program)
  {
    |p.sections| < WRAP - 1 && forall k :: 0 <= k < |p.sections| ==> Fits(p.sections[k])
  }

  // ----- The byte stream ---------------------------------------------------------------------

  /** ByteBuffer.putInt */
  function PutInt(w: word): (f: seq<byte>)
    ensures |f| == 4
  {
    [w / 0x100_0000, w / 0x1_0000 % 0x100, w / 0x100 % 0x100, w % 0x100]
  }

  function SectionBytes(s: Section): seq<byte>
    requires Fits(s)
  {
    PutInt(|s.data|) + PutInt(s.offset) + PutInt(s.memsize) + s.data
  }

  function SectionsBytes(ss: seq<Section>): seq<byte>
    requires forall k :: 0 <= k < |ss| ==> Fits(ss[k])
  {
    if ss == [] then [] else SectionBytes(ss[0]) + SectionsBytes(ss[1..])
  }

  function ProgramBytes(p: Program): seq<byte>
    requires Sound(p)
  {
    PutInt(p.entrypoint) + PutInt(|p.sections|) + SectionsBytes(p.sections)
  }

  // ----- What memory should hold afterwards -----------------------------------------------------

  /** Byte `k` of the section, zero beyond its data. */
  function ByteAt(data: seq<byte>, k: nat): nat
  {
    if k < |data| then data[k] else 0
  }

  /** The first `lanes` bytes of word `w` of the section, big-endian. */
  function Lanes(data: seq<byte>, w: nat, lanes: nat): nat
  {
    if lanes == 0 then 0 else Lanes(data, w, lanes - 1) + ByteAt(data, 4 * w + lanes - 1) * Weight(lanes - 1)
  }

  function DataWord(data: seq<byte>, w: nat): nat
  {
    Lanes(data, w, 4)
  }

  function WordsFor(n: nat): nat
  {
    (n + 3) / 4
  }

  function Max(a: nat, b: nat): nat
  {
    if a < b then b else a
  }

  /** Memory with the first `n` words of `data` from word address `base` on. */
  function Written(mem: Memory, base: nat, data: seq<byte>, n: nat): Memory
    decreases n
  {
    if n == 0 then mem else Written(mem, base, data, n - 1)[base + n - 1 := DataWord(data, n - 1)]
  }

  /** Written changes exactly the words from `base` to `base + n`. */
  lemma {:induction false} WrittenAt(mem: Memory, base: nat, data: seq<byte>, n: nat, a: nat)
    ensures a in Written(mem, base, data, n) <==> a in mem || base <= a < base + n
    ensures base <= a < base + n ==> Written(mem, base, data, n)[a] == DataWord(data, a - base)
    ensures !(base <= a < base + n) && a in mem ==> Written(mem, base, data, n)[a] == mem[a]
    decreases n
  {
    hide DataWord;
    if n > 0 { WrittenAt(mem, base, data, n - 1, a); }
  }

  /** The section's data, followed by zeros up to memsize rounded up to a word; nothing else. */
  function Loaded(mem: Memory, s: Section): Memory
  {
    Written(mem, s.offset / 4, s.data, WordsFor(Max(|s.data|, s.memsize)))
  }

  function LoadedAll(mem: Memory, ss: seq<Section>): Memory
    decreases ss
  {
    if ss == [] then mem else LoadedAll(Loaded(mem, ss[0]), ss[1..])
  }

  /** The word at address `a` belongs to the section: to its data or to what is filled up to memsize. */
  predicate Covers(s: Section, a: nat)
  {
    s.offset <= 4 * a < s.offset + (if |s.data| < s.memsize then s.memsize else |s.data|)
  }

  /** Byte `k` of a section: its data, then zeros. */
  function SectionByte(s: Section, k: nat): (b: nat)
    ensures b == if k < |s.data| then s.data[k] else 0
  {
    ByteAt(s.data, k)
  }

  /** Every word of a section holds four of its bytes, the first in the highest place; all other memory stays. */
  lemma LoadedAt(mem: Memory, s: Section, a: nat)
    requires Fits(s)
    ensures Covers(s, a) ==>
              var k := 4 * a - s.offset;
              && a in Loaded(mem, s)
              && Loaded(mem, s)[a] == SectionByte(s, k) * 0x100_0000 + SectionByte(s, k + 1) * 0x1_0000
                                      + SectionByte(s, k + 2) * 0x100 + SectionByte(s, k + 3)
    ensures !Covers(s, a) ==> (a in Loaded(mem, s) <==> a in mem) && (a in mem ==> Loaded(mem, s)[a] == mem[a])
  {
    var base, n := s.offset / 4, WordsFor(Max(|s.data|, s.memsize));
    WrittenAt(mem, base, s.data, n, a);
    hide Written; hide ByteAt;
    if Covers(s, a) {
      assert 4 * a - s.offset == 4 * (a - base);
      FourLanes(s.data, a - base);
      hide Lanes;
    }
  }

  lemma FourLanes(data: seq<byte>, w: nat)
    ensures DataWord(data, w) == ByteAt(data, 4 * w) * 0x100_0000 + ByteAt(data, 4 * w + 1) * 0x1_0000
                                 + ByteAt(data, 4 * w + 2) * 0x100 + ByteAt(data, 4 * w + 3)
  {
    hide ByteAt;
    var lanes := 4;
    assert Lanes(data, w, lanes - 4) == 0;
    assert Lanes(data, w, lanes - 3) == ByteAt(data, 4 * w) * 0x100_0000;
    assert Lanes(data, w, lanes - 2) == Lanes(data, w, lanes - 3) + ByteAt(data, 4 * w + 1) * 0x1_0000;
    assert Lanes(data, w, lanes - 1) == Lanes(data, w, lanes - 2) + ByteAt(data, 4 * w + 2) * 0x100;
    assert Lanes(data, w, lanes) == Lanes(data, w, lanes - 1) + ByteAt(data, 4 * w + 3);
  }

  /** Memory once all sections are loaded: a word that none of them covers stays, and a word of section `k - 1` that no
      later section covers holds that section's bytes. */
  lemma {:induction false} LoadedAllAt(mem: Memory, ss: seq<Section>, k: nat, a: nat)
    requires k <= |ss| && (forall j :: 0 <= j < |ss| ==> Fits(ss[j]))
    requires (k > 0 ==> Covers(ss[k - 1], a)) && forall j :: k <= j < |ss| ==> !Covers(ss[j], a)
    ensures var all := LoadedAll(mem, ss);
            if k == 0 then (a in all <==> a in mem) && (a in mem ==> all[a] == mem[a])
            else
              var s, n := ss[k - 1], 4 * a - ss[k - 1].offset;
              a in all && all[a] == SectionByte(s, n) * 0x100_0000 + SectionByte(s, n + 1) * 0x1_0000
                                    + SectionByte(s, n + 2) * 0x100 + SectionByte(s, n + 3)
    decreases |ss|
  {
    if ss != [] {
      hide SectionByte; hide Covers; hide Fits; hide Loaded;
      LoadedAt(mem, ss[0], a);
      assert forall j :: 0 <= j < |ss[1..]| ==> ss[1..][j] == ss[j + 1];
      LoadedAllAt(Loaded(mem, ss[0]), ss[1..], if k == 0 then 0 else k - 1, a);
    }
  }

  // ----- The section layer on whole sections ------------------------------------------------------

  function ConsumeAll(s: Sections, p: seq<byte>): Option<Sections>
    decreases p
  {
    if p == [] then Some(s)
    else
      var t := Consume(s, p[0]);
      if t.None? then None else ConsumeAll(t.value, p[1..])
  }

  lemma {:induction false} ConsumeConcat(s: Sections, p: seq<byte>, q: seq<byte>)
    ensures ConsumeAll(s, p + q)
            == (var t := ConsumeAll(s, p); if t.None? then None else ConsumeAll(t.value, q))
    decreases p
  {
    hide Consume;
    if p == [] {
      assert p + q == q;
    } else {
      TailConcat(p, q);
      var t := Consume(s, p[0]);
      if t.Some? { ConsumeConcat(t.value, p[1..], q); }
    }
  }

  /** Carried along any run from the start: the or of the next byte into the word collected is always a sum. */
  lemma OrAlwaysSum(mem: Memory, y: seq<byte>, b: byte)
    requires ConsumeAll(Begin(mem), y).Some?
    ensures var t := ConsumeAll(Begin(mem), y).value;
            Or(t.integer, b * Weight(t.byteCount % 4)) == t.integer + b * Weight(t.byteCount % 4)
  {
    hide ConsumeAll; hide Or; hide Weight;
    var s := Begin(mem);
    ZeroLanes();
    LanesClearAfter(s, y);
    LanesStayClear(ConsumeAll(s, y).value, b);
  }

  lemma {:induction false} LanesClearAfter(s: Sections, y: seq<byte>)
    requires LanesClear(s) && (s.state != SECTION_DATA ==> s.byteCount < 4)
    ensures var t := ConsumeAll(s, y);
            t.Some? ==> LanesClear(t.value) && (t.value.state != SECTION_DATA ==> t.value.byteCount < 4)
    decreases |y|
  {
    hide Consume; hide LanesClear;
    if y != [] {
      LanesStayClear(s, y[0]);
      var t := Consume(s, y[0]);
      if t.Some? {
        LanesClearAfter(t.value, y[1..]);
      }
    }
  }

  /** Between two fields: no byte of the next one has been collected. */
  predicate Fresh(s: Sections)
  {
    s.byteCount == 0 && s.integer == 0
  }

  lemma PutIntValue(w: word)
    ensures w == w / 0x100_0000 * 0x100_0000 + w / 0x1_0000 % 0x100 * 0x1_0000 + w / 0x100 % 0x100 * 0x100 + w % 0x100
  {
    var a, b, c := w / 0x100_0000, w / 0x1_0000 % 0x100, w / 0x100 % 0x100;
    assert w == w / 0x100 * 0x100 + w % 0x100;
    assert w / 0x100 == w / 0x1_0000 * 0x100 + c by { DivTwiceBy(w, 0x100, 0x100); }
    assert w / 0x1_0000 == a * 0x100 + b by { DivTwiceBy(w, 0x1_0000, 0x100); }
  }

  lemma DivTwiceBy(w: nat, a: nat, b: nat)
    requires a > 0 && b > 0
    ensures a * b > 0 && w / a / b == w / (a * b)
  {
    var q, r := w / a / b, w / a % b;
    MulAtLeast(a, b);
    assert w == q * (a * b) + (r * a + w % a);
    assert r * a + w % a < a * b by { assert (r + 1) * a <= b * a; }
    DivIs(w, a * b, q, r * a + w % a);
  }

  /** A header byte that does not complete its word. */
  lemma HeaderByte(s: Sections, b: byte)
    requires s.state != SECTION_DATA && s.byteCount < 3
    ensures Consume(s, b) == Some(s.(integer := s.integer + b * Weight(s.byteCount), byteCount := s.byteCount + 1))
  {
    hide Weight; hide Fill;
  }

  /** What the last byte of a header word leads to. */
  function HeaderDone(t: Sections): Option<Sections>
  {
    if !Complete(t) then Some(Clear(t)) else if NeverFilled(t.memsize) then None else Some(Clear(EndSection(t)))
  }

  lemma HeaderLastByte(s: Sections, b: byte)
    requires s.state != SECTION_DATA && s.byteCount == 3
    ensures Consume(s, b) == HeaderDone(Header(s.(integer := s.integer + b, byteCount := 4)))
  {
    hide Fill;
  }

  lemma HeaderWord(s: Sections, w: word)
    requires s.state != SECTION_DATA && Fresh(s)
    ensures ConsumeAll(s, PutInt(w)) == HeaderDone(Header(s.(integer := w, byteCount := 4)))
  {
    hide Consume; hide HeaderDone; hide Header; hide PutInt;
    var f := PutInt(w);
    PutIntValue(w);
    var a: nat, b: nat, c: nat, d: nat := f[0], f[1], f[2], f[3];
    PutIntBytes(w);
    HeaderBytes(s, f, a, b, c, d);
  }

  lemma PutIntBytes(w: word)
    ensures var f := PutInt(w);
            f[0] == w / 0x100_0000 && f[1] == w / 0x1_0000 % 0x100 && f[2] == w / 0x100 % 0x100 && f[3] == w % 0x100
  {
  }

  lemma HeaderBytes(s: Sections, f: seq<byte>, a: nat, b: nat, c: nat, d: nat)
    requires s.state != SECTION_DATA && Fresh(s)
    requires |f| == 4 && f[0] == a && f[1] == b && f[2] == c && f[3] == d
    ensures ConsumeAll(s, f)
            == HeaderDone(Header(s.(integer := a * 0x100_0000 + b * 0x1_0000 + c * 0x100 + d, byteCount := 4)))
  {
    hide Consume; hide HeaderDone; hide Header;
    var s1 := s.(integer := a * 0x100_0000, byteCount := 1);
    var s2 := s.(integer := a * 0x100_0000 + b * 0x1_0000, byteCount := 2);
    var s3 := s.(integer := a * 0x100_0000 + b * 0x1_0000 + c * 0x100, byteCount := 3);
    HeaderByte(s, f[0]);
    HeaderByte(s1, f[1]);
    HeaderByte(s2, f[2]);
    HeaderLastByte(s3, f[3]);
    FourConsumed(s, s1, s2, s3, f);
  }

  lemma FourConsumed(s: Sections, s1: Sections, s2: Sections, s3: Sections, f: seq<byte>)
    requires |f| == 4
    requires Consume(s, f[0]) == Some(s1) && Consume(s1, f[1]) == Some(s2) && Consume(s2, f[2]) == Some(s3)
    ensures ConsumeAll(s, f) == Consume(s3, f[3])
  {
    hide Consume;
    assert f[1..][1..] == f[2..] && f[2..][1..] == f[3..] && f[3..][1..] == [];
    assert ConsumeAll(s, f) == ConsumeAll(s1, f[1..]);
    assert ConsumeAll(s1, f[1..]) == ConsumeAll(s2, f[2..]);
    assert ConsumeAll(s2, f[2..]) == ConsumeAll(s3, f[3..]);
    var t := Consume(s3, f[3]);
    assert t.Some? ==> ConsumeAll(t.value, []) == t;
  }

  lemma {:induction false} HeaderPrefix(s: Sections, y: seq<byte>)
    requires s.state != SECTION_DATA && s.byteCount + |y| < 4
    ensures ConsumeAll(s, y).Some?
    ensures var t := ConsumeAll(s, y).value; t == s.(integer := t.integer, byteCount := s.byteCount + |y|)
    decreases y
  {
    if y != [] {
      HeaderByte(s, y[0]);
      hide Consume;
      HeaderPrefix(Consume(s, y[0]).value, y[1..]);
    }
  }

  // ----- Section data ---------------------------------------------------------------------------------

  lemma AddressOf(base: nat, n: nat)
    requires 4 * base + n < WRAP
    ensures Address(4 * base, n) == base + n / 4
  {
    assert (4 * base + n) / 4 == base + n / 4;
  }

  /** Memory once `k` bytes of the section have arrived: the last word may be incomplete. */
  function DataMem(mem: Memory, base: nat, data: seq<byte>, k: nat): Memory
  {
    var full := Written(mem, base, data, k / 4);
    if k % 4 == 0 then full else full[base + k / 4 := Lanes(data, k / 4, k % 4)]
  }

  /** The state once `k` bytes of the section have arrived. */
  function InData(s: Sections, base: nat, data: seq<byte>, k: nat): Sections
  {
    s.(byteCount := k, integer := Lanes(data, k / 4, k % 4), mem := DataMem(s.mem, base, data, k))
  }

  /** `s` has just read the header of a section with this data. */
  predicate AtData(s: Sections, base: nat, data: seq<byte>)
  {
    s.state == SECTION_DATA && Fresh(s) && s.offset == 4 * base && s.filesize == |data| && 4 * base + |data| < WRAP
  }

  lemma LanesNext(data: seq<byte>, k: nat)
    requires k < |data|
    ensures Lanes(data, k / 4, k % 4) + data[k] * Weight(k % 4) == Lanes(data, k / 4, k % 4 + 1)
  {
    hide Weight;
    assert 4 * (k / 4) + k % 4 == k;
  }

  lemma DataMemNext(mem: Memory, base: nat, data: seq<byte>, k: nat)
    ensures DataMem(mem, base, data, k)[base + k / 4 := Lanes(data, k / 4, k % 4 + 1)]
        == DataMem(mem, base, data, k + 1)
  {
    hide Lanes;
    if k % 4 == 3 {
      assert (k + 1) / 4 == k / 4 + 1 && (k + 1) % 4 == 0;
      WrittenNext(mem, base, data, k / 4);
    } else {
      assert (k + 1) / 4 == k / 4 && (k + 1) % 4 == k % 4 + 1;
    }
  }

  lemma WrittenNext(mem: Memory, base: nat, data: seq<byte>, n: nat)
    ensures Written(mem, base, data, n + 1) == Written(mem, base, data, n)[base + n := Lanes(data, n, 4)]
  {
  }

  lemma DataByte(s: Sections, base: nat, data: seq<byte>, k: nat)
    requires AtData(s, base, data) && k < |data|
    ensures Clear(Collect(InData(s, base, data, k), data[k])) == InData(s, base, data, k + 1)
    ensures Collect(InData(s, base, data, k), data[k]).(integer := 0) == InData(s, base, data, k + 1).(integer := 0)
  {
    hide Lanes; hide Weight; hide Address; hide DataMem;
    LanesNext(data, k);
    AddressOf(base, k);
    DataMemNext(s.mem, base, data, k);
    NoLanes(data, (k + 1) / 4);
  }

  lemma NoLanes(data: seq<byte>, w: nat)
    ensures Lanes(data, w, 0) == 0
  {
  }

  /** Zero-filling continues the section: its words are zero beyond the data. */
  lemma {:induction false} FillWritten(mem: Memory, base: nat, data: seq<byte>, n: nat, memsize: nat)
    requires 4 * base + memsize <= WRAP - 4 && |data| <= 4 * n
    ensures Fill(Written(mem, base, data, n), 4 * base, 4 * n, memsize)
            == Written(mem, base, data, Max(n, WordsFor(memsize)))
    decreases memsize - 4 * n
  {
    if 4 * n < memsize {
      AddressOf(base, 4 * n);
      ZeroWord(data, n);
      assert Written(mem, base, data, n + 1) == Written(mem, base, data, n)[base + n := 0];
      FillWritten(mem, base, data, n + 1, memsize);
    }
  }

  lemma ZeroWord(data: seq<byte>, w: nat)
    requires |data| <= 4 * w
    ensures DataWord(data, w) == 0
  {
    assert Lanes(data, w, 1) == 0 && Lanes(data, w, 2) == 0 && Lanes(data, w, 3) == 0;
  }

  lemma {:induction false} LanesBeyond(data: seq<byte>, w: nat, lanes: nat, more: nat)
    requires |data| <= 4 * w + lanes && lanes <= more
    ensures Lanes(data, w, more) == Lanes(data, w, lanes)
    decreases more
  {
    if lanes < more { LanesBeyond(data, w, lanes, more - 1); }
  }

  lemma DataMemComplete(mem: Memory, base: nat, data: seq<byte>)
    ensures DataMem(mem, base, data, |data|) == Written(mem, base, data, WordsFor(|data|))
  {
    hide Lanes;
    var k := |data|;
    if k % 4 != 0 {
      assert WordsFor(k) == k / 4 + 1;
      LanesBeyond(data, k / 4, k % 4, 4);
      WrittenNext(mem, base, data, k / 4);
    } else {
      assert WordsFor(k) == k / 4;
    }
  }

  /** The state once the section is complete. */
  function Finished(s: Sections, sec: Section): Sections
  {
    s.(state := SECTION_FILESIZE, byteCount := 0, integer := 0, count := (s.count + 1) % WRAP,
      mem := Loaded(s.mem, sec))
  }

  lemma SectionEnds(s: Sections, sec: Section, t: Sections)
    requires Fits(sec) && AtData(s, sec.offset / 4, sec.data) && s.memsize == sec.memsize
    requires t == InData(s, sec.offset / 4, sec.data, |sec.data|).(integer := t.integer)
    ensures !NeverFilled(t.memsize) && Clear(EndSection(t)) == Finished(s, sec)
  {
    hide Written; hide Fill; hide Lanes; hide DataMem;
    var base, n := sec.offset / 4, WordsFor(|sec.data|);
    DataMemComplete(s.mem, base, sec.data);
    assert WordAligned(|sec.data|) == 4 * n;
    FillWritten(s.mem, base, sec.data, n, sec.memsize);
    assert Max(n, WordsFor(sec.memsize)) == WordsFor(Max(|sec.data|, sec.memsize));
  }

  /** All of the data from byte `k` on. */
  lemma {:induction false} DataConsumed(s: Sections, sec: Section, k: nat)
    requires Fits(sec) && AtData(s, sec.offset / 4, sec.data) && s.memsize == sec.memsize && k < |sec.data|
    ensures ConsumeAll(InData(s, sec.offset / 4, sec.data, k), sec.data[k..]) == Some(Finished(s, sec))
    decreases |sec.data| - k
  {
    hide Collect; hide EndSection; hide InData; hide Fits; hide Finished;
    var base, data := sec.offset / 4, sec.data;
    var v := InData(s, base, data, k);
    var t := Collect(v, data[k]);
    DataByteComplete(s, base, data, k);
    assert data[k..][0] == data[k] && data[k..][1..] == data[k + 1..];
    if k + 1 == |data| {
      SectionEnds(s, sec, t);
      assert data[k + 1..] == [];
    } else {
      DataConsumed(s, sec, k + 1);
    }
  }

  lemma DataByteComplete(s: Sections, base: nat, data: seq<byte>, k: nat)
    requires AtData(s, base, data) && k < |data|
    ensures var t := Collect(InData(s, base, data, k), data[k]);
            && (Complete(t) <==> k + 1 == |data|)
            && Clear(t) == InData(s, base, data, k + 1)
            && t == InData(s, base, data, k + 1).(integer := t.integer)
  {
    hide Collect; hide Lanes; hide DataMem;
    DataByte(s, base, data, k);
  }

  /** Less than all of the data: the section is not complete yet. */
  lemma {:induction false} DataPrefix(s: Sections, base: nat, data: seq<byte>, k: nat, m: nat)
    requires AtData(s, base, data) && k <= m < |data|
    ensures ConsumeAll(InData(s, base, data, k), data[k..m]) == Some(InData(s, base, data, m))
    decreases m - k
  {
    hide Collect; hide EndSection; hide InData;
    if k == m {
      assert data[k..m] == [];
    } else {
      DataByteComplete(s, base, data, k);
      assert data[k..m][0] == data[k] && data[k..m][1..] == data[k + 1..m];
      DataPrefix(s, base, data, k + 1, m);
    }
  }

  // ----- Whole sections and programs -----------------------------------------------------------------

  /** Between two sections. */
  predicate BetweenSections(s: Sections)
  {
    s.state == SECTION_FILESIZE && Fresh(s)
  }

  function SectionHead(sec: Section): seq<byte>
    requires Fits(sec)
  {
    PutInt(|sec.data|) + PutInt(sec.offset) + PutInt(sec.memsize)
  }

  /** The state after the three header words. */
  function HeadRead(s: Sections, sec: Section): Sections
  {
    s.(state := SECTION_DATA, filesize := |sec.data|, offset := sec.offset, memsize := sec.memsize)
  }

  lemma FieldRead(s: Sections, w: word)
    requires s.state != SECTION_DATA && s.state != SECTION_MEMSIZE && Fresh(s)
    ensures ConsumeAll(s, PutInt(w)) == Some(Header(s.(integer := w)).(integer := 0))
  {
    HeaderWord(s, w);
  }

  /** Up to the last header word, nothing can complete. */
  lemma TwoFieldsRead(s: Sections, sec: Section) returns (t: Sections)
    requires BetweenSections(s) && Fits(sec)
    ensures t == s.(state := SECTION_MEMSIZE, filesize := |sec.data|, offset := sec.offset)
    ensures ConsumeAll(s, PutInt(|sec.data|) + PutInt(sec.offset)) == Some(t)
  {
    hide ConsumeAll; hide PutInt;
    FieldRead(s, |sec.data|);
    var s1 := s.(state := SECTION_OFFSET, filesize := |sec.data|);
    FieldRead(s1, sec.offset);
    ConsumeConcat(s, PutInt(|sec.data|), PutInt(sec.offset));
    t := s.(state := SECTION_MEMSIZE, filesize := |sec.data|, offset := sec.offset);
  }

  lemma HeadConsumed(s: Sections, sec: Section)
    requires BetweenSections(s) && Fits(sec)
    ensures ConsumeAll(s, SectionHead(sec)) == if sec.data == [] then Some(Finished(HeadRead(s, sec), sec))
        else Some(HeadRead(s, sec))
  {
    var t := TwoFieldsRead(s, sec);
    hide ConsumeAll; hide PutInt; hide EndSection; hide Finished;
    ConsumeConcat(s, PutInt(|sec.data|) + PutInt(sec.offset), PutInt(sec.memsize));
    HeaderWord(t, sec.memsize);
    var h := HeadRead(s, sec);
    assert Header(t.(integer := sec.memsize, byteCount := 4)) == h.(integer := sec.memsize);
    if sec.data == [] {
      StartOfData(h, sec);
      SectionEnds(h, sec, h.(integer := sec.memsize));
    }
  }

  lemma StartOfData(s: Sections, sec: Section)
    requires Fresh(s)
    ensures InData(s, sec.offset / 4, sec.data, 0) == s
  {
  }

  lemma SectionConsumed(s: Sections, sec: Section)
    requires BetweenSections(s) && Fits(sec)
    ensures ConsumeAll(s, SectionBytes(sec)) == Some(Finished(HeadRead(s, sec), sec))
  {
    hide ConsumeAll; hide PutInt; hide Finished; hide InData;
    HeadConsumed(s, sec);
    assert SectionBytes(sec) == SectionHead(sec) + sec.data;
    ConsumeConcat(s, SectionHead(sec), sec.data);
    if sec.data == [] {
      assert SectionBytes(sec) == SectionHead(sec);
    } else {
      StartOfData(HeadRead(s, sec), sec);
      DataConsumed(HeadRead(s, sec), sec, 0);
      assert sec.data[0..] == sec.data;
    }
  }

  /** The payload so far has not completed another section. */
  predicate StillOpen(s: Sections, t: Option<Sections>)
  {
    t.Some? && t.value.count == s.count && t.value.number == s.number
  }

  lemma FieldPrefix(s: Sections, w: word, y: seq<byte>)
    requires s.state != SECTION_DATA && Fresh(s) && |y| < 4
    ensures StillOpen(s, ConsumeAll(s, y))
  {
    HeaderPrefix(s, y);
  }

  /** A proper prefix of a section leaves the section count as it was. */
  lemma SectionPrefix(s: Sections, sec: Section, y: seq<byte>)
    requires BetweenSections(s) && Fits(sec) && y <= SectionBytes(sec) && |y| < |SectionBytes(sec)|
    ensures StillOpen(s, ConsumeAll(s, y))
  {
    hide ConsumeAll; hide PutInt; hide InData;
    var a, b := PutInt(|sec.data|), PutInt(|sec.data|) + PutInt(sec.offset);
    if |y| < 4 {
      FieldPrefix(s, |sec.data|, y);
    } else if |y| < 8 {
      FieldRead(s, |sec.data|);
      var t := s.(state := SECTION_OFFSET, filesize := |sec.data|);
      PrefixSplit(y, a, SectionBytes(sec));
      ConsumeConcat(s, a, y[4..]);
      FieldPrefix(t, sec.offset, y[4..]);
    } else if |y| < 12 {
      var t := TwoFieldsRead(s, sec);
      PrefixSplit(y, b, SectionBytes(sec));
      ConsumeConcat(s, b, y[8..]);
      FieldPrefix(t, sec.memsize, y[8..]);
    } else {
      var h := HeadRead(s, sec);
      HeadConsumed(s, sec);
      PrefixSplit(y, SectionHead(sec), SectionBytes(sec));
      ConsumeConcat(s, SectionHead(sec), y[12..]);
      assert SectionBytes(sec)[12..] == sec.data;
      StartOfData(h, sec);
      DataPrefix(h, sec.offset / 4, sec.data, 0, |y| - 12);
      assert y[12..] == sec.data[0..|y| - 12];
      OpenInData(h, sec, |y| - 12);
    }
  }

  lemma OpenInData(s: Sections, sec: Section, k: nat)
    ensures InData(s, sec.offset / 4, sec.data, k).count == s.count
        && InData(s, sec.offset / 4, sec.data, k).number == s.number
  {
  }

  lemma PrefixSplit<T>(y: seq<T>, a: seq<T>, all: seq<T>)
    requires a <= all && y <= all && |a| <= |y|
    ensures y == a + y[|a|..]
    ensures y[|a|..] <= all[|a|..]
  {
  }

  /** All sections have been loaded, one after the other. */
  predicate AllLoaded(s: Sections, t: Sections, ss: seq<Section>)
  {
    && BetweenSections(t) && t.count == s.count + |ss|
    && t.number == s.number && t.entrypoint == s.entrypoint && t.mem == LoadedAll(s.mem, ss)
  }

  lemma OneLoaded(s: Sections, sec: Section, t: Sections)
    requires BetweenSections(s) && s.count + 1 < WRAP && t == Finished(HeadRead(s, sec), sec)
    ensures BetweenSections(t) && t.count == s.count + 1
    ensures t.number == s.number && t.entrypoint == s.entrypoint && t.mem == Loaded(s.mem, sec)
  {
    hide Loaded;
  }

  lemma {:induction false} SectionsConsumed(s: Sections, ss: seq<Section>)
    requires BetweenSections(s) && s.count + |ss| < WRAP
    requires forall k :: 0 <= k < |ss| ==> Fits(ss[k])
    ensures ConsumeAll(s, SectionsBytes(ss)).Some? && AllLoaded(s, ConsumeAll(s, SectionsBytes(ss)).value, ss)
    decreases ss
  {
    if ss != [] {
      var t := Finished(HeadRead(s, ss[0]), ss[0]);
      SectionConsumed(s, ss[0]);
      OneLoaded(s, ss[0], t);
      hide ConsumeAll; hide Finished; hide Loaded; hide SectionBytes;
      SectionsConsumed(t, ss[1..]);
      ConsumeConcat(s, SectionBytes(ss[0]), SectionsBytes(ss[1..]));
    }
  }

  /** Some section is still missing. */
  predicate SomeMissing(s: Sections, t: Option<Sections>, n: nat)
  {
    t.Some? && t.value.number == s.number && t.value.count < s.count + n
  }

  lemma {:induction false} SectionsPrefix(s: Sections, ss: seq<Section>, y: seq<byte>)
    requires BetweenSections(s) && s.count + |ss| < WRAP
    requires forall k :: 0 <= k < |ss| ==> Fits(ss[k])
    requires y <= SectionsBytes(ss) && |y| < |SectionsBytes(ss)|
    ensures SomeMissing(s, ConsumeAll(s, y), |ss|)
    decreases ss
  {
    var first := SectionBytes(ss[0]);
    if |y| < |first| {
      hide ConsumeAll; hide SectionBytes;
      assert y <= first;
      SectionPrefix(s, ss[0], y);
    } else {
      var t := Finished(HeadRead(s, ss[0]), ss[0]);
      SectionConsumed(s, ss[0]);
      OneLoaded(s, ss[0], t);
      hide ConsumeAll; hide Finished; hide SectionBytes;
      PrefixSplit(y, first, SectionsBytes(ss));
      assert SectionsBytes(ss)[|first|..] == SectionsBytes(ss[1..]);
      ConsumeConcat(s, first, y[|first|..]);
      SectionsPrefix(t, ss[1..], y[|first|..]);
    }
  }

  /** The state once the program's header has been read. */
  function ProgramHead(mem: Memory, p: Program): Sections
  {
    Begin(mem).(state := SECTION_FILESIZE, entrypoint := p.entrypoint, number := |p.sections|)
  }

  lemma ProgramHeadConsumed(mem: Memory, p: Program)
    requires Sound(p)
    ensures ConsumeAll(Begin(mem), PutInt(p.entrypoint))
        == Some(Begin(mem).(state := SECTION_NUMBER, entrypoint := p.entrypoint))
    ensures ConsumeAll(Begin(mem), PutInt(p.entrypoint) + PutInt(|p.sections|)) == Some(ProgramHead(mem, p))
  {
    hide ConsumeAll; hide PutInt;
    FieldRead(Begin(mem), p.entrypoint);
    FieldRead(Begin(mem).(state := SECTION_NUMBER, entrypoint := p.entrypoint), |p.sections|);
    ConsumeConcat(Begin(mem), PutInt(p.entrypoint), PutInt(|p.sections|));
  }

  /** The whole byte stream: every section in place, the count complete, the entry point known. */
  lemma ProgramConsumed(mem: Memory, p: Program)
    requires Sound(p)
    ensures var t := ConsumeAll(Begin(mem), ProgramBytes(p));
            t.Some? && t.value.count == t.value.number && t.value.entrypoint == p.entrypoint
            && t.value.mem == LoadedAll(mem, p.sections)
  {
    ProgramHeadConsumed(mem, p);
    hide ConsumeAll; hide PutInt; hide SectionsBytes; hide LoadedAll;
    SectionsConsumed(ProgramHead(mem, p), p.sections);
    ConsumeConcat(Begin(mem), PutInt(p.entrypoint) + PutInt(|p.sections|), SectionsBytes(p.sections));
  }

  /** Any less of it: the loader knows that it is not done. */
  lemma ProgramPrefix(mem: Memory, p: Program, y: seq<byte>)
    requires Sound(p) && y <= ProgramBytes(p) && |y| < |ProgramBytes(p)|
    ensures var t := ConsumeAll(Begin(mem), y); t.Some? && t.value.count != t.value.number
  {
    hide ConsumeAll; hide PutInt; hide SectionsBytes;
    var head := PutInt(p.entrypoint) + PutInt(|p.sections|);
    ProgramHeadConsumed(mem, p);
    if |y| < 4 {
      FieldPrefix(Begin(mem), p.entrypoint, y);
    } else if |y| < 8 {
      PrefixSplit(y, PutInt(p.entrypoint), ProgramBytes(p));
      ConsumeConcat(Begin(mem), PutInt(p.entrypoint), y[4..]);
      FieldPrefix(Begin(mem).(state := SECTION_NUMBER, entrypoint := p.entrypoint), |p.sections|, y[4..]);
    } else {
      PrefixSplit(y, head, ProgramBytes(p));
      ConsumeConcat(Begin(mem), head, y[8..]);
      assert ProgramBytes(p)[8..] == SectionsBytes(p.sections);
      SectionsPrefix(ProgramHead(mem, p), p.sections, y[8..]);
    }
  }

  // ----- Packets -----------------------------------------------------------------------------------------

  /** A packet of one to 255 bytes. */
  predicate IsPayload(p: seq<byte>)
  {
    1 <= |p| <= 255
  }

  /** Length, checksum field, payload. */
  function Frame(p: seq<byte>, check: bv32): seq<byte>
    requires IsPayload(p)
  {
    [|p|] + (Field(check) + p)
  }

  function Wire(ps: seq<seq<byte>>): seq<byte>
    requires forall k :: 0 <= k < |ps| ==> IsPayload(ps[k])
    decreases ps
  {
    if ps == [] then [] else Frame(ps[0], Checksum(ps[0])) + Wire(ps[1..])
  }

  function Flatten(ps: seq<seq<byte>>): seq<byte>
  {
    if ps == [] then [] else ps[0] + Flatten(ps[1..])
  }

  /** The answers the host expects: the low byte of every packet's checksum. */
  function Acks(ps: seq<seq<byte>>): seq<byte>
  {
    if ps == [] then [] else [Narrow(Checksum(ps[0]))] + Acks(ps[1..])
  }

  lemma RunStep(l: Loader, input: seq<byte>)
    requires input != []
    ensures Run(l, input) == Then(Receive(l, input[0]), input[1..])
  {
    hide Receive;
  }

  /** The checksum field goes into `received`. */
  lemma {:induction false} FieldRun(l: Loader, f: seq<byte>, n: nat, rest: seq<byte>)
    requires |f| == 4 && n <= 4 && l.packetSize > 0 && l.packetBytes == n && l.received == Received(f[..n])
    ensures Run(l, f[n..] + rest) == Run(l.(packetBytes := 4, received := Received(f)), rest)
    decreases 4 - n
  {
    if n == 4 {
      assert f[4..] + rest == rest && f[..4] == f;
    } else {
      var input := f[n..] + rest;
      assert input[0] == f[n] && input[1..] == f[n + 1..] + rest;
      RunStep(l, input);
      assert f[..n + 1][..n] == f[..n];
      hide ShiftIn;
      assert Received(f[..n + 1]) == ShiftIn(Received(f[..n]), f[n]);
      hide Received; hide Run;
      FieldRun(l.(packetBytes := n + 1, received := Received(f[..n + 1])), f, n + 1, rest);
    }
  }

  /** The state at the end of a packet whose payload was `p`, with the payload absorbed. */
  function AfterPayload(l: Loader, p: seq<byte>): Outcome
  {
    var t := ConsumeAll(l.sections, p);
    if t.None? then Filling
    else EndPacket(l.(sections := t.value, calculated := Update(l.calculated, p), packetBytes := l.packetBytes + |p|))
  }

  /** The payload goes through the checksum and the section layer; then the packet ends. */
  lemma {:induction false} PayloadRun(l: Loader, p: seq<byte>, rest: seq<byte>)
    requires p != [] && l.packetSize > 0 && l.packetBytes >= 4 && l.packetBytes + |p| == l.packetSize + 4
    ensures Run(l, p + rest) == Then(AfterPayload(l, p), rest)
    decreases p
  {
    hide Consume; hide Absorb; hide EndPacket; hide Run;
    var t := Consume(l.sections, p[0]);
    TailConcat(p, rest);
    RunStep(l, p + rest);
    if t.Some? {
      var l' := l.(sections := t.value, calculated := Absorb(l.calculated, p[0]), packetBytes := l.packetBytes + 1);
      if |p| == 1 {
        assert p[1..] + rest == rest && p[1..] == [];
        assert Receive(l, p[0]) == EndPacket(l');
        assert ConsumeAll(l.sections, p) == Some(t.value) && Update(l.calculated, p) == l'.calculated;
      } else {
        PayloadRun(l', p[1..], rest);
        assert Receive(l, p[0]) == Waiting(l');
        assert AfterPayload(l, p) == AfterPayload(l', p[1..]);
      }
    }
  }

  /** Between two packets. */
  predicate Idle(l: Loader)
  {
    l.packetSize == 0
  }

  /** What a packet with payload `p` and checksum field `check` leads to. */
  function AfterFrame(l: Loader, p: seq<byte>, check: bv32): Outcome
  {
    var t := ConsumeAll(l.sections, p);
    if t.None? then Filling
    else EndPacket(Loader(t.value, |p|, |p| + 4, Update(ONES, p), check, l.acks))
  }

  lemma LengthRun(l: Loader, n: byte, rest: seq<byte>) returns (l': Loader)
    requires Idle(l) && n > 0
    ensures l' == Loader(l.sections, n, 0, ONES, 0, l.acks)
    ensures Run(l, [n] + rest) == Run(l', rest)
  {
    l' := l.(packetSize := n, packetBytes := 0, calculated := ONES, received := 0);
    hide Run;
    RunNext(l, n, rest);
  }

  lemma CheckRun(l: Loader, check: bv32, rest: seq<byte>) returns (l': Loader)
    requires l.packetSize > 0 && l.packetBytes == 0 && l.received == 0
    ensures l' == l.(packetBytes := 4, received := check)
    ensures Run(l, Field(check) + rest) == Run(l', rest)
  {
    var f := Field(check);
    FieldReceived(check);
    ReceivedNone(f);
    hide Field; hide Received; hide Run;
    FieldRun(l, f, 0, rest);
    assert f[0..] == f;
    l' := l.(packetBytes := 4, received := check);
  }

  lemma FrameRun(l: Loader, p: seq<byte>, check: bv32, rest: seq<byte>)
    requires Idle(l) && IsPayload(p)
    ensures Run(l, Frame(p, check) + rest) == Then(AfterFrame(l, p, check), rest)
  {
    hide Field; hide Run; hide EndPacket; hide Update; hide ConsumeAll; hide Then;
    var f, n := Field(check), |p|;
    ConsAssoc(n, f + p, rest);
    ConcatAssoc(f, p, rest);
    var l1 := LengthRun(l, n, f + (p + rest));
    var l2 := CheckRun(l1, check, p + rest);
    PayloadRun(l2, p, rest);
  }

  /** A correct packet whose payload does not finish the program: acknowledged, and on to the next. */
  lemma PacketAccepted(l: Loader, p: seq<byte>, rest: seq<byte>, t: Sections)
    requires Idle(l) && IsPayload(p) && ConsumeAll(l.sections, p) == Some(t) && t.count != t.number
    ensures var l' := Loader(t, 0, |p| + 4, Checksum(p), Checksum(p), l.acks + [Narrow(Checksum(p))]);
            Run(l, Frame(p, Checksum(p)) + rest) == Run(l', rest)
  {
    hide Run; hide Update; hide Flip; hide Narrow; hide Frame; hide ConsumeAll;
    FrameRun(l, p, Checksum(p), rest);
  }

  /** The last packet. */
  lemma PacketEnters(l: Loader, p: seq<byte>, rest: seq<byte>, t: Sections)
    requires Idle(l) && IsPayload(p) && ConsumeAll(l.sections, p) == Some(t) && t.count == t.number
    ensures Run(l, Frame(p, Checksum(p)) + rest) == Entered(t.entrypoint, t.mem, l.acks + [Narrow(Checksum(p))])
  {
    hide Run; hide Update; hide Flip; hide Narrow; hide Frame; hide ConsumeAll;
    FrameRun(l, p, Checksum(p), rest);
  }

  /** The packets still to come complete the program, and no fewer bytes do. */
  ghost predicate Completes(s: Sections, bytes: seq<byte>, t: Sections)
  {
    && ConsumeAll(s, bytes) == Some(t) && t.count == t.number
    && forall y :: y <= bytes && |y| < |bytes| ==> Unfinished(s, y)
  }

  predicate Unfinished(s: Sections, y: seq<byte>)
  {
    ConsumeAll(s, y).Some? && ConsumeAll(s, y).value.count != ConsumeAll(s, y).value.number
  }

  lemma CompletesAfter(s: Sections, a: seq<byte>, b: seq<byte>, t: Sections)
    requires Completes(s, a + b, t) && b != []
    ensures Unfinished(s, a) && Completes(ConsumeAll(s, a).value, b, t)
  {
    hide ConsumeAll;
    assert a <= a + b && |a| < |a + b|;
    var s' := ConsumeAll(s, a).value;
    ConsumeConcat(s, a, b);
    forall y | y <= b && |y| < |b|
      ensures Unfinished(s', y)
    {
      assert a + y <= a + b && |a + y| < |a + b|;
      assert Unfinished(s, a + y);
      ConsumeConcat(s, a, y);
    }
  }

  lemma FlattenNonempty(ps: seq<seq<byte>>)
    requires ps != [] && forall k :: 0 <= k < |ps| ==> IsPayload(ps[k])
    ensures Flatten(ps) != []
  {
  }

  lemma OnePacketOn(l: Loader, p: seq<byte>, b: seq<byte>, rest: seq<byte>, t: Sections) returns (l': Loader)
    requires Idle(l) && IsPayload(p) && b != [] && Completes(l.sections, p + b, t)
    ensures Run(l, Frame(p, Checksum(p)) + rest) == Run(l', rest)
    ensures Idle(l') && Completes(l'.sections, b, t) && l'.acks == l.acks + [Narrow(Checksum(p))]
    ensures ConsumeAll(l.sections, p) == Some(l'.sections)
  {
    CompletesAfter(l.sections, p, b, t);
    hide Run; hide ConsumeAll; hide Checksum; hide Narrow; hide Frame; hide Completes;
    var s' := ConsumeAll(l.sections, p).value;
    PacketAccepted(l, p, rest, s');
    l' := Loader(s', 0, |p| + 4, Checksum(p), Checksum(p), l.acks + [Narrow(Checksum(p))]);
  }

  /** The first `k` packets are accepted one after the other. */
  lemma {:induction false} PacketsOn(l: Loader, ps: seq<seq<byte>>, k: nat, rest: seq<byte>, t: Sections)
      returns (l': Loader)
    requires Idle(l) && k < |ps| && (forall i :: 0 <= i < |ps| ==> IsPayload(ps[i]))
    requires Completes(l.sections, Flatten(ps), t)
    ensures Run(l, Wire(ps[..k]) + rest) == Run(l', rest)
    ensures Idle(l') && Completes(l'.sections, Flatten(ps[k..]), t) && l'.acks == l.acks + Acks(ps[..k])
    ensures ConsumeAll(l.sections, Flatten(ps[..k])) == Some(l'.sections)
    decreases k
  {
    hide Run; hide Checksum; hide Narrow; hide Frame; hide Completes; hide Consume;
    if k == 0 {
      assert Wire(ps[..0]) + rest == rest && ps[0..] == ps && l.acks + Acks(ps[..0]) == l.acks;
      l' := l;
    } else {
      var p, ps' := ps[0], ps[1..];
      FlattenNonempty(ps');
      FirstOf(ps, k);
      var l1 := OnePacketOn(l, p, Flatten(ps'), Wire(ps'[..k - 1]) + rest, t);
      l' := PacketsOn(l1, ps', k - 1, rest, t);
      ConcatAssoc(Frame(p, Checksum(p)), Wire(ps'[..k - 1]), rest);
      ConcatAssoc(l.acks, [Narrow(Checksum(p))], Acks(ps'[..k - 1]));
      ConsumeConcat(l.sections, p, Flatten(ps'[..k - 1]));
    }
  }

  lemma FirstOf(ps: seq<seq<byte>>, k: nat)
    requires 1 <= k <= |ps| && forall i :: 0 <= i < |ps| ==> IsPayload(ps[i])
    ensures Wire(ps[..k]) == Frame(ps[0], Checksum(ps[0])) + Wire(ps[1..][..k - 1])
    ensures Acks(ps[..k]) == [Narrow(Checksum(ps[0]))] + Acks(ps[1..][..k - 1])
    ensures Flatten(ps[..k]) == ps[0] + Flatten(ps[1..][..k - 1])
    ensures ps[1..][k - 1..] == ps[k..]
  {
    hide Frame; hide Narrow; hide Checksum;
    assert ps[..k][0] == ps[0] && ps[..k][1..] == ps[1..][..k - 1];
  }

  lemma LastOf(ps: seq<seq<byte>>, k: nat)
    requires k + 1 == |ps| && forall i :: 0 <= i < |ps| ==> IsPayload(ps[i])
    ensures Flatten(ps[k..]) == ps[k]
    ensures Wire(ps) == Wire(ps[..k]) + Frame(ps[k], Checksum(ps[k]))
    ensures Acks(ps) == Acks(ps[..k]) + [Narrow(Checksum(ps[k]))]
  {
    hide Frame; hide Narrow; hide Checksum;
    WireSplit(ps, k);
    assert ps[k..] == [ps[k]] && ps[k..][1..] == [];
  }

  lemma {:induction false} WireSplit(ps: seq<seq<byte>>, k: nat)
    requires k <= |ps| && forall i :: 0 <= i < |ps| ==> IsPayload(ps[i])
    ensures Wire(ps) == Wire(ps[..k]) + Wire(ps[k..]) && Acks(ps) == Acks(ps[..k]) + Acks(ps[k..])
    decreases k
  {
    hide Frame; hide Narrow; hide Checksum;
    if k == 0 {
      assert ps[0..] == ps && ps[..0] == [];
    } else {
      WireSplit(ps[1..], k - 1);
      assert ps[..k][0] == ps[0] && ps[..k][1..] == ps[1..][..k - 1] && ps[1..][k - 1..] == ps[k..];
      ConcatAssoc(Frame(ps[0], Checksum(ps[0])), Wire(ps[1..][..k - 1]), Wire(ps[k..]));
    }
  }

  /** Packet after packet, and the last one enters the program. */
  lemma PacketsRun(l: Loader, ps: seq<seq<byte>>, rest: seq<byte>, t: Sections)
    requires Idle(l) && ps != [] && forall k :: 0 <= k < |ps| ==> IsPayload(ps[k])
    requires Completes(l.sections, Flatten(ps), t)
    ensures Run(l, Wire(ps) + rest) == Entered(t.entrypoint, t.mem, l.acks + Acks(ps))
  {
    hide Run; hide Checksum; hide Narrow; hide Frame; hide Wire; hide Acks; hide ConsumeAll; hide Flatten;
    var k := |ps| - 1;
    var p := ps[k];
    LastOf(ps, k);
    var l' := PacketsOn(l, ps, k, Frame(p, Checksum(p)) + rest, t);
    PacketEnters(l', p, rest, t);
    ConcatAssoc(Wire(ps[..k]), Frame(p, Checksum(p)), rest);
    ConcatAssoc(l.acks, Acks(ps[..k]), [Narrow(Checksum(p))]);
  }

  lemma ProgramCompletes(mem: Memory, p: Program) returns (t: Sections)
    requires Sound(p)
    ensures Completes(Begin(mem), ProgramBytes(p), t)
    ensures t.entrypoint == p.entrypoint && t.mem == LoadedAll(mem, p.sections)
  {
    hide ConsumeAll; hide ProgramBytes; hide LoadedAll;
    var s := Begin(mem);
    ProgramConsumed(mem, p);
    t := ConsumeAll(s, ProgramBytes(p)).value;
    forall y | y <= ProgramBytes(p) && |y| < |ProgramBytes(p)|
      ensures Unfinished(s, y)
    {
      ProgramPrefix(mem, p, y);
    }
  }

  /** `ps` is a way to send the program: packets of one to 255 bytes that make up its bytes. */
  predicate Splits(ps: seq<seq<byte>>, p: Program)
    requires Sound(p)
  {
    (forall k :: 0 <= k < |ps| ==> IsPayload(ps[k])) && Flatten(ps) == ProgramBytes(p)
  }

  /** Loader correctness under any packetisation: however the program's bytes are split into packets,
      the loader returns the entry point, memory holds every section, and every packet has been
      acknowledged. What follows on the line is left alone. */
  lemma ProgramLoads(p: Program, ps: seq<seq<byte>>, mem: Memory, rest: seq<byte>)
    requires Sound(p) && Splits(ps, p)
    ensures Run(Start(mem), Wire(ps) + rest) == Entered(p.entrypoint, LoadedAll(mem, p.sections), Acks(ps))
  {
    hide Run; hide LoadedAll; hide Wire; hide Completes; hide Acks; hide ProgramBytes; hide Fits;
    var t := ProgramCompletes(mem, p);
    ProgramNonempty(p);
    PacketsRun(Start(mem), ps, rest, t);
    NoAcksBefore(Acks(ps));
  }

  lemma NoAcksBefore(a: seq<byte>)
    ensures [] + a == a
  {
  }

  lemma ProgramNonempty(p: Program)
    requires Sound(p)
    ensures |ProgramBytes(p)| >= 8
  {
  }
}
