/** The boot loader's packet and section state machine (patmos/c/bootloader/download.c). */
module Download {
  import opened Bytes
  import opened Crc
  import opened Lzss
  import Rfc1952
  import opened SerialLink
  import opened Wrappers

  const WRAP: nat := 0x1_0000_0000 // C's unsigned int wraps here

  type word = x: int | 0 <= x < WRAP
  type Memory = map<nat, nat> // main memory, by word address

  datatype State = ENTRYPOINT | SECTION_NUMBER | SECTION_FILESIZE | SECTION_OFFSET | SECTION_MEMSIZE | SECTION_DATA

  // ----- The section layer: what one payload byte does ---------------------------------------

  datatype Sections = Sections(
    state: State, integer: nat, byteCount: nat,
    entrypoint: nat, number: nat, count: nat,
    filesize: nat, offset: nat, memsize: nat,
    mem: Memory)

  function Begin(mem: Memory): Sections
  {
    Sections(ENTRYPOINT, 0, 0, 0, WRAP - 1, 0, 0, 0, 0, mem)
  }

  /** The weight of lane `lane` of a big-endian word: `<< ((3 - lane) * 8)`. */
  function Weight(lane: nat): nat
  {
    if lane == 0 then 0x100_0000 else if lane == 1 then 0x1_0000 else if lane == 2 then 0x100 else 1
  }

  /** Four header bytes are complete: store them and move to the next state. */
  function Header(s: Sections): Sections
    requires s.state != SECTION_DATA
  {
    var t := s.(byteCount := 0);
    match s.state
    case ENTRYPOINT => t.(entrypoint := s.integer, state := SECTION_NUMBER)
    case SECTION_NUMBER => t.(number := s.integer, state := SECTION_FILESIZE)
    case SECTION_FILESIZE => t.(filesize := s.integer, state := SECTION_OFFSET)
    case SECTION_OFFSET => t.(offset := s.integer, state := SECTION_MEMSIZE)
    case SECTION_MEMSIZE => t.(memsize := s.integer, state := SECTION_DATA)
  }

  /** Word address of byte `n` of a section, with C's wrap-around. */
  function Address(offset: nat, n: nat): nat
  {
    (offset + n) % WRAP / 4
  }

  /** The fill loop, from byte count `n` on. */
  function Fill(mem: Memory, offset: nat, n: nat, memsize: nat): Memory
    decreases memsize - n
  {
    if n >= memsize then mem else Fill(mem[Address(offset, n) := 0], offset, n + 4, memsize)
  }

  /** The fill loop writes zero at every word from byte `n` up to memsize. */
  ghost predicate Zeroed(mem: Memory, offset: nat, n: nat, memsize: nat)
  {
    forall m :: n <= m < memsize && m % 4 == n % 4 ==> Address(offset, m) in mem && mem[Address(offset, m)] == 0
  }

  /** Word address `a` is none of those. */
  ghost predicate Untouched(a: nat, offset: nat, n: nat, memsize: nat)
  {
    forall m :: n <= m < memsize && m % 4 == n % 4 ==> Address(offset, m) != a
  }

  /** Between the two memories, nothing else changed. */
  ghost predicate KeptOutside(mem: Memory, mem': Memory, offset: nat, n: nat, memsize: nat)
  {
    forall a :: Untouched(a, offset, n, memsize) ==> (a in mem' <==> a in mem) && (a in mem ==> mem'[a] == mem[a])
  }

  lemma {:induction false} FillZeros(mem: Memory, offset: nat, n: nat, memsize: nat)
    ensures Zeroed(Fill(mem, offset, n, memsize), offset, n, memsize)
    ensures KeptOutside(mem, Fill(mem, offset, n, memsize), offset, n, memsize)
    decreases memsize - n
  {
    if n < memsize {
      var next := mem[Address(offset, n) := 0];
      FillZeros(next, offset, n + 4, memsize);
      ZeroStays(next, Fill(mem, offset, n, memsize), offset, n, memsize);
      KeptMore(mem, next, Fill(mem, offset, n, memsize), offset, n, memsize);
    }
  }

  lemma ZeroStays(mem: Memory, mem': Memory, offset: nat, n: nat, memsize: nat)
    requires n < memsize && Address(offset, n) in mem && mem[Address(offset, n)] == 0
    requires Zeroed(mem', offset, n + 4, memsize) && KeptOutside(mem, mem', offset, n + 4, memsize)
    ensures Zeroed(mem', offset, n, memsize)
  {
    hide Address;
    var a := Address(offset, n);
    assert a in mem' && mem'[a] == 0 by {
      if !Untouched(a, offset, n + 4, memsize) {
        var m :| n + 4 <= m < memsize && m % 4 == (n + 4) % 4 && Address(offset, m) == a;
      }
    }
    forall m | n <= m < memsize && m % 4 == n % 4
      ensures Address(offset, m) in mem' && mem'[Address(offset, m)] == 0
    {
      assert m == n || (n + 4 <= m && m % 4 == (n + 4) % 4);
    }
  }

  lemma KeptMore(mem: Memory, next: Memory, mem': Memory, offset: nat, n: nat, memsize: nat)
    requires n < memsize && next == mem[Address(offset, n) := 0] && KeptOutside(next, mem', offset, n + 4, memsize)
    ensures KeptOutside(mem, mem', offset, n, memsize)
  {
    hide Address;
    forall a | Untouched(a, offset, n, memsize)
      ensures (a in mem' <==> a in mem) && (a in mem ==> mem'[a] == mem[a])
    {
      assert Address(offset, n) != a;
      assert Untouched(a, offset, n + 4, memsize);
    }
  }

  /** `(n + 3) & ~3` in 32 bits. */
  function WordAligned(n: nat): (r: nat)
    ensures r % 4 == 0 && r <= WRAP - 4
  {
    (n + 3) % WRAP / 4 * 4
  }

  /** The byte count never reaches a memsize this large: it wraps to 0 first. */
  predicate NeverFilled(memsize: nat)
  {
    memsize > WRAP - 4
  }

  /** The fill loop ends if and only if its byte count, wrapping in 32 bits, ever reaches memsize. */
  lemma FillEndsIff(n: nat, memsize: nat)
    requires n % 4 == 0 && n <= WRAP - 4
    ensures (exists k: nat :: (n + 4 * k) % WRAP >= memsize) <==> !NeverFilled(memsize)
  {
    if NeverFilled(memsize) {
      forall k: nat
        ensures (n + 4 * k) % WRAP < memsize
      {
        assert (n + 4 * k) % WRAP % 4 == 0 by {
          var q := (n + 4 * k) / WRAP;
          assert (n + 4 * k) % WRAP == 4 * (n / 4 + k - q * (WRAP / 4));
        }
      }
    } else {
      var k := (WRAP - 4 - n) / 4;
      assert n + 4 * k == WRAP - 4;
      assert (n + 4 * k) % WRAP >= memsize;
    }
  }

  /** The section's data is complete: zero the rest, count the section. */
  function EndSection(s: Sections): Sections
  {
    s.(mem := Fill(s.mem, s.offset, WordAligned(s.byteCount), s.memsize),
       byteCount := 0, count := (s.count + 1) % WRAP, state := SECTION_FILESIZE)
  }

  /** `integer |= data << ...; section_byte_count++` and what the state does with it. The lane is
      still clear (lemma LanesStayClear), so the or is a sum. */
  function Collect(s: Sections, b: byte): Sections
  {
    var t := s.(integer := s.integer + b * Weight(s.byteCount % 4), byteCount := s.byteCount + 1);
    if s.state != SECTION_DATA then (if t.byteCount == 4 then Header(t) else t)
    else t.(mem := s.mem[Address(s.offset, s.byteCount) := t.integer])
  }

  /** `if (section_byte_count % 4 == 0) integer = 0` */
  function Clear(s: Sections): Sections
  {
    if s.byteCount % 4 == 0 then s.(integer := 0) else s
  }

  predicate Complete(s: Sections)
  {
    s.state == SECTION_DATA && s.byteCount == s.filesize
  }

  /** One payload byte; None when the core never leaves the fill loop. */
  function Consume(s: Sections, b: byte): Option<Sections>
  {
    var t := Collect(s, b);
    if !Complete(t) then Some(Clear(t))
    else if NeverFilled(t.memsize) then None
    else Some(Clear(EndSection(t)))
  }

  /** The lanes of the collected word from the current one on are clear. */
  predicate LanesClear(s: Sections)
  {
    s.integer < WRAP && s.integer % (256 * Weight(s.byteCount % 4)) == 0
  }

  lemma Lane0(i: nat, b: byte)
    requires i < WRAP && i % WRAP == 0
    ensures i + b * 0x100_0000 < WRAP && (i + b * 0x100_0000) % 0x100_0000 == 0
  {
    assert i == 0;
  }

  lemma Lane3(i: nat, b: byte)
    requires i < WRAP && i % 0x100 == 0
    ensures i + b < WRAP
  {
    var q := i / 0x100;
    assert i == q * 0x100 && q < 0x100_0000;
  }

  lemma Lane1(i: nat, b: byte)
    requires i < WRAP && i % 0x100_0000 == 0
    ensures i + b * 0x1_0000 < WRAP && (i + b * 0x1_0000) % 0x1_0000 == 0
  {
    var q := i / 0x100_0000;
    assert i + b * 0x1_0000 == (256 * q + b) * 0x1_0000;
  }

  lemma Lane2(i: nat, b: byte)
    requires i < WRAP && i % 0x1_0000 == 0
    ensures i + b * 0x100 < WRAP && (i + b * 0x100) % 0x100 == 0
  {
    var q := i / 0x1_0000;
    assert i + b * 0x100 == (256 * q + b) * 0x100;
  }

  lemma LaneFilled(integer: nat, b: byte, lane: nat)
    requires lane < 4 && integer < WRAP && integer % (256 * Weight(lane)) == 0
    ensures integer + b * Weight(lane) < WRAP
    ensures lane < 3 ==> (integer + b * Weight(lane)) % (256 * Weight(lane + 1)) == 0
  {
    if lane == 0 {
      Lane0(integer, b);
    } else if lane == 1 {
      Lane1(integer, b);
    } else if lane == 2 {
      Lane2(integer, b);
    } else {
      Lane3(integer, b);
    }
  }

  lemma Pow2Byte(n: nat)
    ensures Pow2(n + 8) == 256 * Pow2(n)
  {
    assert Pow2(n + 2) == 4 * Pow2(n);
    assert Pow2(n + 4) == 4 * Pow2(n + 2);
    assert Pow2(n + 6) == 4 * Pow2(n + 4);
  }

  lemma {:induction false} LaneBits(lane: nat)
    requires lane < 4
    ensures Weight(lane) == Pow2(8 * (3 - lane))
    decreases 3 - lane
  {
    if lane < 3 {
      LaneBits(lane + 1);
      Pow2Byte(8 * (2 - lane));
    }
  }

  /** With the lane clear, the or that places a byte is a sum. */
  lemma OrInLane(integer: nat, b: byte, lane: nat)
    requires lane < 4 && integer % (256 * Weight(lane)) == 0
    ensures Or(integer, b * Weight(lane)) == integer + b * Weight(lane)
  {
    LaneBits(lane);
    Pow2Byte(8 * (3 - lane));
    assert b * Weight(lane) < 256 * Weight(lane);
    hide Weight; hide Or; hide Pow2;
    OrIsSum(integer, b * Weight(lane), 8 * (4 - lane));
  }

  /** The lane a byte is placed in is clear, so the or is a sum; and the next byte's lane is clear again. */
  lemma LanesStayClear(s: Sections, b: byte)
    requires LanesClear(s) && (s.state != SECTION_DATA ==> s.byteCount < 4)
    ensures Or(s.integer, b * Weight(s.byteCount % 4)) == s.integer + b * Weight(s.byteCount % 4)
    ensures match Consume(s, b)
            case None => true
            case Some(t) => LanesClear(t) && (t.state != SECTION_DATA ==> t.byteCount < 4)
  {
    hide Fill; hide Weight; hide Address; hide Or;
    OrInLane(s.integer, b, s.byteCount % 4);
    LaneFilled(s.integer, b, s.byteCount % 4);
    ZeroLanes();
    NextLane(s.byteCount);
  }

  lemma ZeroLanes()
    ensures forall k :: 0 % (256 * Weight(k)) == 0
  {
  }

  lemma NextLane(n: nat)
    ensures (n + 1) % 4 == if n % 4 == 3 then 0 else n % 4 + 1
  {
  }

  // ----- The packet layer ------------------------------------------------------------------------

  datatype Loader = Loader(sections: Sections, packetSize: nat, packetBytes: nat, calculated: bv32, received: bv32,
      acks: seq<byte>)

  /** Where `download` stands once the line has delivered its bytes. */
  datatype Outcome =
    | Waiting(loader: Loader)                               // uart_read waits for more
    | Entered(entrypoint: nat, mem: Memory, acks: seq<byte>) // returned the entry point
    | Rejected(mem: Memory, acks: seq<byte>)                // returned NULL: checksum mismatch
    | Filling                                               // never leaves the fill loop

  function Start(mem: Memory): Loader
  {
    Loader(Begin(mem), 0, 0, 0, ONES, [])
  }

  /** One byte of the line. */
  function Receive(l: Loader, data: byte): Outcome
  {
    if l.packetSize == 0 then
      Waiting(l.(packetSize := data, packetBytes := 0, calculated := ONES, received := 0))
    else if l.packetBytes < 4 then
      EndByte(l.(received := ShiftIn(l.received, data)))
    else
      match Consume(l.sections, data)
      case None => Filling
      case Some(s) => EndByte(l.(sections := s, calculated := Absorb(l.calculated, data)))
  }

  /** The packet ends after four checksum bytes and its payload. */
  function EndByte(l: Loader): Outcome
  {
    var l1 := l.(packetBytes := l.packetBytes + 1);
    if l1.packetBytes == l1.packetSize + 4 then EndPacket(l1) else Waiting(l1)
  }

  function EndPacket(l: Loader): Outcome
  {
    var crc := Flip(l.calculated);
    var acks := l.acks + [Narrow(crc)];
    if crc != l.received then Rejected(l.sections.mem, acks)
    else if l.sections.count == l.sections.number then Entered(l.sections.entrypoint, l.sections.mem, acks)
    else Waiting(l.(calculated := crc, acks := acks, packetSize := 0))
  }

  function Run(l: Loader, input: seq<byte>): Outcome
    decreases input
  {
    if input == [] then Waiting(l)
    else
      var o := Receive(l, input[0]);
      if o.Waiting? then Run(o.loader, input[1..]) else o
  }

  /** The rest of a run whose last byte led to `o`. */
  function Then(o: Outcome, rest: seq<byte>): Outcome
  {
    if o.Waiting? then Run(o.loader, rest) else o
  }

  // ----- The loader itself ---------------------------------------------------------------------------

  lemma RunNext(l: Loader, b: byte, rest: seq<byte>)
    ensures Run(l, [b] + rest) == Then(Receive(l, b), rest)
  {
    assert ([b] + rest)[1..] == rest;
  }

  /** What `download` hands to its caller, if it returns at all. */
  datatype Return = EntryPoint(address: nat) | Null | Never

  /** `download` with its local variables as fields, so that its loop body can be taken in parts. */
  class Downloader {
    const link: Link
    var mem: Memory       // main memory
    var acks: seq<byte>   // what put_byte has sent to the host

    var state: State
    var integer: nat
    var byteCount: nat
    var entrypoint: nat
    var number: nat
    var count: nat
    var filesize: nat
    var offset: nat
    var memsize: nat
    var packetSize: nat
    var packetBytes: nat
    var calculated: bv32
    var received: bv32

    constructor (mem: Memory, link: Link)
      ensures this.mem == mem && this.link == link && Value() == Start(mem)
    {
      this.mem, this.link, acks := mem, link, [];
      state, integer, byteCount := ENTRYPOINT, 0, 0;
      entrypoint, number, count := 0, WRAP - 1, 0;
      filesize, offset, memsize := 0, 0, 0;
      packetSize, packetBytes, calculated, received := 0, 0, 0, ONES;
    }

    ghost function Value(): Loader
      reads this
    {
      Loader(Parsed(), packetSize, packetBytes, calculated, received, acks)
    }

    ghost function Parsed(): Sections
      reads this
    {
      Sections(state, integer, byteCount, entrypoint, number, count, filesize, offset, memsize, mem)
    }

    /** The bit loop of the checksum. */
    method UpdateCrc(data: byte)
      modifies this`calculated
      ensures calculated == Absorb(old(calculated), data) == Rfc1952.CrcByte(old(calculated), Widen(data))
    {
      Rfc1952.ByteAgrees(calculated, data);
      hide Rfc1952.CrcByte;
      calculated := calculated ^ Widen(data);
      ghost var c, n := calculated, |Bits(data)|;
      for i := 0 to 8
        invariant Steps(calculated, n - i) == Steps(c, n)
      {
        if calculated & 1 > 0 {
          calculated := (calculated >> 1) ^ POLY;
        } else {
          calculated := calculated >> 1;
        }
      }
    }

    /** The word collected in `integer` is a complete header field. */
    method StoreHeader()
      requires state != SECTION_DATA
      modifies this`state, this`byteCount, this`entrypoint, this`number, this`filesize, this`offset, this`memsize
      ensures Parsed() == Header(old(Parsed()))
    {
      match state {
        case ENTRYPOINT => entrypoint := integer; state := SECTION_NUMBER;
        case SECTION_NUMBER => number := integer; state := SECTION_FILESIZE;
        case SECTION_FILESIZE => filesize := integer; state := SECTION_OFFSET;
        case SECTION_OFFSET => offset := integer; state := SECTION_MEMSIZE;
        case SECTION_MEMSIZE => memsize := integer; state := SECTION_DATA;
      }
      byteCount := 0;
    }

    method CollectByte(data: byte)
      modifies this`integer, this`byteCount, this`state, this`entrypoint, this`number, this`filesize, this`offset,
          this`memsize, this`mem
      ensures Parsed() == Collect(old(Parsed()), data)
    {
      integer := integer + data * Weight(byteCount % 4);
      byteCount := byteCount + 1;
      if state != SECTION_DATA {
        if byteCount == 4 {
          StoreHeader();
        }
      } else {
        mem := mem[Address(offset, byteCount - 1) := integer];
      }
    }

    /** Fill up uninitialised areas with zeros: from the data's end to memsize memory is zero, and all else stays. */
    method ZeroFill()
      requires !NeverFilled(memsize) && byteCount % 4 == 0 && byteCount < WRAP
      modifies this`mem, this`byteCount
      ensures mem == Fill(old(mem), offset, old(byteCount), memsize)
      ensures Zeroed(mem, offset, old(byteCount), memsize)
          && KeptOutside(old(mem), mem, offset, old(byteCount), memsize)
    {
      FillZeros(mem, offset, byteCount, memsize);
      hide Zeroed; hide KeptOutside; hide Address;
      while byteCount < memsize
        invariant byteCount % 4 == 0 && byteCount < WRAP
        invariant Fill(mem, offset, byteCount, memsize) == Fill(old(mem), offset, old(byteCount), memsize)
        decreases memsize - byteCount
      {
        mem := mem[Address(offset, byteCount) := 0];
        byteCount := (byteCount + 4) % WRAP;
      }
    }

    /** Align to the next word boundary, fill, get ready for the next section. */
    method FinishSection()
      requires !NeverFilled(memsize)
      modifies this`mem, this`byteCount, this`count, this`state
      ensures Parsed() == EndSection(old(Parsed()))
    {
      hide Fill; hide WordAligned;
      byteCount := WordAligned(byteCount);
      ZeroFill();
      byteCount := 0;
      count := (count + 1) % WRAP;
      state := SECTION_FILESIZE;
    }

    /** One payload byte; false when the core stays in the fill loop forever. */
    method PayloadByte(data: byte) returns (ok: bool)
      modifies this`integer, this`byteCount, this`state, this`entrypoint, this`number, this`count, this`filesize,
          this`offset, this`memsize, this`mem
      ensures Consume(old(Parsed()), data) == if ok then Some(Parsed()) else None
    {
      hide Collect; hide EndSection;
      CollectByte(data);
      if state == SECTION_DATA && byteCount == filesize {
        if NeverFilled(memsize) { return false; }
        FinishSection();
      }
      if byteCount % 4 == 0 {
        integer := 0;
      }
      ok := true;
    }

    /** One byte of the line. The result is Never while the loop goes on. */
    method Byte(data: byte) returns (stop: bool, r: Return)
      modifies this`mem, this`acks, this`state, this`integer, this`byteCount, this`entrypoint, this`number, this`count,
               this`filesize, this`offset, this`memsize, this`packetSize, this`packetBytes, this`calculated,
                 this`received
      ensures Receive(old(Value()), data) == if stop then Stopped(r) else Waiting(Value())
    {
      hide Absorb; hide Consume; hide EndByte; hide ShiftIn; hide Widen; hide Rfc1952.CrcByte;
      if packetSize == 0 {
        packetSize := data;
        packetBytes := 0;
        calculated := ONES;
        received := 0;
        return false, Never;
      }
      if packetBytes < 4 {
        received := ShiftIn(received, data);
      } else {
        UpdateCrc(data);
        var ok := PayloadByte(data);
        if !ok { return true, Never; }
      }
      stop, r := CountByte();
    }

    /** Count a byte of a packet; at its end acknowledge it, check it and see whether that was all. */
    method CountByte() returns (stop: bool, r: Return)
      modifies this`packetBytes, this`calculated, this`acks, this`packetSize
      ensures EndByte(old(Value())) == if stop then Stopped(r) else Waiting(Value())
    {
      hide Narrow; hide Flip;
      packetBytes := packetBytes + 1;
      if packetBytes == packetSize + 4 {
        calculated := Flip(calculated);
        acks := acks + [Narrow(calculated)];
        if calculated != received { return true, Null; }
        if count == number { return true, EntryPoint(entrypoint); }
        packetSize := 0;
      }
      return false, Never;
    }

    /** The outcome of a run that ends with return value `r`. */
    ghost function Stopped(r: Return): Outcome
      reads this
    {
      match r
      case EntryPoint(address) => Entered(address, mem, acks)
      case Null => Rejected(mem, acks)
      case Never => Filling
    }

    /** What get_byte will deliver in all, given what the ring held before. */
    ghost function Stream(): seq<byte>
      reads this, link, link.textBuf
      requires link.taken == 0 && link.textBuf.Length == N
    {
      if link.compression then Decode(InitialHistory(link.textBuf[..]), [], link.uart) else link.uart
    }

    /** One turn of the endless loop. */
    method Turn() returns (stop: bool, r: Return)
      requires link.Valid()
      modifies this`mem, this`acks, this`state, this`integer, this`byteCount, this`entrypoint, this`number, this`count,
               this`filesize, this`offset, this`memsize, this`packetSize, this`packetBytes, this`calculated,
                 this`received,
               link, link.textBuf
      ensures !stop ==> link.Valid() && |link.Remaining()| < old(|link.Remaining()|)
      ensures !stop ==> old(Run(Value(), link.Remaining())) == Run(Value(), link.Remaining())
      ensures stop ==> Ended(old(Run(Value(), link.Remaining())), r)
    {
      hide Receive; hide Decode; hide Link.Valid; hide Link.Remaining;
      ghost var v, rest := Value(), link.Remaining();
      var data := link.GetByte();
      if data.None? {
        return true, Never;
      }
      RunNext(v, data.value, link.Remaining());
      stop, r := Byte(data.value);
    }

    /** `download` has returned `r`, or stays forever in the fill loop or waiting for the line. */
    ghost predicate Ended(o: Outcome, r: Return)
      reads this
    {
      o == Stopped(r) || (r == Never && o == Waiting(Value()))
    }

    /** download: the whole loop, on everything the line ever delivers. */
    method Download() returns (r: Return)
      requires link.taken == 0 && link.textBuf.Length == N && Value() == Start(mem)
      modifies this, link, link.textBuf
      ensures Ended(Run(old(Value()), old(Stream())), r)
    {
      hide Run; hide Decode; hide Link.Remaining; hide Link.Valid;
      r := Never;
      StartLine();
      ghost var o := Run(Value(), link.Remaining());
      var stop := false;
      while !stop
        invariant !stop ==> link.Valid() && Run(Value(), link.Remaining()) == o
        invariant stop ==> Ended(o, r)
        decreases !stop, if stop then 0 else |link.Remaining()|
      {
        stop, r := Turn();
      }
    }

    /** `#ifdef COMPRESSION decompress_init();` */
    method StartLine()
      requires link.taken == 0 && link.textBuf.Length == N
      modifies link, link.textBuf
      ensures link.Valid() && link.Remaining() == old(Stream())
    {
      if link.compression {
        link.DecompressInit();
      }
    }
  }
}
