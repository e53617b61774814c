/** From the host's program to the core's memory: the host's own packets, compressed or not, through
    the line, the decompressor and the loader. */
module EndToEnd {
  import opened Bytes
  import opened Crc
  import opened Damage
  import opened Download
  import opened Encoder
  import opened Image
  import opened Lzss
  import opened Seqs
  import opened SerialLink

  // ----- The host's packets --------------------------------------------------------------------

  const FRAME_SIZE: nat := 255

  /** Transmitter.send: packets of FRAME_SIZE bytes, and one for the remaining bytes. */
  function Chunks(stream: seq<byte>): (ps: seq<seq<byte>>)
    decreases |stream|
  {
    if stream == [] then []
    else
      var size := if |stream| < FRAME_SIZE then |stream| else FRAME_SIZE;
      [stream[..size]] + Chunks(stream[size..])
  }

  function SectionChunks(ss: seq<Section>): seq<seq<byte>>
    requires forall k :: 0 <= k < |ss| ==> Fits(ss[k])
    decreases ss
  {
    if ss == [] then [] else Chunks(SectionBytes(ss[0])) + SectionChunks(ss[1..])
  }

  /** Main.main: the program header, then each segment's header together with its data. */
  function HostPackets(p: Program): seq<seq<byte>>
    requires Sound(p)
  {
    Chunks(PutInt(p.entrypoint) + PutInt(|p.sections|)) + SectionChunks(p.sections)
  }

  /** Every packet carries one to 255 bytes, and together they are `stream`. */
  predicate Carry(ps: seq<seq<byte>>, stream: seq<byte>)
  {
    (forall k :: 0 <= k < |ps| ==> IsPayload(ps[k])) && Flatten(ps) == stream
  }

  lemma {:induction false} FlattenConcat(a: seq<seq<byte>>, b: seq<seq<byte>>)
    ensures Flatten(a + b) == Flatten(a) + Flatten(b)
    decreases a
  {
    if a == [] {
      assert a + b == b;
    } else {
      TailConcat(a, b);
      FlattenConcat(a[1..], b);
      ConcatAssoc(a[0], Flatten(a[1..]), Flatten(b));
    }
  }

  lemma CarryConcat(a: seq<seq<byte>>, x: seq<byte>, b: seq<seq<byte>>, y: seq<byte>)
    requires Carry(a, x) && Carry(b, y)
    ensures Carry(a + b, x + y)
  {
    FlattenConcat(a, b);
  }

  /** The chunks make up the stream, and all but the last are as long as one byte can tell. */
  lemma {:induction false} ChunksCarry(stream: seq<byte>)
    ensures Carry(Chunks(stream), stream)
    ensures forall k :: 0 <= k < |Chunks(stream)| - 1 ==> |Chunks(stream)[k]| == 255
    decreases |stream|
  {
    if stream != [] {
      var size := if |stream| < FRAME_SIZE then |stream| else FRAME_SIZE;
      ChunksCarry(stream[size..]);
      assert Flatten([stream[..size]]) == stream[..size];
      CarryConcat([stream[..size]], stream[..size], Chunks(stream[size..]), stream[size..]);
      SplitAt(stream, size);
    }
  }

  lemma {:induction false} SectionChunksCarry(ss: seq<Section>)
    requires forall k :: 0 <= k < |ss| ==> Fits(ss[k])
    ensures Carry(SectionChunks(ss), SectionsBytes(ss))
    decreases ss
  {
    if ss != [] {
      hide Chunks; hide Carry; hide SectionBytes;
      ChunksCarry(SectionBytes(ss[0]));
      SectionChunksCarry(ss[1..]);
      CarryConcat(Chunks(SectionBytes(ss[0])), SectionBytes(ss[0]), SectionChunks(ss[1..]), SectionsBytes(ss[1..]));
    } else {
      NothingCarried();
    }
  }

  lemma NothingCarried()
    ensures Carry([], [])
  {
  }

  /** The host's packets are one of the ways to split the program. */
  lemma HostPacketsSplit(p: Program)
    requires Sound(p)
    ensures Splits(HostPackets(p), p)
  {
    var head := PutInt(p.entrypoint) + PutInt(|p.sections|);
    ChunksCarry(head);
    SectionChunksCarry(p.sections);
    CarryConcat(Chunks(head), head, SectionChunks(p.sections), SectionsBytes(p.sections));
  }

  // ----- The line ---------------------------------------------------------------------------------

  /** The host compresses `text` for a core whose ring holds `ring`: any tokens that cover the text
      will do. */
  ghost predicate Compresses(code: seq<byte>, ring: seq<byte>, text: seq<byte>)
    requires |ring| == N
  {
    exists ts :: Tokenises(InitialHistory(ring), ts, text) && code == Serialise(ts)
  }

  /** What the decompressor makes of compressed text is the text. */
  lemma Decompressed(code: seq<byte>, ring: seq<byte>, text: seq<byte>)
    requires |ring| == N && Compresses(code, ring, text)
    ensures Decode(InitialHistory(ring), [], code) == text
  {
    hide Decode; hide Serialise; hide Tokenises; hide InitialHistory;
    var h := InitialHistory(ring);
    var ts :| Tokenises(h, ts, text) && code == Serialise(ts);
    DecodeSerialised(h, ts);
    TokenisesExpands(h, ts, text);
    DropHistory(h, text);
  }

  lemma DropHistory(h: seq<byte>, text: seq<byte>)
    ensures (h + text)[|h|..] == text
  {
  }

  /** The host has put `text` on the line, compressed if the core expects that. */
  ghost predicate Sends(link: Link, text: seq<byte>)
    reads link, link.textBuf
    requires link.textBuf.Length == N
  {
    if link.compression then Compresses(link.uart, link.textBuf[..], text) else link.uart == text
  }

  /** What the host puts on the line is what the loader reads. */
  lemma StreamIs(core: Downloader, text: seq<byte>)
    requires core.link.taken == 0 && core.link.textBuf.Length == N && Sends(core.link, text)
    ensures core.Stream() == text
  {
    hide Decode; hide InitialHistory;
    if core.link.compression {
      Decompressed(core.link.uart, core.link.textBuf[..], text);
    }
  }

  /** The whole boot: whatever the core's memory and ring held before, however the host split the
      program into packets and whichever tokens it chose, the loader returns the program's entry point,
      memory holds its sections, and the host has received exactly the answers it expects. */
  method Boot(link: Link, mem: Memory, ghost p: Program, ghost ps: seq<seq<byte>>) returns (r: Return, core: Downloader)
    requires Sound(p) && Splits(ps, p)
    requires link.taken == 0 && link.textBuf.Length == N && Sends(link, Wire(ps))
    modifies link, link.textBuf
    ensures r == EntryPoint(p.entrypoint)
    ensures core.mem == LoadedAll(mem, p.sections) && core.acks == Acks(ps)
  {
    hide Run; hide Decode; hide LoadedAll; hide Wire; hide Acks; hide Compresses; hide ProgramBytes; hide Fits;
    core := new Downloader(mem, link);
    StreamIs(core, Wire(ps));
    ProgramLoads(p, ps, mem, []);
    NothingFollows(Wire(ps));
    r := core.Download();
  }

  lemma NothingFollows(a: seq<byte>)
    ensures a + [] == a
  {
  }

  /** A packet whose payload arrives damaged within 32 consecutive bits, whatever follows on the line: the program is
      not entered. The loader returns NULL, having answered every packet up to the damaged one; or, if and only if the
      payload bytes so far hold a complete section with a memsize above 2^32 - 4, it never returns. */
  method BootDamaged(link: Link, mem: Memory, ghost p: Program, ghost ps: seq<seq<byte>>,
                     ghost k: nat, ghost q: seq<byte>, ghost s: nat, ghost rest: seq<byte>)
                       returns (r: Return, core: Downloader)
    requires Sound(p) && Splits(ps, p) && k < |ps|
    requires |q| == |ps[k]| && q != ps[k] && DifferWithinBurst(ps[k], q, s)
    requires link.taken == 0 && link.textBuf.Length == N
    requires Sends(link, Wire(ps[..k]) + (Frame(q, Checksum(ps[k])) + rest))
    modifies link, link.textBuf
    ensures r == if Hangs(Flatten(ps[..k]) + q) then Never else Null
    ensures r.Null? ==> core.acks == Acks(ps[..k]) + [Narrow(Checksum(q))]
  {
    hide Run; hide Decode; hide Wire; hide Acks; hide Compresses; hide ProgramBytes; hide Fits; hide Frame;
      hide Checksum;
    hide Damaged; hide Hangs; hide Flatten; hide Narrow;
    core := new Downloader(mem, link);
    StreamIs(core, Wire(ps[..k]) + (Frame(q, Checksum(ps[k])) + rest));
    DamagedProgramRejected(p, ps, mem, k, q, s, rest);
    r := core.Download();
  }
}
