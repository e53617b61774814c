/** The TFTP download (tftp_receive in patmos/c/elfloader.c) against a lock-step sender as in section 2 of
    RFC 1350, over a network that loses, duplicates and reorders datagrams. */
module Tftp {

  import opened Bytes
  import opened Wrappers

  const BLOCK: nat := 512
  const SIZE_T: nat := 0x1_0000_0000
  const MAX_BLOCK: nat := 0xFFFF
  const MAX_DATA: nat := 0xFFFF - 4
  const TFTP_DATA: byte := 3
  const TFTP_ACK: byte := 4
  const TFTP_ERROR: byte := 5

  /** What a UDP datagram to the right port holds; everything the receiver ignores is `Foreign`. */
  datatype Datagram =
    | Data(block: nat, data: seq<byte>)
    | Error(code: nat)
    | Foreign

  /** `block` is an unsigned short, the length of the data fits one too. */
  predicate Formed(d: Datagram)
  {
    d.Data? ==> d.block <= MAX_BLOCK && |d.data| <= MAX_DATA
  }

  type Packet = d: Datagram | Formed(d) witness Foreign

  /** How tftp_receive reads the bytes of a datagram: `op`, then an error code or a block number and its data. */
  function Parse(raw: seq<byte>): Packet
    requires 4 <= |raw| <= 0xFFFF
  {
    var op, number := raw[0] as int * 256 + raw[1], raw[2] as int * 256 + raw[3];
    if op == TFTP_ERROR then Error(number) else if op == TFTP_DATA then Data(number, raw[4..]) else Foreign
  }

  /** The bytes of a data datagram and of an error datagram, as in section 5 of RFC 1350. */
  function DataBytes(block: nat, data: seq<byte>): seq<byte>
    requires block <= MAX_BLOCK
  {
    [0, 3, block / 256, block % 256] + data
  }

  function ErrorBytes(code: nat, message: seq<byte>): seq<byte>
    requires code <= MAX_BLOCK
  {
    [0, 5, code / 256, code % 256] + message
  }

  /** What a sender's datagram is read as. */
  lemma Parsed(number: nat, data: seq<byte>)
    requires number <= MAX_BLOCK && |data| <= MAX_DATA
    ensures Parse(DataBytes(number, data)) == Data(number, data)
    ensures Parse(ErrorBytes(number, data)) == Error(number)
  {
    assert DataBytes(number, data)[4..] == data;
  }

  /** How tftp_receive stands: waiting, returned a size, returned -1 after an error datagram, or lost because
      the offset of a block wrapped around. */
  datatype Outcome = Waiting | Returned(size: nat) | Aborted | Astray

  /** size_t start = (block-1)*512. */
  function Start(block: nat): nat
  {
    (block - 1) * BLOCK % SIZE_T
  }

  /** The block's bytes end where the growth of the buffer can reach. */
  predicate Placed(block: nat, n: nat)
  {
    Start(block) + n < SIZE_T / 2
  }

  // ----- Growing the buffer ------------------------------------------------------------------------------

  /** One round of the growth loop, in 32-bit arithmetic. */
  function Enlarged(n: nat): nat
  {
    (n + 1) * 3 % SIZE_T / 2
  }

  lemma EnlargedPlain(n: nat)
    requires n < 0x4000_0000
    ensures n < Enlarged(n) == (n + 1) * 3 / 2
  {
  }

  /** The last round took the size from `q` to `r`. */
  predicate LastRound(q: nat, r: nat)
  {
    r == (q + 1) * 3 / 2
  }

  /** The size the growth loop ends with. */
  function Grow(n: nat, end: nat): (r: nat)
    requires end < 0x4000_0000
    ensures n <= r && end <= r
    ensures r == n || 2 * r <= 3 * end
    ensures r == n || exists q :: n <= q < end && LastRound(q, r)
    decreases end - n
  {
    if n < end then
      EnlargedPlain(n);
      assert LastRound(n, Enlarged(n));
      Grow(Enlarged(n), end)
    else n
  }

  lemma BigEnough(n: nat, end: nat)
    requires end <= n && end < 0x4000_0000
    ensures Grow(n, end) == n
  {
  }

  /** The growth loop of elfloader.c. */
  method GrowLoop(size: nat, end: nat) returns (newSize: nat)
    requires end < 0x4000_0000
    ensures newSize == Grow(size, end)
  {
    newSize := size;
    while newSize < end
      invariant Grow(newSize, end) == Grow(size, end)
      decreases end - newSize
    {
      EnlargedPlain(newSize);
      newSize := (newSize + 1) * 3 % SIZE_T / 2;
    }
  }

  /** The size after `k` rounds of the loop. */
  function Rounds(n: nat, k: nat): nat
    decreases k
  {
    if k == 0 then n else Rounds(Enlarged(n), k - 1)
  }

  /** No size the loop computes reaches half the address space. */
  lemma {:induction false} NeverReached(n: nat, k: nat)
    requires n < SIZE_T / 2
    ensures Rounds(n, k) < SIZE_T / 2
    decreases k
  {
    if k > 0 {
      NeverReached(Enlarged(n), k - 1);
    }
  }

  lemma {:induction false} GrowReached(n: nat, end: nat) returns (k: nat)
    requires end < 0x4000_0000
    ensures Rounds(n, k) == Grow(n, end)
    decreases end - n
  {
    if n < end {
      EnlargedPlain(n);
      k := GrowReached(Enlarged(n), end);
      k := k + 1;
    } else {
      k := 0;
    }
  }

  /** A block's bytes have their place exactly if its number is not 0. */
  lemma PlacedIff(block: nat, n: nat)
    requires block <= MAX_BLOCK && n <= MAX_DATA
    ensures Placed(block, n) <==> block >= 1
    ensures block >= 1 ==> Start(block) == (block - 1) * 512
  {
  }

  /** When the growth loop ends, for any block number and length that 16 bits hold: always, but for a short block with
      the number 0. Its end lies beyond every size the loop computes. */
  lemma GrowthEndsIff(size: nat, block: nat, n: nat)
    requires size < SIZE_T / 2 && block <= MAX_BLOCK && n <= MAX_DATA
    ensures (exists k :: Rounds(size, k) >= (Start(block) + n) % SIZE_T) <==> block >= 1 || n >= BLOCK
  {
    var end := (Start(block) + n) % SIZE_T;
    PlacedIff(block, n);
    if block >= 1 || n >= BLOCK {
      assert end < 0x4000_0000;
      var k := GrowReached(size, end);
    } else {
      assert end >= SIZE_T / 2;
      forall k: nat ensures Rounds(size, k) < end {
        NeverReached(size, k);
      }
    }
  }

  // ----- One data block -------------------------------------------------------------------------------------

  /** What a data block does to the buffer: it grows if need be, the block is stored, all other bytes stay. */
  ghost predicate Accepts(buf: seq<byte>, block: nat, data: seq<byte>, buf': seq<byte>)
    requires 1 <= block <= MAX_BLOCK && |data| <= MAX_DATA
  {
    PlacedIff(block, |data|);
    var start, end := Start(block), Start(block) + |data|;
    && |buf'| == Grow(|buf|, end) && buf'[start..end] == data
    && forall i :: 0 <= i < |buf| && !(start <= i < end) ==> buf'[i] == buf[i]
  }

  function AckBytes(block: nat): (a: seq<byte>)
    requires block <= MAX_BLOCK
  {
    [0, TFTP_ACK, block / 256, block % 256]
  }

  /** What the sender reads in an acknowledgement. */
  function AckedBlock(a: seq<byte>): Option<nat>
  {
    if |a| == 4 && a[0] == 0 && a[1] == TFTP_ACK then Some((a[2] as int) * 256 + a[3]) else None
  }

  /** The block number survives the two bytes it is sent in. */
  lemma AckRoundTrip(block: nat)
    requires block <= MAX_BLOCK
    ensures AckedBlock(AckBytes(block)) == Some(block)
    ensures var a := AckBytes(block);
            |a| == 4 && a[0] == 0 && a[1] == 4 && (a[2] as int) * 256 + a[3] == block
  {
  }

  // ----- The receiver -----------------------------------------------------------------------------------------

  /** The acknowledgement of a datagram, if it gets one. */
  function AckOf(d: Packet): (acks: seq<seq<byte>>)
    ensures acks == if d.Data? && d.block >= 1 then [[0, 4, d.block / 256, d.block % 256]] else []
  {
    assert d.Data? ==> (Placed(d.block, |d.data|) <==> d.block >= 1) by {
      if d.Data? { PlacedIff(d.block, |d.data|); }
    }
    if d.Data? && Placed(d.block, |d.data|) then [AckBytes(d.block)] else []
  }

  /** All the acknowledgements of a sequence of datagrams. */
  function AcksOf(input: seq<Packet>): seq<seq<byte>>
    decreases |input|
  {
    if input == [] then [] else AcksOf(input[..|input| - 1]) + AckOf(input[|input| - 1])
  }

  /** How things stand after a datagram, when the buffer has `size` bytes then. */
  function After(d: Packet, size: nat): Outcome
  {
    match d
    case Data(block, data) =>
      if !Placed(block, |data|) then Astray else if |data| < BLOCK then Returned(size) else Waiting
    case Error(_) => Aborted
    case Foreign => Waiting
  }

  /** One datagram that does not go astray, and the buffer before and after. */
  ghost predicate Handles(d: Packet, buf: seq<byte>, buf': seq<byte>)
  {
    match d
    case Data(block, data) => 1 <= block && Accepts(buf, block, data, buf')
    case Error(_) => buf' == buf
    case Foreign => buf' == buf
  }

  /** The contents of the buffer while these datagrams are handled; only the last one may end the reception. */
  ghost predicate History(bufs: seq<seq<byte>>, input: seq<Packet>)
  {
    && |bufs| == |input| + 1 && bufs[0] == []
    && (forall k :: 0 <= k < |input| ==> Handles(input[k], bufs[k], bufs[k + 1]))
    && (forall k :: 0 <= k < |input| - 1 ==> After(input[k], |bufs[k + 1]|).Waiting?)
  }

  /** How many of the datagrams handled did not go astray. */
  function Sane(outcome: Outcome, used: nat): nat
  {
    if outcome == Astray && used > 0 then used - 1 else used
  }

  lemma AcksMore(input: seq<Packet>, d: Packet)
    ensures AcksOf(input + [d]) == AcksOf(input) + AckOf(d)
  {
    assert (input + [d])[..|input|] == input;
    hide AckOf;
  }

  /** The datagrams handled so far, with the buffer they leave. */
  ghost predicate Processed(bufs: seq<seq<byte>>, input: seq<Packet>, buf: seq<byte>)
  {
    History(bufs, input) && buf == bufs[|input|]
  }

  lemma ProcessedMore(bufs: seq<seq<byte>>, input: seq<Packet>, buf: seq<byte>, d: Packet, buf': seq<byte>)
    requires Processed(bufs, input, buf) && Handles(d, buf, buf')
    requires input != [] ==> After(input[|input| - 1], |buf|).Waiting?
    ensures Processed(bufs + [buf'], input + [d], buf')
  {
    hide Handles; hide After;
    HistoryGrows(bufs, input, d, buf');
  }

  lemma HistoryGrows(bufs: seq<seq<byte>>, input: seq<Packet>, d: Packet, buf: seq<byte>)
    requires History(bufs, input) && Handles(d, bufs[|input|], buf)
    requires input != [] ==> After(input[|input| - 1], |bufs[|input|]|).Waiting?
    ensures History(bufs + [buf], input + [d])
  {
    hide Handles; hide After;
    assert (input + [d])[..|input|] == input;
    var more, all := bufs + [buf], input + [d];
    forall k | 0 <= k < |all| ensures Handles(all[k], more[k], more[k + 1]) {
      if k < |input| {
        assert Handles(input[k], bufs[k], bufs[k + 1]);
      }
    }
    forall k | 0 <= k < |all| - 1 ensures After(all[k], |more[k + 1]|).Waiting? {
      assert more[k + 1] == bufs[k + 1] && all[k] == input[k];
    }
  }

  /** The first `used` datagrams are handled: how things stand, what was acknowledged, what the buffer went through. */
  ghost predicate Received(input: seq<Packet>, used: nat, outcome: Outcome, acks: seq<seq<byte>>,
                           bufs: seq<seq<byte>>, buf: seq<byte>)
  {
    && used <= |input| && outcome == (if used == 0 then Waiting else After(input[used - 1], |buf|))
    && acks == AcksOf(input[..used]) && Processed(bufs, input[..Sane(outcome, used)], buf)
  }

  lemma ReceivedMore(input: seq<Packet>, used: nat, acks: seq<seq<byte>>, bufs: seq<seq<byte>>, buf: seq<byte>,
                     outcome: Outcome, buf': seq<byte>)
    requires Received(input, used, Waiting, acks, bufs, buf) && used < |input|
    requires outcome == After(input[used], |buf'|)
    requires if outcome == Astray then buf' == buf else Handles(input[used], buf, buf')
    ensures var bufs' := if outcome == Astray then bufs else bufs + [buf'];
            Received(input, used + 1, outcome, acks + AckOf(input[used]), bufs', buf')
  {
    hide Processed; hide Handles; hide After; hide AckOf; hide AcksOf;
    assert input[..used + 1] == input[..used] + [input[used]];
    AcksMore(input[..used], input[used]);
    if outcome != Astray {
      ProcessedMore(bufs, input[..used], buf, input[used], buf');
    }
  }

  // ----- When and how it ends ------------------------------------------------------------------------------

  /** The reception ends with an error datagram, a short block or a block numbered 0. */
  predicate Stops(d: Packet)
  {
    d.Error? || (d.Data? && (d.block == 0 || |d.data| < 512))
  }

  lemma WaitingIff(d: Packet, size: nat)
    ensures After(d, size) == Waiting <==> !Stops(d)
    ensures After(d, size) == Aborted <==> d.Error?
    ensures After(d, size) == Astray <==> d.Data? && d.block == 0
    ensures After(d, size).Returned? <==> d.Data? && d.block >= 1 && |d.data| < 512
    ensures After(d, size).Returned? ==> After(d, size).size == size
  {
    if d.Data? { PlacedIff(d.block, |d.data|); }
    hide Placed;
  }

  /** Datagram `k` is the first to end the reception. */
  predicate FirstStop(input: seq<Packet>, k: nat)
  {
    k < |input| && Stops(input[k]) && forall j :: 0 <= j < k ==> !Stops(input[j])
  }

  /** An error datagram leaves the buffer as it was, and is not answered. */
  lemma ErrorLeaves(input: seq<Packet>, used: nat, acks: seq<seq<byte>>, bufs: seq<seq<byte>>, buf: seq<byte>)
    requires Received(input, used, Aborted, acks, bufs, buf) && used > 0 && input[used - 1].Error?
    ensures |bufs| == used + 1 && buf == bufs[used - 1] && acks == AcksOf(input[..used - 1])
  {
    assert input[..used][..used - 1] == input[..used - 1];
    var last := used - 1;
    assert Handles(input[..used][last], bufs[last], bufs[last + 1]);
    hide Accepts;
  }

  class Receiver {
    var buffer: array<byte>
    var size: nat

    ghost predicate Valid()
      reads this
    {
      size == buffer.Length
    }

    constructor ()
      ensures Valid() && fresh(buffer) && buffer[..] == []
    {
      buffer := new byte[0];
      size := 0;
    }

    /** The buffer grows to hold `end` bytes, and keeps what it has. */
    method Enlarge(end: nat)
      requires Valid() && size < end < 0x4000_0000
      modifies this
      ensures Valid() && fresh(buffer) && size == Grow(old(size), end)
      ensures buffer[..old(size)] == old(buffer[..])
    {
      var newSize := GrowLoop(size, end);
      var newBuffer := new byte[newSize];
      forall i | 0 <= i < size {
        newBuffer[i] := buffer[i];
      }
      buffer, size := newBuffer, newSize;
    }

    /** One data block: grow if need be, store. */
    method Store(block: nat, data: seq<byte>)
      requires Valid() && 1 <= block <= MAX_BLOCK && |data| <= MAX_DATA
      modifies this, buffer
      ensures Valid() && (buffer == old(buffer) || fresh(buffer))
      ensures Accepts(old(buffer[..]), block, data, buffer[..])
    {
      PlacedIff(block, |data|);
      hide Grow;
      var start := Start(block);
      var end := start + |data|;
      assert end % SIZE_T == end;
      if end > size {
        Enlarge(end);
      } else {
        BigEnough(size, end);
      }
      forall i | 0 <= i < |data| {
        buffer[start + i] := data[i];
      }
      assert buffer[start..end] == data;
    }

    /** One datagram. */
    method Handle(d: Packet) returns (outcome: Outcome, acks: seq<seq<byte>>)
      requires Valid()
      modifies this, buffer
      ensures Valid() && (buffer == old(buffer) || fresh(buffer))
      ensures outcome == After(d, size) && acks == AckOf(d)
      ensures outcome != Astray ==> Handles(d, old(buffer[..]), buffer[..])
      ensures outcome == Astray ==> buffer[..] == old(buffer[..])
    {
      outcome, acks := Waiting, [];
      match d {
        case Error(_) =>
          outcome := Aborted;
        case Data(block, data) =>
          hide Start; hide Placed; hide Accepts;
          PlacedIff(block, |data|);
          if !Placed(block, |data|) {
            outcome := Astray;
            return;
          }
          Store(block, data);
          acks := [AckBytes(block)];
          if |data| < BLOCK {
            outcome := Returned(size);
          }
        case Foreign =>
      }
    }

    /** Handle datagrams until one ends the reception: the buffer goes through a history of blocks accepted,
        every data block is acknowledged, and nothing is read beyond the datagram that ends it. */
    method Receive(input: seq<Packet>) returns (outcome: Outcome, used: nat, acks: seq<seq<byte>>,
        ghost bufs: seq<seq<byte>>)
      requires Valid() && buffer[..] == []
      modifies this, buffer
      ensures Received(input, used, outcome, acks, bufs, buffer[..])
      // nothing is read beyond the first datagram that ends it
      ensures forall k :: 0 <= k < used - 1 ==> !Stops(input[k])
      ensures forall k: nat :: FirstStop(input, k) ==> used == k + 1
      ensures outcome == Waiting <==> used == |input| && (used > 0 ==> !Stops(input[used - 1]))
      // how it ended
      ensures outcome == Aborted <==> used > 0 && input[used - 1].Error?
      ensures outcome == Aborted ==> buffer[..] == bufs[used - 1] && acks == AcksOf(input[..used - 1])
      ensures outcome == Astray <==> used > 0 && input[used - 1].Data? && input[used - 1].block == 0
      ensures outcome.Returned?
              <==> used > 0 && input[used - 1].Data? && input[used - 1].block >= 1 && |input[used - 1].data| < 512
      ensures outcome.Returned? ==> outcome.size == |buffer[..]|
    {
      outcome, used, acks, bufs := Waiting, 0, [], [[]];
      assert input[..0] == [];
      hide Received; hide Handles; hide After; hide AckOf; hide Stops;
      assert Received(input, used, outcome, acks, bufs, buffer[..]) by {
        NoneReceived(input);
      }
      while used < |input| && outcome.Waiting?
        invariant Valid() && (buffer == old(buffer) || fresh(buffer)) && used <= |input|
        invariant Received(input, used, outcome, acks, bufs, buffer[..])
        invariant if used == 0 then outcome == Waiting else outcome == After(input[used - 1], |buffer[..]|)
        invariant forall k :: 0 <= k < (if outcome.Waiting? then used else used - 1) ==> !Stops(input[k])
        decreases |input| - used
      {
        ghost var was := buffer[..];
        var more;
        outcome, more := Handle(input[used]);
        WaitingIff(input[used], size);
        ReceivedMore(input, used, acks, bufs, was, outcome, buffer[..]);
        if outcome != Astray {
          bufs := bufs + [buffer[..]];
        }
        acks := acks + more;
        used := used + 1;
      }
      if used > 0 {
        WaitingIff(input[used - 1], |buffer[..]|);
        if input[used - 1].Error? {
          ErrorLeaves(input, used, acks, bufs, buffer[..]);
        }
      }
    }
  }

  lemma NoneReceived(input: seq<Packet>)
    ensures Received(input, 0, Waiting, [], [[]], [])
  {
    assert input[..0] == [];
  }
}
