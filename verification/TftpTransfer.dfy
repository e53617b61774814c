/** The TFTP download (tftp_receive in patmos/c/elfloader.c) against a lock-step sender as in section 2 of
    RFC 1350, over a network that loses, duplicates and reorders datagrams. */
module TftpTransfer {

  import opened Bytes
  import opened Tftp
  import opened Wrappers

  // ----- The file in blocks ------------------------------------------------------------------------------

  /** Number of data blocks of a file: the last one is short, perhaps empty. */
  function Blocks(file: seq<byte>): (n: nat)
    ensures n >= 1
  {
    |file| / 512 + 1
  }

  /** Where the first `k` blocks of the file end. */
  function EndOf(file: seq<byte>, k: nat): (e: nat)
    ensures e <= |file|
  {
    if k * 512 <= |file| then k * 512 else |file|
  }

  /** The data of block `k`. */
  function BlockOf(file: seq<byte>, k: nat): (d: seq<byte>)
    requires 1 <= k <= Blocks(file)
    ensures |d| <= 512 && (|d| < 512 <==> k == Blocks(file))
  {
    file[(k - 1) * 512..EndOf(file, k)]
  }

  predicate Sendable(file: seq<byte>)
  {
    Blocks(file) <= 65535
  }

  const NUMBERS: nat := 65536

  /** What the receiver reads when block `k` arrives; block numbers are sent in 16 bits. */
  function PacketOf(file: seq<byte>, k: nat): (d: Packet)
    requires 1 <= k <= Blocks(file)
    ensures d == Data(k % 65536, BlockOf(file, k))
  {
    Parsed(k % NUMBERS, BlockOf(file, k));
    Parse(DataBytes(k % NUMBERS, BlockOf(file, k)))
  }

  // ----- The sender and the network ---------------------------------------------------------------------------

  /** The sender is at block `current`. Every datagram ever sent and every acknowledgement the receiver ever sent may
      still arrive, any number of times and in any order, or never. `delivered` is what the receiver was handed. */
  datatype Net = Net(current: nat, sent: set<nat>, acks: seq<seq<byte>>, delivered: seq<Packet>)

  /** The sender (re)transmits a block it has reached; a datagram arrives; an acknowledgement arrives; a datagram
      the receiver ignores arrives. */
  datatype Move = Send(k: nat) | Deliver(k: nat) | AckArrives(a: seq<byte>) | Noise

  /** A data datagram that ends the reception: the short block, or one whose number is 0. */
  predicate Ends(d: Packet)
  {
    d.Data? && (d.block == 0 || |d.data| < 512)
  }

  predicate Over(n: Net)
  {
    n.delivered != [] && Ends(n.delivered[|n.delivered| - 1])
  }

  predicate Possible(file: seq<byte>, n: Net, a: Move)
  {
    match a
    case Send(k) => 1 <= k <= n.current
    case Deliver(k) => k in n.sent && 1 <= k <= Blocks(file) && !Over(n)
    case AckArrives(a) => a in n.acks
    case Noise => !Over(n)
  }

  /** The datagram reaches the receiver, which answers it. */
  function Handed(n: Net, d: Packet): Net
  {
    n.(delivered := n.delivered + [d], acks := n.acks + AckOf(d))
  }

  /** The sender goes on when the acknowledgement it reads names its current block. */
  function Step(file: seq<byte>, n: Net, a: Move): Net
    requires Possible(file, n, a)
  {
    match a
    case Send(k) => n.(sent := n.sent + {k})
    case Deliver(k) => Handed(n, PacketOf(file, k))
    case AckArrives(a) =>
      if AckedBlock(a) == Some(n.current % NUMBERS) && n.current < Blocks(file) then n.(current := n.current + 1) else n
    case Noise => Handed(n, Foreign)
  }

  const IDLE := Net(1, {}, [], [])

  ghost predicate Leads(file: seq<byte>, n: Net, moves: seq<Move>, m: Net)
    decreases |moves|
  {
    if moves == [] then n == m
    else Possible(file, n, moves[0]) && Leads(file, Step(file, n, moves[0]), moves[1..], m)
  }

  /** The first `n` datagrams hold a block number `k`. */
  predicate Seen(input: seq<Packet>, n: nat, k: nat)
    requires n <= |input|
  {
    exists i :: 0 <= i < n && input[i].Data? && input[i].block == k
  }

  /** Datagram `i` is a block of the file, none of whose predecessors is missing before it; or it is ignored. */
  predicate InTurn(file: seq<byte>, input: seq<Packet>, i: nat)
    requires i < |input|
  {
    || input[i].Foreign?
    || (exists k :: 1 <= k <= Blocks(file) && k <= NUMBERS && input[i] == PacketOf(file, k)
                    && forall j :: 1 <= j < k ==> Seen(input, i, j))
  }

  predicate LockStep(file: seq<byte>, input: seq<Packet>)
  {
    forall i :: 0 <= i < |input| ==> InTurn(file, input, i)
  }

  /** The acknowledgement is the receiver's answer to a block that has been delivered. */
  predicate Answer(input: seq<Packet>, a: seq<byte>)
  {
    exists k :: 1 <= k <= MAX_BLOCK && a == AckBytes(k) && Seen(input, |input|, k)
  }

  ghost predicate NetInv(file: seq<byte>, n: Net)
  {
    && 1 <= n.current <= Blocks(file) && n.current <= NUMBERS
    && (forall k :: k in n.sent ==> 1 <= k <= n.current)
    && (forall a :: a in n.acks ==> Answer(n.delivered, a))
    && (forall k :: 1 <= k < n.current ==> Seen(n.delivered, |n.delivered|, k))
    && n.acks == AcksOf(n.delivered)
    && LockStep(file, n.delivered)
    && (forall i :: 0 <= i < |n.delivered| - 1 ==> !Ends(n.delivered[i]))
  }

  lemma SeenMore(input: seq<Packet>, d: Packet, n: nat, k: nat)
    requires n <= |input|
    ensures Seen(input + [d], n, k) <==> Seen(input, n, k)
    ensures Seen(input + [d], |input| + 1, k) <==> Seen(input, |input|, k) || (d.Data? && d.block == k)
  {
    var more := input + [d];
    if Seen(input, |input|, k) {
      var i :| 0 <= i < |input| && input[i].Data? && input[i].block == k;
      assert more[i] == input[i];
    }
    if Seen(input, n, k) {
      var i :| 0 <= i < n && input[i].Data? && input[i].block == k;
      assert more[i] == input[i];
    }
    assert more[|input|] == d;
  }

  lemma LockStepMore(file: seq<byte>, input: seq<Packet>, d: Packet)
    requires LockStep(file, input) && InTurn(file, input + [d], |input|)
    ensures LockStep(file, input + [d])
  {
    var more := input + [d];
    forall i | 0 <= i < |input| ensures InTurn(file, more, i) {
      assert InTurn(file, input, i);
      forall j: nat ensures Seen(more, i, j) <==> Seen(input, i, j) {
        SeenMore(input, d, i, j);
      }
    }
  }

  lemma AnswerMore(input: seq<Packet>, d: Packet, a: seq<byte>)
    requires Answer(input, a) || (d.Data? && 1 <= d.block && a == AckBytes(d.block))
    ensures Answer(input + [d], a)
  {
    var k :| 1 <= k <= MAX_BLOCK && a == AckBytes(k) && (Seen(input, |input|, k) || (d.Data? && d.block == k));
    SeenMore(input, d, |input|, k);
  }

  lemma ArrivalAnswered(input: seq<Packet>, acks: seq<seq<byte>>, d: Packet, a: seq<byte>)
    requires (forall b :: b in acks ==> Answer(input, b)) && a in acks + AckOf(d)
    ensures Answer(input + [d], a)
  {
    if d.Data? {
      PlacedIff(d.block, |d.data|);
    }
    hide Answer;
    AnswerMore(input, d, a);
  }

  /** A datagram arrives in turn: its predecessors did before, as the sender got to it. */
  lemma ArrivesInTurn(file: seq<byte>, n: Net, d: Packet)
    requires NetInv(file, n) && (d.Foreign? || exists k :: k in n.sent && d == PacketOf(file, k))
    ensures InTurn(file, n.delivered + [d], |n.delivered|)
  {
    var more := n.delivered + [d];
    forall k: nat ensures Seen(more, |n.delivered|, k) <==> Seen(n.delivered, |n.delivered|, k) {
      SeenMore(n.delivered, d, |n.delivered|, k);
    }
    hide Seen; hide LockStep; hide BlockOf; hide Blocks; hide AcksOf; hide Answer; hide Ends;
  }

  lemma ArrivalKeepsInv(file: seq<byte>, n: Net, d: Packet)
    requires NetInv(file, n) && !Over(n)
    requires d.Foreign? || exists k :: k in n.sent && d == PacketOf(file, k)
    ensures NetInv(file, Handed(n, d))
  {
    var more, n' := n.delivered + [d], Handed(n, d);
    AcksMore(n.delivered, d);
    ArrivesInTurn(file, n, d);
    LockStepMore(file, n.delivered, d);
    hide Seen; hide LockStep; hide BlockOf; hide Blocks; hide AckOf; hide AcksOf; hide Answer; hide InTurn;
      hide PacketOf;
    forall k | 1 <= k < n.current ensures Seen(more, |more|, k) {
      SeenMore(n.delivered, d, |n.delivered|, k);
    }
    forall a | a in n'.acks ensures Answer(more, a) {
      ArrivalAnswered(n.delivered, n.acks, d, a);
    }
  }

  lemma NumberOf(c: nat, k: nat)
    requires 1 <= c <= NUMBERS && 1 <= k <= MAX_BLOCK && c % NUMBERS == k
    ensures c == k
  {
  }

  /** The sender goes on only past a block that has been delivered. */
  lemma AckedIsSeen(input: seq<Packet>, a: seq<byte>, current: nat)
    requires Answer(input, a) && 1 <= current <= NUMBERS && AckedBlock(a) == Some(current % NUMBERS)
    ensures current <= MAX_BLOCK && Seen(input, |input|, current)
  {
    var k :| 1 <= k <= MAX_BLOCK && a == AckBytes(k) && Seen(input, |input|, k);
    AckRoundTrip(k);
    hide Seen; hide AckBytes; hide AckedBlock;
    NumberOf(current, k);
  }

  lemma AckKeepsInv(file: seq<byte>, n: Net, a: seq<byte>)
    requires NetInv(file, n) && a in n.acks
    ensures NetInv(file, Step(file, n, AckArrives(a)))
  {
    hide Seen; hide LockStep; hide Blocks; hide AcksOf; hide Answer; hide Ends; hide AckedBlock;
    if AckedBlock(a) == Some(n.current % NUMBERS) {
      AckedIsSeen(n.delivered, a, n.current);
    }
  }

  lemma StepKeepsInv(file: seq<byte>, n: Net, a: Move)
    requires NetInv(file, n) && Possible(file, n, a)
    ensures NetInv(file, Step(file, n, a))
  {
    hide LockStep; hide Over; hide Ends; hide Blocks; hide Seen; hide Answer; hide AcksOf; hide Handed;
    match a
    case Send(_) =>
    case Deliver(k) => ArrivalKeepsInv(file, n, PacketOf(file, k));
    case AckArrives(b) => AckKeepsInv(file, n, b);
    case Noise => ArrivalKeepsInv(file, n, Foreign);
  }

  lemma {:induction false} LeadsKeepsInv(file: seq<byte>, n: Net, moves: seq<Move>, m: Net)
    requires NetInv(file, n) && Leads(file, n, moves, m)
    ensures NetInv(file, m)
    decreases |moves|
  {
    if moves != [] {
      hide NetInv; hide Step;
      StepKeepsInv(file, n, moves[0]);
      LeadsKeepsInv(file, Step(file, n, moves[0]), moves[1..], m);
    }
  }

  // ----- Reassembly ---------------------------------------------------------------------------------------------

  /** The highest block number among these datagrams. */
  function Top(input: seq<Packet>): nat
    decreases |input|
  {
    if input == [] then 0
    else
      var before, d := Top(input[..|input| - 1]), input[|input| - 1];
      if d.Data? && d.block > before then d.block else before
  }

  lemma {:induction false} SeenBelowTop(input: seq<Packet>, k: nat)
    requires Seen(input, |input|, k)
    ensures k <= Top(input)
    decreases |input|
  {
    var rest, last := input[..|input| - 1], input[|input| - 1];
    assert input == rest + [last];
    SeenMore(rest, last, |rest|, k);
    if Seen(rest, |rest|, k) {
      SeenBelowTop(rest, k);
    }
  }

  /** The buffer holds the first `m` blocks of the file, and is at most half as large again. */
  predicate Holds(file: seq<byte>, buf: seq<byte>, m: nat)
  {
    && m <= Blocks(file) && EndOf(file, m) <= |buf| && buf[..EndOf(file, m)] == file[..EndOf(file, m)]
    && 2 * |buf| <= 3 * EndOf(file, m)
  }

  lemma BlockStored(file: seq<byte>, buf: seq<byte>, m: nat, k: nat, buf': seq<byte>)
    requires 1 <= k <= Blocks(file) && k <= MAX_BLOCK && k <= m + 1
    requires Holds(file, buf, m) && Accepts(buf, k, BlockOf(file, k), buf')
    ensures Holds(file, buf', if k > m then k else m)
  {
    PlacedIff(k, |BlockOf(file, k)|);
    var start, end := (k - 1) * 512, EndOf(file, k);
    var e := if k > m then end else EndOf(file, m);
    assert EndOf(file, m) >= start && end == start + |BlockOf(file, k)|;
    assert buf'[start..end] == file[start..end];
    assert forall i :: 0 <= i < |buf| && !(start <= i < end) ==> buf'[i] == buf[i];
    assert 2 * |buf'| <= 3 * e && e <= |buf'|;
    hide Grow; hide Start; hide Blocks; hide BlockOf; hide Accepts;
    forall i | 0 <= i < e ensures buf'[i] == file[i] {
      if start <= i < end {
        assert buf'[i] == buf'[start..end][i - start] == file[start..end][i - start];
      } else {
        assert buf'[i] == buf[i] && buf[..EndOf(file, m)][i] == file[..EndOf(file, m)][i];
      }
    }
  }

  /** After any lock-step deliveries, the buffer holds the file up to the highest block delivered. */
  lemma {:induction false} HoldsPrefix(file: seq<byte>, input: seq<Packet>, bufs: seq<seq<byte>>)
    requires LockStep(file, input) && History(bufs, input)
    ensures Holds(file, bufs[|input|], Top(input))
    decreases |input|
  {
    if input != [] {
      var n := |input| - 1;
      var rest := input[..n];
      assert LockStep(file, rest) && History(bufs[..n + 1], rest) by {
        Shorter(file, input);
        ShorterHistory(bufs, input);
      }
      HoldsPrefix(file, rest, bufs[..n + 1]);
      assert InTurn(file, input, n) && Handles(input[n], bufs[n], bufs[n + 1]);
      hide LockStep; hide History; hide Holds; hide Accepts; hide InTurn; hide Blocks; hide BlockOf;
      if !input[n].Foreign? {
        var k := BlockInTurn(file, input);
        BlockStored(file, bufs[n], Top(rest), k, bufs[n + 1]);
      }
    }
  }

  /** Which block of the file the last datagram holds, if its number is not 0. */
  lemma BlockInTurn(file: seq<byte>, input: seq<Packet>) returns (k: nat)
    requires input != [] && InTurn(file, input, |input| - 1)
    requires var d := input[|input| - 1]; d.Error? || (d.Data? && d.block >= 1)
    ensures 1 <= k <= Blocks(file) && k <= MAX_BLOCK && k <= Top(input[..|input| - 1]) + 1
    ensures input[|input| - 1] == Data(k, BlockOf(file, k))
  {
    hide Seen; hide Blocks; hide BlockOf;
    var n := |input| - 1;
    k :| 1 <= k <= Blocks(file) && k <= NUMBERS && input[n] == PacketOf(file, k)
         && forall j :: 1 <= j < k ==> Seen(input, n, j);
    NextInTurn(input, k);
  }

  /** The number of a block that arrives in turn is at most one above those before it. */
  lemma NextInTurn(input: seq<Packet>, k: nat)
    requires input != [] && k >= 1 && (k > 1 ==> Seen(input, |input| - 1, k - 1))
    ensures k <= Top(input[..|input| - 1]) + 1
  {
    var n := |input| - 1;
    var rest := input[..n];
    if k > 1 {
      assert rest + [input[n]] == input;
      SeenMore(rest, input[n], n, k - 1);
      SeenBelowTop(rest, k - 1);
    }
  }

  lemma Shorter(file: seq<byte>, input: seq<Packet>)
    requires LockStep(file, input) && input != []
    ensures LockStep(file, input[..|input| - 1])
  {
    var n := |input| - 1;
    var rest := input[..n];
    hide PacketOf;
    assert rest + [input[n]] == input;
    forall i | 0 <= i < n ensures InTurn(file, rest, i) {
      assert InTurn(file, input, i);
      forall j: nat ensures Seen(rest, i, j) <==> Seen(input, i, j) {
        SeenMore(rest, input[n], i, j);
      }
    }
  }

  lemma ShorterHistory(bufs: seq<seq<byte>>, input: seq<Packet>)
    requires History(bufs, input) && input != []
    ensures History(bufs[..|input|], input[..|input| - 1])
  {
    hide Handles; hide After;
  }

  // ----- Whole transfers ------------------------------------------------------------------------------------------

  /** A block that arrives in turn has the number 0 only in a file of too many blocks; and if it is the last block of a
      file that is not, it is short. */
  lemma LastOfFile(file: seq<byte>, n: Net, i: nat)
    requires NetInv(file, n) && i < |n.delivered| && Ends(n.delivered[i])
    ensures n.delivered[i].block == 0 <==> !Sendable(file)
    ensures Sendable(file) ==> n.delivered[i].block == Blocks(file)
  {
    assert InTurn(file, n.delivered, i);
    hide Seen;
  }

  /** What a datagram of a transfer leads to. */
  lemma Outcomes(file: seq<byte>, n: Net, i: nat, size: nat)
    requires NetInv(file, n) && i < |n.delivered|
    ensures After(n.delivered[i], size)
         == if !Ends(n.delivered[i]) then Waiting else if n.delivered[i].block == 0 then Astray else Returned(size)
    ensures i < |n.delivered| - 1 ==> !Ends(n.delivered[i])
  {
    assert InTurn(file, n.delivered, i);
    if n.delivered[i].Data? {
      PlacedIff(n.delivered[i].block, |n.delivered[i].data|);
    }
    hide Seen; hide Placed;
  }

  lemma WholeFile(file: seq<byte>, n: Net)
    requires NetInv(file, n) && Over(n) && Sendable(file)
    ensures Top(n.delivered) >= Blocks(file) && EndOf(file, Blocks(file)) == |file|
  {
    LastOfFile(file, n, |n.delivered| - 1);
  }

  lemma FileReceived(file: seq<byte>, n: Net, bufs: seq<seq<byte>>, buffer: seq<byte>)
    requires NetInv(file, n) && Over(n) && Sendable(file)
    requires History(bufs, n.delivered) && buffer == bufs[|n.delivered|]
    ensures file <= buffer && 2 * |buffer| <= 3 * |file|
  {
    hide LockStep; hide History; hide Blocks; hide AcksOf; hide Answer; hide Seen;
    HoldsPrefix(file, n.delivered, bufs);
    WholeFile(file, n);
  }

  /** Every file, every run of the sender over the network. The sender only ever reads the receiver's own bytes. Once
      the last datagram arrives, the receiver has returned if and only if the file has at most 65535 blocks: then the
      buffer starts with the file and is at most half as large again. Otherwise it is lost at block 65536, whose number
      is 0. Before that it waits. */
  method Transfer(file: seq<byte>, ghost moves: seq<Move>, n: Net)
    returns (outcome: Outcome, buffer: seq<byte>, acks: seq<seq<byte>>)
    requires Leads(file, IDLE, moves, n)
    ensures outcome
            == if !Over(n) then Waiting else if |file| / 512 + 1 <= 65535 then Returned(|buffer|) else Astray
    ensures Over(n) && |file| / 512 + 1 <= 65535 ==> file <= buffer && 2 * |buffer| <= 3 * |file|
    ensures acks == n.acks
  {
    assert NetInv(file, IDLE);
    LeadsKeepsInv(file, IDLE, moves, n);
    var receiver := new Receiver();
    var used;
    ghost var bufs;
    outcome, used, acks, bufs := receiver.Receive(n.delivered);
    buffer := receiver.buffer[..];
    assert LockStep(file, n.delivered) && n.acks == AcksOf(n.delivered);
    hide NetInv; hide LockStep; hide After; hide Ends; hide History; hide Leads; hide AcksOf; hide Blocks;
    if used > 0 {
      Outcomes(file, n, used - 1, |buffer|);
    }
    assert used == |n.delivered| && n.delivered[..used] == n.delivered;
    if Over(n) {
      LastOfFile(file, n, used - 1);
      if Sendable(file) {
        FileReceived(file, n, bufs, buffer);
      }
    }
  }

  lemma OneMove(file: seq<byte>, n: Net, a: Move, rest: seq<Move>, m: Net)
    requires Possible(file, n, a) && Leads(file, Step(file, n, a), rest, m)
    ensures Leads(file, n, [a] + rest, m)
  {
    assert ([a] + rest)[1..] == rest;
  }

  /** The sender's current block and the receiver's answer to it take the transfer one block on, or to its end. */
  lemma BlockOn(file: seq<byte>, n: Net) returns (moves: seq<Move>, m: Net)
    requires NetInv(file, n) && !Over(n)
    ensures Leads(file, n, moves, m) && NetInv(file, m)
    ensures Over(m) || m.current == n.current + 1
  {
    var k := n.current;
    var d := PacketOf(file, k);
    var a := Step(file, n, Send(k));
    var b := Step(file, a, Deliver(k));
    StepKeepsInv(file, n, Send(k));
    StepKeepsInv(file, a, Deliver(k));
    hide NetInv; hide Leads; hide BlockOf;
    assert Leads(file, b, [], b) by {
      NoMoves(file, b);
    }
    if Ends(d) {
      m := b;
      OneMove(file, a, Deliver(k), [], b);
      OneMove(file, n, Send(k), [Deliver(k)] + [], b);
      moves := [Send(k)] + ([Deliver(k)] + []);
    } else {
      var ack := AckBytes(d.block);
      PlacedIff(d.block, |d.data|);
      AckRoundTrip(d.block);
      assert ack in b.acks;
      m := Step(file, b, AckArrives(ack));
      StepKeepsInv(file, b, AckArrives(ack));
      assert Leads(file, m, [], m) by {
        NoMoves(file, m);
      }
      OneMove(file, b, AckArrives(ack), [], m);
      OneMove(file, a, Deliver(k), [AckArrives(ack)] + [], m);
      OneMove(file, n, Send(k), [Deliver(k)] + ([AckArrives(ack)] + []), m);
      moves := [Send(k)] + ([Deliver(k)] + ([AckArrives(ack)] + []));
    }
  }

  lemma NoMoves(file: seq<byte>, n: Net)
    ensures Leads(file, n, [], n)
  {
  }

  lemma {:induction false} LeadsOn(file: seq<byte>, n: Net, first: seq<Move>, m: Net, more: seq<Move>, u: Net)
    requires Leads(file, n, first, m) && Leads(file, m, more, u)
    ensures Leads(file, n, first + more, u)
    decreases |first|
  {
    if first == [] {
      assert first + more == more;
    } else {
      hide Step;
      assert (first + more)[1..] == first[1..] + more;
      LeadsOn(file, Step(file, n, first[0]), first[1..], m, more, u);
    }
  }

  /** From wherever a transfer stands, it can still be brought to its end: the whole file received, or lost at block
      65536 of a file that has as many. */
  lemma {:induction false} CanComplete(file: seq<byte>, n: Net) returns (moves: seq<Move>, m: Net)
    requires NetInv(file, n)
    ensures Leads(file, n, moves, m) && Over(m)
    decreases NUMBERS - n.current
  {
    if Over(n) {
      moves, m := [], n;
    } else {
      var first, u := BlockOn(file, n);
      if Over(u) {
        moves, m := first, u;
      } else {
        assert n.current < u.current <= NUMBERS;
        hide NetInv; hide Leads;
        var more;
        more, m := CanComplete(file, u);
        LeadsOn(file, n, first, u, more, m);
        moves := first + more;
      }
    }
  }

  /** All blocks have their place in the buffer exactly for files of at most 65535 blocks: the number of block 65536
      is 0. */
  lemma AllPlacedIff(file: seq<byte>)
    ensures Sendable(file) <==> forall k :: 1 <= k <= Blocks(file) ==> Placed(k % NUMBERS, |BlockOf(file, k)|)
  {
    hide Placed; hide BlockOf; hide Blocks;
    forall k | 1 <= k <= Blocks(file) ensures Placed(k % NUMBERS, |BlockOf(file, k)|) <==> k % NUMBERS >= 1 {
      PlacedIff(k % NUMBERS, |BlockOf(file, k)|);
    }
    if !Sendable(file) {
      assert NUMBERS % NUMBERS == 0 && 1 <= NUMBERS <= Blocks(file);
      assert !Placed(NUMBERS % NUMBERS, |BlockOf(file, NUMBERS)|);
    }
  }
}
