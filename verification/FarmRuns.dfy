/** What the work farm (patmos/c/cmp/mandelbrot_par.c) achieves over whole runs: every row is written exactly
    once with its own data, no message is read while it is being copied, and the farm can always finish. */
module FarmRuns {

  import opened Farm
  import opened FarmRoles
  import opened Products

  // ----- What is written -----------------------------------------------------------------------------

  predicate Written(out: seq<Line>, r: int)
  {
    exists k :: 0 <= k < |out| && out[k].row == r
  }

  predicate Distinct(out: seq<Line>)
  {
    forall j, k :: 0 <= j < k < |out| ==> out[j].row != out[k].row
  }

  /** Every line is a row of the picture with the data computed for that row. */
  predicate Genuine(c: Config, out: seq<Line>)
    requires Sound(c)
  {
    forall k :: 0 <= k < |out| ==> 0 <= out[k].row < Rows(c) && out[k].data == RowFor(c, out[k].row)
  }

  predicate InShare(c: Config, i: nat, r: int)
  {
    i < c.slaves && FirstRow(c, i) <= r < FirstRow(c, i + 1)
  }

  /** The rows of a share are written in order: exactly those before the lane's next one. */
  ghost predicate InOrder(c: Config, s: State)
    requires Sound(c) && Shape(c, s)
  {
    forall i: nat, r :: InShare(c, i, r) ==> (Written(s.out, r) <==> r < DueAt(c, s, i))
  }

  predicate Counted(s: State)
  {
    s.received == |s.out| + (if s.pc.ReadCmd? || s.pc.ReadData? then 1 else 0)
  }

  ghost predicate OutInv(c: Config, s: State)
    requires Sound(c) && Shape(c, s)
  {
    Counted(s) && Distinct(s.out) && Genuine(c, s.out) && InOrder(c, s)
  }

  ghost predicate Inv(c: Config, s: State)
    requires Sound(c)
  {
    Shape(c, s) && LanesInv(c, s) && OutInv(c, s)
  }

  // ----- Counting rows -----------------------------------------------------------------------------------

  function RowSet(out: seq<Line>): set<int>
    decreases |out|
  {
    if out == [] then {} else RowSet(out[..|out| - 1]) + {out[|out| - 1].row}
  }

  lemma {:induction false} RowSetFacts(out: seq<Line>)
    ensures forall r :: r in RowSet(out) <==> Written(out, r)
    ensures Distinct(out) ==> |RowSet(out)| == |out|
    decreases |out|
  {
    if out != [] {
      var rest, last := out[..|out| - 1], out[|out| - 1];
      RowSetFacts(rest);
      assert out == rest + [last];
      WrittenMore(rest, last);
      if Distinct(out) {
        assert forall k :: 0 <= k < |rest| ==> rest[k] == out[k];
        assert !Written(rest, last.row);
      }
    }
  }

  lemma {:induction false} SizeBelow(a: set<int>, n: nat)
    requires forall r :: r in a ==> 0 <= r < n
    ensures |a| <= n && (|a| == n <==> forall r :: 0 <= r < n ==> r in a)
  {
    if n == 0 {
      assert a == {};
    } else {
      SizeBelow(a - {n - 1}, n - 1);
      if n - 1 in a {
        assert forall r :: 0 <= r < n ==> r == n - 1 || (r in a <==> r in a - {n - 1});
      } else {
        assert a == a - {n - 1};
      }
    }
  }

  /** Distinct rows of a picture of `n` rows: never more than `n`, and all of them exactly when there are `n`. */
  lemma AllWrittenIff(out: seq<Line>, n: nat)
    requires Distinct(out) && forall k :: 0 <= k < |out| ==> 0 <= out[k].row < n
    ensures |out| <= n
    ensures |out| == n <==> forall r :: 0 <= r < n ==> Written(out, r)
  {
    RowSetFacts(out);
    SizeBelow(RowSet(out), n);
  }

  /** Shares do not overlap. */
  lemma SharesApart(c: Config, i: nat, j: nat, r: int)
    requires InShare(c, i, r) && InShare(c, j, r)
    ensures i == j
  {
    if i < j {
      MulBound(i + 1, c.share, j, c.share);
    } else if j < i {
      MulBound(j + 1, c.share, i, c.share);
    }
  }

  /** Every row is in somebody's share. */
  lemma {:induction false} ShareOf(c: Config, r: int, n: nat) returns (i: nat)
    requires 0 <= r < FirstRow(c, n) && n <= c.slaves
    ensures InShare(c, i, r)
  {
    if r >= FirstRow(c, n - 1) {
      i := n - 1;
    } else {
      i := ShareOf(c, r, n - 1);
    }
  }

  // ----- Every step keeps it all ------------------------------------------------------------------------------

  /** When the main loop ends, every lane has delivered its whole share. */
  lemma LeavesDone(c: Config, s: State, i: nat)
    requires Sound(c) && Inv(c, s) && Leaves(c, s) && i < c.slaves
    ensures DueAt(c, s, i) >= FirstRow(c, i + 1)
  {
    hide LanesInv; hide DueAt; hide Shape; hide FirstRow; hide RowFor;
    ShareFacts(c, i);
    AllWrittenIff(s.out, Rows(c));
    var r := FirstRow(c, i + 1) - 1;
    assert InShare(c, i, r) && Written(s.out, r);
  }

  lemma SlaveKeepsInv(c: Config, s: State, j: nat)
    requires Sound(c) && Inv(c, s) && j < c.slaves
    ensures Inv(c, Step(c, s, SlaveMoves(j)))
  {
    SlaveKeepsLanes(c, s, j);
    hide LanesInv; hide DueAt; hide Shape; hide SlaveStep; hide RowFor; hide FirstRow; hide Written; hide Distinct;
  }

  /** The line a master's step writes, if any. */
  function NewLines(c: Config, s: State): seq<Line>
  {
    if s.pc.ReadData? && s.pc.k == c.words then [Line(s.cmd, s.buf)] else []
  }

  lemma MasterWrites(c: Config, s: State)
    requires Sound(c) && Shape(c, s) && LanesInv(c, s)
    ensures MasterStep(c, s).out == s.out + NewLines(c, s)
    ensures Counted(s) ==> Counted(MasterStep(c, s))
  {
    hide PacketFor; hide FirstRow; hide Rows;
  }

  /** The line written is the whole row the slave computed for the packet it was sent. */
  lemma ReadWhole(c: Config, s: State)
    requires Sound(c) && Shape(c, s) && LanesInv(c, s) && s.pc.ReadData? && s.pc.k == c.words
    ensures s.cmd == DueAt(c, s, s.pc.i) && s.buf == RowFor(c, s.cmd)
    ensures InShare(c, s.pc.i, s.cmd) && 0 <= s.cmd < Rows(c)
  {
    var l := s.lanes[s.pc.i];
    assert LaneOk(c, s, s.pc.i);
    ShareFacts(c, s.pc.i);
    hide RowFor; hide FirstRow; hide Rows;
    assert s.buf[..c.words] == s.buf;
  }

  /** The step's effect on the lanes: the invariant, and the next row to write of each. */
  lemma MasterKeepsLanes(c: Config, s: State)
    requires Sound(c) && Inv(c, s)
    ensures Shape(c, MasterStep(c, s)) && LanesInv(c, MasterStep(c, s))
    ensures forall i :: 0 <= i < c.slaves ==>
              DueAt(c, MasterStep(c, s), i) == DueAt(c, s, i) + (if NewLines(c, s) != [] && s.pc.i == i then 1 else 0)
  {
    var s' := MasterStep(c, s);
    hide MasterStep; hide LaneOk; hide Shape; hide RowFor; hide FirstRow; hide DueAt; hide OutInv;
    forall i | 0 <= i < c.slaves ensures Kept(c, s, i) {
      if Leaves(c, s) {
        LeavesDone(c, s, i);
      }
      MasterKeepsLane(c, s, i);
    }
    assert Kept(c, s, 0);
    forall i | 0 <= i < c.slaves ensures LaneOk(c, s', i) {
      assert Kept(c, s, i);
    }
    forall i | 0 <= i < c.slaves
      ensures DueAt(c, s', i) == DueAt(c, s, i) + (if NewLines(c, s) != [] && s.pc.i == i then 1 else 0)
    {
      assert Kept(c, s, i);
    }
  }

  lemma MasterKeepsInv(c: Config, s: State)
    requires Sound(c) && Inv(c, s)
    ensures Inv(c, MasterStep(c, s))
  {
    var s' := MasterStep(c, s);
    MasterKeepsLanes(c, s);
    MasterWrites(c, s);
    if s.pc.ReadData? && s.pc.k == c.words {
      ReadWhole(c, s);
      WrittenMore(s.out, Line(s.cmd, s.buf));
      hide LanesInv; hide MasterStep; hide Shape; hide RowFor; hide FirstRow; hide DueAt; hide Rows; hide Written;
      forall i: nat, r | InShare(c, i, r) ensures Written(s'.out, r) <==> r < DueAt(c, s', i) {
        if i != s.pc.i && r == s.cmd {
          SharesApart(c, i, s.pc.i, r);
        }
      }
    } else {
      hide LanesInv; hide MasterStep; hide Shape; hide RowFor; hide FirstRow; hide DueAt; hide Rows; hide Written;
      assert s'.out == s.out;
    }
  }

  lemma WrittenMore(out: seq<Line>, line: Line)
    ensures forall r :: Written(out + [line], r) <==> Written(out, r) || r == line.row
    ensures Distinct(out) && !Written(out, line.row) ==> Distinct(out + [line])
  {
    forall r ensures Written(out + [line], r) <==> Written(out, r) || r == line.row {
      if Written(out, r) {
        var k :| 0 <= k < |out| && out[k].row == r;
        assert (out + [line])[k].row == r;
      }
      assert (out + [line])[|out|] == line;
    }
  }

  lemma StepKeepsInv(c: Config, s: State, a: Move)
    requires Sound(c) && Inv(c, s) && Possible(c, a)
    ensures Inv(c, Step(c, s, a))
  {
    hide Inv; hide MasterStep; hide SlaveStep;
    if a.MasterMoves? {
      MasterKeepsInv(c, s);
    } else {
      SlaveKeepsInv(c, s, a.i);
    }
  }

  lemma StartInv(c: Config, s: State)
    requires Sound(c) && Start(c, s)
    ensures Inv(c, s)
  {
    forall i: nat, r | InShare(c, i, r) ensures Written(s.out, r) <==> r < DueAt(c, s, i) {
    }
  }

  /** The moves lead from `s` to `t`. */
  ghost predicate Leads(c: Config, s: State, moves: seq<Move>, t: State)
    requires Sound(c)
    decreases |moves|
  {
    if moves == [] then s == t
    else Shape(c, s) && Possible(c, moves[0]) && Leads(c, Step(c, s, moves[0]), moves[1..], t)
  }

  lemma {:induction false} LeadsKeepsInv(c: Config, s: State, moves: seq<Move>, t: State)
    requires Sound(c) && Inv(c, s) && Leads(c, s, moves, t)
    ensures Inv(c, t)
    decreases |moves|
  {
    if moves != [] {
      hide Inv; hide Step;
      StepKeepsInv(c, s, moves[0]);
      LeadsKeepsInv(c, Step(c, s, moves[0]), moves[1..], t);
    }
  }

  lemma {:induction false} LeadsOn(c: Config, s: State, first: seq<Move>, t: State, more: seq<Move>, u: State)
    requires Sound(c) && Leads(c, s, first, t) && Leads(c, t, more, u)
    ensures Leads(c, s, first + more, u)
    decreases |first|
  {
    if first == [] {
      assert first + more == more;
    } else {
      hide Step;
      assert (first + more)[1..] == first[1..] + more;
      LeadsOn(c, Step(c, s, first[0]), first[1..], t, more, u);
    }
  }

  /** The states the farm can be in. */
  ghost predicate Reachable(c: Config, t: State)
    requires Sound(c)
  {
    exists s, moves :: Start(c, s) && Leads(c, s, moves, t)
  }

  lemma ReachableInv(c: Config, t: State)
    requires Sound(c) && Reachable(c, t)
    ensures Inv(c, t)
  {
    hide Start; hide Inv;
    var s, moves :| Start(c, s) && Leads(c, s, moves, t);
    StartInv(c, s);
    LeadsKeepsInv(c, s, moves, t);
  }

  // ----- Exactly once -----------------------------------------------------------------------------------------

  /** The master has left its main loop. */
  predicate Received(pc: MasterPc)
  {
    pc.Stop? || pc.StopDma? || pc.Done?
  }

  lemma InvMeansOnce(c: Config, s: State)
    requires Sound(c) && Inv(c, s)
    ensures Distinct(s.out) && Genuine(c, s.out) && Counted(s) && |s.out| <= Rows(c)
    ensures Received(s.pc) ==> |s.out| == Rows(c) == s.received && forall r :: 0 <= r < Rows(c) ==> Written(s.out, r)
  {
    AllWrittenIff(s.out, Rows(c));
    if Received(s.pc) {
      forall r | 0 <= r < Rows(c) ensures Written(s.out, r) {
        var i := ShareOf(c, r, c.slaves);
        assert LaneOk(c, s, i);
      }
    }
  }

  /** At any time the lines written are distinct rows, each with its own data, and the counter tells how many;
      once the main loop ends, that is every row of the picture exactly once. */
  lemma EveryRowOnce(c: Config, s: State)
    requires Sound(c) && Reachable(c, s)
    ensures Distinct(s.out) && Genuine(c, s.out) && Counted(s) && |s.out| <= Rows(c)
    ensures Received(s.pc) ==> |s.out| == Rows(c) == s.received && forall r :: 0 <= r < Rows(c) ==> Written(s.out, r)
  {
    ReachableInv(c, s);
    InvMeansOnce(c, s);
  }

  // ----- Messages are read whole ------------------------------------------------------------------------------

  /** The master is copying words of a packet to slave `i`, and its command word has not arrived. */
  predicate Copying(pc: MasterPc, i: nat)
  {
    || (pc.GreetDma? && pc.i == i && pc.w <= CMD)
    || (pc.FirstDma? && pc.i == i && pc.w <= CMD)
    || (pc.NextDma? && pc.i == i && pc.w <= CMD)
    || (pc.StopDma? && pc.i == i && pc.w <= CMD)
  }

  /** The slave is copying words of its row to the master, and the command word has not arrived. */
  predicate CopyingBack(c: Config, pc: SlavePc)
  {
    (pc.AnswerDma? && pc.w <= c.words) || (pc.RowDma? && pc.w <= c.words)
  }

  /** No reader looks at a message while its words are being copied, neither side's; a slave answers the start
      packet and computes from the whole packet of the row it is due to deliver, and what the master takes is the whole
      row. */
  lemma MessagesWhole(c: Config, s: State, i: nat)
    requires Sound(c) && Reachable(c, s) && i < c.slaves
    ensures Shape(c, s)
    ensures s.lanes[i].pc.Answer? ==> s.lanes[i].sPacket[4] == -3
    ensures s.lanes[i].pc.ReadPacket? || s.lanes[i].pc.ClearPacket? ==> !Copying(s.pc, i)
    ensures s.lanes[i].pc.Compute? ==> s.lanes[i].p == PacketFor(c, DueAt(c, s, i))
    ensures s.pc == ReadCmd(i) || (s.pc.ReadData? && s.pc.i == i) || s.pc == ClearRow(i)
        ==> !CopyingBack(c, s.lanes[i].pc)
    ensures s.pc.ReadData? && s.pc.i == i && s.pc.k == c.words ==> s.buf == RowFor(c, s.cmd) && s.cmd == DueAt(c, s, i)
  {
    ReachableInv(c, s);
    assert LaneOk(c, s, i);
    if s.pc.ReadData? && s.pc.i == i && s.pc.k == c.words {
      ReadWhole(c, s);
    }
    if s.lanes[i].pc.Compute? {
      assert s.lanes[i].mode.Busy?;
    }
    hide RowFor; hide FirstRow; hide Computed; hide OutInv;
  }

  predicate InLoop(pc: MasterPc)
  {
    pc.Poll? || pc.ReadCmd? || pc.ReadData? || pc.ClearRow? || pc.Next? || pc.NextDma?
  }

  /** A slave never has more than one packet that is not answered, and none when it is sent the next one. */
  lemma OneUnanswered(c: Config, s: State, i: nat)
    requires Sound(c) && Reachable(c, s) && i < c.slaves && InLoop(s.pc)
    ensures Shape(c, s) && DueAt(c, s, i) <= s.row[i] <= DueAt(c, s, i) + 1
    ensures Copying(s.pc, i) ==> DueAt(c, s, i) == s.row[i]
  {
    ReachableInv(c, s);
    assert LaneOk(c, s, i);
    hide LaneInv; hide FirstRow; hide OutInv; hide PacketFor;
  }

  // ----- The farm can always finish ------------------------------------------------------------------------------

  predicate Spinning(c: Config, l: Lane)
    requires LaneShape(c, l)
  {
    SlaveStep(c, l) == l
  }

  /** Steps the slave takes from waiting for a packet until it waits for another. */
  function AwaitLeft(c: Config, cmd: int): nat
  {
    if cmd == CMD_STOP then 1 else if cmd <= CMD_NULL then 0 else c.words + 13
  }

  /** Steps the slave takes on its own. */
  function SlaveLeft(c: Config, l: Lane): int
    requires LaneShape(c, l)
  {
    var later := AwaitLeft(c, l.sPacket[CMD]);
    match l.pc
    case AwaitGreet => if l.sPacket[CMD] == CMD_START then c.words + 5 else 0
    case Answer => c.words + 4 + later
    case AnswerDma(w) => c.words + 3 - w + later
    case AwaitPacket => later
    case ReadPacket(w) => c.words + 12 - w
    case ClearPacket => c.words + 6
    case Compute => c.words + 5 + later
    case SetCmd => c.words + 4 + later
    case RowDma(w) => c.words + 3 - w + later
    case Finished => 0
  }

  lemma BusyGetsOn(c: Config, l: Lane, r: int)
    requires Sound(c) && LaneShape(c, l) && BusyInv(c, l, r)
    ensures LaneShape(c, SlaveStep(c, l)) && 0 <= SlaveLeft(c, SlaveStep(c, l)) < SlaveLeft(c, l)
  {
    hide Computed; hide RowFor;
    SlaveKeepsShape(c, l);
    var packet := PacketFor(c, r);
    assert packet[CMD] == r;
    assert l.sPacket[..CMD + 1] == packet ==> l.sPacket[CMD] == l.sPacket[..CMD + 1][CMD];
    hide PacketFor;
  }

  lemma SlaveGetsOn(c: Config, l: Lane)
    requires Sound(c) && LaneShape(c, l) && LaneInv(c, l) && !Spinning(c, l)
    ensures LaneShape(c, SlaveStep(c, l)) && 0 <= SlaveLeft(c, SlaveStep(c, l)) < SlaveLeft(c, l)
  {
    if l.mode.Busy? {
      hide SlaveLeft; hide SlaveStep; hide BusyInv;
      BusyGetsOn(c, l, l.mode.r);
    } else {
      hide Computed; hide PacketFor; hide RowFor; hide BusyInv;
      SlaveKeepsShape(c, l);
    }
  }

  predicate SameMaster(s: State, t: State)
  {
    s.pc == t.pc && s.row == t.row && s.received == t.received && s.cmd == t.cmd && s.buf == t.buf && s.out == t.out
  }

  /** Slave `i` runs until it has to wait. */
  lemma {:induction false} SettleLane(c: Config, s: State, i: nat) returns (moves: seq<Move>, t: State)
    requires Sound(c) && Inv(c, s) && i < c.slaves
    ensures Leads(c, s, moves, t) && Inv(c, t) && SameMaster(s, t) && Spinning(c, t.lanes[i])
    ensures forall j :: 0 <= j < c.slaves && j != i ==> t.lanes[j] == s.lanes[j]
    decreases SlaveLeft(c, s.lanes[i])
  {
    if Spinning(c, s.lanes[i]) {
      moves, t := [], s;
    } else {
      assert LaneOk(c, s, i);
      SlaveGetsOn(c, s.lanes[i]);
      StepKeepsInv(c, s, SlaveMoves(i));
      hide SlaveStep; hide SlaveLeft; hide LanesInv; hide OutInv;
      var s' := Step(c, s, SlaveMoves(i));
      var more;
      more, t := SettleLane(c, s', i);
      moves := [SlaveMoves(i)] + more;
      assert moves[1..] == more;
    }
  }

  /** All slaves run until they have to wait. */
  lemma {:induction false} Settle(c: Config, s: State, n: nat) returns (moves: seq<Move>, t: State)
    requires Sound(c) && Inv(c, s) && n <= c.slaves
    ensures Leads(c, s, moves, t) && Inv(c, t) && SameMaster(s, t)
    ensures forall i :: 0 <= i < n ==> Spinning(c, t.lanes[i])
  {
    if n == 0 {
      moves, t := [], s;
    } else {
      hide SlaveStep; hide LanesInv; hide OutInv; hide Spinning;
      var first, u := Settle(c, s, n - 1);
      var more;
      more, t := SettleLane(c, u, n - 1);
      LeadsOn(c, s, first, u, more, t);
      moves := first + more;
    }
  }

  predicate Settled(c: Config, s: State)
    requires Shape(c, s)
  {
    forall i :: 0 <= i < c.slaves ==> Spinning(c, s.lanes[i])
  }

  // How far the master is: its phase, the rows to come, where it is within one row, whether a row waits ahead.

  function Phase(pc: MasterPc): nat
  {
    match pc
    case ClearResponse(_) => 7
    case Greet(_) => 6
    case GreetDma(_, _) => 6
    case AwaitStart(_) => 5
    case ResetResponse(_) => 4
    case First(_) => 3
    case FirstDma(_, _) => 3
    case Stop(_) => 1
    case StopDma(_, _) => 1
    case Done => 0
    case _ => 2
  }

  function Stage(pc: MasterPc): nat
  {
    match pc
    case ClearRow(_) => 5
    case Next(_) => 4
    case NextDma(_, _) => 3
    case Poll(_) => 2
    case ReadCmd(_) => 1
    case _ => 0
  }

  /** No row waits in the lanes the master still has to look at in this sweep. */
  predicate NothingAhead(c: Config, s: State)
    requires Shape(c, s)
  {
    s.pc.Poll? && forall i :: s.pc.i <= i < c.slaves ==> s.lanes[i].mRow[c.words] == CMD_NULL
  }

  function Within(c: Config, pc: MasterPc): int
  {
    match pc
    case ClearResponse(i) => c.slaves - i
    case Greet(i) => 8 * (c.slaves - i) + 7
    case GreetDma(i, w) => 8 * (c.slaves - i) + 6 - w
    case AwaitStart(i) => c.slaves - i
    case ResetResponse(i) => c.slaves - i
    case First(i) => 8 * (c.slaves - i) + 7
    case FirstDma(i, w) => 8 * (c.slaves - i) + 6 - w
    case Poll(i) => c.slaves - i
    case ReadCmd(_) => 0
    case ReadData(_, k) => c.words - k
    case ClearRow(_) => 0
    case Next(_) => 0
    case NextDma(_, w) => 6 - w
    case Stop(i) => 8 * (c.slaves - i) + 7
    case StopDma(i, w) => 8 * (c.slaves - i) + 6 - w
    case Done => 0
  }

  /** When every slave waits and rows are still to come, one of them waits in the master's buffers. */
  lemma RowWaits(c: Config, s: State)
    requires Sound(c) && Inv(c, s) && Settled(c, s) && s.pc == Poll(c.slaves) && s.received < Rows(c)
    ensures exists i :: 0 <= i < c.slaves && s.lanes[i].mRow[c.words] != CMD_NULL
  {
    if forall i :: 0 <= i < c.slaves ==> s.lanes[i].mRow[c.words] == CMD_NULL {
      forall r | 0 <= r < Rows(c) ensures Written(s.out, r) {
        var i := ShareOf(c, r, c.slaves);
        assert LaneOk(c, s, i);
        SettledPoll(c, s, i);
      }
      AllWrittenIff(s.out, Rows(c));
    }
  }

  /** A lane whose slave waits, with no row in the master's buffer, has delivered its share. */
  lemma SettledPoll(c: Config, s: State, i: nat)
    requires Sound(c) && Shape(c, s) && i < c.slaves && s.pc.Poll? && LaneOk(c, s, i)
    requires Spinning(c, s.lanes[i]) && s.lanes[i].mRow[c.words] == CMD_NULL
    ensures DueAt(c, s, i) == FirstRow(c, i + 1)
  {
    var l := s.lanes[i];
    if l.mode.Busy? {
      BusyGetsOn(c, l, l.mode.r);
    }
    hide BusyInv; hide SlaveStep; hide PacketFor; hide FirstRow; hide Computed;
  }

  /** A slave that has been greeted does not wait. */
  lemma GreetedMoves(c: Config, l: Lane)
    requires Sound(c) && LaneShape(c, l) && LaneInv(c, l) && l.mode.Greeted?
    ensures !Spinning(c, l)
  {
    hide BusyInv; hide Computed; hide PacketFor;
  }

  /** The master is nearer to its end, apart from what waits in the lanes. */
  predicate Nearer(c: Config, s: State, t: State)
  {
    || Phase(t.pc) < Phase(s.pc)
    || (Phase(t.pc) == Phase(s.pc) && |t.out| > |s.out|)
    || (Phase(t.pc) == Phase(s.pc) && |t.out| == |s.out| && Stage(t.pc) < Stage(s.pc))
    || (Phase(t.pc) == Phase(s.pc) && |t.out| == |s.out| && Stage(t.pc) == Stage(s.pc) && !s.pc.Poll?
      && Within(c, t.pc) < Within(c, s.pc))
  }

  lemma MasterGetsOn(c: Config, s: State)
    requires Sound(c) && Inv(c, s) && Settled(c, s) && !s.pc.Done? && !s.pc.Poll?
    ensures Nearer(c, s, MasterStep(c, s))
  {
    assert LanesInv(c, s);
    if s.pc.AwaitStart? && s.pc.i < c.slaves {
      assert LaneOk(c, s, s.pc.i) && Spinning(c, s.lanes[s.pc.i]);
      if s.lanes[s.pc.i].mode.Greeted? {
        GreetedMoves(c, s.lanes[s.pc.i]);
      }
    }
    hide Settled; hide RowFor; hide PacketFor; hide FirstRow; hide Rows; hide OutInv; hide BusyInv;
  }

  /** The master polls on until it takes a row or leaves the loop. */
  lemma {:induction false} PollOn(c: Config, s: State, swept: bool) returns (moves: seq<Move>, t: State)
    requires Sound(c) && Inv(c, s) && Settled(c, s) && s.pc.Poll?
    requires swept ==> !NothingAhead(c, s)
    ensures Leads(c, s, moves, t) && Inv(c, t) && Nearer(c, s, t)
    decreases !swept, c.slaves - s.pc.i
  {
    var u := MasterStep(c, s);
    MasterKeepsInv(c, s);
    assert Leads(c, s, [MasterMoves], u);
    if u.pc.Poll? {
      if s.pc == Poll(c.slaves) {
        RowWaits(c, s);
      }
      hide LanesInv; hide OutInv; hide Spinning;
      var more;
      more, t := PollOn(c, u, swept || s.pc == Poll(c.slaves));
      LeadsOn(c, s, [MasterMoves], u, more, t);
      moves := [MasterMoves] + more;
    } else {
      moves, t := [MasterMoves], u;
    }
  }

  /** From any state the farm can be in, it can still go on to the end, where the master has sent every stop
      packet and every slave has taken it: it never comes to a deadlock before. */
  lemma {:induction false} GetsOn(c: Config, s: State) returns (moves: seq<Move>, t: State)
    requires Sound(c) && Inv(c, s)
    ensures Leads(c, s, moves, t) && Inv(c, t) && t.pc.Done?
    ensures forall i :: 0 <= i < c.slaves ==> t.lanes[i].pc.Finished?
    decreases Phase(s.pc), Rows(c) - |s.out|, Stage(s.pc), Within(c, s.pc)
  {
    hide LanesInv; hide OutInv; hide Spinning;
    var first, u := Settle(c, s, c.slaves);
    if u.pc.Done? {
      moves, t := first, u;
      forall i | 0 <= i < c.slaves ensures t.lanes[i].pc.Finished? {
        StoppedFinishes(c, t, i);
      }
    } else {
      var next, v;
      if u.pc.Poll? {
        next, v := PollOn(c, u, false);
      } else {
        next, v := [MasterMoves], MasterStep(c, u);
        MasterKeepsInv(c, u);
        MasterGetsOn(c, u);
        assert Leads(c, u, [MasterMoves], v);
      }
      var rest;
      OutBound(c, s);
      OutBound(c, v);
      rest, t := GetsOn(c, v);
      LeadsOn(c, s, first, u, next, v);
      LeadsOn(c, s, first + next, v, rest, t);
      moves := first + next + rest;
    }
  }

  lemma OutBound(c: Config, s: State)
    requires Sound(c) && Inv(c, s)
    ensures |s.out| <= Rows(c) && 0 <= Within(c, s.pc)
  {
    AllWrittenIff(s.out, Rows(c));
  }

  lemma StoppedFinishes(c: Config, s: State, i: nat)
    requires Sound(c) && Inv(c, s) && s.pc.Done? && i < c.slaves && Spinning(c, s.lanes[i])
    ensures s.lanes[i].pc.Finished?
  {
    assert LaneOk(c, s, i);
    hide OutInv; hide BusyInv; hide Computed; hide PacketFor;
  }

  lemma CanFinish(c: Config, s: State)
    requires Sound(c) && Reachable(c, s)
    ensures exists moves, t ::
              && Leads(c, s, moves, t) && Reachable(c, t) && Shape(c, t)
              && t.pc.Done? && forall i :: 0 <= i < c.slaves ==> t.lanes[i].pc.Finished?
  {
    hide Start; hide OutInv; hide LanesInv;
    ReachableInv(c, s);
    var moves, t := GetsOn(c, s);
    var s0, before :| Start(c, s0) && Leads(c, s0, before, s);
    LeadsOn(c, s0, before, s, moves, t);
  }
}
