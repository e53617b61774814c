/** What the work farm's master knows about each lane (patmos/c/cmp/mandelbrot_par.c): its program counter
    gives every lane a role, and every step of either side keeps every lane in the role it has. */
module FarmRoles {

  import opened Farm
  import opened Products

  /** The part a lane plays while the master is at a given point of its program. */
  datatype Role =
    | Untouched | Cleared | Greeting(w: nat) | Answering | Ready
    | Waiting(r: int)                                  // the next packet of the lane is for row r
    | Sending(r: int, w: nat)                          // w words of the packet for row r have arrived
    | InWork(r: int)                                   // the packet for row r has arrived
    | Worker(r: int, last: bool)                       // row r was the last one sent; its share may be done
    | Arrived(r: int)                                  // the row came back and is still in the master's buffer
    | Reading(r: int, k: nat, cmd: int, buf: seq<int>) // k of its data words have been copied out
    | Taken(r: int)                                    // the row is written
    | Stopping(r: int, w: nat) | Halted(r: int)

  function RoleAt(c: Config, s: State, i: nat): Role
    requires i < |s.row|
  {
    var row, first, end := s.row[i], FirstRow(c, i), FirstRow(c, i + 1);
    var worker := Worker(row - 1, row == end);
    match s.pc
    case ClearResponse(k) => if i < k then Cleared else Untouched
    case Greet(k) => if i < k then Answering else Cleared
    case GreetDma(k, w) => if i < k then Answering else if i == k then Greeting(w) else Cleared
    case AwaitStart(k) => if i < k then Ready else Answering
    case ResetResponse(k) => if i < k then Waiting(first) else Ready
    case First(k) => if i < k then InWork(first) else Waiting(first)
    case FirstDma(k, w) => if i < k then InWork(first) else if i == k then Sending(first, w) else Waiting(first)
    case Poll(_) => worker
    case ReadCmd(k) => if i == k then Arrived(row - 1) else worker
    case ReadData(k, x) => if i == k then Reading(row - 1, x, s.cmd, s.buf) else worker
    case ClearRow(k) => if i == k then Taken(row - 1) else worker
    case Next(k) => if i == k then Waiting(row) else worker
    case NextDma(k, w) => if i == k then Sending(row, w) else worker
    case Stop(k) => if i < k then Halted(end) else Waiting(end)
    case StopDma(k, w) => if i < k then Halted(end) else if i == k then Stopping(end, w) else Waiting(end)
    case Done => Halted(end)
  }

  predicate Outstanding(m: Mode, r: int)
  {
    m == Busy(r) || m == Delivered(r)
  }

  /** The lane `l` fits its role. */
  predicate Fits(c: Config, l: Lane, role: Role)
    requires Sound(c) && LaneShape(c, l)
  {
    match role
    case Untouched => l.mode.Fresh?
    case Cleared => l.mode.Fresh? && l.mRow[c.words] == CMD_STOP
    case Greeting(w) =>
      && w <= PACKET && l.mPacket[CMD] == CMD_START
      && (if w <= CMD then l.mode.Fresh? && l.mRow[c.words] == CMD_STOP else l.mode.Greeted? || l.mode.Started?)
    case Answering => l.mode.Greeted? || l.mode.Started?
    case Ready => l.mode.Started?
    case Waiting(_) => l.mode.Idle?
    case Sending(r, w) =>
      && w <= PACKET && r >= 0 && l.mPacket[..CMD + 1] == PacketFor(c, r)
      && (if w <= CMD then l.mode.Idle? && l.sPacket[..w] == l.mPacket[..w] else Outstanding(l.mode, r))
    case InWork(r) => Outstanding(l.mode, r)
    case Worker(r, last) => Outstanding(l.mode, r) || (last && l.mode.Idle?)
    case Arrived(r) => l.mode == Delivered(r)
    case Reading(r, k, cmd, buf) =>
      && l.mode == Delivered(r) && cmd == r && k <= c.words && |buf| == c.words
      && buf[..k] == l.mRow[..k]
    case Taken(r) => l.mode == Delivered(r)
    case Stopping(_, w) =>
      && w <= PACKET && l.mPacket[CMD] == CMD_STOP
      && (if w <= CMD then l.mode.Idle? else l.mode.Stopped?)
    case Halted(_) => l.mode.Stopped?
  }

  /** The lane's row counter: inside its share once its first packet is sent. */
  predicate RowOk(c: Config, pc: MasterPc, row: int, i: nat)
  {
    match pc
    case First(k) => i < k ==> row == FirstRow(c, i) + 1
    case FirstDma(k, _) => (i < k ==> row == FirstRow(c, i) + 1) && (i == k ==> row == FirstRow(c, i))
    case Poll(_) => FirstRow(c, i) < row <= FirstRow(c, i + 1)
    case ReadCmd(_) => FirstRow(c, i) < row <= FirstRow(c, i + 1)
    case ReadData(_, _) => FirstRow(c, i) < row <= FirstRow(c, i + 1)
    case ClearRow(_) => FirstRow(c, i) < row <= FirstRow(c, i + 1)
    case Next(_) => FirstRow(c, i) < row <= FirstRow(c, i + 1)
    case NextDma(k, _) => FirstRow(c, i) < row <= FirstRow(c, i + 1) && (i == k ==> row < FirstRow(c, i + 1))
    case _ => true
  }

  predicate PcBounds(c: Config, pc: MasterPc)
  {
    match pc
    case ClearResponse(i) => i <= c.slaves
    case Greet(i) => i <= c.slaves
    case GreetDma(i, w) => i < c.slaves && w <= PACKET
    case AwaitStart(i) => i <= c.slaves
    case ResetResponse(i) => i <= c.slaves
    case First(i) => i <= c.slaves
    case FirstDma(i, w) => i < c.slaves && w <= PACKET
    case Poll(i) => i <= c.slaves
    case ReadCmd(i) => i < c.slaves
    case ReadData(i, k) => i < c.slaves && k <= c.words
    case ClearRow(i) => i < c.slaves
    case Next(i) => i < c.slaves
    case NextDma(i, w) => i < c.slaves && w <= PACKET
    case Stop(i) => i <= c.slaves
    case StopDma(i, w) => i < c.slaves && w <= PACKET
    case Done => true
  }

  predicate LaneOk(c: Config, s: State, i: nat)
    requires Sound(c) && Shape(c, s) && i < c.slaves
  {
    LaneInv(c, s.lanes[i]) && Fits(c, s.lanes[i], RoleAt(c, s, i)) && RowOk(c, s.pc, s.row[i], i)
  }

  predicate LanesInv(c: Config, s: State)
    requires Sound(c) && Shape(c, s)
  {
    PcBounds(c, s.pc) && forall i :: 0 <= i < c.slaves ==> LaneOk(c, s, i)
  }

  /** The lane's next row that is not yet written. */
  function Due(c: Config, i: nat, role: Role, m: Mode): int
  {
    match role
    case Waiting(r) => r
    case Sending(r, _) => r
    case InWork(r) => r
    case Worker(r, _) => if m.Idle? then r + 1 else r
    case Arrived(r) => r
    case Reading(r, _, _, _) => r
    case Taken(r) => r + 1
    case Stopping(r, _) => r
    case Halted(r) => r
    case _ => FirstRow(c, i)
  }

  function DueAt(c: Config, s: State, i: nat): int
    requires i < |s.row| && i < |s.lanes|
  {
    Due(c, i, RoleAt(c, s, i), s.lanes[i].mode)
  }

  // ----- A slave's step -----------------------------------------------------------------------------

  /** What a slave's step leaves alone. */
  lemma SlaveLeaves(c: Config, l: Lane)
    requires Sound(c) && LaneShape(c, l) && LaneInv(c, l)
    ensures var l' := SlaveStep(c, l);
            && l'.mPacket == l.mPacket
            && (l.mode.Idle? || l.mode.Fresh? ==> l'.sPacket == l.sPacket)
            && (l.mode.Fresh? ==> l'.mRow == l.mRow)
            && (l.mode.Delivered? ==> l'.mRow[..c.words] == l.mRow[..c.words])
  {
    hide Computed; hide PacketFor;
  }

  lemma SlaveKeepsRole(c: Config, l: Lane, i: nat, role: Role)
    requires Sound(c) && LaneShape(c, l) && LaneInv(c, l) && Fits(c, l, role)
    ensures LaneShape(c, SlaveStep(c, l)) && Fits(c, SlaveStep(c, l), role)
    ensures Due(c, i, role, SlaveStep(c, l).mode) == Due(c, i, role, l.mode)
  {
    SlaveKeepsShape(c, l);
    SlaveMode(c, l);
    SlaveLeaves(c, l);
    hide SlaveStep; hide LaneInv; hide PacketFor;
    var l' := SlaveStep(c, l);
    if role.Reading? && l.mode.Delivered? {
      assert l'.mRow[..role.k] == l'.mRow[..c.words][..role.k] == l.mRow[..role.k];
    }
  }

  lemma SlaveKeepsLanes(c: Config, s: State, j: nat)
    requires Sound(c) && Shape(c, s) && LanesInv(c, s) && j < c.slaves
    ensures Shape(c, Step(c, s, SlaveMoves(j))) && LanesInv(c, Step(c, s, SlaveMoves(j)))
    ensures forall i :: 0 <= i < c.slaves ==> DueAt(c, Step(c, s, SlaveMoves(j)), i) == DueAt(c, s, i)
  {
    var s' := Step(c, s, SlaveMoves(j));
    SlaveKeepsShape(c, s.lanes[j]);
    assert LaneOk(c, s, j);
    SlaveKeepsLane(c, s.lanes[j]);
    SlaveKeepsRole(c, s.lanes[j], j, RoleAt(c, s, j));
    hide SlaveStep; hide LaneInv; hide Fits; hide Due; hide RowOk;
    forall i | 0 <= i < c.slaves ensures LaneOk(c, s', i) && DueAt(c, s', i) == DueAt(c, s, i) {
      assert LaneOk(c, s, i);
      SameRole(c, s, s', i);
    }
  }

  /** The role depends on the master only. */
  lemma SameRole(c: Config, s: State, s': State, i: nat)
    requires i < |s.row| && s.pc == s'.pc && s.row == s'.row && s.cmd == s'.cmd && s.buf == s'.buf
    ensures RoleAt(c, s', i) == RoleAt(c, s, i)
  {
  }

  // ----- The master's step, seen from the lane it touches -------------------------------------------------

  /** A word that is not the command word reaches a lane nobody works on; or the padding word reaches any. */
  lemma WordKeepsLane(c: Config, l: Lane, w: nat, x: int)
    requires Sound(c) && LaneShape(c, l) && LaneInv(c, l) && w < PACKET && w != CMD
    requires w < CMD ==> l.mode.Fresh? || l.mode.Idle?
    ensures LaneInv(c, l.(sPacket := l.sPacket[w := x]))
  {
    hide Computed; hide PacketFor;
    if w > CMD {
      assert l.sPacket[w := x][..CMD + 1] == l.sPacket[..CMD + 1];
    }
  }

  lemma CopyGreeting(c: Config, l: Lane, w: nat)
    requires Sound(c) && LaneShape(c, l) && LaneInv(c, l) && Fits(c, l, Greeting(w)) && w < PACKET
    ensures var l' := CopyPacketWord(l, w, Greeted); LaneShape(c, l') && LaneInv(c, l') && Fits(c, l', Greeting(w + 1))
  {
    if w != CMD {
      WordKeepsLane(c, l, w, l.mPacket[w]);
      hide LaneInv;
    }
  }

  lemma CopyStop(c: Config, l: Lane, r: int, w: nat)
    requires Sound(c) && LaneShape(c, l) && LaneInv(c, l) && Fits(c, l, Stopping(r, w)) && w < PACKET
    ensures var l' := CopyPacketWord(l, w, Stopped);
            LaneShape(c, l') && LaneInv(c, l') && Fits(c, l', Stopping(r, w + 1))
  {
    if w != CMD {
      WordKeepsLane(c, l, w, l.mPacket[w]);
      hide LaneInv;
    }
  }

  lemma CopyPacket(c: Config, l: Lane, r: int, w: nat)
    requires Sound(c) && LaneShape(c, l) && LaneInv(c, l) && Fits(c, l, Sending(r, w)) && w < PACKET
    ensures var l' := CopyPacketWord(l, w, Busy(r));
            LaneShape(c, l') && LaneInv(c, l') && Fits(c, l', Sending(r, w + 1))
  {
    hide Computed; hide PacketFor;
    if w <= CMD {
      NextWord(l.sPacket, l.mPacket, w);
    }
    if w != CMD {
      WordKeepsLane(c, l, w, l.mPacket[w]);
      hide LaneInv;
    }
  }

  /** The master fills its own packet buffer for a waiting lane. */
  lemma FillPacket(c: Config, l: Lane, r: int)
    requires Sound(c) && LaneShape(c, l) && LaneInv(c, l) && l.mode.Idle? && r >= 0
    ensures var l' := l.(mPacket := PacketFor(c, r) + [l.mPacket[CMD + 1]]);
            LaneShape(c, l') && LaneInv(c, l') && Fits(c, l', Sending(r, 0)) && l'.mode.Idle?
  {
    hide PacketFor; hide BusyInv;
    var l' := l.(mPacket := PacketFor(c, r) + [l.mPacket[CMD + 1]]);
    assert l'.mPacket[..CMD + 1] == PacketFor(c, r);
    assert l'.sPacket[..0] == l'.mPacket[..0];
  }

  /** Writing the response word: before the greeting, after the answer, and after a row is taken. */
  lemma WriteResponse(c: Config, l: Lane)
    requires Sound(c) && LaneShape(c, l) && LaneInv(c, l)
    ensures l.mode.Fresh? ==>
              var l' := l.(mRow := l.mRow[c.words := CMD_STOP]);
              LaneShape(c, l') && LaneInv(c, l') && Fits(c, l', Cleared)
    ensures l.mode.Started? || l.mode.Delivered? ==>
              var l' := l.(mRow := l.mRow[c.words := CMD_NULL], mode := Idle); LaneShape(c, l') && LaneInv(c, l')
  {
    hide BusyInv; hide RowFor;
  }

  // ----- The master's step, seen from any lane ----------------------------------------------------------------

  /** Lane `i` is as it should be after the master's step, and its next row to write moved on only when written. */
  predicate Kept(c: Config, s: State, i: nat)
    requires Sound(c) && Shape(c, s) && i < c.slaves
  {
    var s' := MasterStep(c, s);
    && Shape(c, s') && PcBounds(c, s'.pc) && LaneOk(c, s', i)
    && DueAt(c, s', i) == DueAt(c, s, i) + (if s.pc.ReadData? && s.pc.k == c.words && s.pc.i == i then 1 else 0)
  }

  lemma StartUpKeepsLane(c: Config, s: State, i: nat)
    requires Sound(c) && Shape(c, s) && LanesInv(c, s) && i < c.slaves
    requires s.pc.ClearResponse? || s.pc.Greet? || s.pc.GreetDma? || s.pc.AwaitStart? || s.pc.ResetResponse?
    ensures Kept(c, s, i)
  {
    var l := s.lanes[i];
    assert LaneOk(c, s, i);
    WriteResponse(c, l);
    if s.pc.GreetDma? && s.pc.i == i && s.pc.w < PACKET {
      CopyGreeting(c, l, s.pc.w);
    }
    hide BusyInv; hide RowFor; hide PacketFor; hide FirstRow;
  }

  lemma ShareFacts(c: Config, i: nat)
    requires Sound(c) && i < c.slaves
    ensures 0 <= FirstRow(c, i) < FirstRow(c, i + 1) <= Rows(c) && i < Rows(c)
  {
    var h, n := c.share, c.slaves;
    MulBound(0, h, i, h);
    MulBound(i + 1, h, n, h);
    MulBound(1, n, h, n);
    assert (i + 1) * h == i * h + h;
  }

  lemma FirstKeepsLane(c: Config, s: State, i: nat)
    requires Sound(c) && Shape(c, s) && LanesInv(c, s) && i < c.slaves
    requires s.pc.First? || s.pc.FirstDma?
    ensures Kept(c, s, i)
  {
    var l := s.lanes[i];
    assert LaneOk(c, s, i);
    ShareFacts(c, i);
    if s.pc.i < c.slaves {
      ShareFacts(c, s.pc.i);
    }
    if s.pc == First(i) {
      FillPacket(c, l, FirstRow(c, i));
    } else if s.pc.FirstDma? && s.pc.i == i && s.pc.w < PACKET {
      CopyPacket(c, l, FirstRow(c, i), s.pc.w);
    }
    hide LaneInv; hide PacketFor; hide FirstRow; hide Rows;
  }

  lemma ReadKeepsLane(c: Config, s: State, i: nat)
    requires Sound(c) && Shape(c, s) && LanesInv(c, s) && i < c.slaves
    requires s.pc.ReadCmd? || s.pc.ReadData?
    ensures Kept(c, s, i)
  {
    var l := s.lanes[i];
    assert LaneOk(c, s, i);
    if s.pc.ReadCmd? && s.pc.i == i {
      assert l.mRow[c.words] == s.row[i] - 1;
      assert s.buf[..0] == l.mRow[..0];
    } else if s.pc.ReadData? && s.pc.i == i && s.pc.k < c.words {
      NextWord(s.buf, l.mRow, s.pc.k);
    }
    hide LaneInv; hide FirstRow;
  }

  lemma ClearKeepsLane(c: Config, s: State, i: nat)
    requires Sound(c) && Shape(c, s) && LanesInv(c, s) && i < c.slaves && s.pc.ClearRow?
    ensures Kept(c, s, i)
  {
    assert LaneOk(c, s, i);
    WriteResponse(c, s.lanes[i]);
    hide LaneInv; hide FirstRow;
  }

  lemma NextKeepsLane(c: Config, s: State, i: nat)
    requires Sound(c) && Shape(c, s) && LanesInv(c, s) && i < c.slaves && s.pc.Next?
    ensures Kept(c, s, i)
  {
    assert LaneOk(c, s, i);
    ShareFacts(c, i);
    if s.pc == Next(i) {
      FillPacket(c, s.lanes[i], s.row[i]);
    }
    hide LaneInv; hide PacketFor; hide FirstRow; hide Rows;
  }

  lemma NextDmaKeepsLane(c: Config, s: State, i: nat)
    requires Sound(c) && Shape(c, s) && LanesInv(c, s) && i < c.slaves && s.pc.NextDma?
    ensures Kept(c, s, i)
  {
    assert LaneOk(c, s, i);
    ShareFacts(c, i);
    if s.pc.i == i && s.pc.w < PACKET {
      CopyPacket(c, s.lanes[i], s.row[i], s.pc.w);
    }
    hide LaneInv; hide PacketFor; hide FirstRow; hide Rows;
  }

  /** The main loop ends: every row was received. */
  predicate Leaves(c: Config, s: State)
  {
    s.pc.Poll? && s.pc.i >= c.slaves && s.received >= Rows(c)
  }

  lemma PollKeepsLane(c: Config, s: State, i: nat)
    requires Sound(c) && Shape(c, s) && LanesInv(c, s) && i < c.slaves && s.pc.Poll?
    requires Leaves(c, s) ==> DueAt(c, s, i) >= FirstRow(c, i + 1)
    ensures Kept(c, s, i)
  {
    assert LaneOk(c, s, i);
    hide PacketFor; hide RowFor; hide FirstRow; hide Rows; hide BusyInv;
    var l := s.lanes[i];
    if l.mode.Busy? {
      assert BusyInv(c, l, l.mode.r);
      BusyResponse(c, l, l.mode.r);
    }
  }

  lemma BusyResponse(c: Config, l: Lane, r: int)
    requires Sound(c) && LaneShape(c, l) && BusyInv(c, l, r)
    ensures l.mRow[c.words] == CMD_NULL
  {
  }

  lemma StopKeepsLane(c: Config, s: State, i: nat)
    requires Sound(c) && Shape(c, s) && LanesInv(c, s) && i < c.slaves
    requires s.pc.Stop? || s.pc.StopDma? || s.pc.Done?
    ensures Kept(c, s, i)
  {
    var l := s.lanes[i];
    assert LaneOk(c, s, i);
    if s.pc.StopDma? && s.pc.i == i && s.pc.w < PACKET {
      CopyStop(c, l, FirstRow(c, i + 1), s.pc.w);
    }
    hide BusyInv; hide RowFor; hide PacketFor; hide FirstRow;
  }

  lemma MasterKeepsLane(c: Config, s: State, i: nat)
    requires Sound(c) && Shape(c, s) && LanesInv(c, s) && i < c.slaves
    requires Leaves(c, s) ==> DueAt(c, s, i) >= FirstRow(c, i + 1)
    ensures Kept(c, s, i)
  {
    hide Kept; hide LanesInv; hide Leaves; hide DueAt;
    match s.pc {
      case ClearResponse(_) => StartUpKeepsLane(c, s, i);
      case Greet(_) => StartUpKeepsLane(c, s, i);
      case GreetDma(_, _) => StartUpKeepsLane(c, s, i);
      case AwaitStart(_) => StartUpKeepsLane(c, s, i);
      case ResetResponse(_) => StartUpKeepsLane(c, s, i);
      case First(_) => FirstKeepsLane(c, s, i);
      case FirstDma(_, _) => FirstKeepsLane(c, s, i);
      case Poll(_) => PollKeepsLane(c, s, i);
      case ReadCmd(_) => ReadKeepsLane(c, s, i);
      case ReadData(_, _) => ReadKeepsLane(c, s, i);
      case ClearRow(_) => ClearKeepsLane(c, s, i);
      case Next(_) => NextKeepsLane(c, s, i);
      case NextDma(_, _) => NextDmaKeepsLane(c, s, i);
      case _ => StopKeepsLane(c, s, i);
    }
  }
}
