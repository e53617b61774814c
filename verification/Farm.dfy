/** The master/slave work farm (patmos/c/cmp/mandelbrot_par.c) as a transition system: any number of
    slaves, messages copied word by word with the command word after the data, any interleaving. */
module Farm {

  const CMD_START := -3
  const CMD_STOP := -2
  const CMD_NULL := -1

  const FRAC_ONE := 0x1_0000
  const XSTART := -2 * FRAC_ONE
  const XEND := FRAC_ONE
  const YSTART := -FRAC_ONE
  const YEND := FRAC_ONE
  const COLS := 32
  const XSTEP_SIZE := (XEND - XSTART + COLS - 1) / COLS

  // A packet is four data words, the command word and a padding word; a row buffer is `words` data
  // words, the command word and a padding word (both structures are aligned to 8 bytes).
  const CMD: nat := 4
  const PACKET: nat := 6

  /** SLAVES, ROWS / SLAVES, data words per row, and what a slave computes: word k of the row for a packet. */
  datatype Config = Config(slaves: nat, share: nat, words: nat, work: (seq<int>, nat) -> int)

  function Rows(c: Config): nat
  {
    c.slaves * c.share
  }

  /** SLAVES divides ROWS, and there is something to do. */
  predicate Sound(c: Config)
  {
    c.slaves >= 1 && c.share >= 1 && Rows(c) >= 1
  }

  /** The packet for row `r`. */
  function PacketFor(c: Config, r: int): (p: seq<int>)
    requires Rows(c) >= 1
    ensures |p| == CMD + 1
  {
    [YSTART + r * ((YEND - YSTART + Rows(c) - 1) / Rows(c)), XSTART, XEND, XSTEP_SIZE, r]
  }

  /** The data words of the row for packet `p`. */
  function Computed(c: Config, p: seq<int>): (d: seq<int>)
    ensures |d| == c.words
  {
    seq(c.words, k requires k >= 0 => c.work(p, k))
  }

  function RowFor(c: Config, r: int): seq<int>
    requires Rows(c) >= 1
  {
    Computed(c, PacketFor(c, r))
  }

  // ----- Where everybody is --------------------------------------------------------------------

  datatype MasterPc =
    | ClearResponse(i: nat)
    | Greet(i: nat) | GreetDma(i: nat, w: nat)
    | AwaitStart(i: nat) | ResetResponse(i: nat)
    | First(i: nat) | FirstDma(i: nat, w: nat)
    | Poll(i: nat) | ReadCmd(i: nat) | ReadData(i: nat, k: nat) | ClearRow(i: nat)
    | Next(i: nat) | NextDma(i: nat, w: nat)
    | Stop(i: nat) | StopDma(i: nat, w: nat)
    | Done

  datatype SlavePc =
    | AwaitGreet | Answer | AnswerDma(w: nat)
    | AwaitPacket | ReadPacket(w: nat) | ClearPacket | Compute | SetCmd | RowDma(w: nat)
    | Finished

  /** Who has the floor between the master and one slave (kept only to state the invariant). */
  datatype Mode = Fresh | Greeted | Started | Idle | Busy(r: int) | Delivered(r: int) | Stopped

  /** Everything between the master and one slave: both sides' packet and row buffers, the slave. */
  datatype Lane = Lane(mPacket: seq<int>, sPacket: seq<int>, sRow: seq<int>, mRow: seq<int>,
                       pc: SlavePc, p: seq<int>, mode: Mode)

  /** One line written out: the position and the data. */
  datatype Line = Line(row: int, data: seq<int>)

  datatype State = State(pc: MasterPc, row: seq<int>, received: nat, cmd: int, buf: seq<int>, out: seq<Line>,
      lanes: seq<Lane>)

  predicate LaneShape(c: Config, l: Lane)
  {
    |l.mPacket| == PACKET && |l.sPacket| == PACKET && |l.p| == CMD + 1
    && |l.sRow| == c.words + 2 && |l.mRow| == c.words + 2
  }

  predicate Shape(c: Config, s: State)
  {
    && |s.lanes| == |s.row| == c.slaves && |s.buf| == c.words
    && forall i :: 0 <= i < c.slaves ==> LaneShape(c, s.lanes[i])
  }

  // ----- The master's steps ------------------------------------------------------------------------

  /** The master copies word `w` of its packet to the slave; the command word hands the floor over. */
  function CopyPacketWord(l: Lane, w: nat, mode: Mode): Lane
    requires |l.mPacket| == PACKET && |l.sPacket| == PACKET && w < PACKET
  {
    l.(sPacket := l.sPacket[w := l.mPacket[w]], mode := if w == CMD then mode else l.mode)
  }

  function SetLane(s: State, i: nat, l: Lane, pc: MasterPc): State
    requires i < |s.lanes|
  {
    s.(lanes := s.lanes[i := l], pc := pc)
  }

  /** The first row of slave `i`'s share; its share ends where that of slave `i + 1` begins. */
  function FirstRow(c: Config, i: nat): int
  {
    i * c.share
  }

  function MasterStep(c: Config, s: State): State
    requires Sound(c) && Shape(c, s)
  {
    var n := c.slaves;
    match s.pc
    case ClearResponse(i) =>
      if i < n then SetLane(s, i, s.lanes[i].(mRow := s.lanes[i].mRow[c.words := CMD_STOP]), ClearResponse(i + 1))
      else s.(pc := Greet(0))
    case Greet(i) =>
      if i < n then SetLane(s, i, s.lanes[i].(mPacket := s.lanes[i].mPacket[CMD := CMD_START]), GreetDma(i, 0))
      else s.(pc := AwaitStart(0))
    case GreetDma(i, w) =>
      if i < n && w < PACKET then SetLane(s, i, CopyPacketWord(s.lanes[i], w, Greeted), GreetDma(i, w + 1))
          else s.(pc := Greet(i + 1))
    case AwaitStart(i) =>
      if i < n then (if s.lanes[i].mRow[c.words] == CMD_START then s.(pc := AwaitStart(i + 1)) else s)
      else s.(pc := ResetResponse(0))
    case ResetResponse(i) =>
      if i < n then SetLane(s, i, s.lanes[i].(mRow := s.lanes[i].mRow[c.words := CMD_NULL], mode := Idle),
          ResetResponse(i + 1))
      else s.(pc := First(0))
    case First(i) =>
      if i < n && i < Rows(c) then
        var l := s.lanes[i].(mPacket := PacketFor(c, FirstRow(c, i)) + [s.lanes[i].mPacket[CMD + 1]]);
        SetLane(s, i, l, FirstDma(i, 0)).(row := s.row[i := FirstRow(c, i)])
      else s.(pc := Poll(0))
    case FirstDma(i, w) =>
      if i < n && w < PACKET then SetLane(s, i, CopyPacketWord(s.lanes[i], w, Busy(s.row[i])), FirstDma(i, w + 1))
      else if i < n then s.(row := s.row[i := s.row[i] + 1], pc := First(i + 1)) else s
    case Poll(i) =>
      if i < n then (if s.lanes[i].mRow[c.words] != CMD_NULL then s.(received := s.received + 1, pc := ReadCmd(i))
          else s.(pc := Poll(i + 1)))
      else s.(pc := if s.received < Rows(c) then Poll(0) else Stop(0))
    case ReadCmd(i) =>
      if i < n then s.(cmd := s.lanes[i].mRow[c.words], pc := ReadData(i, 0)) else s
    case ReadData(i, k) =>
      if i < n && k < c.words then s.(buf := s.buf[k := s.lanes[i].mRow[k]], pc := ReadData(i, k + 1))
      else s.(out := s.out + [Line(s.cmd, s.buf)], pc := ClearRow(i))
    case ClearRow(i) =>
      if i < n then SetLane(s, i, s.lanes[i].(mRow := s.lanes[i].mRow[c.words := CMD_NULL], mode := Idle), Next(i))
          else s
    case Next(i) =>
      if i < n && s.row[i] < FirstRow(c, i + 1) then
        SetLane(s, i, s.lanes[i].(mPacket := PacketFor(c, s.row[i]) + [s.lanes[i].mPacket[CMD + 1]]), NextDma(i, 0))
      else s.(pc := Poll(i + 1))
    case NextDma(i, w) =>
      if i < n && w < PACKET then SetLane(s, i, CopyPacketWord(s.lanes[i], w, Busy(s.row[i])), NextDma(i, w + 1))
      else if i < n then s.(row := s.row[i := s.row[i] + 1], pc := Poll(i + 1)) else s
    case Stop(i) =>
      if i < n then SetLane(s, i, s.lanes[i].(mPacket := s.lanes[i].mPacket[CMD := CMD_STOP]), StopDma(i, 0))
          else s.(pc := Done)
    case StopDma(i, w) =>
      if i < n && w < PACKET then SetLane(s, i, CopyPacketWord(s.lanes[i], w, Stopped), StopDma(i, w + 1))
          else s.(pc := Stop(i + 1))
    case Done => s
  }

  // ----- A slave's steps ------------------------------------------------------------------------------

  /** The slave copies word `w` of its row buffer to the master; the command word hands the floor over. */
  function CopyRowWord(c: Config, l: Lane, w: nat, mode: Mode): Lane
    requires |l.sRow| == c.words + 2 && |l.mRow| == c.words + 2 && w < c.words + 2
  {
    l.(mRow := l.mRow[w := l.sRow[w]], mode := if w == c.words then mode else l.mode)
  }

  function SlaveStep(c: Config, l: Lane): Lane
    requires LaneShape(c, l)
  {
    match l.pc
    case AwaitGreet => if l.sPacket[CMD] == CMD_START then l.(pc := Answer) else l
    case Answer => l.(sRow := l.sRow[c.words := CMD_START], pc := AnswerDma(0))
    case AnswerDma(w) => if w < c.words + 2 then CopyRowWord(c, l, w, Started).(pc := AnswerDma(w + 1))
        else l.(pc := AwaitPacket)
    case AwaitPacket =>
      if l.sPacket[CMD] == CMD_STOP then l.(pc := Finished)
      else if l.sPacket[CMD] <= CMD_NULL then l
      else l.(pc := ReadPacket(0))
    case ReadPacket(w) => if w <= CMD then l.(p := l.p[w := l.sPacket[w]], pc := ReadPacket(w + 1))
        else l.(pc := ClearPacket)
    case ClearPacket => l.(sPacket := l.sPacket[CMD := CMD_NULL], pc := Compute)
    case Compute => l.(sRow := Computed(c, l.p) + l.sRow[c.words..], pc := SetCmd)
    case SetCmd => l.(sRow := l.sRow[c.words := l.p[CMD]], pc := RowDma(0))
    case RowDma(w) => if w < c.words + 2 then CopyRowWord(c, l, w, Delivered(l.p[CMD])).(pc := RowDma(w + 1))
        else l.(pc := AwaitPacket)
    case Finished => l
  }

  datatype Move = MasterMoves | SlaveMoves(i: nat)

  predicate Possible(c: Config, a: Move)
  {
    a.SlaveMoves? ==> a.i < c.slaves
  }

  function Step(c: Config, s: State, a: Move): (s': State)
    requires Sound(c) && Shape(c, s) && Possible(c, a)
  {
    match a
    case MasterMoves => MasterStep(c, s)
    case SlaveMoves(i) => s.(lanes := s.lanes[i := SlaveStep(c, s.lanes[i])])
  }

  /** Both programs start; the shared buffers hold no greeting yet, anything else may be in them. */
  predicate Start(c: Config, s: State)
  {
    && Shape(c, s) && s.pc == ClearResponse(0) && s.received == 0 && s.out == []
    && forall i :: 0 <= i < c.slaves ==>
         s.lanes[i].pc.AwaitGreet? && s.lanes[i].mode.Fresh? && s.lanes[i].sPacket[CMD] != CMD_START
  }

  // ----- The invariant of one lane ----------------------------------------------------------------------

  /** The slave has finished its last message, except perhaps for the padding word. */
  predicate Resting(c: Config, pc: SlavePc)
  {
    || pc.AwaitPacket?
    || (pc.AnswerDma? && c.words < pc.w <= c.words + 2)
    || (pc.RowDma? && c.words < pc.w <= c.words + 2)
  }

  /** The slave works on the packet for row `r`. */
  predicate BusyInv(c: Config, l: Lane, r: int)
    requires LaneShape(c, l) && Rows(c) >= 1
  {
    var packet := PacketFor(c, r);
    && r >= 0 && l.mRow[c.words] == CMD_NULL
    && match l.pc
       case ReadPacket(w) => w <= CMD + 1 && l.p[..w] == packet[..w] && l.sPacket[..CMD + 1] == packet
       case ClearPacket => l.p == packet && l.sPacket[..CMD + 1] == packet
       case Compute => l.p == packet && l.sPacket[CMD] == CMD_NULL
       case SetCmd => l.p == packet && l.sPacket[CMD] == CMD_NULL && l.sRow[..c.words] == RowFor(c, r)
       case RowDma(w) =>
         if w <= c.words then
           && l.p == packet && l.sPacket[CMD] == CMD_NULL && l.sRow[..c.words] == RowFor(c, r) && l.sRow[c.words] == r
           && l.mRow[..w] == l.sRow[..w]
         else w <= c.words + 2 && l.sPacket[..CMD + 1] == packet
       case _ => Resting(c, l.pc) && l.sPacket[..CMD + 1] == packet
  }

  predicate LaneInv(c: Config, l: Lane)
    requires LaneShape(c, l) && Rows(c) >= 1
  {
    match l.mode
    case Fresh => l.pc.AwaitGreet? && l.sPacket[CMD] != CMD_START
    case Greeted =>
      && l.sPacket[CMD] == CMD_START && l.mRow[c.words] == CMD_STOP
      && (l.pc.AwaitGreet? || l.pc.Answer? || (l.pc.AnswerDma? && l.pc.w <= c.words && l.sRow[c.words] == CMD_START))
    case Started => l.sPacket[CMD] == CMD_START && l.mRow[c.words] == CMD_START && Resting(c, l.pc)
    case Idle => (l.sPacket[CMD] == CMD_START || l.sPacket[CMD] == CMD_NULL) && l.mRow[c.words] == CMD_NULL
        && Resting(c, l.pc)
    case Busy(r) => BusyInv(c, l, r)
    case Delivered(r) =>
      && r >= 0 && l.sPacket[CMD] == CMD_NULL && Resting(c, l.pc)
      && l.mRow[..c.words] == RowFor(c, r) && l.mRow[c.words] == r
    case Stopped => l.sPacket[CMD] == CMD_STOP && l.mRow[c.words] == CMD_NULL && (Resting(c, l.pc) || l.pc.Finished?)
  }

  lemma SlaveKeepsShape(c: Config, l: Lane)
    requires LaneShape(c, l)
    ensures LaneShape(c, SlaveStep(c, l))
  {
  }

  lemma BusyReads(c: Config, l: Lane, r: int)
    requires Sound(c) && LaneShape(c, l) && BusyInv(c, l, r) && l.mode == Busy(r)
    requires l.pc.AwaitPacket? || l.pc.ReadPacket? || l.pc.ClearPacket? || l.pc.AnswerDma?
        || (l.pc.RowDma? && l.pc.w > c.words)
    ensures LaneShape(c, SlaveStep(c, l)) && BusyInv(c, SlaveStep(c, l), r) && SlaveStep(c, l).mode == Busy(r)
  {
    hide Computed; hide PacketFor;
    PacketCmd(c, r);
    if l.pc.ReadPacket? && l.pc.w <= CMD {
      var w := l.pc.w;
      assert l.sPacket[..CMD + 1][w] == l.sPacket[w];
      NextWord(l.p, l.sPacket[..CMD + 1], w);
    } else if l.pc.ReadPacket? {
      assert l.p[..CMD + 1] == l.p && PacketFor(c, r)[..CMD + 1] == PacketFor(c, r);
    } else if l.pc.AwaitPacket? {
      assert l.sPacket[..CMD + 1][CMD] == r;
      assert l.p[..0] == PacketFor(c, r)[..0];
    }
  }

  lemma PacketCmd(c: Config, r: int)
    requires Rows(c) >= 1
    ensures PacketFor(c, r)[CMD] == r
  {
  }

  /** One more word of a copy. */
  lemma NextWord(d: seq<int>, s: seq<int>, w: nat)
    requires w < |d| && w < |s| && d[..w] == s[..w]
    ensures d[w := s[w]][..w + 1] == s[..w + 1]
  {
  }

  lemma BusyWorks(c: Config, l: Lane, r: int)
    requires Sound(c) && LaneShape(c, l) && BusyInv(c, l, r) && l.mode == Busy(r)
    requires l.pc.Compute? || l.pc.SetCmd?
    ensures LaneShape(c, SlaveStep(c, l)) && BusyInv(c, SlaveStep(c, l), r) && SlaveStep(c, l).mode == Busy(r)
  {
    hide Computed; hide PacketFor;
    PacketCmd(c, r);
    var l' := SlaveStep(c, l);
    if l.pc.Compute? {
      assert l'.sRow[..c.words] == Computed(c, l.p);
    } else {
      assert l'.sRow[..c.words] == l.sRow[..c.words];
      assert l'.mRow[..0] == l'.sRow[..0];
    }
  }

  lemma BusySends(c: Config, l: Lane, r: int)
    requires Sound(c) && LaneShape(c, l) && BusyInv(c, l, r) && l.mode == Busy(r)
    requires l.pc.RowDma? && l.pc.w <= c.words
    ensures LaneInv(c, SlaveStep(c, l))
  {
    hide Computed; hide PacketFor;
    PacketCmd(c, r);
    var w, l' := l.pc.w, SlaveStep(c, l);
    NextWord(l.mRow, l.sRow, w);
    if w == c.words {
      assert l'.mRow[..c.words] == l.mRow[..c.words] == l.sRow[..c.words];
    }
  }

  lemma OthersKeepLane(c: Config, l: Lane)
    requires Sound(c) && LaneShape(c, l) && LaneInv(c, l) && !l.mode.Busy?
    ensures LaneInv(c, SlaveStep(c, l))
  {
    hide Computed; hide PacketFor;
    var l' := SlaveStep(c, l);
    if l.mode.Delivered? {
      assert l'.mRow[..c.words] == l.mRow[..c.words];
    }
  }

  lemma SlaveKeepsLane(c: Config, l: Lane)
    requires Sound(c) && LaneShape(c, l) && LaneInv(c, l)
    ensures LaneShape(c, SlaveStep(c, l)) && LaneInv(c, SlaveStep(c, l))
  {
    hide BusyInv; hide SlaveStep; hide Computed;
    SlaveKeepsShape(c, l);
    if !l.mode.Busy? {
      OthersKeepLane(c, l);
    } else {
      SlaveKeepsBusy(c, l, l.mode.r);
    }
  }

  lemma SlaveKeepsBusy(c: Config, l: Lane, r: int)
    requires Sound(c) && LaneShape(c, l) && BusyInv(c, l, r) && l.mode == Busy(r)
    ensures LaneInv(c, SlaveStep(c, l))
  {
    if l.pc.RowDma? && l.pc.w <= c.words {
      hide SlaveStep; hide PacketFor; hide Computed;
      BusySends(c, l, r);
    } else if l.pc.Compute? || l.pc.SetCmd? {
      hide SlaveStep; hide PacketFor; hide Computed;
      BusyWorks(c, l, r);
    } else {
      hide SlaveStep; hide PacketFor; hide Computed;
      BusyReads(c, l, r);
    }
  }

  /** What a slave's step can do to the floor: answer the greeting, or deliver the row it works on. */
  lemma SlaveMode(c: Config, l: Lane)
    requires Sound(c) && LaneShape(c, l) && LaneInv(c, l)
    ensures var m := SlaveStep(c, l).mode;
            m == l.mode || (l.mode.Greeted? && m == Started) || (l.mode.Busy? && m == Delivered(l.mode.r))
  {
  }
}
