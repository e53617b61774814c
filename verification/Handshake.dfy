/** The multicore boot handshake (patmos/c/bootloader/bootloader.c) as a transition system: one master,
    any number of slaves, every access to the shared boot_info one atomic step, any interleaving. */
module Handshake {

  datatype Status = NULL | BOOT | INIT | RETURN

  const BOOTS: nat := 16 // how often the master writes STATUS_BOOT

  /** Where the master is: the name says what its next step does. */
  datatype MasterPc =
    | ResetStatus | ResetEntry | ClearSlave(i: nat) | WriteBoot(k: nat) | Download
    | CopySpm(w: nat) | WriteInit | AwaitInit(i: nat)
    | TestEntry | CallEntry | Application
    | TestNull(i: nat) | AwaitReturn(i: nat) | WriteReturn | AwaitLeave(i: nat)

  datatype SlavePc =
    | SlaveResetStatus | SlaveResetEntry | ClearOwn | TellBoot | SeeBoot | SeeInit
    | SlaveCopySpm(w: nat) | TellInit
    | SlaveTestEntry | SlaveCallEntry | SlaveApplication
    | TellReturn(first: bool) | SeeReturn | Leave

  datatype Master = Master(pc: MasterPc, round: nat, spm: seq<nat>, called: nat)
  datatype Slave = Slave(pc: SlavePc, round: nat, spm: seq<nat>, called: nat)

  /** The cores, what they share, and the I-SPM image and entry point of the last download. Entry point
      0 is NULL. Slave i of the model is core i + 1. */
  datatype State = State(
    m: Master, slaves: seq<Slave>,
    masterStatus: Status, entry: nat, slaveStatus: seq<Status>,
    image: seq<nat>, fetched: nat)

  /** One slot of boot_info and one scratchpad per core. */
  predicate Shape(s: State)
  {
    && |s.slaveStatus| == |s.slaves|
    && |s.m.spm| == |s.image|
    && forall i :: 0 <= i < |s.slaves| ==> |s.slaves[i].spm| == |s.image|
  }

  // ----- The steps -----------------------------------------------------------------------------

  function Goto(s: State, pc: MasterPc): State
  {
    s.(m := s.m.(pc := pc))
  }

  /** The master's next step; `image` and `entry` are what `download` brings. */
  function MasterStep(s: State, image: seq<nat>, entry: nat): State
    requires Shape(s) && |image| == |s.image|
  {
    var n := |s.slaves|;
    match s.m.pc
    case ResetStatus => Goto(s, ResetEntry).(masterStatus := NULL)
    case ResetEntry => Goto(s, ClearSlave(0)).(entry := 0)
    case ClearSlave(i) => if i < n then Goto(s, ClearSlave(i + 1)).(slaveStatus := s.slaveStatus[i := NULL])
        else Goto(s, WriteBoot(0))
    case WriteBoot(k) => Goto(s, if k + 1 < BOOTS then WriteBoot(k + 1) else Download).(masterStatus := BOOT)
    case Download => Goto(s, CopySpm(0)).(image := image, entry := entry, fetched := entry)
    case CopySpm(w) => if w < |s.image| then s.(m := s.m.(pc := CopySpm(w + 1), spm := s.m.spm[w := s.image[w]]))
        else Goto(s, WriteInit)
    case WriteInit => Goto(s, AwaitInit(0)).(masterStatus := INIT)
    case AwaitInit(i) => if i < n then (if s.slaveStatus[i] == INIT then Goto(s, AwaitInit(i + 1)) else s)
        else Goto(s, TestEntry)
    case TestEntry => Goto(s, if s.entry != 0 then CallEntry else TestNull(0))
    case CallEntry => s.(m := s.m.(pc := Application, called := s.entry))
    case Application => Goto(s, TestNull(0))
    case TestNull(i) => if i < n then Goto(s, if s.slaveStatus[i] != NULL then AwaitReturn(i) else TestNull(i + 1))
        else Goto(s, WriteReturn)
    case AwaitReturn(i) => if i < n && s.slaveStatus[i] == RETURN then Goto(s, TestNull(i + 1)) else s
    case WriteReturn => Goto(s, AwaitLeave(0)).(masterStatus := RETURN)
    case AwaitLeave(i) => if i < n then (if s.slaveStatus[i] != RETURN then Goto(s, AwaitLeave(i + 1)) else s)
                          else s.(m := s.m.(pc := ResetStatus, round := s.m.round + 1))
  }

  function SlaveGoto(s: State, i: nat, pc: SlavePc): State
    requires i < |s.slaves|
  {
    s.(slaves := s.slaves[i := s.slaves[i].(pc := pc)])
  }

  function Tell(s: State, i: nat, status: Status): State
    requires i < |s.slaveStatus|
  {
    s.(slaveStatus := s.slaveStatus[i := status])
  }

  /** The next step of slave `i`. */
  function SlaveStep(s: State, i: nat): State
    requires Shape(s) && i < |s.slaves|
  {
    var me := s.slaves[i];
    match me.pc
    case SlaveResetStatus => SlaveGoto(s, i, SlaveResetEntry).(masterStatus := NULL)
    case SlaveResetEntry => SlaveGoto(s, i, ClearOwn).(entry := 0)
    case ClearOwn => Tell(SlaveGoto(s, i, TellBoot), i, NULL)
    case TellBoot => Tell(SlaveGoto(s, i, SeeBoot), i, BOOT)
    case SeeBoot => SlaveGoto(s, i, if s.masterStatus == BOOT then SeeInit else TellBoot)
    case SeeInit => if s.masterStatus == INIT then SlaveGoto(s, i, SlaveCopySpm(0)) else s
    case SlaveCopySpm(w) =>
      if w < |s.image| then s.(slaves := s.slaves[i := me.(pc := SlaveCopySpm(w + 1), spm := me.spm[w := s.image[w]])])
      else SlaveGoto(s, i, TellInit)
    case TellInit => Tell(SlaveGoto(s, i, SlaveTestEntry), i, INIT)
    case SlaveTestEntry => SlaveGoto(s, i, if s.entry != 0 then SlaveCallEntry else TellReturn(true))
    case SlaveCallEntry => s.(slaves := s.slaves[i := me.(pc := SlaveApplication, called := s.entry)])
    case SlaveApplication => SlaveGoto(s, i, TellReturn(true))
    case TellReturn(_) => Tell(SlaveGoto(s, i, SeeReturn), i, RETURN)
    case SeeReturn => SlaveGoto(s, i, if s.masterStatus == RETURN then Leave else TellReturn(false))
    case Leave => Tell(s.(slaves := s.slaves[i := me.(pc := SlaveResetStatus, round := me.round + 1)]), i, NULL)
  }

  /** Whoever moves next: the master, with what its download would bring, or a slave. */
  datatype Move = MasterMoves(image: seq<nat>, entry: nat) | SlaveMoves(i: nat)

  predicate Possible(s: State, a: Move)
  {
    match a
    case MasterMoves(image, _) => |image| == |s.image|
    case SlaveMoves(i) => i < |s.slaves|
  }

  function Step(s: State, a: Move): (s': State)
    requires Shape(s) && Possible(s, a)
    ensures Shape(s') && |s'.slaves| == |s.slaves|
  {
    match a
    case MasterMoves(image, entry) => MasterStep(s, image, entry)
    case SlaveMoves(i) => SlaveStep(s, i)
  }

  /** Power-on: every core at the start, anything in shared memory and in the scratchpads. */
  predicate Start(s: State)
  {
    && Shape(s) && s.m.pc == ResetStatus && s.m.round == 0
    && forall i :: 0 <= i < |s.slaves| ==> s.slaves[i].pc == SlaveResetStatus && s.slaves[i].round == 0
  }

  // ----- The invariant ----------------------------------------------------------------------------

  /** The master's phases: 0 nothing written, 1 status reset, 2 BOOT written, 3 INIT, 4 RETURN. */
  function Phase(pc: MasterPc): nat
  {
    match pc
    case ResetStatus => 0
    case ResetEntry => 1
    case ClearSlave(_) => 1
    case WriteBoot(k) => if k == 0 then 1 else 2
    case Download => 2
    case CopySpm(_) => 2
    case WriteInit => 2
    case AwaitLeave(_) => 4
    case _ => 3
  }

  /** Before the slave has seen BOOT. */
  predicate Unbooted(pc: SlavePc)
  {
    pc.SlaveResetStatus? || pc.SlaveResetEntry? || pc.ClearOwn? || pc.TellBoot? || pc.SeeBoot?
  }

  /** After the slave has acknowledged INIT: its scratchpad copy is complete. */
  predicate Acked(pc: SlavePc)
  {
    pc.SlaveTestEntry? || pc.SlaveCallEntry? || pc.SlaveApplication? || pc.TellReturn? || pc.SeeReturn? || pc.Leave?
  }

  /** After the slave's application phase. */
  predicate Returned(pc: SlavePc)
  {
    pc.TellReturn? || pc.SeeReturn? || pc.Leave?
  }

  /** The master has waited for slave `i` to acknowledge. */
  predicate PastAck(pc: MasterPc, i: nat)
  {
    match pc
    case AwaitInit(k) => i < k
    case _ => Phase(pc) >= 3
  }

  /** The master has waited for slave `i` to return. */
  predicate PastReturn(pc: MasterPc, i: nat)
  {
    match pc
    case TestNull(k) => i < k
    case AwaitReturn(k) => i < k
    case WriteReturn => true
    case AwaitLeave(_) => true
    case _ => false
  }

  /** The master has waited for slave `i` to leave. */
  predicate PastLeave(pc: MasterPc, i: nat)
  {
    pc.AwaitLeave? && i < pc.i
  }

  /** The master has cleared slave `i`'s status in this round. */
  predicate Cleared(pc: MasterPc, i: nat)
  {
    match pc
    case ResetStatus => false
    case ResetEntry => false
    case ClearSlave(k) => i < k
    case _ => true
  }

  /** What the master knows from its own program counter. */
  predicate MasterInv(s: State)
    requires Shape(s)
  {
    var m, n := s.m, |s.slaves|;
    match m.pc
    case ClearSlave(i) => i <= n
    case WriteBoot(k) => k < BOOTS
    case CopySpm(w) => w <= |s.image| && m.spm[..w] == s.image[..w]
    case AwaitInit(i) => i <= n && m.spm == s.image
    case TestNull(i) => i <= n && m.spm == s.image
    case AwaitReturn(i) => i < n && m.spm == s.image
    case AwaitLeave(i) => i <= n && m.spm == s.image
    case ResetStatus => true
    case ResetEntry => true
    case Download => true
    case _ => m.spm == s.image
  }

  /** What the shared master status can be in each phase. */
  predicate StatusInv(s: State)
  {
    match Phase(s.m.pc)
    case 0 => s.masterStatus == NULL || s.masterStatus == RETURN
              || (s.m.round == 0 && forall i :: 0 <= i < |s.slaves| ==> s.slaves[i].pc.SlaveResetStatus?)
    case 1 => s.masterStatus == NULL
    case 2 => s.masterStatus == NULL || s.masterStatus == BOOT
    case 3 => s.masterStatus == NULL || s.masterStatus == INIT
    case _ => s.masterStatus == NULL || s.masterStatus == RETURN
  }

  /** The slave has restarted while the master still waits for others to leave. */
  predicate Ahead(s: State, i: nat)
    requires i < |s.slaves|
  {
    s.slaves[i].round == s.m.round + 1 && Phase(s.m.pc) == 4 && Unbooted(s.slaves[i].pc)
  }

  /** Both are in the same round, and the slave is where the master's phase allows. */
  predicate InStep(s: State, i: nat)
    requires i < |s.slaves|
  {
    var me, pc := s.slaves[i], s.m.pc;
    && me.round == s.m.round && !PastLeave(pc, i)
    && (Phase(pc) <= 1 ==> Unbooted(me.pc))
    && (Phase(pc) == 2 ==> Unbooted(me.pc) || me.pc.SeeInit?)
    && (PastAck(pc, i) ==> Acked(me.pc))
    && (PastReturn(pc, i) ==> Returned(me.pc) && (me.pc.TellReturn? ==> !me.pc.first))
    && (me.pc.Leave? ==> Phase(pc) == 4)
  }

  predicate PlaceInv(s: State, i: nat)
    requires i < |s.slaves|
  {
    Ahead(s, i) || InStep(s, i)
  }

  /** What the slave's status can be, once the master has cleared it in this round. */
  predicate ToldInv(s: State, i: nat)
    requires i < |s.slaves| && i < |s.slaveStatus|
  {
    var pc, told := s.slaves[i].pc, s.slaveStatus[i];
    (Cleared(s.m.pc, i) || s.slaves[i].round > s.m.round) ==>
      if pc.SeeReturn? || pc.Leave? || (pc.TellReturn? && !pc.first) then told == RETURN
      else if Acked(pc) then told == INIT
      else told == NULL || told == BOOT
  }

  /** How much of the image the slave has copied. */
  predicate CopyInv(s: State, i: nat)
    requires Shape(s) && i < |s.slaves|
  {
    var me := s.slaves[i];
    match me.pc
    case SlaveCopySpm(w) => w <= |s.image| && me.spm[..w] == s.image[..w]
    case TellInit => me.spm == s.image
    case _ => Acked(me.pc) ==> me.spm == s.image
  }

  predicate SlaveInv(s: State, i: nat)
    requires Shape(s) && i < |s.slaves|
  {
    PlaceInv(s, i) && ToldInv(s, i) && CopyInv(s, i)
  }

  predicate Inv(s: State)
  {
    Shape(s) && MasterInv(s) && StatusInv(s) && forall i :: 0 <= i < |s.slaves| ==> SlaveInv(s, i)
  }

  lemma StartInv(s: State)
    requires Start(s)
    ensures Inv(s)
  {
  }

  lemma MasterKeepsMaster(s: State, image: seq<nat>, entry: nat)
    requires Inv(s) && |image| == |s.image|
    ensures MasterInv(MasterStep(s, image, entry))
  {
  }

  lemma MasterKeepsStatus(s: State, image: seq<nat>, entry: nat)
    requires Inv(s) && |image| == |s.image|
    ensures StatusInv(MasterStep(s, image, entry))
  {
  }

  lemma MasterKeepsPlace(s: State, image: seq<nat>, entry: nat, i: nat)
    requires Inv(s) && |image| == |s.image| && i < |s.slaves|
    ensures PlaceInv(MasterStep(s, image, entry), i)
  {
    assert SlaveInv(s, i);
  }

  lemma MasterKeepsTold(s: State, image: seq<nat>, entry: nat, i: nat)
    requires Inv(s) && |image| == |s.image| && i < |s.slaves|
    ensures ToldInv(MasterStep(s, image, entry), i)
  {
    assert SlaveInv(s, i);
  }

  lemma MasterKeepsCopy(s: State, image: seq<nat>, entry: nat, i: nat)
    requires Inv(s) && |image| == |s.image| && i < |s.slaves|
    ensures CopyInv(MasterStep(s, image, entry), i)
  {
    assert SlaveInv(s, i);
  }

  lemma SlaveKeepsMaster(s: State, k: nat)
    requires Inv(s) && k < |s.slaves|
    ensures MasterInv(SlaveStep(s, k)) && StatusInv(SlaveStep(s, k))
  {
    assert SlaveInv(s, k);
  }

  lemma SlaveKeepsOwnPlace(s: State, k: nat)
    requires Inv(s) && k < |s.slaves|
    ensures PlaceInv(SlaveStep(s, k), k)
  {
    assert SlaveInv(s, k);
  }

  lemma SlaveKeepsOwnTold(s: State, k: nat)
    requires Inv(s) && k < |s.slaves|
    ensures ToldInv(SlaveStep(s, k), k)
  {
    assert SlaveInv(s, k);
  }

  lemma SlaveKeepsOwnCopy(s: State, k: nat)
    requires Inv(s) && k < |s.slaves|
    ensures CopyInv(SlaveStep(s, k), k)
  {
    assert SlaveInv(s, k);
  }

  /** A slave's step leaves the master, the image and everything of the other slaves alone. */
  lemma SlaveLeavesOthers(s: State, k: nat, i: nat)
    requires Shape(s) && k < |s.slaves| && i < |s.slaves| && i != k
    ensures var s' := SlaveStep(s, k);
            && Shape(s') && |s'.slaves| == |s.slaves| && s'.m == s.m && s'.image == s.image && s'.fetched == s.fetched
            && s'.slaves[i] == s.slaves[i] && s'.slaveStatus[i] == s.slaveStatus[i]
            && (s'.masterStatus == s.masterStatus || s'.masterStatus == NULL)
            && (s'.entry == s.entry || s'.entry == 0)
  {
  }

  lemma SlaveKeepsOther(s: State, k: nat, i: nat)
    requires Inv(s) && k < |s.slaves| && i < |s.slaves| && i != k
    ensures SlaveInv(SlaveStep(s, k), i)
  {
    assert SlaveInv(s, i);
    hide SlaveStep; hide Inv;
    SlaveLeavesOthers(s, k, i);
  }

  lemma SlaveKeepsSlave(s: State, k: nat, i: nat)
    requires Inv(s) && k < |s.slaves| && i < |s.slaves|
    ensures SlaveInv(SlaveStep(s, k), i)
  {
    hide Inv; hide PlaceInv; hide ToldInv; hide CopyInv; hide SlaveStep;
    if i == k {
      SlaveKeepsOwnPlace(s, k);
      SlaveKeepsOwnTold(s, k);
      SlaveKeepsOwnCopy(s, k);
    } else {
      SlaveKeepsOther(s, k, i);
    }
  }

  lemma StepKeepsInv(s: State, a: Move)
    requires Inv(s) && Possible(s, a)
    ensures Inv(Step(s, a))
  {
    hide PlaceInv; hide ToldInv; hide CopyInv; hide MasterInv; hide StatusInv; hide MasterStep; hide SlaveStep;
    var s' := Step(s, a);
    match a {
      case MasterMoves(image, entry) =>
        MasterKeepsMaster(s, image, entry);
        MasterKeepsStatus(s, image, entry);
        forall i | 0 <= i < |s.slaves| ensures SlaveInv(s', i) {
          MasterKeepsPlace(s, image, entry, i);
          MasterKeepsTold(s, image, entry, i);
          MasterKeepsCopy(s, image, entry, i);
        }
      case SlaveMoves(k) =>
        SlaveKeepsMaster(s, k);
        forall i | 0 <= i < |s.slaves| ensures SlaveInv(s', i) {
          SlaveKeepsSlave(s, k, i);
        }
    }
  }

  // ----- Safety over every run ------------------------------------------------------------------------

  /** A run: states and the moves between them, from power-on. */
  predicate Run(states: seq<State>, moves: seq<Move>)
  {
    && |states| == |moves| + 1 && Start(states[0])
    && forall k :: 0 <= k < |moves| ==> Follows(states[k], moves[k], states[k + 1])
  }

  predicate Follows(s: State, a: Move, s': State)
  {
    Shape(s) && Possible(s, a) && s' == Step(s, a)
  }

  lemma {:induction false} RunKeepsInv(states: seq<State>, moves: seq<Move>, k: nat)
    requires Run(states, moves) && k < |states|
    ensures Inv(states[k])
    decreases k
  {
    if k == 0 {
      StartInv(states[0]);
    } else {
      RunKeepsInv(states, moves, k - 1);
      assert Follows(states[k - 1], moves[k - 1], states[k]);
      StepKeepsInv(states[k - 1], moves[k - 1]);
    }
  }

  /** The slave has passed its INIT wait in its present round. */
  predicate Started(pc: SlavePc)
  {
    pc.SlaveCopySpm? || pc.TellInit? || Acked(pc)
  }

  /** The master has finished `download` in its present round. */
  predicate Downloaded(pc: MasterPc)
  {
    pc.CopySpm? || pc.WriteInit? || Phase(pc) >= 3
  }

  /** The master has reached the application, in this round. */
  predicate InApplication(pc: MasterPc)
  {
    pc.TestEntry? || pc.CallEntry? || pc.Application?
  }

  /** What holds between the master and slave `i` at every moment. */
  predicate Ordered(s: State, i: nat)
    requires i < |s.slaves|
  {
    var m, me := s.m, s.slaves[i];
    // the rounds of master and slave differ by at most one
    && m.round <= me.round <= m.round + 1
    // a slave past its INIT wait is in the master's round, and the master's download is done
    && (Started(me.pc) ==> me.round == m.round && Downloaded(m.pc))
    // a slave that has acknowledged holds the downloaded image
    && (Acked(me.pc) ==> me.spm == s.image)
    // the master enters the application only when the slave's copy is complete
    && (InApplication(m.pc) ==> me.round == m.round && Acked(me.pc) && me.spm == s.image == m.spm)
    // the master writes RETURN only when the slave has left its application phase of this round
    && (m.pc.WriteReturn? || m.pc.AwaitLeave? ==> me.round == m.round + 1 || Returned(me.pc))
    // the master starts a new round only when the slave has left the old one
    && (m.pc.ResetStatus? || m.pc.ResetEntry? ==> me.round == m.round && Unbooted(me.pc))
  }

  lemma InvOrders(s: State, i: nat)
    requires Inv(s) && i < |s.slaves|
    ensures Ordered(s, i)
  {
    assert SlaveInv(s, i);
  }

  /** Safety for any number of cores, any interleaving and any initial shared memory. */
  lemma BootOrder(states: seq<State>, moves: seq<Move>, k: nat, i: nat)
    requires Run(states, moves) && k < |states| && i < |states[k].slaves|
    ensures Ordered(states[k], i)
  {
    hide Inv; hide Ordered;
    RunKeepsInv(states, moves, k);
    InvOrders(states[k], i);
  }

  /** The rounds of any two slaves differ by at most one, too. */
  lemma RoundsClose(states: seq<State>, moves: seq<Move>, k: nat, i: nat, j: nat)
    requires Run(states, moves) && k < |states| && i < |states[k].slaves| && j < |states[k].slaves|
    ensures states[k].slaves[i].round <= states[k].slaves[j].round + 1
  {
    BootOrder(states, moves, k, i);
    BootOrder(states, moves, k, j);
  }

  /** In step `j` the master's download of round `r` completes. */
  predicate DownloadStep(states: seq<State>, j: nat, r: nat)
    requires j + 1 < |states|
  {
    states[j].m.pc.Download? && states[j].m.round == r && states[j + 1].m.pc == CopySpm(0)
  }

  lemma MasterPcStep(s: State, a: Move)
    requires Shape(s) && Possible(s, a)
    ensures var s' := Step(s, a);
            Downloaded(s'.m.pc) ==>
              s'.m.round == s.m.round && (Downloaded(s.m.pc) || (s.m.pc.Download? && s'.m.pc == CopySpm(0)))
  {
  }

  lemma {:induction false} DownloadHappened(states: seq<State>, moves: seq<Move>, k: nat) returns (j: nat)
    requires Run(states, moves) && k < |states| && Downloaded(states[k].m.pc)
    ensures j < k && DownloadStep(states, j, states[k].m.round)
    decreases k
  {
    assert Follows(states[k - 1], moves[k - 1], states[k]);
    MasterPcStep(states[k - 1], moves[k - 1]);
    if Downloaded(states[k - 1].m.pc) {
      j := DownloadHappened(states, moves, k - 1);
    } else {
      j := k - 1;
    }
  }

  /** In every run, a slave that is past the INIT wait of round r is there after a step in which the
      master's download of round r completed. */
  lemma NoSlaveBeforeDownload(states: seq<State>, moves: seq<Move>, k: nat, i: nat) returns (j: nat)
    requires Run(states, moves) && k < |states| && i < |states[k].slaves| && Started(states[k].slaves[i].pc)
    ensures j < k && DownloadStep(states, j, states[k].slaves[i].round)
  {
    BootOrder(states, moves, k, i);
    j := DownloadHappened(states, moves, k);
  }

  /** In step `j` slave `i` makes its own status visible, in its round `r`. */
  predicate BootTold(states: seq<State>, j: nat, i: nat, r: nat)
  {
    && j + 1 < |states| && i < |states[j].slaves| && i < |states[j + 1].slaveStatus|
    && states[j].slaves[i].pc.TellBoot? && states[j].slaves[i].round == r && states[j + 1].slaveStatus[i] == BOOT
  }

  /** The slave has told BOOT in its present round. */
  predicate PastBoot(pc: SlavePc)
  {
    pc.SeeBoot? || pc.SeeInit? || Started(pc)
  }

  lemma SlavePcStep(s: State, a: Move, i: nat)
    requires Shape(s) && Possible(s, a) && i < |s.slaves|
    ensures var me, me' := s.slaves[i], Step(s, a).slaves[i];
            PastBoot(me'.pc) ==>
              && me'.round == me.round
              && (PastBoot(me.pc) || (me.pc.TellBoot? && Step(s, a).slaveStatus[i] == BOOT))
  {
  }

  /** In every run, a slave that looks for BOOT, or is past that, has made its own status visible in that round. */
  lemma {:induction false} BootToldBefore(states: seq<State>, moves: seq<Move>, k: nat, i: nat) returns (j: nat)
    requires Run(states, moves) && k < |states| && i < |states[k].slaves| && PastBoot(states[k].slaves[i].pc)
    ensures j < k && BootTold(states, j, i, states[k].slaves[i].round)
    decreases k
  {
    assert Follows(states[k - 1], moves[k - 1], states[k]);
    SlavePcStep(states[k - 1], moves[k - 1], i);
    hide Step;
    if PastBoot(states[k - 1].slaves[i].pc) {
      j := BootToldBefore(states, moves, k - 1, i);
    } else {
      j := k - 1;
    }
  }

  // ----- Leftovers of previous runs -------------------------------------------------------------------------

  /** The master has not come as far as `download` in round `r`. */
  predicate BeforeDownload(m: Master, r: nat)
  {
    m.round < r || (m.round == r && !Downloaded(m.pc))
  }

  /** The master has not written BOOT in round `r`. */
  predicate BeforeBoot(m: Master, r: nat)
  {
    m.round < r || (m.round == r && Phase(m.pc) <= 1)
  }

  /** Once slave `i` is past its resets of a round, nothing of earlier rounds, or of the time before power-on, is left
      where it looks: no entry point before the download, no status before BOOT, no answer in its own slot. */
  predicate Clean(s: State, i: nat)
    requires Shape(s) && i < |s.slaves|
  {
    var me, told := s.slaves[i], s.slaveStatus[i];
    && (!me.pc.SlaveResetStatus? && BeforeBoot(s.m, me.round) ==> s.masterStatus == NULL)
    && (!me.pc.SlaveResetStatus? && !me.pc.SlaveResetEntry? && BeforeDownload(s.m, me.round) ==> s.entry == 0)
    && (me.pc.TellBoot? || me.pc.SeeBoot? || me.pc.SeeInit? ==> told == NULL || told == BOOT)
  }

  /** The master's own resets. */
  predicate MasterClean(s: State)
  {
    && (Phase(s.m.pc) == 1 ==> s.masterStatus == NULL)
    && (!s.m.pc.ResetStatus? && !s.m.pc.ResetEntry? && !Downloaded(s.m.pc) ==> s.entry == 0)
  }

  predicate AllClean(s: State)
  {
    Shape(s) && MasterClean(s) && forall i :: 0 <= i < |s.slaves| ==> Clean(s, i)
  }

  lemma StepKeepsMasterClean(s: State, a: Move)
    requires Inv(s) && AllClean(s) && Possible(s, a)
    ensures MasterClean(Step(s, a))
  {
    if a.SlaveMoves? { assert SlaveInv(s, a.i); }
  }

  /** What a step of the master can change of what slave `i` sees. */
  lemma MasterWrites(s: State, image: seq<nat>, entry: nat, i: nat, r: nat)
    requires Shape(s) && |image| == |s.image| && i < |s.slaves|
    ensures var s' := MasterStep(s, image, entry);
            && s'.slaves == s.slaves && |s'.slaveStatus| == |s.slaveStatus|
            && (s'.slaveStatus[i] == s.slaveStatus[i] || s'.slaveStatus[i] == NULL)
            && (BeforeBoot(s'.m, r) ==> BeforeBoot(s.m, r)) && (BeforeDownload(s'.m, r) ==> BeforeDownload(s.m, r))
            && (s'.masterStatus == s.masterStatus || s'.masterStatus == NULL
                || (Phase(s'.m.pc) >= 2 && s'.m.round == s.m.round))
            && (s'.entry == s.entry || s'.entry == 0 || (Downloaded(s'.m.pc) && Phase(s.m.pc) == 2
                                                         && s'.m.round == s.m.round))
  {
  }

  lemma MasterKeepsClean(s: State, image: seq<nat>, entry: nat, i: nat)
    requires Inv(s) && |image| == |s.image| && i < |s.slaves| && Clean(s, i)
    ensures Clean(MasterStep(s, image, entry), i)
  {
    assert SlaveInv(s, i);
    MasterWrites(s, image, entry, i, s.slaves[i].round);
    hide CopyInv; hide MasterInv; hide ToldInv; hide StatusInv; hide MasterStep;
  }

  lemma SlaveKeepsOwnClean(s: State, k: nat)
    requires Inv(s) && k < |s.slaves| && Clean(s, k)
    ensures Clean(SlaveStep(s, k), k)
  {
    assert SlaveInv(s, k);
    hide CopyInv; hide MasterInv;
  }

  lemma SlaveKeepsOtherClean(s: State, k: nat, i: nat)
    requires Shape(s) && k < |s.slaves| && i < |s.slaves| && i != k && Clean(s, i)
    ensures Clean(SlaveStep(s, k), i)
  {
    hide SlaveStep;
    SlaveLeavesOthers(s, k, i);
  }

  lemma StepKeepsClean(s: State, a: Move, i: nat)
    requires Inv(s) && AllClean(s) && Possible(s, a) && i < |s.slaves|
    ensures Clean(Step(s, a), i)
  {
    assert Clean(s, i);
    hide Inv; hide Clean; hide MasterStep; hide SlaveStep;
    match a {
      case MasterMoves(image, entry) => MasterKeepsClean(s, image, entry, i);
      case SlaveMoves(k) => if k == i { SlaveKeepsOwnClean(s, k); } else { SlaveKeepsOtherClean(s, k, i); }
    }
  }

  /** Whatever shared memory held at power-on, in every run. */
  lemma {:induction false} NothingLeftOver(states: seq<State>, moves: seq<Move>, k: nat)
    requires Run(states, moves) && k < |states|
    ensures AllClean(states[k])
    decreases k
  {
    if k > 0 {
      var s, a := states[k - 1], moves[k - 1];
      NothingLeftOver(states, moves, k - 1);
      RunKeepsInv(states, moves, k - 1);
      assert Follows(s, a, states[k]);
      hide Step; hide Inv; hide Clean; hide MasterClean;
      StepKeepsMasterClean(s, a);
      forall i | 0 <= i < |states[k].slaves|
        ensures Clean(states[k], i)
      {
        StepKeepsClean(s, a, i);
      }
    }
  }
}
