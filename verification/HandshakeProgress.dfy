/** Progress of the boot handshake under the timing allowance the boot loader relies on ("give the
    slaves some time to boot", patmos/c/bootloader/bootloader.c), and what goes wrong without it. */
module HandshakeProgress {
  import opened Products
  import opened Handshake

  // ----- The timing allowance ------------------------------------------------------------------

  /** The slave is still overwriting leftovers from previous runs. */
  predicate Resetting(pc: SlavePc)
  {
    pc.SlaveResetStatus? || pc.SlaveResetEntry? || pc.ClearOwn?
  }

  /** The slave has yet to read RETURN. */
  predicate AwaitsReturn(me: Slave, round: int)
  {
    me.round == round && (me.pc.TellReturn? || me.pc.SeeReturn?)
  }

  /** The allowance: the last BOOT is written after every slave's resets, INIT after every slave has
      read BOOT, and no core restarts before every slave has read RETURN. */
  predicate Timely(s: State, a: Move)
    requires Possible(s, a)
  {
    match a
    case MasterMoves(_, _) =>
      && (s.m.pc == WriteBoot(15) ==> forall i :: 0 <= i < |s.slaves| ==> !Resetting(s.slaves[i].pc))
      && (s.m.pc == WriteInit ==> forall i :: 0 <= i < |s.slaves| ==> s.slaves[i].pc.SeeInit?)
      && (s.m.pc == ResetStatus ==> forall i :: 0 <= i < |s.slaves| ==> !AwaitsReturn(s.slaves[i], s.m.round - 1))
    case SlaveMoves(k) =>
      s.slaves[k].pc.SlaveResetStatus? ==>
        forall i :: 0 <= i < |s.slaves| ==> !AwaitsReturn(s.slaves[i], s.slaves[k].round - 1)
  }

  // ----- What holds in every timely run ---------------------------------------------------------

  /** After the master's application phase. */
  predicate MasterReturned(pc: MasterPc)
  {
    pc.TestNull? || pc.AwaitReturn? || pc.WriteReturn? || pc.AwaitLeave?
  }

  predicate FirmMaster(s: State)
  {
    match s.m.pc
    case Download => s.masterStatus == BOOT
    case CopySpm(_) => s.masterStatus == BOOT && s.entry == s.fetched
    case WriteInit => s.masterStatus == BOOT && s.entry == s.fetched
    case CallEntry => s.masterStatus == INIT && s.entry == s.fetched != 0
    case Application => s.masterStatus == INIT && s.entry == s.fetched == s.m.called != 0
    case AwaitLeave(_) => s.fetched != 0 ==> s.m.called == s.fetched
    case _ =>
      Phase(s.m.pc) == 3 ==>
        && s.masterStatus == INIT && s.entry == s.fetched
        && (MasterReturned(s.m.pc) && s.fetched != 0 ==> s.m.called == s.fetched)
  }

  /** In the master's round: how far the slave must be, and that it has called what was downloaded. */
  predicate FirmSlave(s: State, i: nat)
    requires i < |s.slaves|
  {
    var me, pc := s.slaves[i], s.m.pc;
    && (pc.Download? || pc.CopySpm? || pc.WriteInit? ==> !Resetting(me.pc))
    && (Phase(pc) == 3 ==> me.pc.SeeInit? || Started(me.pc))
    && (Phase(pc) == 4 && AwaitsReturn(me, s.m.round) ==> s.masterStatus == RETURN)
    && (me.pc.SlaveCallEntry? ==> s.fetched != 0)
    && (me.pc.SlaveApplication? ==> me.called == s.fetched != 0)
    && (Returned(me.pc) && s.fetched != 0 ==> me.called == s.fetched)
  }

  predicate Firm(s: State)
  {
    Inv(s) && FirmMaster(s) && forall i :: 0 <= i < |s.slaves| ==> FirmSlave(s, i)
  }

  lemma StartFirm(s: State)
    requires Start(s)
    ensures Firm(s)
  {
    StartInv(s);
  }

  lemma MasterKeepsFirm(s: State, image: seq<nat>, entry: nat)
    requires Firm(s) && |image| == |s.image| && Timely(s, MasterMoves(image, entry))
    ensures FirmMaster(MasterStep(s, image, entry))
  {
  }

  lemma MasterKeepsFirmSlave(s: State, image: seq<nat>, entry: nat, i: nat)
    requires Firm(s) && |image| == |s.image| && i < |s.slaves| && Timely(s, MasterMoves(image, entry))
    ensures FirmSlave(MasterStep(s, image, entry), i)
  {
    assert SlaveInv(s, i) && FirmSlave(s, i);
  }

  lemma SlaveKeepsFirm(s: State, k: nat)
    requires Firm(s) && k < |s.slaves| && Timely(s, SlaveMoves(k))
    ensures FirmMaster(SlaveStep(s, k))
  {
    assert SlaveInv(s, k) && FirmSlave(s, k);
  }

  lemma SlaveKeepsFirmResetting(s: State, k: nat)
    requires Firm(s) && k < |s.slaves| && Timely(s, SlaveMoves(k)) && Resetting(s.slaves[k].pc)
    ensures FirmSlave(SlaveStep(s, k), k)
  {
    assert SlaveInv(s, k) && FirmSlave(s, k);
    hide ToldInv; hide CopyInv; hide StatusInv; hide MasterInv; hide FirmMaster;
  }

  lemma SlaveKeepsFirmEarly(s: State, k: nat)
    requires Firm(s) && k < |s.slaves| && Timely(s, SlaveMoves(k))
    requires !Resetting(s.slaves[k].pc) && !Acked(s.slaves[k].pc)
    ensures FirmSlave(SlaveStep(s, k), k)
  {
    assert SlaveInv(s, k) && FirmSlave(s, k);
    hide ToldInv; hide CopyInv; hide MasterInv;
  }

  lemma SlaveKeepsFirmLate(s: State, k: nat)
    requires Firm(s) && k < |s.slaves| && Timely(s, SlaveMoves(k)) && Acked(s.slaves[k].pc)
    ensures FirmSlave(SlaveStep(s, k), k)
  {
    assert SlaveInv(s, k) && FirmSlave(s, k);
    hide ToldInv; hide CopyInv; hide MasterInv;
  }

  lemma SlaveKeepsFirmOwn(s: State, k: nat)
    requires Firm(s) && k < |s.slaves| && Timely(s, SlaveMoves(k))
    ensures FirmSlave(SlaveStep(s, k), k)
  {
    hide Firm; hide Timely; hide FirmSlave; hide SlaveStep;
    if Acked(s.slaves[k].pc) {
      SlaveKeepsFirmLate(s, k);
    } else if Resetting(s.slaves[k].pc) {
      SlaveKeepsFirmResetting(s, k);
    } else {
      SlaveKeepsFirmEarly(s, k);
    }
  }

  lemma SlaveKeepsFirmOther(s: State, k: nat, i: nat)
    requires Firm(s) && k < |s.slaves| && i < |s.slaves| && i != k && Timely(s, SlaveMoves(k))
    ensures FirmSlave(SlaveStep(s, k), i)
  {
    assert SlaveInv(s, k) && SlaveInv(s, i) && FirmSlave(s, k) && FirmSlave(s, i);
    hide ToldInv; hide CopyInv; hide MasterInv; hide StatusInv;
  }

  lemma StepKeepsFirm(s: State, a: Move)
    requires Firm(s) && Possible(s, a) && Timely(s, a)
    ensures Firm(Step(s, a))
  {
    StepKeepsInv(s, a);
    var s' := Step(s, a);
    hide Inv; hide FirmMaster; hide FirmSlave; hide MasterStep; hide SlaveStep; hide Timely;
    match a {
      case MasterMoves(image, entry) =>
        MasterKeepsFirm(s, image, entry);
        forall i | 0 <= i < |s.slaves| ensures FirmSlave(s', i) { MasterKeepsFirmSlave(s, image, entry, i); }
      case SlaveMoves(k) =>
        SlaveKeepsFirm(s, k);
        forall i | 0 <= i < |s.slaves| ensures FirmSlave(s', i) {
          if i == k { SlaveKeepsFirmOwn(s, k); } else { SlaveKeepsFirmOther(s, k, i); }
        }
    }
  }

  // ----- A measure of progress ---------------------------------------------------------------------

  /** Steps of the master in a round, up to `pc`, for `n` slaves and `w` I-SPM words. */
  function MasterRank(pc: MasterPc, n: nat, w: nat): nat
  {
    match pc
    case ResetStatus => 0
    case ResetEntry => 1
    case ClearSlave(i) => 2 + i
    case WriteBoot(k) => 3 + n + k
    case Download => 3 + n + BOOTS
    case CopySpm(x) => 4 + n + BOOTS + x
    case WriteInit => 5 + n + BOOTS + w
    case AwaitInit(i) => 6 + n + BOOTS + w + i
    case TestEntry => 7 + 2 * n + BOOTS + w
    case CallEntry => 8 + 2 * n + BOOTS + w
    case Application => 9 + 2 * n + BOOTS + w
    case TestNull(i) => 10 + 2 * n + BOOTS + w + 2 * i
    case AwaitReturn(i) => 11 + 2 * n + BOOTS + w + 2 * i
    case WriteReturn => 11 + 4 * n + BOOTS + w
    case AwaitLeave(i) => 12 + 4 * n + BOOTS + w + i
  }

  /** Telling and looking again counts for nothing: repeating a do-while turn keeps the rank. */
  function SlaveRank(pc: SlavePc, w: nat): nat
  {
    match pc
    case SlaveResetStatus => 0
    case SlaveResetEntry => 1
    case ClearOwn => 2
    case TellBoot => 3
    case SeeBoot => 3
    case SeeInit => 4
    case SlaveCopySpm(x) => 5 + x
    case TellInit => 6 + w
    case SlaveTestEntry => 7 + w
    case SlaveCallEntry => 8 + w
    case SlaveApplication => 9 + w
    case TellReturn(first) => if first then 10 + w else 11 + w
    case SeeReturn => 11 + w
    case Leave => 12 + w
  }

  /** More than any rank. */
  function PerRound(n: nat, w: nat): nat
  {
    13 + 5 * n + BOOTS + w
  }

  function Total(slaves: seq<Slave>, w: nat, period: nat): nat
  {
    if slaves == [] then 0
    else slaves[0].round * period + SlaveRank(slaves[0].pc, w) + Total(slaves[1..], w, period)
  }

  /** How far the cores have come together since power-on. */
  function Progress(s: State): nat
  {
    var n, w := |s.slaves|, |s.image|;
    s.m.round * PerRound(n, w) + MasterRank(s.m.pc, n, w) + Total(s.slaves, w, PerRound(n, w))
  }

  lemma {:induction false} TotalUpdate(slaves: seq<Slave>, i: nat, me: Slave, w: nat, period: nat)
    requires i < |slaves|
    ensures Total(slaves[i := me], w, period) - me.round * period - SlaveRank(me.pc, w)
            == Total(slaves, w, period) - slaves[i].round * period - SlaveRank(slaves[i].pc, w)
  {
    var slaves' := slaves[i := me];
    if i == 0 {
      assert slaves'[1..] == slaves[1..];
    } else {
      assert slaves'[1..] == slaves[1..][i - 1 := me];
      TotalUpdate(slaves[1..], i - 1, me, w, period);
    }
  }

  lemma NextRound(round: nat, period: nat)
    ensures (round + 1) * period == round * period + period
  {
  }

  /** The master really moves: it is not spinning. */
  predicate MasterAdvances(s: State)
    requires Shape(s)
  {
    match s.m.pc
    case AwaitInit(i) => i < |s.slaves| ==> s.slaveStatus[i] == INIT
    case AwaitReturn(i) => i < |s.slaves| && s.slaveStatus[i] == RETURN
    case AwaitLeave(i) => i < |s.slaves| ==> s.slaveStatus[i] != RETURN
    case _ => true
  }

  lemma MasterMovesOn(s: State, image: seq<nat>, entry: nat)
    requires Shape(s) && MasterInv(s) && |image| == |s.image|
    ensures var n, w, m, m' := |s.slaves|, |s.image|, s.m, MasterStep(s, image, entry).m;
            && (m'.round == m.round
                || (m'.round == m.round + 1 && m'.pc.ResetStatus? && MasterRank(m.pc, n, w) < PerRound(n, w)))
            && (m'.round == m.round ==> MasterRank(m'.pc, n, w) >= MasterRank(m.pc, n, w))
            && (m'.round == m.round && MasterAdvances(s) ==> MasterRank(m'.pc, n, w) > MasterRank(m.pc, n, w))
  {
  }

  lemma MasterLeavesSlaves(s: State, image: seq<nat>, entry: nat)
    requires Shape(s) && |image| == |s.image|
    ensures MasterStep(s, image, entry).slaves == s.slaves && |MasterStep(s, image, entry).image| == |s.image|
  {
  }

  lemma MasterProgress(s: State, image: seq<nat>, entry: nat)
    requires Inv(s) && |image| == |s.image|
    ensures Progress(MasterStep(s, image, entry)) >= Progress(s)
    ensures MasterAdvances(s) ==> Progress(MasterStep(s, image, entry)) > Progress(s)
  {
    MasterMovesOn(s, image, entry);
    MasterLeavesSlaves(s, image, entry);
    NextRound(s.m.round, PerRound(|s.slaves|, |s.image|));
    hide Inv; hide Total; hide MasterStep; hide MasterRank; hide MasterAdvances;
    RankStart(|s.slaves|, |s.image|);
  }

  lemma RankStart(n: nat, w: nat)
    ensures MasterRank(ResetStatus, n, w) == 0
  {
  }

  /** The slave really moves: it is not spinning or starting another turn of a do-while. */
  predicate SlaveAdvances(s: State, i: nat)
    requires i < |s.slaves|
  {
    match s.slaves[i].pc
    case TellBoot => false
    case SeeBoot => s.masterStatus == BOOT
    case SeeInit => s.masterStatus == INIT
    case TellReturn(first) => first
    case SeeReturn => s.masterStatus == RETURN
    case _ => true
  }

  lemma SlaveProgress(s: State, i: nat)
    requires Inv(s) && i < |s.slaves|
    ensures Progress(SlaveStep(s, i)) >= Progress(s)
    ensures SlaveAdvances(s, i) ==> Progress(SlaveStep(s, i)) > Progress(s)
  {
    assert SlaveInv(s, i);
    var w, period := |s.image|, PerRound(|s.slaves|, |s.image|);
    var s' := SlaveStep(s, i);
    var me, me' := s.slaves[i], s'.slaves[i];
    assert s'.slaves == s.slaves[i := me'];
    TotalUpdate(s.slaves, i, me', w, period);
    NextRound(me.round, period);
    hide Total; hide StatusInv; hide MasterInv; hide PlaceInv; hide ToldInv; hide Inv;
    SlaveMovesOn(s, i);
  }

  lemma SlaveMovesOn(s: State, i: nat)
    requires Shape(s) && i < |s.slaves| && CopyInv(s, i)
    ensures var w, me, me' := |s.image|, s.slaves[i], SlaveStep(s, i).slaves[i];
            && (me'.round == me.round
                || (me'.round == me.round + 1 && me'.pc.SlaveResetStatus? && SlaveRank(me.pc, w) == 12 + w))
            && (me'.round == me.round ==> SlaveRank(me'.pc, w) >= SlaveRank(me.pc, w))
            && (me'.round == me.round && SlaveAdvances(s, i) ==> SlaveRank(me'.pc, w) > SlaveRank(me.pc, w))
  {
  }

  /** No step of any core ever undoes progress. */
  lemma NoStepBack(s: State, a: Move)
    requires Inv(s) && Possible(s, a)
    ensures Progress(Step(s, a)) >= Progress(s)
  {
    hide Progress; hide MasterStep; hide SlaveStep;
    match a
    case MasterMoves(image, entry) => MasterProgress(s, image, entry);
    case SlaveMoves(i) => SlaveProgress(s, i);
  }

  // ----- The acknowledgement the master can miss -----------------------------------------------------

  /** Slave `i` has replaced its INIT by RETURN before the master looked for it. */
  predicate MissedBy(s: State, i: nat)
    requires i < |s.slaves|
  {
    var me := s.slaves[i];
    && s.m.pc.AwaitInit? && s.m.pc.i <= i && me.round == s.m.round
    && (me.pc.SeeReturn? || (me.pc.TellReturn? && !me.pc.first))
  }

  predicate Missed(s: State)
  {
    exists i :: 0 <= i < |s.slaves| && MissedBy(s, i)
  }

  /** Once missed, the acknowledgement stays missed, whatever any core does: the master never leaves
      its wait. The three timing allowances do not exclude this. */
  lemma MissedForever(s: State, a: Move, i: nat)
    requires Inv(s) && Possible(s, a) && i < |s.slaves| && MissedBy(s, i)
    ensures MissedBy(Step(s, a), i)
  {
    assert SlaveInv(s, i);
  }

  /** The fourth allowance: a slave's application lasts until the master has seen its INIT. */
  predicate Prompt(s: State, a: Move)
    requires Possible(s, a)
  {
    a.SlaveMoves? && s.slaves[a.i].pc == TellReturn(true) ==> PastAck(s.m.pc, a.i)
  }

  /** The step in which an acknowledgement is missed, exactly: slave `i` tells its return for the first time before
      the master has seen its INIT. */
  lemma MissedIff(s: State, a: Move, i: nat)
    requires Firm(s) && Possible(s, a) && Timely(s, a)
    requires i < |s.slaves| && !MissedBy(s, i)
    ensures MissedBy(Step(s, a), i) <==> a == SlaveMoves(i) && !Prompt(s, a)
  {
    assert SlaveInv(s, i) && FirmSlave(s, i);
  }

  // ----- Somebody can always move on -------------------------------------------------------------------

  /** One or two steps of slave `i` lead it on. */
  predicate Able(s: State, i: nat)
    requires i < |s.slaves|
  {
    || SlaveAdvances(s, i)
    || (s.slaves[i].pc.TellBoot? && s.masterStatus == BOOT)
    || (s.slaves[i].pc.TellReturn? && s.masterStatus == RETURN)
  }

  predicate Allowed(s: State, a: Move)
  {
    Possible(s, a) && Timely(s, a) && Prompt(s, a)
  }

  lemma OldRoundsOver(s: State, k: nat)
    requires Firm(s) && k < |s.slaves| && s.slaves[k].pc.SlaveResetStatus? && Phase(s.m.pc) <= 2
    ensures Timely(s, SlaveMoves(k))
  {
    assert SlaveInv(s, k);
    forall i | 0 <= i < |s.slaves|
      ensures !AwaitsReturn(s.slaves[i], s.slaves[k].round - 1)
    {
      assert SlaveInv(s, i);
    }
  }

  /** If the master cannot move on, some slave can. */
  lemma WaitedForSlaveAble(s: State) returns (k: nat)
    requires Firm(s) && !Missed(s)
    requires s.m.pc.AwaitInit? || s.m.pc.AwaitReturn? || s.m.pc.AwaitLeave?
    requires !MasterAdvances(s)
    ensures k < |s.slaves| && Able(s, k) && Allowed(s, SlaveMoves(k))
  {
    k := s.m.pc.i;
    assert SlaveInv(s, k) && FirmSlave(s, k);
    assert !MissedBy(s, k);
  }

  lemma ResettingSlaveAble(s: State) returns (k: nat)
    requires Firm(s) && s.m.pc == WriteBoot(15)
    requires exists i :: 0 <= i < |s.slaves| && Resetting(s.slaves[i].pc)
    ensures k < |s.slaves| && Able(s, k) && Allowed(s, SlaveMoves(k))
  {
    k :| 0 <= k < |s.slaves| && Resetting(s.slaves[k].pc);
    if s.slaves[k].pc.SlaveResetStatus? { OldRoundsOver(s, k); }
  }

  lemma UnbootedSlaveAble(s: State) returns (k: nat)
    requires Firm(s) && s.m.pc == WriteInit
    requires exists i :: 0 <= i < |s.slaves| && !s.slaves[i].pc.SeeInit?
    ensures k < |s.slaves| && Able(s, k) && Allowed(s, SlaveMoves(k))
  {
    k :| 0 <= k < |s.slaves| && !s.slaves[k].pc.SeeInit?;
    assert SlaveInv(s, k) && FirmSlave(s, k);
  }

  lemma MasterMayRestart(s: State)
    requires Firm(s) && s.m.pc == ResetStatus
    ensures Timely(s, MasterMoves(s.image, 0))
  {
    forall i | 0 <= i < |s.slaves|
      ensures !AwaitsReturn(s.slaves[i], s.m.round - 1)
    {
      assert SlaveInv(s, i);
    }
  }

  /** The moves are possible and allowed, one after the other. */
  predicate AllAllowed(s: State, moves: seq<Move>)
    requires Shape(s)
    decreases moves
  {
    moves == [] || (Allowed(s, moves[0]) && AllAllowed(Step(s, moves[0]), moves[1..]))
  }

  function Execute(s: State, moves: seq<Move>): (s': State)
    requires Shape(s) && AllAllowed(s, moves)
    ensures Shape(s') && |s'.slaves| == |s.slaves|
    decreases moves
  {
    if moves == [] then s else Execute(Step(s, moves[0]), moves[1..])
  }

  lemma OneMove(s: State, a: Move)
    requires Shape(s) && Allowed(s, a)
    ensures AllAllowed(s, [a]) && Execute(s, [a]) == Step(s, a)
  {
    hide Allowed; hide Step;
    var moves := [a];
    assert moves[1..] == [];
  }

  lemma TwoMoves(s: State, a: Move, b: Move)
    requires Shape(s) && Allowed(s, a) && Allowed(Step(s, a), b)
    ensures AllAllowed(s, [a, b]) && Execute(s, [a, b]) == Step(Step(s, a), b)
  {
    var s1 := Step(s, a);
    OneMove(s1, b);
    hide Allowed; hide Step;
    var moves := [a, b];
    assert moves[1..] == [b];
  }

  lemma AbleSlaveAdvances(s: State, k: nat) returns (moves: seq<Move>)
    requires Firm(s) && k < |s.slaves| && Able(s, k) && Allowed(s, SlaveMoves(k))
    ensures 1 <= |moves| <= 2 && AllAllowed(s, moves) && Progress(Execute(s, moves)) > Progress(s)
  {
    var a := SlaveMoves(k);
    SlaveProgress(s, k);
    if SlaveAdvances(s, k) {
      moves := [a];
      OneMove(s, a);
    } else {
      moves := [a, a];
      var s1 := Step(s, a);
      StepKeepsInv(s, a);
      SlaveLooks(s, k);
      SlaveProgress(s1, k);
      hide Progress; hide SlaveStep; hide Inv; hide Able; hide SlaveAdvances;
      TwoMoves(s, a, a);
    }
  }

  lemma SlaveLooks(s: State, k: nat)
    requires Shape(s) && k < |s.slaves| && Able(s, k) && !SlaveAdvances(s, k)
    ensures SlaveAdvances(SlaveStep(s, k), k) && Allowed(SlaveStep(s, k), SlaveMoves(k))
  {
  }

  /** Under the allowances and unless an acknowledgement has been missed, one or two steps of some core
      lead on, from every state of every round. */
  lemma SomeoneMovesOn(s: State) returns (moves: seq<Move>)
    requires Firm(s) && !Missed(s)
    ensures 1 <= |moves| <= 2 && AllAllowed(s, moves) && Progress(Execute(s, moves)) > Progress(s)
  {
    var a := MasterMoves(s.image, 0);
    var k: nat;
    if s.m.pc == WriteBoot(15) && (exists i :: 0 <= i < |s.slaves| && Resetting(s.slaves[i].pc)) {
      k := ResettingSlaveAble(s);
      moves := AbleSlaveAdvances(s, k);
    } else if s.m.pc == WriteInit && (exists i :: 0 <= i < |s.slaves| && !s.slaves[i].pc.SeeInit?) {
      k := UnbootedSlaveAble(s);
      moves := AbleSlaveAdvances(s, k);
    } else if !MasterAdvances(s) {
      k := WaitedForSlaveAble(s);
      moves := AbleSlaveAdvances(s, k);
    } else {
      if s.m.pc == ResetStatus { MasterMayRestart(s); }
      moves := [a];
      MasterProgress(s, s.image, 0);
      OneMove(s, a);
    }
  }

  // ----- Round after round ---------------------------------------------------------------------------

  lemma MovesKeepFirm(s: State, a: Move)
    requires Firm(s) && !Missed(s) && Allowed(s, a)
    ensures Firm(Step(s, a)) && !Missed(Step(s, a))
  {
    StepKeepsFirm(s, a);
    var s' := Step(s, a);
    hide Firm; hide MissedBy; hide Timely; hide Prompt; hide Step;
    forall i | 0 <= i < |s'.slaves|
      ensures !MissedBy(s', i)
    {
      MissedIff(s, a, i);
    }
  }

  lemma {:induction false} AllMovesKeepFirm(s: State, moves: seq<Move>)
    requires Firm(s) && !Missed(s) && AllAllowed(s, moves)
    ensures Firm(Execute(s, moves)) && !Missed(Execute(s, moves))
    decreases moves
  {
    hide Missed; hide Timely; hide Prompt; hide Step; hide FirmMaster; hide FirmSlave; hide MasterInv; hide StatusInv;
      hide SlaveInv;
    if moves != [] {
      MovesKeepFirm(s, moves[0]);
      AllMovesKeepFirm(Step(s, moves[0]), moves[1..]);
    }
  }

  lemma {:induction false} ExecuteConcat(s: State, a: seq<Move>, b: seq<Move>)
    requires Shape(s) && AllAllowed(s, a) && AllAllowed(Execute(s, a), b)
    ensures AllAllowed(s, a + b) && Execute(s, a + b) == Execute(Execute(s, a), b)
    decreases a
  {
    hide Timely; hide Prompt; hide Step;
    if a == [] {
      assert a + b == b;
    } else {
      assert (a + b)[1..] == a[1..] + b;
      ExecuteConcat(Step(s, a[0]), a[1..], b);
    }
  }

  /** Any amount of progress can be reached. */
  lemma {:induction false} ProgressUnbounded(s: State, goal: nat) returns (moves: seq<Move>)
    requires Firm(s) && !Missed(s)
    ensures AllAllowed(s, moves) && Progress(Execute(s, moves)) >= goal
    decreases goal - Progress(s)
  {
    hide Missed; hide Allowed; hide Step; hide FirmMaster; hide FirmSlave; hide MasterInv; hide StatusInv;
      hide SlaveInv; hide Progress;
    if Progress(s) >= goal {
      moves := [];
    } else {
      var a := SomeoneMovesOn(s);
      AllMovesKeepFirm(s, a);
      var b := ProgressUnbounded(Execute(s, a), goal);
      ExecuteConcat(s, a, b);
      moves := a + b;
    }
  }

  lemma {:induction false} TotalBound(slaves: seq<Slave>, w: nat, period: nat, round: nat)
    requires period > 0
    requires forall i :: 0 <= i < |slaves| ==> slaves[i].round < round && SlaveRank(slaves[i].pc, w) < period
    ensures Total(slaves, w, period) <= |slaves| * (round * period)
  {
    if slaves != [] {
      var me := slaves[0];
      NextRound(me.round, period);
      MulBound(me.round + 1, period, round, period);
      hide SlaveRank;
      TotalBound(slaves[1..], w, period, round);
      NextRound(|slaves| - 1, round * period);
    }
  }

  lemma RanksSmall(s: State)
    requires Inv(s)
    ensures MasterRank(s.m.pc, |s.slaves|, |s.image|) < PerRound(|s.slaves|, |s.image|)
    ensures forall i :: 0 <= i < |s.slaves| ==>
      s.slaves[i].round < s.m.round + 2 && SlaveRank(s.slaves[i].pc, |s.image|) < PerRound(|s.slaves|, |s.image|)
  {
    forall i | 0 <= i < |s.slaves|
      ensures s.slaves[i].round < s.m.round + 2
          && SlaveRank(s.slaves[i].pc, |s.image|) < PerRound(|s.slaves|, |s.image|)
    {
      assert SlaveInv(s, i);
    }
  }

  /** Progress bounds the round the master is in. */
  lemma ProgressMeansRounds(s: State)
    requires Inv(s)
    ensures Progress(s) < (|s.slaves| + 1) * ((s.m.round + 2) * PerRound(|s.slaves|, |s.image|))
  {
    var n, w := |s.slaves|, |s.image|;
    var period, bound := PerRound(n, w), (s.m.round + 2) * PerRound(n, w);
    RanksSmall(s);
    hide Inv; hide MasterRank; hide SlaveRank; hide PerRound;
    TotalBound(s.slaves, w, period, s.m.round + 2);
    NextRound(s.m.round, period);
    NextRound(s.m.round + 1, period);
    NextRound(n, bound);
  }

  predicate AllIn(s: State, round: nat)
  {
    s.m.round >= round && forall i :: 0 <= i < |s.slaves| ==> s.slaves[i].round >= round
  }

  /** Enough progress means that the master is in the given round. */
  lemma EnoughProgress(n: nat, period: nat, m: nat, round: nat, progress: nat)
    requires progress < (n + 1) * ((m + 2) * period) && progress >= (n + 1) * ((round + 1) * period)
    ensures m >= round
  {
    if m + 2 <= round + 1 {
      MulBound(m + 2, period, round + 1, period);
      MulBound(n + 1, (m + 2) * period, n + 1, (round + 1) * period);
    }
  }

  /** Under the allowances every round can be reached by all cores. */
  lemma RoundsGoOn(s: State, round: nat) returns (moves: seq<Move>)
    requires Firm(s) && !Missed(s)
    ensures AllAllowed(s, moves) && AllIn(Execute(s, moves), round)
  {
    var period := PerRound(|s.slaves|, |s.image|);
    var goal := (|s.slaves| + 1) * ((round + 1) * period);
    moves := ProgressUnbounded(s, goal);
    AllMovesKeepFirm(s, moves);
    ImageSize(s, moves);
    var s' := Execute(s, moves);
    ProgressMeansRounds(s');
    hide Inv; hide Missed; hide Allowed; hide FirmMaster; hide FirmSlave; hide Progress; hide PerRound; hide AllIn;
    EnoughProgress(|s.slaves|, period, s'.m.round, round, Progress(s'));
    RanksAll(s', round);
  }

  lemma RanksAll(s: State, round: nat)
    requires Inv(s) && s.m.round >= round
    ensures AllIn(s, round)
  {
    forall i | 0 <= i < |s.slaves|
      ensures s.slaves[i].round >= round
    {
      assert SlaveInv(s, i);
    }
  }

  lemma StepImageSize(s: State, a: Move)
    requires Shape(s) && Possible(s, a)
    ensures |Step(s, a).image| == |s.image|
  {
  }

  lemma {:induction false} ImageSize(s: State, moves: seq<Move>)
    requires Shape(s) && AllAllowed(s, moves)
    ensures |Execute(s, moves).image| == |s.image|
    decreases moves
  {
    if moves != [] {
      StepImageSize(s, moves[0]);
      hide Allowed; hide Step;
      ImageSize(Step(s, moves[0]), moves[1..]);
    }
  }

  lemma {:induction false} MissedNeverOn(s: State, moves: seq<Move>, i: nat)
    requires Firm(s) && AllAllowed(s, moves) && i < |s.slaves| && MissedBy(s, i)
    ensures Execute(s, moves).m.round == s.m.round
    decreases moves
  {
    if moves != [] {
      var a := moves[0];
      MissedForever(s, a, i);
      StepKeepsFirm(s, a);
      SameRound(s, a, i);
      MissedNeverOn(Step(s, a), moves[1..], i);
    }
  }

  lemma SameRound(s: State, a: Move, i: nat)
    requires Shape(s) && Possible(s, a) && s.m.pc.AwaitInit?
    ensures Step(s, a).m.round == s.m.round
  {
  }

  /** In any run whatever, timely or not: a missed acknowledgement keeps the master waiting from then on. */
  lemma {:induction false} MissedInRun(states: seq<State>, moves: seq<Move>, k: nat, j: nat, i: nat)
    requires Run(states, moves) && k <= j < |states| && i < |states[k].slaves| && MissedBy(states[k], i)
    ensures i < |states[j].slaves| && MissedBy(states[j], i) && states[j].m.round == states[k].m.round
    decreases j - k
  {
    hide Step; hide Inv;
    if k < j {
      MissedInRun(states, moves, k, j - 1, i);
      RunKeepsInv(states, moves, j - 1);
      assert Follows(states[j - 1], moves[j - 1], states[j]);
      MissedForever(states[j - 1], moves[j - 1], i);
      SameRound(states[j - 1], moves[j - 1], i);
    }
  }

  /** The exact condition: with resets, boot and restart timed as the boot loader expects, the cores can
      go on to every later round if and only if the master has not missed an acknowledgement. */
  lemma RoundsGoOnIff(s: State)
    requires Firm(s)
    ensures !Missed(s) <==> forall round: nat :: CanReach(s, round)
  {
    if Missed(s) {
      var i :| 0 <= i < |s.slaves| && MissedBy(s, i);
      if CanReach(s, s.m.round + 1) {
        var moves :| AllAllowed(s, moves) && AllIn(Execute(s, moves), s.m.round + 1);
        MissedNeverOn(s, moves, i);
        assert false;
      }
    } else {
      forall round: nat
        ensures CanReach(s, round)
      {
        var moves := RoundsGoOn(s, round);
      }
    }
  }

  ghost predicate CanReach(s: State, round: nat)
    requires Shape(s)
  {
    exists moves :: AllAllowed(s, moves) && AllIn(Execute(s, moves), round)
  }

  // ----- Runs under the three allowances ------------------------------------------------------------

  predicate TimelyPath(states: seq<State>, moves: seq<Move>)
  {
    && |states| == |moves| + 1
    && forall k :: 0 <= k < |moves| ==> Follows(states[k], moves[k], states[k + 1]) && Timely(states[k], moves[k])
  }

  lemma {:induction false} PathKeepsFirm(states: seq<State>, moves: seq<Move>, k: nat)
    requires TimelyPath(states, moves) && Firm(states[0]) && k < |states|
    ensures Firm(states[k])
    decreases k
  {
    hide Timely; hide Step;
    if k > 0 {
      PathKeepsFirm(states, moves, k - 1);
      assert Follows(states[k - 1], moves[k - 1], states[k]);
      StepKeepsFirm(states[k - 1], moves[k - 1]);
    }
  }

  /** In every timely run from power-on, whatever core calls the application calls the entry point that
      `download` returned, and a core that has returned had called it unless it was NULL. */
  lemma EntryPointsAgree(states: seq<State>, moves: seq<Move>, k: nat, i: nat)
    requires TimelyPath(states, moves) && Start(states[0]) && k < |states| && i < |states[k].slaves|
    ensures var s := states[k];
            && (s.m.pc.Application? ==> s.m.called == s.fetched != 0)
            && (MasterReturned(s.m.pc) && s.fetched != 0 ==> s.m.called == s.fetched)
            && (s.slaves[i].pc.SlaveApplication? ==> s.slaves[i].called == s.fetched != 0)
            && (Returned(s.slaves[i].pc) && s.fetched != 0 ==> s.slaves[i].called == s.fetched)
  {
    StartFirm(states[0]);
    PathKeepsFirm(states, moves, k);
    assert FirmSlave(states[k], i);
  }

  /** Slave `i` has acknowledged and the master has not looked yet. */
  predicate Unseen(s: State, i: nat)
    requires i < |s.slaves|
  {
    s.m.pc.AwaitInit? && s.m.pc.i <= i && s.slaves[i].round == s.m.round
  }

  /** One step of the application part of slave `i`, taken alone, is always timely. */
  lemma AloneTimely(s: State, i: nat) returns (s': State)
    requires Shape(s) && i < |s.slaves| && Unseen(s, i)
    requires s.slaves[i].pc.TellInit? || s.slaves[i].pc.SlaveTestEntry? || s.slaves[i].pc.SlaveCallEntry?
             || s.slaves[i].pc.SlaveApplication? || s.slaves[i].pc.TellReturn?
    ensures s' == SlaveStep(s, i) && Follows(s, SlaveMoves(i), s') && Timely(s, SlaveMoves(i))
    ensures |s'.slaves| == |s.slaves| && Unseen(s', i) && s'.entry == s.entry
  {
    s' := SlaveStep(s, i);
  }

  /** A slave that is about to acknowledge can always run to its RETURN before the master looks, and no
      timing allowance stands in its way. */
  lemma AcknowledgementCanBeMissed(s: State, i: nat) returns (states: seq<State>, moves: seq<Move>)
    requires Firm(s) && i < |s.slaves| && s.slaves[i].pc.TellInit?
    ensures TimelyPath(states, moves) && states[0] == s
    ensures |states[|moves|].slaves| == |s.slaves| && MissedBy(states[|moves|], i)
  {
    assert SlaveInv(s, i);
    var a := SlaveMoves(i);
    hide Timely; hide Follows; hide Inv;
    var s1 := AloneTimely(s, i);
    var s2 := AloneTimely(s1, i);
    var s3 := AloneTimely(s2, i);
    if s.entry != 0 {
      var s4 := AloneTimely(s3, i);
      var s5 := AloneTimely(s4, i);
      states, moves := [s, s1, s2, s3, s4, s5], [a, a, a, a, a];
    } else {
      states, moves := [s, s1, s2, s3], [a, a, a];
    }
  }

  // ----- The miss, from power-on ------------------------------------------------------------------------

  /** The slave has not acknowledged in its first round. */
  predicate BeforeAck(s: State, i: nat)
    requires i < |s.slaves|
  {
    s.slaves[i].round == 0 && !Acked(s.slaves[i].pc)
  }

  lemma BeforeAckStays(s: State, a: Move, i: nat)
    requires Shape(s) && Possible(s, a) && i < |s.slaves| && BeforeAck(s, i) && !s.slaves[i].pc.TellInit?
    ensures BeforeAck(Step(s, a), i)
  {
  }

  /** A path that starts with one more step. */
  lemma PathBefore(s: State, a: Move, states: seq<State>, moves: seq<Move>)
    requires Shape(s) && Possible(s, a) && Timely(s, a) && TimelyPath(states, moves) && states[0] == Step(s, a)
    ensures TimelyPath([s] + states, [a] + moves)
  {
    hide Timely; hide Step;
    var states', moves' := [s] + states, [a] + moves;
    forall k | 0 <= k < |moves'|
      ensures Follows(states'[k], moves'[k], states'[k + 1]) && Timely(states'[k], moves'[k])
    {
      if k > 0 {
        assert Follows(states[k - 1], moves[k - 1], states[k]);
      }
    }
  }

  lemma PathsJoin(states: seq<State>, moves: seq<Move>, more: seq<State>, moves': seq<Move>)
    requires TimelyPath(states, moves) && TimelyPath(more, moves') && more[0] == states[|moves|]
    ensures TimelyPath(states[..|moves|] + more, moves + moves')
  {
    hide Timely; hide Step;
    var n, all, steps := |moves|, states[..|moves|] + more, moves + moves';
    forall k | 0 <= k < |steps|
      ensures Follows(all[k], steps[k], all[k + 1]) && Timely(all[k], steps[k])
    {
      if k < n {
        assert all[k] == states[k] && all[k + 1] == states[k + 1] && steps[k] == moves[k];
      } else {
        assert all[k] == more[k - n] && all[k + 1] == more[k + 1 - n] && steps[k] == moves'[k - n];
      }
    }
  }

  /** Any allowed moves that bring the slave into its second round pass the point where it is about to acknowledge. */
  lemma {:induction false} ReachTellInit(s: State, moves: seq<Move>, i: nat)
      returns (states: seq<State>, steps: seq<Move>)
    requires Shape(s) && i < |s.slaves| && AllAllowed(s, moves) && BeforeAck(s, i)
    requires Execute(s, moves).slaves[i].round >= 1
    ensures TimelyPath(states, steps) && states[0] == s
    ensures |states[|steps|].slaves| == |s.slaves| && states[|steps|].slaves[i].pc.TellInit?
    decreases |moves|
  {
    hide Timely; hide Prompt; hide Follows;
    if s.slaves[i].pc.TellInit? {
      states, steps := [s], [];
    } else {
      var a := moves[0];
      BeforeAckStays(s, a, i);
      hide Step; hide BeforeAck;
      states, steps := ReachTellInit(Step(s, a), moves[1..], i);
      PathBefore(s, a, states, steps);
      states, steps := [s] + states, [a] + steps;
    }
  }

  /** From every power-on state, whatever is in shared memory, and for every slave, there is a run with resets, boot and
      restart timed as the boot loader expects in which the master misses that slave's acknowledgement. */
  lemma MissedFromPowerOn(s: State, i: nat) returns (states: seq<State>, moves: seq<Move>)
    requires Start(s) && i < |s.slaves|
    ensures TimelyPath(states, moves) && states[0] == s
    ensures |states[|moves|].slaves| == |s.slaves| && MissedBy(states[|moves|], i)
  {
    StartFirm(s);
    assert !Missed(s);
    assert BeforeAck(s, i);
    hide Start; hide Inv; hide Timely; hide Follows; hide Prompt; hide MissedBy; hide FirmSlave; hide FirmMaster;
      hide BeforeAck;
    var round := RoundsGoOn(s, 1);
    var first, steps := ReachTellInit(s, round, i);
    PathKeepsFirm(first, steps, |steps|);
    var more, steps' := AcknowledgementCanBeMissed(first[|steps|], i);
    PathsJoin(first, steps, more, steps');
    states, moves := first[..|steps|] + more, steps + steps';
  }

  /** In step `j` slave `i` tells its return for the first time, and the master has not seen its INIT. */
  predicate Hasty(states: seq<State>, moves: seq<Move>, j: nat, i: nat)
    requires TimelyPath(states, moves) && j < |moves|
  {
    Follows(states[j], moves[j], states[j + 1]) && moves[j] == SlaveMoves(i) && !Prompt(states[j], moves[j])
  }

  /** Over whole runs from power-on: an acknowledgement has been missed exactly if some step was hasty. */
  lemma {:induction false} MissedIffHasty(states: seq<State>, moves: seq<Move>, k: nat, i: nat)
    requires TimelyPath(states, moves) && Start(states[0]) && k < |states| && i < |states[0].slaves|
    ensures |states[k].slaves| == |states[0].slaves|
    ensures MissedBy(states[k], i) <==> exists j :: 0 <= j < k && Hasty(states, moves, j, i)
    decreases k
  {
    hide Timely; hide Step; hide Inv; hide FirmSlave; hide FirmMaster; hide Hasty;
    StartFirm(states[0]);
    if k > 0 {
      MissedIffHasty(states, moves, k - 1, i);
      PathKeepsFirm(states, moves, k - 1);
      assert Follows(states[k - 1], moves[k - 1], states[k]) && Timely(states[k - 1], moves[k - 1]);
      HastyStep(states, moves, k - 1, i);
    }
  }

  lemma HastyStep(states: seq<State>, moves: seq<Move>, j: nat, i: nat)
    requires TimelyPath(states, moves) && j < |moves| && Firm(states[j]) && i < |states[j].slaves|
    requires Follows(states[j], moves[j], states[j + 1])
    ensures |states[j + 1].slaves| == |states[j].slaves|
    ensures MissedBy(states[j + 1], i) <==> MissedBy(states[j], i) || Hasty(states, moves, j, i)
  {
    hide Timely; hide Step; hide FirmSlave; hide FirmMaster;
    var s, a := states[j], moves[j];
    if MissedBy(s, i) {
      MissedForever(s, a, i);
    } else {
      MissedIff(s, a, i);
    }
  }
}
