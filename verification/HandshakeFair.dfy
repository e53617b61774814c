/** The boot handshake (patmos/c/bootloader/bootloader.c) under every fair schedule that keeps the timing allowance:
    all cores go through round after round, exactly as long as the master misses no acknowledgement. */
module HandshakeFair {
  import opened Products
  import opened Handshake
  import opened HandshakeProgress

  datatype Core = TheMaster | TheSlave(i: nat)

  predicate By(a: Move, who: Core)
  {
    match who
    case TheMaster => a.MasterMoves?
    case TheSlave(i) => a == SlaveMoves(i)
  }

  // ----- Infinite executions ------------------------------------------------------------------------------

  /** Step `k` is possible and keeps the allowance. */
  ghost predicate Stepped(run: nat -> State, moves: nat -> Move, k: nat)
  {
    Follows(run(k), moves(k), run(k + 1)) && Timely(run(k), moves(k))
  }

  ghost predicate Execution(run: nat -> State, moves: nat -> Move)
  {
    Start(run(0)) && forall k: nat :: Stepped(run, moves, k)
  }

  ghost predicate Recurs(moves: nat -> Move, n: nat, who: Core)
  {
    exists k: nat :: k >= n && By(moves(k), who)
  }

  /** After every moment every core moves again; a spinning core moves without effect. */
  ghost predicate Fair(run: nat -> State, moves: nat -> Move)
  {
    forall n: nat, who: Core :: (who.TheSlave? ==> who.i < |run(0).slaves|) ==> Recurs(moves, n, who)
  }

  lemma {:induction false} ExecutionFirm(run: nat -> State, moves: nat -> Move, k: nat)
    requires Execution(run, moves)
    ensures Firm(run(k)) && |run(k).slaves| == |run(0).slaves| && |run(k).image| == |run(0).image|
    decreases k
  {
    hide Start; hide Firm; hide Timely; hide Step;
    if k == 0 {
      StartFirm(run(0));
    } else {
      ExecutionFirm(run, moves, k - 1);
      assert Stepped(run, moves, k - 1);
      StepKeepsFirm(run(k - 1), moves(k - 1));
      StepImageSize(run(k - 1), moves(k - 1));
    }
  }

  lemma {:induction false} ProgressGrows(run: nat -> State, moves: nat -> Move, n: nat, k: nat)
    requires Execution(run, moves) && n <= k
    ensures Progress(run(k)) >= Progress(run(n))
    decreases k - n
  {
    hide Start; hide Timely; hide Step; hide Progress; hide FirmMaster; hide FirmSlave; hide Inv;
    if n < k {
      ProgressGrows(run, moves, n, k - 1);
      ExecutionFirm(run, moves, k - 1);
      assert Stepped(run, moves, k - 1);
      NoStepBack(run(k - 1), moves(k - 1));
    }
  }

  // ----- What a step without progress leaves alone ----------------------------------------------------------------

  /** The slave is where it was, or in another half of the same do-while turn. */
  predicate SameTurn(p: SlavePc, q: SlavePc)
  {
    || p == q
    || ((p.TellBoot? || p.SeeBoot?) && (q.TellBoot? || q.SeeBoot?))
    || ((p == TellReturn(false) || p.SeeReturn?) && (q == TellReturn(false) || q.SeeReturn?))
  }

  /** Its status may change from NULL to BOOT, or from anything before the master has cleared it in this round. */
  predicate SameSlave(s: State, t: State, i: nat)
    requires i < |s.slaves| == |t.slaves| && |s.slaveStatus| == |s.slaves| && |t.slaveStatus| == |t.slaves|
  {
    && s.slaves[i].round == t.slaves[i].round && SameTurn(s.slaves[i].pc, t.slaves[i].pc)
    && (s.slaveStatus[i] == t.slaveStatus[i] || !Cleared(s.m.pc, i)
        || ((s.slaveStatus[i].NULL? || s.slaveStatus[i].BOOT?) && (t.slaveStatus[i].NULL? || t.slaveStatus[i].BOOT?)))
  }

  predicate Idle(s: State, t: State)
    requires Shape(s) && Shape(t)
  {
    && s.m == t.m && s.masterStatus == t.masterStatus && |s.slaves| == |t.slaves| && s.image == t.image
    && forall i :: 0 <= i < |s.slaves| ==> SameSlave(s, t, i)
  }

  lemma IdleOn(s: State, t: State, u: State)
    requires Shape(s) && Shape(t) && Shape(u) && Idle(s, t) && Idle(t, u)
    ensures Idle(s, u)
  {
    forall i | 0 <= i < |s.slaves| ensures SameSlave(s, u, i) {
      assert SameSlave(s, t, i) && SameSlave(t, u, i);
    }
  }

  lemma MasterIdle(s: State, image: seq<nat>, entry: nat)
    requires Inv(s) && |image| == |s.image|
    ensures !MasterAdvances(s) ==> MasterStep(s, image, entry) == s
  {
  }

  lemma SlaveIdle(s: State, i: nat)
    requires Inv(s) && i < |s.slaves|
    ensures Shape(SlaveStep(s, i)) && (!SlaveAdvances(s, i) ==> Idle(s, SlaveStep(s, i)))
  {
    assert SlaveInv(s, i);
    hide MasterInv; hide StatusInv; hide PlaceInv; hide CopyInv;
    assert |SlaveStep(s, i).slaves| == |s.slaves|;
  }

  /** Every step makes progress, or is idle; and it moves no other slave. */
  lemma StepOrIdle(s: State, a: Move)
    requires Inv(s) && Possible(s, a)
    ensures var t := Step(s, a); Progress(t) > Progress(s) || Idle(s, t)
    ensures forall i :: 0 <= i < |s.slaves| && a != SlaveMoves(i) ==> Step(s, a).slaves[i] == s.slaves[i]
  {
    match a {
      case MasterMoves(image, entry) =>
        MasterProgress(s, image, entry);
        MasterIdle(s, image, entry);
        MasterLeavesSlaves(s, image, entry);
        hide MasterStep; hide Progress; hide MasterAdvances; hide MasterInv; hide StatusInv;
      case SlaveMoves(k) =>
        SlaveProgress(s, k);
        SlaveIdle(s, k);
        OtherSlaves(s, k);
        hide SlaveStep; hide Progress; hide SlaveAdvances; hide Idle; hide Inv;
    }
  }

  lemma OtherSlaves(s: State, k: nat)
    requires Shape(s) && k < |s.slaves|
    ensures |SlaveStep(s, k).slaves| == |s.slaves|
    ensures forall i :: 0 <= i < |s.slaves| && i != k ==> SlaveStep(s, k).slaves[i] == s.slaves[i]
  {
  }

  /** The core's next move, unless there is progress before it. */
  lemma {:induction false} NextMove(run: nat -> State, moves: nat -> Move, n: nat, k: nat, who: Core)
      returns (more: bool, m: nat)
    requires Execution(run, moves) && n <= k && By(moves(k), who) && (who.TheSlave? ==> who.i < |run(0).slaves|)
    ensures more ==> m > n && Progress(run(m)) > Progress(run(n))
    ensures !more ==> n <= m <= k && By(moves(m), who)
    ensures !more ==> Shape(run(n)) && Shape(run(m)) && Idle(run(n), run(m)) && |run(m).slaves| == |run(0).slaves|
    ensures !more && who.TheSlave? ==> run(m).slaves[who.i] == run(n).slaves[who.i]
    decreases k - n
  {
    hide Start; hide Timely; hide Step; hide Progress; hide FirmMaster; hide FirmSlave;
    hide MasterInv; hide StatusInv; hide SlaveInv;
    ExecutionFirm(run, moves, n);
    if By(moves(n), who) {
      more, m := false, n;
    } else {
      assert Stepped(run, moves, n);
      ExecutionFirm(run, moves, n + 1);
      StepOrIdle(run(n), moves(n));
      if Progress(run(n + 1)) > Progress(run(n)) {
        more, m := true, n + 1;
      } else {
        more, m := NextMove(run, moves, n + 1, k, who);
        if more {
          ProgressGrows(run, moves, n, n + 1);
        } else {
          hide Idle;
          IdleOn(run(n), run(n + 1), run(m));
        }
      }
    }
  }

  // ----- Progress goes on ---------------------------------------------------------------------------------------

  lemma IdleKeepsMaster(s: State, t: State)
    requires Inv(s) && Inv(t) && Idle(s, t) && MasterAdvances(s)
    ensures MasterAdvances(t)
  {
    hide StatusInv; hide SlaveInv;
    if (s.m.pc.AwaitInit? || s.m.pc.AwaitReturn? || s.m.pc.AwaitLeave?) && s.m.pc.i < |s.slaves| {
      assert SameSlave(s, t, s.m.pc.i);
    }
  }

  lemma IdleKeepsAble(s: State, t: State, i: nat)
    requires Shape(s) && Shape(t) && Idle(s, t) && i < |s.slaves| && Able(s, i)
    ensures Able(t, i)
  {
    assert SameSlave(s, t, i);
  }

  /** A master that is not waiting gets on. */
  lemma MasterGoesOn(run: nat -> State, moves: nat -> Move, n: nat) returns (m: nat)
    requires Execution(run, moves) && Fair(run, moves) && Shape(run(n)) && MasterAdvances(run(n))
    ensures m > n && Progress(run(m)) > Progress(run(n))
  {
    hide Start; hide Timely; hide Step; hide Progress; hide FirmMaster; hide FirmSlave;
    hide MasterInv; hide StatusInv; hide SlaveInv; hide Idle; hide MasterAdvances;
    assert Recurs(moves, n, TheMaster);
    var k: nat :| k >= n && By(moves(k), TheMaster);
    var more;
    more, m := NextMove(run, moves, n, k, TheMaster);
    if !more {
      ExecutionFirm(run, moves, n);
      ExecutionFirm(run, moves, m);
      IdleKeepsMaster(run(n), run(m));
      assert Stepped(run, moves, m);
      MasterStepIs(run(m), moves(m));
      MasterProgress(run(m), moves(m).image, moves(m).entry);
      ProgressGrows(run, moves, n, m);
      m := m + 1;
    }
  }

  lemma MasterStepIs(s: State, a: Move)
    requires Shape(s) && Possible(s, a) && a.MasterMoves?
    ensures |a.image| == |s.image| && Step(s, a) == MasterStep(s, a.image, a.entry)
  {
    hide MasterStep;
  }

  lemma SlaveStepIs(s: State, i: nat)
    requires Shape(s) && i < |s.slaves|
    ensures Step(s, SlaveMoves(i)) == SlaveStep(s, i)
  {
    hide SlaveStep;
  }

  /** A slave that can move on by its next step does. */
  lemma SlaveGoesOn(run: nat -> State, moves: nat -> Move, n: nat, i: nat) returns (m: nat)
    requires Execution(run, moves) && Fair(run, moves) && Shape(run(n)) && i < |run(n).slaves| == |run(0).slaves|
    requires SlaveAdvances(run(n), i)
    ensures m > n && Progress(run(m)) > Progress(run(n))
  {
    hide Start; hide Timely; hide Step; hide Progress; hide FirmMaster; hide FirmSlave;
    hide MasterInv; hide StatusInv; hide SlaveInv; hide SameSlave;
    assert Recurs(moves, n, TheSlave(i));
    var k: nat :| k >= n && By(moves(k), TheSlave(i));
    var more;
    more, m := NextMove(run, moves, n, k, TheSlave(i));
    if !more {
      assert SlaveAdvances(run(m), i);
      hide SlaveAdvances; hide Idle;
      ExecutionFirm(run, moves, m);
      assert Stepped(run, moves, m);
      SlaveStepIs(run(m), i);
      SlaveProgress(run(m), i);
      ProgressGrows(run, moves, n, m);
      m := m + 1;
    }
  }

  /** A slave that is able to move on by one or two steps does. */
  lemma AbleGoesOn(run: nat -> State, moves: nat -> Move, n: nat, i: nat) returns (m: nat)
    requires Execution(run, moves) && Fair(run, moves) && Shape(run(n)) && i < |run(n).slaves| == |run(0).slaves|
    requires Able(run(n), i)
    ensures m > n && Progress(run(m)) > Progress(run(n))
  {
    hide Start; hide Timely; hide Step; hide Progress; hide FirmMaster; hide FirmSlave;
    hide MasterInv; hide StatusInv; hide SlaveInv; hide Idle; hide Able; hide SlaveAdvances;
    assert Recurs(moves, n, TheSlave(i));
    var k: nat :| k >= n && By(moves(k), TheSlave(i));
    var more;
    more, m := NextMove(run, moves, n, k, TheSlave(i));
    if !more {
      IdleKeepsAble(run(n), run(m), i);
      ProgressGrows(run, moves, n, m);
      if SlaveAdvances(run(m), i) {
        m := SlaveGoesOn(run, moves, m, i);
      } else {
        ExecutionFirm(run, moves, m + 1);
        assert Stepped(run, moves, m);
        SlaveStepIs(run(m), i);
        SlaveLooks(run(m), i);
        ProgressGrows(run, moves, n, m + 1);
        m := SlaveGoesOn(run, moves, m + 1, i);
      }
    }
  }

  lemma CoresGoOn(run: nat -> State, moves: nat -> Move, n: nat) returns (m: nat)
    requires Execution(run, moves) && Fair(run, moves) && Shape(run(n)) && !Missed(run(n))
    ensures m > n && Progress(run(m)) > Progress(run(n))
  {
    ExecutionFirm(run, moves, n);
    hide Start; hide Timely; hide Step; hide Progress; hide FirmMaster; hide FirmSlave;
    hide MasterInv; hide StatusInv; hide SlaveInv; hide Able; hide Missed;
    if MasterAdvances(run(n)) {
      hide MasterAdvances;
      m := MasterGoesOn(run, moves, n);
    } else {
      var i := WaitedForSlaveAble(run(n));
      hide MasterAdvances;
      m := AbleGoesOn(run, moves, n, i);
    }
  }

  lemma {:induction false} ProgressReached(run: nat -> State, moves: nat -> Move, n: nat, goal: nat) returns (m: nat)
    requires Execution(run, moves) && Fair(run, moves)
    requires forall k: nat :: Shape(run(k)) && !Missed(run(k))
    ensures Progress(run(m)) >= goal
    decreases goal - Progress(run(n))
  {
    hide Start; hide Timely; hide Step; hide Progress; hide Missed; hide Shape;
    if Progress(run(n)) >= goal {
      m := n;
    } else {
      var k := CoresGoOn(run, moves, n);
      m := ProgressReached(run, moves, k, goal);
    }
  }

  // ----- Round after round --------------------------------------------------------------------------------------

  lemma {:induction false} MissedStays(run: nat -> State, moves: nat -> Move, n: nat, k: nat, i: nat)
    requires Execution(run, moves) && n <= k && i < |run(n).slaves| && MissedBy(run(n), i)
    ensures i < |run(k).slaves| && MissedBy(run(k), i) && run(k).m.round == run(n).m.round
    decreases k - n
  {
    hide Start; hide Timely; hide Step; hide FirmMaster; hide FirmSlave; hide MasterInv; hide StatusInv; hide SlaveInv;
    if n < k {
      MissedStays(run, moves, n, k - 1, i);
      ExecutionFirm(run, moves, k - 1);
      assert Stepped(run, moves, k - 1);
      MissedForever(run(k - 1), moves(k - 1), i);
      SameRound(run(k - 1), moves(k - 1), i);
    }
  }

  lemma {:induction false} RoundsKept(run: nat -> State, moves: nat -> Move, n: nat, k: nat)
    requires Execution(run, moves) && n <= k
    ensures run(k).m.round >= run(n).m.round
    decreases k - n
  {
    hide Start; hide Timely; hide FirmMaster; hide FirmSlave; hide MasterInv; hide StatusInv; hide SlaveInv;
    if n < k {
      RoundsKept(run, moves, n, k - 1);
      assert Stepped(run, moves, k - 1);
    }
  }

  ghost predicate Reaches(run: nat -> State, round: nat)
  {
    exists n: nat :: AllIn(run(n), round)
  }

  lemma RoundReached(run: nat -> State, moves: nat -> Move, round: nat)
    requires Execution(run, moves) && Fair(run, moves)
    requires forall k: nat :: Shape(run(k)) && !Missed(run(k))
    ensures Reaches(run, round)
  {
    var size, period := |run(0).slaves|, PerRound(|run(0).slaves|, |run(0).image|);
    hide Start; hide Timely; hide Step; hide Progress; hide FirmMaster; hide FirmSlave;
    hide MasterInv; hide StatusInv; hide SlaveInv; hide Missed; hide PerRound; hide AllIn;
    var n := ProgressReached(run, moves, 0, (size + 1) * ((round + 1) * period));
    ExecutionFirm(run, moves, n);
    var s := run(n);
    ProgressMeansRounds(s);
    if s.m.round + 2 <= round + 1 {
      MulBound(s.m.round + 2, period, round + 1, period);
      MulBound(size + 1, (s.m.round + 2) * period, size + 1, (round + 1) * period);
    }
    RanksAll(s, round);
  }

  /** In every fair execution from power-on that keeps the three timing allowances: all cores go through every round if
      and only if the master never misses an acknowledgement. */
  lemma FairRoundsIff(run: nat -> State, moves: nat -> Move)
    requires Execution(run, moves) && Fair(run, moves)
    ensures forall k: nat :: Shape(run(k))
    ensures (forall k: nat :: !Missed(run(k))) <==> (forall round: nat :: Reaches(run, round))
  {
    hide Start; hide Timely; hide Step; hide FirmMaster; hide FirmSlave; hide MasterInv; hide StatusInv; hide SlaveInv;
    forall k: nat ensures Shape(run(k)) {
      ExecutionFirm(run, moves, k);
    }
    if forall k: nat :: !Missed(run(k)) {
      forall round: nat ensures Reaches(run, round) {
        RoundReached(run, moves, round);
      }
    }
    if n: nat :| Missed(run(n)) {
      var i :| 0 <= i < |run(n).slaves| && MissedBy(run(n), i);
      var round := run(n).m.round + 1;
      if Reaches(run, round) {
        var m: nat :| AllIn(run(m), round);
        if m <= n {
          RoundsKept(run, moves, m, n);
        } else {
          MissedStays(run, moves, n, m, i);
        }
        assert false;
      }
    }
  }
}
