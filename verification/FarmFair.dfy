/** The work farm (patmos/c/cmp/mandelbrot_par.c) under every fair schedule: as long as no core is left out for
    ever, however unevenly they run, the farm finishes. */
module FarmFair {

  import opened Farm
  import opened FarmRoles
  import opened FarmRuns

  // ----- Infinite executions ------------------------------------------------------------------------------

  ghost predicate Stepped(c: Config, run: nat -> State, moves: nat -> Move, k: nat)
    requires Sound(c)
  {
    Shape(c, run(k)) && Possible(c, moves(k)) && run(k + 1) == Step(c, run(k), moves(k))
  }

  /** An infinite sequence of moves from the start; a core that spins or has finished moves without effect. */
  ghost predicate Execution(c: Config, run: nat -> State, moves: nat -> Move)
    requires Sound(c)
  {
    Start(c, run(0)) && forall k: nat :: Stepped(c, run, moves, k)
  }

  /** After every moment every core moves again. */
  ghost predicate Fair(c: Config, moves: nat -> Move)
  {
    forall n: nat, a: Move :: Possible(c, a) ==> Recurs(moves, n, a)
  }

  ghost predicate Recurs(moves: nat -> Move, n: nat, a: Move)
  {
    exists k: nat :: k >= n && moves(k) == a
  }

  lemma {:induction false} ExecutionInv(c: Config, run: nat -> State, moves: nat -> Move, k: nat)
    requires Sound(c) && Execution(c, run, moves)
    ensures Inv(c, run(k))
    decreases k
  {
    hide Inv; hide Start; hide Step;
    if k == 0 {
      StartInv(c, run(0));
    } else {
      ExecutionInv(c, run, moves, k - 1);
      assert Stepped(c, run, moves, k - 1);
      StepKeepsInv(c, run(k - 1), moves(k - 1));
    }
  }

  /** The master has sent every stop packet, and every slave has taken its own. */
  predicate Final(c: Config, s: State)
  {
    |s.lanes| == c.slaves && s.pc.Done? && forall i :: 0 <= i < c.slaves ==> s.lanes[i].pc.Finished?
  }

  // ----- A measure of the work left ---------------------------------------------------------------------------

  function Left(c: Config, l: Lane): nat
    requires LaneShape(c, l)
  {
    if SlaveLeft(c, l) > 0 then SlaveLeft(c, l) else 0
  }

  /** The steps all slaves can take on their own. */
  function TotalLeft(c: Config, lanes: seq<Lane>): nat
    requires forall i :: 0 <= i < |lanes| ==> LaneShape(c, lanes[i])
  {
    if lanes == [] then 0 else Left(c, lanes[0]) + TotalLeft(c, lanes[1..])
  }

  lemma {:induction false} TotalUpdate(c: Config, lanes: seq<Lane>, i: nat, l: Lane)
    requires i < |lanes| && LaneShape(c, l) && forall k :: 0 <= k < |lanes| ==> LaneShape(c, lanes[k])
    ensures TotalLeft(c, lanes[i := l]) - Left(c, l) == TotalLeft(c, lanes) - Left(c, lanes[i])
    decreases |lanes|
  {
    hide LaneShape; hide Left;
    var lanes' := lanes[i := l];
    if i == 0 {
      assert lanes'[1..] == lanes[1..];
    } else {
      assert lanes'[1..] == lanes[1..][i - 1 := l];
      TotalUpdate(c, lanes[1..], i - 1, l);
    }
  }

  /** How far the master is within its phase; polling in the main loop counts for nothing. */
  function Coarse(c: Config, pc: MasterPc): nat
  {
    if pc.Poll? || Within(c, pc) < 0 then 0 else Within(c, pc)
  }

  /** Less work is left in `t` than in `s`: for the master, or for the slaves when the master is where it was. */
  predicate Less(c: Config, t: State, s: State)
    requires Shape(c, s) && Shape(c, t)
  {
    || Phase(t.pc) < Phase(s.pc)
    || (Phase(t.pc) == Phase(s.pc) && |t.out| > |s.out|)
    || (Phase(t.pc) == Phase(s.pc) && |t.out| == |s.out| && Stage(t.pc) < Stage(s.pc))
    || (Phase(t.pc) == Phase(s.pc) && |t.out| == |s.out| && Stage(t.pc) == Stage(s.pc)
        && Coarse(c, t.pc) < Coarse(c, s.pc))
    || (Phase(t.pc) == Phase(s.pc) && |t.out| == |s.out| && Stage(t.pc) == Stage(s.pc)
        && Coarse(c, t.pc) == Coarse(c, s.pc) && TotalLeft(c, t.lanes) < TotalLeft(c, s.lanes))
  }

  /** Nothing has happened, except perhaps that the master looked into other buffers. */
  predicate Stuttered(s: State, t: State)
  {
    t == s.(pc := t.pc) && (t.pc == s.pc || (s.pc.Poll? && t.pc.Poll?))
  }

  lemma StutterKeeps(c: Config, s: State, t: State, u: State)
    requires Shape(c, s) && Shape(c, t) && Shape(c, u) && Stuttered(s, t)
    ensures Less(c, u, t) ==> Less(c, u, s)
    ensures Stuttered(t, u) ==> Stuttered(s, u)
  {
    hide TotalLeft; hide Within;
  }

  /** A slave that can move leaves less to do; one that cannot changes nothing. */
  lemma SlaveLess(c: Config, s: State, i: nat)
    requires Sound(c) && Inv(c, s) && i < c.slaves
    ensures var t := Step(c, s, SlaveMoves(i));
            Shape(c, t) && if Spinning(c, s.lanes[i]) then t == s else Less(c, t, s)
  {
    assert LaneOk(c, s, i);
    SlaveKeepsShape(c, s.lanes[i]);
    if Spinning(c, s.lanes[i]) {
      assert s.lanes[i := s.lanes[i]] == s.lanes;
    } else {
      SlaveGetsOn(c, s.lanes[i]);
      TotalUpdate(c, s.lanes, i, SlaveStep(c, s.lanes[i]));
      hide SlaveStep; hide SlaveLeft; hide TotalLeft; hide LanesInv; hide OutInv; hide Within;
    }
  }

  /** The master gets nearer to its end, or polls, or waits for an answer. */
  lemma MasterLess(c: Config, s: State)
    requires Sound(c) && Inv(c, s)
    ensures var t := MasterStep(c, s); Shape(c, t) && (Less(c, t, s) || Stuttered(s, t))
    ensures Settled(c, s) && !s.pc.Done? && !s.pc.Poll? ==> Less(c, MasterStep(c, s), s)
  {
    MasterKeepsInv(c, s);
    OutBound(c, s);
    OutBound(c, MasterStep(c, s));
    MasterNearer(c, s);
    if Settled(c, s) && !s.pc.Done? && !s.pc.Poll? {
      MasterGetsOn(c, s);
    }
    hide MasterStep; hide Settled; hide LanesInv; hide OutInv; hide TotalLeft; hide Within;
  }

  lemma MasterNearer(c: Config, s: State)
    requires Sound(c) && Inv(c, s)
    ensures Nearer(c, s, MasterStep(c, s)) || Stuttered(s, MasterStep(c, s))
  {
    assert PcBounds(c, s.pc);
    hide LanesInv; hide OutInv; hide RowFor; hide PacketFor; hide FirstRow; hide Rows;
  }

  lemma MoveLess(c: Config, s: State, a: Move)
    requires Sound(c) && Inv(c, s) && Possible(c, a)
    ensures var t := Step(c, s, a); Shape(c, t) && (Less(c, t, s) || Stuttered(s, t))
  {
    hide Inv; hide MasterStep; hide SlaveStep; hide Less; hide Spinning;
    if a.MasterMoves? {
      MasterLess(c, s);
    } else {
      SlaveLess(c, s, a.i);
    }
  }

  // ----- Every fair execution gets on ---------------------------------------------------------------------------

  /** From moment `n` to moment `k` less work is left at some point, or nothing happens. */
  lemma {:induction false} LessOrStuttered(c: Config, run: nat -> State, moves: nat -> Move, n: nat, k: nat)
      returns (less: bool, m: nat)
    requires Sound(c) && Execution(c, run, moves) && n <= k
    ensures Shape(c, run(n)) && Shape(c, run(k)) && Shape(c, run(m))
    ensures if less then n < m <= k && Less(c, run(m), run(n)) else Stuttered(run(n), run(k))
    decreases k - n
  {
    hide Start; hide Step; hide Shape; hide Less;
    assert Stepped(c, run, moves, n) && Stepped(c, run, moves, k);
    m := n;
    if n == k {
      less := false;
    } else {
      less, m := LessOrStuttered(c, run, moves, n, k - 1);
      if !less {
        assert Stepped(c, run, moves, k - 1);
        ExecutionInv(c, run, moves, k - 1);
        MoveLess(c, run(k - 1), moves(k - 1));
        StutterKeeps(c, run(n), run(k - 1), run(k));
        if Less(c, run(k), run(n)) {
          less, m := true, k;
        }
      }
    }
  }

  /** A slave that can move will. */
  lemma SlaveBusy(c: Config, run: nat -> State, moves: nat -> Move, n: nat, i: nat) returns (m: nat)
    requires Sound(c) && Execution(c, run, moves) && Fair(c, moves) && i < c.slaves
    requires Shape(c, run(n)) && !Spinning(c, run(n).lanes[i])
    ensures m > n && Shape(c, run(m)) && Less(c, run(m), run(n))
  {
    hide Start; hide Step; hide Shape; hide Less; hide Spinning;
    assert Recurs(moves, n, SlaveMoves(i));
    var k: nat :| k >= n && moves(k) == SlaveMoves(i);
    var less;
    less, m := LessOrStuttered(c, run, moves, n, k);
    if !less {
      assert Stepped(c, run, moves, k);
      ExecutionInv(c, run, moves, k);
      SlaveLess(c, run(k), i);
      m := k + 1;
      LaterShape(c, run, moves, m);
      StutterKeeps(c, run(n), run(k), run(m));
    }
  }

  lemma LaterShape(c: Config, run: nat -> State, moves: nat -> Move, n: nat)
    requires Sound(c) && Execution(c, run, moves)
    ensures Shape(c, run(n)) && Possible(c, moves(n)) && run(n + 1) == Step(c, run(n), moves(n))
  {
    hide Start; hide Step; hide Shape;
    assert Stepped(c, run, moves, n);
  }

  /** While all slaves wait, only the master changes anything: its next move comes in the same state. */
  lemma {:induction false} NextMasterMove(c: Config, run: nat -> State, moves: nat -> Move, n: nat, k: nat)
      returns (m: nat)
    requires Sound(c) && Execution(c, run, moves) && n <= k && moves(k) == MasterMoves
    requires Shape(c, run(n)) && Settled(c, run(n))
    ensures n <= m <= k && moves(m) == MasterMoves && run(m) == run(n)
    decreases k - n
  {
    if moves(n) == MasterMoves {
      m := n;
    } else {
      LaterShape(c, run, moves, n);
      ExecutionInv(c, run, moves, n);
      hide Start; hide Step; hide Shape; hide Inv; hide Less; hide Spinning;
      SlaveLess(c, run(n), moves(n).i);
      m := NextMasterMove(c, run, moves, n + 1, k);
    }
  }

  /** While all slaves wait, the master polls on until it takes a row or leaves the loop. */
  lemma {:induction false} PollsOn(c: Config, run: nat -> State, moves: nat -> Move, n: nat, swept: bool)
      returns (m: nat)
    requires Sound(c) && Execution(c, run, moves) && Fair(c, moves)
    requires Inv(c, run(n)) && Settled(c, run(n)) && run(n).pc.Poll? && (swept ==> !NothingAhead(c, run(n)))
    ensures m > n && Shape(c, run(m)) && Less(c, run(m), run(n))
    decreases !swept, c.slaves - run(n).pc.i
  {
    assert Recurs(moves, n, MasterMoves);
    var k: nat :| k >= n && moves(k) == MasterMoves;
    var j := NextMasterMove(c, run, moves, n, k);
    var s := run(n);
    LaterShape(c, run, moves, j);
    ExecutionInv(c, run, moves, j + 1);
    var t := MasterStep(c, s);
    assert run(j + 1) == t;
    MasterLess(c, s);
    if Less(c, t, s) {
      m := j + 1;
    } else {
      PollStep(c, s, swept);
      hide Start; hide Step; hide MasterStep; hide Inv; hide Less; hide Spinning; hide NothingAhead;
      m := PollsOn(c, run, moves, j + 1, swept || s.pc.i >= c.slaves);
      StutterKeeps(c, s, t, run(m));
    }
  }

  /** One step of polling in vain: the master comes nearer to a row that waits ahead, or starts a sweep with one. */
  lemma PollStep(c: Config, s: State, swept: bool)
    requires Sound(c) && Inv(c, s) && Settled(c, s) && s.pc.Poll? && (swept ==> !NothingAhead(c, s))
    requires Shape(c, MasterStep(c, s)) && Stuttered(s, MasterStep(c, s)) && !Less(c, MasterStep(c, s), s)
    ensures var t := MasterStep(c, s);
            && t.pc.Poll? && Settled(c, t) && (swept || s.pc.i >= c.slaves ==> !NothingAhead(c, t))
            && s.pc.i <= c.slaves && (s.pc.i < c.slaves ==> t.pc.i == s.pc.i + 1) && (swept ==> s.pc.i < c.slaves)
  {
    assert PcBounds(c, s.pc);
    if s.pc == Poll(c.slaves) && s.received < Rows(c) {
      RowWaits(c, s);
    }
    hide LanesInv; hide OutInv; hide Spinning; hide TotalLeft; hide Rows;
  }

  /** As long as the farm has not finished, less work will be left. */
  lemma WorkGoesOn(c: Config, run: nat -> State, moves: nat -> Move, n: nat) returns (m: nat)
    requires Sound(c) && Execution(c, run, moves) && Fair(c, moves) && !Final(c, run(n))
    ensures m > n && Shape(c, run(n)) && Shape(c, run(m)) && Less(c, run(m), run(n))
  {
    ExecutionInv(c, run, moves, n);
    var s := run(n);
    if i: nat :| i < c.slaves && !Spinning(c, s.lanes[i]) {
      hide Start; hide Step; hide LanesInv; hide OutInv; hide Less; hide Spinning; hide Final;
      m := SlaveBusy(c, run, moves, n, i);
    } else {
      assert Settled(c, s);
      if s.pc.Poll? {
        hide Start; hide Step; hide LanesInv; hide OutInv; hide Less; hide Spinning; hide Final; hide NothingAhead;
        m := PollsOn(c, run, moves, n, false);
      } else if s.pc.Done? {
        forall i | 0 <= i < c.slaves ensures s.lanes[i].pc.Finished? {
          StoppedFinishes(c, s, i);
        }
        assert false;
      } else {
        assert Recurs(moves, n, MasterMoves);
        var k: nat :| k >= n && moves(k) == MasterMoves;
        hide Start; hide Step; hide LanesInv; hide OutInv; hide Less; hide Spinning; hide MasterStep; hide Final;
        var j := NextMasterMove(c, run, moves, n, k);
        LaterShape(c, run, moves, j);
        LaterShape(c, run, moves, j + 1);
        MasterLess(c, s);
        m := j + 1;
        assert run(m) == Step(c, s, MasterMoves) == MasterStep(c, s) by {
          StepOfMaster(c, s);
        }
      }
    }
  }

  lemma StepOfMaster(c: Config, s: State)
    requires Sound(c) && Shape(c, s)
    ensures Step(c, s, MasterMoves) == MasterStep(c, s)
  {
    hide MasterStep;
  }

  /** A finished farm stays as it is. */
  lemma {:induction false} FinalStays(c: Config, run: nat -> State, moves: nat -> Move, n: nat, k: nat)
    requires Sound(c) && Execution(c, run, moves) && Final(c, run(n)) && n <= k
    ensures run(k) == run(n)
    decreases k - n
  {
    if n < k {
      FinalStays(c, run, moves, n, k - 1);
      LaterShape(c, run, moves, k - 1);
      hide Start;
      var s, a := run(n), moves(k - 1);
      if a.SlaveMoves? {
        assert s.lanes[a.i := s.lanes[a.i]] == s.lanes;
      }
    }
  }

  lemma {:induction false} Finishes(c: Config, run: nat -> State, moves: nat -> Move, n: nat) returns (m: nat)
    requires Sound(c) && Execution(c, run, moves) && Fair(c, moves) && Inv(c, run(n))
    ensures Final(c, run(m))
    decreases Phase(run(n).pc), Rows(c) - |run(n).out|, Stage(run(n).pc), Coarse(c, run(n).pc),
        TotalLeft(c, run(n).lanes)
  {
    if Final(c, run(n)) {
      m := n;
    } else {
      var k := WorkGoesOn(c, run, moves, n);
      ExecutionInv(c, run, moves, k);
      OutBound(c, run(n));
      OutBound(c, run(k));
      hide Start; hide Step; hide LanesInv; hide OutInv; hide Final; hide TotalLeft; hide Coarse; hide Phase;
        hide Stage;
      m := Finishes(c, run, moves, k);
    }
  }

  /** Termination of every fair schedule: whatever is in the shared buffers at the start and however the cores are
      interleaved, as long as each of them keeps moving, the master sends its stop packets, every slave takes its own,
      and from then on nothing changes, with every row of the picture written exactly once. */
  lemma FairFarmFinishes(c: Config, run: nat -> State, moves: nat -> Move) returns (n: nat)
    requires Sound(c) && Execution(c, run, moves) && Fair(c, moves)
    ensures Final(c, run(n)) && forall k: nat :: k >= n ==> run(k) == run(n)
    ensures |run(n).out| == Rows(c) && Distinct(run(n).out) && Genuine(c, run(n).out)
    ensures forall r :: 0 <= r < Rows(c) ==> Written(run(n).out, r)
    ensures run(n).pc.Done? && |run(n).lanes| == c.slaves
    ensures forall i :: 0 <= i < c.slaves ==>
      run(n).lanes[i].pc.Finished? && LaneShape(c, run(n).lanes[i])
      && run(n).lanes[i].sPacket[4] == -2 && run(n).lanes[i].mRow[c.words] == -1
  {
    ExecutionInv(c, run, moves, 0);
    n := Finishes(c, run, moves, 0);
    forall k: nat | k >= n ensures run(k) == run(n) {
      FinalStays(c, run, moves, n, k);
    }
    assert Received(run(n).pc);
    ExecutionInv(c, run, moves, n);
    InvMeansOnce(c, run(n));
    forall i | 0 <= i < c.slaves
      ensures LaneShape(c, run(n).lanes[i])
      ensures run(n).lanes[i].sPacket[4] == -2 && run(n).lanes[i].mRow[c.words] == -1
    {
      FinishedLane(c, run(n), i);
    }
  }

  /** A slave has finished only on a stop packet, with its last row taken. */
  lemma FinishedLane(c: Config, s: State, i: nat)
    requires Sound(c) && Inv(c, s) && i < c.slaves && s.lanes[i].pc.Finished?
    ensures LaneShape(c, s.lanes[i]) && s.lanes[i].sPacket[4] == -2 && s.lanes[i].mRow[c.words] == -1
  {
    assert LaneOk(c, s, i);
  }
}
