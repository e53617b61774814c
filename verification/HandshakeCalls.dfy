/** The application calls of the boot handshake (patmos/c/bootloader/bootloader.c): in every round of every timely run
    each core calls the entry point that `download` returned, once, or not at all when it returned NULL. */
module HandshakeCalls {
  import opened Handshake
  import opened HandshakeProgress

  /** In step `j`, in round `r`, the master calls entry point `a`. */
  predicate MasterCalls(states: seq<State>, j: nat, r: nat, a: nat)
  {
    && j + 1 < |states|
    && var m, m' := states[j].m, states[j + 1].m;
       m.pc.CallEntry? && m.round == r && m'.pc.Application? && m'.called == a
  }

  /** In step `j`, in its round `r`, slave `i` calls entry point `a`. */
  predicate SlaveCalls(states: seq<State>, j: nat, i: nat, r: nat, a: nat)
  {
    && j + 1 < |states| && i < |states[j].slaves| && i < |states[j + 1].slaves|
    && var me, me' := states[j].slaves[i], states[j + 1].slaves[i];
       me.pc.SlaveCallEntry? && me.round == r && me'.pc.SlaveApplication? && me'.called == a
  }

  /** The core is in its application phase or after it. */
  predicate MasterPast(pc: MasterPc)
  {
    pc.Application? || MasterReturned(pc)
  }

  predicate SlavePast(pc: SlavePc)
  {
    pc.SlaveApplication? || Returned(pc)
  }

  // ----- One step ------------------------------------------------------------------------------------------

  predicate MasterOn(s: State, s': State)
  {
    && s.m.round <= s'.m.round
    && (s'.m.round == s.m.round && Downloaded(s.m.pc) ==> Downloaded(s'.m.pc) && s'.fetched == s.fetched)
    && (s'.m.round == s.m.round && MasterPast(s.m.pc) ==> MasterPast(s'.m.pc))
  }

  lemma MasterStepOn(s: State, a: Move)
    requires Shape(s) && Possible(s, a)
    ensures MasterOn(s, Step(s, a))
  {
  }

  /** The only ways into what comes after the call. */
  lemma MasterEnters(s: State, a: Move)
    requires Firm(s) && Possible(s, a) && MasterPast(Step(s, a).m.pc) && !MasterPast(s.m.pc)
    ensures var s' := Step(s, a);
            && s'.m.round == s.m.round && s'.fetched == s.fetched
            && (s.fetched != 0 ==> s.m.pc.CallEntry? && s'.m.pc.Application? && s'.m.called == s.fetched)
  {
  }

  lemma MasterCallIs(s: State, a: Move)
    requires Firm(s) && Possible(s, a) && s.m.pc.CallEntry? && Step(s, a).m.pc.Application?
    ensures Step(s, a).m.called == s.fetched != 0 && Step(s, a).m.round == s.m.round
  {
  }

  predicate SlaveOn(me: Slave, me': Slave)
  {
    && me.round <= me'.round
    && (me'.round == me.round && SlavePast(me.pc) ==> SlavePast(me'.pc))
    && (me'.round == me.round && Started(me.pc) ==> Started(me'.pc))
  }

  lemma SlaveStepOn(s: State, a: Move, i: nat)
    requires Shape(s) && Possible(s, a) && i < |s.slaves|
    ensures SlaveOn(s.slaves[i], Step(s, a).slaves[i])
  {
  }

  lemma SlaveEnters(s: State, a: Move, i: nat)
    requires Firm(s) && Possible(s, a) && i < |s.slaves|
    requires SlavePast(Step(s, a).slaves[i].pc) && !SlavePast(s.slaves[i].pc)
    ensures var s', me, me' := Step(s, a), s.slaves[i], Step(s, a).slaves[i];
            && me'.round == me.round && Started(me.pc) && s'.fetched == s.fetched
            && (s.fetched != 0 ==> me.pc.SlaveCallEntry? && me'.pc.SlaveApplication? && me'.called == s.fetched)
  {
    assert SlaveInv(s, i) && FirmSlave(s, i);
  }

  lemma SlaveCallIs(s: State, a: Move, i: nat)
    requires Firm(s) && Possible(s, a) && i < |s.slaves|
    requires s.slaves[i].pc.SlaveCallEntry? && Step(s, a).slaves[i].pc.SlaveApplication?
    ensures Step(s, a).slaves[i].called == s.fetched != 0 && Step(s, a).slaves[i].round == s.slaves[i].round
    ensures Step(s, a).fetched == s.fetched
  {
    assert SlaveInv(s, i) && FirmSlave(s, i);
  }

  // ----- Whole runs ---------------------------------------------------------------------------------------------

  /** A timely run from power-on. */
  predicate TimelyRun(states: seq<State>, moves: seq<Move>)
  {
    TimelyPath(states, moves) && Start(states[0])
  }

  lemma FirmAt(states: seq<State>, moves: seq<Move>, k: nat)
    requires TimelyRun(states, moves) && k < |states|
    ensures Firm(states[k])
    ensures k < |moves| ==> Follows(states[k], moves[k], states[k + 1])
  {
    hide Timely; hide Follows; hide FirmMaster; hide FirmSlave; hide Inv; hide Start;
    StartFirm(states[0]);
    PathKeepsFirm(states, moves, k);
  }

  lemma {:induction false} MasterRunOn(states: seq<State>, moves: seq<Move>, i: nat, k: nat)
    requires TimelyRun(states, moves) && i <= k < |states|
    ensures MasterOn(states[i], states[k])
    decreases k
  {
    hide Timely; hide Step; hide Start;
    if i < k {
      assert Follows(states[k - 1], moves[k - 1], states[k]);
      MasterRunOn(states, moves, i, k - 1);
      MasterStepOn(states[k - 1], moves[k - 1]);
    }
  }

  lemma {:induction false} SlavesKept(states: seq<State>, moves: seq<Move>, k: nat)
    requires TimelyRun(states, moves) && k < |states|
    ensures |states[k].slaves| == |states[0].slaves|
    decreases k
  {
    hide Timely; hide Start;
    if k > 0 {
      assert Follows(states[k - 1], moves[k - 1], states[k]);
      SlavesKept(states, moves, k - 1);
    }
  }

  lemma {:induction false} SlaveRunOn(states: seq<State>, moves: seq<Move>, j: nat, k: nat, i: nat)
    requires TimelyRun(states, moves) && j <= k < |states| && i < |states[0].slaves|
    ensures i < |states[j].slaves| && i < |states[k].slaves| && SlaveOn(states[j].slaves[i], states[k].slaves[i])
    decreases k
  {
    SlavesKept(states, moves, j);
    SlavesKept(states, moves, k);
    hide Timely; hide Step; hide Start; hide SlaveOn;
    if j == k {
      SlaveStays(states[j].slaves[i]);
    } else {
      assert Follows(states[k - 1], moves[k - 1], states[k]);
      SlaveRunOn(states, moves, j, k - 1, i);
      SlaveStepOn(states[k - 1], moves[k - 1], i);
      SlaveOnwards(states[j].slaves[i], states[k - 1].slaves[i], states[k].slaves[i]);
    }
  }

  lemma SlaveStays(me: Slave)
    ensures SlaveOn(me, me)
  {
  }

  lemma SlaveOnwards(a: Slave, b: Slave, c: Slave)
    requires SlaveOn(a, b) && SlaveOn(b, c)
    ensures SlaveOn(a, c)
  {
  }

  lemma {:induction false} MasterHadCalled(states: seq<State>, moves: seq<Move>, k: nat) returns (j: nat)
    requires TimelyRun(states, moves) && k < |states| && MasterPast(states[k].m.pc) && states[k].fetched != 0
    ensures j < k && MasterCalls(states, j, states[k].m.round, states[k].fetched)
    decreases k
  {
    FirmAt(states, moves, if k > 0 then k - 1 else 0);
    hide TimelyRun; hide FirmMaster; hide FirmSlave; hide Inv; hide Step;
    assert k > 0 by { StartsBefore(states, moves); }
    var s, a := states[k - 1], moves[k - 1];
    if MasterPast(s.m.pc) {
      MasterStepOn(s, a);
      MasterPastSame(s, a);
      j := MasterHadCalled(states, moves, k - 1);
    } else {
      MasterEnters(s, a);
      j := k - 1;
    }
  }

  lemma StartsBefore(states: seq<State>, moves: seq<Move>)
    requires TimelyRun(states, moves)
    ensures !MasterPast(states[0].m.pc)
    ensures |states| == |moves| + 1
    ensures forall i :: 0 <= i < |states[0].slaves| ==> !SlavePast(states[0].slaves[i].pc)
  {
  }

  lemma MasterPastSame(s: State, a: Move)
    requires Shape(s) && Possible(s, a) && MasterPast(s.m.pc) && MasterPast(Step(s, a).m.pc)
    ensures Step(s, a).m.round == s.m.round && Step(s, a).fetched == s.fetched
  {
  }

  lemma SlavePastSame(s: State, a: Move, i: nat)
    requires Firm(s) && Possible(s, a) && i < |s.slaves|
    requires SlavePast(s.slaves[i].pc) && SlavePast(Step(s, a).slaves[i].pc)
    ensures Step(s, a).slaves[i].round == s.slaves[i].round && Step(s, a).fetched == s.fetched
  {
    InvOrders(s, i);
    hide Firm; hide Inv;
  }

  lemma {:induction false} SlaveHadCalled(states: seq<State>, moves: seq<Move>, k: nat, i: nat) returns (j: nat)
    requires TimelyRun(states, moves) && k < |states| && i < |states[0].slaves| && i < |states[k].slaves|
    requires SlavePast(states[k].slaves[i].pc) && states[k].fetched != 0
    ensures j < k && SlaveCalls(states, j, i, states[k].slaves[i].round, states[k].fetched)
    decreases k
  {
    FirmAt(states, moves, if k > 0 then k - 1 else 0);
    SlavesKept(states, moves, if k > 0 then k - 1 else 0);
    hide TimelyRun; hide FirmMaster; hide FirmSlave; hide Inv; hide Step;
    StartsBefore(states, moves);
    var s, a := states[k - 1], moves[k - 1];
    if SlavePast(s.slaves[i].pc) {
      SlavePastSame(s, a, i);
      j := SlaveHadCalled(states, moves, k - 1, i);
    } else {
      SlaveEnters(s, a, i);
      j := k - 1;
    }
  }

  /** A call in step `j` is of what was downloaded in that round, and the core is past it from then on. */
  lemma MasterCallAt(states: seq<State>, moves: seq<Move>, j: nat, k: nat, a: nat)
    requires TimelyRun(states, moves) && k < |states| && MasterPast(states[k].m.pc)
    requires MasterCalls(states, j, states[k].m.round, a)
    ensures j < k && a == states[k].fetched != 0
  {
    FirmAt(states, moves, j);
    MasterCallIs(states[j], moves[j]);
    if j < k {
      MasterRunOn(states, moves, j, k);
    } else {
      MasterRunOn(states, moves, k, j);
    }
    hide Firm; hide Step; hide TimelyRun;
  }

  lemma SlaveCallAt(states: seq<State>, moves: seq<Move>, j: nat, k: nat, i: nat, a: nat)
    requires TimelyRun(states, moves) && k < |states| && i < |states[0].slaves| && i < |states[k].slaves|
    requires SlavePast(states[k].slaves[i].pc) && SlaveCalls(states, j, i, states[k].slaves[i].round, a)
    ensures j < k && a == states[k].fetched != 0
  {
    FirmAt(states, moves, j);
    FirmAt(states, moves, k);
    SlaveCallIs(states[j], moves[j], i);
    InvOrders(states[j], i);
    InvOrders(states[k], i);
    hide Firm; hide Step; hide TimelyRun;
    if j < k {
      MasterRunOn(states, moves, j, k);
    } else {
      SlaveRunOn(states, moves, k, j, i);
    }
  }

  /** In every timely run, when the master is in its application phase or past it: it has called the entry point that
      `download` brought in this round, in an earlier step of this round, exactly if that was not NULL; and no step
      of this round, before or after, calls anything else or calls again. */
  lemma MasterCallsOnce(states: seq<State>, moves: seq<Move>, k: nat)
    requires TimelyRun(states, moves) && k < |states| && MasterPast(states[k].m.pc)
    ensures var r, entry := states[k].m.round, states[k].fetched;
            && (entry != 0 <==> exists j :: 0 <= j < k && MasterCalls(states, j, r, entry))
            && (forall j: nat, a: nat :: MasterCalls(states, j, r, a) ==> j < k && a == entry != 0)
            && (forall j: nat, j': nat, a: nat, a': nat ::
                  MasterCalls(states, j, r, a) && MasterCalls(states, j', r, a') ==> j == j')
  {
    hide TimelyRun; hide MasterCalls;
    var r, entry := states[k].m.round, states[k].fetched;
    if entry != 0 {
      var j := MasterHadCalled(states, moves, k);
    }
    forall j: nat, a: nat | MasterCalls(states, j, r, a)
      ensures j < k && a == entry != 0
    {
      MasterCallAt(states, moves, j, k, a);
    }
    forall j: nat, j': nat, a: nat, a': nat | MasterCalls(states, j, r, a) && MasterCalls(states, j', r, a')
      ensures j == j'
    {
      MasterCallPast(states, moves, j, r, a);
      MasterCallPast(states, moves, j', r, a');
      MasterCallAt(states, moves, j, j' + 1, a);
      MasterCallAt(states, moves, j', j + 1, a');
    }
  }

  lemma MasterCallPast(states: seq<State>, moves: seq<Move>, j: nat, r: nat, a: nat)
    requires TimelyRun(states, moves) && MasterCalls(states, j, r, a)
    ensures j + 1 < |states| && MasterPast(states[j + 1].m.pc) && states[j + 1].m.round == r
  {
    FirmAt(states, moves, j);
    MasterCallIs(states[j], moves[j]);
    hide Firm; hide Step; hide TimelyRun;
  }

  lemma SlaveCallPast(states: seq<State>, moves: seq<Move>, j: nat, i: nat, r: nat, a: nat)
    requires TimelyRun(states, moves) && SlaveCalls(states, j, i, r, a)
    ensures j + 1 < |states| && i < |states[j + 1].slaves|
    ensures SlavePast(states[j + 1].slaves[i].pc) && states[j + 1].slaves[i].round == r
  {
    FirmAt(states, moves, j);
    SlaveCallIs(states[j], moves[j], i);
    hide Firm; hide Step; hide TimelyRun;
  }

  /** The same for every slave. */
  lemma SlaveCallsOnce(states: seq<State>, moves: seq<Move>, k: nat, i: nat)
    requires TimelyRun(states, moves) && k < |states| && i < |states[0].slaves| && i < |states[k].slaves|
    requires SlavePast(states[k].slaves[i].pc)
    ensures var r, entry := states[k].slaves[i].round, states[k].fetched;
            && (entry != 0 <==> exists j :: 0 <= j < k && SlaveCalls(states, j, i, r, entry))
            && (forall j: nat, a: nat :: SlaveCalls(states, j, i, r, a) ==> j < k && a == entry != 0)
            && (forall j: nat, j': nat, a: nat, a': nat ::
                  SlaveCalls(states, j, i, r, a) && SlaveCalls(states, j', i, r, a') ==> j == j')
  {
    hide TimelyRun; hide SlaveCalls;
    var r, entry := states[k].slaves[i].round, states[k].fetched;
    if entry != 0 {
      var j := SlaveHadCalled(states, moves, k, i);
    }
    forall j: nat, a: nat | SlaveCalls(states, j, i, r, a)
      ensures j < k && a == entry != 0
    {
      SlaveCallAt(states, moves, j, k, i, a);
    }
    forall j: nat, j': nat, a: nat, a': nat | SlaveCalls(states, j, i, r, a) && SlaveCalls(states, j', i, r, a')
      ensures j == j'
    {
      SlaveCallPast(states, moves, j, i, r, a);
      SlaveCallPast(states, moves, j', i, r, a');
      SlaveCallAt(states, moves, j, j' + 1, i, a);
      SlaveCallAt(states, moves, j', j + 1, i, a');
    }
  }
}
