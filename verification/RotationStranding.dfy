/**
 How an agent gets stranded in a rotation: by dying between the removal of the pending key file
 and the save of its state, and in no other way.
 */
module RotationStranding {
  import opened Prelude
  import opened CheckInRules
  import opened KeyRotation
  import opened RotationProtocol

  // ---------------------------------------------------------------- only by that crash

  /** All that is left of the pass is to save a state that names no pending key. */
  predicate OnlySaveLeft(w: World) {
    w.phase.Writing? && |w.phase.rest| == 1
    && w.phase.rest[0].SaveState? && w.phase.rest[0].state.pendingPublicKey.None?
  }

  /** The writes name a pending key only while its file is there, and remove the file just before the last save. */
  predicate KeepsFile(there: bool, ws: seq<Write>)
    decreases |ws|
  {
    if ws == [] then true
    else
      match ws[0]
      case WritePending(_) => KeepsFile(true, ws[1..])
      case RemovePending => |ws| == 2 && ws[1].SaveState? && ws[1].state.pendingPublicKey.None?
      case SaveState(s) => (s.pendingPublicKey.Some? ==> there) && KeepsFile(there, ws[1..])
      case _ => KeepsFile(there, ws[1..])
  }

  /** Not stranded, or about to save the state that says so. */
  ghost predicate OnCourse(pub: PrivateKey -> PublicKey, w: World) {
    && (Stranded(pub, w) ==> OnlySaveLeft(w))
    && (w.phase.Writing? && !OnlySaveLeft(w) ==> KeepsFile(w.disk.pending.Some?, w.phase.rest))
  }

  lemma StrandedIff(pub: PrivateKey -> PublicKey, w: World)
    requires Inv(pub, w)
    ensures Stranded(pub, w) <==> w.disk.saved.pendingPublicKey.Some? && w.disk.pending.None?
  {
  }

  lemma PromoteKeepsFile(d: Disk, mem: AgentState, m: Machine)
    requires mem.pendingPublicKey.Some? ==> d.pending.Some?
    ensures KeepsFile(d.pending.Some?, PromoteScript(d, mem, m))
  {
    var ws := PromoteScript(d, mem, m);
    assert |ws| == 3 ==> ws[1..] == [ws[1], ws[2]];
    assert |ws| == 2 ==> ws[1..] == [ws[1]];
  }

  lemma ScriptKeepsFile(pub: PrivateKey -> PublicKey, d: Disk, mem: AgentState, reply: Reply, m: Machine)
    requires mem.pendingPublicKey.Some? ==> d.pending.Some?
    ensures KeepsFile(d.pending.Some?, SyncScript(pub, d, mem, reply, m))
  {
    if reply.Success? {
      var r := reply.response;
      if r.rotationRequired && !r.desiredDisabled {
        var ws := RotationScript(pub, d, mem, m);
        assert |ws| == 2 ==> ws[1..] == [ws[1]];
      } else if r.reconfigureRequired && !r.desiredDisabled && r.config.Some? {
        var mem' := ConfigWritten(mem, r.config.value, m);
        PromoteKeepsFile(d, mem', m);
        ConfigFirst(d, PromoteScript(d, mem', m));
        ConfigFirst(d, [SaveState(mem')]);
      } else if r.reconfigureRequired && !r.desiredDisabled {
        PromoteKeepsFile(d, mem, m);
      }
    }
  }

  lemma ConfigFirst(d: Disk, ws: seq<Write>)
    ensures forall file :: KeepsFile(d.pending.Some?, [WriteConfig(file)] + ws) == KeepsFile(d.pending.Some?, ws)
  {
    forall file
      ensures KeepsFile(d.pending.Some?, [WriteConfig(file)] + ws) == KeepsFile(d.pending.Some?, ws)
    {
      assert ([WriteConfig(file)] + ws)[1..] == ws;
    }
  }

  lemma SaveKeepsFile(there: bool, s: AgentState)
    requires s.pendingPublicKey.Some? ==> there
    ensures KeepsFile(there, [SaveState(s)])
  {
    assert [SaveState(s)][1..] == [];
  }

  lemma WriteStaysOnCourse(pub: PrivateKey -> PublicKey, w: World)
    requires Inv(pub, w) && OnCourse(pub, w) && w.phase.Writing?
    ensures OnCourse(pub, Act(pub, w, NextWrite))
  {
    var w' := Act(pub, w, NextWrite);
    StepKeepsInv(pub, w, NextWrite);
    StrandedIff(pub, w);
    StrandedIff(pub, w');
    if w.phase.rest != [] && w.phase.rest[0].RemovePending? {
      assert w'.phase.rest == [w.phase.rest[1]];
    }
  }

  lemma ServingKeepsCourse(pub: PrivateKey -> PublicKey, w: World, a: Action)
    requires Inv(pub, w) && OnCourse(pub, w)
    requires a.ServeStale? || a.ServeCurrent? || a.LoseReply? || a.Administer? || a.StartPass?
    ensures OnCourse(pub, Act(pub, w, a))
  {
    StepKeepsInv(pub, w, a);
    StrandedIff(pub, w);
    StrandedIff(pub, Act(pub, w, a));
  }

  /**
   A step takes an agent off course exactly when it is the process dying with the pending file
   removed and the state naming it still saved, which is between those two writes.
   */
  lemma OffCourseIff(pub: PrivateKey -> PublicKey, w: World, a: Action)
    requires Inv(pub, w) && OnCourse(pub, w)
    ensures OnCourse(pub, Act(pub, w, a)) <==> !(a == Crash && Stranded(pub, w))
    ensures a == Crash && Stranded(pub, w) ==> OnlySaveLeft(w)
  {
    match a
    case NextWrite =>
      if w.phase.Writing? {
        WriteStaysOnCourse(pub, w);
      }
    case TakeReply(m) =>
      StrandedIff(pub, w);
      if w.phase.Waiting? && w.reply.Some? {
        ScriptKeepsFile(pub, w.disk, w.phase.mem, w.reply.value, m);
      }
    case GiveUp =>
      StrandedIff(pub, w);
      if w.phase.Waiting? {
        SaveKeepsFile(w.disk.pending.Some?, w.phase.mem);
      }
    case Crash =>
    case _ => ServingKeepsCourse(pub, w, a);
  }

  /** The process dies in the run with the file removed and the state not yet saved. */
  ghost predicate DiesInBetween(pub: PrivateKey -> PublicKey, w: World, actions: seq<Action>) {
    exists n :: 0 <= n < |actions| && actions[n] == Crash
      && Stranded(pub, Run(pub, w, actions[..n])) && OnlySaveLeft(Run(pub, w, actions[..n]))
  }

  /** Over whole runs from enrollment: an agent off course died between those two writes. */
  lemma {:induction false} OffCourseOnlyByDying(pub: PrivateKey -> PublicKey, w: World, actions: seq<Action>)
    requires RotationProtocol.Enrolled(pub, w)
    ensures OnCourse(pub, Run(pub, w, actions)) || DiesInBetween(pub, w, actions)
  {
    if actions != [] {
      var k := |actions| - 1;
      var before := actions[..k];
      OffCourseOnlyByDying(pub, w, before);
      RunKeepsInv(pub, w, before);
      if OnCourse(pub, Run(pub, w, before)) {
        OffCourseIff(pub, Run(pub, w, before), actions[k]);
        if !OnCourse(pub, Run(pub, w, actions)) {
          assert actions[..k] == before && actions[k] == Crash;
        }
      } else {
        var n :| 0 <= n < |before| && before[n] == Crash
                 && Stranded(pub, Run(pub, w, before[..n])) && OnlySaveLeft(Run(pub, w, before[..n]));
        assert before[..n] == actions[..n] && actions[n] == Crash;
      }
    }
  }

  lemma StrandedFrom(pub: PrivateKey -> PublicKey, w: World, actions: seq<Action>, n: nat)
    requires n <= |actions| && Inv(pub, Run(pub, w, actions[..n]))
    requires Run(pub, w, actions[..n]).phase.Idle? && Stranded(pub, Run(pub, w, actions[..n]))
    ensures Stranded(pub, Run(pub, w, actions))
  {
    RunAppend(pub, w, actions[..n], actions[n..]);
    assert actions[..n] + actions[n..] == actions;
    StrandedForEver(pub, Run(pub, w, actions[..n]), actions[n..]);
  }

  /** Dying there strands the agent for the rest of the run. */
  lemma DyingStrands(pub: PrivateKey -> PublicKey, w: World, actions: seq<Action>)
    requires RotationProtocol.Enrolled(pub, w) && DiesInBetween(pub, w, actions)
    ensures Stranded(pub, Run(pub, w, actions))
  {
    var n :| 0 <= n < |actions| && actions[n] == Crash
             && Stranded(pub, Run(pub, w, actions[..n])) && OnlySaveLeft(Run(pub, w, actions[..n]));
    assert actions[..n + 1][..n] == actions[..n];
    assert Run(pub, w, actions[..n + 1]) == Act(pub, Run(pub, w, actions[..n]), Crash);
    RunKeepsInv(pub, w, actions[..n + 1]);
    StrandedFrom(pub, w, actions, n + 1);
  }

  /** After any run from enrollment, an idle agent is stranded exactly when it died there on the way. */
  lemma StrandedExactlyByDying(pub: PrivateKey -> PublicKey, w: World, actions: seq<Action>)
    requires RotationProtocol.Enrolled(pub, w) && Run(pub, w, actions).phase.Idle?
    ensures Stranded(pub, Run(pub, w, actions)) <==> DiesInBetween(pub, w, actions)
  {
    OffCourseOnlyByDying(pub, w, actions);
    if DiesInBetween(pub, w, actions) {
      DyingStrands(pub, w, actions);
    }
  }

  lemma {:induction false} RunAppend(pub: PrivateKey -> PublicKey, w: World, a: seq<Action>, b: seq<Action>)
    ensures Run(pub, w, a + b) == Run(pub, Run(pub, w, a), b)
  {
    if b == [] {
      assert a + b == a;
    } else {
      RunAppend(pub, w, a, b[..|b| - 1]);
      assert (a + b)[..|a + b| - 1] == a + b[..|b| - 1];
    }
  }

  // ---------------------------------------------------------------- and it does happen

  ghost predicate Reachable(pub: PrivateKey -> PublicKey, w0: World, w: World) {
    exists actions :: Run(pub, w0, actions) == w
  }

  lemma ReachableStart(pub: PrivateKey -> PublicKey, w0: World)
    ensures Reachable(pub, w0, w0)
  {
    var none: seq<Action> := [];
    assert Run(pub, w0, none) == w0;
  }

  lemma ReachableAct(pub: PrivateKey -> PublicKey, w0: World, w: World, a: Action)
    requires Reachable(pub, w0, w)
    ensures Reachable(pub, w0, Act(pub, w, a))
  {
    var actions :| Run(pub, w0, actions) == w;
    assert (actions + [a])[..|actions|] == actions;
    assert Run(pub, w0, actions + [a]) == Act(pub, w, a);
  }

  lemma ReachablePass(pub: PrivateKey -> PublicKey, w0: World, w: World, o: Observation, m: Machine)
    requires Reachable(pub, w0, w) && w.phase.Idle?
    ensures Reachable(pub, w0, CleanPass(pub, w, o, m))
  {
    ReachableAct(pub, w0, w, StartPass(o));
    var w1 := Act(pub, w, StartPass(o));
    ReachableAct(pub, w0, w1, ServeCurrent);
    var w2 := Act(pub, w1, ServeCurrent);
    ReachableAct(pub, w0, w2, TakeReply(m));
    var w3 := Act(pub, w2, TakeReply(m));
    PassInSteps(pub, w, o, m);
    var n := |w3.phase.rest| + 1;
    WritesRunOut(pub, w3, n);
    var actions :| Run(pub, w0, actions) == w3;
    RunAppend(pub, w0, actions, seq(n, i => NextWrite));
    assert Run(pub, w0, actions + seq(n, i => NextWrite)) == CleanPass(pub, w, o, m);
  }

  /** The pass in which the server accepts the key, up to the removal of the pending file. */
  lemma DiesAccepting(pub: PrivateKey -> PublicKey, w0: World, w: World, o: Observation, m: Machine) returns (dead: World)
    requires Reachable(pub, w0, w) && Inv(pub, w) && w.phase.Idle? && w.server.agentStatus == AgentStatus.Enrolled
    requires w.server.peerStatus == RotationPending && Works(m)
    requires w.server.config.Some? && w.server.config.value.complete
    requires w.disk.saved.pendingPublicKey.Some? && w.disk.saved.pendingPublicKey != Some(w.server.peerKey)
    requires WellFormedKey(w.disk.saved.pendingPublicKey.value) && w.disk.saved.pendingPublicKey.value !in w.server.otherKeys
    ensures Reachable(pub, w0, dead) && dead.phase.Idle? && Stranded(pub, dead)
  {
    var mem := Refresh(w.disk.saved, o);
    ReachableAct(pub, w0, w, StartPass(o));
    var w1 := Act(pub, w, StartPass(o));
    ReachableAct(pub, w0, w1, ServeCurrent);
    var w2 := Act(pub, w1, ServeCurrent);
    ReachableAct(pub, w0, w2, TakeReply(m));
    var w3 := Act(pub, w2, TakeReply(m));
    PassInSteps(pub, w, o, m);
    var k := w.disk.pending.value;
    var r := ServeCheckIn(w.server, RequestOf(mem)).1.response;
    var final := ConfigWritten(mem, r.config.value, m).(publicKey := pub(k), pendingPathSet := false, pendingPublicKey := None);
    assert w3.phase.rest == [WriteConfig(ConfigFile(k, r.peerKey)), WritePrimary(k), RemovePending, SaveState(final)];
    ThreeWrites(pub, w0, w3, k, ConfigFile(k, r.peerKey), final);
    var w6 := Act(pub, Act(pub, Act(pub, w3, NextWrite), NextWrite), NextWrite);
    ReachableAct(pub, w0, w6, Crash);
    dead := Act(pub, w6, Crash);
  }

  lemma ThreeWrites(pub: PrivateKey -> PublicKey, w0: World, w: World, k: PrivateKey, file: ConfigFile, final: AgentState)
    requires Reachable(pub, w0, w)
    requires w.phase == Writing([WriteConfig(file), WritePrimary(k), RemovePending, SaveState(final)])
    ensures var w' := Act(pub, Act(pub, Act(pub, w, NextWrite), NextWrite), NextWrite);
            Reachable(pub, w0, w') && w'.disk == w.disk.(config := Some(file), primary := k, pending := None) && w'.server == w.server
  {
    ReachableAct(pub, w0, w, NextWrite);
    var w1 := Act(pub, w, NextWrite);
    assert w1.phase.rest == [WritePrimary(k), RemovePending, SaveState(final)];
    ReachableAct(pub, w0, w1, NextWrite);
    var w2 := Act(pub, w1, NextWrite);
    assert w2.phase.rest == [RemovePending, SaveState(final)];
    ReachableAct(pub, w0, w2, NextWrite);
  }

  /**
   From every enrolled agent of which a rotation is requested, an undisturbed pass that offers
   the new key and a second one that dies after removing the pending file lead to a stranded,
   idle agent.
   */
  lemma CrashBeforeSaveStrands(pub: PrivateKey -> PublicKey, w: World, o1: Observation, o2: Observation, m: Machine) returns (dead: World)
    requires RotationProtocol.Enrolled(pub, w) && Works(m)
    requires w.server.agentStatus == AgentStatus.Enrolled && w.server.peerStatus == RotationPending
    requires w.server.config.Some? && w.server.config.value.complete
    requires WellFormedKey(pub(m.freshKey)) && pub(m.freshKey) !in w.server.otherKeys && pub(m.freshKey) != w.server.peerKey
    ensures Reachable(pub, w, dead) && dead.phase.Idle? && Stranded(pub, dead)
  {
    ReachableStart(pub, w);
    ReachablePass(pub, w, w, o1, m);
    OfferPass(pub, w, o1, m);
    CleanPassKeepsInv(pub, w, o1, m);
    dead := DiesAccepting(pub, w, CleanPass(pub, w, o1, m), o2, m);
  }
}
