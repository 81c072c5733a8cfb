/**
 What a synchronisation pass leaves behind: an agent shut down when it is disabled, a drifted
 configuration written again, and nothing more to do once the server's configuration is applied.
 */
module PassOutcomes {
  import opened Prelude
  import opened CheckInRules
  import opened KeyRotation
  import opened RotationProtocol

  /** The server's answer to the check-in of a pass that starts here. */
  function ReplyTo(w: World, o: Observation): Reply {
    ServeCheckIn(w.server, RequestOf(Refresh(w.disk.saved, o))).1
  }

  lemma OneSave(d: Disk, s: AgentState)
    ensures Replay(d, [SaveState(s)]) == d.(saved := s)
  {
    assert Replay(d, [SaveState(s)]) == Perform(d, SaveState(s));
  }

  lemma WriteAndSave(d: Disk, c: ConfigFile, s: AgentState)
    ensures Replay(d, [WriteConfig(c), SaveState(s)]) == d.(config := Some(c), saved := s)
  {
    assert [WriteConfig(c), SaveState(s)][1..] == [SaveState(s)];
    OneSave(d.(config := Some(c)), s);
  }

  // ---------------------------------------------------------------- disabled and revoked agents

  /**
   A disabled agent whose check-in is answered takes its tunnel down, and reports so, or that it
   could not; it writes neither key nor configuration.
   */
  lemma DisabledPassTakesDown(pub: PrivateKey -> PublicKey, w: World, o: Observation, m: Machine)
    requires w.phase.Idle? && w.server.agentStatus == AgentDisabled && ReplyTo(w, o).Success?
    ensures var w' := CleanPass(pub, w, o, m);
            && w'.disk.saved.applyStatus == (if m.disableWorks then Disabled else ApplyFailed)
            && w'.disk.config == w.disk.config && w'.disk.primary == w.disk.primary && w'.disk.pending == w.disk.pending
            && SameKeys(w'.disk.saved, w.disk.saved)
  {
    var mem := Refresh(w.disk.saved, o);
    OneSave(w.disk, mem.(applyStatus := if m.disableWorks then Disabled else ApplyFailed));
  }

  /** What the server refuses it with: a malformed, repeated or taken rotation key, and nothing else. */
  lemma DisabledAgentIsAnsweredIff(w: World, o: Observation)
    requires w.server.agentStatus == AgentDisabled
    ensures var offered := w.disk.saved.pendingPublicKey;
            ReplyTo(w, o).Success? <==>
              || offered.None? || w.server.peerStatus != RotationPending
              || (WellFormedKey(offered.value) && offered.value != w.server.peerKey && offered.value !in w.server.otherKeys)
  {
  }

  /** A revoked agent gets no answer: a pass changes nothing but the status it remembers. */
  lemma RevokedPassChangesNothing(pub: PrivateKey -> PublicKey, w: World, o: Observation, m: Machine)
    requires w.phase.Idle? && w.server.agentStatus == AgentRevoked
    ensures var w' := CleanPass(pub, w, o, m);
            && w'.server == w.server && SameKeys(w'.disk.saved, w.disk.saved)
            && w'.disk == w.disk.(saved := w.disk.saved.(applyStatus := w'.disk.saved.applyStatus))
  {
    OneSave(w.disk, Refresh(w.disk.saved, o));
  }

  /** No configuration or key is about to be written. */
  ghost predicate Quiet(w: World) {
    && (w.reply.Some? && w.reply.value.Success? ==> w.reply.value.response.desiredDisabled)
    && (w.phase.Writing? ==> forall x :: x in w.phase.rest ==> x.SaveState?)
  }

  /** The administrators never leave the agent enabled. */
  predicate StaysDown(a: Action) {
    a.Administer? ==> a.agentStatus != AgentStatus.Enrolled
  }

  lemma QuietStep(pub: PrivateKey -> PublicKey, w: World, a: Action)
    requires Quiet(w) && w.server.agentStatus != AgentStatus.Enrolled && StaysDown(a)
    ensures var w' := Act(pub, w, a);
            && Quiet(w') && w'.server.agentStatus != AgentStatus.Enrolled
            && w'.disk.config == w.disk.config && w'.disk.primary == w.disk.primary && w'.disk.pending == w.disk.pending
  {
    if a == NextWrite && w.phase.Writing? && w.phase.rest != [] {
      assert w.phase.rest[0] in w.phase.rest;
      assert forall x :: x in w.phase.rest[1..] ==> x in w.phase.rest;
    }
  }

  /**
   Over whole runs in which the agent stays disabled or revoked, with replies lost, requests late
   and crashes anywhere, it never again writes its configuration or a key.
   */
  lemma {:induction false} DisabledAgentNeverReconfigures(pub: PrivateKey -> PublicKey, w: World, actions: seq<Action>)
    requires Quiet(w) && w.server.agentStatus != AgentStatus.Enrolled
    requires forall i :: 0 <= i < |actions| ==> StaysDown(actions[i])
    ensures var w' := Run(pub, w, actions);
            && Quiet(w') && w'.server.agentStatus != AgentStatus.Enrolled
            && w'.disk.config == w.disk.config && w'.disk.primary == w.disk.primary && w'.disk.pending == w.disk.pending
  {
    if actions != [] {
      DisabledAgentNeverReconfigures(pub, w, actions[..|actions| - 1]);
      QuietStep(pub, Run(pub, w, actions[..|actions| - 1]), actions[|actions| - 1]);
    }
  }

  // ---------------------------------------------------------------- the apply status

  /** The refresh reports what it found: drift iff the file or the interface is not what was applied. */
  lemma RefreshReports(s: AgentState, o: Observation)
    requires s.rendered && s.applyStatus != Disabled && s.applyStatus != Staged && s.fingerprint != ""
    ensures var found := o.configReadable && o.configMatches && o.runtimeFingerprint == Some(s.fingerprint);
            Refresh(s, o) == s.(applyStatus := if found then Applied else Drifted)
  {
  }

  /** A staged configuration stays staged while its file is untouched, and drifts otherwise. */
  lemma StagedUntilTouched(s: AgentState, o: Observation)
    requires s.rendered && s.applyStatus == Staged
    ensures Refresh(s, o) == s.(applyStatus := if o.configReadable && o.configMatches then Staged else Drifted)
  {
  }

  /** An agent with nothing rendered yet, or that took its tunnel down, reports what it last did. */
  lemma NothingToRefresh(s: AgentState, o: Observation)
    requires !s.rendered || s.applyStatus == Disabled
    ensures Refresh(s, o) == s
  {
  }

  /** The pass has the agent write this server's configuration, with the key it holds. */
  predicate Served(w: World) {
    && w.server.agentStatus == AgentStatus.Enrolled && w.server.peerStatus == Active
    && w.server.config.Some? && w.server.config.value.complete && w.server.config.value.fingerprint != ""
    && w.disk.saved.pendingPublicKey.None?
  }

  /** What the agent reports decides: exactly when it is wrong or outdated is the configuration written again. */
  lemma ConfigWrittenIff(pub: PrivateKey -> PublicKey, w: World, o: Observation, m: Machine)
    requires w.phase.Idle? && Served(w) && m.configWriteWorks
    ensures var w', mem := CleanPass(pub, w, o, m), Refresh(w.disk.saved, o);
            var fingerprint := w.server.config.value.fingerprint;
            if mem.applyStatus == ApplyFailed || mem.applyStatus == Drifted || mem.fingerprint != fingerprint
            then
              && w'.disk.config == Some(ConfigFile(w.disk.primary, w.server.peerKey))
              && w'.disk.saved.fingerprint == fingerprint && w'.disk.saved.rendered
              && w'.disk.saved.applyStatus == (if !m.applyRequested then Staged else if m.applyWorks then Applied else ApplyFailed)
            else w'.disk == w.disk.(saved := mem)
  {
    var mem := Refresh(w.disk.saved, o);
    OneSave(w.disk, mem);
    WriteAndSave(w.disk, ConfigFile(w.disk.primary, w.server.peerKey), ConfigWritten(mem, w.server.config.value, m));
  }

  /** The machine runs what was applied: the file as written, and the interface with its fingerprint. */
  predicate Undisturbed(o: Observation, fingerprint: string) {
    o.configReadable && o.configMatches && o.runtimeFingerprint == Some(fingerprint)
  }

  /**
   Drift is repaired by one pass, and the next one finds nothing left to do: whatever the agent
   reported first, after a working pass it reports the server's configuration as applied, and
   while the machine is undisturbed later passes write nothing.
   */
  lemma DriftIsRepairedAndSettles(pub: PrivateKey -> PublicKey, w: World, o1: Observation, o2: Observation, m: Machine)
    requires w.phase.Idle? && Served(w) && Works(m)
    requires w.disk.saved.applyStatus != Staged && w.disk.saved.applyStatus != Disabled
    requires w.disk.saved.rendered && w.disk.saved.fingerprint != ""
    requires Undisturbed(o2, w.server.config.value.fingerprint)
    ensures var w1 := CleanPass(pub, w, o1, m);
            && (!Undisturbed(o1, w.disk.saved.fingerprint) ==> w1.disk.config == Some(ConfigFile(w.disk.primary, w.server.peerKey)))
            && w1.disk.saved.applyStatus == Applied && w1.disk.saved.fingerprint == w.server.config.value.fingerprint
            && CleanPass(pub, w1, o2, m) == w1
  {
    RefreshReports(w.disk.saved, o1);
    ConfigWrittenIff(pub, w, o1, m);
    var w1 := CleanPass(pub, w, o1, m);
    assert w1.server == w.server;
    assert w1.disk.saved.rendered && w1.disk.saved.pendingPublicKey.None? by {
      WriteAndSave(w.disk, ConfigFile(w.disk.primary, w.server.peerKey),
                   ConfigWritten(Refresh(w.disk.saved, o1), w.server.config.value, m));
    }
    RefreshReports(w1.disk.saved, o2);
    ConfigWrittenIff(pub, w1, o2, m);
  }

  /** A failed apply with a new key is not promoted: the files keep both keys until it works. */
  lemma FailedApplyKeepsBothKeys(pub: PrivateKey -> PublicKey, d: Disk, mem: AgentState, r: Response, m: Machine)
    requires d.pending.Some? && mem.pendingPathSet && mem.pendingPublicKey == Some(r.peerKey)
    requires r.config.Some? && r.config.value.complete && m.configWriteWorks && m.applyRequested && !m.applyWorks
    ensures var d' := Replay(d, ReconfigureScript(d, mem, r, m));
            && d'.primary == d.primary && d'.pending == d.pending
            && SameKeys(d'.saved, mem) && d'.saved.applyStatus == ApplyFailed
            && d'.config == Some(ConfigFile(d.pending.value, r.peerKey))
  {
    WriteAndSave(d, ConfigFile(d.pending.value, r.peerKey), ConfigWritten(mem, r.config.value, m));
  }

  /**
   An agent enabled again whose peer was put in service before its next check-in stays down
   exactly when the configuration has not changed since: its "disabled" status alone does not
   make the server tell it to reconfigure.
   */
  lemma EnabledAgentStaysDownIff(pub: PrivateKey -> PublicKey, w: World, o: Observation, m: Machine)
    requires w.phase.Idle? && Served(w) && Works(m) && w.disk.saved.applyStatus == Disabled
    ensures CleanPass(pub, w, o, m).disk.saved.applyStatus == Disabled
            <==> w.disk.saved.fingerprint == w.server.config.value.fingerprint
    ensures w.disk.saved.fingerprint == w.server.config.value.fingerprint ==> CleanPass(pub, w, o, m).disk == w.disk
  {
    NothingToRefresh(w.disk.saved, o);
    ConfigWrittenIff(pub, w, o, m);
  }

  /** While its peer still waits to be put in service, it comes up again on its next pass. */
  lemma EnabledAgentComesUp(pub: PrivateKey -> PublicKey, w: World, o: Observation, m: Machine)
    requires w.phase.Idle? && Works(m) && w.server.agentStatus == AgentStatus.Enrolled && w.server.peerStatus == Planned
    requires w.server.config.Some? && w.server.config.value.complete && w.disk.saved.pendingPublicKey.None?
    ensures var w' := CleanPass(pub, w, o, m);
            w'.disk.saved.applyStatus == Applied && w'.disk.config == Some(ConfigFile(w.disk.primary, w.server.peerKey))
  {
    var mem := Refresh(w.disk.saved, o);
    WriteAndSave(w.disk, ConfigFile(w.disk.primary, w.server.peerKey), ConfigWritten(mem, w.server.config.value, m));
  }

  // ---------------------------------------------------------------- how a pass ends

  /**
   The last write of a pass is that of the state file, whatever the server answered and whatever
   fails on the machine. The one pass that saves nothing is told to reconfigure under a key whose
   pending file is gone.
   */
  lemma PassSavesIff(pub: PrivateKey -> PublicKey, d: Disk, mem: AgentState, reply: Reply, m: Machine)
    ensures var ws := SyncScript(pub, d, mem, reply, m);
            && (ws == [] <==>
                  && reply.Success? && !reply.response.desiredDisabled && !reply.response.rotationRequired
                  && reply.response.reconfigureRequired
                  && mem.pendingPublicKey == Some(reply.response.peerKey) && (!mem.pendingPathSet || d.pending.None?))
            && (ws != [] ==> ws[|ws| - 1].SaveState?)
  {
  }

  /** Without an answer the pass keeps what it found: no key and no configuration is written. */
  lemma UnansweredPassKeeps(pub: PrivateKey -> PublicKey, d: Disk, mem: AgentState, m: Machine)
    ensures Replay(d, SyncScript(pub, d, mem, Failure, m)) == d.(saved := mem)
  {
    OneSave(d, mem);
  }

  /** When the new key cannot be written the agent goes on as before, and names no key it does not have. */
  lemma UnwrittenKeyIsNotNamed(pub: PrivateKey -> PublicKey, d: Disk, mem: AgentState, m: Machine)
    requires mem.pendingPublicKey.None? && d.pending.None? && !m.pendingWriteWorks
    ensures Replay(d, RotationScript(pub, d, mem, m)) == d.(saved := mem)
  {
    OneSave(d, mem);
  }

  /** A configuration that cannot be rendered or written is reported under its fingerprint; the old one stays. */
  lemma UnwrittenConfigIsReported(d: Disk, mem: AgentState, r: Response, m: Machine)
    requires mem.pendingPublicKey == Some(r.peerKey) ==> mem.pendingPathSet && d.pending.Some?
    requires r.config.Some? && (!r.config.value.complete || !m.configWriteWorks)
    ensures Replay(d, ReconfigureScript(d, mem, r, m))
            == d.(saved := mem.(fingerprint := r.config.value.fingerprint, applyStatus := ApplyFailed))
  {
    OneSave(d, mem.(fingerprint := r.config.value.fingerprint, applyStatus := ApplyFailed));
  }

  /** With no configuration to write the new key still takes over: its file replaces the primary one. */
  lemma KeyTakesOverWithoutConfig(d: Disk, mem: AgentState, r: Response, m: Machine)
    requires mem.pendingPublicKey == Some(r.peerKey) && mem.pendingPathSet && d.pending.Some?
    requires r.config.None? && m.primaryWriteWorks && m.removeWorks
    ensures Replay(d, ReconfigureScript(d, mem, r, m))
            == Disk(d.pending.value, None,
                    mem.(publicKey := r.peerKey, pendingPathSet := false, pendingPublicKey := None), d.config)
  {
    var s := mem.(publicKey := r.peerKey, pendingPathSet := false, pendingPublicKey := None);
    var ws := ReconfigureScript(d, mem, r, m);
    assert ws[1..] == [RemovePending, SaveState(s)];
    assert [RemovePending, SaveState(s)][1..] == [SaveState(s)];
    OneSave(d.(primary := d.pending.value, pending := None), s);
  }
}
