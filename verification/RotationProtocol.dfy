/**
 The rotation protocol as one transition system: an agent that may die between any two
 writes, a network that loses and delays, and a server whose administrators may change
 everything about the peer except its key.
 */
module RotationProtocol {
  import opened Prelude
  import opened CheckInRules
  import opened KeyRotation

  /** What the agent process is doing. */
  datatype Phase =
    | Idle
    | Waiting(mem: AgentState)
    | Writing(rest: seq<Write>)

  /**
   current is the request of the call the agent still waits for; stale holds requests of
   calls it gave up, oldest first, which the server may yet serve in that order.
   */
  datatype World = World(
    disk: Disk,
    phase: Phase,
    stale: seq<Request>,
    current: Option<Request>,
    reply: Option<Reply>,
    server: Server)

  datatype Action =
    | StartPass(o: Observation)
    | ServeStale(i: nat)
    | ServeCurrent
    | LoseReply
    | TakeReply(m: Machine)
    | GiveUp
    | NextWrite
    | Crash
    | Administer(agentStatus: AgentStatus, peerStatus: PeerStatus, otherKeys: set<PublicKey>, config: Option<DesiredConfig>)

  function Abandon(w: World): World {
    w.(stale := if w.current.Some? then w.stale + [w.current.value] else w.stale, current := None, reply := None)
  }

  /** One step. An action that is not enabled changes nothing. */
  function Act(pub: PrivateKey -> PublicKey, w: World, a: Action): World {
    match a
    case StartPass(o) =>
      if w.phase.Idle? then
        var mem := Refresh(w.disk.saved, o);
        Abandon(w).(phase := Waiting(mem), current := Some(RequestOf(mem)))
      else w
    case ServeStale(i) =>
      if i < |w.stale| then
        w.(server := ServeCheckIn(w.server, w.stale[i]).0, stale := w.stale[i + 1..])
      else w
    case ServeCurrent =>
      if w.current.Some? then
        var (server, reply) := ServeCheckIn(w.server, w.current.value);
        w.(server := server, stale := [], current := None, reply := Some(reply))
      else w
    case LoseReply => w.(reply := None)
    case TakeReply(m) =>
      if w.phase.Waiting? && w.reply.Some? then
        w.(phase := Writing(SyncScript(pub, w.disk, w.phase.mem, w.reply.value, m)), reply := None)
      else w
    case GiveUp =>
      if w.phase.Waiting? then Abandon(w).(phase := Writing([SaveState(w.phase.mem)])) else w
    case NextWrite =>
      if w.phase.Writing? then
        if w.phase.rest == [] then w.(phase := Idle)
        else w.(disk := Perform(w.disk, w.phase.rest[0]), phase := Writing(w.phase.rest[1..]))
      else w
    case Crash => Abandon(w).(phase := Idle)
    case Administer(agentStatus, peerStatus, otherKeys, config) =>
      w.(server := w.server.(agentStatus := agentStatus, peerStatus := peerStatus, otherKeys := otherKeys, config := config))
  }

  function Run(pub: PrivateKey -> PublicKey, w: World, actions: seq<Action>): World {
    if actions == [] then w
    else Act(pub, Run(pub, w, actions[..|actions| - 1]), actions[|actions| - 1])
  }

  /** An agent that has just enrolled: its key is the registered one, and its configuration uses it. */
  ghost predicate Enrolled(pub: PrivateKey -> PublicKey, w: World) {
    && w.phase.Idle? && w.stale == [] && w.current.None? && w.reply.None?
    && w.disk.pending.None? && w.disk.saved.pendingPublicKey.None?
    && w.server.peerKey == pub(w.disk.primary)
    && (w.disk.config.Some? ==> w.disk.config.value == ConfigFile(w.disk.primary, w.server.peerKey))
  }

  /** The registered key is the public half of a key the agent holds in one of its two key files. */
  predicate HoldsRegisteredKey(pub: PrivateKey -> PublicKey, w: World) {
    || w.server.peerKey == pub(w.disk.primary)
    || (w.disk.pending.Some? && w.server.peerKey == pub(w.disk.pending.value))
  }

  /** The configuration on disk uses the private half of the key its triggering reply named. */
  predicate ConfigMatchesReply(pub: PrivateKey -> PublicKey, w: World) {
    w.disk.config.Some? ==> pub(w.disk.config.value.key) == w.disk.config.value.peerKey
  }

  // ---------------------------------------------------------------- the invariant

  predicate Offers(r: Request, d: Disk) {
    r.rotationKey.None? || r.rotationKey == d.saved.pendingPublicKey
  }

  /** How the files relate to the registered key while the requests rs may still be served. */
  ghost predicate FilesAgree(pub: PrivateKey -> PublicKey, d: Disk, peerKey: PublicKey, rs: seq<Request>) {
    && (d.saved.pendingPublicKey.None? ==> peerKey == pub(d.primary))
    && (d.saved.pendingPublicKey.Some? ==>
          && d.saved.pendingPathSet
          && (if d.pending.Some?
              then pub(d.pending.value) == d.saved.pendingPublicKey.value
                   && (peerKey == pub(d.primary) || peerKey == d.saved.pendingPublicKey.value)
              else peerKey == pub(d.primary) == d.saved.pendingPublicKey.value))
    && (d.config.Some? ==> pub(d.config.value.key) == d.config.value.peerKey)
    && forall r :: r in rs ==> Offers(r, d)
  }

  /** At whichever of the remaining writes the process dies, the files agree. */
  ghost predicate SafeToWrite(pub: PrivateKey -> PublicKey, d: Disk, ws: seq<Write>, peerKey: PublicKey, rs: seq<Request>)
    decreases |ws|
  {
    && FilesAgree(pub, d, peerKey, rs)
    && (ws != [] ==> SafeToWrite(pub, Perform(d, ws[0]), ws[1..], peerKey, rs))
  }

  ghost predicate SameKeys(a: AgentState, b: AgentState) {
    a.pendingPathSet == b.pendingPathSet && a.pendingPublicKey == b.pendingPublicKey
  }

  /** What the agent may still rely on in a reply that has not reached it. */
  ghost predicate ReplyCurrent(w: World) {
    w.reply.Some? ==>
      && w.phase.Waiting? && w.stale == [] && w.current.None?
      && (w.reply.value.Success? ==>
            && w.reply.value.response.peerKey == w.server.peerKey
            && (w.reply.value.response.rotationRequired ==> w.phase.mem.pendingPublicKey.None?))
  }

  ghost predicate Inv(pub: PrivateKey -> PublicKey, w: World) {
    && FilesAgree(pub, w.disk, w.server.peerKey, w.stale)
    && (w.phase.Waiting? ==> SameKeys(w.phase.mem, w.disk.saved))
    && (w.current.Some? ==>
          && w.phase.Waiting? && w.reply.None?
          && w.current.value.rotationKey == w.disk.saved.pendingPublicKey)
    && ReplyCurrent(w)
    && (w.phase.Writing? ==> SafeToWrite(pub, w.disk, w.phase.rest, w.server.peerKey, w.stale))
  }

  // ---------------------------------------------------------------- preservation

  /** Serving a request keeps the files in agreement with the new registered key. */
  lemma ServeAgrees(pub: PrivateKey -> PublicKey, d: Disk, s: Server, r: Request, rs: seq<Request>, rs': seq<Request>)
    requires FilesAgree(pub, d, s.peerKey, rs) && Offers(r, d)
    requires forall x :: x in rs' ==> x in rs
    ensures FilesAgree(pub, d, ServeCheckIn(s, r).0.peerKey, rs')
  {
  }

  lemma {:induction false} ServeKeepsScript(pub: PrivateKey -> PublicKey, d: Disk, ws: seq<Write>, s: Server, r: Request,
                                            rs: seq<Request>, rs': seq<Request>)
    requires SafeToWrite(pub, d, ws, s.peerKey, rs) && r in rs
    requires forall x :: x in rs' ==> x in rs
    ensures SafeToWrite(pub, d, ws, ServeCheckIn(s, r).0.peerKey, rs')
    decreases |ws|
  {
    ServeAgrees(pub, d, s, r, rs, rs');
    if ws != [] {
      ServeKeepsScript(pub, Perform(d, ws[0]), ws[1..], s, r, rs, rs');
    }
  }

  /** Saving a state with the same key fields is always safe. */
  lemma SaveIsSafe(pub: PrivateKey -> PublicKey, d: Disk, mem: AgentState, peerKey: PublicKey, rs: seq<Request>)
    requires FilesAgree(pub, d, peerKey, rs) && SameKeys(mem, d.saved)
    ensures SafeToWrite(pub, d, [SaveState(mem)], peerKey, rs)
  {
    assert [SaveState(mem)][1..] == [];
    assert SafeToWrite(pub, Perform(d, SaveState(mem)), [], peerKey, rs);
  }

  lemma RotationIsSafe(pub: PrivateKey -> PublicKey, d: Disk, mem: AgentState, m: Machine, peerKey: PublicKey)
    requires FilesAgree(pub, d, peerKey, []) && SameKeys(mem, d.saved)
    ensures SafeToWrite(pub, d, RotationScript(pub, d, mem, m), peerKey, [])
  {
    var ws := RotationScript(pub, d, mem, m);
    if mem.pendingPublicKey.Some? || (d.pending.None? && !m.pendingWriteWorks) {
      SaveIsSafe(pub, d, mem, peerKey, []);
    } else if d.pending.Some? {
      assert ws[1..] == [];
      assert SafeToWrite(pub, Perform(d, ws[0]), [], peerKey, []);
    } else {
      var d1 := Perform(d, ws[0]);
      assert ws[1..] == [ws[1]] && ws[1..][1..] == [];
      assert SafeToWrite(pub, Perform(d1, ws[1]), [], peerKey, []);
      assert SafeToWrite(pub, d1, ws[1..], peerKey, []);
    }
  }

  lemma PromoteIsSafe(pub: PrivateKey -> PublicKey, d: Disk, mem: AgentState, m: Machine, peerKey: PublicKey)
    requires FilesAgree(pub, d, peerKey, []) && SameKeys(mem, d.saved)
    requires mem.pendingPublicKey == Some(peerKey)
    ensures SafeToWrite(pub, d, PromoteScript(d, mem, m), peerKey, [])
  {
    var ws := PromoteScript(d, mem, m);
    if !mem.pendingPathSet || d.pending.None? || !m.primaryWriteWorks {
      SaveIsSafe(pub, d, mem, peerKey, []);
    } else {
      var d1 := Perform(d, ws[0]);
      if !m.removeWorks {
        assert ws[1..] == [SaveState(mem)];
        SaveIsSafe(pub, d1, mem, peerKey, []);
      } else {
        var d2 := Perform(d1, ws[1]);
        assert ws[1..] == [ws[1], ws[2]] && ws[1..][1..] == [ws[2]] && ws[1..][1..][1..] == [];
        assert SafeToWrite(pub, Perform(d2, ws[2]), [], peerKey, []);
        assert SafeToWrite(pub, d2, [ws[2]], peerKey, []);
        assert SafeToWrite(pub, d1, ws[1..], peerKey, []);
      }
    }
  }

  lemma ApplyIsSafe(pub: PrivateKey -> PublicKey, d: Disk, mem: AgentState, key: PrivateKey, rotated: bool, r: Response, m: Machine)
    requires FilesAgree(pub, d, r.peerKey, []) && SameKeys(mem, d.saved)
    requires pub(key) == r.peerKey
    requires rotated ==> mem.pendingPublicKey == Some(r.peerKey)
    ensures SafeToWrite(pub, d, ApplyScript(d, mem, key, rotated, r, m), r.peerKey, [])
  {
    var ws := ApplyScript(d, mem, key, rotated, r, m);
    if r.config.None? {
      if rotated {
        PromoteIsSafe(pub, d, mem, m, r.peerKey);
      } else {
        SaveIsSafe(pub, d, mem, r.peerKey, []);
      }
    } else if !r.config.value.complete || !m.configWriteWorks {
      SaveIsSafe(pub, d, mem.(fingerprint := r.config.value.fingerprint, applyStatus := ApplyFailed), r.peerKey, []);
    } else {
      var mem' := ConfigWritten(mem, r.config.value, m);
      var d1 := Perform(d, WriteConfig(ConfigFile(key, r.peerKey)));
      if mem'.applyStatus != ApplyFailed && rotated {
        assert PromoteScript(d1, mem', m) == PromoteScript(d, mem', m);
        PromoteIsSafe(pub, d1, mem', m, r.peerKey);
        assert ws[1..] == PromoteScript(d, mem', m);
      } else {
        SaveIsSafe(pub, d1, mem', r.peerKey, []);
        assert ws[1..] == [SaveState(mem')];
      }
    }
  }

  lemma ScriptIsSafe(pub: PrivateKey -> PublicKey, w: World, m: Machine)
    requires Inv(pub, w) && w.phase.Waiting? && w.reply.Some?
    ensures SafeToWrite(pub, w.disk, SyncScript(pub, w.disk, w.phase.mem, w.reply.value, m), w.server.peerKey, [])
  {
    var d, mem, key := w.disk, w.phase.mem, w.server.peerKey;
    if w.reply.value.Failure? {
      SaveIsSafe(pub, d, mem, key, []);
    } else {
      var r := w.reply.value.response;
      if r.desiredDisabled {
        SaveIsSafe(pub, d, mem.(applyStatus := if m.disableWorks then Disabled else ApplyFailed), key, []);
      } else if r.rotationRequired {
        RotationIsSafe(pub, d, mem, m, key);
      } else if !r.reconfigureRequired {
        SaveIsSafe(pub, d, mem, key, []);
      } else if mem.pendingPublicKey != Some(r.peerKey) {
        ApplyIsSafe(pub, d, mem, d.primary, false, r, m);
      } else if mem.pendingPathSet && d.pending.Some? {
        ApplyIsSafe(pub, d, mem, d.pending.value, true, r, m);
      }
    }
  }

  lemma StepKeepsInv(pub: PrivateKey -> PublicKey, w: World, a: Action)
    requires Inv(pub, w)
    ensures Inv(pub, Act(pub, w, a))
  {
    var w' := Act(pub, w, a);
    match a
    case StartPass(o) =>
    case ServeStale(i) =>
      if i < |w.stale| {
        var r := w.stale[i];
        ServeAgrees(pub, w.disk, w.server, r, w.stale, w'.stale);
        if w.phase.Writing? {
          ServeKeepsScript(pub, w.disk, w.phase.rest, w.server, r, w.stale, w'.stale);
        }
      }
    case ServeCurrent =>
      if w.current.Some? {
        ServeAgrees(pub, w.disk, w.server, w.current.value, w.stale, []);
      }
    case LoseReply =>
    case TakeReply(m) =>
      if w.phase.Waiting? && w.reply.Some? {
        ScriptIsSafe(pub, w, m);
      }
    case GiveUp =>
      if w.phase.Waiting? {
        SaveIsSafe(pub, w.disk, w.phase.mem, w.server.peerKey, w'.stale);
      }
    case NextWrite =>
      if w.phase.Writing? && w.phase.rest != [] {
        assert SafeToWrite(pub, w'.disk, w'.phase.rest, w.server.peerKey, w.stale);
      }
    case Crash =>
    case Administer(_, _, _, _) =>
  }

  lemma {:induction false} RunKeepsInv(pub: PrivateKey -> PublicKey, w: World, actions: seq<Action>)
    requires Inv(pub, w)
    ensures Inv(pub, Run(pub, w, actions))
  {
    if actions != [] {
      RunKeepsInv(pub, w, actions[..|actions| - 1]);
      StepKeepsInv(pub, Run(pub, w, actions[..|actions| - 1]), actions[|actions| - 1]);
    }
  }

  // ---------------------------------------------------------------- the theorems

  /**
   In every state of every run from enrollment, whatever is lost, delayed or administered
   and wherever the agent dies, the agent still holds the registered key.
   */
  lemma RegisteredKeyNeverLost(pub: PrivateKey -> PublicKey, w: World, actions: seq<Action>)
    requires Enrolled(pub, w)
    ensures HoldsRegisteredKey(pub, Run(pub, w, actions))
  {
    RunKeepsInv(pub, w, actions);
  }

  /** Over whole runs, every configuration the agent ever has on disk matches the reply that triggered it. */
  lemma EveryConfigMatchesItsReply(pub: PrivateKey -> PublicKey, w: World, actions: seq<Action>)
    requires Enrolled(pub, w)
    ensures ConfigMatchesReply(pub, Run(pub, w, actions))
  {
    RunKeepsInv(pub, w, actions);
  }

  // ---------------------------------------------------------------- progress, and where it ends

  /** The agent has recorded a pending key that is already registered, and its file is gone. */
  ghost predicate Stranded(pub: PrivateKey -> PublicKey, w: World) {
    && w.disk.saved.pendingPublicKey == Some(w.server.peerKey)
    && w.disk.pending.None?
  }

  ghost predicate OnlySaves(d: Disk, ws: seq<Write>) {
    forall x :: x in ws ==> x.SaveState? && SameKeys(x.state, d.saved)
  }

  /** With a working machine and a complete configuration, a reconfiguring pass writes it unless stranded. */
  lemma ReconfigureWritesIff(pub: PrivateKey -> PublicKey, w: World, m: Machine)
    requires Inv(pub, w) && w.phase.Waiting? && w.reply.Some? && w.reply.value.Success?
    requires var r := w.reply.value.response;
             !r.desiredDisabled && !r.rotationRequired && r.reconfigureRequired && r.config.Some? && r.config.value.complete
    requires m.configWriteWorks
    ensures var ws := SyncScript(pub, w.disk, w.phase.mem, w.reply.value, m);
            (ws != [] && ws[0] == WriteConfig(ConfigFile(
               if w.disk.saved.pendingPublicKey == Some(w.server.peerKey) && w.disk.pending.Some?
               then w.disk.pending.value else w.disk.primary, w.server.peerKey)))
            <==> !Stranded(pub, w)
  {
  }

  lemma {:induction false} StrandedForEver(pub: PrivateKey -> PublicKey, w: World, actions: seq<Action>)
    requires Inv(pub, w) && w.phase.Idle? && Stranded(pub, w)
    ensures var w' := Run(pub, w, actions);
            && Stranded(pub, w')
            && w'.disk.config == w.disk.config && w'.disk.primary == w.disk.primary
            && w'.server.peerKey == w.server.peerKey
            && (w'.phase.Writing? ==> OnlySaves(w'.disk, w'.phase.rest))
  {
    RunKeepsInv(pub, w, actions);
    if actions != [] {
      var before := actions[..|actions| - 1];
      StrandedForEver(pub, w, before);
      RunKeepsInv(pub, w, before);
      var v := Run(pub, w, before);
      var a := actions[|actions| - 1];
      StrandedStep(pub, v, a);
    }
  }

  lemma StrandedStep(pub: PrivateKey -> PublicKey, v: World, a: Action)
    requires Inv(pub, v) && Stranded(pub, v)
    requires v.phase.Writing? ==> OnlySaves(v.disk, v.phase.rest)
    ensures var w := Act(pub, v, a);
            && Stranded(pub, w)
            && w.disk.config == v.disk.config && w.disk.primary == v.disk.primary
            && w.server.peerKey == v.server.peerKey
            && (w.phase.Writing? ==> OnlySaves(w.disk, w.phase.rest))
  {
    match a
    case ServeStale(i) =>
      if i < |v.stale| {
        assert Offers(v.stale[i], v.disk);
      }
    case NextWrite =>
      if v.phase.Writing? && v.phase.rest != [] {
        assert v.phase.rest[0] in v.phase.rest;
        assert forall x :: x in v.phase.rest[1..] ==> x in v.phase.rest;
      }
    case _ =>
  }

  /** A pass in which nothing is lost and the agent does not die. */
  function CleanPass(pub: PrivateKey -> PublicKey, w: World, o: Observation, m: Machine): World
    requires w.phase.Idle?
  {
    var mem := Refresh(w.disk.saved, o);
    var (server, reply) := ServeCheckIn(w.server, RequestOf(mem));
    World(Replay(w.disk, SyncScript(pub, w.disk, mem, reply, m)), Idle, [], None, None, server)
  }

  /** Its steps: the request, its service, the reply, and then the writes. */
  lemma PassInSteps(pub: PrivateKey -> PublicKey, w: World, o: Observation, m: Machine)
    requires w.phase.Idle?
    ensures var mem := Refresh(w.disk.saved, o);
            var (server, reply) := ServeCheckIn(w.server, RequestOf(mem));
            Act(pub, Act(pub, Act(pub, w, StartPass(o)), ServeCurrent), TakeReply(m))
            == World(w.disk, Writing(SyncScript(pub, w.disk, mem, reply, m)), [], None, None, server)
  {
  }

  /** Finishing the writes one by one is replaying them. */
  lemma {:induction false} WritesRunOut(pub: PrivateKey -> PublicKey, w: World, n: nat)
    requires w.phase.Writing? && n == |w.phase.rest| + 1
    ensures Run(pub, w, seq(n, i => NextWrite)) == w.(disk := Replay(w.disk, w.phase.rest), phase := Idle)
    decreases n
  {
    var w1 := Act(pub, w, NextWrite);
    if w.phase.rest == [] {
      assert seq(n, i => NextWrite)[..0] == [];
      assert Run(pub, w, []) == w;
    } else {
      WritesRunOut(pub, w1, n - 1);
      RunFromFirst(pub, w, NextWrite, seq(n - 1, i => NextWrite));
      assert [NextWrite] + seq(n - 1, i => NextWrite) == seq(n, i => NextWrite);
    }
  }

  lemma {:induction false} RunFromFirst(pub: PrivateKey -> PublicKey, w: World, a: Action, rest: seq<Action>)
    ensures Run(pub, w, [a] + rest) == Run(pub, Act(pub, w, a), rest)
    decreases |rest|
  {
    if rest == [] {
      assert [a] + rest == [a] && [a][..0] == [];
      assert Run(pub, w, []) == w;
    } else {
      var init := rest[..|rest| - 1];
      assert ([a] + rest)[..|rest|] == [a] + init;
      RunFromFirst(pub, w, a, init);
    }
  }

  /** A machine on which everything works. */
  predicate Works(m: Machine) {
    m.pendingWriteWorks && m.configWriteWorks && m.applyRequested && m.applyWorks && m.primaryWriteWorks && m.removeWorks
  }

  /** The private key that a rotation starting from these files will use. */
  function NextKey(d: Disk, m: Machine): PrivateKey {
    if d.pending.Some? then d.pending.value else m.freshKey
  }

  lemma OfferPass(pub: PrivateKey -> PublicKey, w: World, o: Observation, m: Machine)
    requires Inv(pub, w) && w.phase.Idle? && w.server.agentStatus == AgentStatus.Enrolled
    requires w.server.peerStatus == RotationPending && Works(m)
    requires w.disk.saved.pendingPublicKey.None?
    ensures var w' := CleanPass(pub, w, o, m);
            && w'.server == w.server
            && w'.disk.pending == Some(NextKey(w.disk, m))
            && w'.disk.saved.pendingPublicKey == Some(pub(NextKey(w.disk, m)))
            && w'.disk.saved.pendingPathSet
  {
    var mem := Refresh(w.disk.saved, o);
    var ws := RotationScript(pub, w.disk, mem, m);
    if w.disk.pending.Some? {
      assert Replay(w.disk, ws) == Perform(w.disk, ws[0]);
    } else {
      assert ws[1..] == [ws[1]];
      assert Replay(w.disk, ws) == Replay(Perform(w.disk, ws[0]), [ws[1]]) == Perform(Perform(w.disk, ws[0]), ws[1]);
    }
  }

  lemma AcceptPass(pub: PrivateKey -> PublicKey, w: World, o: Observation, m: Machine)
    requires Inv(pub, w) && w.phase.Idle? && w.server.agentStatus == AgentStatus.Enrolled
    requires w.server.peerStatus == RotationPending && Works(m)
    requires w.server.config.Some? && w.server.config.value.complete
    requires w.disk.saved.pendingPublicKey.Some? && w.disk.saved.pendingPublicKey != Some(w.server.peerKey)
    requires WellFormedKey(w.disk.saved.pendingPublicKey.value) && w.disk.saved.pendingPublicKey.value !in w.server.otherKeys
    ensures w.disk.pending.Some?
    ensures var w', k := CleanPass(pub, w, o, m), w.disk.pending.value;
            && w'.server == w.server.(peerKey := pub(k), peerStatus := Planned)
            && RotatedTo(pub, w', k)
  {
    var mem := Refresh(w.disk.saved, o);
    var k := w.disk.pending.value;
    var reply := ServeCheckIn(w.server, RequestOf(mem)).1;
    var r := reply.response;
    var ws := SyncScript(pub, w.disk, mem, reply, m);
    var mem' := ConfigWritten(mem, r.config.value, m);
    var final := mem'.(publicKey := pub(k), pendingPathSet := false, pendingPublicKey := None);
    assert ws == [WriteConfig(ConfigFile(k, r.peerKey)), WritePrimary(k), RemovePending, SaveState(final)];
    Replay4(w.disk, ws);
  }

  lemma Replay4(d: Disk, ws: seq<Write>)
    requires |ws| == 4
    ensures Replay(d, ws) == Perform(Perform(Perform(Perform(d, ws[0]), ws[1]), ws[2]), ws[3])
  {
    var d1 := Perform(d, ws[0]);
    var d2 := Perform(d1, ws[1]);
    var d3 := Perform(d2, ws[2]);
    assert ws[1..][1..] == ws[2..] && ws[2..][1..] == ws[3..] && ws[3..][1..] == [];
    assert Replay(d, ws) == Replay(d1, ws[1..]);
    assert Replay(d1, ws[1..]) == Replay(d2, ws[2..]);
    assert Replay(d2, ws[2..]) == Replay(d3, ws[3..]);
    assert Replay(d3, ws[3..]) == Replay(Perform(d3, ws[3]), []);
  }

  /** The agent uses k and nothing else: both files, its configuration and the registered key agree. */
  ghost predicate RotatedTo(pub: PrivateKey -> PublicKey, w: World, k: PrivateKey) {
    && w.disk.primary == k && w.disk.pending.None?
    && w.disk.saved.publicKey == pub(k) == w.server.peerKey
    && w.disk.saved.pendingPublicKey.None?
    && w.disk.config == Some(ConfigFile(k, pub(k)))
  }

  lemma RefusedPass(pub: PrivateKey -> PublicKey, w: World, o: Observation, m: Machine)
    requires Inv(pub, w) && w.phase.Idle? && w.server.peerStatus == RotationPending
    requires w.disk.saved.pendingPublicKey == Some(w.server.peerKey)
    ensures var w' := CleanPass(pub, w, o, m);
            w'.server == w.server && w'.disk.saved.pendingPublicKey == w.disk.saved.pendingPublicKey
  {
    var mem := Refresh(w.disk.saved, o);
    assert Replay(w.disk, [SaveState(mem)]) == Perform(w.disk, SaveState(mem));
  }

  lemma SettledPass(pub: PrivateKey -> PublicKey, w: World, o: Observation, m: Machine, k: PrivateKey)
    requires Inv(pub, w) && w.phase.Idle? && w.server.agentStatus == AgentStatus.Enrolled
    requires w.server.peerStatus == Planned && Works(m)
    requires w.server.config.Some? && w.server.config.value.complete && RotatedTo(pub, w, k)
    ensures RotatedTo(pub, CleanPass(pub, w, o, m), k)
  {
    var mem := Refresh(w.disk.saved, o);
    var reply := ServeCheckIn(w.server, RequestOf(mem)).1;
    var mem' := ConfigWritten(mem, w.server.config.value, m);
    var ws := [WriteConfig(ConfigFile(k, w.server.peerKey)), SaveState(mem')];
    assert SyncScript(pub, w.disk, mem, reply, m) == ws;
    assert ws[1..] == [ws[1]] && ws[1..][1..] == [];
    assert Replay(w.disk, ws) == Replay(Perform(w.disk, ws[0]), ws[1..]) == Perform(Perform(w.disk, ws[0]), ws[1]);
  }

  lemma CleanPassKeepsInv(pub: PrivateKey -> PublicKey, w: World, o: Observation, m: Machine)
    requires Inv(pub, w) && w.phase.Idle?
    ensures Inv(pub, CleanPass(pub, w, o, m)) && CleanPass(pub, w, o, m).phase.Idle?
  {
    StepKeepsInv(pub, w, StartPass(o));
    var w1 := Act(pub, w, StartPass(o));
    StepKeepsInv(pub, w1, ServeCurrent);
    var w2 := Act(pub, w1, ServeCurrent);
    StepKeepsInv(pub, w2, TakeReply(m));
    var w3 := Act(pub, w2, TakeReply(m));
    PassInSteps(pub, w, o, m);
    var n := |w3.phase.rest| + 1;
    WritesRunOut(pub, w3, n);
    RunKeepsInv(pub, w3, seq(n, i => NextWrite));
  }

  /**
   From any reachable idle state with a rotation requested, two undisturbed passes rotate the
   key exactly when the key the agent has recorded as pending is not already the registered
   one; otherwise the server refuses every offer and nothing changes.
   */
  lemma RotationCompletesIff(pub: PrivateKey -> PublicKey, w: World, o1: Observation, o2: Observation, m: Machine)
    requires Inv(pub, w) && w.phase.Idle? && Works(m)
    requires w.server.agentStatus == AgentStatus.Enrolled && w.server.peerStatus == RotationPending
    requires w.server.config.Some? && w.server.config.value.complete
    requires var offered := if w.disk.saved.pendingPublicKey.Some? then w.disk.saved.pendingPublicKey.value
                            else pub(NextKey(w.disk, m));
             && WellFormedKey(offered) && offered !in w.server.otherKeys
             && (w.disk.saved.pendingPublicKey.None? ==> offered != w.server.peerKey)
    ensures var w1 := CleanPass(pub, w, o1, m);
            var w2 := CleanPass(pub, w1, o2, m);
            if w.disk.saved.pendingPublicKey == Some(w.server.peerKey)
            then w2.server == w.server
            else RotatedTo(pub, w2, NextKey(w.disk, m)) && w2.server.peerKey != w.server.peerKey
  {
    var w1 := CleanPass(pub, w, o1, m);
    CleanPassKeepsInv(pub, w, o1, m);
    if w.disk.saved.pendingPublicKey == Some(w.server.peerKey) {
      RefusedPass(pub, w, o1, m);
      RefusedPass(pub, w1, o2, m);
    } else if w.disk.saved.pendingPublicKey.None? {
      OfferPass(pub, w, o1, m);
      AcceptPass(pub, w1, o2, m);
    } else {
      AcceptPass(pub, w, o1, m);
      SettledPass(pub, w1, o2, m, w.disk.pending.value);
    }
  }

  /** What makes the server tell an agent whose peer is in service to write its configuration again. */
  predicate ToldToReconfigure(mem: AgentState, fingerprint: string) {
    || mem.applyStatus == ApplyFailed || mem.applyStatus == Drifted
    || (fingerprint != "" && mem.fingerprint != fingerprint)
  }

  /**
   The fingerprint leaves out the agent's own key. So when the peer was put in service before
   the agent learnt that its new key is registered, an undisturbed pass moves to that key
   exactly when something else is reported wrong; otherwise the old key stays configured.
   */
  lemma SilentRotationIff(pub: PrivateKey -> PublicKey, w: World, o: Observation, m: Machine)
    requires Inv(pub, w) && w.phase.Idle? && Works(m)
    requires w.server.agentStatus == AgentStatus.Enrolled && w.server.peerStatus == Active
    requires w.server.config.Some? && w.server.config.value.complete
    requires w.disk.saved.pendingPublicKey == Some(w.server.peerKey) && w.disk.pending.Some?
    ensures var w' := CleanPass(pub, w, o, m);
            var told := ToldToReconfigure(Refresh(w.disk.saved, o), w.server.config.value.fingerprint);
            && w'.server == w.server
            && (RotatedTo(pub, w', w.disk.pending.value) <==> told)
            && (!told ==> w'.disk.config == w.disk.config && w'.disk.primary == w.disk.primary)
  {
    var mem := Refresh(w.disk.saved, o);
    var k := w.disk.pending.value;
    var reply := ServeCheckIn(w.server, RequestOf(mem)).1;
    var r := reply.response;
    var ws := SyncScript(pub, w.disk, mem, reply, m);
    if ToldToReconfigure(mem, w.server.config.value.fingerprint) {
      var mem' := ConfigWritten(mem, r.config.value, m);
      var final := mem'.(publicKey := pub(k), pendingPathSet := false, pendingPublicKey := None);
      assert ws == [WriteConfig(ConfigFile(k, r.peerKey)), WritePrimary(k), RemovePending, SaveState(final)];
      Replay4(w.disk, ws);
    } else {
      assert ws == [SaveState(mem)];
      assert Replay(w.disk, ws) == Perform(w.disk, SaveState(mem));
    }
  }
}
