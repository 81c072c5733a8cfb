/**
 The two views of a check-in fit together: what the control plane does to its store is what the
 rotation protocol's server does to the one peer it looks at, and nothing else it does changes
 that peer's key.
 */
module CheckInRefinement {
  import opened Prelude
  import opened CheckInRules
  import opened ControlPlane
  import opened ControlPlaneSafety
  import opened ControlPlaneTheorems
  import opened OperationEffects
  import KeyRotation

  /** The rotation protocol's server, for one agent of the store and the configuration built for it. */
  function ServerFor(db: Database, a: AgentId, config: Option<KeyRotation.DesiredConfig>): KeyRotation.Server
    requires a in db.agents && a in db.peers
  {
    KeyRotation.Server(db.agents[a].status, db.peers[a].publicKey, db.peers[a].status, OtherKeys(db, a), config)
  }

  /** An authentic check-in succeeds in both, and leaves the same server behind. */
  lemma CheckInIsServed(s: Settings, db: Database, a: AgentId, r: KeyRotation.Request, config: Option<KeyRotation.DesiredConfig>)
    requires StatesAgree(db) && a in db.agents && a in db.peers
    ensures var op := CheckIn(a, db.agents[a].authHash, r.rotationKey);
            var served := KeyRotation.ServeCheckIn(ServerFor(db, a, config), r);
            && (served.1.Success? <==> Apply(s, db, op).Ok?)
            && Next(s, db, op).agents == db.agents && a in Next(s, db, op).peers
            && served.0 == ServerFor(Next(s, db, op), a, config)
  {
    var op := CheckIn(a, db.agents[a].authHash, r.rotationKey);
    if Apply(s, db, op).Ok? {
      CheckInStores(s, db, a, db.agents[a].authHash, r.rotationKey);
      OtherKeysKept(db, a, Next(s, db, op).peers[a]);
      assert Next(s, db, op).peers == db.peers[a := Next(s, db, op).peers[a]];
    }
  }

  lemma OtherKeysKept(db: Database, a: AgentId, peer: Peer)
    requires a in db.peers
    ensures OtherKeys(db.(peers := db.peers[a := peer]), a) == OtherKeys(db, a)
  {
    var db' := db.(peers := db.peers[a := peer]);
    forall key
      ensures key in OtherKeys(db', a) <==> key in OtherKeys(db, a)
    {
      if key in OtherKeys(db', a) {
        var b :| b in db'.peers && b != a && db'.peers[b].publicKey == key;
        assert db.peers[b] == db'.peers[b];
      }
      if key in OtherKeys(db, a) {
        var b :| b in db.peers && b != a && db.peers[b].publicKey == key;
        assert db'.peers[b] == db.peers[b];
      }
    }
  }

  /** A successful reply tells the agent what the store says of it after the check-in. */
  lemma ReplyTellsState(s: Settings, db: Database, a: AgentId, r: KeyRotation.Request, config: Option<KeyRotation.DesiredConfig>)
    requires StatesAgree(db) && a in db.agents && a in db.peers
    requires Apply(s, db, CheckIn(a, db.agents[a].authHash, r.rotationKey)).Ok?
    ensures var db' := Next(s, db, CheckIn(a, db.agents[a].authHash, r.rotationKey));
            var reply := KeyRotation.ServeCheckIn(ServerFor(db, a, config), r).1;
            && reply.Success? && a in db'.peers
            && reply.response.peerKey == db'.peers[a].publicKey && reply.response.config == config
            && (reply.response.desiredDisabled <==> db.agents[a].status == AgentDisabled)
            && (reply.response.rotationRequired <==> db'.peers[a].status == RotationPending)
  {
    CheckInIsServed(s, db, a, r, config);
  }

  /**
   When it is told to reconfigure: a disabled agent until it reports that it is down, and an
   enrolled one when its peer is not in service, when what it reports has failed or drifted, or
   when the configuration it applied is not the one there is.
   */
  lemma ReconfigureToldIff(s: Settings, db: Database, a: AgentId, r: KeyRotation.Request, config: Option<KeyRotation.DesiredConfig>)
    requires StatesAgree(db) && a in db.agents && a in db.peers
    requires Apply(s, db, CheckIn(a, db.agents[a].authHash, r.rotationKey)).Ok?
    ensures var peer := Next(s, db, CheckIn(a, db.agents[a].authHash, r.rotationKey)).peers[a];
            var reply := KeyRotation.ServeCheckIn(ServerFor(db, a, config), r).1;
            && reply.Success?
            && (reply.response.reconfigureRequired <==>
                  if db.agents[a].status == AgentDisabled then r.local.status != Disabled
                  else
                    || peer.status != Active || r.local.status in {ApplyFailed, Drifted}
                    || (config.Some? && config.value.fingerprint != "" && config.value.fingerprint != r.local.fingerprint))
  {
    CheckInIsServed(s, db, a, r, config);
  }

  /**
   Every operation but the agent's own check-in is, for its server, an act of administration:
   whatever it changes, it does not change the key.
   */
  lemma OnlyCheckInChangesKey(s: Settings, db: Database, op: Operation, a: AgentId)
    requires a in db.agents && a in db.peers && !(op.CheckIn? && op.agent == a)
    ensures var db' := Next(s, db, op);
            a in db'.agents && a in db'.peers && db'.peers[a].publicKey == db.peers[a].publicKey
  {
    if PolicyOperation(op) {
      PolicyKeepsKeys(s, db, op, a);
    } else if op.Enroll? {
      EnrollLeavesStates(s, db, op.request, a);
    } else {
      StateChangeKeepsKeys(s, db, op, a);
    }
  }

  lemma PolicyKeepsKeys(s: Settings, db: Database, op: Operation, a: AgentId)
    requires a in db.agents && a in db.peers && PolicyOperation(op)
    ensures var db' := Next(s, db, op);
            a in db'.agents && a in db'.peers && db'.peers[a].publicKey == db.peers[a].publicKey
  {
  }

  lemma StateChangeKeepsKeys(s: Settings, db: Database, op: Operation, a: AgentId)
    requires a in db.agents && a in db.peers && !PolicyOperation(op) && !op.Enroll? && !(op.CheckIn? && op.agent == a)
    ensures var db' := Next(s, db, op);
            a in db'.agents && a in db'.peers && db'.peers[a].publicKey == db.peers[a].publicKey
  {
  }
}
