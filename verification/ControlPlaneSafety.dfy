/**
 What every operation of the control plane keeps, over whole runs.
 */
module ControlPlaneSafety {
  import opened Prelude
  import opened CheckInRules
  import opened ControlPlane

  // ---------------------------------------------------------------- the invariant

  /** Rows refer to rows that exist, and every agent has its peer. */
  ghost predicate Referential(db: Database) {
    && db.agents.Keys == db.peers.Keys
    && (forall x :: x in db.assignments ==> x.0 in db.agents && x.1 in db.policies)
    && (forall t :: t in db.tokens ==> db.tokens[t].policyIds <= db.policies.Keys)
  }

  /** An agent is revoked exactly when its peer is; revocation leaves neither address nor auth hash. */
  ghost predicate StatesAgree(db: Database) {
    forall a :: a in db.agents && a in db.peers ==>
      && (db.agents[a].status == AgentRevoked <==> db.peers[a].status == PeerRevoked)
      && (db.agents[a].status == AgentRevoked <==> db.agents[a].authHash == "")
      && (db.agents[a].status == AgentRevoked ==> db.peers[a].address.None?)
  }

  ghost predicate KeysDistinct(db: Database) {
    forall a, b :: a in db.peers && b in db.peers && db.peers[a].publicKey == db.peers[b].publicKey ==> a == b
  }

  ghost predicate AddressesDistinct(db: Database) {
    forall a, b :: a in db.peers && b in db.peers && db.peers[a].address.Some? && db.peers[a].address == db.peers[b].address ==> a == b
  }

  /** A token that created an agent is used up, and created no other. */
  ghost predicate TokensSingleUse(db: Database) {
    && (forall a :: a in db.agents ==> db.agents[a].enrolledWith in db.tokens && db.tokens[db.agents[a].enrolledWith].used)
    && (forall a, b :: a in db.agents && b in db.agents && db.agents[a].enrolledWith == db.agents[b].enrolledWith ==> a == b)
  }

  /** Every peer row holds the rendering of its agent's override and assigned policies. */
  ghost predicate IntentCurrent(db: Database) {
    forall a :: a in db.peers && a in db.agents ==> db.peers[a].allowedIPs == Rendered(db, a)
  }

  /** Everything but the rendered intent. */
  ghost predicate Consistent(db: Database) {
    Referential(db) && StatesAgree(db) && KeysDistinct(db) && AddressesDistinct(db) && TokensSingleUse(db)
  }

  ghost predicate Inv(db: Database) {
    Consistent(db) && IntentCurrent(db)
  }

  // ---------------------------------------------------------------- refreshing rows

  lemma RefreshFacts(db: Database, agents: set<AgentId>)
    ensures var db' := RefreshAll(db, agents);
            && db' == db.(peers := db'.peers)
            && db'.peers.Keys == db.peers.Keys
            && (forall a :: a in db.peers ==>
                  && db'.peers[a].publicKey == db.peers[a].publicKey
                  && db'.peers[a].address == db.peers[a].address
                  && (db'.peers[a].status == PeerRevoked <==> db.peers[a].status == PeerRevoked)
                  && db'.peers[a].allowedIPs == if a in agents && a in db.agents then Rendered(db, a) else db.peers[a].allowedIPs)
  {
  }

  lemma {:induction false} RenderingSame(o: Option<TrafficMode>, p: map<PolicyId, Policy>, q: map<PolicyId, Policy>, ids: set<PolicyId>)
    requires forall i :: i in ids ==> i in p && i in q && p[i] == q[i]
    ensures Rendering(o, p, ids) == Rendering(o, q, ids)
  {
    assert DestinationsOf(p, ids) == DestinationsOf(q, ids);
    assert AnyFullTunnel(p, ids) == AnyFullTunnel(q, ids);
  }

  /** What an agent's rendering depends on. */
  lemma RenderedSame(db: Database, db': Database, a: AgentId)
    requires a in db.agents && a in db'.agents && db.agents[a].trafficOverride == db'.agents[a].trafficOverride
    requires Assigned(db, a) == Assigned(db', a)
    requires forall p :: p in Assigned(db, a) ==> p in db.policies && p in db'.policies && db.policies[p] == db'.policies[p]
    ensures Rendered(db, a) == Rendered(db', a)
  {
    RenderingSame(db.agents[a].trafficOverride, db.policies, db'.policies, Assigned(db, a));
  }

  lemma AssignedMembers(db: Database, a: AgentId, p: PolicyId)
    ensures p in Assigned(db, a) <==> (a, p) in db.assignments
  {
    if p in Assigned(db, a) {
      var x :| x in db.assignments && x.0 == a && x.1 == p;
      assert x == (a, p);
    }
  }

  /** With the same assignments of a, the assigned policies are the same. */
  lemma AssignedSame(db: Database, db': Database, a: AgentId)
    requires forall p :: (a, p) in db.assignments <==> (a, p) in db'.assignments
    ensures Assigned(db, a) == Assigned(db', a)
  {
    forall p
      ensures p in Assigned(db, a) <==> p in Assigned(db', a)
    {
      AssignedMembers(db, a, p);
      AssignedMembers(db', a, p);
    }
  }

  lemma RefreshKeepsRenderings(db: Database, done: set<AgentId>)
    ensures forall b :: b in db.agents ==> Rendered(RefreshAll(db, done), b) == Rendered(db, b)
  {
    assert forall b :: Assigned(RefreshAll(db, done), b) == Assigned(db, b);
  }

  /** Refreshing the rows a change may touch makes every row current again. */
  lemma {:induction false} RefreshMakesCurrent(db: Database, changed: Database, agents: set<AgentId>)
    requires IntentCurrent(db) && Referential(db)
    requires changed.peers == db.peers && changed.agents.Keys == db.agents.Keys
    requires forall a :: a in db.agents && a !in agents ==>
               && changed.agents[a].trafficOverride == db.agents[a].trafficOverride
               && Assigned(changed, a) == Assigned(db, a)
               && forall p :: p in Assigned(db, a) ==> p in changed.policies && p in db.policies && changed.policies[p] == db.policies[p]
    ensures IntentCurrent(RefreshAll(changed, agents))
  {
    var db' := RefreshAll(changed, agents);
    RefreshFacts(changed, agents);
    RefreshKeepsRenderings(changed, agents);
    forall a | a in db'.peers && a in db'.agents
      ensures db'.peers[a].allowedIPs == Rendered(db', a)
    {
      if a !in agents {
        RenderedSame(db, changed, a);
      }
    }
  }

  // ---------------------------------------------------------------- each operation keeps the invariant

  /** The parts that a refresh of rows does not touch. */
  lemma RefreshKeepsRest(db: Database, agents: set<AgentId>)
    requires Consistent(db)
    ensures Consistent(RefreshAll(db, agents))
  {
    RefreshFacts(db, agents);
  }

  lemma {:induction false} UpdatePolicyKeeps(s: Settings, db: Database, id: PolicyId, raw: seq<string>, mode: TrafficMode)
    requires Inv(db)
    ensures Inv(Next(s, db, UpdatePolicy(id, raw, mode)))
  {
    var nets := NormalizedDestinations(s, raw);
    if id in db.policies && nets.Some? {
      var changed := db.(policies := db.policies[id := Policy(SortedElements(nets.value), mode)]);
      forall a | a in db.agents && a !in AgentsWith(db, id)
        ensures Assigned(changed, a) == Assigned(db, a)
        ensures forall p :: p in Assigned(db, a) ==> p in changed.policies && p in db.policies && changed.policies[p] == db.policies[p]
      {
        forall p | p in Assigned(db, a)
          ensures p in changed.policies && p in db.policies && changed.policies[p] == db.policies[p]
        {
          AssignedMembers(db, a, p);
          assert (a, p) in db.assignments;
          assert p == id ==> a in AgentsWith(db, id);
        }
      }
      RefreshMakesCurrent(db, changed, AgentsWith(db, id));
      RefreshKeepsRest(changed, AgentsWith(db, id));
    }
  }

  /** Changing only agent a's assignments, then refreshing its row. */
  lemma {:induction false} ReassignKeeps(db: Database, assignments: set<(AgentId, PolicyId)>, a: AgentId)
    requires Inv(db)
    requires forall x :: x in assignments ==> x.0 in db.agents && x.1 in db.policies
    requires forall b, p :: b != a ==> ((b, p) in assignments <==> (b, p) in db.assignments)
    ensures Inv(RefreshAll(db.(assignments := assignments), {a}))
  {
    var changed := db.(assignments := assignments);
    forall b | b in db.agents && b != a
      ensures Assigned(changed, b) == Assigned(db, b)
      ensures forall p :: p in Assigned(db, b) ==> p in db.policies
    {
      AssignedSame(db, changed, b);
    }
    RefreshMakesCurrent(db, changed, {a});
    RefreshKeepsRest(changed, {a});
  }

  lemma OverrideConsistent(db: Database, a: AgentId, mode: Option<TrafficMode>)
    requires Consistent(db) && a in db.agents
    ensures Consistent(db.(agents := db.agents[a := db.agents[a].(trafficOverride := mode)]))
  {
    OverrideStates(db, a, mode);
    OverrideTokens(db, a, mode);
    assert db.agents[a := db.agents[a].(trafficOverride := mode)].Keys == db.agents.Keys;
  }

  lemma OverrideStates(db: Database, a: AgentId, mode: Option<TrafficMode>)
    requires StatesAgree(db) && a in db.agents
    ensures StatesAgree(db.(agents := db.agents[a := db.agents[a].(trafficOverride := mode)]))
  {
  }

  lemma OverrideTokens(db: Database, a: AgentId, mode: Option<TrafficMode>)
    requires TokensSingleUse(db) && a in db.agents
    ensures TokensSingleUse(db.(agents := db.agents[a := db.agents[a].(trafficOverride := mode)]))
  {
  }

  lemma {:induction false} SetOverrideKeeps(s: Settings, db: Database, a: AgentId, mode: Option<TrafficMode>)
    requires Inv(db)
    ensures Inv(Next(s, db, SetOverride(a, mode)))
  {
    if a in db.agents {
      var changed := db.(agents := db.agents[a := db.agents[a].(trafficOverride := mode)]);
      forall b | b in db.agents && b != a
        ensures Assigned(changed, b) == Assigned(db, b)
        ensures forall p :: p in Assigned(db, b) ==> p in db.policies
      {
        AssignedSame(db, changed, b);
      }
      RefreshMakesCurrent(db, changed, {a});
      OverrideConsistent(db, a, mode);
      RefreshKeepsRest(changed, {a});
    }
  }

  /** Operations that leave overrides, assignments and assigned policies alone leave the rows current. */
  lemma {:induction false} SameIntent(db: Database, db': Database)
    requires IntentCurrent(db) && Referential(db)
    requires db'.agents.Keys == db.agents.Keys && db'.peers.Keys == db.peers.Keys && db'.assignments == db.assignments
    requires forall a :: a in db.agents ==> db'.agents[a].trafficOverride == db.agents[a].trafficOverride
    requires forall a :: a in db.peers ==> db'.peers[a].allowedIPs == db.peers[a].allowedIPs
    requires forall p :: p in db.policies ==> p in db'.policies && db'.policies[p] == db.policies[p]
    ensures IntentCurrent(db')
  {
    forall a | a in db'.peers && a in db'.agents
      ensures db'.peers[a].allowedIPs == Rendered(db', a)
    {
      AssignedSame(db, db', a);
      RenderedSame(db, db', a);
    }
  }

  /** The two rows of one agent after a change of state or key. */
  predicate RowChange(db: Database, a: AgentId, agent: Agent, peer: Peer)
    requires a in db.agents && a in db.peers
  {
    && agent.trafficOverride == db.agents[a].trafficOverride && agent.enrolledWith == db.agents[a].enrolledWith
    && peer.allowedIPs == db.peers[a].allowedIPs
    && peer.publicKey !in OtherKeys(db, a)
    && (peer.address == db.peers[a].address || peer.address.None?)
    && (agent.status == AgentRevoked <==> peer.status == PeerRevoked)
    && (agent.status == AgentRevoked <==> agent.authHash == "")
    && (agent.status == AgentRevoked ==> peer.address.None?)
  }

  /** The store with the two rows of agent a, and the runtime, replaced. */
  function WithRows(db: Database, a: AgentId, agent: Agent, peer: Peer, runtime: map<AgentId, RuntimePeer>): Database {
    db.(agents := db.agents[a := agent], peers := db.peers[a := peer], runtime := runtime)
  }

  lemma RowsKeys(db: Database, a: AgentId, agent: Agent, peer: Peer, runtime: map<AgentId, RuntimePeer>)
    requires KeysDistinct(db) && a in db.peers && peer.publicKey !in OtherKeys(db, a)
    ensures KeysDistinct(WithRows(db, a, agent, peer, runtime))
  {
    forall b | b in db.peers && b != a
      ensures db.peers[b].publicKey != peer.publicKey
    {
      assert db.peers[b].publicKey in OtherKeys(db, a);
    }
  }

  lemma RowsAddresses(db: Database, a: AgentId, agent: Agent, peer: Peer, runtime: map<AgentId, RuntimePeer>)
    requires AddressesDistinct(db) && a in db.peers && (peer.address == db.peers[a].address || peer.address.None?)
    ensures AddressesDistinct(WithRows(db, a, agent, peer, runtime))
  {
  }

  lemma RowsTokens(db: Database, a: AgentId, agent: Agent, peer: Peer, runtime: map<AgentId, RuntimePeer>)
    requires TokensSingleUse(db) && a in db.agents && agent.enrolledWith == db.agents[a].enrolledWith
    ensures TokensSingleUse(WithRows(db, a, agent, peer, runtime))
  {
  }

  lemma RowsStates(db: Database, a: AgentId, agent: Agent, peer: Peer, runtime: map<AgentId, RuntimePeer>)
    requires StatesAgree(db) && a in db.agents && a in db.peers && RowChange(db, a, agent, peer)
    ensures StatesAgree(WithRows(db, a, agent, peer, runtime))
  {
  }

  lemma RowsReferential(db: Database, a: AgentId, agent: Agent, peer: Peer, runtime: map<AgentId, RuntimePeer>)
    requires Referential(db) && a in db.agents && a in db.peers
    ensures Referential(WithRows(db, a, agent, peer, runtime))
  {
    var db' := WithRows(db, a, agent, peer, runtime);
    assert db'.agents.Keys == db.agents.Keys && db'.peers.Keys == db.peers.Keys;
  }

  lemma RowChangeKeeps(db: Database, a: AgentId, agent: Agent, peer: Peer, runtime: map<AgentId, RuntimePeer>)
    requires Inv(db) && a in db.agents && a in db.peers && RowChange(db, a, agent, peer)
    ensures Inv(WithRows(db, a, agent, peer, runtime))
  {
    RowsKeys(db, a, agent, peer, runtime);
    RowsAddresses(db, a, agent, peer, runtime);
    RowsTokens(db, a, agent, peer, runtime);
    RowsStates(db, a, agent, peer, runtime);
    RowsReferential(db, a, agent, peer, runtime);
    SameIntent(db, WithRows(db, a, agent, peer, runtime));
  }

  lemma OwnKeyIsNotOther(db: Database, a: AgentId)
    requires KeysDistinct(db) && a in db.peers
    ensures db.peers[a].publicKey !in OtherKeys(db, a)
  {
  }

  lemma SettingStatesKeeps(db: Database, a: AgentId, agent: AgentStatus, peer: PeerStatus, runtime: map<AgentId, RuntimePeer>)
    requires Inv(db) && a in db.agents && a in db.peers
    requires agent != AgentRevoked && peer != PeerRevoked && db.agents[a].status != AgentRevoked
    ensures Inv(SetStates(db, a, agent, peer).(runtime := runtime))
  {
    OwnKeyIsNotOther(db, a);
    RowChangeKeeps(db, a, db.agents[a].(status := agent), db.peers[a].(status := peer), runtime);
  }

  lemma {:induction false} RevokeKeeps(s: Settings, db: Database, a: AgentId, removes: bool)
    requires Inv(db)
    ensures Inv(Next(s, db, Revoke(a, removes)))
  {
    if a in db.agents && a in db.peers && db.agents[a].status != AgentRevoked {
      var agent := db.agents[a].(status := AgentRevoked, authHash := "");
      var peer := db.peers[a].(status := PeerRevoked, address := None);
      assert RowChange(db, a, agent, peer) by {
        OwnKeyIsNotOther(db, a);
      }
      RowChangeKeeps(db, a, agent, peer, RuntimeAfter(db, a, removes));
      RevokeRows(s, db, a, removes);
    }
  }

  lemma RevokeRows(s: Settings, db: Database, a: AgentId, removes: bool)
    requires a in db.agents && a in db.peers && db.agents[a].status != AgentRevoked
    ensures Next(s, db, Revoke(a, removes)) ==
            WithRows(db, a, db.agents[a].(status := AgentRevoked, authHash := ""),
                     db.peers[a].(status := PeerRevoked, address := None), RuntimeAfter(db, a, removes))
  {
  }

  lemma OnlyPeerRow(db: Database, a: AgentId, peer: Peer, runtime: map<AgentId, RuntimePeer>)
    requires a in db.agents
    ensures WithRows(db, a, db.agents[a], peer, runtime) == db.(peers := db.peers[a := peer], runtime := runtime)
  {
    assert db.agents[a := db.agents[a]] == db.agents;
  }

  lemma PeerRowChange(db: Database, a: AgentId, publicKey: PublicKey, status: PeerStatus)
    requires StatesAgree(db) && a in db.agents && a in db.peers && publicKey !in OtherKeys(db, a)
    requires db.agents[a].status != AgentRevoked && status != PeerRevoked
    ensures RowChange(db, a, db.agents[a], db.peers[a].(publicKey := publicKey, status := status))
  {
  }

  /** Changing only the peer's key and status. */
  lemma PeerChangeKeeps(db: Database, a: AgentId, publicKey: PublicKey, status: PeerStatus, runtime: map<AgentId, RuntimePeer>)
    requires Inv(db) && a in db.agents && a in db.peers && publicKey !in OtherKeys(db, a)
    requires db.agents[a].status != AgentRevoked && status != PeerRevoked
    ensures Inv(db.(peers := db.peers[a := db.peers[a].(publicKey := publicKey, status := status)], runtime := runtime))
  {
    var peer := db.peers[a].(publicKey := publicKey, status := status);
    PeerRowChange(db, a, publicKey, status);
    RowChangeKeeps(db, a, db.agents[a], peer, runtime);
    OnlyPeerRow(db, a, peer, runtime);
  }

  lemma {:induction false} RotateKeeps(s: Settings, db: Database, a: AgentId)
    requires Inv(db)
    ensures Inv(Next(s, db, Rotate(a)))
  {
    if a in db.agents && a in db.peers && db.agents[a].status != AgentRevoked {
      OwnKeyIsNotOther(db, a);
      PeerChangeKeeps(db, a, db.peers[a].publicKey, RotationPending, db.runtime);
    }
  }

  lemma {:induction false} ReconcileKeeps(s: Settings, db: Database, a: AgentId)
    requires Inv(db)
    ensures Inv(Next(s, db, Reconcile(a)))
  {
    if a in db.peers && db.peers[a].status != PeerDisabled && db.peers[a].status != PeerRevoked {
      OwnKeyIsNotOther(db, a);
      PeerChangeKeeps(db, a, db.peers[a].publicKey, Active, Next(s, db, Reconcile(a)).runtime);
    }
  }

  lemma {:induction false} CheckInKeeps(s: Settings, db: Database, a: AgentId, tokenHash: string, rotationKey: Option<PublicKey>)
    requires Inv(db)
    ensures Inv(Next(s, db, CheckIn(a, tokenHash, rotationKey)))
  {
    if a in db.agents && a in db.peers && db.agents[a].status != AgentRevoked && rotationKey.Some? {
      var r := CompleteRotation(db.peers[a].publicKey, db.peers[a].status, OtherKeys(db, a), rotationKey.value);
      if r.Ok? {
        OwnKeyIsNotOther(db, a);
        PeerChangeKeeps(db, a, r.value.0, r.value.1, db.runtime);
      }
    }
  }

  /** Adding a token, or changing one without making it unused again. */
  lemma TokenKeeps(db: Database, id: TokenId, token: Token)
    requires Inv(db) && token.policyIds <= db.policies.Keys
    requires id in db.tokens ==> token.used == db.tokens[id].used
    ensures Inv(db.(tokens := db.tokens[id := token]))
  {
    var db' := db.(tokens := db.tokens[id := token]);
    SameIntent(db, db');
    SameRows(db, db');
    TokensKept(db, id, token);
  }

  lemma TokensKept(db: Database, id: TokenId, token: Token)
    requires TokensSingleUse(db) && (id in db.tokens ==> token.used == db.tokens[id].used)
    ensures TokensSingleUse(db.(tokens := db.tokens[id := token]))
  {
  }

  /** What depends on the agent and peer rows alone. */
  lemma SameRows(db: Database, db': Database)
    requires StatesAgree(db) && KeysDistinct(db) && AddressesDistinct(db)
    requires db'.agents == db.agents && db'.peers == db.peers
    ensures StatesAgree(db') && KeysDistinct(db') && AddressesDistinct(db')
  {
  }

  lemma {:induction false} CreatePolicyKeeps(db: Database, id: PolicyId, policy: Policy)
    requires Inv(db) && id !in db.policies
    ensures Inv(db.(policies := db.policies[id := policy]))
  {
    var db' := db.(policies := db.policies[id := policy]);
    SameIntent(db, db');
    SameRows(db, db');
    assert TokensSingleUse(db');
  }

  lemma TokenOperationKeeps(s: Settings, db: Database, op: Operation)
    requires Inv(db) && (op.CreateToken? || op.RevokeToken? || op.Reissue?)
    ensures Inv(Next(s, db, op))
  {
    if Apply(s, db, op).Ok? {
      TokenKeeps(db, op.token, Next(s, db, op).tokens[op.token]);
    }
  }

  /** The store with the rows of an enrollment, before the new agent's intent is rendered. */
  function Inserted(db: Database, e: Enrollment, address: Option<nat>): Database
    requires e.token in db.tokens
  {
    var t := db.tokens[e.token];
    db.(agents := db.agents[e.newAgent := Agent(e.hostname, AgentStatus.Enrolled, e.authHash, None, e.token)],
        peers := db.peers[e.newAgent := Peer(e.publicKey, address, [], Planned)],
        assignments := db.assignments + (set p | p in t.policyIds :: (e.newAgent, p)),
        tokens := db.tokens[e.token := t.(used := true)])
  }

  /** What PerformEnrollment has established when it inserts. */
  ghost predicate MayInsert(db: Database, e: Enrollment, address: Option<nat>) {
    && e.token in db.tokens && !db.tokens[e.token].used && e.newAgent !in db.agents && e.authHash != ""
    && (forall a :: a in db.peers ==> db.peers[a].publicKey != e.publicKey)
    && (address.Some? ==> address.value !in AddressesInUse(db))
  }

  lemma InsertedAddresses(db: Database, e: Enrollment, address: Option<nat>)
    requires Consistent(db) && MayInsert(db, e, address)
    ensures AddressesDistinct(Inserted(db, e, address)) && KeysDistinct(Inserted(db, e, address))
  {
    forall a | a in db.peers && db.peers[a].address.Some?
      ensures db.peers[a].address != address
    {
      assert a in db.agents && db.peers[a].status != PeerRevoked;
      assert db.peers[a].address.value in AddressesInUse(db);
    }
  }

  lemma InsertedTokens(db: Database, e: Enrollment, address: Option<nat>)
    requires TokensSingleUse(db) && MayInsert(db, e, address)
    ensures TokensSingleUse(Inserted(db, e, address))
  {
    assert forall a :: a in db.agents ==> db.agents[a].enrolledWith != e.token;
  }

  lemma InsertedReferential(db: Database, e: Enrollment, address: Option<nat>)
    requires Referential(db) && StatesAgree(db) && MayInsert(db, e, address)
    ensures Referential(Inserted(db, e, address)) && StatesAgree(Inserted(db, e, address))
  {
    var db' := Inserted(db, e, address);
    assert db'.agents.Keys == db.agents.Keys + {e.newAgent} && db'.peers.Keys == db.peers.Keys + {e.newAgent};
  }

  lemma InsertedRenderings(db: Database, e: Enrollment, address: Option<nat>, a: AgentId)
    requires Referential(db) && MayInsert(db, e, address) && a in db.agents
    ensures Rendered(Inserted(db, e, address), a) == Rendered(db, a)
  {
    AssignedSame(db, Inserted(db, e, address), a);
    RenderedSame(db, Inserted(db, e, address), a);
  }

  lemma {:induction false} EnrollKeeps(s: Settings, db: Database, e: Enrollment)
    requires Inv(db)
    ensures Inv(Next(s, db, Enroll(e)))
  {
    var r := AfterEnroll(s, db, e);
    if r.Ok? {
      var address := AllocatedAddress(s, db).value;
      var inserted := Inserted(db, e, address);
      assert MayInsert(db, e, address);
      InsertedAddresses(db, e, address);
      InsertedTokens(db, e, address);
      InsertedReferential(db, e, address);
      if db.tokens[e.token].policyIds == {} {
        EnrolledWithoutPolicies(db, e, address);
        assert r.value == inserted;
      } else {
        EnrolledWithPolicies(db, e, address);
        RefreshKeepsRest(inserted, {e.newAgent});
        assert r.value == RefreshAll(inserted, {e.newAgent});
      }
    }
  }

  lemma {:induction false} EnrolledWithPolicies(db: Database, e: Enrollment, address: Option<nat>)
    requires Inv(db) && MayInsert(db, e, address)
    ensures IntentCurrent(RefreshAll(Inserted(db, e, address), {e.newAgent}))
  {
    var inserted := Inserted(db, e, address);
    var db' := RefreshAll(inserted, {e.newAgent});
    RefreshFacts(inserted, {e.newAgent});
    forall a | a in db'.peers && a in db'.agents
      ensures db'.peers[a].allowedIPs == Rendered(db', a)
    {
      assert Assigned(db', a) == Assigned(inserted, a);
      assert Rendered(db', a) == Rendered(inserted, a);
      if a != e.newAgent {
        InsertedRenderings(db, e, address, a);
      }
    }
  }

  lemma {:induction false} EnrolledWithoutPolicies(db: Database, e: Enrollment, address: Option<nat>)
    requires Inv(db) && MayInsert(db, e, address) && db.tokens[e.token].policyIds == {}
    ensures IntentCurrent(Inserted(db, e, address))
  {
    var inserted := Inserted(db, e, address);
    NewAgentIntent(db, e, db.tokens[e.token], inserted);
    forall a | a in inserted.peers && a in inserted.agents
      ensures inserted.peers[a].allowedIPs == Rendered(inserted, a)
    {
      if a != e.newAgent {
        InsertedRenderings(db, e, address, a);
      }
    }
  }

  /** Without bound policies nothing is assigned, and the empty list is the right rendering. */
  lemma NewAgentIntent(db: Database, e: Enrollment, t: Token, inserted: Database)
    requires Referential(db) && e.newAgent !in db.agents && e.newAgent in inserted.agents
    requires inserted.agents[e.newAgent].trafficOverride.None?
    requires inserted.assignments == db.assignments + (set p | p in t.policyIds :: (e.newAgent, p))
    ensures t.policyIds == {} ==> Rendered(inserted, e.newAgent) == []
  {
    if t.policyIds == {} {
      forall p
        ensures p !in Assigned(inserted, e.newAgent)
      {
        AssignedMembers(inserted, e.newAgent, p);
      }
      assert Assigned(inserted, e.newAgent) == {};
      assert DestinationsOf(inserted.policies, {}) == {};
    }
  }

  lemma {:induction false} StepKeepsInv(s: Settings, db: Database, op: Operation)
    requires Inv(db)
    ensures Inv(Next(s, db, op))
  {
    match op
    case CreatePolicy(id, raw, mode) =>
      if Apply(s, db, op).Ok? {
        CreatePolicyKeeps(db, id, Next(s, db, op).policies[id]);
      }
    case UpdatePolicy(id, raw, mode) => UpdatePolicyKeeps(s, db, id, raw, mode);
    case AssignPolicy(_, _) => AssignKeeps(s, db, op);
    case UnassignPolicy(_, _) => AssignKeeps(s, db, op);
    case AssignPolicies(_, _) => AssignKeeps(s, db, op);
    case SetOverride(a, mode) => SetOverrideKeeps(s, db, a, mode);
    case CreateToken(_, _, _, _) => TokenOperationKeeps(s, db, op);
    case RevokeToken(_, _) => TokenOperationKeeps(s, db, op);
    case Reissue(_, _, _) => TokenOperationKeeps(s, db, op);
    case Enroll(e) => EnrollKeeps(s, db, e);
    case Disable(_, _) => DisableEnableKeeps(s, db, op);
    case Enable(_) => DisableEnableKeeps(s, db, op);
    case Revoke(a, removes) => RevokeKeeps(s, db, a, removes);
    case Rotate(a) => RotateKeeps(s, db, a);
    case CheckIn(a, tokenHash, rotationKey) => CheckInKeeps(s, db, a, tokenHash, rotationKey);
    case Reconcile(a) => ReconcileKeeps(s, db, a);
  }

  lemma {:induction false} AssignKeeps(s: Settings, db: Database, op: Operation)
    requires Inv(db) && (op.AssignPolicy? || op.UnassignPolicy? || op.AssignPolicies?)
    ensures Inv(Next(s, db, op))
  {
    if Apply(s, db, op).Ok? && Next(s, db, op) != db {
      var a := op.agent;
      var assignments := Next(s, db, op).assignments;
      if op.AssignPolicy? {
        assert assignments == db.assignments + {(a, op.policy)};
      } else if op.UnassignPolicy? {
        assert assignments == db.assignments - {(a, op.policy)};
      } else {
        assert assignments == db.assignments + (set p | p in CleanSet(op.raw) :: (a, p));
      }
      ReassignKeeps(db, assignments, a);
    }
  }

  lemma {:induction false} DisableEnableKeeps(s: Settings, db: Database, op: Operation)
    requires Inv(db) && (op.Disable? || op.Enable?)
    ensures Inv(Next(s, db, op))
  {
    var a := op.agent;
    if Apply(s, db, op).Ok? {
      if op.Disable? {
        SettingStatesKeeps(db, a, AgentDisabled, PeerDisabled, RuntimeAfter(db, a, op.removes));
      } else {
        SettingStatesKeeps(db, a, Enrolled, Planned, db.runtime);
      }
    }
  }

  lemma {:induction false} RunKeepsInv(s: Settings, db: Database, ops: seq<Operation>)
    requires Inv(db)
    ensures Inv(Run(s, db, ops))
  {
    if ops != [] {
      RunKeepsInv(s, db, ops[..|ops| - 1]);
      StepKeepsInv(s, Run(s, db, ops[..|ops| - 1]), ops[|ops| - 1]);
    }
  }

  /** Every store reached from the empty one is consistent and has every peer's intent current. */
  lemma {:induction false} ReachableInv(s: Settings, ops: seq<Operation>)
    ensures Inv(Run(s, EMPTY, ops))
  {
    RunKeepsInv(s, EMPTY, ops);
  }
}
