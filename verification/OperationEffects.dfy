/**
 What the control plane's operations do to the store, said of its rows rather than of the steps
 that compute them, and exactly when they are refused.
 */
module OperationEffects {
  import opened Prelude
  import opened Sorting
  import opened Text
  import opened CheckInRules
  import opened ControlPlane
  import opened ControlPlaneSafety
  import opened ControlPlaneTheorems
  import AddressAllocator

  // ---------------------------------------------------------------- enrollment

  /** A peer that is not revoked has this address. */
  ghost predicate Held(db: Database, address: nat) {
    exists a :: a in db.peers && db.peers[a].status != PeerRevoked && db.peers[a].address == Some(address)
  }

  /** An address of the range that may be handed out. */
  ghost predicate Available(db: Database, r: Range, address: nat) {
    r.base < address < r.base + r.size && r.skip != Some(address) && !Held(db, address)
  }

  lemma HeldIffInUse(db: Database, address: nat)
    ensures address in AddressesInUse(db) <==> Held(db, address)
  {
  }

  lemma AvailableIffFree(db: Database, r: Range, address: nat)
    ensures Available(db, r, address) <==> AddressAllocator.Free(r.base, r.size, AddressesInUse(db), r.skip, address)
  {
    HeldIffInUse(db, address);
  }

  lemma EnrolledRow(s: Settings, db: Database, e: Enrollment)
    requires Apply(s, db, Enroll(e)).Ok?
    ensures AllocatedAddress(s, db).Ok?
    ensures var db' := Next(s, db, Enroll(e));
            && e.newAgent in db'.peers
            && db'.peers[e.newAgent].publicKey == e.publicKey && db'.peers[e.newAgent].status == Planned
            && db'.peers[e.newAgent].address == AllocatedAddress(s, db).value
  {
  }

  /** The new peer's row: the given key and, under a configured range, the least address that may be handed out. */
  lemma EnrollmentStoresRow(s: Settings, db: Database, e: Enrollment)
    requires Apply(s, db, Enroll(e)).Ok?
    ensures var db' := Next(s, db, Enroll(e));
            && e.newAgent !in db.agents && e.newAgent in db'.agents && e.newAgent in db'.peers
            && db'.agents[e.newAgent].hostname == e.hostname && db'.agents[e.newAgent].authHash == e.authHash
            && db'.agents[e.newAgent].status == AgentStatus.Enrolled && db'.agents[e.newAgent].trafficOverride.None?
            && db'.peers[e.newAgent].publicKey == e.publicKey && db'.peers[e.newAgent].status == Planned
    ensures s.range.None? ==> Next(s, db, Enroll(e)).peers[e.newAgent].address.None?
    ensures s.range.Some? ==>
              && Next(s, db, Enroll(e)).peers[e.newAgent].address.Some?
              && LeastAvailable(db, s.range.value, Next(s, db, Enroll(e)).peers[e.newAgent].address.value)
  {
    EnrolledAgents(s, db, e);
    EnrolledRow(s, db, e);
    if s.range.Some? {
      LeastIsAvailable(db, s.range.value);
    }
  }

  ghost predicate LeastAvailable(db: Database, r: Range, address: nat) {
    Available(db, r, address) && forall other :: Available(db, r, other) ==> address <= other
  }

  lemma LeastIsAvailable(db: Database, r: Range)
    ensures var least := AddressAllocator.TheLeastFree(r.base, r.size, AddressesInUse(db), r.skip);
            if least.Some? then LeastAvailable(db, r, least.value) else forall address :: !Available(db, r, address)
  {
    var least := AddressAllocator.TheLeastFree(r.base, r.size, AddressesInUse(db), r.skip);
    forall address
      ensures Available(db, r, address) <==> AddressAllocator.Free(r.base, r.size, AddressesInUse(db), r.skip, address)
    {
      AvailableIffFree(db, r, address);
    }
  }

  /** The token may still enroll this hostname at this time. */
  predicate Redeemable(t: Token, hostname: string, now: int) {
    !t.revoked && !t.used && now <= t.expiresAt && (t.boundIdentity.None? || t.boundIdentity.value == hostname)
  }

  ghost predicate KeyTaken(db: Database, key: PublicKey) {
    exists a :: a in db.peers && db.peers[a].publicKey == key
  }

  /**
   When an enrollment succeeds: a well-formed key no peer has, a token neither revoked, used nor
   past its expiry and not bound to another hostname, no live agent found under the hostname, an
   unused id and a token hash, and an address left in the range if there is one.
   */
  lemma EnrollmentSucceedsIff(s: Settings, db: Database, e: Enrollment)
    ensures Apply(s, db, Enroll(e)).Ok? <==>
              && WellFormedKey(e.publicKey) && !KeyTaken(db, e.publicKey)
              && e.token in db.tokens && Redeemable(db.tokens[e.token], e.hostname, e.now)
              && (e.found.Some? ==> !Live(db, e.found.value))
              && e.newAgent !in db.agents && e.authHash != ""
              && (s.range.Some? ==> exists address :: Available(db, s.range.value, address))
  {
    if s.range.Some? {
      LeastIsAvailable(db, s.range.value);
    }
  }

  /** A token past its expiry enrolls nobody. */
  lemma ExpiredTokenIsRefused(s: Settings, db: Database, e: Enrollment)
    requires e.token in db.tokens && e.now > db.tokens[e.token].expiresAt
    ensures Apply(s, db, Enroll(e)).Err?
  {
  }

  /** A token is revoked once, and only while it could still enroll somebody; nothing else in the store changes. */
  lemma TokenRevocationStores(s: Settings, db: Database, t: TokenId, now: int)
    ensures Apply(s, db, RevokeToken(t, now)).Ok? <==>
              t in db.tokens && !db.tokens[t].revoked && !db.tokens[t].used && now <= db.tokens[t].expiresAt
    ensures var db' := Next(s, db, RevokeToken(t, now));
            Apply(s, db, RevokeToken(t, now)).Ok? ==>
              && t in db'.tokens && db' == db.(tokens := db.tokens[t := db'.tokens[t]])
              && db'.tokens[t] == Token(db.tokens[t].boundIdentity, db.tokens[t].policyIds, db.tokens[t].expiresAt, false, true)
  {
  }

  /** A replacement token is issued exactly for a revoked agent, under an unused id. */
  lemma ReissueSucceedsIff(s: Settings, db: Database, a: AgentId, t: TokenId, expiresAt: int)
    requires Referential(db)
    ensures Apply(s, db, Reissue(a, t, expiresAt)).Ok? <==>
              a in db.agents && db.agents[a].status == AgentRevoked && t !in db.tokens
  {
    forall p | p in Assigned(db, a)
      ensures p in db.policies
    {
      AssignedMembers(db, a, p);
    }
  }

  /** A token issued for policies, a hostname and a time enrolls for exactly those. */
  lemma IssuedTokenGrants(s: Settings, db: Database, t: TokenId, bound: Option<string>, ids: set<PolicyId>, expiresAt: int, e: Enrollment)
    requires Inv(db) && e.token == t
    requires Apply(s, db, CreateToken(t, bound, ids, expiresAt)).Ok?
    requires Apply(s, Next(s, db, CreateToken(t, bound, ids, expiresAt)), Enroll(e)).Ok?
    ensures e.now <= expiresAt && (bound.Some? ==> e.hostname == bound.value)
    ensures var db' := Next(s, Next(s, db, CreateToken(t, bound, ids, expiresAt)), Enroll(e));
            && e.newAgent in db'.peers && Assigned(db', e.newAgent) == ids
            && db'.peers[e.newAgent].allowedIPs == Rendering(None, db.policies, ids)
  {
    StepKeepsInv(s, db, CreateToken(t, bound, ids, expiresAt));
    EnrollmentGrants(s, Next(s, db, CreateToken(t, bound, ids, expiresAt)), e);
  }

  // ---------------------------------------------------------------- policies

  /** x is the canonical network of one of these destinations. */
  ghost predicate Names(s: Settings, raw: seq<string>, x: string) {
    exists i :: 0 <= i < |raw| && NamedBy(s, raw[i], x)
  }

  predicate NamedBy(s: Settings, destination: string, x: string) {
    var net := s.canonicalCidr(TrimSpace(destination));
    TrimSpace(destination) != "" && net.Some? && TrimSpace(net.value) == x && x != ""
  }

  /** Every destination that is not blank parses. */
  ghost predicate AllParse(s: Settings, raw: seq<string>) {
    forall i :: 0 <= i < |raw| && TrimSpace(raw[i]) != "" ==> s.canonicalCidr(TrimSpace(raw[i])).Some?
  }

  lemma NetsAreNamed(s: Settings, raw: seq<string>)
    ensures forall x :: x in CleanNets(s, raw) <==> Names(s, raw, x)
    ensures NormalizedDestinations(s, raw).Some? <==> AllParse(s, raw) && exists x :: Names(s, raw, x)
    ensures NormalizedDestinations(s, raw).Some? ==> NormalizedDestinations(s, raw).value == CleanNets(s, raw)
  {
    forall x
      ensures x in CleanNets(s, raw) <==> Names(s, raw, x)
    {
      if Names(s, raw, x) {
        var i :| 0 <= i < |raw| && NamedBy(s, raw[i], x);
        assert x in NetOf(s, raw[i]);
      }
      if x in CleanNets(s, raw) {
        var i :| 0 <= i < |raw| && x in NetOf(s, raw[i]);
        assert NamedBy(s, raw[i], x);
      }
    }
    if CleanNets(s, raw) != {} {
      var x := AnyElement(CleanNets(s, raw));
      assert Names(s, raw, x);
    }
  }

  /** The row holds this mode and exactly the networks that these destinations name, in sorted order. */
  ghost predicate Holds(s: Settings, p: Policy, raw: seq<string>, mode: TrafficMode) {
    && p.trafficMode == mode && SortedBy(StringLeq, p.destinations) && NoDuplicates(p.destinations)
    && forall x :: x in p.destinations <==> Names(s, raw, x)
  }

  lemma CreatePolicyStores(s: Settings, db: Database, id: PolicyId, raw: seq<string>, mode: TrafficMode)
    ensures Apply(s, db, CreatePolicy(id, raw, mode)).Ok?
            <==> AllParse(s, raw) && (exists x :: Names(s, raw, x)) && id !in db.policies
    ensures var db' := Next(s, db, CreatePolicy(id, raw, mode));
            Apply(s, db, CreatePolicy(id, raw, mode)).Ok? ==>
              id in db'.policies && Holds(s, db'.policies[id], raw, mode) && db' == db.(policies := db.policies[id := db'.policies[id]])
  {
    NetsAreNamed(s, raw);
  }

  /**
   A successful update stores the new row, leaves every other policy, agent, assignment and token
   alone, and gives the peer of each assigned agent the rendering under the new row, and no other
   peer anything.
   */
  lemma UpdatePolicyStores(s: Settings, db: Database, id: PolicyId, raw: seq<string>, mode: TrafficMode)
    ensures Apply(s, db, UpdatePolicy(id, raw, mode)).Ok?
            <==> id in db.policies && AllParse(s, raw) && exists x :: Names(s, raw, x)
    ensures var db' := Next(s, db, UpdatePolicy(id, raw, mode));
            Apply(s, db, UpdatePolicy(id, raw, mode)).Ok? ==>
              && id in db'.policies && Holds(s, db'.policies[id], raw, mode)
              && db' == db.(policies := db.policies[id := db'.policies[id]], peers := db'.peers)
              && db'.peers.Keys == db.peers.Keys
              && forall a :: a in db.peers && a in db.agents ==>
                   if (a, id) in db.assignments
                   then db'.peers[a].allowedIPs == Rendering(db.agents[a].trafficOverride, db'.policies, Assigned(db, a))
                   else db'.peers[a] == db.peers[a]
  {
    NetsAreNamed(s, raw);
    if Apply(s, db, UpdatePolicy(id, raw, mode)).Ok? {
      UpdateRefreshes(s, db, id, raw, mode);
    }
  }

  lemma UpdateRefreshes(s: Settings, db: Database, id: PolicyId, raw: seq<string>, mode: TrafficMode)
    requires Apply(s, db, UpdatePolicy(id, raw, mode)).Ok?
    ensures var db' := Next(s, db, UpdatePolicy(id, raw, mode));
            && id in db'.policies
            && db'.policies == db.policies[id := Policy(SortedElements(CleanNets(s, raw)), mode)]
            && db' == db.(policies := db'.policies, peers := db'.peers)
            && db'.peers.Keys == db.peers.Keys
            && forall a :: a in db.peers && a in db.agents ==>
                 if (a, id) in db.assignments
                 then db'.peers[a].allowedIPs == Rendering(db.agents[a].trafficOverride, db'.policies, Assigned(db, a))
                 else db'.peers[a] == db.peers[a]
  {
    NetsAreNamed(s, raw);
    var changed := db.(policies := db.policies[id := Policy(SortedElements(CleanNets(s, raw)), mode)]);
    RefreshFacts(changed, AgentsWith(db, id));
    forall a
      ensures a in AgentsWith(db, id) <==> (a, id) in db.assignments
    {
    }
    assert forall a :: Assigned(changed, a) == Assigned(db, a);
  }

  /** What an agent may reach, address by address: everything under a full tunnel, else what its policies list. */
  lemma RenderingReaches(trafficOverride: Option<TrafficMode>, policies: map<PolicyId, Policy>, ids: set<PolicyId>)
    ensures var full := trafficOverride == Some(FullTunnel)
                        || (trafficOverride.None? && exists p :: p in ids && p in policies && policies[p].trafficMode == FullTunnel);
            var r := Rendering(trafficOverride, policies, ids);
            if full then r == ["0.0.0.0/0"]
            else
              && SortedBy(StringLeq, r) && NoDuplicates(r)
              && forall x :: x in r <==> exists p :: p in ids && p in policies && Lists(policies[p], x)
  {
    forall x
      ensures x in DestinationsOf(policies, ids) <==> exists p :: p in ids && p in policies && Lists(policies[p], x)
    {
      if x in DestinationsOf(policies, ids) {
        var p :| p in ids && p in policies && x in CleanSet(policies[p].destinations);
        assert Lists(policies[p], x);
      }
      if exists p :: p in ids && p in policies && Lists(policies[p], x) {
        var p :| p in ids && p in policies && Lists(policies[p], x);
        assert x in CleanSet(policies[p].destinations);
      }
    }
  }

  ghost predicate Lists(p: Policy, x: string) {
    x != "" && exists i :: 0 <= i < |p.destinations| && TrimSpace(p.destinations[i]) == x
  }

  /** The given override is the one stored, the peer gets its rendering, and no other row changes. */
  lemma OverrideIsStored(s: Settings, db: Database, a: AgentId, mode: Option<TrafficMode>)
    requires a in db.agents && a in db.peers
    ensures var db' := Next(s, db, SetOverride(a, mode));
            && db' == db.(agents := db.agents[a := db.agents[a].(trafficOverride := mode)], peers := db'.peers)
            && a in db'.peers && db'.peers[a].allowedIPs == Rendering(mode, db.policies, Assigned(db, a))
            && forall b :: b != a && b in db.peers ==> b in db'.peers && db'.peers[b] == db.peers[b]
  {
    var changed := db.(agents := db.agents[a := db.agents[a].(trafficOverride := mode)]);
    RefreshFacts(changed, {a});
    AssignedSame(db, changed, a);
    assert Next(s, db, SetOverride(a, mode)) == RefreshAll(changed, {a});
  }

  /** Simulating an override tells what setting it would store. */
  lemma SimulatedOverridePredicts(s: Settings, db: Database, a: AgentId, mode: Option<TrafficMode>)
    requires Referential(db) && a in db.agents
    ensures var db' := Next(s, db, SetOverride(a, mode));
            a in db'.peers && Simulated(db, Some(a), {}, Some(mode)) == Ok(db'.peers[a].allowedIPs)
  {
    assert a in db.peers;
    OverrideIsStored(s, db, a, mode);
    forall p | p in Assigned(db, a)
      ensures p in db.policies
    {
      AssignedMembers(db, a, p);
    }
  }

  /** Simulation fails exactly when it is given nothing to go by, or an agent or policy that does not exist. */
  lemma SimulationFailsIff(
    db: Database, agent: Option<AgentId>, requested: set<PolicyId>, trafficOverride: Option<Option<TrafficMode>>)
    requires Referential(db)
    ensures Simulated(db, agent, requested, trafficOverride).Err? <==>
              || (agent.None? && requested == {})
              || (agent.Some? && agent.value !in db.agents)
              || exists p :: p in requested && p !in db.policies
  {
    if agent.Some? {
      forall p | p in Assigned(db, agent.value)
        ensures p in db.policies
      {
        AssignedMembers(db, agent.value, p);
      }
    }
  }

  // ---------------------------------------------------------------- assignments

  /** The service looks for the trimmed id, and the table takes the id as given. */
  predicate Known(db: Database, p: PolicyId) {
    p in db.policies && (TrimSpace(p) == "" || TrimSpace(p) in db.policies)
  }

  lemma KnownIff(db: Database, p: PolicyId)
    ensures CleanSet([p]) <= db.policies.Keys && p in db.policies <==> Known(db, p)
  {
    assert [p][0] == p;
    assert TrimSpace(p) != "" ==> TrimSpace(p) in CleanSet([p]);
  }

  /** A policy is assigned once: exactly when both exist and it is not assigned yet. */
  lemma AssignSucceedsIff(s: Settings, db: Database, a: AgentId, p: PolicyId)
    ensures Apply(s, db, AssignPolicy(a, p)).Ok? <==> Known(db, p) && a in db.agents && (a, p) !in db.assignments
  {
    KnownIff(db, p);
  }

  /** And it is unassigned exactly when it is assigned. */
  lemma UnassignSucceedsIff(s: Settings, db: Database, a: AgentId, p: PolicyId)
    requires Referential(db)
    ensures Apply(s, db, UnassignPolicy(a, p)).Ok? <==> Known(db, p) && (a, p) in db.assignments
  {
    KnownIff(db, p);
    if (a, p) in db.assignments {
      assert (a, p).0 in db.agents && (a, p).1 in db.policies;
    }
  }

  /** What one agent's assignments become; every other agent's stay as they are. */
  lemma AssignmentsBecome(s: Settings, db: Database, op: Operation, a: AgentId)
    requires Apply(s, db, op).Ok? && (op.AssignPolicy? || op.UnassignPolicy? || op.AssignPolicies?)
    ensures Assigned(Next(s, db, op), a) ==
              if op.agent != a then Assigned(db, a)
              else if op.AssignPolicy? then Assigned(db, a) + {op.policy}
              else if op.UnassignPolicy? then Assigned(db, a) - {op.policy}
              else Assigned(db, a) + CleanSet(op.raw)
  {
    var db' := Next(s, db, op);
    forall p
      ensures (a, p) in db'.assignments <==>
              p in if op.agent != a then Assigned(db, a)
                   else if op.AssignPolicy? then Assigned(db, a) + {op.policy}
                   else if op.UnassignPolicy? then Assigned(db, a) - {op.policy}
                   else Assigned(db, a) + CleanSet(op.raw)
    {
      AssignedMembers(db, a, p);
      NewAssignments(s, db, op);
    }
    forall p
      ensures p in Assigned(db', a) <==> (a, p) in db'.assignments
    {
      AssignedMembers(db', a, p);
    }
  }

  lemma NewAssignments(s: Settings, db: Database, op: Operation)
    requires Apply(s, db, op).Ok? && (op.AssignPolicy? || op.UnassignPolicy? || op.AssignPolicies?)
    ensures Next(s, db, op).assignments ==
              if op.AssignPolicy? then db.assignments + {(op.agent, op.policy)}
              else if op.UnassignPolicy? then db.assignments - {(op.agent, op.policy)}
              else db.assignments + set p | p in CleanSet(op.raw) :: (op.agent, p)
  {
    if op.AssignPolicies? && op.raw == [] {
      assert CleanSet(op.raw) == {};
    }
  }

  // ---------------------------------------------------------------- agents

  /** Which state changes an agent's and its peer's states allow. */
  lemma StateChangesSucceedIff(s: Settings, db: Database, a: AgentId, removes: bool)
    requires a in db.agents && a in db.peers
    ensures Apply(s, db, Disable(a, removes)).Ok? <==> db.agents[a].status == AgentStatus.Enrolled
    ensures Apply(s, db, Enable(a)).Ok? <==> db.agents[a].status == AgentDisabled
    ensures Apply(s, db, Reconcile(a)).Ok? <==> db.peers[a].status in {Planned, Active, RotationPending}
  {
  }

  /** Reconciling puts the peer in service with what its row says, and leaves every other row and entry alone. */
  lemma ReconcilePutsInService(s: Settings, db: Database, a: AgentId)
    requires Apply(s, db, Reconcile(a)).Ok?
    ensures a in db.peers
    ensures Next(s, db, Reconcile(a))
            == db.(peers := db.peers[a := db.peers[a].(status := Active)],
                   runtime := db.runtime[a := RuntimePeer(db.peers[a].publicKey, db.peers[a].allowedIPs)])
  {
  }

  /** Revoking succeeds on every live agent, and leaves it gone. */
  lemma RevokeMakesGone(s: Settings, db: Database, a: AgentId, removes: bool)
    requires a in db.agents && a in db.peers
    ensures Apply(s, db, Revoke(a, removes)).Ok? <==> db.agents[a].status != AgentRevoked
    ensures db.agents[a].status != AgentRevoked ==>
              && Gone(Next(s, db, Revoke(a, removes)), a)
              && (a in Next(s, db, Revoke(a, removes)).runtime <==> a in db.runtime && !removes)
  {
  }

  /** Whether the server takes this rotation key for this peer. */
  ghost predicate Takes(db: Database, a: AgentId, key: PublicKey)
    requires a in db.peers
  {
    WellFormedKey(key) && key != db.peers[a].publicKey
    && forall b :: b in db.peers && b != a ==> db.peers[b].publicKey != key
  }

  /**
   A check-in succeeds exactly with the hash of the agent's own token, while the agent is not
   revoked, and unless a pending rotation is offered a key the server cannot take.
   */
  lemma CheckInSucceedsIff(s: Settings, db: Database, a: AgentId, tokenHash: string, rotationKey: Option<PublicKey>)
    requires a in db.agents && a in db.peers
    ensures Apply(s, db, CheckIn(a, tokenHash, rotationKey)).Ok? <==>
              && db.agents[a].authHash != "" && tokenHash == db.agents[a].authHash && db.agents[a].status != AgentRevoked
              && (rotationKey.Some? && db.peers[a].status == RotationPending ==> Takes(db, a, rotationKey.value))
  {
    OtherKeyTaken(db, a, if rotationKey.Some? then rotationKey.value else "");
  }

  lemma OtherKeyTaken(db: Database, a: AgentId, key: PublicKey)
    ensures key in OtherKeys(db, a) <==> exists b :: b in db.peers && b != a && db.peers[b].publicKey == key
  {
  }

  /** What a successful check-in stores: the offered key if a rotation was pending, and nothing else. */
  lemma CheckInStores(s: Settings, db: Database, a: AgentId, tokenHash: string, rotationKey: Option<PublicKey>)
    requires a in db.agents && a in db.peers && Apply(s, db, CheckIn(a, tokenHash, rotationKey)).Ok?
    ensures Next(s, db, CheckIn(a, tokenHash, rotationKey)) ==
              if rotationKey.Some? && db.peers[a].status == RotationPending
              then db.(peers := db.peers[a := db.peers[a].(publicKey := rotationKey.value, status := Planned)])
              else db
  {
    assert db.peers[a := db.peers[a]] == db.peers;
  }

  /** Marking succeeds on every live agent, whatever state its peer is in, and touches nothing but that state. */
  lemma RotateMarks(s: Settings, db: Database, a: AgentId)
    requires a in db.agents && a in db.peers
    ensures Apply(s, db, Rotate(a)).Ok? <==> db.agents[a].status != AgentRevoked
    ensures db.agents[a].status != AgentRevoked ==>
              Next(s, db, Rotate(a)) == db.(peers := db.peers[a := db.peers[a].(status := RotationPending)])
  {
  }

  /** Operations that may end a rotation request of a's peer without a new key. */
  ghost predicate Cancels(db: Database, op: Operation, a: AgentId) {
    match op
    case UpdatePolicy(id, _, _) => (a, id) in db.assignments
    case AssignPolicy(b, _) => a == b
    case UnassignPolicy(b, _) => a == b
    case AssignPolicies(b, raw) => a == b && raw != []
    case SetOverride(b, _) => a == b
    case Disable(b, _) => a == b
    case Enable(b) => a == b
    case Revoke(b, _) => a == b
    case Reconcile(b) => a == b
    case _ => false
  }

  /**
   A requested rotation is forgotten, the peer keeping its old key, exactly when the agent's
   policies or override change, its state does, or its peer is reconciled before the agent answers.
   */
  lemma RotationForgottenIff(s: Settings, db: Database, op: Operation, a: AgentId)
    requires a in db.agents && a in db.peers && db.peers[a].status == RotationPending
    ensures var db' := Next(s, db, op);
            && a in db'.peers
            && ((db'.peers[a].status != RotationPending && db'.peers[a].publicKey == db.peers[a].publicKey)
                <==> Apply(s, db, op).Ok? && Cancels(db, op, a))
  {
    if PolicyOperation(op) {
      PolicyForgetsIff(s, db, op, a);
    } else if op.Enroll? {
      EnrollLeavesStates(s, db, op.request, a);
    } else {
      StateChangeForgetsIff(s, db, op, a);
    }
  }

  lemma PolicyForgetsIff(s: Settings, db: Database, op: Operation, a: AgentId)
    requires a in db.agents && a in db.peers && db.peers[a].status == RotationPending && PolicyOperation(op)
    ensures var db' := Next(s, db, op);
            && a in db'.peers && db'.peers[a].publicKey == db.peers[a].publicKey
            && (db'.peers[a].status != RotationPending <==> Apply(s, db, op).Ok? && Cancels(db, op, a))
  {
    if op.UpdatePolicy? {
      assert a in AgentsWith(db, op.id) <==> (a, op.id) in db.assignments;
    }
  }

  lemma StateChangeForgetsIff(s: Settings, db: Database, op: Operation, a: AgentId)
    requires a in db.agents && a in db.peers && db.peers[a].status == RotationPending
    requires !PolicyOperation(op) && !op.Enroll?
    ensures var db' := Next(s, db, op);
            && a in db'.peers
            && ((db'.peers[a].status != RotationPending && db'.peers[a].publicKey == db.peers[a].publicKey)
                <==> Apply(s, db, op).Ok? && Cancels(db, op, a))
  {
  }
}
