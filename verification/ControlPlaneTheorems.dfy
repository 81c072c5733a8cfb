/**
 What holds of the control plane over every run: intent matches simulation, revocation is final,
 tokens are spent once, and exactly where the code departs from the states it means to keep.
 */
module ControlPlaneTheorems {
  import opened Prelude
  import opened CheckInRules
  import opened ControlPlane
  import opened ControlPlaneSafety

  // ---------------------------------------------------------------- intent

  /** A peer's stored allowed addresses are what the simulation answers for its agent. */
  lemma {:induction false} StoredIntentMatchesSimulation(s: Settings, ops: seq<Operation>, a: AgentId)
    requires a in Run(s, EMPTY, ops).agents
    ensures var db := Run(s, EMPTY, ops);
            a in db.peers && Simulated(db, Some(a), {}, None) == Ok(db.peers[a].allowedIPs)
  {
    ReachableInv(s, ops);
    var db := Run(s, EMPTY, ops);
    forall p | p in Assigned(db, a)
      ensures p in db.policies
    {
      AssignedMembers(db, a, p);
    }
  }

  /** Simulating an agent's policies with some more tells what assigning those would store. */
  lemma SimulationPredicts(s: Settings, db: Database, a: AgentId, raw: seq<PolicyId>)
    requires a in db.agents && a in db.peers && raw != []
    requires CleanSet(raw) <= db.policies.Keys && Assigned(db, a) <= CleanSet(raw)
    ensures var db' := Next(s, db, AssignPolicies(a, raw));
            a in db'.peers && Simulated(db, Some(a), CleanSet(raw), None) == Ok(db'.peers[a].allowedIPs)
  {
    AssigningAll(db, a, CleanSet(raw));
    var changed := db.(assignments := db.assignments + (set p | p in CleanSet(raw) :: (a, p)));
    assert Next(s, db, AssignPolicies(a, raw)) == RefreshAll(changed, {a});
    RefreshFacts(changed, {a});
    assert CleanSet(raw) == {} ==> Assigned(db, a) == CleanSet(raw);
  }

  lemma AssigningAll(db: Database, a: AgentId, ids: set<PolicyId>)
    requires Assigned(db, a) <= ids
    ensures Assigned(db.(assignments := db.assignments + (set p | p in ids :: (a, p))), a) == ids
  {
    var changed := db.(assignments := db.assignments + (set p | p in ids :: (a, p)));
    forall p
      ensures p in Assigned(changed, a) <==> p in ids
    {
      AssignedMembers(changed, a, p);
      AssignedMembers(db, a, p);
    }
  }

  /** Unassigning a policy undoes its assignment: every row is back, but for a peer in service, which is planned anew. */
  lemma UnassignUndoesAssign(s: Settings, db: Database, a: AgentId, p: PolicyId)
    requires Inv(db) && Apply(s, db, AssignPolicy(a, p)).Ok?
    ensures a in db.peers
    ensures Apply(s, Next(s, db, AssignPolicy(a, p)), UnassignPolicy(a, p)) ==
            Ok(db.(peers := db.peers[a := Refreshed(db.peers[a], db.peers[a].allowedIPs)]))
  {
    var changed := db.(assignments := db.assignments + {(a, p)});
    assert a in db.agents && a in db.peers;
    RefreshTwice(db, changed, a);
    AssignThenUnassign(s, db, a, p);
  }

  lemma AssignThenUnassign(s: Settings, db: Database, a: AgentId, p: PolicyId)
    requires Apply(s, db, AssignPolicy(a, p)).Ok?
    ensures var added := RefreshAll(db.(assignments := db.assignments + {(a, p)}), {a});
            && Next(s, db, AssignPolicy(a, p)) == added
            && Apply(s, added, UnassignPolicy(a, p)) == Ok(RefreshAll(added.(assignments := db.assignments), {a}))
  {
    assert db.assignments + {(a, p)} - {(a, p)} == db.assignments;
  }

  lemma RefreshTwice(db: Database, changed: Database, a: AgentId)
    requires IntentCurrent(db) && a in db.peers && a in db.agents
    requires changed == db.(assignments := changed.assignments)
    ensures RefreshAll(RefreshAll(changed, {a}).(assignments := db.assignments), {a}) ==
            db.(peers := db.peers[a := Refreshed(db.peers[a], db.peers[a].allowedIPs)])
  {
    var back := RefreshAll(changed, {a}).(assignments := db.assignments);
    AssignedSame(db, back, a);
    assert Rendered(back, a) == Rendered(db, a);
    assert RefreshAll(back, {a}).peers == db.peers[a := Refreshed(db.peers[a], db.peers[a].allowedIPs)];
  }

  // ---------------------------------------------------------------- states

  lemma {:induction false} ReachableStates(s: Settings, ops: seq<Operation>)
    ensures var db := Run(s, EMPTY, ops);
            db.agents.Keys == db.peers.Keys && StatesAgree(db) && KeysDistinct(db) && AddressesDistinct(db) && TokensSingleUse(db)
  {
    ReachableInv(s, ops);
  }

  /** Agent a is revoked, with nothing left to authenticate with and no address. */
  ghost predicate Gone(db: Database, a: AgentId) {
    && a in db.agents && db.agents[a].status == AgentRevoked && db.agents[a].authHash == ""
    && a in db.peers && db.peers[a].status == PeerRevoked && db.peers[a].address.None?
  }

  lemma {:induction false} GoneStays(s: Settings, db: Database, op: Operation, a: AgentId)
    requires Inv(db) && Gone(db, a)
    ensures Gone(Next(s, db, op), a)
  {
    StepKeepsInv(s, db, op);
    RevokedStays(s, db, op, a);
  }

  lemma RevokedStays(s: Settings, db: Database, op: Operation, a: AgentId)
    requires Gone(db, a)
    ensures var db' := Next(s, db, op); a in db'.agents && db'.agents[a].status == AgentRevoked
  {
    if PolicyOperation(op) {
      PolicyLeavesStates(s, db, op, a);
    } else if op.Enroll? && Apply(s, db, op).Ok? {
      EnrolledAgents(s, db, op.request);
    }
  }

  /** Revocation is permanent, and a revoked agent's check-ins are refused whatever token it presents. */
  lemma {:induction false} RevocationIsFinal(s: Settings, db: Database, ops: seq<Operation>, a: AgentId)
    requires Inv(db) && a in db.agents && db.agents[a].status == AgentRevoked
    ensures Gone(Run(s, db, ops), a)
    ensures forall tokenHash, key :: Apply(s, Run(s, db, ops), CheckIn(a, tokenHash, key)) == Err(Invalid)
  {
    if ops != [] {
      var before := ops[..|ops| - 1];
      RevocationIsFinal(s, db, before, a);
      RunKeepsInv(s, db, before);
      GoneStays(s, Run(s, db, before), ops[|ops| - 1], a);
    }
  }

  /** Nor does a revoked agent come back to the runtime. */
  lemma {:induction false} RevokedStaysOut(s: Settings, db: Database, ops: seq<Operation>, a: AgentId)
    requires Inv(db) && a in db.agents && db.agents[a].status == AgentRevoked && a !in db.runtime
    ensures a !in Run(s, db, ops).runtime
  {
    if ops != [] {
      var before := ops[..|ops| - 1];
      RevokedStaysOut(s, db, before, a);
      RevocationIsFinal(s, db, before, a);
      RuntimeGrowsByReconcile(s, Run(s, db, before), ops[|ops| - 1], a);
    }
  }

  lemma RuntimeGrowsByReconcile(s: Settings, db: Database, op: Operation, a: AgentId)
    requires a !in db.runtime && (op == Reconcile(a) ==> Apply(s, db, op).Err?)
    ensures a !in Next(s, db, op).runtime
  {
  }

  // ---------------------------------------------------------------- tokens

  ghost predicate Spent(db: Database, t: TokenId) {
    t in db.tokens && (db.tokens[t].used || db.tokens[t].revoked)
  }

  lemma SpentStays(s: Settings, db: Database, op: Operation, t: TokenId)
    requires Spent(db, t)
    ensures Spent(Next(s, db, op), t)
  {
    if PolicyOperation(op) {
      PolicyLeavesTokens(s, db, op);
    }
  }

  lemma PolicyLeavesTokens(s: Settings, db: Database, op: Operation)
    requires PolicyOperation(op)
    ensures Next(s, db, op).tokens == db.tokens
  {
  }

  lemma {:induction false} SpentForEver(s: Settings, db: Database, ops: seq<Operation>, t: TokenId)
    requires Spent(db, t)
    ensures Spent(Run(s, db, ops), t)
  {
    if ops != [] {
      SpentForEver(s, db, ops[..|ops| - 1], t);
      SpentStays(s, Run(s, db, ops[..|ops| - 1]), ops[|ops| - 1], t);
    }
  }

  /** Once an enrollment succeeds, no later one with its token does, whatever happens in between. */
  lemma TokenEnrollsOnce(s: Settings, db: Database, first: Enrollment, ops: seq<Operation>, second: Enrollment)
    requires Apply(s, db, Enroll(first)).Ok? && second.token == first.token
    ensures Apply(s, Run(s, Next(s, db, Enroll(first)), ops), Enroll(second)).Err?
  {
    assert Spent(Next(s, db, Enroll(first)), first.token);
    SpentForEver(s, Next(s, db, Enroll(first)), ops, first.token);
  }

  /** A token once revoked never enrolls. */
  lemma RevokedTokenNeverEnrolls(s: Settings, db: Database, t: TokenId, now: int, ops: seq<Operation>, e: Enrollment)
    requires Apply(s, db, RevokeToken(t, now)).Ok? && e.token == t
    ensures Apply(s, Run(s, Next(s, db, RevokeToken(t, now)), ops), Enroll(e)).Err?
  {
    assert Spent(Next(s, db, RevokeToken(t, now)), t);
    SpentForEver(s, Next(s, db, RevokeToken(t, now)), ops, t);
  }

  // ---------------------------------------------------------------- disabled agents

  ghost predicate Shut(db: Database, a: AgentId) {
    && a in db.agents && db.agents[a].status == AgentDisabled
    && a in db.peers && db.peers[a].status == PeerDisabled
  }

  lemma DisableShuts(s: Settings, db: Database, a: AgentId, removes: bool)
    requires Apply(s, db, Disable(a, removes)).Ok?
    ensures var db' := Next(s, db, Disable(a, removes));
            Shut(db', a) && (a in db'.runtime <==> a in db.runtime && !removes)
  {
  }

  /** Enabling undoes disabling, but for the peer, which is planned anew, and its place in the runtime. */
  lemma EnableUndoesDisable(s: Settings, db: Database, a: AgentId, removes: bool)
    requires Apply(s, db, Disable(a, removes)).Ok?
    ensures Apply(s, Next(s, db, Disable(a, removes)), Enable(a)) ==
            Ok(db.(peers := db.peers[a := db.peers[a].(status := Planned)], runtime := RuntimeAfter(db, a, removes)))
  {
    var db1 := Next(s, db, Disable(a, removes));
    assert db1 == SetStates(db, a, AgentDisabled, PeerDisabled).(runtime := RuntimeAfter(db, a, removes));
    assert db1.agents[a := db1.agents[a].(status := AgentStatus.Enrolled)] == db.agents;
    assert db1.peers[a := db1.peers[a].(status := Planned)] == db.peers[a := db.peers[a].(status := Planned)];
  }

  /** The operations that end an agent's or its peer's disabled state. */
  predicate Reopens(op: Operation, a: AgentId) {
    op == Enable(a) || op == Rotate(a) || (op.Revoke? && op.agent == a)
  }

  lemma DisabledStays(s: Settings, db: Database, op: Operation, a: AgentId)
    requires Shut(db, a) && !Reopens(op, a)
    ensures Shut(Next(s, db, op), a)
  {
    if PolicyOperation(op) {
      PolicyLeavesStates(s, db, op, a);
    } else if op.Enroll? {
      EnrollLeavesStates(s, db, op.request, a);
    }
  }

  lemma EnrollLeavesStates(s: Settings, db: Database, e: Enrollment, a: AgentId)
    requires a in db.agents && a in db.peers
    ensures var db' := Next(s, db, Enroll(e));
            && a in db'.agents && db'.agents[a] == db.agents[a] && a in db'.peers && db'.peers[a] == db.peers[a]
  {
  }

  /** Changes to policies, assignments and overrides leave a peer that is out of service out of service. */
  lemma PolicyLeavesStates(s: Settings, db: Database, op: Operation, a: AgentId)
    requires PolicyOperation(op)
    requires a in db.agents && a in db.peers
    ensures var db' := Next(s, db, op);
            && a in db'.agents && db'.agents[a].status == db.agents[a].status
            && a in db'.peers && (db.peers[a].status == PeerDisabled ==> db'.peers[a].status == PeerDisabled)
  {
  }

  lemma RotateReopens(s: Settings, db: Database, a: AgentId)
    requires Shut(db, a)
    ensures Next(s, db, Rotate(a)) == db.(peers := db.peers[a := db.peers[a].(status := RotationPending)])
  {
  }

  /** Only marking a disabled agent for rotation takes its peer out of the disabled state. */
  lemma {:induction false} DisabledPeerLeavesIff(s: Settings, db: Database, op: Operation, a: AgentId)
    requires Shut(db, a)
    ensures var db' := Next(s, db, op);
            a in db'.agents && a in db'.peers
            && ((db'.agents[a].status == AgentDisabled && db'.peers[a].status != PeerDisabled) <==> op == Rotate(a))
  {
    if op == Rotate(a) {
      RotateReopens(s, db, a);
    } else if Reopens(op, a) {
    } else {
      DisabledStays(s, db, op, a);
    }
  }

  lemma {:induction false} DisabledUnlessRotated(s: Settings, db: Database, ops: seq<Operation>, a: AgentId)
    requires Shut(db, a) && forall op :: op in ops ==> !Reopens(op, a)
    ensures Shut(Run(s, db, ops), a)
    ensures a !in db.runtime ==> a !in Run(s, db, ops).runtime
    ensures Apply(s, Run(s, db, ops), Reconcile(a)).Err?
  {
    if ops != [] {
      var before := Run(s, db, ops[..|ops| - 1]);
      DisabledUnlessRotated(s, db, ops[..|ops| - 1], a);
      DisabledStays(s, before, ops[|ops| - 1], a);
      if a !in db.runtime {
        RuntimeGrowsByReconcile(s, before, ops[|ops| - 1], a);
      }
    }
  }

  /** Rotating and reconciling a disabled agent puts its peer into service: in every store that has one. */
  lemma DisabledAgentIsForwarded(s: Settings, db: Database, a: AgentId)
    requires Shut(db, a)
    ensures var db' := Next(s, Next(s, db, Rotate(a)), Reconcile(a));
            && db'.agents[a].status == AgentDisabled && db'.peers[a].status == Active
            && a in db'.runtime && db'.runtime[a] == RuntimePeer(db.peers[a].publicKey, db.peers[a].allowedIPs)
  {
    RotateReopens(s, db, a);
  }

  // ---------------------------------------------------------------- hostnames

  ghost predicate Live(db: Database, a: AgentId) {
    a in db.agents && db.agents[a].status != AgentRevoked
  }

  ghost predicate LiveHostnamesDistinct(db: Database) {
    forall a, b :: Live(db, a) && Live(db, b) && db.agents[a].hostname == db.agents[b].hostname ==> a == b
  }

  ghost predicate HasLive(db: Database, hostname: string) {
    exists a :: Live(db, a) && db.agents[a].hostname == hostname
  }

  ghost predicate HasRevoked(db: Database, hostname: string) {
    exists a :: a in db.agents && !Live(db, a) && db.agents[a].hostname == hostname
  }

  /** Which hostnames may get past the check: those whose lookup may return nothing or a revoked agent. */
  lemma LookupMayPassIff(db: Database, hostname: string)
    ensures (exists found :: LookupReturns(db, hostname, found) && (found.Some? ==> !Live(db, found.value)))
            <==> (!HasLive(db, hostname) || HasRevoked(db, hostname))
  {
    if HasRevoked(db, hostname) {
      var a :| a in db.agents && !Live(db, a) && db.agents[a].hostname == hostname;
      assert LookupReturns(db, hostname, Some(a));
    } else if !HasLive(db, hostname) {
      forall a | a in db.agents
        ensures db.agents[a].hostname != hostname
      {
        assert Live(db, a) || !Live(db, a);
      }
      assert LookupReturns(db, hostname, None);
    } else {
      var a :| Live(db, a) && db.agents[a].hostname == hostname;
      assert !LookupReturns(db, hostname, None);
    }
  }

  lemma EnrolledAgents(s: Settings, db: Database, e: Enrollment)
    requires Apply(s, db, Enroll(e)).Ok?
    ensures e.newAgent !in db.agents
    ensures Next(s, db, Enroll(e)).agents == db.agents[e.newAgent := Agent(e.hostname, Enrolled, e.authHash, None, e.token)]
  {
  }

  /** An enrollment keeps live hostnames distinct exactly when no live agent had the hostname. */
  lemma EnrollKeepsHostnamesIff(s: Settings, db: Database, e: Enrollment)
    requires LiveHostnamesDistinct(db) && Apply(s, db, Enroll(e)).Ok?
    ensures LiveHostnamesDistinct(Next(s, db, Enroll(e))) <==> !HasLive(db, e.hostname)
  {
    EnrolledAgents(s, db, e);
    var db' := Next(s, db, Enroll(e));
    if HasLive(db, e.hostname) {
      var a :| Live(db, a) && db.agents[a].hostname == e.hostname;
      assert Live(db', a) && Live(db', e.newAgent);
    } else {
      forall a, b | Live(db', a) && Live(db', b) && db'.agents[a].hostname == db'.agents[b].hostname
        ensures a == b
      {
        if a != e.newAgent {
          assert Live(db, a);
        }
        if b != e.newAgent {
          assert Live(db, b);
        }
      }
    }
  }

  lemma FoundIrrelevant(s: Settings, db: Database, e: Enrollment, found: Option<AgentId>)
    requires Apply(s, db, Enroll(e.(found := None))).Ok?
    ensures Apply(s, db, Enroll(e.(found := found))).Ok? <==> (found.Some? ==> !Live(db, found.value))
  {
  }

  /** The attempt succeeds on this lookup result and leaves two live agents with one hostname. */
  ghost predicate Duplicates(s: Settings, db: Database, e: Enrollment, found: Option<AgentId>) {
    && LookupReturns(db, e.hostname, found)
    && Apply(s, db, Enroll(e.(found := found))).Ok?
    && !LiveHostnamesDistinct(Next(s, db, Enroll(e.(found := found))))
  }

  /**
   An enrollment that everything but the hostname check admits may duplicate a live hostname
   exactly when both a live and a revoked agent have it.
   */
  lemma MayDuplicateIff(s: Settings, db: Database, e: Enrollment)
    requires LiveHostnamesDistinct(db) && Apply(s, db, Enroll(e.(found := None))).Ok?
    ensures (exists found :: Duplicates(s, db, e, found)) <==> HasLive(db, e.hostname) && HasRevoked(db, e.hostname)
  {
    if HasLive(db, e.hostname) && HasRevoked(db, e.hostname) {
      var a :| a in db.agents && !Live(db, a) && db.agents[a].hostname == e.hostname;
      FoundIrrelevant(s, db, e, Some(a));
      EnrollKeepsHostnamesIff(s, db, e.(found := Some(a)));
      assert Duplicates(s, db, e, Some(a));
    }
    forall found | Duplicates(s, db, e, found)
      ensures HasLive(db, e.hostname) && HasRevoked(db, e.hostname)
    {
      FoundIrrelevant(s, db, e, found);
      EnrollKeepsHostnamesIff(s, db, e.(found := found));
      assert HasLive(db, e.hostname);
      LookupMayPassIff(db, e.hostname);
    }
  }

  /** So a hostname no revoked agent bears is never enrolled twice. */
  lemma FreshHostnameStaysUnique(s: Settings, db: Database, e: Enrollment)
    requires LiveHostnamesDistinct(db) && LookupReturns(db, e.hostname, e.found) && !HasRevoked(db, e.hostname)
    ensures LiveHostnamesDistinct(Next(s, db, Enroll(e)))
  {
    if Apply(s, db, Enroll(e)).Ok? {
      EnrollKeepsHostnamesIff(s, db, e);
    }
  }

  // ---------------------------------------------------------------- what a token grants

  lemma EnrolledAssignments(s: Settings, db: Database, e: Enrollment)
    requires Referential(db) && Apply(s, db, Enroll(e)).Ok?
    ensures e.token in db.tokens && Next(s, db, Enroll(e)).policies == db.policies
    ensures Assigned(Next(s, db, Enroll(e)), e.newAgent) == db.tokens[e.token].policyIds
  {
    var db' := Next(s, db, Enroll(e));
    assert forall p :: (e.newAgent, p) !in db.assignments;
    assert db'.assignments == db.assignments + (set p | p in db.tokens[e.token].policyIds :: (e.newAgent, p));
    forall p
      ensures p in Assigned(db', e.newAgent) <==> p in db.tokens[e.token].policyIds
    {
      AssignedMembers(db', e.newAgent, p);
    }
  }

  /** A new agent may reach exactly what its token's policies give, and is who the token is bound to. */
  lemma EnrollmentGrants(s: Settings, db: Database, e: Enrollment)
    requires Inv(db) && Apply(s, db, Enroll(e)).Ok?
    ensures e.token in db.tokens
    ensures db.tokens[e.token].boundIdentity.Some? ==> e.hostname == db.tokens[e.token].boundIdentity.value
    ensures var db' := Next(s, db, Enroll(e));
            && e.newAgent in db'.peers
            && Assigned(db', e.newAgent) == db.tokens[e.token].policyIds
            && db'.peers[e.newAgent].allowedIPs == Rendering(None, db.policies, db.tokens[e.token].policyIds)
  {
    StepKeepsInv(s, db, Enroll(e));
    EnrolledAgents(s, db, e);
    EnrolledAssignments(s, db, e);
  }

  /** Reissuing a revoked agent: the agent enrolled with the new token gets the old one's name and policies. */
  lemma ReissueRestoresPolicies(s: Settings, db: Database, a: AgentId, expiresAt: int, e: Enrollment)
    requires Inv(db) && a in db.agents && db.agents[a].status == AgentRevoked && e.token !in db.tokens
    requires Apply(s, Next(s, db, Reissue(a, e.token, expiresAt)), Enroll(e)).Ok?
    ensures e.hostname == db.agents[a].hostname
    ensures var db' := Next(s, Next(s, db, Reissue(a, e.token, expiresAt)), Enroll(e));
            && e.newAgent in db'.peers
            && Assigned(db', e.newAgent) == Assigned(db, a)
            && db'.peers[e.newAgent].allowedIPs == Rendering(None, db.policies, Assigned(db, a))
  {
    ReissueIssues(s, db, a, e.token, expiresAt);
    StepKeepsInv(s, db, Reissue(a, e.token, expiresAt));
    EnrollmentGrants(s, Next(s, db, Reissue(a, e.token, expiresAt)), e);
  }

  lemma ReissueIssues(s: Settings, db: Database, a: AgentId, id: TokenId, expiresAt: int)
    requires Referential(db) && a in db.agents && db.agents[a].status == AgentRevoked && id !in db.tokens
    ensures Next(s, db, Reissue(a, id, expiresAt)) ==
            db.(tokens := db.tokens[id := Token(Some(db.agents[a].hostname), Assigned(db, a), expiresAt, false, false)])
  {
    forall p | p in Assigned(db, a)
      ensures p in db.policies
    {
      AssignedMembers(db, a, p);
    }
  }
}
