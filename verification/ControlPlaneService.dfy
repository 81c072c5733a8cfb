/**
 The services that keep the control plane's tables, each method proved to do to the tables what
 its operation says.
 */
module ControlPlaneService {
  import opened Prelude
  import opened Sorting
  import opened Text
  import opened CheckInRules
  import opened ControlPlane
  import opened ControlPlaneSafety
  import opened PolicyService
  import AddressAllocator

  /** Generated ids hold no space. */
  predicate CleanId(id: string) {
    id != "" && TrimSpace(id) == id
  }

  function Elements<T>(s: seq<T>): set<T> {
    set x | x in s
  }

  lemma RefreshMore(db: Database, done: set<AgentId>, a: AgentId)
    ensures RefreshAll(RefreshAll(db, done), {a}) == RefreshAll(db, done + {a})
  {
    var once := RefreshAll(db, done);
    RefreshKeepsRenderings(db, done);
    var twice, all := RefreshAll(once, {a}), RefreshAll(db, done + {a});
    forall b | b in db.peers
      ensures twice.peers[b] == all.peers[b]
    {
    }
    assert twice.peers == all.peers;
  }

  lemma CleanSetOfIds(ids: seq<string>)
    requires forall i :: 0 <= i < |ids| ==> CleanId(ids[i])
    ensures CleanSet(ids) == Elements(ids)
  {
    forall x
      ensures x in CleanSet(ids) <==> x in Elements(ids)
    {
      if x in Elements(ids) {
        var i :| 0 <= i < |ids| && ids[i] == x;
        assert CleanId(ids[i]);
      }
    }
  }

  lemma AssignedAgentsExist(db: Database, id: PolicyId)
    requires Referential(db)
    ensures AgentsWith(db, id) <= db.agents.Keys
  {
  }

  lemma RefreshIgnoresTokens(db: Database, agents: set<AgentId>, tokens: map<TokenId, Token>)
    ensures RefreshAll(db.(tokens := tokens), agents) == RefreshAll(db, agents).(tokens := tokens)
  {
    var with := db.(tokens := tokens);
    assert forall a :: Assigned(with, a) == Assigned(db, a);
    assert forall a :: a in db.agents ==> Rendered(with, a) == Rendered(db, a);
    assert RefreshAll(with, agents).peers == RefreshAll(db, agents).peers;
  }

  datatype StateAction = DisableAgent | EnableAgent | RevokeAgent

  function OperationOf(a: AgentId, action: StateAction): Operation {
    match action
    case DisableAgent => Disable(a, false)
    case EnableAgent => Enable(a)
    case RevokeAgent => Revoke(a, false)
  }

  /** What a state change request with this action text asks for, if it is one the service knows. */
  function PatchOperation(a: AgentId, raw: string): Option<Operation> {
    if TrimSpace(raw) == "disable" then Some(Disable(a, raw == "disable"))
    else if TrimSpace(raw) == "enable" then Some(Enable(a))
    else if TrimSpace(raw) == "revoke" then Some(Revoke(a, raw == "revoke"))
    else None
  }

  /** Removing the runtime peer after the state change is the operation that removes it. */
  lemma RemovalAfter(s: Settings, db: Database, a: AgentId)
    ensures var r := Apply(s, db, Disable(a, false));
            Apply(s, db, Disable(a, true)) == if r.Ok? then Ok(r.value.(runtime := r.value.runtime - {a})) else r
    ensures var r := Apply(s, db, Revoke(a, false));
            Apply(s, db, Revoke(a, true)) == if r.Ok? then Ok(r.value.(runtime := r.value.runtime - {a})) else r
  {
  }

  lemma WordsAreTrimmed()
    ensures TrimSpace("disable") == "disable" && TrimSpace("revoke") == "revoke"
  {
  }

  function RowOf(p: Peer): AddressAllocator.PeerRow {
    AddressAllocator.PeerRow(p.address, p.status == PeerRevoked)
  }

  lemma RowsHoldAddresses(db: Database, list: seq<AgentId>, rows: seq<AddressAllocator.PeerRow>)
    requires |rows| == |list| && forall a :: a in list <==> a in db.peers
    requires forall j :: 0 <= j < |list| ==> rows[j] == RowOf(db.peers[list[j]])
    ensures AddressAllocator.LiveAddresses(rows) == AddressesInUse(db)
  {
    forall x
      ensures x in AddressAllocator.LiveAddresses(rows) <==> x in AddressesInUse(db)
    {
      AddressAllocator.LiveAddressesMembers(rows, x);
      if x in AddressesInUse(db) {
        var a :| a in db.peers && db.peers[a].status != PeerRevoked && db.peers[a].address == Some(x);
        var j :| 0 <= j < |list| && list[j] == a;
        assert AddressAllocator.Holds(rows[j], x);
      }
    }
  }

  class Service {
    const settings: Settings
    var agents: map<AgentId, Agent>
    var peers: map<AgentId, Peer>
    var policies: map<PolicyId, Policy>
    var assignments: set<(AgentId, PolicyId)>
    var tokens: map<TokenId, Token>
    var runtime: map<AgentId, RuntimePeer>

    constructor (s: Settings)
      ensures settings == s && View() == EMPTY && Valid()
    {
      settings := s;
      agents, peers, policies, assignments, tokens, runtime := map[], map[], map[], {}, map[], map[];
    }

    ghost function View(): Database
      reads this
    {
      Database(agents, peers, policies, assignments, tokens, runtime)
    }

    ghost predicate Valid()
      reads this
    {
      Inv(View()) && forall p :: p in policies ==> CleanId(p)
    }

    // -------------------------------------------------------------- policies

    method RefreshPeerIntentForAgent(a: AgentId)
      requires a in agents
      modifies `peers
      ensures View() == RefreshAll(old(View()), {a})
    {
      if a in peers {
        var ids := set x | x in assignments && x.0 == a :: x.1;
        assert ids == Assigned(View(), a);
        var allowedIPs := Render(agents[a].trafficOverride, policies, ids);
        var status := peers[a].status;
        if status == Active || status == RotationPending {
          status := Planned;
        }
        peers := peers[a := peers[a].(allowedIPs := allowedIPs, status := status)];
      }
      assert View().peers == RefreshAll(old(View()), {a}).peers;
    }

    method CreatePolicy(id: PolicyId, raw: seq<string>, mode: TrafficMode) returns (error: Option<Error>)
      requires Valid() && CleanId(id)
      modifies `policies
      ensures Valid()
      ensures View() == Next(settings, old(View()), Operation.CreatePolicy(id, raw, mode))
      ensures error == Failure(Apply(settings, old(View()), Operation.CreatePolicy(id, raw, mode)))
    {
      StepKeepsInv(settings, View(), Operation.CreatePolicy(id, raw, mode));
      var destinations := NormalizeDestinations(settings, raw);
      if destinations.None? {
        return Some(Invalid);
      }
      if id in policies {
        return Some(Conflict);
      }
      policies := policies[id := Policy(destinations.value, mode)];
      error := None;
    }

    method UpdatePolicy(id: PolicyId, raw: seq<string>, mode: TrafficMode) returns (error: Option<Error>)
      requires Valid()
      modifies `policies, `peers
      ensures Valid()
      ensures View() == Next(settings, old(View()), Operation.UpdatePolicy(id, raw, mode))
      ensures error == Failure(Apply(settings, old(View()), Operation.UpdatePolicy(id, raw, mode)))
    {
      StepKeepsInv(settings, View(), Operation.UpdatePolicy(id, raw, mode));
      if id !in policies {
        return Some(NotFound);
      }
      var destinations := NormalizeDestinations(settings, raw);
      if destinations.None? {
        return Some(Invalid);
      }
      policies := policies[id := Policy(destinations.value, mode)];
      ghost var changed := View();
      var list := Rows(set x | x in assignments && x.1 == id :: x.0);
      assert Elements(list) == AgentsWith(changed, id);
      AssignedAgentsExist(old(View()), id);
      RefreshList(list);
      error := None;
    }

    /** Refreshes one agent after another. */
    method RefreshList(list: seq<AgentId>)
      requires forall i :: 0 <= i < |list| ==> list[i] in agents
      modifies `peers
      ensures View() == RefreshAll(old(View()), Elements(list))
    {
      assert View().peers == RefreshAll(View(), {}).peers;
      for i := 0 to |list|
        invariant View() == RefreshAll(old(View()), Elements(list[..i]))
      {
        RefreshPeerIntentForAgent(list[i]);
        RefreshMore(old(View()), Elements(list[..i]), list[i]);
        assert Elements(list[..i + 1]) == Elements(list[..i]) + {list[i]};
      }
      assert list[..|list|] == list;
    }

    /** How many of the ids the policy table has rows for. */
    method CountRows(ids: seq<PolicyId>) returns (found: nat)
      ensures found == |ids| <==> forall j :: 0 <= j < |ids| ==> ids[j] in policies
    {
      found := 0;
      ghost var missing := 0;
      for i := 0 to |ids|
        invariant found <= i
        invariant found == i ==> forall j :: 0 <= j < i ==> ids[j] in policies
        invariant found < i ==> missing < i && ids[missing] !in policies
      {
        if ids[i] in policies {
          found := found + 1;
        } else {
          missing := i;
        }
      }
    }

    method ValidatePolicyIDs(raw: seq<PolicyId>) returns (ok: bool)
      ensures ok <==> CleanSet(raw) <= policies.Keys
    {
      var normalized := UniqueSorted(raw);
      var found := CountRows(normalized);
      ok := found == |normalized|;
      assert forall x :: x in normalized <==> x in CleanSet(raw);
    }

    method AssignPolicy(a: AgentId, p: PolicyId) returns (error: Option<Error>)
      requires Valid()
      modifies `assignments, `peers
      ensures Valid()
      ensures View() == Next(settings, old(View()), Operation.AssignPolicy(a, p))
      ensures error == Failure(Apply(settings, old(View()), Operation.AssignPolicy(a, p)))
    {
      StepKeepsInv(settings, View(), Operation.AssignPolicy(a, p));
      var known := ValidatePolicyIDs([p]);
      if !known || a !in agents {
        return Some(NotFound);
      }
      if (a, p) in assignments || p !in policies {
        return Some(Conflict);
      }
      assignments := assignments + {(a, p)};
      RefreshPeerIntentForAgent(a);
      error := None;
    }

    method UnassignPolicy(a: AgentId, p: PolicyId) returns (error: Option<Error>)
      requires Valid()
      modifies `assignments, `peers
      ensures Valid()
      ensures View() == Next(settings, old(View()), Operation.UnassignPolicy(a, p))
      ensures error == Failure(Apply(settings, old(View()), Operation.UnassignPolicy(a, p)))
    {
      StepKeepsInv(settings, View(), Operation.UnassignPolicy(a, p));
      var known := ValidatePolicyIDs([p]);
      if !known || a !in agents {
        return Some(NotFound);
      }
      if (a, p) !in assignments {
        return Some(NotFound);
      }
      assignments := assignments - {(a, p)};
      RefreshPeerIntentForAgent(a);
      error := None;
    }

    /** The inserting loop of AssignPoliciesToAgent. */
    method InsertAssignments(a: AgentId, ids: seq<PolicyId>)
      modifies `assignments
      ensures assignments == old(assignments) + (set p | p in Elements(ids) :: (a, p))
    {
      for i := 0 to |ids|
        invariant assignments == old(assignments) + (set p | p in Elements(ids[..i]) :: (a, p))
      {
        assert Elements(ids[..i + 1]) == Elements(ids[..i]) + {ids[i]};
        if (a, ids[i]) !in assignments {
          assignments := assignments + {(a, ids[i])};
        }
      }
      assert ids[..|ids|] == ids;
    }

    /** AssignPoliciesToAgent without the reasoning about the whole store. */
    method AssignAll(a: AgentId, raw: seq<PolicyId>) returns (error: Option<Error>)
      modifies `assignments, `peers
      ensures View() == Next(settings, old(View()), AssignPolicies(a, raw))
      ensures error == Failure(Apply(settings, old(View()), AssignPolicies(a, raw)))
    {
      if raw == [] {
        return None;
      }
      var known := ValidatePolicyIDs(raw);
      if !known {
        return Some(Invalid);
      }
      if a !in agents {
        return Some(NotFound);
      }
      var ids := UniqueSorted(raw);
      assert Elements(ids) == CleanSet(raw);
      InsertAssignments(a, ids);
      RefreshPeerIntentForAgent(a);
      error := None;
    }

    method AssignPoliciesToAgent(a: AgentId, raw: seq<PolicyId>) returns (error: Option<Error>)
      requires Valid()
      modifies `assignments, `peers
      ensures Valid()
      ensures View() == Next(settings, old(View()), AssignPolicies(a, raw))
      ensures error == Failure(Apply(settings, old(View()), AssignPolicies(a, raw)))
    {
      StepKeepsInv(settings, View(), AssignPolicies(a, raw));
      error := AssignAll(a, raw);
    }

    method SetAgentTrafficModeOverride(a: AgentId, mode: Option<TrafficMode>) returns (error: Option<Error>)
      requires Valid()
      modifies `agents, `peers
      ensures Valid()
      ensures View() == Next(settings, old(View()), SetOverride(a, mode))
      ensures error == Failure(Apply(settings, old(View()), SetOverride(a, mode)))
    {
      StepKeepsInv(settings, View(), SetOverride(a, mode));
      if a !in agents {
        return Some(NotFound);
      }
      agents := agents[a := agents[a].(trafficOverride := mode)];
      RefreshPeerIntentForAgent(a);
      error := None;
    }

    method SimulatePolicyIntent(agent: Option<AgentId>, raw: seq<PolicyId>, trafficOverride: Option<Option<TrafficMode>>)
      returns (r: Result<seq<string>, Error>)
      ensures r == Simulated(View(), agent, CleanSet(raw), trafficOverride)
    {
      var requested := UniqueSorted(raw);
      assert Elements(requested) == CleanSet(raw);
      assert requested == [] <==> CleanSet(raw) == {} by {
        assert requested != [] ==> requested[0] in CleanSet(raw);
      }
      if agent.None? && requested == [] {
        return Err(Invalid);
      }
      var mode: Option<TrafficMode> := None;
      if agent.Some? {
        if agent.value !in agents {
          return Err(NotFound);
        }
        mode := agents[agent.value].trafficOverride;
      }
      if trafficOverride.Some? {
        mode := trafficOverride.value;
      }
      var ids := set x | x in requested;
      if requested == [] && agent.Some? {
        ids := set x | x in assignments && x.0 == agent.value :: x.1;
        assert ids == Assigned(View(), agent.value);
      }
      if !(ids <= policies.Keys) {
        return Err(NotFound);
      }
      var allowedIPs := Render(mode, policies, ids);
      r := Ok(allowedIPs);
    }

    // -------------------------------------------------------------- enrollment

    method FindByHostname(hostname: string) returns (found: Option<AgentId>)
      ensures LookupReturns(View(), hostname, found)
    {
      var list := Rows(agents.Keys);
      for i := 0 to |list|
        invariant forall j :: 0 <= j < i ==> list[j] in agents && agents[list[j]].hostname != hostname
      {
        assert list[i] in agents.Keys;
        if agents[list[i]].hostname == hostname {
          return Some(list[i]);
        }
      }
      found := None;
    }

    method FindByPublicKey(key: PublicKey) returns (found: Option<AgentId>)
      ensures found.Some? ==> found.value in peers && peers[found.value].publicKey == key
      ensures found.None? ==> forall a :: a in peers ==> peers[a].publicKey != key
    {
      var list := Rows(peers.Keys);
      for i := 0 to |list|
        invariant forall j :: 0 <= j < i ==> list[j] in peers && peers[list[j]].publicKey != key
      {
        assert list[i] in peers.Keys;
        if peers[list[i]].publicKey == key {
          return Some(list[i]);
        }
      }
      found := None;
    }

    /** The peer rows as the allocator reads them. */
    method ListPeers() returns (rows: seq<AddressAllocator.PeerRow>)
      ensures AddressAllocator.LiveAddresses(rows) == AddressesInUse(View())
    {
      var list := Rows(peers.Keys);
      rows := [];
      for i := 0 to |list|
        invariant |rows| == i
        invariant forall j :: 0 <= j < i ==> list[j] in peers && rows[j] == RowOf(peers[list[j]])
      {
        assert list[i] in peers.Keys;
        rows := rows + [RowOf(peers[list[i]])];
      }
      RowsHoldAddresses(View(), list, rows);
    }

    method AllocatePeerAddress() returns (r: Result<Option<nat>, Error>)
      ensures r == AllocatedAddress(settings, View())
    {
      if settings.range.None? {
        return Ok(None);
      }
      var range := settings.range.value;
      var rows := ListPeers();
      var used := AddressAllocator.UsedAddresses(rows);
      var free := AddressAllocator.FirstFree(range.base, range.size, used, range.skip);
      AddressAllocator.LeastFreeUnique(range.base, range.size, used, range.skip, free);
      r := if free.Some? then Ok(free) else Err(Exhausted);
    }

    /** Whether an enrollment may insert its rows, and the address it gets. */
    method AdmitEnrollment(e: Enrollment) returns (r: Result<Option<nat>, Error>)
      ensures Failure(AfterEnroll(settings, View(), e)) == if r.Ok? then None else Some(r.error)
      ensures r.Ok? ==> r == AllocatedAddress(settings, View())
    {
      if !WellFormedKey(e.publicKey) {
        return Err(Invalid);
      }
      if e.token !in tokens {
        return Err(NotFound);
      }
      if EffectiveStatus(tokens[e.token], e.now) != Issued {
        return Err(Conflict);
      }
      if tokens[e.token].boundIdentity.Some? && tokens[e.token].boundIdentity.value != e.hostname {
        return Err(Conflict);
      }
      if e.found.Some? && e.found.value in agents && agents[e.found.value].status != AgentRevoked {
        return Err(Conflict);
      }
      var owner := FindByPublicKey(e.publicKey);
      if owner.Some? {
        return Err(Conflict);
      }
      if e.newAgent in agents || e.authHash == "" {
        return Err(Conflict);
      }
      r := AllocatePeerAddress();
    }

    method PerformEnrollment(token: TokenId, hostname: string, publicKey: PublicKey, newAgent: AgentId, authHash: string, now: int)
      returns (error: Option<Error>, found: Option<AgentId>)
      requires Valid()
      modifies `agents, `peers, `assignments, `tokens
      ensures Valid()
      ensures LookupReturns(old(View()), hostname, found)
      ensures View() == Next(settings, old(View()), Enroll(Enrollment(token, hostname, publicKey, newAgent, authHash, now, found)))
      ensures error == Failure(Apply(settings, old(View()), Enroll(Enrollment(token, hostname, publicKey, newAgent, authHash, now, found))))
    {
      found := FindByHostname(hostname);
      var e := Enrollment(token, hostname, publicKey, newAgent, authHash, now, found);
      StepKeepsInv(settings, View(), Enroll(e));
      var address := AdmitEnrollment(e);
      if address.Err? {
        return Some(address.error), found;
      }
      InsertRows(e, address.value);
      error := None;
    }

    /** The inserts of an admitted enrollment. */
    method InsertRows(e: Enrollment, address: Option<nat>)
      requires e.token in tokens && tokens[e.token].policyIds <= policies.Keys
      requires forall p :: p in policies ==> CleanId(p)
      modifies `agents, `peers, `assignments, `tokens
      ensures View() == (if old(View()).tokens[e.token].policyIds == {} then Inserted(old(View()), e, address)
                         else RefreshAll(Inserted(old(View()), e, address), {e.newAgent}))
    {
      agents := agents[e.newAgent := Agent(e.hostname, AgentStatus.Enrolled, e.authHash, None, e.token)];
      peers := peers[e.newAgent := Peer(e.publicKey, address, [], Planned)];
      ghost var used := tokens[e.token := tokens[e.token].(used := true)];
      AssignTokenPolicies(e.newAgent, tokens[e.token].policyIds, used);
      tokens := tokens[e.token := tokens[e.token].(used := true)];
    }

    /** Assigns the policies bound to a token; used is what the tokens are about to be. */
    method AssignTokenPolicies(a: AgentId, bound: set<PolicyId>, ghost used: map<TokenId, Token>)
      requires a in agents && bound <= policies.Keys
      requires forall p :: p in policies ==> CleanId(p)
      modifies `assignments, `peers
      ensures var all := old(View()).(assignments := old(assignments) + (set p | p in bound :: (a, p)), tokens := used);
              View().(tokens := used) == if bound == {} then all else RefreshAll(all, {a})
    {
      ghost var all := View().(assignments := assignments + (set p | p in bound :: (a, p)));
      var ids := Rows(bound);
      assert Elements(ids) == bound;
      CleanSetOfIds(ids);
      if |ids| > 0 {
        assert ids[0] in bound;
        RefreshIgnoresTokens(all, {a}, used);
        var failed := AssignAll(a, ids);
      } else {
        assert bound == {} by {
          assert forall p :: p !in bound;
        }
      }
    }

    // -------------------------------------------------------------- agents

    method CheckInAgent(a: AgentId, tokenHash: string, rotationKey: Option<PublicKey>) returns (error: Option<Error>)
      requires Valid()
      modifies `peers
      ensures Valid()
      ensures View() == Next(settings, old(View()), CheckIn(a, tokenHash, rotationKey))
      ensures error == Failure(Apply(settings, old(View()), CheckIn(a, tokenHash, rotationKey)))
    {
      StepKeepsInv(settings, View(), CheckIn(a, tokenHash, rotationKey));
      if a !in agents {
        return Some(NotFound);
      }
      if agents[a].authHash == "" || tokenHash != agents[a].authHash || agents[a].status == AgentRevoked {
        return Some(Invalid);
      }
      error := None;
      if rotationKey.Some? && a in peers {
        error := CompleteRotationOf(a, rotationKey.value);
      }
    }

    method CompleteRotationOf(a: AgentId, rotationKey: PublicKey) returns (error: Option<Error>)
      requires a in peers
      modifies `peers
      ensures var r := CompleteRotation(old(peers)[a].publicKey, old(peers)[a].status, OtherKeys(old(View()), a), rotationKey);
              && error == (if r.Ok? then None else Some(Conflict))
              && peers == if r.Ok? then old(peers)[a := old(peers)[a].(publicKey := r.value.0, status := r.value.1)] else old(peers)
    {
      if peers[a].status != RotationPending {
        assert peers[a := peers[a]] == peers;
        return None;
      }
      if !WellFormedKey(rotationKey) || rotationKey == peers[a].publicKey {
        return Some(Conflict);
      }
      var owner := FindByPublicKey(rotationKey);
      if owner.Some? && owner.value != a {
        assert peers[owner.value].publicKey in OtherKeys(View(), a);
        return Some(Conflict);
      }
      peers := peers[a := peers[a].(publicKey := rotationKey, status := Planned)];
      error := None;
    }

    method ChangeAgentState(a: AgentId, action: StateAction) returns (error: Option<Error>)
      requires Valid()
      modifies `agents, `peers
      ensures Valid()
      ensures View() == Next(settings, old(View()), OperationOf(a, action))
      ensures error == Failure(Apply(settings, old(View()), OperationOf(a, action)))
    {
      StepKeepsInv(settings, View(), OperationOf(a, action));
      assert a in agents <==> a in peers;
      error := ChangeRows(a, action);
    }

    method ChangeRows(a: AgentId, action: StateAction) returns (error: Option<Error>)
      requires a in agents <==> a in peers
      modifies `agents, `peers
      ensures View() == Next(settings, old(View()), OperationOf(a, action))
      ensures error == Failure(Apply(settings, old(View()), OperationOf(a, action)))
    {
      if a !in agents {
        return Some(NotFound);
      }
      match action
      case DisableAgent => error := DisableIt(a);
      case EnableAgent => error := EnableIt(a);
      case RevokeAgent => error := RevokeIt(a);
    }

    method DisableIt(a: AgentId) returns (error: Option<Error>)
      requires a in agents && a in peers
      modifies `agents, `peers
      ensures View() == Next(settings, old(View()), Disable(a, false))
      ensures error == Failure(Apply(settings, old(View()), Disable(a, false)))
    {
      if agents[a].status == AgentDisabled || agents[a].status == AgentRevoked {
        return Some(Conflict);
      }
      agents := agents[a := agents[a].(status := AgentDisabled)];
      peers := peers[a := peers[a].(status := PeerDisabled)];
      error := None;
    }

    method EnableIt(a: AgentId) returns (error: Option<Error>)
      requires a in agents && a in peers
      modifies `agents, `peers
      ensures View() == Next(settings, old(View()), Enable(a))
      ensures error == Failure(Apply(settings, old(View()), Enable(a)))
    {
      if agents[a].status != AgentDisabled {
        return Some(Conflict);
      }
      agents := agents[a := agents[a].(status := AgentStatus.Enrolled)];
      peers := peers[a := peers[a].(status := Planned)];
      error := None;
    }

    method RevokeIt(a: AgentId) returns (error: Option<Error>)
      requires a in agents && a in peers
      modifies `agents, `peers
      ensures View() == Next(settings, old(View()), Revoke(a, false))
      ensures error == Failure(Apply(settings, old(View()), Revoke(a, false)))
    {
      if agents[a].status == AgentRevoked {
        return Some(Conflict);
      }
      agents := agents[a := agents[a].(status := AgentRevoked)];
      agents := agents[a := agents[a].(authHash := "")];
      peers := peers[a := peers[a].(status := PeerRevoked)];
      if peers[a].address.Some? {
        peers := peers[a := peers[a].(address := None)];
      }
      RevokeRows(settings, old(View()), a, false);
      assert agents == old(agents)[a := old(agents)[a].(status := AgentRevoked, authHash := "")];
      assert peers == old(peers)[a := old(peers)[a].(status := PeerRevoked, address := None)];
      error := None;
    }

    /**
     The API's state change request: the service trims the action, but whether the runtime peer
     is removed is decided on the text as it came.
     */
    method PatchAgentState(a: AgentId, raw: string) returns (error: Option<Error>)
      requires Valid()
      modifies `agents, `peers, `runtime
      ensures Valid()
      ensures var op := PatchOperation(a, raw);
              if op.None? then error == Some(if a in old(agents) then Invalid else NotFound) && View() == old(View())
              else error == Failure(Apply(settings, old(View()), op.value)) && View() == Next(settings, old(View()), op.value)
    {
      var op := PatchOperation(a, raw);
      if op.Some? {
        StepKeepsInv(settings, View(), op.value);
      }
      assert a in agents <==> a in peers;
      error := PatchRows(a, raw);
    }

    method PatchRows(a: AgentId, raw: string) returns (error: Option<Error>)
      requires a in agents <==> a in peers
      modifies `agents, `peers, `runtime
      ensures var op := PatchOperation(a, raw);
              if op.None? then error == Some(if a in old(agents) then Invalid else NotFound) && View() == old(View())
              else error == Failure(Apply(settings, old(View()), op.value)) && View() == Next(settings, old(View()), op.value)
    {
      var action := TrimSpace(raw);
      if action != "disable" && action != "enable" && action != "revoke" {
        return Some(if a in agents then Invalid else NotFound);
      }
      error := ChangeRows(a, if action == "disable" then DisableAgent else if action == "enable" then EnableAgent else RevokeAgent);
      RemovalAfter(settings, old(View()), a);
      WordsAreTrimmed();
      if error.None? && (raw == "disable" || raw == "revoke") {
        runtime := runtime - {a};
      }
    }

    method MarkAgentRotationPending(a: AgentId) returns (error: Option<Error>)
      requires Valid()
      modifies `peers
      ensures Valid()
      ensures View() == Next(settings, old(View()), Rotate(a))
      ensures error == Failure(Apply(settings, old(View()), Rotate(a)))
    {
      StepKeepsInv(settings, View(), Rotate(a));
      error := MarkRow(a);
    }

    method MarkRow(a: AgentId) returns (error: Option<Error>)
      modifies `peers
      ensures View() == Next(settings, old(View()), Rotate(a))
      ensures error == Failure(Apply(settings, old(View()), Rotate(a)))
    {
      if a !in agents {
        return Some(NotFound);
      }
      if agents[a].status == AgentRevoked {
        return Some(Conflict);
      }
      if a !in peers {
        return Some(NotFound);
      }
      peers := peers[a := peers[a].(status := RotationPending)];
      error := None;
    }

    // -------------------------------------------------------------- reconciliation

    method ReconcilePeer(a: AgentId) returns (error: Option<Error>)
      requires Valid()
      modifies `peers, `runtime
      ensures Valid()
      ensures View() == Next(settings, old(View()), Reconcile(a))
      ensures error == Failure(Apply(settings, old(View()), Reconcile(a)))
    {
      StepKeepsInv(settings, View(), Reconcile(a));
      error := ReconcileRow(a);
    }

    method ReconcileRow(a: AgentId) returns (error: Option<Error>)
      modifies `peers, `runtime
      ensures View() == Next(settings, old(View()), Reconcile(a))
      ensures error == Failure(Apply(settings, old(View()), Reconcile(a)))
    {
      if a !in peers {
        return Some(NotFound);
      }
      if peers[a].status == PeerDisabled || peers[a].status == PeerRevoked {
        return Some(Conflict);
      }
      runtime := runtime[a := RuntimePeer(peers[a].publicKey, peers[a].allowedIPs)];
      peers := peers[a := peers[a].(status := Active)];
      error := None;
    }
  }
}
