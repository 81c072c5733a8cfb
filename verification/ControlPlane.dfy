/**
 The control plane's store and its operations: enrollment, agent states, rotation, access
 policies and reconciliation. One service call is one atomic step; an enrollment creates one
 agent and its one peer, so peers are keyed by the agent that owns them.
 */
module ControlPlane {
  import opened Prelude
  import opened Sorting
  import opened Text
  import opened CheckInRules
  import AddressAllocator

  type AgentId = string
  type PolicyId = string
  type TokenId = string

  datatype TrafficMode = Standard | FullTunnel

  /** enrolledWith is history: the token whose enrollment created the agent. */
  datatype Agent = Agent(
    hostname: string, status: AgentStatus, authHash: string, trafficOverride: Option<TrafficMode>, enrolledWith: TokenId)

  datatype Peer = Peer(publicKey: PublicKey, address: Option<nat>, allowedIPs: seq<string>, status: PeerStatus)

  datatype Policy = Policy(destinations: seq<string>, trafficMode: TrafficMode)

  /** boundIdentity is the hostname a model B token is bound to. */
  datatype Token = Token(boundIdentity: Option<string>, policyIds: set<PolicyId>, expiresAt: int, used: bool, revoked: bool)

  /** A peer as the gateway's runtime holds it. */
  datatype RuntimePeer = RuntimePeer(publicKey: PublicKey, allowedIPs: seq<string>)

  datatype Database = Database(
    agents: map<AgentId, Agent>,
    peers: map<AgentId, Peer>,
    policies: map<PolicyId, Policy>,
    assignments: set<(AgentId, PolicyId)>,
    tokens: map<TokenId, Token>,
    runtime: map<AgentId, RuntimePeer>)

  /** The client address range: network address, size, and the address never handed out. */
  datatype Range = Range(base: nat, size: nat, skip: Option<nat>)

  /** canonicalCidr parses a destination and prints its network, as net.ParseCIDR does. */
  datatype Settings = Settings(range: Option<Range>, canonicalCidr: string -> Option<string>)

  datatype Error = NotFound | Conflict | Invalid | Exhausted

  // ---------------------------------------------------------------- sorted sets of strings

  function CleanSet(s: seq<string>): set<string> {
    set i | 0 <= i < |s| && TrimSpace(s[i]) != "" :: TrimSpace(s[i])
  }

  /** The one sorted sequence without repetitions that has these elements. */
  ghost function SortedElements(s: set<string>): (r: seq<string>)
    ensures SortedBy(StringLeq, r) && NoDuplicates(r)
    ensures forall x :: x in r <==> x in s
    decreases |s|
  {
    if s == {} then []
    else
      var x :| x in s;
      var rest := SortedElements(s - {x});
      SortAdds(x, rest);
      SortStrings([x] + rest)
  }

  lemma SortAdds(x: string, rest: seq<string>)
    requires NoDuplicates(rest) && x !in rest
    ensures var r := SortStrings([x] + rest);
            SortedBy(StringLeq, r) && NoDuplicates(r) && forall y :: y in r <==> y == x || y in rest
  {
    SortStringsCorrect([x] + rest);
    NoDuplicatesByMultiset([x] + rest, SortStrings([x] + rest));
    SameElements([x] + rest, SortStrings([x] + rest));
  }

  lemma SortedElementsUnique(r: seq<string>, s: set<string>)
    requires SortedBy(StringLeq, r) && NoDuplicates(r) && forall x :: x in r <==> x in s
    ensures r == SortedElements(s)
  {
    assert AntisymmetricOn(StringLeq, r) by {
      StringLeqOrder();
    }
    SortedSetUnique(StringLeq, r, SortedElements(s));
  }

  /** uniqueSorted. */
  method UniqueSorted(values: seq<string>) returns (out: seq<string>)
    ensures out == SortedElements(CleanSet(values))
  {
    var seen: set<string> := {};
    out := [];
    for i := 0 to |values|
      invariant NoDuplicates(out) && forall x :: x in out <==> x in seen
      invariant seen == CleanSet(values[..i])
    {
      var value := TrimSpace(values[i]);
      CleanSetGrows(values, i);
      if value != "" && value !in seen {
        seen := seen + {value};
        out := out + [value];
      }
    }
    assert values[..|values|] == values;
    ghost var unsorted := out;
    SortStringsCorrect(out);
    out := SortStrings(out);
    NoDuplicatesByMultiset(unsorted, out);
    SameElements(unsorted, out);
    SortedElementsUnique(out, CleanSet(values));
  }

  lemma CleanSetGrows(values: seq<string>, i: nat)
    requires i < |values|
    ensures CleanSet(values[..i + 1]) == CleanSet(values[..i]) + if TrimSpace(values[i]) != "" then {TrimSpace(values[i])} else {}
  {
    var now, before := values[..i + 1], values[..i];
    forall x
      ensures x in CleanSet(now) <==> x in CleanSet(before) || (TrimSpace(values[i]) != "" && x == TrimSpace(values[i]))
    {
      if x in CleanSet(now) {
        var j :| 0 <= j < |now| && TrimSpace(now[j]) != "" && TrimSpace(now[j]) == x;
        if j < i {
          assert before[j] == now[j];
        }
      }
      if x in CleanSet(before) {
        var j :| 0 <= j < |before| && TrimSpace(before[j]) != "" && TrimSpace(before[j]) == x;
        assert now[j] == before[j];
      }
      assert now[i] == values[i];
    }
  }

  // ---------------------------------------------------------------- what a peer may route

  const ALL_TRAFFIC: seq<string> := ["0.0.0.0/0"]

  function Assigned(db: Database, a: AgentId): set<PolicyId> {
    set x | x in db.assignments && x.0 == a :: x.1
  }

  /** The destinations of these policies. */
  function DestinationsOf(policies: map<PolicyId, Policy>, ids: set<PolicyId>): set<string> {
    set p, x | p in ids && p in policies && x in CleanSet(policies[p].destinations) :: x
  }

  predicate AnyFullTunnel(policies: map<PolicyId, Policy>, ids: set<PolicyId>) {
    exists p :: p in ids && p in policies && policies[p].trafficMode == FullTunnel
  }

  function EffectiveMode(trafficOverride: Option<TrafficMode>, policies: map<PolicyId, Policy>, ids: set<PolicyId>): TrafficMode {
    if trafficOverride.Some? then trafficOverride.value
    else if AnyFullTunnel(policies, ids) then FullTunnel
    else Standard
  }

  /** The allowed addresses that a set of policies under an override gives. */
  ghost function Rendering(trafficOverride: Option<TrafficMode>, policies: map<PolicyId, Policy>, ids: set<PolicyId>): seq<string> {
    if EffectiveMode(trafficOverride, policies, ids) == FullTunnel then ALL_TRAFFIC
    else SortedElements(DestinationsOf(policies, ids))
  }

  /** What the agent's peer row ought to hold. */
  ghost function Rendered(db: Database, a: AgentId): seq<string>
    requires a in db.agents
  {
    Rendering(db.agents[a].trafficOverride, db.policies, Assigned(db, a))
  }

  /**
   SimulatePolicyIntent: what the given agent, policies or override would yield. An override
   that is given may be the explicit "inherit", which is no override.
   */
  ghost function Simulated(
    db: Database, agent: Option<AgentId>, requested: set<PolicyId>, trafficOverride: Option<Option<TrafficMode>>)
    : Result<seq<string>, Error>
  {
    if agent.None? && requested == {} then Err(Invalid)
    else if agent.Some? && agent.value !in db.agents then Err(NotFound)
    else
      var mode := if trafficOverride.Some? then trafficOverride.value
                  else if agent.Some? then db.agents[agent.value].trafficOverride
                  else None;
      var ids := if requested == {} && agent.Some? then Assigned(db, agent.value) else requested;
      if ids <= db.policies.Keys then Ok(Rendering(mode, db.policies, ids)) else Err(NotFound)
  }

  // ---------------------------------------------------------------- the operations

  /** removes is whether the caller of a state change goes on to take the peer out of the runtime. */
  datatype Operation =
    | CreatePolicy(id: PolicyId, raw: seq<string>, mode: TrafficMode)
    | UpdatePolicy(id: PolicyId, raw: seq<string>, mode: TrafficMode)
    | AssignPolicy(agent: AgentId, policy: PolicyId)
    | UnassignPolicy(agent: AgentId, policy: PolicyId)
    | AssignPolicies(agent: AgentId, raw: seq<PolicyId>)
    | SetOverride(agent: AgentId, trafficOverride: Option<TrafficMode>)
    | CreateToken(token: TokenId, boundIdentity: Option<string>, policyIds: set<PolicyId>, expiresAt: int)
    | RevokeToken(token: TokenId, now: int)
    | Reissue(agent: AgentId, token: TokenId, expiresAt: int)
    | Enroll(request: Enrollment)
    | Disable(agent: AgentId, removes: bool)
    | Enable(agent: AgentId)
    | Revoke(agent: AgentId, removes: bool)
    | Rotate(agent: AgentId)
    | CheckIn(agent: AgentId, tokenHash: string, rotationKey: Option<PublicKey>)
    | Reconcile(agent: AgentId)

  /** Operations that end by refreshing peer rows and do nothing else to agents' states. */
  predicate PolicyOperation(op: Operation) {
    op.UpdatePolicy? || op.AssignPolicy? || op.UnassignPolicy? || op.AssignPolicies? || op.SetOverride?
  }

  /**
   An enrollment attempt. newAgent and authHash are the generated id and token hash; found is
   the row the database returns for the hostname, any one of those that match.
   */
  datatype Enrollment = Enrollment(
    token: TokenId, hostname: string, publicKey: PublicKey, newAgent: AgentId, authHash: string, now: int,
    found: Option<AgentId>)

  datatype TokenStatus = Issued | Used | TokenRevoked | Expired

  function EffectiveStatus(t: Token, now: int): TokenStatus {
    if t.revoked then TokenRevoked else if t.used then Used else if now > t.expiresAt then Expired else Issued
  }

  /** LIMIT 1 without an order returns some matching row, or none if there is none. */
  ghost predicate LookupReturns(db: Database, hostname: string, found: Option<AgentId>) {
    if found.Some? then found.value in db.agents && db.agents[found.value].hostname == hostname
    else forall a :: a in db.agents ==> db.agents[a].hostname != hostname
  }

  function NormalizedDestinations(s: Settings, raw: seq<string>): Option<set<string>> {
    if exists i :: 0 <= i < |raw| && TrimSpace(raw[i]) != "" && s.canonicalCidr(TrimSpace(raw[i])).None? then None
    else
      var nets := CleanNets(s, raw);
      if nets == {} then None else Some(nets)
  }

  /** The canonical network of a destination, if it parses. */
  function NetOf(s: Settings, raw: string): set<string> {
    var net := s.canonicalCidr(TrimSpace(raw));
    if TrimSpace(raw) != "" && net.Some? && TrimSpace(net.value) != "" then {TrimSpace(net.value)} else {}
  }

  function CleanNets(s: Settings, raw: seq<string>): set<string> {
    set i, x | 0 <= i < |raw| && x in NetOf(s, raw[i]) :: x
  }

  /** The addresses that peers not revoked hold. */
  function AddressesInUse(db: Database): set<nat> {
    set a | a in db.peers && db.peers[a].status != PeerRevoked && db.peers[a].address.Some? :: db.peers[a].address.value
  }

  /** The address for a new peer: none when no range is configured. */
  ghost function AllocatedAddress(s: Settings, db: Database): Result<Option<nat>, Error> {
    if s.range.None? then Ok(None)
    else
      var r := AddressAllocator.TheLeastFree(s.range.value.base, s.range.value.size, AddressesInUse(db), s.range.value.skip);
      if r.Some? then Ok(r) else Err(Exhausted)
  }

  function OtherKeys(db: Database, a: AgentId): set<PublicKey> {
    set b | b in db.peers && b != a :: db.peers[b].publicKey
  }

  /** refreshPeerIntentForAgent's effect on one row. */
  function Refreshed(p: Peer, allowedIPs: seq<string>): Peer {
    p.(allowedIPs := allowedIPs, status := if p.status == Active || p.status == RotationPending then Planned else p.status)
  }

  /** The rows of these agents refreshed, the others as they are. */
  ghost function RefreshAll(db: Database, agents: set<AgentId>): Database
  {
    db.(peers := map a | a in db.peers :: if a in agents && a in db.agents then Refreshed(db.peers[a], Rendered(db, a)) else db.peers[a])
  }

  function AgentsWith(db: Database, p: PolicyId): set<AgentId> {
    set x | x in db.assignments && x.1 == p :: x.0
  }

  ghost function AfterEnroll(s: Settings, db: Database, e: Enrollment): Result<Database, Error> {
    if !WellFormedKey(e.publicKey) then Err(Invalid)
    else if e.token !in db.tokens then Err(NotFound)
    else
      var t := db.tokens[e.token];
      var address := AllocatedAddress(s, db);
      if EffectiveStatus(t, e.now) != Issued then Err(Conflict)
      else if t.boundIdentity.Some? && t.boundIdentity.value != e.hostname then Err(Conflict)
      else if e.found.Some? && e.found.value in db.agents && db.agents[e.found.value].status != AgentRevoked then Err(Conflict)
      else if exists a :: a in db.peers && db.peers[a].publicKey == e.publicKey then Err(Conflict)
      else if e.newAgent in db.agents || e.authHash == "" then Err(Conflict)
      else if address.Err? then Err(address.error)
      else
        var inserted := db.(
          agents := db.agents[e.newAgent := Agent(e.hostname, Enrolled, e.authHash, None, e.token)],
          peers := db.peers[e.newAgent := Peer(e.publicKey, address.value, [], Planned)],
          assignments := db.assignments + (set p | p in t.policyIds :: (e.newAgent, p)),
          tokens := db.tokens[e.token := t.(used := true)]);
        Ok(if t.policyIds == {} then inserted else RefreshAll(inserted, {e.newAgent}))
  }

  ghost function SetStates(db: Database, a: AgentId, agent: AgentStatus, peer: PeerStatus): Database
    requires a in db.agents && a in db.peers
  {
    db.(agents := db.agents[a := db.agents[a].(status := agent)], peers := db.peers[a := db.peers[a].(status := peer)])
  }

  function RuntimeAfter(db: Database, a: AgentId, removes: bool): map<AgentId, RuntimePeer> {
    if removes then db.runtime - {a} else db.runtime
  }

  /** The store after an operation, or the error that leaves it as it was. */
  ghost function Apply(s: Settings, db: Database, op: Operation): Result<Database, Error> {
    match op
    case CreatePolicy(id, raw, mode) =>
      var nets := NormalizedDestinations(s, raw);
      if nets.None? then Err(Invalid)
      else if id in db.policies then Err(Conflict)
      else Ok(db.(policies := db.policies[id := Policy(SortedElements(nets.value), mode)]))
    case UpdatePolicy(id, raw, mode) =>
      var nets := NormalizedDestinations(s, raw);
      if id !in db.policies then Err(NotFound)
      else if nets.None? then Err(Invalid)
      else Ok(RefreshAll(db.(policies := db.policies[id := Policy(SortedElements(nets.value), mode)]), AgentsWith(db, id)))
    case AssignPolicy(a, p) =>
      if !(CleanSet([p]) <= db.policies.Keys) || a !in db.agents then Err(NotFound)
      else if (a, p) in db.assignments || p !in db.policies then Err(Conflict)
      else Ok(RefreshAll(db.(assignments := db.assignments + {(a, p)}), {a}))
    case UnassignPolicy(a, p) =>
      if !(CleanSet([p]) <= db.policies.Keys) || a !in db.agents || (a, p) !in db.assignments then Err(NotFound)
      else Ok(RefreshAll(db.(assignments := db.assignments - {(a, p)}), {a}))
    case AssignPolicies(a, raw) =>
      if raw == [] then Ok(db)
      else if !(CleanSet(raw) <= db.policies.Keys) then Err(Invalid)
      else if a !in db.agents then Err(NotFound)
      else Ok(RefreshAll(db.(assignments := db.assignments + (set p | p in CleanSet(raw) :: (a, p))), {a}))
    case SetOverride(a, mode) =>
      if a !in db.agents then Err(NotFound)
      else Ok(RefreshAll(db.(agents := db.agents[a := db.agents[a].(trafficOverride := mode)]), {a}))
    case CreateToken(id, bound, policyIds, expiresAt) =>
      if !(policyIds <= db.policies.Keys) then Err(Invalid)
      else if id in db.tokens then Err(Conflict)
      else Ok(db.(tokens := db.tokens[id := Token(bound, policyIds, expiresAt, false, false)]))
    case RevokeToken(id, now) =>
      if id !in db.tokens then Err(NotFound)
      else if EffectiveStatus(db.tokens[id], now) != Issued then Err(Conflict)
      else Ok(db.(tokens := db.tokens[id := db.tokens[id].(revoked := true)]))
    case Reissue(a, id, expiresAt) =>
      if a !in db.agents then Err(NotFound)
      else if db.agents[a].status != AgentRevoked || id in db.tokens then Err(Conflict)
      else if !(Assigned(db, a) <= db.policies.Keys) then Err(Invalid)
      else Ok(db.(tokens := db.tokens[id := Token(Some(db.agents[a].hostname), Assigned(db, a), expiresAt, false, false)]))
    case Enroll(e) => AfterEnroll(s, db, e)
    case Disable(a, removes) =>
      if a !in db.agents || a !in db.peers then Err(NotFound)
      else if db.agents[a].status != Enrolled then Err(Conflict)
      else Ok(SetStates(db, a, AgentDisabled, PeerDisabled).(runtime := RuntimeAfter(db, a, removes)))
    case Enable(a) =>
      if a !in db.agents || a !in db.peers then Err(NotFound)
      else if db.agents[a].status != AgentDisabled then Err(Conflict)
      else Ok(SetStates(db, a, Enrolled, Planned))
    case Revoke(a, removes) =>
      if a !in db.agents || a !in db.peers then Err(NotFound)
      else if db.agents[a].status == AgentRevoked then Err(Conflict)
      else
        var db1 := SetStates(db, a, AgentRevoked, PeerRevoked);
        Ok(db1.(agents := db1.agents[a := db1.agents[a].(authHash := "")],
                peers := db1.peers[a := db1.peers[a].(address := None)],
                runtime := RuntimeAfter(db, a, removes)))
    case Rotate(a) =>
      if a !in db.agents then Err(NotFound)
      else if db.agents[a].status == AgentRevoked then Err(Conflict)
      else if a !in db.peers then Err(NotFound)
      else Ok(db.(peers := db.peers[a := db.peers[a].(status := RotationPending)]))
    case CheckIn(a, tokenHash, rotationKey) =>
      if a !in db.agents then Err(NotFound)
      else if db.agents[a].authHash == "" || tokenHash != db.agents[a].authHash || db.agents[a].status == AgentRevoked then Err(Invalid)
      else if rotationKey.None? || a !in db.peers then Ok(db)
      else
        var r := CompleteRotation(db.peers[a].publicKey, db.peers[a].status, OtherKeys(db, a), rotationKey.value);
        if r.Err? then Err(Conflict)
        else Ok(db.(peers := db.peers[a := db.peers[a].(publicKey := r.value.0, status := r.value.1)]))
    case Reconcile(a) =>
      if a !in db.peers then Err(NotFound)
      else if db.peers[a].status == PeerDisabled || db.peers[a].status == PeerRevoked then Err(Conflict)
      else Ok(db.(peers := db.peers[a := db.peers[a].(status := Active)],
                  runtime := db.runtime[a := RuntimePeer(db.peers[a].publicKey, db.peers[a].allowedIPs)]))
  }

  /** The error of a refused operation. */
  function Failure(r: Result<Database, Error>): Option<Error> {
    if r.Ok? then None else Some(r.error)
  }

  ghost function Next(s: Settings, db: Database, op: Operation): Database {
    var r := Apply(s, db, op);
    if r.Ok? then r.value else db
  }

  ghost function Run(s: Settings, db: Database, ops: seq<Operation>): Database {
    if ops == [] then db else Next(s, Run(s, db, ops[..|ops| - 1]), ops[|ops| - 1])
  }

  const EMPTY := Database(map[], map[], map[], {}, map[], map[])
}
