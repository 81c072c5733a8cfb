/**
 Drift between what peers should route and what the gateway's runtime holds, and what keeps a
 reconciled peer in sync.
 */
module Reconciliation {
  import opened Prelude
  import opened Sorting
  import opened CheckInRules
  import opened ControlPlane
  import opened ControlPlaneSafety

  datatype Drift = InSync | MissingRuntime | Mismatch

  function ClassifyDrift(intended: seq<string>, runtime: Option<RuntimePeer>): Drift {
    if runtime.None? then (if intended == [] then InSync else MissingRuntime)
    else if SortStrings(intended) == SortStrings(runtime.value.allowedIPs) then InSync
    else Mismatch
  }

  function RuntimeOf(db: Database, a: AgentId): Option<RuntimePeer> {
    if a in db.runtime then Some(db.runtime[a]) else None
  }

  /** A peer counts as in sync exactly when the gateway routes the same addresses to it, in any order. */
  lemma InSyncIff(intended: seq<string>, runtime: Option<RuntimePeer>)
    ensures ClassifyDrift(intended, runtime) == InSync
            <==> multiset(intended) == multiset(if runtime.Some? then runtime.value.allowedIPs else [])
  {
    if runtime.Some? {
      SortStringsCorrect(intended);
      SortStringsCorrect(runtime.value.allowedIPs);
      if multiset(intended) == multiset(runtime.value.allowedIPs) {
        SortStringsCanonical(intended, runtime.value.allowedIPs);
      }
    } else if intended != [] {
      assert intended[0] in multiset(intended);
    }
  }

  /** A peer is called missing exactly when the runtime does not have it and it should route something. */
  lemma MissingIff(intended: seq<string>, runtime: Option<RuntimePeer>)
    ensures ClassifyDrift(intended, runtime) == MissingRuntime <==> runtime.None? && intended != []
  {
  }

  function Drifted(runtime: map<AgentId, RuntimePeer>): ((AgentId, Peer)) -> bool {
    (record: (AgentId, Peer)) =>
      ClassifyDrift(record.1.allowedIPs, if record.0 in runtime then Some(runtime[record.0]) else None) != InSync
  }

  lemma DriftedIff(runtime: map<AgentId, RuntimePeer>, record: (AgentId, Peer))
    ensures Drifted(runtime)(record) <==>
            multiset(record.1.allowedIPs) != multiset(if record.0 in runtime then runtime[record.0].allowedIPs else [])
  {
    InSyncIff(record.1.allowedIPs, if record.0 in runtime then Some(runtime[record.0]) else None);
  }

  /** Summarize's count of drifted peers. */
  method CountDrifted(records: seq<(AgentId, Peer)>, runtime: map<AgentId, RuntimePeer>) returns (drifted: nat)
    ensures drifted == |Filter(Drifted(runtime), records)|
  {
    drifted := 0;
    for i := 0 to |records|
      invariant drifted == |Filter(Drifted(runtime), records[..i])|
    {
      assert records[..i + 1] == records[..i] + [records[i]];
      FilterAppend(Drifted(runtime), records[..i], records[i]);
      if ClassifyDrift(records[i].1.allowedIPs, if records[i].0 in runtime then Some(runtime[records[i].0]) else None) != InSync {
        drifted := drifted + 1;
      }
    }
    assert records[..|records|] == records;
  }

  /** Operations that may change what agent a's peer should route, or take it out of the runtime. */
  ghost predicate TouchesIntent(db: Database, op: Operation, a: AgentId) {
    match op
    case UpdatePolicy(id, _, _) => (a, id) in db.assignments
    case AssignPolicy(b, _) => a == b
    case UnassignPolicy(b, _) => a == b
    case AssignPolicies(b, _) => a == b
    case SetOverride(b, _) => a == b
    case Disable(b, removes) => a == b && removes
    case Revoke(b, removes) => a == b && removes
    case _ => false
  }

  ghost predicate Synced(db: Database, a: AgentId) {
    a in db.peers && a in db.agents && ClassifyDrift(db.peers[a].allowedIPs, RuntimeOf(db, a)) == InSync
  }

  lemma ReconcileSyncs(s: Settings, db: Database, a: AgentId)
    requires a in db.agents && Apply(s, db, Reconcile(a)).Ok?
    ensures Synced(Next(s, db, Reconcile(a)), a)
    ensures RuntimeOf(Next(s, db, Reconcile(a)), a) == Some(RuntimePeer(db.peers[a].publicKey, db.peers[a].allowedIPs))
  {
  }

  /** A peer in sync stays so until its own intent changes: what other agents' operations do never drifts it. */
  lemma SyncedStays(s: Settings, db: Database, op: Operation, a: AgentId)
    requires Synced(db, a) && !TouchesIntent(db, op, a)
    ensures Synced(Next(s, db, op), a)
  {
    if op == Reconcile(a) {
      if Apply(s, db, op).Ok? {
        ReconcileSyncs(s, db, a);
      }
    } else {
      IntentUntouched(s, db, op, a);
    }
  }

  lemma IntentUntouched(s: Settings, db: Database, op: Operation, a: AgentId)
    requires a in db.agents && a in db.peers && !TouchesIntent(db, op, a) && op != Reconcile(a)
    ensures var db' := Next(s, db, op);
            a in db'.agents && a in db'.peers && db'.peers[a].allowedIPs == db.peers[a].allowedIPs && RuntimeOf(db', a) == RuntimeOf(db, a)
  {
    if PolicyOperation(op) {
      PolicyLeavesOthers(s, db, op, a);
    } else if op.Enroll? {
      EnrollLeavesOthers(s, db, op.request, a);
    } else {
      StateChangeLeavesIntent(s, db, op, a);
    }
  }

  lemma StateChangeLeavesIntent(s: Settings, db: Database, op: Operation, a: AgentId)
    requires a in db.agents && a in db.peers && !TouchesIntent(db, op, a)
    requires !PolicyOperation(op) && !op.Enroll? && op != Reconcile(a)
    ensures var db' := Next(s, db, op);
            a in db'.agents && a in db'.peers && db'.peers[a].allowedIPs == db.peers[a].allowedIPs && RuntimeOf(db', a) == RuntimeOf(db, a)
  {
    if op.Disable? || op.Revoke? {
      ShuttingLeavesIntent(s, db, op, a);
    }
  }

  lemma ShuttingLeavesIntent(s: Settings, db: Database, op: Operation, a: AgentId)
    requires a in db.agents && a in db.peers && (op.Disable? || op.Revoke?) && !(op.agent == a && op.removes)
    ensures var db' := Next(s, db, op);
            a in db'.agents && a in db'.peers && db'.peers[a].allowedIPs == db.peers[a].allowedIPs && RuntimeOf(db', a) == RuntimeOf(db, a)
  {
  }

  lemma PolicyLeavesOthers(s: Settings, db: Database, op: Operation, a: AgentId)
    requires PolicyOperation(op)
    requires a in db.agents && a in db.peers && !TouchesIntent(db, op, a)
    ensures var db' := Next(s, db, op);
            a in db'.agents && a in db'.peers && db'.peers[a].allowedIPs == db.peers[a].allowedIPs && db'.runtime == db.runtime
  {
    if op.UpdatePolicy? {
      assert a !in AgentsWith(db, op.id);
    }
  }

  lemma EnrollLeavesOthers(s: Settings, db: Database, e: Enrollment, a: AgentId)
    requires a in db.agents && a in db.peers
    ensures var db' := Next(s, db, Enroll(e));
            a in db'.agents && a in db'.peers && db'.peers[a].allowedIPs == db.peers[a].allowedIPs && db'.runtime == db.runtime
  {
  }

  /** Taking a peer in sync out of the runtime leaves it in sync exactly when it has no address to route. */
  lemma RemovalSyncedIff(s: Settings, db: Database, op: Operation, a: AgentId)
    requires a in db.agents && a in db.peers && (op == Disable(a, true) || op == Revoke(a, true)) && Apply(s, db, op).Ok?
    ensures Synced(Next(s, db, op), a) <==> db.peers[a].allowedIPs == []
  {
  }

  // ---------------------------------------------------------------- what the runtime holds

  /** Every peer in service is in the runtime with its registered key and its stored addresses. */
  ghost predicate RuntimeCurrent(db: Database) {
    forall a :: a in db.peers && db.peers[a].status == Active ==>
      a in db.runtime && db.runtime[a] == RuntimePeer(db.peers[a].publicKey, db.peers[a].allowedIPs)
  }

  lemma RefreshKeepsCurrent(db: Database, agents: set<AgentId>)
    requires RuntimeCurrent(db)
    ensures RuntimeCurrent(RefreshAll(db, agents))
  {
  }

  lemma EnrollKeepsCurrent(s: Settings, db: Database, e: Enrollment)
    requires RuntimeCurrent(db)
    ensures RuntimeCurrent(Next(s, db, Enroll(e)))
  {
    var r := AfterEnroll(s, db, e);
    if r.Ok? {
      var inserted := Inserted(db, e, AllocatedAddress(s, db).value);
      assert RuntimeCurrent(inserted);
      RefreshKeepsCurrent(inserted, {e.newAgent});
    }
  }

  lemma PolicyKeepsCurrent(s: Settings, db: Database, op: Operation)
    requires RuntimeCurrent(db) && PolicyOperation(op)
    ensures RuntimeCurrent(Next(s, db, op))
  {
  }

  lemma StepKeepsCurrent(s: Settings, db: Database, op: Operation)
    requires RuntimeCurrent(db)
    ensures RuntimeCurrent(Next(s, db, op))
  {
    if op.Enroll? {
      EnrollKeepsCurrent(s, db, op.request);
    } else if PolicyOperation(op) {
      PolicyKeepsCurrent(s, db, op);
    }
  }

  /** In every reachable store a peer in service is served with exactly its registered key and stored addresses. */
  lemma {:induction false} ReachableRuntimeCurrent(s: Settings, ops: seq<Operation>)
    ensures RuntimeCurrent(Run(s, EMPTY, ops))
  {
    if ops != [] {
      ReachableRuntimeCurrent(s, ops[..|ops| - 1]);
      StepKeepsCurrent(s, Run(s, EMPTY, ops[..|ops| - 1]), ops[|ops| - 1]);
    }
  }

  /** The runtime holds no peer that is disabled or revoked. */
  ghost predicate OnlyLivePeers(db: Database) {
    forall a :: a in db.runtime ==> a in db.peers && db.peers[a].status != PeerDisabled && db.peers[a].status != PeerRevoked
  }

  /** The operation shuts a peer without taking it out of the runtime it is in. */
  ghost predicate LeavesBehind(s: Settings, db: Database, op: Operation) {
    (op.Disable? || op.Revoke?) && !op.removes && Apply(s, db, op).Ok? && op.agent in db.runtime
  }

  lemma RefreshKeepsLive(db: Database, agents: set<AgentId>)
    requires OnlyLivePeers(db)
    ensures OnlyLivePeers(RefreshAll(db, agents))
  {
  }

  lemma EnrollKeepsLive(s: Settings, db: Database, e: Enrollment)
    requires OnlyLivePeers(db)
    ensures OnlyLivePeers(Next(s, db, Enroll(e)))
  {
    var r := AfterEnroll(s, db, e);
    if r.Ok? {
      var inserted := Inserted(db, e, AllocatedAddress(s, db).value);
      assert OnlyLivePeers(inserted);
      RefreshKeepsLive(inserted, {e.newAgent});
    }
  }

  lemma PolicyKeepsLive(s: Settings, db: Database, op: Operation)
    requires OnlyLivePeers(db) && PolicyOperation(op)
    ensures OnlyLivePeers(Next(s, db, op))
  {
  }

  lemma StepKeepsLiveIff(s: Settings, db: Database, op: Operation)
    requires OnlyLivePeers(db)
    ensures OnlyLivePeers(Next(s, db, op)) <==> !LeavesBehind(s, db, op)
  {
    if op.Enroll? {
      EnrollKeepsLive(s, db, op.request);
    } else if PolicyOperation(op) {
      PolicyKeepsLive(s, db, op);
    } else if (op.Disable? || op.Revoke?) && Apply(s, db, op).Ok? {
      var db' := Next(s, db, op);
      assert op.agent in db'.peers && (db'.peers[op.agent].status == PeerDisabled || db'.peers[op.agent].status == PeerRevoked);
    }
  }

  /**
   Throughout a run the runtime holds no disabled or revoked peer exactly when no state change
   of the run shuts a peer without the caller taking it out of the runtime.
   */
  lemma {:induction false} RuntimeHoldsLivePeersIff(s: Settings, ops: seq<Operation>)
    ensures (forall n :: 0 <= n <= |ops| ==> LiveAfter(s, ops, n))
            <==> (forall n :: 0 <= n < |ops| ==> !LeavesBehind(s, Run(s, EMPTY, ops[..n]), ops[n]))
  {
    if forall n :: 0 <= n <= |ops| ==> LiveAfter(s, ops, n) {
      forall n | 0 <= n < |ops|
        ensures !LeavesBehind(s, Run(s, EMPTY, ops[..n]), ops[n])
      {
        assert LiveAfter(s, ops, n) && LiveAfter(s, ops, n + 1);
        OneMore(s, ops, n);
        StepKeepsLiveIff(s, Run(s, EMPTY, ops[..n]), ops[n]);
      }
    }
    if forall n :: 0 <= n < |ops| ==> !LeavesBehind(s, Run(s, EMPTY, ops[..n]), ops[n]) {
      forall n | 0 <= n <= |ops|
        ensures LiveAfter(s, ops, n)
      {
        LiveUpTo(s, ops, n);
      }
    }
  }

  ghost predicate LiveAfter(s: Settings, ops: seq<Operation>, n: nat)
    requires n <= |ops|
  {
    OnlyLivePeers(Run(s, EMPTY, ops[..n]))
  }

  lemma OneMore(s: Settings, ops: seq<Operation>, n: nat)
    requires n < |ops|
    ensures Run(s, EMPTY, ops[..n + 1]) == Next(s, Run(s, EMPTY, ops[..n]), ops[n])
  {
    assert ops[..n + 1][..n] == ops[..n];
  }

  lemma {:induction false} LiveUpTo(s: Settings, ops: seq<Operation>, n: nat)
    requires n <= |ops| && forall k :: 0 <= k < |ops| ==> !LeavesBehind(s, Run(s, EMPTY, ops[..k]), ops[k])
    ensures LiveAfter(s, ops, n)
  {
    if n == 0 {
      LiveAtFirst(s, ops);
    } else {
      LiveUpTo(s, ops, n - 1);
      LiveOnceMore(s, ops, n - 1);
    }
  }

  lemma LiveAtFirst(s: Settings, ops: seq<Operation>)
    ensures LiveAfter(s, ops, 0)
  {
    assert ops[..0] == [];
  }

  lemma LiveOnceMore(s: Settings, ops: seq<Operation>, n: nat)
    requires n < |ops| && LiveAfter(s, ops, n) && !LeavesBehind(s, Run(s, EMPTY, ops[..n]), ops[n])
    ensures LiveAfter(s, ops, n + 1)
  {
    OneMore(s, ops, n);
    StepKeepsLiveIff(s, Run(s, EMPTY, ops[..n]), ops[n]);
  }
}
