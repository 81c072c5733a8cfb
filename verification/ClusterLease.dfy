/**
 Leader election through one lease row: a conditional write, a separate read-back, and a
 leadership flag each instance caches. Every instance runs its ticks one after another;
 the steps of different instances interleave freely on a shared clock.
 */
module ClusterLease {
  import opened Prelude

  type InstanceId = string

  datatype Lease = Lease(leader: InstanceId, expires: int)

  /** How far an instance's tick has come. */
  datatype Progress =
    | Resting
    | Started
    | Wrote(affected: bool)
    | ReadBack(acquired: bool, lease: Lease)

  /** One instance; now is the time its latest tick captured. */
  datatype Node = Node(ttl: int, now: int, progress: Progress, isLeader: bool, leaderId: InstanceId, leaseExpires: int)

  function Fresh(ttl: int): Node {
    Node(ttl, 0, Resting, false, "", 0)
  }

  // ---------------------------------------------------------------- the steps of a tick

  predicate MayTake(row: Option<Lease>, id: InstanceId, now: int) {
    row.None? || row.value.expires < Seconds(now) || row.value.leader == id
  }

  function WriteRow(row: Option<Lease>, id: InstanceId, now: int, ttl: int): Option<Lease> {
    if MayTake(row, id, now) then Some(Lease(id, Seconds(now + ttl))) else row
  }

  function Begin(n: Node, clock: int): Node {
    n.(now := clock, progress := Started)
  }

  function AfterWrite(n: Node, id: InstanceId, row: Option<Lease>): Node {
    n.(progress := Wrote(MayTake(row, id, n.now)))
  }

  /** The read-back; without a row the repository reports an empty lease. */
  function AfterRead(n: Node, id: InstanceId, row: Option<Lease>): Node
    requires n.progress.Wrote?
  {
    var affected := n.progress.affected;
    if row.None? then n.(progress := ReadBack(affected, Lease("", 0)))
    else n.(progress := ReadBack(affected && row.value.leader == id, row.value))
  }

  function Commit(n: Node): Node
    requires n.progress.ReadBack?
  {
    n.(progress := Resting, isLeader := n.progress.acquired, leaderId := n.progress.lease.leader,
       leaseExpires := n.progress.lease.expires)
  }

  // ---------------------------------------------------------------- the interleaved system

  datatype System = System(clock: int, row: Option<Lease>, nodes: map<InstanceId, Node>)

  datatype Action =
    | Pass(nanos: nat)
    | Start(id: InstanceId)
    | Write(id: InstanceId)
    | Read(id: InstanceId)
    | Finish(id: InstanceId)
    | Fail(id: InstanceId)
    | Restart(id: InstanceId, ttl: int)

  /** One step; an action whose instance is not at that point changes nothing. */
  function Act(s: System, a: Action): System {
    match a
    case Pass(nanos) => s.(clock := s.clock + nanos)
    case Start(id) =>
      if id in s.nodes && s.nodes[id].progress.Resting? then s.(nodes := s.nodes[id := Begin(s.nodes[id], s.clock)]) else s
    case Write(id) =>
      if id in s.nodes && s.nodes[id].progress.Started? then
        s.(row := WriteRow(s.row, id, s.nodes[id].now, s.nodes[id].ttl),
           nodes := s.nodes[id := AfterWrite(s.nodes[id], id, s.row)])
      else s
    case Read(id) =>
      if id in s.nodes && s.nodes[id].progress.Wrote? then s.(nodes := s.nodes[id := AfterRead(s.nodes[id], id, s.row)]) else s
    case Finish(id) =>
      if id in s.nodes && s.nodes[id].progress.ReadBack? then s.(nodes := s.nodes[id := Commit(s.nodes[id])]) else s
    case Fail(id) =>
      if id in s.nodes then s.(nodes := s.nodes[id := s.nodes[id].(progress := Resting)]) else s
    case Restart(id, ttl) =>
      s.(nodes := s.nodes[id := Fresh(ttl)])
  }

  function Run(s: System, actions: seq<Action>): System {
    if actions == [] then s else Act(Run(s, actions[..|actions| - 1]), actions[|actions| - 1])
  }

  /** No instance has ticked yet; the row may be left over from earlier processes. */
  ghost predicate Initial(s: System) {
    forall id :: id in s.nodes ==> s.nodes[id].progress.Resting? && !s.nodes[id].isLeader
  }

  /** The instance flags itself leader and the lease it cached has not expired, in whole seconds. */
  predicate Leads(s: System, id: InstanceId) {
    id in s.nodes && s.nodes[id].isLeader && Seconds(s.clock) <= s.nodes[id].leaseExpires
  }

  // ---------------------------------------------------------------- the invariant

  /** Until it expires, a lease read with this expiry is still in the row, perhaps renewed. */
  predicate Backed(s: System, id: InstanceId, expires: int) {
    Seconds(s.clock) <= expires ==>
      s.row.Some? && s.row.value.leader == id && s.row.value.expires >= expires
  }

  ghost predicate NodeInv(s: System, id: InstanceId)
    requires id in s.nodes
  {
    var n := s.nodes[id];
    && ((n.progress.Resting? && !n.isLeader) || n.now <= s.clock)
    && (n.isLeader ==> Backed(s, id, n.leaseExpires) && n.leaseExpires <= Seconds(n.now + n.ttl))
    && (n.progress == Wrote(true) && s.row.Some? && s.row.value.leader == id ==>
          s.row.value.expires == Seconds(n.now + n.ttl))
    && (n.progress.ReadBack? && n.progress.acquired ==>
          Backed(s, id, n.progress.lease.expires) && n.progress.lease.expires <= Seconds(n.now + n.ttl))
    && (n.progress.Wrote? && n.progress.affected ==> s.row.Some?)
  }

  ghost predicate Inv(s: System) {
    forall id :: id in s.nodes ==> NodeInv(s, id)
  }

  lemma PassKeepsNode(s: System, nanos: nat, id: InstanceId)
    requires Inv(s) && id in s.nodes
    ensures NodeInv(Act(s, Pass(nanos)), id)
  {
    assert NodeInv(s, id);
    SecondsMonotone(s.clock, s.clock + nanos);
  }

  lemma StartKeepsNode(s: System, j: InstanceId, id: InstanceId)
    requires Inv(s) && id in s.nodes
    ensures NodeInv(Act(s, Start(j)), id)
  {
    assert NodeInv(s, id);
    if id == j && s.nodes[j].isLeader {
      SecondsMonotone(s.nodes[j].now + s.nodes[j].ttl, s.clock + s.nodes[j].ttl);
    }
  }

  /** Another instance cannot overwrite an unexpired lease, and a renewal never shortens one. */
  lemma WriteKeepsBacked(s: System, j: InstanceId, id: InstanceId, expires: int)
    requires Inv(s) && id in s.nodes && j in s.nodes && s.nodes[j].progress.Started?
    requires Backed(s, id, expires) && expires <= Seconds(s.nodes[id].now + s.nodes[id].ttl)
    ensures Backed(Act(s, Write(j)), id, expires)
  {
    assert NodeInv(s, j);
    SecondsMonotone(s.nodes[j].now, s.clock);
  }

  lemma WriteKeepsNode(s: System, j: InstanceId, id: InstanceId)
    requires Inv(s) && id in s.nodes && j in s.nodes && s.nodes[j].progress.Started?
    ensures NodeInv(Act(s, Write(j)), id)
  {
    assert NodeInv(s, id);
    var n := s.nodes[id];
    if n.isLeader {
      WriteKeepsBacked(s, j, id, n.leaseExpires);
    }
    if n.progress.ReadBack? && n.progress.acquired {
      WriteKeepsBacked(s, j, id, n.progress.lease.expires);
    }
  }

  lemma StepKeepsNode(s: System, a: Action, id: InstanceId)
    requires Inv(s) && id in Act(s, a).nodes
    ensures NodeInv(Act(s, a), id)
  {
    match a
    case Pass(nanos) =>
      PassKeepsNode(s, nanos, id);
    case Start(j) =>
      StartKeepsNode(s, j, id);
    case Write(j) =>
      assert NodeInv(s, id);
      if j in s.nodes && s.nodes[j].progress.Started? {
        WriteKeepsNode(s, j, id);
      }
    case _ =>
      OtherKeepsNode(s, a, id);
  }

  lemma OtherKeepsNode(s: System, a: Action, id: InstanceId)
    requires Inv(s) && id in Act(s, a).nodes && !a.Pass? && !a.Start? && !a.Write?
    ensures NodeInv(Act(s, a), id)
  {
    if id in s.nodes {
      assert NodeInv(s, id);
    }
  }

  lemma {:induction false} RunKeepsInv(s: System, actions: seq<Action>)
    requires Initial(s)
    ensures Inv(Run(s, actions))
  {
    if actions != [] {
      var v := Run(s, actions[..|actions| - 1]);
      RunKeepsInv(s, actions[..|actions| - 1]);
      forall id | id in Run(s, actions).nodes
        ensures NodeInv(Run(s, actions), id)
      {
        StepKeepsNode(v, actions[|actions| - 1], id);
      }
    }
  }

  // ---------------------------------------------------------------- the theorems

  /**
   In every state of every interleaving, with ticks failing and instances restarting at
   will, at most one instance leads; and the row names the one that does.
   */
  lemma AtMostOneLeads(s: System, actions: seq<Action>, i: InstanceId, j: InstanceId)
    requires Initial(s)
    requires Leads(Run(s, actions), i) && Leads(Run(s, actions), j)
    ensures i == j && Run(s, actions).row.Some? && Run(s, actions).row.value.leader == i
  {
    RunKeepsInv(s, actions);
    assert NodeInv(Run(s, actions), i) && NodeInv(Run(s, actions), j);
  }

  /** Two flags can only be up together when one of the cached leases has expired. */
  lemma OverlapIsStale(s: System, actions: seq<Action>, i: InstanceId, j: InstanceId)
    requires Initial(s) && i != j
    requires i in Run(s, actions).nodes && j in Run(s, actions).nodes
    requires Run(s, actions).nodes[i].isLeader && Run(s, actions).nodes[j].isLeader
    ensures var w := Run(s, actions);
            w.nodes[i].leaseExpires < Seconds(w.clock) || w.nodes[j].leaseExpires < Seconds(w.clock)
  {
    var w := Run(s, actions);
    if Seconds(w.clock) <= w.nodes[i].leaseExpires && Seconds(w.clock) <= w.nodes[j].leaseExpires {
      AtMostOneLeads(s, actions, i, j);
      assert false;
    }
  }

  function FullTick(id: InstanceId): seq<Action> {
    [Start(id), Write(id), Read(id), Finish(id)]
  }

  lemma {:induction false} RunAppend(s: System, a: seq<Action>, b: seq<Action>)
    ensures Run(s, a + b) == Run(Run(s, a), b)
  {
    if b == [] {
      assert a + b == a;
    } else {
      assert (a + b)[..|a + b| - 1] == a + b[..|b| - 1];
      RunAppend(s, a, b[..|b| - 1]);
    }
  }

  lemma FourSteps(s: System, id: InstanceId)
    ensures Run(s, FullTick(id)) == Act(Act(Act(Act(s, Start(id)), Write(id)), Read(id)), Finish(id))
  {
    var ws := FullTick(id);
    assert ws[..3][..2] == ws[..2] && ws[..2][..1] == ws[..1] && ws[..1][..0] == [];
    assert Run(s, ws[..1]) == Act(s, Start(id));
    assert Run(s, ws[..2]) == Act(Run(s, ws[..1]), Write(id));
    assert Run(s, ws[..3]) == Act(Run(s, ws[..2]), Read(id));
  }

  lemma UndisturbedTick(s: System, id: InstanceId)
    requires id in s.nodes && s.nodes[id].progress.Resting? && MayTake(s.row, id, s.clock)
    ensures var w := Run(s, FullTick(id));
            var expires := Seconds(s.clock + s.nodes[id].ttl);
            && w.clock == s.clock && w.row == Some(Lease(id, expires))
            && w.nodes == s.nodes[id := Node(s.nodes[id].ttl, s.clock, Resting, true, id, expires)]
  {
    FourSteps(s, id);
  }

  lemma RefusedTick(s: System, id: InstanceId)
    requires id in s.nodes && s.nodes[id].progress.Resting? && !MayTake(s.row, id, s.clock)
    ensures var w := Run(s, FullTick(id));
            && w.clock == s.clock && w.row == s.row
            && w.nodes == s.nodes[id := Node(s.nodes[id].ttl, s.clock, Resting, false, s.row.value.leader, s.row.value.expires)]
  {
    FourSteps(s, id);
  }

  /**
   IsLeader reports the bare flag, which nothing lowers when a lease runs out: an instance
   whose ticks stop keeps it while another takes the lease over.
   */
  lemma BareFlagsOverlap()
    ensures exists s: System, actions: seq<Action> ::
              && Initial(s) && "a" in Run(s, actions).nodes && "b" in Run(s, actions).nodes
              && Run(s, actions).nodes["a"].isLeader && Run(s, actions).nodes["b"].isLeader
  {
    var ttl := 15 * SECOND;
    var s := System(0, None, map["a" := Fresh(ttl), "b" := Fresh(ttl)]);
    var s1 := Run(s, FullTick("a"));
    UndisturbedTick(s, "a");
    var s2 := Act(s1, Pass(16 * SECOND));
    assert [Pass(16 * SECOND)][..0] == [];
    assert Run(s1, [Pass(16 * SECOND)]) == Act(Run(s1, []), Pass(16 * SECOND));
    RunAppend(s, FullTick("a"), [Pass(16 * SECOND)]);
    UndisturbedTick(s2, "b");
    RunAppend(s, FullTick("a") + [Pass(16 * SECOND)], FullTick("b"));
    assert Run(s, FullTick("a") + [Pass(16 * SECOND)] + FullTick("b")).nodes["a"].isLeader;
  }

  /**
   How the bare flag fails to be exclusive: while another instance has it up and is named by
   the row, an undisturbed tick of this one raises a second flag exactly when the row's lease
   has run out at the tick's time.
   */
  lemma TickOverlapsIff(s: System, i: InstanceId, j: InstanceId)
    requires i in s.nodes && j in s.nodes && i != j
    requires s.nodes[i].isLeader && s.nodes[j].progress.Resting? && s.row.Some? && s.row.value.leader == i
    ensures var w := Run(s, FullTick(j));
            i in w.nodes && j in w.nodes
            && (w.nodes[i].isLeader && w.nodes[j].isLeader <==> s.row.value.expires < Seconds(s.clock))
  {
    if MayTake(s.row, j, s.clock) {
      UndisturbedTick(s, j);
    } else {
      RefusedTick(s, j);
    }
  }

  /**
   Only the end of a completed tick moves a cached lease: until the instance next finishes a tick
   or starts anew, failing ticks and everything the others do leave its flag as it was.
   */
  lemma {:induction false} FailedTicksKeepFlag(s: System, actions: seq<Action>, id: InstanceId)
    requires id in s.nodes
    requires forall a :: a in actions ==> a != Finish(id) && !(a.Restart? && a.id == id)
    ensures var w := Run(s, actions);
            && id in w.nodes && w.nodes[id].isLeader == s.nodes[id].isLeader
            && w.nodes[id].leaderId == s.nodes[id].leaderId && w.nodes[id].leaseExpires == s.nodes[id].leaseExpires
  {
    if actions != [] {
      FailedTicksKeepFlag(s, actions[..|actions| - 1], id);
      assert actions[|actions| - 1] in actions;
    }
  }

  // ---------------------------------------------------------------- the program

  /** The lease table of clusterrepo. */
  class LeaseRepo {
    var row: Option<Lease>

    /** The conditional upsert; affected is whether the row was written. */
    method Upsert(id: InstanceId, now: int, ttl: int) returns (affected: bool)
      modifies this
      ensures row == WriteRow(old(row), id, now, ttl) && affected == MayTake(old(row), id, now)
    {
      affected := row.None? || row.value.expires < Seconds(now) || row.value.leader == id;
      if affected {
        row := Some(Lease(id, Seconds(now + ttl)));
      }
    }

    /** TryAcquireLease when no other instance comes between the write and the read-back. */
    method TryAcquireLease(id: InstanceId, now: int, ttl: int) returns (acquired: bool, lease: Lease)
      modifies this
      ensures row == WriteRow(old(row), id, now, ttl) && row == Some(lease)
      ensures acquired <==> lease.leader == id
      ensures !acquired ==> row == old(row) && lease.expires >= Seconds(now)
    {
      var affected := Upsert(id, now, ttl);
      lease := row.value;
      acquired := affected && lease.leader == id;
    }
  }

  /** One instance's cluster service. */
  class Service {
    const id: InstanceId
    const ttl: int
    var now: int
    var progress: Progress
    var isLeader: bool
    var leaderId: InstanceId
    var leaseExpires: int

    constructor (id: InstanceId, ttl: int)
      ensures this.id == id && View() == Fresh(if ttl <= 0 then 15 * SECOND else ttl)
    {
      this.id := id;
      this.ttl := if ttl <= 0 then 15 * SECOND else ttl;
      now, progress, isLeader, leaderId, leaseExpires := 0, Resting, false, "", 0;
    }

    ghost function View(): Node
      reads this
    {
      Node(ttl, now, progress, isLeader, leaderId, leaseExpires)
    }

    method BeginTick(clock: int)
      modifies this
      ensures View() == Begin(old(View()), clock)
    {
      now, progress := clock, Started;
    }

    method AcquireStep(repo: LeaseRepo)
      modifies this, repo
      ensures View() == AfterWrite(old(View()), id, old(repo.row))
      ensures repo.row == WriteRow(old(repo.row), id, now, ttl)
    {
      var affected := repo.Upsert(id, now, ttl);
      progress := Wrote(affected);
    }

    method ReadStep(repo: LeaseRepo)
      requires progress.Wrote?
      modifies this
      ensures View() == AfterRead(old(View()), id, repo.row)
    {
      var acquired, lease := progress.affected, Lease("", 0);
      if repo.row.Some? {
        lease := repo.row.value;
        acquired := acquired && lease.leader == id;
      }
      progress := ReadBack(acquired, lease);
    }

    method CommitStep()
      requires progress.ReadBack?
      modifies this
      ensures View() == Commit(old(View()))
    {
      isLeader, leaderId, leaseExpires := progress.acquired, progress.lease.leader, progress.lease.expires;
      progress := Resting;
    }

    /** A whole tick; upsertNodeWorks is whether recording the heartbeat succeeds. */
    method Tick(repo: LeaseRepo, clock: int, upsertNodeWorks: bool)
      modifies this, repo
      ensures repo.row == WriteRow(old(repo.row), id, clock, ttl) && repo.row.Some?
      ensures View() == if upsertNodeWorks
                        then Node(ttl, clock, Resting, repo.row.value.leader == id, repo.row.value.leader, repo.row.value.expires)
                        else old(View()).(now := clock, progress := Resting)
    {
      BeginTick(clock);
      AcquireStep(repo);
      ReadStep(repo);
      if upsertNodeWorks {
        CommitStep();
      } else {
        progress := Resting;
      }
    }
  }
}
