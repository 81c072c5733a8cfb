/**
 Log export through a bounded queue: any number of emitters offer events without blocking,
 one worker delivers them with retries, and per-sink counters are updated in separate steps.
 */
module LogDelivery {
  import opened Prelude

  type SinkId = string

  // ---------------------------------------------------------------- which sinks an event reaches

  datatype Sink = Sink(id: SinkId, enabled: bool)

  datatype Route = Route(enabled: bool, sinkId: SinkId, minSeverity: string, categories: seq<string>)

  function SeverityRank(value: string): int {
    if value == "debug" then 0 else if value == "info" then 1 else if value == "warn" then 2
    else if value == "error" then 3 else -1
  }

  predicate RouteAccepts(r: Route, severity: string, category: string) {
    r.enabled && SeverityRank(severity) >= SeverityRank(r.minSeverity) && category in r.categories
  }

  const LEVELS: seq<string> := ["debug", "info", "warn", "error"]

  /** A route takes the events of its categories at its severity and above, and none below. */
  lemma RouteTakesIff(r: Route, m: nat, k: nat, category: string)
    requires m < |LEVELS| && k < |LEVELS| && r.minSeverity == LEVELS[m]
    ensures RouteAccepts(r, LEVELS[k], category) <==> r.enabled && category in r.categories && m <= k
  {
  }

  /** A level outside the four ranks below them all: every route whose own is outside takes its event, and no other. */
  lemma UnknownLevelTakenIff(r: Route, severity: string, category: string)
    requires severity !in LEVELS || r.minSeverity !in LEVELS
    ensures RouteAccepts(r, severity, category) <==> r.enabled && category in r.categories && r.minSeverity !in LEVELS
  {
    assert LEVELS[0] == "debug" && LEVELS[1] == "info" && LEVELS[2] == "warn" && LEVELS[3] == "error";
  }

  predicate Reaches(routes: seq<Route>, sinks: map<SinkId, Sink>, severity: string, category: string, id: SinkId) {
    && id in sinks && sinks[id].enabled
    && exists i :: 0 <= i < |routes| && routes[i].sinkId == id && RouteAccepts(routes[i], severity, category)
  }

  /** matchingSinks: each sink that some route selects, once, however many routes name it. */
  method MatchingSinks(routes: seq<Route>, sinks: map<SinkId, Sink>, severity: string, category: string)
    returns (out: seq<SinkId>)
    requires forall id :: id in sinks ==> sinks[id].id == id
    ensures forall i, j :: 0 <= i < j < |out| ==> out[i] != out[j]
    ensures forall id :: id in out <==> Reaches(routes, sinks, severity, category, id)
  {
    out := [];
    var seen: set<SinkId> := {};
    for k := 0 to |routes|
      invariant forall id :: id in seen <==> id in out
      invariant forall i, j :: 0 <= i < j < |out| ==> out[i] != out[j]
      invariant forall id :: id in out <==> Reaches(routes[..k], sinks, severity, category, id)
    {
      ghost var before := out;
      var route := routes[k];
      assert forall i :: 0 <= i < k ==> routes[..k][i] == routes[..k + 1][i];
      if RouteAccepts(route, severity, category) && route.sinkId in sinks && sinks[route.sinkId].enabled && route.sinkId !in seen {
        seen := seen + {route.sinkId};
        out := out + [route.sinkId];
      }
      forall id
        ensures id in out <==> Reaches(routes[..k + 1], sinks, severity, category, id)
      {
        ReachesGrows(routes, k, sinks, severity, category, id);
      }
    }
    assert routes[..|routes|] == routes;
  }

  lemma ReachesGrows(routes: seq<Route>, k: nat, sinks: map<SinkId, Sink>, severity: string, category: string, id: SinkId)
    requires k < |routes|
    ensures Reaches(routes[..k + 1], sinks, severity, category, id) <==>
              || Reaches(routes[..k], sinks, severity, category, id)
              || (id in sinks && sinks[id].enabled && routes[k].sinkId == id && RouteAccepts(routes[k], severity, category))
  {
    assert forall i :: 0 <= i < k ==> routes[..k][i] == routes[..k + 1][i];
    assert routes[..k + 1][k] == routes[k];
  }

  /** deliverWithRetry: succeeds[a] is the outcome of attempt a; retries is the schedule's length. */
  method DeliverWithRetry(succeeds: nat -> bool, retries: nat) returns (delivered: bool, attempts: nat)
    ensures delivered <==> exists a :: 0 <= a <= retries && succeeds(a)
    ensures 1 <= attempts <= retries + 1
    ensures delivered ==> succeeds(attempts - 1) && forall a :: 0 <= a < attempts - 1 ==> !succeeds(a)
    ensures !delivered ==> attempts == retries + 1
  {
    attempts := 0;
    while attempts <= retries
      invariant attempts <= retries + 1
      invariant forall a :: 0 <= a < attempts ==> !succeeds(a)
    {
      attempts := attempts + 1;
      if succeeds(attempts - 1) {
        return true, attempts;
      }
    }
    delivered := false;
  }

  // ---------------------------------------------------------------- the counters

  datatype Status = Status(queueDepth: nat, dropped: nat, delivered: nat, failed: nat)

  type Statuses = map<SinkId, Status>

  function StatusOf(st: Statuses, id: SinkId): Status {
    if id in st then st[id] else Status(0, 0, 0, 0)
  }

  function DepthAdjusted(st: Statuses, id: SinkId, delta: int): Statuses {
    var s := StatusOf(st, id);
    st[id := s.(queueDepth := if s.queueDepth + delta > 0 then s.queueDepth + delta else 0)]
  }

  function DropCounted(st: Statuses, id: SinkId): Statuses {
    st[id := StatusOf(st, id).(dropped := StatusOf(st, id).dropped + 1)]
  }

  function OutcomeCounted(st: Statuses, id: SinkId, success: bool): Statuses {
    var s := StatusOf(st, id);
    st[id := if success then s.(delivered := s.delivered + 1) else s.(failed := s.failed + 1)]
  }

  /** The status table; each method is one critical section of statusMu. */
  class StatusBoard {
    var statuses: Statuses

    constructor ()
      ensures statuses == map[]
    {
      statuses := map[];
    }

    method AdjustQueueDepth(id: SinkId, delta: int)
      modifies this
      ensures statuses == DepthAdjusted(old(statuses), id, delta)
    {
      var s := if id in statuses then statuses[id] else Status(0, 0, 0, 0);
      var depth := s.queueDepth + delta;
      if depth < 0 {
        depth := 0;
      }
      statuses := statuses[id := s.(queueDepth := depth)];
    }

    method IncrementDropped(id: SinkId)
      modifies this
      ensures statuses == DropCounted(old(statuses), id)
    {
      var s := if id in statuses then statuses[id] else Status(0, 0, 0, 0);
      statuses := statuses[id := s.(dropped := s.dropped + 1)];
    }

    method RecordOutcome(id: SinkId, success: bool)
      modifies this
      ensures statuses == OutcomeCounted(old(statuses), id, success)
    {
      var s := if id in statuses then statuses[id] else Status(0, 0, 0, 0);
      if success {
        statuses := statuses[id := s.(delivered := s.delivered + 1)];
      } else {
        statuses := statuses[id := s.(failed := s.failed + 1)];
      }
    }
  }

  // ---------------------------------------------------------------- emitters and the worker

  /** The counter update an emitter owes for its last offer. */
  datatype Due = Nothing | CountSend(sink: SinkId) | CountDrop(sink: SinkId)

  /** An emitter in the loop over the sinks its event matched. */
  datatype Emitter = Emitter(todo: seq<SinkId>, due: Due)

  datatype Worker = Receiving | Taken(sink: SinkId) | Delivering(sink: SinkId)

  /** matched counts the events matched per sink; clamps counts the depth updates cut off at zero. */
  datatype System = System(
    capacity: nat,
    queue: seq<SinkId>,
    emitters: seq<Emitter>,
    worker: Worker,
    statuses: Statuses,
    matched: multiset<SinkId>,
    clamps: multiset<SinkId>)

  datatype Action =
    | Emit(i: nat, sinks: seq<SinkId>)
    | Offer(i: nat)
    | Settle(i: nat)
    | Take
    | CountTaken
    | Deliver(success: bool)

  function Act(s: System, a: Action): System {
    match a
    case Emit(i, sinks) =>
      if i < |s.emitters| && s.emitters[i] == Emitter([], Nothing) then
        s.(emitters := s.emitters[i := Emitter(sinks, Nothing)], matched := s.matched + multiset(sinks))
      else s
    case Offer(i) =>
      if i < |s.emitters| && s.emitters[i].due == Nothing && s.emitters[i].todo != [] then
        var sink, rest := s.emitters[i].todo[0], s.emitters[i].todo[1..];
        if |s.queue| < s.capacity then
          s.(queue := s.queue + [sink], emitters := s.emitters[i := Emitter(rest, CountSend(sink))])
        else s.(emitters := s.emitters[i := Emitter(rest, CountDrop(sink))])
      else s
    case Settle(i) =>
      if i < |s.emitters| && s.emitters[i].due != Nothing then
        var e := s.emitters[i];
        s.(emitters := s.emitters[i := e.(due := Nothing)],
           statuses := if e.due.CountSend? then DepthAdjusted(s.statuses, e.due.sink, 1) else DropCounted(s.statuses, e.due.sink))
      else s
    case Take =>
      if s.worker == Receiving && s.queue != [] then s.(queue := s.queue[1..], worker := Taken(s.queue[0])) else s
    case CountTaken =>
      if s.worker.Taken? then
        var sink := s.worker.sink;
        s.(worker := Delivering(sink), statuses := DepthAdjusted(s.statuses, sink, -1),
           clamps := if StatusOf(s.statuses, sink).queueDepth == 0 then s.clamps + multiset{sink} else s.clamps)
      else s
    case Deliver(success) =>
      if s.worker.Delivering? then
        s.(worker := Receiving, statuses := OutcomeCounted(s.statuses, s.worker.sink, success))
      else s
  }

  function Run(s: System, actions: seq<Action>): System {
    if actions == [] then s else Act(Run(s, actions[..|actions| - 1]), actions[|actions| - 1])
  }

  /** A service just started, with any number of emitters. */
  ghost predicate Initial(s: System) {
    && s.queue == [] && s.worker == Receiving && s.statuses == map[]
    && s.matched == multiset{} && s.clamps == multiset{}
    && forall i :: 0 <= i < |s.emitters| ==> s.emitters[i] == Emitter([], Nothing)
  }

  // ---------------------------------------------------------------- the accounts

  function Bit(b: bool): nat {
    if b then 1 else 0
  }

  function Count(q: seq<SinkId>, id: SinkId): nat {
    multiset(q)[id]
  }

  /** Events of the sink that emitters have still to offer. */
  function Owed(es: seq<Emitter>, id: SinkId): nat {
    if es == [] then 0 else Owed(es[..|es| - 1], id) + Count(es[|es| - 1].todo, id)
  }

  function DropsDue(es: seq<Emitter>, id: SinkId): nat {
    if es == [] then 0 else DropsDue(es[..|es| - 1], id) + Bit(es[|es| - 1].due == CountDrop(id))
  }

  function SendsDue(es: seq<Emitter>, id: SinkId): nat {
    if es == [] then 0 else SendsDue(es[..|es| - 1], id) + Bit(es[|es| - 1].due == CountSend(id))
  }

  function InDelivery(w: Worker, id: SinkId): nat {
    Bit(w == Taken(id) || w == Delivering(id))
  }

  /** No matched event is lost or counted twice, and the depth is off by the clamped updates only. */
  predicate Accounted(s: System, id: SinkId) {
    var st := StatusOf(s.statuses, id);
    && s.matched[id] == Owed(s.emitters, id) + Count(s.queue, id) + InDelivery(s.worker, id)
                        + st.delivered + st.failed + st.dropped + DropsDue(s.emitters, id)
    && st.queueDepth + SendsDue(s.emitters, id) == Count(s.queue, id) + Bit(s.worker == Taken(id)) + s.clamps[id]
  }

  lemma {:induction false} EmitterUpdate(es: seq<Emitter>, i: nat, e: Emitter, id: SinkId)
    requires i < |es|
    ensures Owed(es[i := e], id) + Count(es[i].todo, id) == Owed(es, id) + Count(e.todo, id)
    ensures DropsDue(es[i := e], id) + Bit(es[i].due == CountDrop(id)) == DropsDue(es, id) + Bit(e.due == CountDrop(id))
    ensures SendsDue(es[i := e], id) + Bit(es[i].due == CountSend(id)) == SendsDue(es, id) + Bit(e.due == CountSend(id))
  {
    var n := |es| - 1;
    if i < n {
      EmitterUpdate(es[..n], i, e, id);
      assert es[i := e][..n] == es[..n][i := e];
    } else {
      assert es[i := e][..n] == es[..n];
    }
  }

  lemma {:induction false} SendsDueBound(es: seq<Emitter>, i: nat, id: SinkId)
    requires i < |es|
    ensures Bit(es[i].due == CountSend(id)) <= SendsDue(es, id)
  {
    if i < |es| - 1 {
      SendsDueBound(es[..|es| - 1], i, id);
    }
  }

  lemma SplitFirst(q: seq<SinkId>, id: SinkId)
    requires q != []
    ensures Count(q, id) == Bit(q[0] == id) + Count(q[1..], id)
  {
    assert q == [q[0]] + q[1..];
  }

  lemma EmitKeepsAccounts(s: System, i: nat, sinks: seq<SinkId>, id: SinkId)
    requires Accounted(s, id)
    ensures Accounted(Act(s, Emit(i, sinks)), id)
  {
    if i < |s.emitters| {
      EmitterUpdate(s.emitters, i, Emitter(sinks, Nothing), id);
    }
  }

  lemma OfferKeepsAccounts(s: System, i: nat, id: SinkId)
    requires Accounted(s, id)
    ensures Accounted(Act(s, Offer(i)), id)
  {
    if i < |s.emitters| && s.emitters[i].due == Nothing && s.emitters[i].todo != [] {
      var sink, rest := s.emitters[i].todo[0], s.emitters[i].todo[1..];
      SplitFirst(s.emitters[i].todo, id);
      EmitterUpdate(s.emitters, i, Emitter(rest, if |s.queue| < s.capacity then CountSend(sink) else CountDrop(sink)), id);
    }
  }

  lemma SettleKeepsAccounts(s: System, i: nat, id: SinkId)
    requires Accounted(s, id)
    ensures Accounted(Act(s, Settle(i)), id)
  {
    if i < |s.emitters| && s.emitters[i].due != Nothing {
      EmitterUpdate(s.emitters, i, s.emitters[i].(due := Nothing), id);
    }
  }

  lemma TakeKeepsAccounts(s: System, id: SinkId)
    requires Accounted(s, id)
    ensures Accounted(Act(s, Take), id)
  {
    if s.queue != [] {
      SplitFirst(s.queue, id);
    }
  }

  lemma CountTakenKeepsAccounts(s: System, id: SinkId)
    requires Accounted(s, id)
    ensures Accounted(Act(s, CountTaken), id)
  {
  }

  lemma DeliverKeepsAccounts(s: System, success: bool, id: SinkId)
    requires Accounted(s, id)
    ensures Accounted(Act(s, Deliver(success)), id)
  {
  }

  lemma WorkerKeepsAccounts(s: System, a: Action, id: SinkId)
    requires Accounted(s, id) && (a.Take? || a.CountTaken? || a.Deliver?)
    ensures Accounted(Act(s, a), id)
  {
    match a
    case Take => TakeKeepsAccounts(s, id);
    case CountTaken => CountTakenKeepsAccounts(s, id);
    case Deliver(success) => DeliverKeepsAccounts(s, success, id);
  }

  lemma StepKeepsAccounts(s: System, a: Action, id: SinkId)
    requires Accounted(s, id)
    ensures Accounted(Act(s, a), id)
  {
    match a
    case Emit(i, sinks) => EmitKeepsAccounts(s, i, sinks, id);
    case Offer(i) => OfferKeepsAccounts(s, i, id);
    case Settle(i) => SettleKeepsAccounts(s, i, id);
    case _ => WorkerKeepsAccounts(s, a, id);
  }

  lemma {:induction false} RunKeepsAccounts(s: System, actions: seq<Action>, id: SinkId)
    requires Initial(s)
    ensures Accounted(Run(s, actions), id)
  {
    if actions == [] {
      QuietEmitters(s.emitters, id);
    } else {
      RunKeepsAccounts(s, actions[..|actions| - 1], id);
      StepKeepsAccounts(Run(s, actions[..|actions| - 1]), actions[|actions| - 1], id);
    }
  }

  lemma StepKeepsBound(s: System, a: Action)
    requires |s.queue| <= s.capacity
    ensures |Act(s, a).queue| <= Act(s, a).capacity == s.capacity
  {
  }

  lemma {:induction false} QueueIsBounded(s: System, actions: seq<Action>)
    requires |s.queue| <= s.capacity
    ensures |Run(s, actions).queue| <= Run(s, actions).capacity == s.capacity
  {
    if actions != [] {
      QueueIsBounded(s, actions[..|actions| - 1]);
      StepKeepsBound(Run(s, actions[..|actions| - 1]), actions[|actions| - 1]);
    }
  }

  lemma {:induction false} QuietEmitters(es: seq<Emitter>, id: SinkId)
    requires forall i :: 0 <= i < |es| ==> es[i] == Emitter([], Nothing)
    ensures Owed(es, id) == DropsDue(es, id) == SendsDue(es, id) == 0
  {
    if es != [] {
      QuietEmitters(es[..|es| - 1], id);
    }
  }

  /** No emitter stands between a send to the sink and its count. */
  predicate NoneSending(es: seq<Emitter>, id: SinkId) {
    forall i :: 0 <= i < |es| ==> es[i].due != CountSend(id)
  }

  lemma {:induction false} NoSendsDue(es: seq<Emitter>, id: SinkId)
    requires NoneSending(es, id)
    ensures SendsDue(es, id) == 0
  {
    if es != [] {
      NoSendsDue(es[..|es| - 1], id);
    }
  }

  // ---------------------------------------------------------------- the theorems

  /**
   Under every interleaving, each sink's matched events are those still to be offered, queued,
   in delivery, delivered, failed or dropped, and the queue never exceeds its capacity.
   */
  lemma {:induction false} NoEventIsLost(s: System, actions: seq<Action>, id: SinkId)
    requires Initial(s)
    ensures var w := Run(s, actions);
            var st := StatusOf(w.statuses, id);
            && w.matched[id] == Owed(w.emitters, id) + Count(w.queue, id) + InDelivery(w.worker, id)
                                + st.delivered + st.failed + st.dropped + DropsDue(w.emitters, id)
            && |w.queue| <= s.capacity
  {
    RunKeepsAccounts(s, actions, id);
    QueueIsBounded(s, actions);
  }

  /**
   When no emitter stands between a send to the sink and its count, the reported depth is the
   queued events, plus one the worker has not discounted yet, plus the updates ever clamped;
   so it never under-reports, and over-reports for ever once an update was clamped.
   */
  lemma {:induction false} DepthNeverUnderReports(s: System, actions: seq<Action>, id: SinkId)
    requires Initial(s)
    requires NoneSending(Run(s, actions).emitters, id)
    ensures var w := Run(s, actions);
            && StatusOf(w.statuses, id).queueDepth == Count(w.queue, id) + Bit(w.worker == Taken(id)) + w.clamps[id]
            && StatusOf(w.statuses, id).queueDepth >= Count(w.queue, id)
  {
    RunKeepsAccounts(s, actions, id);
    NoSendsDue(Run(s, actions).emitters, id);
  }

  // ---------------------------------------------------------------- what the run did

  /** The sink of the event that this step gets into the queue, if it does. */
  function JustSent(w: System, a: Action): seq<SinkId> {
    if a.Offer? && a.i < |w.emitters| && w.emitters[a.i].due == Nothing && w.emitters[a.i].todo != [] && |w.queue| < w.capacity
    then [w.emitters[a.i].todo[0]] else []
  }

  /** The sink of the event that this step has the worker take up, if it does. */
  function JustServed(w: System, a: Action): seq<SinkId> {
    if a.Take? && w.worker == Receiving && Act(w, a).worker.Taken? then [Act(w, a).worker.sink] else []
  }

  /** The sinks of the events that got into the queue, in the order of sending. */
  function Sent(s: System, actions: seq<Action>): seq<SinkId> {
    if actions == [] then []
    else Sent(s, actions[..|actions| - 1]) + JustSent(Run(s, actions[..|actions| - 1]), actions[|actions| - 1])
  }

  /** The sinks of the events the worker took up, in its order. */
  function Served(s: System, actions: seq<Action>): seq<SinkId> {
    if actions == [] then []
    else Served(s, actions[..|actions| - 1]) + JustServed(Run(s, actions[..|actions| - 1]), actions[|actions| - 1])
  }

  lemma ServedStep(w: System, a: Action)
    ensures w.queue + JustSent(w, a) == JustServed(w, a) + Act(w, a).queue
  {
  }

  lemma Regroup(sent: seq<SinkId>, served: seq<SinkId>, q: seq<SinkId>, x: seq<SinkId>, y: seq<SinkId>, q': seq<SinkId>)
    requires sent == served + q && q + x == y + q'
    ensures sent + x == served + y + q'
  {
    assert sent + x == served + (q + x);
    assert served + (y + q') == served + y + q';
  }

  /** Events are served in the order in which they were sent, and those not yet served are the queue. */
  lemma {:induction false} ServedInOrder(s: System, actions: seq<Action>)
    requires s.queue == []
    ensures Sent(s, actions) == Served(s, actions) + Run(s, actions).queue
  {
    if actions != [] {
      var init, a := actions[..|actions| - 1], actions[|actions| - 1];
      var w := Run(s, init);
      ServedInOrder(s, init);
      ServedStep(w, a);
      Regroup(Sent(s, init), Served(s, init), w.queue, JustSent(w, a), JustServed(w, a), Act(w, a).queue);
    }
  }

  /** How many deliveries to the sink the run ended this way. */
  function Ended(s: System, actions: seq<Action>, id: SinkId, success: bool): nat {
    if actions == [] then 0
    else
      var init := actions[..|actions| - 1];
      Ended(s, init, id, success)
      + Bit(actions[|actions| - 1] == Deliver(success) && Run(s, init).worker == Delivering(id))
  }

  lemma EndedStep(w: System, a: Action, id: SinkId)
    ensures var st, st' := StatusOf(w.statuses, id), StatusOf(Act(w, a).statuses, id);
            && st'.delivered == st.delivered + Bit(a == Deliver(true) && w.worker == Delivering(id))
            && st'.failed == st.failed + Bit(a == Deliver(false) && w.worker == Delivering(id))
  {
  }

  /** A sink's delivered and failed counters are the deliveries that succeeded and those that failed. */
  lemma {:induction false} OutcomesAreCounted(s: System, actions: seq<Action>, id: SinkId)
    requires s.statuses == map[]
    ensures var st := StatusOf(Run(s, actions).statuses, id);
            st.delivered == Ended(s, actions, id, true) && st.failed == Ended(s, actions, id, false)
  {
    if actions != [] {
      OutcomesAreCounted(s, actions[..|actions| - 1], id);
      EndedStep(Run(s, actions[..|actions| - 1]), actions[|actions| - 1], id);
    }
  }

  // ---------------------------------------------------------------- a count overtaken

  lemma {:induction false} RunAppend(s: System, a: seq<Action>, b: seq<Action>)
    ensures Run(s, a + b) == Run(Run(s, a), b)
  {
    if b == [] {
      assert a + b == a;
    } else {
      var n := |a + b| - 1;
      RunAppend(s, a, b[..|b| - 1]);
      assert (a + b)[..n] == a + b[..|b| - 1] && (a + b)[n] == b[|b| - 1];
      assert Run(s, a + b) == Act(Run(s, (a + b)[..n]), (a + b)[n]);
    }
  }

  lemma RunOfTwo(s: System, a: Action, b: Action)
    ensures Run(s, [a, b]) == Act(Act(s, a), b)
  {
    assert [a, b][..1] == [a] && [a][..0] == [];
    assert Run(s, [a]) == Act(s, a);
  }

  lemma RunChain(s: System, x: seq<Action>, s2: System, y: seq<Action>, s4: System, z: seq<Action>)
    requires Run(s, x) == s2 && Run(s2, y) == s4
    ensures Run(s, x + y + z) == Run(s4, z)
  {
    RunAppend(s, x, y);
    RunAppend(s, x + y, z);
  }

  lemma SentUncounted(s: System)
    requires Initial(s) && s.capacity > 0 && s.emitters != []
    ensures Act(Act(s, Emit(0, ["x"])), Offer(0)) ==
            s.(queue := ["x"], emitters := s.emitters[0 := Emitter([], CountSend("x"))], matched := multiset{"x"})
  {
    var s1 := Act(s, Emit(0, ["x"]));
    assert s1 == s.(emitters := s.emitters[0 := Emitter(["x"], Nothing)], matched := multiset{"x"});
    assert ["x"][1..] == [];
    var e := Emitter([], CountSend("x"));
    assert s1.emitters[0 := e] == s.emitters[0 := e];
    assert s1.queue + ["x"] == ["x"];
  }

  lemma TakenUncounted(s: System, from: System)
    requires Initial(s) && s.emitters != []
    requires from == s.(queue := ["x"], emitters := s.emitters[0 := Emitter([], CountSend("x"))], matched := multiset{"x"})
    ensures Act(Act(from, Take), CountTaken) ==
            from.(queue := [], worker := Delivering("x"), statuses := map["x" := Status(0, 0, 0, 0)], clamps := multiset{"x"})
  {
    assert Act(from, Take) == from.(queue := [], worker := Taken("x"));
  }

  lemma CountedTooLate(s: System, from: System)
    requires Initial(s) && s.emitters != []
    requires from == s.(queue := [], emitters := s.emitters[0 := Emitter([], CountSend("x"))], matched := multiset{"x"},
                        worker := Delivering("x"), statuses := map["x" := Status(0, 0, 0, 0)], clamps := multiset{"x"})
    ensures var w := Act(Act(from, Settle(0)), Deliver(true));
            && w.queue == [] && w.worker == Receiving && w.emitters == s.emitters
            && StatusOf(w.statuses, "x") == Status(1, 0, 1, 0)
  {
    var e := Emitter([], Nothing);
    assert from.emitters[0 := e] == s.emitters[0 := e] == s.emitters;
    assert Act(from, Settle(0)) == from.(emitters := s.emitters, statuses := map["x" := Status(1, 0, 0, 0)]);
  }

  /** The worker overtaking an emitter's count leaves a depth of one on an idle, empty queue. */
  lemma OvertakenCountStays(s: System)
    requires Initial(s) && s.capacity > 0 && s.emitters != []
    ensures var w := Run(s, [Emit(0, ["x"]), Offer(0)] + [Take, CountTaken] + [Settle(0), Deliver(true)]);
            && w.queue == [] && w.worker == Receiving && w.emitters == s.emitters
            && StatusOf(w.statuses, "x") == Status(1, 0, 1, 0)
  {
    var s2 := Act(Act(s, Emit(0, ["x"])), Offer(0));
    var s4 := Act(Act(s2, Take), CountTaken);
    SentUncounted(s);
    TakenUncounted(s, s2);
    CountedTooLate(s, s4);
    RunOfTwo(s, Emit(0, ["x"]), Offer(0));
    RunOfTwo(s2, Take, CountTaken);
    RunOfTwo(s4, Settle(0), Deliver(true));
    RunChain(s, [Emit(0, ["x"]), Offer(0)], s2, [Take, CountTaken], s4, [Settle(0), Deliver(true)]);
  }
}
