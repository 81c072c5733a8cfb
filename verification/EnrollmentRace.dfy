/**
 Enrollment attempts with one token, statement by statement: the token is read and checked
 first and marked as used last, without a transaction around them.
 */
module EnrollmentRace {
  import opened Prelude

  type AttemptId = nat

  /** How far an attempt has come. */
  datatype Phase = Admitted | Created | Ended

  /** closed: the token is used, revoked or expired; created: the attempts whose agent was inserted. */
  datatype System = System(closed: bool, phases: map<AttemptId, Phase>, created: set<AttemptId>)

  /** Assignment and the peer's insertion may fail after the agent was inserted; the attempt then ends. */
  datatype Action =
    | ReadToken(i: AttemptId)
    | InsertAgent(i: AttemptId)
    | MarkUsed(i: AttemptId)
    | Fail(i: AttemptId)
    | Close

  /** One statement; an action that is not an attempt's next changes nothing. */
  function Act(s: System, a: Action): System {
    match a
    case ReadToken(i) =>
      if i in s.phases then s else s.(phases := s.phases[i := if s.closed then Ended else Admitted])
    case InsertAgent(i) =>
      if i in s.phases && s.phases[i] == Admitted then s.(phases := s.phases[i := Created], created := s.created + {i}) else s
    case MarkUsed(i) =>
      if i in s.phases && s.phases[i] == Created then s.(phases := s.phases[i := Ended], closed := true) else s
    case Fail(i) =>
      if i in s.phases then s.(phases := s.phases[i := Ended]) else s
    case Close => s.(closed := true)
  }

  function Run(s: System, actions: seq<Action>): System {
    if actions == [] then s else Act(Run(s, actions[..|actions| - 1]), actions[|actions| - 1])
  }

  /** The attempts that read the token as issued and have not yet inserted their agent. */
  function Pending(s: System): set<AttemptId> {
    set i | i in s.phases && s.phases[i] == Admitted
  }

  /** From here on the token has created, and will create, at most one agent. */
  ghost predicate SingleUse(s: System) {
    forall actions :: |Run(s, actions).created| <= 1
  }

  lemma ClosedStep(s: System, a: Action)
    requires s.closed
    ensures Act(s, a).closed && Act(s, a).created + Pending(Act(s, a)) <= s.created + Pending(s)
  {
  }

  lemma {:induction false} ClosedRun(s: System, actions: seq<Action>)
    requires s.closed
    ensures Run(s, actions).closed && Run(s, actions).created + Pending(Run(s, actions)) <= s.created + Pending(s)
  {
    if actions != [] {
      ClosedRun(s, actions[..|actions| - 1]);
      ClosedStep(Run(s, actions[..|actions| - 1]), actions[|actions| - 1]);
    }
  }

  lemma Step(s: System, before: seq<Action>, a: Action)
    ensures Run(s, before + [a]) == Act(Run(s, before), a)
  {
    assert (before + [a])[..|before|] == before;
  }

  lemma TwoInsertions(s: System, x: AttemptId, y: AttemptId)
    requires x != y && x in s.created + Pending(s) && y in s.created + Pending(s)
    ensures |Act(Act(s, InsertAgent(x)), InsertAgent(y)).created| >= 2
  {
    var s1 := Act(s, InsertAgent(x));
    assert x in s1.created && y in s1.created + Pending(s1);
    var s2 := Act(s1, InsertAgent(y));
    SubsetSize({x, y}, s2.created);
  }

  /** Two attempts past the check both insert, whatever has become of the token. */
  lemma BothInsert(s: System)
    requires |s.created + Pending(s)| >= 2
    ensures !SingleUse(s)
  {
    var candidates := s.created + Pending(s);
    assert candidates != {};
    var x := AnyElement(candidates);
    assert |candidates - {x}| == |candidates| - 1;
    var y := AnyElement(candidates - {x});
    TwoInsertions(s, x, y);
    var none: seq<Action> := [];
    assert Run(s, none) == s;
    Step(s, none, InsertAgent(x));
    Step(s, none + [InsertAgent(x)], InsertAgent(y));
    assert |Run(s, none + [InsertAgent(x)] + [InsertAgent(y)]).created| >= 2;
  }

  lemma {:induction false} FreshAttempt(used: set<AttemptId>) returns (i: AttemptId)
    ensures i !in used && forall j :: j in used ==> j < i
    decreases |used|
  {
    if used == {} {
      i := 0;
    } else {
      var x := AnyElement(used);
      assert |used - {x}| == |used| - 1;
      var rest := FreshAttempt(used - {x});
      i := if rest <= x then x + 1 else rest;
      forall j | j in used
        ensures j < i
      {
        assert j == x || j in used - {x};
      }
    }
  }

  /** While the token reads as issued, two more attempts can both pass the check. */
  lemma BothRead(s: System)
    requires !s.closed
    ensures !SingleUse(s)
  {
    var i := FreshAttempt(s.phases.Keys);
    var none: seq<Action> := [];
    assert Run(s, none) == s;
    Step(s, none, ReadToken(i));
    Step(s, none + [ReadToken(i)], ReadToken(i + 1));
    var actions := none + [ReadToken(i)] + [ReadToken(i + 1)];
    var s' := Run(s, actions);
    assert {i, i + 1} <= Pending(s');
    SubsetSize({i, i + 1}, s'.created + Pending(s'));
    BothInsert(s');
    var more :| |Run(s', more).created| > 1;
    RunAppend(s, actions, more);
  }

  lemma {:induction false} RunAppend(s: System, a: seq<Action>, b: seq<Action>)
    ensures Run(s, a + b) == Run(Run(s, a), b)
  {
    if b == [] {
      assert a + b == a;
    } else {
      var n := |a + b| - 1;
      RunAppend(s, a, b[..|b| - 1]);
      assert (a + b)[..n] == a + b[..|b| - 1] && (a + b)[n] == b[|b| - 1];
      assert Run(s, a + b) == Act(Run(s, (a + b)[..n]), (a + b)[n]);
    }
  }

  /**
   A token is good for at most one agent from some point on exactly when it is closed there and
   at most one attempt has inserted its agent or stands between its check and its insertion.
   */
  lemma SingleUseIff(s: System)
    ensures SingleUse(s) <==> s.closed && |s.created + Pending(s)| <= 1
  {
    if !s.closed {
      BothRead(s);
    } else if |s.created + Pending(s)| >= 2 {
      BothInsert(s);
    } else {
      forall actions
        ensures |Run(s, actions).created| <= 1
      {
        ClosedRun(s, actions);
        SubsetSize(Run(s, actions).created, s.created + Pending(s));
      }
    }
  }

  const FRESH := System(false, map[], {})

  /** An attempt that runs through undisturbed secures the token; one that fails after its insertion does not. */
  lemma FailedAttemptLeavesToken(i: AttemptId)
    ensures SingleUse(Act(Act(Act(FRESH, ReadToken(i)), InsertAgent(i)), MarkUsed(i)))
    ensures !SingleUse(Act(Act(Act(FRESH, ReadToken(i)), InsertAgent(i)), Fail(i)))
  {
    var s := Act(Act(FRESH, ReadToken(i)), InsertAgent(i));
    assert s.created == {i} && Pending(Act(s, MarkUsed(i))) == {};
    SingleUseIff(Act(s, MarkUsed(i)));
    SingleUseIff(Act(s, Fail(i)));
  }
}
