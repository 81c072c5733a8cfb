/**
 Runs from the empty store in which the control plane reaches states it means to rule out.
 */
module ControlPlaneRuns {
  import opened Prelude
  import opened CheckInRules
  import opened ControlPlane
  import opened ControlPlaneSafety
  import opened ControlPlaneTheorems

  lemma Extend(s: Settings, ops: seq<Operation>, op: Operation, db: Database, db': Database)
    requires Run(s, EMPTY, ops) == db && Apply(s, db, op) == Ok(db')
    ensures Run(s, EMPTY, ops + [op]) == db'
  {
    assert (ops + [op])[..|ops|] == ops;
  }

  /** A store to which some run leads. */
  ghost predicate Reachable(s: Settings, db: Database) {
    exists ops :: Run(s, EMPTY, ops) == db
  }

  lemma ReachableNext(s: Settings, db: Database, op: Operation)
    requires Reachable(s, db) && Apply(s, db, op).Ok?
    ensures Reachable(s, Next(s, db, op))
  {
    var ops :| Run(s, EMPTY, ops) == db;
    Extend(s, ops, op, db, Next(s, db, op));
  }

  function PlainToken(used: bool): Token {
    Token(None, {}, 0, used, false)
  }

  /** Unbound tokens, each unused and without policies, in an otherwise empty store. */
  lemma ThreeTokens(s: Settings, t1: TokenId, t2: TokenId, t3: TokenId)
    requires t1 != t2 && t1 != t3 && t2 != t3
    ensures Reachable(s, EMPTY.(tokens := map[t1 := PlainToken(false), t2 := PlainToken(false), t3 := PlainToken(false)]))
  {
    var none: seq<Operation> := [];
    assert Run(s, EMPTY, none) == EMPTY;
    ReachableNext(s, EMPTY, CreateToken(t1, None, {}, 0));
    var d1 := EMPTY.(tokens := map[t1 := PlainToken(false)]);
    assert Next(s, EMPTY, CreateToken(t1, None, {}, 0)) == d1;
    ReachableNext(s, d1, CreateToken(t2, None, {}, 0));
    var d2 := d1.(tokens := map[t1 := PlainToken(false), t2 := PlainToken(false)]);
    assert Next(s, d1, CreateToken(t2, None, {}, 0)) == d2;
    ReachableNext(s, d2, CreateToken(t3, None, {}, 0));
  }

  /** An enrollment attempt that everything but the hostname check admits, without policies or addresses. */
  ghost predicate Plain(s: Settings, db: Database, e: Enrollment) {
    && s.range.None? && WellFormedKey(e.publicKey) && e.authHash != "" && e.now == 0
    && e.token in db.tokens && db.tokens[e.token] == PlainToken(false)
    && e.newAgent !in db.agents
    && forall a :: a in db.peers ==> db.peers[a].publicKey != e.publicKey
  }

  lemma EnrollPlain(s: Settings, db: Database, e: Enrollment)
    requires Plain(s, db, e) && (e.found.Some? ==> !Live(db, e.found.value))
    ensures Apply(s, db, Enroll(e)).Ok?
    ensures var db' := Next(s, db, Enroll(e));
            && db'.agents == db.agents[e.newAgent := Agent(e.hostname, AgentStatus.Enrolled, e.authHash, None, e.token)]
            && db'.peers == db.peers[e.newAgent := Peer(e.publicKey, None, [], Planned)]
            && db'.tokens == db.tokens[e.token := PlainToken(true)] && db'.runtime == db.runtime
  {
  }

  /** The steps by which a second live agent gets a hostname: enroll it, revoke it, and enroll it twice more. */
  datatype Names = Names(hostname: string, agents: seq<AgentId>, keys: seq<PublicKey>, tokens: seq<TokenId>) {
    ghost predicate Valid() {
      && |agents| == |keys| == |tokens| == 3
      && (forall i, j :: 0 <= i < j < 3 ==> agents[i] != agents[j] && keys[i] != keys[j] && tokens[i] != tokens[j])
      && forall i :: 0 <= i < 3 ==> WellFormedKey(keys[i])
    }

    function Attempt(i: nat, found: Option<AgentId>): Enrollment
      requires i < |agents| && i < |keys| && i < |tokens|
    {
      Enrollment(tokens[i], hostname, keys[i], agents[i], "hash", 0, found)
    }
  }

  function TokensFor(n: Names): Database
    requires |n.tokens| == 3
  {
    EMPTY.(tokens := map[n.tokens[0] := PlainToken(false), n.tokens[1] := PlainToken(false), n.tokens[2] := PlainToken(false)])
  }

  /** The first agent of the run, enrolled and revoked. */
  lemma EnrolledAndRevoked(s: Settings, n: Names) returns (d2: Database)
    requires s.range.None? && n.Valid() && Reachable(s, TokensFor(n))
    ensures Reachable(s, d2)
    ensures d2.agents.Keys == {n.agents[0]} && !Live(d2, n.agents[0]) && d2.agents[n.agents[0]].hostname == n.hostname
    ensures d2.peers.Keys == {n.agents[0]} && d2.peers[n.agents[0]].publicKey == n.keys[0]
    ensures d2.tokens == TokensFor(n).tokens[n.tokens[0] := PlainToken(true)]
  {
    var d0 := TokensFor(n);
    var e0 := n.Attempt(0, None);
    EnrollPlain(s, d0, e0);
    ReachableNext(s, d0, Enroll(e0));
    var d1 := Next(s, d0, Enroll(e0));
    ReachableNext(s, d1, Revoke(n.agents[0], true));
    RevokeRows(s, d1, n.agents[0], true);
    d2 := Next(s, d1, Revoke(n.agents[0], true));
  }

  /** The second agent of the run has the name of the first. */
  lemma RevokedThenReused(s: Settings, n: Names) returns (d3: Database)
    requires s.range.None? && n.Valid() && Reachable(s, TokensFor(n))
    ensures Reachable(s, d3)
    ensures d3.agents.Keys == {n.agents[0], n.agents[1]} && !Live(d3, n.agents[0]) && Live(d3, n.agents[1])
    ensures d3.agents[n.agents[0]].hostname == n.hostname && d3.agents[n.agents[1]].hostname == n.hostname
    ensures Plain(s, d3, n.Attempt(2, None))
  {
    var d2 := EnrolledAndRevoked(s, n);
    var e1 := n.Attempt(1, Some(n.agents[0]));
    EnrollPlain(s, d2, e1);
    ReachableNext(s, d2, Enroll(e1));
    d3 := Next(s, d2, Enroll(e1));
  }

  /**
   Whatever the names, a run from the empty store enrolls a hostname, revokes it, and enrolls
   it twice again, the lookup returning the revoked row both times: two live agents share it.
   */
  lemma TwoLiveAgentsShareHostname(s: Settings, n: Names) returns (d3: Database)
    requires s.range.None? && n.Valid()
    ensures Reachable(s, d3) && LookupReturns(d3, n.hostname, Some(n.agents[0]))
    ensures var d4 := Next(s, d3, Enroll(n.Attempt(2, Some(n.agents[0]))));
            && Reachable(s, d4) && Live(d4, n.agents[1]) && Live(d4, n.agents[2])
            && d4.agents[n.agents[1]].hostname == d4.agents[n.agents[2]].hostname == n.hostname
  {
    ThreeTokens(s, n.tokens[0], n.tokens[1], n.tokens[2]);
    d3 := RevokedThenReused(s, n);
    var e2 := n.Attempt(2, Some(n.agents[0]));
    EnrollPlain(s, d3, e2);
    ReachableNext(s, d3, Enroll(e2));
  }

  /** Names as the run needs them exist. */
  lemma SomeNames() returns (n: Names)
    ensures n.Valid()
  {
    n := Names("host", ["a", "b", "c"],
               [seq(16, i => 'a'), seq(16, i => 'b'), seq(16, i => 'c')], ["r", "s", "t"]);
    assert n.keys[0][0] == 'a' && n.keys[1][0] == 'b' && n.keys[2][0] == 'c';
  }

  /**
   A state change request whose action has white space around it disables the agent and leaves
   its peer in the runtime: a run from the empty store to a disabled peer that is still served.
   */
  lemma DisabledPeerStillServed(s: Settings, n: Names) returns (db: Database)
    requires s.range.None? && n.Valid()
    ensures Reachable(s, db) && Shut(db, n.agents[0])
    ensures n.agents[0] in db.runtime && db.runtime[n.agents[0]] == RuntimePeer(n.keys[0], [])
  {
    ThreeTokens(s, n.tokens[0], n.tokens[1], n.tokens[2]);
    var d0 := TokensFor(n);
    var a := n.agents[0];
    EnrollPlain(s, d0, n.Attempt(0, None));
    ReachableNext(s, d0, Enroll(n.Attempt(0, None)));
    var d1 := Next(s, d0, Enroll(n.Attempt(0, None)));
    ReachableNext(s, d1, Reconcile(a));
    var d2 := Next(s, d1, Reconcile(a));
    ReachableNext(s, d2, Disable(a, false));
    DisableShuts(s, d2, a, false);
    db := Next(s, d2, Disable(a, false));
  }
}
