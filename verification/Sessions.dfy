/**
 Login sessions: idle and absolute expiry, with the stored times truncated to whole seconds
 and the last-seen time written at most every five minutes.
 */
module Sessions {
  import opened Prelude

  // Times are nanoseconds; rows store whole seconds.
  const TOUCH_INTERVAL := 300 * SECOND

  datatype Session = Session(userId: string, expires: int, lastSeen: int, revoked: bool)

  /** Session lifetimes, absolute and idle. */
  datatype Policy = Policy(ttl: int, idleTtl: int)

  function Created(p: Policy, userId: string, now: int): Session {
    Session(userId, Seconds(now + p.ttl), Seconds(now), false)
  }

  /** The condition of the FindActive query. */
  predicate IsActive(s: Session, now: int, idleCutoff: int) {
    s.expires > Seconds(now) && !s.revoked && s.lastSeen > Seconds(idleCutoff)
  }

  /** TouchSession: nothing within five minutes of the stored time. */
  function Touched(s: Session, now: int): Session {
    if now - s.lastSeen * SECOND < TOUCH_INTERVAL || s.revoked then s else s.(lastSeen := Seconds(now))
  }

  /**
   A request reads the clock three times: for the idle cutoff, for the expiry, and for the
   touch. proceeds is false when a later check of the request turns it away before the touch.
   */
  datatype Step =
    | Request(idleAt: int, expiryAt: int, touchAt: int, proceeds: bool)
    | Revoke(at: int)
  {
    function First(): int { if Request? then idleAt else at }
    function Last(): int { if Request? then touchAt else at }
    predicate Ordered() { Request? ==> idleAt <= expiryAt <= touchAt }
  }

  predicate Valid(p: Policy, s: Session, r: Step)
    requires r.Request?
  {
    IsActive(s, r.expiryAt, r.idleAt - p.idleTtl)
  }

  /** The request is authenticated. */
  predicate Accepted(p: Policy, s: Session, r: Step) {
    r.Request? && Valid(p, s, r) && r.proceeds
  }

  function After(p: Policy, s: Session, r: Step): Session {
    if r.Revoke? then s.(revoked := true)
    else if Accepted(p, s, r) then Touched(s, r.touchAt)
    else s
  }

  function Run(p: Policy, s: Session, steps: seq<Step>): Session {
    if steps == [] then s else After(p, Run(p, s, steps[..|steps| - 1]), steps[|steps| - 1])
  }

  /** Clock readings never go back. */
  ghost predicate Chronological(since: int, steps: seq<Step>) {
    && (forall i :: 0 <= i < |steps| ==> steps[i].Ordered() && since <= steps[i].First())
    && (forall i, j :: 0 <= i < j < |steps| ==> steps[i].Last() <= steps[j].First())
  }

  /** When the session was last authenticated, or created. */
  function LastUse(p: Policy, s: Session, created: int, steps: seq<Step>): int {
    if steps == [] then created
    else
      var init, r := steps[..|steps| - 1], steps[|steps| - 1];
      if Accepted(p, Run(p, s, init), r) then r.touchAt else LastUse(p, s, created, init)
  }

  // ---------------------------------------------------------------- how far the stored time lags

  /** A stored second lies after the truncated cutoff as soon as it lies after the cutoff itself, and only then. */
  lemma StoredAfterIff(stored: int, cutoff: int)
    ensures stored * SECOND > cutoff ==> stored > Seconds(cutoff)
    ensures stored * SECOND <= cutoff ==> stored <= Seconds(cutoff)
  {
    SecondsFacts(cutoff);
  }

  /** The stored last-seen time is at most the last use, and less than five minutes before it. */
  lemma {:induction false} StoredTimeLags(p: Policy, userId: string, created: int, steps: seq<Step>)
    requires Chronological(created, steps)
    ensures var s := Run(p, Created(p, userId, created), steps);
            var used := LastUse(p, Created(p, userId, created), created, steps);
            && s.lastSeen * SECOND <= used < s.lastSeen * SECOND + TOUCH_INTERVAL
            && created <= used && (steps != [] ==> used <= steps[|steps| - 1].Last())
            && s.expires == Seconds(created + p.ttl) && s.userId == userId
  {
    SecondsFacts(created);
    if steps != [] {
      var init, r := steps[..|steps| - 1], steps[|steps| - 1];
      StoredTimeLags(p, userId, created, init);
      SecondsFacts(r.Last());
      if init != [] {
        assert steps[|steps| - 2].Last() <= r.First();
      }
    }
  }

  // ---------------------------------------------------------------- the theorems

  /** Used again within the idle lifetime less five minutes, an unrevoked session is accepted until it expires. */
  lemma RecentUseIsAccepted(p: Policy, userId: string, created: int, steps: seq<Step>, r: Step)
    requires Chronological(created, steps + [r]) && r.Request? && r.proceeds
    requires var s := Run(p, Created(p, userId, created), steps);
             !s.revoked && Seconds(r.expiryAt) < s.expires
    requires r.idleAt - LastUse(p, Created(p, userId, created), created, steps) <= p.idleTtl - TOUCH_INTERVAL
    ensures Accepted(p, Run(p, Created(p, userId, created), steps), r)
  {
    ChronologicalInit(created, steps, r);
    StoredTimeLags(p, userId, created, steps);
    StoredAfterIff(Run(p, Created(p, userId, created), steps).lastSeen, r.idleAt - p.idleTtl);
  }

  lemma ChronologicalInit(created: int, steps: seq<Step>, r: Step)
    requires Chronological(created, steps + [r])
    ensures Chronological(created, steps) && r.Ordered() && created <= r.First()
    ensures forall i :: 0 <= i < |steps| ==> steps[i].Last() <= r.First()
  {
    var all := steps + [r];
    assert all[|steps|] == r;
    assert forall i :: 0 <= i < |steps| ==> all[i] == steps[i];
  }

  function PreviousUse(created: int, steps: seq<Step>, i: nat): int
    requires i <= |steps|
  {
    if i == 0 then created else steps[i - 1].Last()
  }

  /** Request i comes soon enough after the one before, and before the session expires. */
  predicate InTime(p: Policy, created: int, steps: seq<Step>, i: nat)
    requires i < |steps|
  {
    && steps[i].Request? && steps[i].proceeds
    && steps[i].idleAt - PreviousUse(created, steps, i) <= p.idleTtl - TOUCH_INTERVAL
    && Seconds(steps[i].expiryAt) < Seconds(created + p.ttl)
  }

  /** Gaps between consecutive authenticated requests that the idle lifetime tolerates. */
  ghost predicate Busy(p: Policy, created: int, steps: seq<Step>) {
    forall i :: 0 <= i < |steps| ==> InTime(p, created, steps, i)
  }

  lemma BusyInit(p: Policy, created: int, steps: seq<Step>)
    requires Busy(p, created, steps) && steps != []
    ensures Busy(p, created, steps[..|steps| - 1])
  {
    var init := steps[..|steps| - 1];
    forall i | 0 <= i < |init|
      ensures InTime(p, created, init, i)
    {
      assert InTime(p, created, steps, i);
    }
  }

  ghost predicate InUse(p: Policy, userId: string, created: int, steps: seq<Step>) {
    var s := Created(p, userId, created);
    && !Run(p, s, steps).revoked
    && LastUse(p, s, created, steps) == PreviousUse(created, steps, |steps|)
  }

  lemma {:induction false} NextRequestAccepted(p: Policy, userId: string, created: int, init: seq<Step>, r: Step)
    requires Chronological(created, init + [r]) && InUse(p, userId, created, init)
    requires InTime(p, created, init + [r], |init|)
    ensures Accepted(p, Run(p, Created(p, userId, created), init), r)
    ensures InUse(p, userId, created, init + [r])
  {
    var s := Created(p, userId, created);
    assert (init + [r])[..|init|] == init;
    assert PreviousUse(created, init + [r], |init|) == PreviousUse(created, init, |init|);
    ChronologicalInit(created, init, r);
    StoredTimeLags(p, userId, created, init);
    RecentUseIsAccepted(p, userId, created, init, r);
  }

  /** A session whose gaps are all at most the idle lifetime less five minutes is never refused before expiry. */
  lemma {:induction false} BusySessionStaysValid(p: Policy, userId: string, created: int, steps: seq<Step>)
    requires Chronological(created, steps) && Busy(p, created, steps)
    ensures forall i :: 0 <= i < |steps| ==> Accepted(p, Run(p, Created(p, userId, created), steps[..i]), steps[i])
    ensures InUse(p, userId, created, steps)
  {
    if steps != [] {
      var n := |steps| - 1;
      var init, r := steps[..n], steps[n];
      assert steps == init + [r];
      ChronologicalInit(created, init, r);
      BusyInit(p, created, steps);
      BusySessionStaysValid(p, userId, created, init);
      assert InTime(p, created, steps, n);
      NextRequestAccepted(p, userId, created, init, r);
      forall i | 0 <= i < n
        ensures Accepted(p, Run(p, Created(p, userId, created), steps[..i]), steps[i])
      {
        assert init[..i] == steps[..i] && init[i] == steps[i];
      }
    }
  }

  /** Once the session is revoked, expired, or idle for its idle lifetime, no request is accepted ever after. */
  ghost predicate Dead(p: Policy, s: Session, at: int) {
    s.revoked || s.expires <= Seconds(at) || s.lastSeen * SECOND <= at - p.idleTtl
  }

  lemma SilenceIsDeath(p: Policy, userId: string, created: int, steps: seq<Step>, at: int)
    requires Chronological(created, steps)
    requires at - LastUse(p, Created(p, userId, created), created, steps) >= p.idleTtl
    ensures Dead(p, Run(p, Created(p, userId, created), steps), at)
  {
    StoredTimeLags(p, userId, created, steps);
  }

  lemma {:induction false} DeadForEver(p: Policy, s: Session, at: int, steps: seq<Step>)
    requires Dead(p, s, at) && Chronological(at, steps)
    ensures forall i :: 0 <= i < |steps| ==> !Accepted(p, Run(p, s, steps[..i]), steps[i])
    ensures Dead(p, Run(p, s, steps), at)
  {
    if steps != [] {
      var n := |steps| - 1;
      var init, r := steps[..n], steps[n];
      DeadForEver(p, s, at, init);
      assert forall i :: 0 <= i < n ==> init[..i] == steps[..i];
      var v := Run(p, s, init);
      assert r.Ordered() && at <= r.First();
      if r.Request? {
        SecondsMonotone(at, r.expiryAt);
        StoredAfterIff(v.lastSeen, r.idleAt - p.idleTtl);
      }
    }
  }

  lemma {:induction false} RevokedStays(p: Policy, s: Session, steps: seq<Step>, i: nat)
    requires i < |steps| && steps[i].Revoke?
    ensures Run(p, s, steps).revoked
  {
    var n := |steps| - 1;
    if i < n {
      RevokedStays(p, s, steps[..n], i);
    }
  }

  /** After a revocation nothing is accepted, whatever came before and whatever lies between. */
  lemma RevokedIsRefused(p: Policy, s: Session, steps: seq<Step>, i: nat, j: nat)
    requires i < j < |steps| && steps[i].Revoke?
    ensures !Accepted(p, Run(p, s, steps[..j]), steps[j])
  {
    RevokedStays(p, s, steps[..j], i);
  }

  /** A session no step revokes, and that does not start revoked, is not revoked. */
  lemma {:induction false} OnlyRevocationRevokes(p: Policy, s: Session, steps: seq<Step>)
    requires !s.revoked && forall i :: 0 <= i < |steps| ==> steps[i].Request?
    ensures !Run(p, s, steps).revoked
  {
    if steps != [] {
      OnlyRevocationRevokes(p, s, steps[..|steps| - 1]);
    }
  }

  /** The stored time is written at most every five minutes: over any run it stays, or moves on by at least that much. */
  lemma {:induction false} WritesAreSparse(p: Policy, s: Session, steps: seq<Step>)
    ensures var last := Run(p, s, steps).lastSeen;
            last == s.lastSeen || last >= s.lastSeen + 300
  {
    if steps != [] {
      var init, r := steps[..|steps| - 1], steps[|steps| - 1];
      WritesAreSparse(p, s, init);
      SecondsFacts(r.Last());
    }
  }

  /** Requests turned away by a later check leave no trace. */
  lemma {:induction false} TurnedAwayLeaveNoTrace(p: Policy, s: Session, steps: seq<Step>)
    requires forall i :: 0 <= i < |steps| ==> steps[i].Request? && !steps[i].proceeds
    ensures Run(p, s, steps) == s
  {
    if steps != [] {
      TurnedAwayLeaveNoTrace(p, s, steps[..|steps| - 1]);
    }
  }

  predicate SameButRevoked(a: Session, b: Session) {
    a.userId == b.userId && a.expires == b.expires && a.lastSeen == b.lastSeen
  }

  // ---------------------------------------------------------------- the service

  class SessionService {
    const policy: Policy
    var sessions: map<string, Session>

    constructor (ttl: int, idleTtl: int)
      ensures policy == Policy(ttl, if idleTtl > 0 then idleTtl else 1800 * SECOND) && sessions == map[]
    {
      policy := Policy(ttl, if idleTtl > 0 then idleTtl else 1800 * SECOND);
      sessions := map[];
    }

    method CreateSession(hash: string, userId: string, now: int)
      modifies this
      ensures sessions == old(sessions)[hash := Created(policy, userId, now)]
    {
      sessions := sessions[hash := Session(userId, Seconds(now + policy.ttl), Seconds(now), false)];
    }

    method FindActive(hash: string, now: int, idleCutoff: int) returns (found: Option<Session>)
      ensures found == if hash in sessions && IsActive(sessions[hash], now, idleCutoff) then Some(sessions[hash]) else None
    {
      found := None;
      if hash in sessions {
        var s := sessions[hash];
        if s.expires > Seconds(now) && !s.revoked && s.lastSeen > Seconds(idleCutoff) {
          found := Some(s);
        }
      }
    }

    method TouchSession(hash: string, lastSeen: int, now: int)
      modifies this
      ensures sessions == if now - lastSeen * SECOND < TOUCH_INTERVAL || hash !in old(sessions) || old(sessions)[hash].revoked
                          then old(sessions)
                          else old(sessions)[hash := old(sessions)[hash].(lastSeen := Seconds(now))]
    {
      if now - lastSeen * SECOND < TOUCH_INTERVAL {
        return;
      }
      if hash in sessions && !sessions[hash].revoked {
        sessions := sessions[hash := sessions[hash].(lastSeen := Seconds(now))];
      }
    }

    /** authenticate on its session path, for a hash that may or may not exist. */
    method Authenticate(hash: string, r: Step) returns (ok: bool)
      requires r.Request?
      modifies this
      ensures ok <==> hash in old(sessions) && Accepted(policy, old(sessions)[hash], r)
      ensures sessions == if hash in old(sessions) then old(sessions)[hash := After(policy, old(sessions)[hash], r)]
                          else old(sessions)
    {
      var found := FindActive(hash, r.expiryAt, r.idleAt - policy.idleTtl);
      if found.None? || !r.proceeds {
        return false;
      }
      TouchSession(hash, found.value.lastSeen, r.touchAt);
      ok := true;
    }

    method RevokeSession(hash: string)
      modifies this
      ensures sessions.Keys == old(sessions).Keys
      ensures forall h :: h in sessions ==>
                && sessions[h].revoked == (old(sessions)[h].revoked || h == hash)
                && SameButRevoked(sessions[h], old(sessions)[h])
    {
      if hash in sessions {
        sessions := sessions[hash := sessions[hash].(revoked := true)];
      }
    }

    method RevokeAllForUser(userId: string)
      modifies this
      ensures sessions.Keys == old(sessions).Keys
      ensures forall h :: h in sessions ==>
                && sessions[h].revoked == (old(sessions)[h].revoked || old(sessions)[h].userId == userId)
                && SameButRevoked(sessions[h], old(sessions)[h])
    {
      sessions := map h | h in sessions :: if sessions[h].userId == userId then sessions[h].(revoked := true) else sessions[h];
    }
  }
}
