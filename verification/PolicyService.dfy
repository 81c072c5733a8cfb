/**
 The policy service's loops over rows: normalizing destinations, and rendering what a set of
 policies lets an agent reach.
 */
module PolicyService {
  import opened Prelude
  import opened Sorting
  import opened Text
  import opened CheckInRules
  import opened ControlPlane

  // ---------------------------------------------------------------- rendering a list of policies

  /** The destinations named by some of these records. */
  function Union(records: seq<Policy>): set<string> {
    set i, x | 0 <= i < |records| && x in CleanSet(records[i].destinations) :: x
  }

  lemma CleanSetAppend(s: seq<string>, t: seq<string>)
    ensures CleanSet(s + t) == CleanSet(s) + CleanSet(t)
  {
    forall x
      ensures x in CleanSet(s + t) <==> x in CleanSet(s) || x in CleanSet(t)
    {
      if x in CleanSet(s) {
        var i :| 0 <= i < |s| && TrimSpace(s[i]) != "" && TrimSpace(s[i]) == x;
        assert (s + t)[i] == s[i];
      }
      if x in CleanSet(t) {
        var i :| 0 <= i < |t| && TrimSpace(t[i]) != "" && TrimSpace(t[i]) == x;
        assert (s + t)[|s| + i] == t[i];
      }
      if x in CleanSet(s + t) {
        var i :| 0 <= i < |s + t| && TrimSpace((s + t)[i]) != "" && TrimSpace((s + t)[i]) == x;
        assert (s + t)[i] == if i < |s| then s[i] else t[i - |s|];
      }
    }
  }

  lemma UnionAppend(records: seq<Policy>, p: Policy)
    ensures Union(records + [p]) == Union(records) + CleanSet(p.destinations)
  {
    forall x
      ensures x in Union(records + [p]) <==> x in Union(records) || x in CleanSet(p.destinations)
    {
      if x in Union(records) {
        var i :| 0 <= i < |records| && x in CleanSet(records[i].destinations);
        assert (records + [p])[i] == records[i];
      }
      assert (records + [p])[|records|] == p;
      if x in Union(records + [p]) {
        var i :| 0 <= i < |records + [p]| && x in CleanSet((records + [p])[i].destinations);
        assert i < |records| ==> (records + [p])[i] == records[i];
      }
    }
  }

  /** renderAllowedIPsForPolicies with unionDestinations. */
  method RenderAllowedIPs(mode: TrafficMode, records: seq<Policy>) returns (out: seq<string>)
    ensures out == if mode == FullTunnel then ALL_TRAFFIC else SortedElements(Union(records))
  {
    if mode == FullTunnel {
      return ALL_TRAFFIC;
    }
    var union: seq<string> := [];
    for i := 0 to |records|
      invariant CleanSet(union) == Union(records[..i])
    {
      CleanSetAppend(union, records[i].destinations);
      UnionAppend(records[..i], records[i]);
      assert records[..i + 1] == records[..i] + [records[i]];
      union := union + records[i].destinations;
    }
    assert records[..|records|] == records;
    out := UniqueSorted(union);
  }

  /** effectiveTrafficMode. */
  method EffectiveTrafficMode(trafficOverride: Option<TrafficMode>, records: seq<Policy>) returns (mode: TrafficMode)
    ensures trafficOverride.Some? ==> mode == trafficOverride.value
    ensures trafficOverride.None? ==> (mode == FullTunnel <==> exists i :: 0 <= i < |records| && records[i].trafficMode == FullTunnel)
  {
    if trafficOverride.Some? {
      return trafficOverride.value;
    }
    for i := 0 to |records|
      invariant forall j :: 0 <= j < i ==> records[j].trafficMode != FullTunnel
    {
      if records[i].trafficMode == FullTunnel {
        return FullTunnel;
      }
    }
    mode := Standard;
  }

  /** The rows of a query, in an order of the database's choosing. */
  method Rows<T>(s: set<T>) returns (r: seq<T>)
    ensures NoDuplicates(r) && forall x :: x in r <==> x in s
  {
    r := [];
    var rest := s;
    while rest != {}
      invariant NoDuplicates(r) && rest <= s && forall x :: x in r <==> x in s - rest
      decreases |rest|
    {
      var x :| x in rest;
      assert x !in r;
      r := r + [x];
      rest := rest - {x};
    }
  }

  ghost predicate IsRecord(q: Policy, policies: map<PolicyId, Policy>, ids: set<PolicyId>) {
    exists p :: p in ids && p in policies && q == policies[p]
  }

  /** The records are those of the given ids. */
  ghost predicate RecordsOf(records: seq<Policy>, policies: map<PolicyId, Policy>, ids: set<PolicyId>) {
    && (forall i :: 0 <= i < |records| ==> IsRecord(records[i], policies, ids))
    && (forall p :: p in ids && p in policies ==> policies[p] in records)
  }

  method FindPolicies(policies: map<PolicyId, Policy>, ids: set<PolicyId>) returns (records: seq<Policy>)
    ensures RecordsOf(records, policies, ids)
  {
    var list := Rows(ids);
    records := [];
    for i := 0 to |list|
      invariant forall j :: 0 <= j < |records| ==> IsRecord(records[j], policies, ids)
      invariant forall j :: 0 <= j < i && list[j] in policies ==> policies[list[j]] in records
    {
      if list[i] in policies {
        assert list[i] in ids;
        assert IsRecord(policies[list[i]], policies, ids);
        records := records + [policies[list[i]]];
      }
    }
  }

  lemma RecordsRender(records: seq<Policy>, policies: map<PolicyId, Policy>, ids: set<PolicyId>)
    requires RecordsOf(records, policies, ids)
    ensures Union(records) == DestinationsOf(policies, ids)
    ensures (exists i :: 0 <= i < |records| && records[i].trafficMode == FullTunnel) <==> AnyFullTunnel(policies, ids)
  {
    forall x
      ensures x in Union(records) <==> x in DestinationsOf(policies, ids)
    {
      if x in Union(records) {
        var i :| 0 <= i < |records| && x in CleanSet(records[i].destinations);
        assert IsRecord(records[i], policies, ids);
      }
      if x in DestinationsOf(policies, ids) {
        var p :| p in ids && p in policies && x in CleanSet(policies[p].destinations);
        assert policies[p] in records;
      }
    }
  }

  /** What a set of policies under an override gives, computed from their rows. */
  method Render(trafficOverride: Option<TrafficMode>, policies: map<PolicyId, Policy>, ids: set<PolicyId>) returns (out: seq<string>)
    ensures out == Rendering(trafficOverride, policies, ids)
  {
    var records := FindPolicies(policies, ids);
    RecordsRender(records, policies, ids);
    var mode := EffectiveTrafficMode(trafficOverride, records);
    out := RenderAllowedIPs(mode, records);
  }

  /** normalizeDestinations. */
  method NormalizeDestinations(s: Settings, raw: seq<string>) returns (out: Option<seq<string>>)
    ensures var nets := NormalizedDestinations(s, raw);
            out == if nets.Some? then Some(SortedElements(nets.value)) else None
  {
    var list: seq<string> := [];
    for i := 0 to |raw|
      invariant forall j :: 0 <= j < i && TrimSpace(raw[j]) != "" ==> s.canonicalCidr(TrimSpace(raw[j])).Some?
      invariant CleanSet(list) == CleanNets(s, raw[..i])
    {
      var cidr := TrimSpace(raw[i]);
      CleanNetsGrow(s, raw, i);
      if cidr == "" {
        continue;
      }
      var network := s.canonicalCidr(cidr);
      if network.None? {
        return None;
      }
      CleanSetAppend(list, [network.value]);
      CleanSetOne(network.value);
      list := list + [network.value];
    }
    assert raw[..|raw|] == raw;
    var unique := UniqueSorted(list);
    assert unique == [] <==> CleanSet(list) == {} by {
      if unique == [] {
        assert forall x :: x !in CleanSet(list);
      } else {
        assert unique[0] in CleanSet(list);
      }
    }
    out := if unique == [] then None else Some(unique);
  }

  lemma CleanSetOne(x: string)
    ensures CleanSet([x]) == if TrimSpace(x) != "" then {TrimSpace(x)} else {}
  {
    if TrimSpace(x) != "" {
      assert [x][0] == x;
      assert TrimSpace(x) in CleanSet([x]);
    }
  }

  lemma CleanNetsGrow(s: Settings, raw: seq<string>, i: nat)
    requires i < |raw|
    ensures CleanNets(s, raw[..i + 1]) == CleanNets(s, raw[..i]) + NetOf(s, raw[i])
  {
    var now, before := raw[..i + 1], raw[..i];
    assert now[i] == raw[i];
    forall x
      ensures x in CleanNets(s, now) <==> x in CleanNets(s, before) || x in NetOf(s, raw[i])
    {
      if x in CleanNets(s, now) {
        var j :| 0 <= j < |now| && x in NetOf(s, now[j]);
        assert j < i ==> before[j] == now[j];
      }
      if x in CleanNets(s, before) {
        var j :| 0 <= j < |before| && x in NetOf(s, before[j]);
        assert now[j] == before[j];
      }
    }
  }
}
