/**
 The configuration fingerprint both sides compare to decide whether an agent must rewrite
 its WireGuard configuration. The digest is a parameter that is injective and never empty.
 */
module Fingerprint {
  import opened Prelude
  import opened Sorting
  import opened CheckInRules
  import opened Text

  datatype WireGuardConfig = WireGuardConfig(
    interfaceAddress: string,
    serverEndpoint: string,
    serverPublicKey: string,
    allowedIPs: seq<string>,
    dnsServers: seq<string>,
    dnsSearchDomains: seq<string>)

  // ---------------------------------------------------------------- the computation

  function Join(parts: seq<string>, sep: char): string {
    if parts == [] then ""
    else if |parts| == 1 then parts[0]
    else parts[0] + [sep] + Join(parts[1..], sep)
  }

  function Parts(c: WireGuardConfig): seq<string> {
    [TrimSpace(c.interfaceAddress), TrimSpace(c.serverEndpoint), TrimSpace(c.serverPublicKey),
     Join(SortStrings(c.allowedIPs), ','), Join(SortStrings(c.dnsServers), ','), Join(SortStrings(c.dnsSearchDomains), ',')]
  }

  /** The text that is hashed. */
  function Preimage(c: WireGuardConfig): string {
    Join(Parts(c), '\n')
  }

  function FingerprintOf(digest: string -> string, c: WireGuardConfig): string {
    if TrimSpace(c.interfaceAddress) == "" || TrimSpace(c.serverPublicKey) == "" || c.allowedIPs == [] then ""
    else digest(Preimage(c))
  }

  // ---------------------------------------------------------------- what it identifies

  ghost predicate Without(s: string, c: char) {
    forall i :: 0 <= i < |s| ==> s[i] != c
  }

  ghost predicate CleanList(parts: seq<string>) {
    forall i :: 0 <= i < |parts| ==> parts[i] != "" && Without(parts[i], ',') && Without(parts[i], '\n')
  }

  ghost predicate CleanField(s: string) {
    TrimSpace(s) == s && Without(s, '\n')
  }

  /** Trimmed fields and non-empty list entries, free of the separators. */
  ghost predicate Clean(c: WireGuardConfig) {
    && CleanField(c.interfaceAddress) && CleanField(c.serverEndpoint) && CleanField(c.serverPublicKey)
    && CleanList(c.allowedIPs) && CleanList(c.dnsServers) && CleanList(c.dnsSearchDomains)
  }

  /** A configuration the server can send: the fields the fingerprint insists on are there. */
  predicate Usable(c: WireGuardConfig) {
    c.interfaceAddress != "" && c.serverPublicKey != "" && c.allowedIPs != []
  }

  /** Equal but for the order of the three lists. */
  ghost predicate SameUpToOrder(a: WireGuardConfig, b: WireGuardConfig) {
    && a.interfaceAddress == b.interfaceAddress && a.serverEndpoint == b.serverEndpoint && a.serverPublicKey == b.serverPublicKey
    && multiset(a.allowedIPs) == multiset(b.allowedIPs)
    && multiset(a.dnsServers) == multiset(b.dnsServers)
    && multiset(a.dnsSearchDomains) == multiset(b.dnsSearchDomains)
  }

  /** The first separator decides where a joined text splits. */
  lemma FirstSeparator(a: string, x: string, b: string, y: string, sep: char)
    requires Without(a, sep) && Without(b, sep)
    requires a + [sep] + x == b + [sep] + y
    ensures a == b && x == y
  {
    var s, t := a + [sep] + x, b + [sep] + y;
    assert s[|a|] == sep && t[|b|] == sep;
    assert forall k :: 0 <= k < |a| ==> s[k] == a[k];
    assert forall k :: 0 <= k < |b| ==> t[k] == b[k];
    assert |a| == |b|;
    assert a == s[..|a|] && b == t[..|b|];
    assert x == s[|a| + 1..] && y == t[|b| + 1..];
  }

  /** Joining non-empty parts free of the separator loses nothing. */
  lemma {:induction false} JoinInjective(a: seq<string>, b: seq<string>, sep: char)
    requires forall i :: 0 <= i < |a| ==> a[i] != "" && Without(a[i], sep)
    requires forall i :: 0 <= i < |b| ==> b[i] != "" && Without(b[i], sep)
    requires Join(a, sep) == Join(b, sep)
    ensures a == b
  {
    if a == [] || b == [] {
      JoinEmpty(a, sep);
      JoinEmpty(b, sep);
    } else if |a| == 1 && |b| == 1 {
    } else if |a| == 1 {
      SeparatorInside(b, sep);
      assert false;
    } else if |b| == 1 {
      SeparatorInside(a, sep);
      assert false;
    } else {
      FirstSeparator(a[0], Join(a[1..], sep), b[0], Join(b[1..], sep), sep);
      JoinInjective(a[1..], b[1..], sep);
      assert a == [a[0]] + a[1..] && b == [b[0]] + b[1..];
    }
  }

  lemma JoinEmpty(a: seq<string>, sep: char)
    requires forall i :: 0 <= i < |a| ==> a[i] != ""
    ensures Join(a, sep) == "" <==> a == []
  {
  }

  lemma SeparatorInside(a: seq<string>, sep: char)
    requires |a| >= 2
    ensures !Without(Join(a, sep), sep)
  {
    assert Join(a, sep)[|a[0]|] == sep;
  }

  lemma {:induction false} JoinWithout(parts: seq<string>, sep: char, c: char)
    requires sep != c && forall i :: 0 <= i < |parts| ==> Without(parts[i], c)
    ensures Without(Join(parts, sep), c)
  {
    if |parts| > 1 {
      JoinWithout(parts[1..], sep, c);
    }
  }

  lemma SortKeepsClean(parts: seq<string>)
    requires CleanList(parts)
    ensures CleanList(SortStrings(parts))
  {
    SortStringsCorrect(parts);
    SameElements(parts, SortStrings(parts));
    forall i | 0 <= i < |SortStrings(parts)|
      ensures SortStrings(parts)[i] in parts
    {
      assert SortStrings(parts)[i] in SortStrings(parts);
    }
  }

  /** The joined sorted list identifies the list up to order, and has no newline. */
  lemma ListText(a: seq<string>, b: seq<string>)
    requires CleanList(a) && CleanList(b)
    ensures Without(Join(SortStrings(a), ','), '\n')
    ensures Join(SortStrings(a), ',') == Join(SortStrings(b), ',') <==> multiset(a) == multiset(b)
  {
    SortKeepsClean(a);
    SortKeepsClean(b);
    JoinWithout(SortStrings(a), ',', '\n');
    SortStringsCanonical(a, b);
    if Join(SortStrings(a), ',') == Join(SortStrings(b), ',') {
      JoinInjective(SortStrings(a), SortStrings(b), ',');
    }
  }

  /** Equally many parts free of the separator, joined, can be told apart even when some are empty. */
  lemma {:induction false} PartsInjective(p: seq<string>, q: seq<string>, sep: char)
    requires |p| == |q| > 0
    requires forall i :: 0 <= i < |p| ==> Without(p[i], sep) && Without(q[i], sep)
    requires Join(p, sep) == Join(q, sep)
    ensures p == q
  {
    if |p| > 1 {
      FirstSeparator(p[0], Join(p[1..], sep), q[0], Join(q[1..], sep), sep);
      PartsInjective(p[1..], q[1..], sep);
      assert p == [p[0]] + p[1..] && q == [q[0]] + q[1..];
    }
  }

  lemma CleanParts(c: WireGuardConfig)
    requires Clean(c)
    ensures |Parts(c)| == 6 && forall i :: 0 <= i < 6 ==> Without(Parts(c)[i], '\n')
  {
    ListText(c.allowedIPs, c.allowedIPs);
    ListText(c.dnsServers, c.dnsServers);
    ListText(c.dnsSearchDomains, c.dnsSearchDomains);
  }

  lemma PartsIdentify(a: WireGuardConfig, b: WireGuardConfig)
    requires Clean(a) && Clean(b)
    ensures Parts(a) == Parts(b) <==> SameUpToOrder(a, b)
  {
    var p, q := Parts(a), Parts(b);
    assert p == q <==> p[0] == q[0] && p[1] == q[1] && p[2] == q[2] && p[3] == q[3] && p[4] == q[4] && p[5] == q[5];
    ListText(a.allowedIPs, b.allowedIPs);
    ListText(a.dnsServers, b.dnsServers);
    ListText(a.dnsSearchDomains, b.dnsSearchDomains);
  }

  /** Two clean, usable configurations have the same fingerprint exactly when they differ in list order only. */
  lemma FingerprintIdentifies(digest: string -> string, a: WireGuardConfig, b: WireGuardConfig)
    requires GoodDigest(digest) && Clean(a) && Clean(b) && Usable(a) && Usable(b)
    ensures FingerprintOf(digest, a) == FingerprintOf(digest, b) <==> SameUpToOrder(a, b)
  {
    CleanParts(a);
    CleanParts(b);
    PartsIdentify(a, b);
    if FingerprintOf(digest, a) == FingerprintOf(digest, b) {
      assert digest(Preimage(a)) == digest(Preimage(b));
      PartsInjective(Parts(a), Parts(b), '\n');
    }
  }

  /** White space around the three fields does not count. */
  lemma BlanksDoNotCount(digest: string -> string, c: WireGuardConfig)
    ensures FingerprintOf(digest, c)
            == FingerprintOf(digest, c.(interfaceAddress := TrimSpace(c.interfaceAddress),
                                        serverEndpoint := TrimSpace(c.serverEndpoint),
                                        serverPublicKey := TrimSpace(c.serverPublicKey)))
  {
    TrimIsIdempotent(c.interfaceAddress);
    TrimIsIdempotent(c.serverEndpoint);
    TrimIsIdempotent(c.serverPublicKey);
  }

  /** The hashed text: six lines in this order, the lists sorted and separated by commas. */
  lemma PreimageLines(c: WireGuardConfig)
    ensures Preimage(c)
            == TrimSpace(c.interfaceAddress) + "\n" + TrimSpace(c.serverEndpoint) + "\n" + TrimSpace(c.serverPublicKey) + "\n"
               + Join(SortStrings(c.allowedIPs), ',') + "\n" + Join(SortStrings(c.dnsServers), ',') + "\n"
               + Join(SortStrings(c.dnsSearchDomains), ',')
  {
    var p := Parts(c);
    assert |p| == 6;
    LinesOfSix(p[0], p[1], p[2], p[3], p[4], p[5]);
    assert p == [p[0], p[1], p[2], p[3], p[4], p[5]];
  }

  lemma LinesOfSix(a: string, b: string, c: string, d: string, e: string, f: string)
    ensures Join([a, b, c, d, e, f], '\n') == a + "\n" + b + "\n" + c + "\n" + d + "\n" + e + "\n" + f
  {
    assert [a, b, c, d, e, f][1..] == [b, c, d, e, f] && [b, c, d, e, f][1..] == [c, d, e, f];
    assert [c, d, e, f][1..] == [d, e, f] && [d, e, f][1..] == [e, f] && [e, f][1..] == [f];
    assert Join([e, f], '\n') == e + "\n" + f;
    assert Join([d, e, f], '\n') == d + "\n" + (e + "\n" + f);
    assert Join([c, d, e, f], '\n') == c + "\n" + (d + "\n" + (e + "\n" + f));
    assert Join([b, c, d, e, f], '\n') == b + "\n" + (c + "\n" + (d + "\n" + (e + "\n" + f)));
  }

  lemma UsableUpToOrder(a: WireGuardConfig, b: WireGuardConfig)
    requires SameUpToOrder(a, b)
    ensures Usable(a) <==> Usable(b)
  {
    assert a.allowedIPs != [] ==> a.allowedIPs[0] in multiset(b.allowedIPs);
    assert b.allowedIPs != [] ==> b.allowedIPs[0] in multiset(a.allowedIPs);
  }

  /**
   An active peer of an agent that is not disabled, reporting that it applied a configuration,
   is told to reconfigure exactly when the desired one is usable and differs from it beyond
   list order. So a change that leaves the desired one without an allowed address, an interface
   address or a server key never reaches the agent.
   */
  lemma ReconfigureIffDifferent(digest: string -> string, agent: AgentStatus, applied: WireGuardConfig, desired: WireGuardConfig)
    requires GoodDigest(digest) && Clean(applied) && Clean(desired) && agent != AgentDisabled
    ensures RequiresReconfigure(agent, Active, FingerprintOf(digest, desired),
                                LocalState(FingerprintOf(digest, applied), Applied))
            <==> Usable(desired) && !SameUpToOrder(applied, desired)
  {
    if Usable(desired) {
      assert digest(Preimage(desired)) != "";
      if Usable(applied) {
        FingerprintIdentifies(digest, applied, desired);
      } else if SameUpToOrder(applied, desired) {
        UsableUpToOrder(applied, desired);
      }
    }
  }

  /** Losing the last allowed address is such a change. */
  lemma RevokedAccessIsNotReported(digest: string -> string, agent: AgentStatus, applied: WireGuardConfig, desired: WireGuardConfig)
    requires GoodDigest(digest) && Clean(applied) && Clean(desired) && agent != AgentDisabled
    requires applied.allowedIPs != [] && desired == applied.(allowedIPs := [])
    ensures !SameUpToOrder(applied, desired)
    ensures !RequiresReconfigure(agent, Active, FingerprintOf(digest, desired),
                                 LocalState(FingerprintOf(digest, applied), Applied))
  {
    assert applied.allowedIPs[0] in multiset(applied.allowedIPs);
    ReconfigureIffDifferent(digest, agent, applied, desired);
  }
}
