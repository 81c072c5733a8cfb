/**
 The hash chain that Record builds over the audit log. The digest and the JSON encoding are
 parameters: the digest is injective and prints hexadecimal digits, the encoding is
 injective and starts with an opening brace.
 */
module HashChain {
  import opened Prelude
  import opened Sorting
  import opened AuditLog

  predicate HexDigit(c: char) {
    '0' <= c <= '9' || 'a' <= c <= 'f'
  }

  ghost predicate Hex(s: string) {
    forall i :: 0 <= i < |s| ==> HexDigit(s[i])
  }

  ghost predicate HexDigest(digest: string -> string) {
    GoodDigest(digest) && forall x: string :: Hex(digest(x))
  }

  ghost predicate GoodEncoding(encode: Fields -> string) {
    && (forall f: Fields :: encode(f) != "" && encode(f)[0] == '{')
    && (forall f: Fields, g: Fields :: encode(f) == encode(g) ==> f == g)
  }

  /** computeEventHash: the digest of the previous hash followed by the encoded fields. */
  function EventHash(digest: string -> string, encode: Fields -> string, f: Fields, prevHash: string): string {
    digest(prevHash + encode(f))
  }

  /** Since no hexadecimal digit is a brace, the hashed text splits in one way only. */
  lemma SplitIsUnambiguous(p: string, x: string, q: string, y: string)
    requires Hex(p) && Hex(q) && x != "" && y != "" && x[0] == '{' && y[0] == '{'
    requires p + x == q + y
    ensures p == q && x == y
  {
    assert (p + x)[|p|] == '{' && (q + y)[|q|] == '{';
    assert forall k :: 0 <= k < |q| ==> HexDigit((q + y)[k]);
    assert forall k :: 0 <= k < |p| ==> HexDigit((p + x)[k]);
    assert |p| == |q|;
    assert p == (p + x)[..|p|] && q == (q + y)[..|q|];
    assert x == (p + x)[|p|..] && y == (q + y)[|q|..];
  }

  lemma HashDeterminesEvent(digest: string -> string, encode: Fields -> string, f: Fields, p: string, g: Fields, q: string)
    requires HexDigest(digest) && GoodEncoding(encode) && Hex(p) && Hex(q)
    requires EventHash(digest, encode, f, p) == EventHash(digest, encode, g, q)
    ensures f == g && p == q
  {
    SplitIsUnambiguous(p, encode(f), q, encode(g));
  }

  // ---------------------------------------------------------------- recording

  predicate Later(a: Fields, b: Fields) {
    a.at > b.at || (a.at == b.at && a.id != b.id && StringLeq(b.id, a.id))
  }

  /** The row with the greatest (created_at, id) among those that carry a hash, in a non-empty table. */
  function LatestRow(log: seq<Event>): Option<Event> {
    if log == [] then None
    else
      var e := log[|log| - 1];
      var rest := LatestRow(log[..|log| - 1]);
      if e.eventHash == "" then rest
      else if rest.None? || Later(e.fields, rest.value.fields) then Some(e)
      else rest
  }

  function LatestHash(log: seq<Event>): string {
    var row := LatestRow(log);
    if row.None? then "" else row.value.eventHash
  }

  function Recorded(digest: string -> string, encode: Fields -> string, log: seq<Event>, f: Fields): seq<Event> {
    var prev := LatestHash(log);
    log + [Event(f, prev, EventHash(digest, encode, f, prev))]
  }

  /** The log after recording the given events in this order. */
  function Build(digest: string -> string, encode: Fields -> string, fs: seq<Fields>): seq<Event> {
    if fs == [] then [] else Recorded(digest, encode, Build(digest, encode, fs[..|fs| - 1]), fs[|fs| - 1])
  }

  /** a is older than b, or as old with a smaller id or the same. */
  predicate NotNewer(a: Fields, b: Fields) {
    a.at < b.at || (a.at == b.at && StringLeq(a.id, b.id))
  }

  /** Every other row with a hash is older, or as old with a smaller id or the same. */
  ghost predicate Newest(log: seq<Event>, i: nat)
    requires i < |log|
  {
    forall j :: 0 <= j < |log| && log[j].eventHash != "" ==> NotNewer(log[j].fields, log[i].fields)
  }

  lemma {:induction false} LatestIsNewest(log: seq<Event>)
    ensures LatestRow(log).None? ==> forall i :: 0 <= i < |log| ==> log[i].eventHash == ""
    ensures LatestRow(log).Some? ==>
              exists i :: 0 <= i < |log| && log[i] == LatestRow(log).value && log[i].eventHash != "" && Newest(log, i)
  {
    if log != [] {
      var n := |log| - 1;
      var init, e, rest := log[..n], log[n], LatestRow(log[..n]);
      LatestIsNewest(init);
      if e.eventHash != "" && (rest.None? || Later(e.fields, rest.value.fields)) {
        StringLeqTotal(e.fields.id, e.fields.id);
        forall j | 0 <= j < n && log[j].eventHash != ""
          ensures NotNewer(log[j].fields, e.fields)
        {
          assert log[j] == init[j];
          if rest.Some? {
            var i :| 0 <= i < n && init[i] == rest.value && Newest(init, i);
            NotNewerThrough(log[j].fields, rest.value.fields, e.fields);
          }
        }
        assert Newest(log, n);
      } else if rest.Some? {
        var i :| 0 <= i < n && init[i] == rest.value && init[i].eventHash != "" && Newest(init, i);
        if e.eventHash != "" {
          StringLeqTotal(e.fields.id, rest.value.fields.id);
        }
        assert forall j :: 0 <= j < n ==> log[j] == init[j];
        assert Newest(log, i);
      }
    }
  }

  lemma NotNewerThrough(a: Fields, b: Fields, c: Fields)
    requires NotNewer(a, b) && Later(c, b)
    ensures NotNewer(a, c)
  {
    if a.at == b.at == c.at {
      StringLeqTransitive(a.id, b.id, c.id);
    }
  }

  /** The service's append: LatestHash, then the insert, under one lock. */
  class AuditService {
    const digest: string -> string
    const encode: Fields -> string
    var log: seq<Event>

    constructor (digest: string -> string, encode: Fields -> string)
      ensures this.digest == digest && this.encode == encode && log == []
    {
      this.digest, this.encode, log := digest, encode, [];
    }

    /** The hash of the row that comes first by descending time and id among those with a hash. */
    method FindLatestHash() returns (hash: string)
      ensures hash == LatestHash(log)
      ensures hash == "" ==> forall i :: 0 <= i < |log| ==> log[i].eventHash == ""
      ensures hash != "" ==> exists i :: 0 <= i < |log| && log[i].eventHash == hash && Newest(log, i)
    {
      var latest: Option<Event> := None;
      for i := 0 to |log|
        invariant latest == LatestRow(log[..i])
      {
        assert log[..i + 1][..i] == log[..i];
        if log[i].eventHash != "" && (latest.None? || Later(log[i].fields, latest.value.fields)) {
          latest := Some(log[i]);
        }
      }
      assert log[..|log|] == log;
      hash := if latest.None? then "" else latest.value.eventHash;
      LatestIsNewest(log);
    }

    method Record(f: Fields)
      modifies this`log
      ensures log == Recorded(digest, encode, old(log), f)
    {
      var prev := FindLatestHash();
      log := log + [Event(f, prev, digest(prev + encode(f)))];
    }
  }

  // ---------------------------------------------------------------- the chain

  /** Event i names the hash of the one before it and carries its own. */
  predicate Linked(digest: string -> string, encode: Fields -> string, log: seq<Event>, i: nat)
    requires i < |log|
  {
    && log[i].prevHash == (if i == 0 then "" else log[i - 1].eventHash)
    && log[i].eventHash == EventHash(digest, encode, log[i].fields, log[i].prevHash)
  }

  ghost predicate ValidChain(digest: string -> string, encode: Fields -> string, log: seq<Event>) {
    forall i :: 0 <= i < |log| ==> Linked(digest, encode, log, i)
  }

  lemma ChainPrefix(digest: string -> string, encode: Fields -> string, log: seq<Event>, n: nat)
    requires ValidChain(digest, encode, log) && n <= |log|
    ensures ValidChain(digest, encode, log[..n])
  {
    forall i | 0 <= i < n
      ensures Linked(digest, encode, log[..n], i)
    {
      assert Linked(digest, encode, log, i);
    }
  }

  lemma ChainHashesAreHex(digest: string -> string, encode: Fields -> string, log: seq<Event>, i: nat)
    requires HexDigest(digest) && ValidChain(digest, encode, log) && i < |log|
    ensures Hex(log[i].prevHash)
  {
    assert Linked(digest, encode, log, i);
    if i > 0 {
      assert Linked(digest, encode, log, i - 1);
      var hashed := log[i - 1].prevHash + encode(log[i - 1].fields);
      assert log[i].prevHash == digest(hashed) && Hex(digest(hashed));
    }
  }

  function LastHash(log: seq<Event>): string {
    if log == [] then "" else log[|log| - 1].eventHash
  }

  lemma LastHashEmpty(digest: string -> string, encode: Fields -> string, log: seq<Event>)
    requires HexDigest(digest) && ValidChain(digest, encode, log)
    ensures LastHash(log) == "" <==> log == []
  {
    if log != [] {
      var last := log[|log| - 1];
      assert Linked(digest, encode, log, |log| - 1);
      assert last.eventHash == digest(last.prevHash + encode(last.fields));
    }
  }

  /** Tampering shows: two valid chains that end in the same hash are the same log. */
  lemma {:induction false} LastHashDeterminesLog(digest: string -> string, encode: Fields -> string, a: seq<Event>, b: seq<Event>)
    requires HexDigest(digest) && GoodEncoding(encode)
    requires ValidChain(digest, encode, a) && ValidChain(digest, encode, b)
    requires LastHash(a) == LastHash(b)
    ensures a == b
  {
    LastHashEmpty(digest, encode, a);
    LastHashEmpty(digest, encode, b);
    if a != [] && b != [] {
      var i, j := |a| - 1, |b| - 1;
      ChainHashesAreHex(digest, encode, a, i);
      ChainHashesAreHex(digest, encode, b, j);
      assert Linked(digest, encode, a, i) && Linked(digest, encode, b, j);
      HashDeterminesEvent(digest, encode, a[i].fields, a[i].prevHash, b[j].fields, b[j].prevHash);
      ChainPrefix(digest, encode, a, i);
      ChainPrefix(digest, encode, b, j);
      LastHashDeterminesLog(digest, encode, a[..i], b[..j]);
      assert a == a[..i] + [a[i]] && b == b[..j] + [b[j]];
    }
  }

  /** Each event but possibly the last is later than all before it. */
  ghost predicate InOrder(fs: seq<Fields>) {
    forall i, j :: 0 <= i < j < |fs| ==> Later(fs[j], fs[i])
  }

  function ButLast(fs: seq<Fields>): seq<Fields> {
    if fs == [] then fs else fs[..|fs| - 1]
  }

  /** The last of these is later than all the others. */
  ghost predicate EndsLatest(fs: seq<Fields>) {
    forall i :: 0 <= i < |fs| - 1 ==> Later(fs[|fs| - 1], fs[i])
  }

  ghost predicate DistinctIds(fs: seq<Fields>) {
    forall i, j :: 0 <= i < j < |fs| ==> fs[i].id != fs[j].id
  }

  /** In a log whose events all have hashes the latest row is one of them. */
  lemma {:induction false} LatestIsRow(log: seq<Event>)
    requires forall i :: 0 <= i < |log| ==> log[i].eventHash != ""
    ensures log != [] ==> LatestRow(log).Some? && LatestRow(log).value in log
  {
    if log != [] {
      LatestIsRow(log[..|log| - 1]);
      assert forall e :: e in log[..|log| - 1] ==> e in log;
    }
  }

  /** The event says what was recorded, and its hash covers that and a hexadecimal previous hash. */
  ghost predicate WellRecorded(digest: string -> string, encode: Fields -> string, e: Event, f: Fields) {
    && e.fields == f && e.eventHash != "" && Hex(e.prevHash)
    && e.eventHash == EventHash(digest, encode, f, e.prevHash)
  }

  /** The latest hash of a log of good events is hexadecimal, empty for an empty log. */
  lemma LatestHashIsHex(digest: string -> string, encode: Fields -> string, log: seq<Event>, fs: seq<Fields>)
    requires HexDigest(digest) && |log| == |fs| && forall i :: 0 <= i < |fs| ==> WellRecorded(digest, encode, log[i], fs[i])
    ensures Hex(LatestHash(log))
  {
    LatestIsRow(log);
    if log != [] {
      var i := IndexOf(log, LatestRow(log).value);
      assert WellRecorded(digest, encode, log[i], fs[i]);
      assert Hex(digest(log[i].prevHash + encode(fs[i])));
    }
  }

  lemma {:induction false} BuildEach(digest: string -> string, encode: Fields -> string, fs: seq<Fields>)
    requires HexDigest(digest)
    ensures var log := Build(digest, encode, fs);
            |log| == |fs| && forall i :: 0 <= i < |fs| ==> WellRecorded(digest, encode, log[i], fs[i])
  {
    if fs != [] {
      var n := |fs| - 1;
      var before := Build(digest, encode, fs[..n]);
      BuildEach(digest, encode, fs[..n]);
      LatestHashIsHex(digest, encode, before, fs[..n]);
      var prev := LatestHash(before);
      assert Build(digest, encode, fs) == before + [Event(fs[n], prev, EventHash(digest, encode, fs[n], prev))];
      assert digest(prev + encode(fs[n])) != "";
    }
  }

  lemma BuildFields(digest: string -> string, encode: Fields -> string, fs: seq<Fields>)
    requires HexDigest(digest)
    ensures var log := Build(digest, encode, fs);
            && |log| == |fs|
            && (forall i :: 0 <= i < |fs| ==> WellRecorded(digest, encode, log[i], fs[i]))
            && (log != [] ==> LatestRow(log).Some? && LatestRow(log).value in log)
            && (log == [] ==> LatestRow(log).None?)
  {
    BuildEach(digest, encode, fs);
    var log := Build(digest, encode, fs);
    forall i | 0 <= i < |log|
      ensures log[i].eventHash != ""
    {
      assert WellRecorded(digest, encode, log[i], fs[i]);
    }
    LatestIsRow(log);
  }

  lemma {:induction false} BuildLength(digest: string -> string, encode: Fields -> string, fs: seq<Fields>)
    ensures |Build(digest, encode, fs)| == |fs|
  {
    if fs != [] {
      BuildLength(digest, encode, fs[..|fs| - 1]);
    }
  }

  lemma {:induction false} BuildPrefix(digest: string -> string, encode: Fields -> string, fs: seq<Fields>, n: nat)
    requires n <= |fs|
    ensures |Build(digest, encode, fs)| == |fs| && Build(digest, encode, fs)[..n] == Build(digest, encode, fs[..n])
    decreases |fs|
  {
    BuildLength(digest, encode, fs);
    if n < |fs| {
      var m := |fs| - 1;
      BuildPrefix(digest, encode, fs[..m], n);
      assert fs[..m][..n] == fs[..n];
      assert Build(digest, encode, fs)[..n] == Build(digest, encode, fs[..m])[..n];
    } else {
      assert fs[..n] == fs;
    }
  }

  lemma LaterFacts(a: Fields, b: Fields, c: Fields)
    ensures !(Later(a, b) && Later(b, a))
    ensures Later(a, b) && Later(b, c) ==> Later(a, c)
    ensures a.id != b.id ==> Later(a, b) || Later(b, a)
  {
    StringLeqTotal(a.id, b.id);
    if a.at == b.at && StringLeq(a.id, b.id) && StringLeq(b.id, a.id) {
      StringLeqAntisymmetric(a.id, b.id);
    }
    if Later(a, b) && Later(b, c) && a.at == c.at {
      StringLeqTransitive(c.id, b.id, a.id);
      if a.id == c.id {
        StringLeqAntisymmetric(a.id, b.id);
      }
    }
  }

  /** The latest row is at or after every row. */
  lemma {:induction false} LatestIsGreatest(log: seq<Event>, i: nat)
    requires i < |log| && forall k :: 0 <= k < |log| ==> log[k].eventHash != ""
    ensures LatestRow(log).Some?
    ensures !Later(log[i].fields, LatestRow(log).value.fields)
    decreases |log|
  {
    var n := |log| - 1;
    var rest := LatestRow(log[..n]);
    if i < n {
      LatestIsGreatest(log[..n], i);
      LaterFacts(log[i].fields, log[n].fields, rest.value.fields);
      LaterFacts(log[n].fields, rest.value.fields, log[i].fields);
    } else {
      LaterFacts(log[n].fields, log[n].fields, log[n].fields);
    }
  }

  lemma IndexOf(log: seq<Event>, e: Event) returns (i: nat)
    requires e in log
    ensures i < |log| && log[i] == e
  {
    i :| i < |log| && log[i] == e;
  }

  lemma {:induction false} LastIsLatestIff(digest: string -> string, encode: Fields -> string, fs: seq<Fields>)
    requires HexDigest(digest) && GoodEncoding(encode) && DistinctIds(fs) && fs != []
    ensures var log := Build(digest, encode, fs);
            && |log| == |fs|
            && (LatestHash(log) == log[|log| - 1].eventHash
                <==> EndsLatest(fs))
  {
    var log := Build(digest, encode, fs);
    var n := |fs| - 1;
    BuildFields(digest, encode, fs);
    var last, top := log[n], LatestRow(log).value;
    var t := IndexOf(log, top);
    LatestIsGreatest(log, n);
    if LatestHash(log) == last.eventHash {
      HashDeterminesEvent(digest, encode, fs[t], top.prevHash, fs[n], last.prevHash);
      forall i | 0 <= i < n
        ensures Later(fs[n], fs[i])
      {
        LatestIsGreatest(log, i);
        LaterFacts(fs[n], fs[i], fs[i]);
      }
    }
  }

  /** An event is linked exactly when the one before it was the latest so far. */
  lemma LinkedIff(digest: string -> string, encode: Fields -> string, fs: seq<Fields>, i: nat)
    requires HexDigest(digest) && GoodEncoding(encode) && DistinctIds(fs) && i < |fs|
    ensures |Build(digest, encode, fs)| == |fs|
    ensures Linked(digest, encode, Build(digest, encode, fs), i) <==> i == 0 || EndsLatest(fs[..i])
  {
    var before := fs[..i];
    BuildPrefix(digest, encode, fs, i);
    PrevIsLatest(digest, encode, fs, i);
    if before != [] {
      LastIsLatestIff(digest, encode, before);
    }
    BuildFields(digest, encode, fs);
  }

  lemma PrefixesEndLatest(fs: seq<Fields>)
    ensures InOrder(ButLast(fs)) <==> forall i :: 0 < i < |fs| ==> EndsLatest(fs[..i])
  {
    var init := ButLast(fs);
    if forall i :: 0 < i < |fs| ==> EndsLatest(fs[..i]) {
      forall i, j | 0 <= i < j < |init|
        ensures Later(init[j], init[i])
      {
        var p := fs[..j + 1];
        assert EndsLatest(p) && p[|p| - 1] == init[j] && p[i] == init[i];
      }
    }
    if InOrder(init) {
      forall i | 0 < i < |fs|
        ensures EndsLatest(fs[..i])
      {
        assert forall k :: 0 <= k < i - 1 ==> Later(init[i - 1], init[k]);
      }
    }
  }

  /**
   A log that Record built is a chain, each event naming the hash of the one before, exactly
   when its events but the last were recorded in the order of their timestamps and ids.
   */
  lemma ChainIffInOrder(digest: string -> string, encode: Fields -> string, fs: seq<Fields>)
    requires HexDigest(digest) && GoodEncoding(encode) && DistinctIds(fs)
    ensures ValidChain(digest, encode, Build(digest, encode, fs)) <==> InOrder(ButLast(fs))
  {
    var log := Build(digest, encode, fs);
    forall i | 0 <= i < |fs|
      ensures i < |log| && (Linked(digest, encode, log, i) <==> i == 0 || EndsLatest(fs[..i]))
    {
      LinkedIff(digest, encode, fs, i);
    }
    BuildLength(digest, encode, fs);
    PrefixesEndLatest(fs);
  }

  lemma {:induction false} PrevIsLatest(digest: string -> string, encode: Fields -> string, fs: seq<Fields>, i: nat)
    requires i < |fs|
    ensures |Build(digest, encode, fs)| == |fs|
    ensures Build(digest, encode, fs)[i].prevHash == LatestHash(Build(digest, encode, fs[..i]))
  {
    BuildPrefix(digest, encode, fs, i + 1);
    BuildPrefix(digest, encode, fs[..i + 1], i);
    assert fs[..i + 1][..i] == fs[..i];
    assert Build(digest, encode, fs)[i] == Build(digest, encode, fs)[..i + 1][i];
  }

  /**
   Spelled out: events recorded with times that never go back, and in the order of their ids at
   equal times, form a chain in the order of recording.
   */
  lemma OrderedLogIsChain(digest: string -> string, encode: Fields -> string, fs: seq<Fields>)
    requires HexDigest(digest) && GoodEncoding(encode) && DistinctIds(fs)
    requires forall i, j :: 0 <= i < j < |fs| ==>
               fs[i].at < fs[j].at || (fs[i].at == fs[j].at && StringLeq(fs[i].id, fs[j].id))
    ensures ValidChain(digest, encode, Build(digest, encode, fs))
  {
    assert InOrder(ButLast(fs));
    ChainIffInOrder(digest, encode, fs);
  }

  /** One event recorded after a later one, and followed by another, breaks the chain. */
  lemma ClockGoingBackBreaksChain(digest: string -> string, encode: Fields -> string, fs: seq<Fields>, i: nat, j: nat)
    requires HexDigest(digest) && GoodEncoding(encode) && DistinctIds(fs)
    requires i < j < |fs| - 1 && fs[j].at < fs[i].at
    ensures !ValidChain(digest, encode, Build(digest, encode, fs))
  {
    assert !Later(ButLast(fs)[j], ButLast(fs)[i]);
    ChainIffInOrder(digest, encode, fs);
  }
}
