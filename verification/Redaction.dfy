/**
 Redaction of nested event metadata before it leaves the service.
 */
module Redaction {
  import opened Prelude
  import opened Text

  /** Decoded JSON. A nil map is one that redaction made of an empty map. */
  datatype Value =
    | Scalar(text: string)
    | Items(items: seq<Value>)
    | Object(fields: map<string, Value>)
    | NilMap

  const REDACTED := Scalar("[REDACTED]")

  // ---------------------------------------------------------------- which keys are sensitive

  const REDACTED_FIELDS: seq<string> := [
    "token", "session_token", "session_cookie", "cookie", "password", "private_key", "client_secret",
    "secret", "agent_auth_token", "enrollment_token", "raw_token"]

  function ToLower(s: string): string {
    if s == "" then ""
    else [if 'A' <= s[0] <= 'Z' then (s[0] as int + 32) as char else s[0]] + ToLower(s[1..])
  }

  predicate Contains(s: string, part: string) {
    part <= s || (s != "" && Contains(s[1..], part))
  }

  predicate Sensitive(key: string) {
    var normalized := ToLower(TrimSpace(key));
    exists i :: 0 <= i < |REDACTED_FIELDS| && Contains(normalized, REDACTED_FIELDS[i])
  }

  lemma {:induction false} ContainsIff(s: string, part: string)
    ensures Contains(s, part) <==> exists i :: 0 <= i <= |s| && part <= s[i..]
  {
    if part <= s {
      assert s[0..] == s;
    } else if s != "" {
      ContainsIff(s[1..], part);
      if i :| 0 <= i <= |s| && part <= s[i..] {
        assert i > 0 && s[i..] == s[1..][i - 1..];
      }
      if Contains(s[1..], part) {
        var i :| 0 <= i <= |s[1..]| && part <= s[1..][i..];
        assert s[1..][i..] == s[i + 1..];
      }
    }
  }

  function LowerCharacter(c: char): char {
    if 'A' <= c <= 'Z' then (c as int + 32) as char else c
  }

  lemma {:induction false} LowerIsPointwise(s: string)
    ensures |ToLower(s)| == |s| && forall i :: 0 <= i < |s| ==> ToLower(s)[i] == LowerCharacter(s[i])
  {
    if s != "" {
      LowerIsPointwise(s[1..]);
      assert forall i :: 0 < i < |s| ==> s[i] == s[1..][i - 1];
    }
  }

  /** A listed field begins at position j of the text, whatever the case of its letters there. */
  predicate FieldAt(text: string, j: nat, field: string) {
    j + |field| <= |text| && forall n :: 0 <= n < |field| ==> LowerCharacter(text[j + n]) == field[n]
  }

  /** A key is sensitive exactly when a listed field stands somewhere in it, in any case. */
  lemma SensitiveIff(key: string)
    ensures Sensitive(key) <==>
            exists f, j: nat :: f in REDACTED_FIELDS && FieldAt(TrimSpace(key), j, f)
  {
    var text := TrimSpace(key);
    LowerIsPointwise(text);
    var lower := ToLower(text);
    forall f | f in REDACTED_FIELDS
      ensures Contains(lower, f) <==> exists j: nat :: FieldAt(text, j, f)
    {
      ContainsIff(lower, f);
      if j: nat :| FieldAt(text, j, f) {
        assert lower[j..][..|f|] == f;
        assert f <= lower[j..];
      }
      if i :| 0 <= i <= |lower| && f <= lower[i..] {
        assert forall n :: 0 <= n < |f| ==> lower[i..][n] == f[n] && lower[i + n] == f[n];
        assert FieldAt(text, i, f);
      }
    }
    if Sensitive(key) {
      var i :| 0 <= i < |REDACTED_FIELDS| && Contains(lower, REDACTED_FIELDS[i]);
      assert REDACTED_FIELDS[i] in REDACTED_FIELDS;
    }
  }

  /** The listed fields that hold no other one. */
  const DECISIVE := ["token", "cookie", "password", "private_key", "secret"]

  predicate WordAt(text: string, j: nat, word: string) {
    j + |word| <= |text| && text[j..j + |word|] == word
  }

  lemma ListedHoldsDecisive(f: string)
    requires f in REDACTED_FIELDS
    ensures exists d, at: nat :: d in DECISIVE && WordAt(f, at, d)
  {
    assert DECISIVE[0] == "token" && DECISIVE[1] == "cookie" && DECISIVE[2] == "password"
      && DECISIVE[3] == "private_key" && DECISIVE[4] == "secret";
    assert WordAt("token", 0, "token") && WordAt("session_token", 8, "token") && WordAt("agent_auth_token", 11, "token");
    assert WordAt("enrollment_token", 11, "token") && WordAt("raw_token", 4, "token");
    assert WordAt("cookie", 0, "cookie") && WordAt("session_cookie", 8, "cookie");
    assert WordAt("password", 0, "password") && WordAt("private_key", 0, "private_key");
    assert WordAt("secret", 0, "secret") && WordAt("client_secret", 7, "secret");
  }

  /** Five of the eleven listed fields decide: a key is sensitive exactly when one of these words stands in it. */
  lemma FiveWordsDecide(key: string)
    ensures Sensitive(key) <==> exists d, j: nat :: d in DECISIVE && FieldAt(TrimSpace(key), j, d)
  {
    SensitiveIff(key);
    var text := TrimSpace(key);
    if Sensitive(key) {
      var f, j: nat :| f in REDACTED_FIELDS && FieldAt(text, j, f);
      ListedHoldsDecisive(f);
      var d, at: nat :| d in DECISIVE && WordAt(f, at, d);
      forall n | 0 <= n < |d|
        ensures LowerCharacter(text[j + at + n]) == d[n]
      {
        assert f[at..at + |d|][n] == f[at + n];
      }
      assert FieldAt(text, j + at, d);
    }
    forall d | d in DECISIVE
      ensures d in REDACTED_FIELDS
    {
      assert REDACTED_FIELDS[0] == "token" && REDACTED_FIELDS[3] == "cookie" && REDACTED_FIELDS[4] == "password"
        && REDACTED_FIELDS[5] == "private_key" && REDACTED_FIELDS[7] == "secret";
    }
  }

  /** shouldRedactKey: the loop over the field list. */
  method ShouldRedactKey(key: string) returns (redact: bool)
    ensures redact <==> Sensitive(key)
  {
    var normalized := ToLower(TrimSpace(key));
    for i := 0 to |REDACTED_FIELDS|
      invariant forall j :: 0 <= j < i ==> !Contains(normalized, REDACTED_FIELDS[j])
    {
      if normalized == REDACTED_FIELDS[i] || Contains(normalized, REDACTED_FIELDS[i]) {
        ContainsItself(normalized);
        return true;
      }
    }
    redact := false;
  }

  lemma ContainsItself(s: string)
    ensures Contains(s, s)
  {
  }

  // ---------------------------------------------------------------- redaction

  function RedactValue(hidden: string -> bool, v: Value): Value
    decreases v, 1
  {
    match v
    case Object(fields) => RedactMap(hidden, v)
    case Items(items) => Items(RedactSlice(hidden, items))
    case NilMap => NilMap
    case Scalar(_) => v
  }

  /** redactMap of a map; an empty one becomes nil. */
  function RedactMap(hidden: string -> bool, v: Value): Value
    requires v.Object?
    decreases v, 0
  {
    if |v.fields| == 0 then NilMap
    else Object(map k | k in v.fields :: if hidden(k) then REDACTED else RedactValue(hidden, v.fields[k]))
  }

  function RedactSlice(hidden: string -> bool, items: seq<Value>): seq<Value>
    decreases items, 0
  {
    if items == [] then [] else [RedactValue(hidden, items[0])] + RedactSlice(hidden, items[1..])
  }

  // ---------------------------------------------------------------- what it changes and what it keeps

  datatype Step = Key(key: string) | Index(index: nat)

  /** The value at the end of a path, if the path exists. */
  function Get(v: Value, path: seq<Step>): Option<Value>
    decreases path
  {
    if path == [] then Some(v)
    else
      match path[0]
      case Key(k) => if v.Object? && k in v.fields then Get(v.fields[k], path[1..]) else None
      case Index(i) => if v.Items? && i < |v.items| then Get(v.items[i], path[1..]) else None
  }

  ghost predicate Open(hidden: string -> bool, path: seq<Step>) {
    forall i :: 0 <= i < |path| ==> path[i].Key? ==> !hidden(path[i].key)
  }

  function KeysOf(v: Value): set<string> {
    if v.Object? then v.fields.Keys else {}
  }

  /** The redaction of a map, field by field. */
  lemma ObjectAt(hidden: string -> bool, fields: map<string, Value>)
    ensures var r := RedactValue(hidden, Object(fields));
            if |fields| == 0 then r == NilMap
            else
              && r.Object? && r.fields.Keys == fields.Keys
              && forall k :: k in fields ==> r.fields[k] == if hidden(k) then REDACTED else RedactValue(hidden, fields[k])
  {
    var v := Object(fields);
    assert RedactValue(hidden, v) == RedactMap(hidden, v);
    if |fields| > 0 {
      assert RedactMap(hidden, v) == Object(map k | k in v.fields :: if hidden(k) then REDACTED else RedactValue(hidden, v.fields[k]));
    }
  }

  lemma {:induction false} SliceAt(hidden: string -> bool, items: seq<Value>, i: nat)
    requires i < |items|
    ensures |RedactSlice(hidden, items)| == |items| && RedactSlice(hidden, items)[i] == RedactValue(hidden, items[i])
  {
    if i > 0 {
      SliceAt(hidden, items[1..], i - 1);
    } else if |items| > 1 {
      SliceAt(hidden, items[1..], 0);
    }
  }

  lemma SliceLength(hidden: string -> bool, items: seq<Value>)
    ensures |RedactSlice(hidden, items)| == |items|
  {
    if items != [] {
      SliceAt(hidden, items, 0);
    }
  }

  /**
   Along a path that passes no sensitive key, the redacted value is the redaction of the
   value there, and exists exactly when it does: same keys, same list lengths, same leaves.
   */
  lemma {:induction false} OpenPathsAreKept(hidden: string -> bool, v: Value, path: seq<Step>)
    requires Open(hidden, path)
    ensures var before, after := Get(v, path), Get(RedactValue(hidden, v), path);
            && after.Some? == before.Some?
            && (before.Some? ==>
                  && after.value == RedactValue(hidden, before.value)
                  && KeysOf(after.value) == KeysOf(before.value)
                  && (before.value.Scalar? ==> after.value == before.value))
    decreases path
  {
    if path != [] {
      assert forall i :: 0 <= i < |path[1..]| ==> path[1..][i] == path[i + 1];
      match path[0]
      case Key(k) =>
        if v.Object? && k in v.fields {
          OpenPathsAreKept(hidden, v.fields[k], path[1..]);
        }
      case Index(i) =>
        if v.Items? {
          SliceLength(hidden, v.items);
          if i < |v.items| {
            SliceAt(hidden, v.items, i);
            OpenPathsAreKept(hidden, v.items[i], path[1..]);
          }
        }
    }
  }

  /** Every value under a sensitive key, at any depth, is replaced, and nothing below it remains. */
  lemma {:induction false} SensitiveKeysAreHidden(hidden: string -> bool, v: Value, path: seq<Step>, key: string, below: seq<Step>)
    requires Open(hidden, path) && hidden(key) && Get(v, path + [Key(key)]).Some?
    ensures Get(RedactValue(hidden, v), path + [Key(key)]) == Some(REDACTED)
    ensures below != [] ==> Get(RedactValue(hidden, v), path + [Key(key)] + below) == None
    decreases path
  {
    var whole := path + [Key(key)];
    if path == [] {
      assert whole[1..] == [] && (whole + below)[1..] == below;
      if below != [] {
        assert Get(REDACTED, below) == None;
      }
    } else {
      assert whole[1..] == path[1..] + [Key(key)] && (whole + below)[1..] == path[1..] + [Key(key)] + below;
      match path[0]
      case Key(k) =>
        SensitiveKeysAreHidden(hidden, v.fields[k], path[1..], key, below);
      case Index(i) =>
        SliceAt(hidden, v.items, i);
        SensitiveKeysAreHidden(hidden, v.items[i], path[1..], key, below);
    }
  }

  lemma {:induction false} RedactionIsIdempotent(hidden: string -> bool, v: Value)
    ensures RedactValue(hidden, RedactValue(hidden, v)) == RedactValue(hidden, v)
    decreases v, 1
  {
    match v
    case Object(fields) =>
      forall k | k in fields
        ensures RedactValue(hidden, RedactValue(hidden, fields[k])) == RedactValue(hidden, fields[k])
      {
        RedactionIsIdempotent(hidden, fields[k]);
      }
      ObjectAt(hidden, fields);
      if |fields| != 0 {
        var once := RedactValue(hidden, v).fields;
        assert once.Keys == fields.Keys;
        EmptyFields(fields);
        EmptyFields(once);
        ObjectAt(hidden, once);
        assert RedactValue(hidden, Object(once)).fields == once;
      }
    case Items(items) =>
      SliceIsIdempotent(hidden, items);
    case _ =>
  }

  lemma {:induction false} SliceIsIdempotent(hidden: string -> bool, items: seq<Value>)
    ensures RedactSlice(hidden, RedactSlice(hidden, items)) == RedactSlice(hidden, items)
    decreases items, 0
  {
    if items != [] {
      RedactionIsIdempotent(hidden, items[0]);
      SliceIsIdempotent(hidden, items[1..]);
      assert RedactSlice(hidden, items)[1..] == RedactSlice(hidden, items[1..]);
    }
  }

  /** Equal except for what lies under sensitive keys, an empty map counting as a nil one. */
  predicate AgreeOutside(hidden: string -> bool, a: Value, b: Value)
    decreases a
  {
    match a
    case Scalar(_) => a == b
    case Items(xs) => b.Items? && |xs| == |b.items| && forall i :: 0 <= i < |xs| ==> AgreeOutside(hidden, xs[i], b.items[i])
    case Object(fields) =>
      && !b.Scalar? && !b.Items? && fields.Keys == KeysOf(b)
      && forall k :: k in fields && !hidden(k) ==> AgreeOutside(hidden, fields[k], b.fields[k])
    case NilMap => !b.Scalar? && !b.Items? && KeysOf(b) == {}
  }

  lemma EmptyFields(fields: map<string, Value>)
    ensures |fields| == 0 <==> fields.Keys == {}
  {
  }

  /**
   Two values have the same redaction exactly when they agree outside sensitive keys: what
   is under one cannot show, and everything else does.
   */
  lemma {:induction false} RedactionHidesExactly(hidden: string -> bool, a: Value, b: Value)
    ensures RedactValue(hidden, a) == RedactValue(hidden, b) <==> AgreeOutside(hidden, a, b)
    decreases a
  {
    match a
    case Scalar(_) =>
    case NilMap =>
      if b.Object? {
        EmptyFields(b.fields);
      }
    case Items(xs) =>
      SliceLength(hidden, xs);
      if b.Items? {
        SliceLength(hidden, b.items);
        forall i | 0 <= i < |xs| && i < |b.items|
          ensures RedactSlice(hidden, xs)[i] == RedactSlice(hidden, b.items)[i] <==> AgreeOutside(hidden, xs[i], b.items[i])
        {
          SliceAt(hidden, xs, i);
          SliceAt(hidden, b.items, i);
          RedactionHidesExactly(hidden, xs[i], b.items[i]);
        }
      }
    case Object(fields) =>
      EmptyFields(fields);
      if b.Object? {
        EmptyFields(b.fields);
        forall k | k in fields && k in b.fields
          ensures RedactValue(hidden, fields[k]) == RedactValue(hidden, b.fields[k]) <==> AgreeOutside(hidden, fields[k], b.fields[k])
        {
          RedactionHidesExactly(hidden, fields[k], b.fields[k]);
        }
        MapsAgree(hidden, fields, b.fields);
      }
  }

  lemma FieldsAgree(hidden: string -> bool, f: map<string, Value>, g: map<string, Value>)
    requires |f| != 0 && |g| != 0
    ensures RedactValue(hidden, Object(f)) == RedactValue(hidden, Object(g)) <==>
              f.Keys == g.Keys && forall k :: k in f && !hidden(k) ==> RedactValue(hidden, f[k]) == RedactValue(hidden, g[k])
  {
    ObjectAt(hidden, f);
    ObjectAt(hidden, g);
    var rf, rg := RedactValue(hidden, Object(f)).fields, RedactValue(hidden, Object(g)).fields;
    assert rf.Keys == f.Keys && rg.Keys == g.Keys;
    if rf == rg {
      forall k | k in f && !hidden(k)
        ensures RedactValue(hidden, f[k]) == RedactValue(hidden, g[k])
      {
        assert rf[k] == rg[k];
      }
    }
  }

  lemma MapsAgree(hidden: string -> bool, f: map<string, Value>, g: map<string, Value>)
    ensures RedactValue(hidden, Object(f)) == RedactValue(hidden, Object(g)) <==>
              f.Keys == g.Keys && forall k :: k in f && !hidden(k) ==> RedactValue(hidden, f[k]) == RedactValue(hidden, g[k])
  {
    EmptyFields(f);
    EmptyFields(g);
    if |f| != 0 && |g| != 0 {
      FieldsAgree(hidden, f, g);
    } else {
      ObjectAt(hidden, f);
      ObjectAt(hidden, g);
    }
  }
}
