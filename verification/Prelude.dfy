/** Small definitions shared by the models. */
module Prelude {

  datatype Option<+T> = None | Some(value: T)

  datatype Result<+T, +E> = Ok(value: T) | Err(error: E)

  function Pow2(n: nat): (r: nat)
    ensures r >= 1
  {
    if n == 0 then 1 else 2 * Pow2(n - 1)
  }

  /** The elements of s that satisfy p, in their order. */
  function Filter<T>(p: T -> bool, s: seq<T>): seq<T> {
    if s == [] then []
    else (if p(s[0]) then [s[0]] else []) + Filter(p, s[1..])
  }

  lemma {:induction false} FilterMembers<T>(p: T -> bool, s: seq<T>)
    ensures forall x :: x in Filter(p, s) <==> x in s && p(x)
  {
    if s != [] {
      FilterMembers(p, s[1..]);
      assert s == [s[0]] + s[1..];
    }
  }

  lemma {:induction false} FilterAppend<T>(p: T -> bool, s: seq<T>, x: T)
    ensures Filter(p, s + [x]) == Filter(p, s) + (if p(x) then [x] else [])
  {
    var last := if p(x) then [x] else [];
    if s == [] {
      assert s + [x] == [x] && [x][1..] == [];
      assert Filter(p, [x]) == last + Filter(p, []);
    } else {
      var first, rest := if p(s[0]) then [s[0]] else [], s[1..];
      assert (s + [x])[0] == s[0] && (s + [x])[1..] == rest + [x];
      FilterAppend(p, rest, x);
      assert Filter(p, s + [x]) == first + (Filter(p, rest) + last) == (first + Filter(p, rest)) + last;
    }
  }

  lemma AnyElement<T>(s: set<T>) returns (x: T)
    requires s != {}
    ensures x in s
  {
    x :| x in s;
  }

  lemma SubsetSize<T>(a: set<T>, b: set<T>)
    requires a <= b
    ensures |a| <= |b|
  {
    assert |b - a| == |b| - |a|;
  }

  // ---------------------------------------------------------------- stored times

  const SECOND := 1_000_000_000

  /** Stored times keep the whole seconds of their nanoseconds. */
  function Seconds(nanos: int): int {
    nanos / SECOND
  }

  lemma SecondsFacts(t: int)
    ensures Seconds(t) * SECOND <= t < Seconds(t) * SECOND + SECOND
  {
  }

  lemma SecondsMonotone(a: int, b: int)
    requires a <= b
    ensures Seconds(a) <= Seconds(b)
  {
  }

  // ---------------------------------------------------------------- digests

  /** A digest taken as collision-free; it is never empty. */
  ghost predicate GoodDigest(digest: string -> string) {
    && (forall x: string :: digest(x) != "")
    && (forall x: string, y: string :: digest(x) == digest(y) ==> x == y)
  }
}
