/**
 Time-based one-time passwords (sections 4.2 and 5.2 of RFC 6238, truncation of section 5.3 of
 RFC 4226). The MAC is a parameter that returns twenty bytes.
 */
module Totp {
  import opened Text

  const DIGITS := 6
  const STEP := 30
  const WORD := 0x1_0000_0000_0000_0000

  type Byte = b: int | 0 <= b < 256

  type Mac = (string, seq<Byte>) -> seq<Byte>

  ghost predicate TwentyBytes(mac: Mac) {
    forall key: string, message: seq<Byte> :: |mac(key, message)| == 20
  }

  // ---------------------------------------------------------------- generating a code

  /** The last n bytes of a number, most significant first. */
  function BigEndian(value: nat, n: nat): (r: seq<Byte>)
    ensures |r| == n
    decreases n, value
  {
    if n == 0 then [] else BigEndian(value / 256, n - 1) + [value % 256]
  }

  /** PutUint64 of the counter; a negative one wraps around. */
  function Message(counter: int): seq<Byte> {
    BigEndian(counter % WORD, 8)
  }

  /** The dynamic truncation: four bytes at the offset, without the sign bit. */
  function Truncate(sum: seq<Byte>): (code: int)
    requires |sum| == 20
    ensures 0 <= code < 0x8000_0000
  {
    var offset: int := sum[19] % 16;
    var b0: int, b1: int, b2: int, b3: int := sum[offset], sum[offset + 1], sum[offset + 2], sum[offset + 3];
    (b0 % 128) * 0x100_0000 + b1 * 0x1_0000 + b2 * 0x100 + b3
  }

  /** The number that bytes write, most significant first. */
  function Number(bytes: seq<Byte>): nat {
    if bytes == [] then 0 else 256 * Number(bytes[..|bytes| - 1]) + bytes[|bytes| - 1]
  }

  /** n bytes write a number as the number itself, up to what n bytes can hold. */
  lemma {:induction false} BigEndianReadsBack(value: nat, n: nat)
    requires value < Words(n)
    ensures Number(BigEndian(value, n)) == value
    decreases n
  {
    if n > 0 {
      BigEndianReadsBack(value / 256, n - 1);
      var r := BigEndian(value, n);
      assert r[..n - 1] == BigEndian(value / 256, n - 1);
    }
  }

  /** How many numbers n bytes can write. */
  function Words(n: nat): nat {
    if n == 0 then 1 else 256 * Words(n - 1)
  }

  /** The message is the counter in eight bytes, in two's complement. */
  lemma MessageReadsBack(counter: int)
    ensures |Message(counter)| == 8 && Number(Message(counter)) == counter % WORD
  {
    assert Words(8) == 256 * Words(7) == 65536 * Words(6) == 0x100_0000 * Words(5) == 0x1_0000_0000 * Words(4);
    assert Words(4) == 256 * Words(3) == 65536 * Words(2) == 0x100_0000 * Words(1) == 0x1_0000_0000;
    BigEndianReadsBack(counter % WORD, 8);
  }

  /** The truncation is the number its four bytes write, from the offset the last half-byte gives, without its top bit. */
  lemma TruncationReads(sum: seq<Byte>)
    requires |sum| == 20
    ensures var offset: int := sum[19] % 16;
            Truncate(sum) == Number(sum[offset..offset + 4]) % 0x8000_0000
  {
    var offset: int := sum[19] % 16;
    var four := sum[offset..offset + 4];
    assert four[..3][..2] == four[..2] && four[..2][..1] == four[..1] && four[..1][..0] == [];
    assert Number(four[..1]) == four[0];
    assert Number(four[..2]) == 256 * Number(four[..1]) + four[1];
    assert Number(four[..3]) == 256 * Number(four[..2]) + four[2];
    assert Number(four) == 256 * Number(four[..3]) + four[3];
    TopBitDropped(four[0], four[1], four[2], four[3]);
  }

  lemma TopBitDropped(b0: Byte, b1: Byte, b2: Byte, b3: Byte)
    ensures (b0 * 0x100_0000 + b1 * 0x1_0000 + b2 * 0x100 + b3) % 0x8000_0000
         == (b0 % 128) * 0x100_0000 + b1 * 0x1_0000 + b2 * 0x100 + b3
  {
    var low: int := (b0 % 128) * 0x100_0000 + b1 * 0x1_0000 + b2 * 0x100 + b3;
    assert b0 * 0x100_0000 + b1 * 0x1_0000 + b2 * 0x100 + b3 == (b0 / 128) * 0x8000_0000 + low;
    assert 0 <= low < 0x8000_0000;
  }

  /** The example of section 5.4 of RFC 4226. */
  lemma TruncationExample()
    ensures Truncate([0x1f, 0x86, 0x98, 0x69, 0x0e, 0x02, 0xca, 0x16, 0x61, 0x85,
                      0x50, 0xef, 0x7f, 0x19, 0xda, 0x8e, 0x94, 0x5b, 0x55, 0x5a]) == 0x50ef7f19
  {
  }

  function Digit(d: int): char
    requires 0 <= d < 10
  {
    ['0', '1', '2', '3', '4', '5', '6', '7', '8', '9'][d]
  }

  /** The last n decimal digits, with leading zeros. */
  function Decimal(value: nat, n: nat): (r: string)
    ensures |r| == n
    ensures forall i :: 0 <= i < n ==> '0' <= r[i] <= '9'
    decreases n, value
  {
    if n == 0 then "" else Decimal(value / 10, n - 1) + [Digit(value % 10)]
  }

  /** The number that decimal digits write. */
  function Read(s: string): int
  {
    if s == "" then 0 else 10 * Read(s[..|s| - 1]) + (s[|s| - 1] as int - '0' as int)
  }

  function Bound(n: nat): (r: nat)
    ensures r > 0
  {
    if n == 0 then 1 else 10 * Bound(n - 1)
  }

  /** No digit of a number that fits is lost. */
  lemma {:induction false} DecimalReadsBack(value: nat, n: nat)
    requires value < Bound(n)
    ensures Read(Decimal(value, n)) == value
  {
    if n > 0 {
      DecimalReadsBack(value / 10, n - 1);
      var s := Decimal(value, n);
      assert s[..n - 1] == Decimal(value / 10, n - 1);
      assert s[n - 1] == Digit(value % 10);
    }
  }

  function Code(mac: Mac, key: string, counter: int): (code: string)
    requires TwentyBytes(mac)
    ensures SixDigits(code)
  {
    Decimal(Truncate(mac(key, Message(counter))) % 1_000_000, DIGITS)
  }

  /** The six digits write the truncated MAC modulo one million. */
  lemma CodeValue(mac: Mac, key: string, counter: int)
    requires TwentyBytes(mac)
    ensures Read(Code(mac, key, counter)) == Truncate(mac(key, Message(counter))) % 1_000_000
  {
    assert Bound(6) == 1_000_000;
    DecimalReadsBack(Truncate(mac(key, Message(counter))) % 1_000_000, 6);
  }

  /** Go's division of a Unix time by the step truncates towards zero. */
  function Counter(unix: int): int {
    if unix >= 0 then unix / STEP else -((-unix) / STEP)
  }

  function Generate(mac: Mac, key: string, unix: int): string
    requires TwentyBytes(mac)
  {
    Code(mac, key, Counter(unix))
  }

  // ---------------------------------------------------------------- checking a code

  function WithoutBlanks(s: string): string {
    if s == "" then "" else (if s[0] == ' ' then "" else [s[0]]) + WithoutBlanks(s[1..])
  }

  predicate SixDigits(s: string) {
    |s| == DIGITS && forall i :: 0 <= i < |s| ==> '0' <= s[i] <= '9'
  }

  /** normalizeOTPCode: the six digits that remain when white space is removed, or nothing. */
  method NormalizeOtpCode(value: string) returns (code: string)
    ensures var stripped := TrimSpace(WithoutBlanks(value));
            code == if SixDigits(stripped) then stripped else ""
  {
    code := TrimSpace(WithoutBlanks(value));
    if |code| != DIGITS {
      return "";
    }
    for i := 0 to |code|
      invariant forall j :: 0 <= j < i ==> '0' <= code[j] <= '9'
    {
      if code[i] < '0' || code[i] > '9' {
        return "";
      }
    }
  }

  /** The comparison loop, over the bytes of the two strings. */
  method ConstantTimeEqual(a: seq<bv8>, b: seq<bv8>) returns (equal: bool)
    ensures equal <==> a == b
  {
    if |a| != |b| {
      return false;
    }
    var diff: bv8 := 0;
    for i := 0 to |a|
      invariant diff == 0 <==> a[..i] == b[..i]
    {
      assert a[..i + 1] == a[..i] + [a[i]] && b[..i + 1] == b[..i] + [b[i]];
      OrXorZero(diff, a[i], b[i]);
      diff := diff | (a[i] ^ b[i]);
    }
    assert a[..|a|] == a && b[..|b|] == b;
    equal := diff == 0;
  }

  lemma OrXorZero(diff: bv8, x: bv8, y: bv8)
    ensures diff | (x ^ y) == 0 <==> diff == 0 && x == y
  {
  }

  /** The bytes of an ASCII string. */
  function Bytes(s: string): (r: seq<bv8>)
    requires forall i :: 0 <= i < |s| ==> '0' <= s[i] <= '9'
    ensures |r| == |s|
  {
    if s == "" then [] else [DigitByte(s[0])] + Bytes(s[1..])
  }

  function DigitByte(c: char): bv8
    requires '0' <= c <= '9'
  {
    if c == '0' then 0x30 else if c == '1' then 0x31 else if c == '2' then 0x32 else if c == '3' then 0x33
    else if c == '4' then 0x34 else if c == '5' then 0x35 else if c == '6' then 0x36 else if c == '7' then 0x37
    else if c == '8' then 0x38 else 0x39
  }

  lemma {:induction false} BytesInjective(a: string, b: string)
    requires forall i :: 0 <= i < |a| ==> '0' <= a[i] <= '9'
    requires forall i :: 0 <= i < |b| ==> '0' <= b[i] <= '9'
    requires Bytes(a) == Bytes(b)
    ensures a == b
  {
    if a != "" {
      assert Bytes(a)[0] == Bytes(b)[0] && Bytes(a)[1..] == Bytes(b)[1..];
      BytesInjective(a[1..], b[1..]);
      assert a == [a[0]] + a[1..] && b == [b[0]] + b[1..];
    }
  }

  method SameCode(a: string, b: string) returns (same: bool)
    requires SixDigits(a) && SixDigits(b)
    ensures same <==> a == b
  {
    same := ConstantTimeEqual(Bytes(a), Bytes(b));
    if same {
      BytesInjective(a, b);
    }
  }

  /** The code of the step delta steps from a time's own. */
  function CodeNear(mac: Mac, key: string, unix: int, delta: int): string
    requires TwentyBytes(mac)
  {
    Code(mac, key, Counter(unix) + delta)
  }

  /** A code is right at a time if it is the code of that step or of a neighbouring one. */
  predicate Acceptable(mac: Mac, key: string, code: string, unix: int)
    requires TwentyBytes(mac)
  {
    code == CodeNear(mac, key, unix, -1) || code == CodeNear(mac, key, unix, 0) || code == CodeNear(mac, key, unix, 1)
  }

  method MatchesStep(mac: Mac, key: string, code: string, unix: int, delta: int) returns (same: bool)
    requires TwentyBytes(mac) && SixDigits(code)
    ensures same <==> code == CodeNear(mac, key, unix, delta)
  {
    var candidate := Code(mac, key, Counter(unix) + delta);
    same := SameCode(candidate, code);
  }

  /** The loop over the step and its two neighbours. */
  method MatchesNearby(mac: Mac, key: string, code: string, unix: int) returns (ok: bool)
    requires TwentyBytes(mac) && SixDigits(code)
    ensures ok <==> Acceptable(mac, key, code, unix)
  {
    for delta := -1 to 2
      invariant forall d :: -1 <= d < delta ==> code != CodeNear(mac, key, unix, d)
    {
      var same := MatchesStep(mac, key, code, unix, delta);
      if same {
        return true;
      }
    }
    ok := false;
  }

  /** ValidateTOTP for a decoded secret. */
  method Validate(mac: Mac, key: string, presented: string, unix: int) returns (ok: bool)
    requires TwentyBytes(mac)
    ensures var stripped := TrimSpace(WithoutBlanks(presented));
            ok <==> SixDigits(stripped) && Acceptable(mac, key, stripped, unix)
  {
    var code := NormalizeOtpCode(presented);
    if |code| != DIGITS {
      return false;
    }
    ok := MatchesNearby(mac, key, code, unix);
  }

  // ---------------------------------------------------------------- the theorems

  lemma {:induction false} TrimDigits(s: string)
    requires s == "" || (!Space(s[0]) && !Space(s[|s| - 1]))
    ensures TrimSpace(s) == s
  {
  }

  lemma {:induction false} NoBlanksInDigits(s: string)
    requires forall i :: 0 <= i < |s| ==> '0' <= s[i] <= '9'
    ensures WithoutBlanks(s) == s
  {
    if s != "" {
      NoBlanksInDigits(s[1..]);
      assert s == [s[0]] + s[1..];
    }
  }

  /** A blank typed anywhere makes no difference. */
  lemma {:induction false} BlanksMakeNoDifference(a: string, b: string)
    ensures WithoutBlanks(a + " " + b) == WithoutBlanks(a + b)
  {
    var s, t := a + " " + b, a + b;
    if a == "" {
      assert s == " " + b && s[1..] == b;
      assert t == b;
    } else {
      assert s[1..] == a[1..] + " " + b && t[1..] == a[1..] + b;
      BlanksMakeNoDifference(a[1..], b);
    }
  }

  lemma CodeSurvives(code: string)
    requires SixDigits(code)
    ensures TrimSpace(WithoutBlanks(code)) == code
  {
    NoBlanksInDigits(code);
    TrimDigits(code);
  }

  lemma NeighbouringCounters(t: nat, now: nat)
    requires t - 30 <= now <= t + 30
    ensures -1 <= Counter(t) - Counter(now) <= 1
  {
  }

  /**
   A generated code is six digits, survives normalisation, and is accepted at every time
   within thirty seconds of its own.
   */
  lemma GeneratedCodeIsAccepted(mac: Mac, key: string, t: nat, now: nat)
    requires TwentyBytes(mac) && t - 30 <= now <= t + 30
    ensures var code := Generate(mac, key, t);
            && SixDigits(code) && TrimSpace(WithoutBlanks(code)) == code
            && Acceptable(mac, key, code, now)
  {
    var code := Generate(mac, key, t);
    CodeSurvives(code);
    NeighbouringCounters(t, now);
    var delta := Counter(t) - Counter(now);
    assert code == CodeNear(mac, key, now, delta);
  }

  /** A time whose step is delta steps from now's, less than sixty seconds away. */
  function NearbyTime(now: nat, delta: int): (t: int)
    requires -1 <= delta <= 1
    ensures Counter(t) == Counter(now) + delta && now - 60 < t < now + 60
  {
    if delta == 1 then STEP * (now / STEP + 1)
    else if delta == 0 then now
    else if now / STEP == 0 then -STEP
    else STEP * (now / STEP) - 1
  }

  /** Whatever is accepted is the code of some time less than sixty seconds away. */
  lemma AcceptedCodeIsRecent(mac: Mac, key: string, code: string, now: nat)
    requires TwentyBytes(mac) && Acceptable(mac, key, code, now)
    ensures exists t :: now - 60 < t < now + 60 && code == Generate(mac, key, t)
  {
    var delta := if code == CodeNear(mac, key, now, -1) then -1 else if code == CodeNear(mac, key, now, 0) then 0 else 1;
    var t := NearbyTime(now, delta);
    assert code == CodeNear(mac, key, now, delta);
    assert code == Generate(mac, key, t);
  }
}
