/** Version strings and their order (qy/project/resolve.py). Digits are the ASCII ones. */
module Versions {
  type Version = string

  predicate IsDigit(c: char) { '0' <= c <= '9' }

  /** The leading digits of a segment. */
  function NumericPrefix(s: string): string {
    if s == "" || !IsDigit(s[0]) then "" else [s[0]] + NumericPrefix(s[1..])
  }

  function ToNat(digits: string): nat
    requires forall c :: c in digits ==> IsDigit(c)
  {
    if digits == "" then 0
    else
      assert digits[|digits| - 1] in digits && IsDigit(digits[|digits| - 1]);
      10 * ToNat(digits[..|digits| - 1]) + (digits[|digits| - 1] as int - '0' as int)
  }

  lemma {:induction false} PrefixIsDigits(s: string)
    ensures forall c :: c in NumericPrefix(s) ==> IsDigit(c)
  {
    if s != "" && IsDigit(s[0]) {
      PrefixIsDigits(s[1..]);
    }
  }

  function SegmentNumber(s: string): nat {
    PrefixIsDigits(s);
    ToNat(NumericPrefix(s))
  }

  /** `v.split(".")`. */
  function Split(v: string): seq<string> {
    if v == "" then [""]
    else
      var rest := Split(v[1..]);
      if v[0] == '.' then [""] + rest else [[v[0]] + rest[0]] + rest[1..]
  }

  function Parse(v: Version): seq<nat> { Numbers(Split(v)) }

  function Numbers(segments: seq<string>): (ns: seq<nat>)
    ensures |ns| == |segments|
  {
    seq(|segments|, i requires 0 <= i < |segments| => SegmentNumber(segments[i]))
  }

  // --- what is parsed ---------------------------------------------------------------------------

  function Joined(segments: seq<string>): string {
    if segments == [] then ""
    else if |segments| == 1 then segments[0]
    else segments[0] + "." + Joined(segments[1..])
  }

  /** The pieces between the dots of `v`. */
  ghost predicate Pieces(v: Version, segments: seq<string>) {
    segments != [] && Joined(segments) == v && forall k :: 0 <= k < |segments| ==> '.' !in segments[k]
  }

  function Pow10(k: nat): nat { if k == 0 then 1 else 10 * Pow10(k - 1) }

  function DigitOf(c: char): int { c as int - '0' as int }

  lemma {:induction false} Pow10Positive(k: nat)
    ensures Pow10(k) >= 1
  {
    if k > 0 { Pow10Positive(k - 1); }
  }

  function Place(n: nat, k: nat): nat {
    Pow10Positive(k);
    n / Pow10(k) % 10
  }

  /** `digits` is `n` in decimals, with leading zeros or not; nothing is 0. */
  ghost predicate Decimals(digits: string, n: nat) {
    && n < Pow10(|digits|)
    && forall i :: 0 <= i < |digits| ==> IsDigit(digits[i]) && DigitOf(digits[i]) == Place(n, |digits| - 1 - i)
  }

  /** The number of a segment: the digits in front of its first other character. */
  ghost predicate SegmentReads(s: string, k: nat, n: nat) {
    && k <= |s| && Decimals(s[..k], n)
    && (forall i :: 0 <= i < k ==> IsDigit(s[i])) && (k < |s| ==> !IsDigit(s[k]))
  }

  ghost predicate HasNumber(s: string, n: nat) { exists k :: SegmentReads(s, k, n) }

  ghost predicate ReadsAs(segments: seq<string>, parts: seq<nat>) {
    |parts| == |segments| && forall i :: 0 <= i < |parts| ==> HasNumber(segments[i], parts[i])
  }

  /** Each piece between dots gives the number of its leading digits. */
  ghost predicate ParsedAs(v: Version, parts: seq<nat>) {
    exists segments :: Pieces(v, segments) && ReadsAs(segments, parts)
  }

  lemma {:induction false} SplitPieces(v: Version)
    ensures Pieces(v, Split(v))
  {
    if v != "" {
      var rest := Split(v[1..]);
      SplitPieces(v[1..]);
      if v[0] == '.' {
        assert ([""] + rest)[1..] == rest;
        assert Joined([""] + rest) == "" + "." + Joined(rest);
        assert v == "." + v[1..];
      } else {
        JoinedHead([v[0]], rest);
        assert v == [v[0]] + v[1..];
      }
    }
  }

  lemma JoinedHead(a: string, segments: seq<string>)
    requires segments != []
    ensures Joined([a + segments[0]] + segments[1..]) == a + Joined(segments)
  {
    JoinedFirst(segments[0], segments[1..]);
    JoinedFirst(a + segments[0], segments[1..]);
    assert segments == [segments[0]] + segments[1..];
    hide Joined;
    if |segments| > 1 {
      Regroup(a, segments[0], ".", Joined(segments[1..]));
    }
  }

  lemma JoinedFirst(first: string, rest: seq<string>)
    ensures Joined([first] + rest) == if rest == [] then first else first + "." + Joined(rest)
  {
    assert ([first] + rest)[1..] == rest;
  }

  lemma Regroup(a: string, b: string, c: string, d: string)
    ensures a + b + c + d == a + (b + c + d)
  {
  }

  lemma DigitShift(n: nat, d: nat, k: nat)
    requires d < 10
    ensures Place(10 * n + d, 0) == d && Place(10 * n + d, k + 1) == Place(n, k)
  {
    Pow10Positive(k);
    var p := Pow10(k);
    assert Pow10(k + 1) == 10 * p;
    DivideTwice(10 * n + d, p);
    assert (10 * n + d) / 10 == n;
  }

  lemma DivideTwice(a: nat, p: nat)
    requires p >= 1
    ensures a / (10 * p) == a / 10 / p
  {
    var q, r := a / 10 / p, a / 10 % p;
    assert a == 10 * (p * q + r) + a % 10;
    assert a == (10 * p) * q + (10 * r + a % 10);
    assert 0 <= 10 * r + a % 10 < 10 * p;
    QuotientIs(a, 10 * p, q, 10 * r + a % 10);
  }

  lemma QuotientIs(a: int, m: int, q: int, r: int)
    requires m > 0 && a == m * q + r && 0 <= r < m
    ensures a / m == q
  {
    var d := a / m - q;
    assert m * d == r - a % m;
  }

  lemma {:induction false} ToNatDecimals(digits: string)
    requires forall c :: c in digits ==> IsDigit(c)
    ensures Decimals(digits, ToNat(digits))
  {
    if digits != "" {
      var n := |digits| - 1;
      var front, last := digits[..n], digits[n];
      assert last in digits && forall c :: c in front ==> c in digits;
      ToNatDecimals(front);
      forall i | 0 <= i < |digits|
        ensures IsDigit(digits[i]) && DigitOf(digits[i]) == Place(ToNat(digits), n - i)
      {
        assert digits[i] in digits;
        if i < n {
          DigitShift(ToNat(front), DigitOf(last), n - i - 1);
        } else {
          DigitShift(ToNat(front), DigitOf(last), 0);
        }
      }
    }
  }

  /** Decimals determine the number. */
  lemma {:induction false} DecimalsOnce(digits: string, n: nat)
    requires Decimals(digits, n)
    ensures (forall c :: c in digits ==> IsDigit(c)) && ToNat(digits) == n
  {
    if digits != "" {
      var k := |digits| - 1;
      var front, last := digits[..k], digits[k];
      DigitShift(n / 10, n % 10, 0);
      assert 10 * (n / 10) + n % 10 == n;
      assert DigitOf(last) == Place(n, 0);
      forall i | 0 <= i < k ensures IsDigit(front[i]) && DigitOf(front[i]) == Place(n / 10, k - 1 - i) {
        assert front[i] == digits[i];
        DigitShift(n / 10, n % 10, k - 1 - i);
      }
      DecimalsOnce(front, n / 10);
    }
  }

  lemma {:induction false} PrefixReads(s: string)
    ensures |NumericPrefix(s)| <= |s| && NumericPrefix(s) == s[..|NumericPrefix(s)|]
    ensures |NumericPrefix(s)| < |s| ==> !IsDigit(s[|NumericPrefix(s)|])
    ensures forall i :: 0 <= i < |NumericPrefix(s)| ==> IsDigit(s[i])
  {
    if s != "" && IsDigit(s[0]) {
      PrefixReads(s[1..]);
      assert s == [s[0]] + s[1..];
    }
  }

  lemma SegmentIsRead(s: string)
    ensures SegmentReads(s, |NumericPrefix(s)|, SegmentNumber(s))
  {
    PrefixReads(s);
    PrefixIsDigits(s);
    ToNatDecimals(NumericPrefix(s));
  }

  lemma {:induction false} PrefixLength(s: string, k: nat)
    requires k <= |s| && (forall i :: 0 <= i < k ==> IsDigit(s[i])) && (k < |s| ==> !IsDigit(s[k]))
    ensures k == |NumericPrefix(s)|
  {
    if k > 0 { PrefixLength(s[1..], k - 1); }
  }

  lemma SegmentReadsOnce(s: string, n: nat)
    ensures HasNumber(s, n) <==> n == SegmentNumber(s)
  {
    SegmentIsRead(s);
    PrefixReads(s);
    PrefixIsDigits(s);
    hide Decimals, NumericPrefix, ToNat;
    if k: nat :| SegmentReads(s, k, n) {
      PrefixLength(s, k);
      DecimalsOnce(s[..k], n);
    }
  }

  lemma {:induction false} SplitJoined(segments: seq<string>)
    requires Pieces(Joined(segments), segments)
    ensures Split(Joined(segments)) == segments
    decreases |segments|, if segments == [] then 0 else |segments[0]|
  {
    var v, first := Joined(segments), segments[0];
    if first == "" {
      if |segments| > 1 {
        assert v == "." + Joined(segments[1..]);
        assert v[1..] == Joined(segments[1..]);
        SplitJoined(segments[1..]);
        assert segments == [""] + segments[1..];
      }
    } else {
      var shorter := [first[1..]] + segments[1..];
      assert [first[0]] + first[1..] == first && shorter[1..] == segments[1..];
      assert [[first[0]] + shorter[0]] + shorter[1..] == segments;
      JoinedHead([first[0]], shorter);
      assert v[1..] == Joined(shorter);
      assert v[0] == first[0] && first[0] in segments[0];
      forall k | 0 <= k < |shorter| ensures '.' !in shorter[k] {
        if k == 0 { assert forall c :: c in first[1..] ==> c in segments[0]; } else { assert shorter[k] == segments[k]; }
      }
      SplitJoined(shorter);
    }
  }

  lemma ReadsOnce(segments: seq<string>, parts: seq<nat>)
    ensures ReadsAs(segments, parts) <==> parts == Numbers(segments)
  {
    hide HasNumber, SegmentNumber;
    forall i | 0 <= i < |parts| && |parts| == |segments|
      ensures HasNumber(segments[i], parts[i]) <==> parts[i] == Numbers(segments)[i]
    {
      SegmentReadsOnce(segments[i], parts[i]);
    }
  }

  /** There is one way to parse a version, and `Parse` is it. */
  lemma ParsedOnce(v: Version, parts: seq<nat>)
    ensures ParsedAs(v, parts) <==> parts == Parse(v)
  {
    hide Split, Numbers, Joined, ReadsAs;
    SplitPieces(v);
    ReadsOnce(Split(v), Parse(v));
    if ParsedAs(v, parts) {
      var segments :| Pieces(v, segments) && ReadsAs(segments, parts);
      SplitJoined(segments);
      ReadsOnce(segments, parts);
    }
  }

  /** The loop over one segment. */
  method ReadSegment(segment: string) returns (value: nat)
    ensures value == SegmentNumber(segment)
  {
    var numeric := "";
    value := 0;
    for j := 0 to |segment|
      invariant NumericPrefix(segment) == numeric + NumericPrefix(segment[j..])
      invariant forall c :: c in numeric ==> IsDigit(c)
      invariant value == ToNat(numeric)
    {
      var ch := segment[j];
      if !IsDigit(ch) {
        break;
      }
      assert segment[j..] == [ch] + segment[j + 1..];
      numeric := numeric + [ch];
      value := 10 * value + (ch as int - '0' as int);
      assert numeric[..|numeric| - 1] + [ch] == numeric;
    }
    assert numeric == NumericPrefix(segment);
  }

  /** `_parse_version`. */
  method ParseVersion(v: Version) returns (parts: seq<nat>)
    ensures parts == Parse(v) && ParsedAs(v, parts)
  {
    ParsedOnce(v, Parse(v));
    hide ParsedAs, SegmentNumber, Split;
    var segments := Split(v);
    parts := [];
    for i := 0 to |segments|
      invariant parts == Numbers(segments)[..i]
    {
      var value := ReadSegment(segments[i]);
      parts := parts + [value];
    }
  }

  // --- the order ------------------------------------------------------------------------

  /** Python's order on tuples: the first difference decides, a proper prefix is smaller. */
  predicate Less(a: seq<nat>, b: seq<nat>) {
    if b == [] then false
    else if a == [] then true
    else a[0] < b[0] || (a[0] == b[0] && Less(a[1..], b[1..]))
  }

  /** `a` and `b` share `k` parts, and then `a` ends or has the smaller part. */
  ghost predicate PrecedesAt(a: seq<nat>, b: seq<nat>, k: int) {
    && 0 <= k <= |a| && k <= |b| && a[..k] == b[..k]
    && ((k == |a| && k < |b|) || (k < |a| && k < |b| && a[k] < b[k]))
  }

  ghost predicate Precedes(a: seq<nat>, b: seq<nat>) { exists k :: PrecedesAt(a, b, k) }

  lemma {:induction false} LessMeans(a: seq<nat>, b: seq<nat>)
    ensures Less(a, b) <==> Precedes(a, b)
  {
    if b != [] && a != [] && a[0] == b[0] {
      LessMeans(a[1..], b[1..]);
      if k :| PrecedesAt(a[1..], b[1..], k) {
        assert a[..k + 1] == [a[0]] + a[1..][..k] && b[..k + 1] == [b[0]] + b[1..][..k];
        assert PrecedesAt(a, b, k + 1);
      }
      if k :| PrecedesAt(a, b, k) {
        assert k > 0;
        assert a[1..][..k - 1] == a[..k][1..] && b[1..][..k - 1] == b[..k][1..];
        assert PrecedesAt(a[1..], b[1..], k - 1);
      }
    } else if a != [] && b != [] {
      forall k | 0 < k <= |a| && k <= |b| ensures a[..k] != b[..k] {
        assert a[..k][0] != b[..k][0];
      }
      if a[0] < b[0] { assert PrecedesAt(a, b, 0); }
    } else if b != [] {
      assert PrecedesAt(a, b, 0);
    }
  }

  lemma {:induction false} LessTotal(a: seq<nat>, b: seq<nat>)
    ensures Less(a, b) || a == b || Less(b, a)
    ensures !(Less(a, b) && Less(b, a)) && !Less(a, a)
  {
    if a != [] && b != [] && a[0] == b[0] {
      LessTotal(a[1..], b[1..]);
      assert a == [a[0]] + a[1..] && b == [b[0]] + b[1..];
    }
    if a != [] {
      LessTotal(a[1..], a[1..]);
    }
  }

  lemma {:induction false} LessTransitive(a: seq<nat>, b: seq<nat>, c: seq<nat>)
    requires Less(a, b) && Less(b, c)
    ensures Less(a, c)
  {
    if a != [] && a[0] == b[0] == c[0] {
      LessTransitive(a[1..], b[1..], c[1..]);
    }
  }

  /** The order the resolver uses: several spellings may be equal in it. */
  predicate AtMost(a: Version, b: Version) { !Less(Parse(b), Parse(a)) }

  lemma AtMostTransitive(a: Version, b: Version, c: Version)
    requires AtMost(a, b) && AtMost(b, c)
    ensures AtMost(a, c)
  {
    hide Parse;
    LessTotal(Parse(a), Parse(b));
    LessTotal(Parse(b), Parse(c));
    LessTotal(Parse(a), Parse(c));
    if Less(Parse(c), Parse(a)) {
      if Less(Parse(a), Parse(b)) { LessTransitive(Parse(c), Parse(a), Parse(b)); }
    }
  }

  lemma AtMostReflexive(a: Version)
    ensures AtMost(a, a)
  {
    LessTotal(Parse(a), Parse(a));
  }

  function Max(a: Version, b: Version): Version { if Less(Parse(a), Parse(b)) then b else a }

  lemma MaxIsLeastUpperBound(a: Version, b: Version)
    ensures AtMost(a, Max(a, b)) && AtMost(b, Max(a, b)) && (Max(a, b) == a || Max(a, b) == b)
  {
    hide Parse;
    LessTotal(Parse(a), Parse(b));
    LessTotal(Parse(a), Parse(a));
    LessTotal(Parse(b), Parse(b));
  }

  method CompareVersions(a: Version, b: Version) returns (r: int)
    ensures r == if Less(Parse(a), Parse(b)) then -1 else if Less(Parse(b), Parse(a)) then 1 else 0
    ensures -1 <= r <= 1
    ensures r == -1 <==> Precedes(Parse(a), Parse(b))
    ensures r == 1 <==> Precedes(Parse(b), Parse(a))
  {
    LessMeans(Parse(a), Parse(b));
    LessMeans(Parse(b), Parse(a));
    LessTotal(Parse(a), Parse(b));
    hide Parse, Precedes;
    var pa := ParseVersion(a);
    var pb := ParseVersion(b);
    if Less(pa, pb) { return -1; }
    if Less(pb, pa) { return 1; }
    return 0;
  }

  method MaxVersion(a: Version, b: Version) returns (r: Version)
    ensures r == Max(a, b)
    ensures r == if Precedes(Parse(a), Parse(b)) then b else a
  {
    LessMeans(Parse(a), Parse(b));
    hide Parse, Precedes;
    var c := CompareVersions(a, b);
    LessTotal(Parse(a), Parse(b));
    return if c >= 0 then a else b;
  }
}
