/** Stable version strings compared part by part, without converting digits to machine numbers. */
module VersionOrder {
  import opened Common

  predicate IsDigit(c: char) { '0' <= c <= '9' }

  /** 0|[1-9]\d* */
  predicate Numeral(s: string) {
    s != "" && Digits(s) && (s[0] == '0' ==> |s| == 1)
  }

  /** String.prototype.split("."). */
  function Split(s: string): (parts: seq<string>)
    ensures parts != []
  {
    if s == "" then [""]
    else if s[0] == '.' then [""] + Split(s[1..])
    else var rest := Split(s[1..]); [[s[0]] + rest[0]] + rest[1..]
  }

  predicate Stable(version: string) {
    var parts := Split(version);
    |parts| == 3 && Numeral(parts[0]) && Numeral(parts[1]) && Numeral(parts[2])
  }

  // ---------------------------------------------------------------- one identifier

  /** -1, 0 or 1 by the first differing character, then by length. */
  function Lexicographic(a: string, b: string): int {
    if a == "" then (if b == "" then 0 else -1)
    else if b == "" then 1
    else if a[0] < b[0] then -1
    else if a[0] > b[0] then 1
    else Lexicographic(a[1..], b[1..])
  }

  function CompareNumericIdentifiers(left: string, right: string): int {
    if |left| != |right| then (if |left| < |right| then -1 else 1) else Lexicographic(left, right)
  }

  function Pow10(k: nat): nat { if k == 0 then 1 else 10 * Pow10(k - 1) }

  function Digit(c: char): (d: nat)
    requires IsDigit(c)
    ensures d <= 9
  {
    c as int - '0' as int
  }

  predicate Digits(s: string) { forall i | 0 <= i < |s| :: IsDigit(s[i]) }

  /** The unbounded integer a digit string denotes. */
  function Value(s: string): nat
    requires Digits(s)
  {
    if s == "" then 0 else Digit(s[0]) * Pow10(|s| - 1) + Value(s[1..])
  }

  function Order(a: int, b: int): int { if a < b then -1 else if a > b then 1 else 0 }

  /** A larger leading digit outweighs any remainder. */
  lemma {:induction false} Outweighs(x: nat, y: nat, p: nat, u: nat, v: nat)
    requires x < y && u < p
    ensures x * p + u < y * p + v
  {
    assert x * p + p == (x + 1) * p;
    assert (x + 1) * p <= y * p;
  }

  lemma {:induction false} ValueBelow(s: string)
    requires Digits(s)
    ensures Value(s) < Pow10(|s|)
  {
    if s != "" {
      ValueBelow(s[1..]);
      Outweighs(Digit(s[0]), 10, Pow10(|s| - 1), Value(s[1..]), 0);
    }
  }

  lemma {:induction false} Pow10Monotone(a: nat, b: nat)
    requires a <= b
    ensures 1 <= Pow10(a) <= Pow10(b)
  {
    if b > a { Pow10Monotone(a, b - 1); } else if a > 0 { Pow10Monotone(a - 1, a - 1); }
  }

  /** Equal lengths: the lexicographic order is the numeric order. */
  lemma {:induction false} SameLength(a: string, b: string)
    requires |a| == |b| && Digits(a) && Digits(b)
    ensures Lexicographic(a, b) == Order(Value(a), Value(b))
  {
    hide Pow10;
    if a != "" {
      ValueBelow(a[1..]);
      ValueBelow(b[1..]);
      var x, y, p := Digit(a[0]), Digit(b[0]), Pow10(|a| - 1);
      if x < y {
        Outweighs(x, y, p, Value(a[1..]), Value(b[1..]));
      } else if y < x {
        Outweighs(y, x, p, Value(b[1..]), Value(a[1..]));
      } else {
        SameLength(a[1..], b[1..]);
      }
    }
  }

  lemma {:induction false} ShorterIsSmaller(a: string, b: string)
    requires Numeral(a) && Numeral(b) && |a| < |b|
    ensures Value(a) < Value(b)
  {
    hide Pow10;
    ValueBelow(a);
    Pow10Monotone(|a|, |b| - 1);
    Outweighs(0, Digit(b[0]), Pow10(|b| - 1), Value(a), Value(b[1..]));
  }

  /** Comparing numerals by length and then by characters compares the integers they denote. */
  lemma {:induction false} IdentifierOrder(left: string, right: string)
    requires Numeral(left) && Numeral(right)
    ensures CompareNumericIdentifiers(left, right) == Order(Value(left), Value(right))
    ensures CompareNumericIdentifiers(left, right) == 0 <==> left == right
  {
    if |left| < |right| {
      ShorterIsSmaller(left, right);
    } else if |right| < |left| {
      ShorterIsSmaller(right, left);
    } else {
      SameLength(left, right);
      LexicographicZero(left, right);
    }
  }

  lemma {:induction false} LexicographicZero(a: string, b: string)
    ensures Lexicographic(a, b) == 0 <==> a == b
  {
    if a != "" && b != "" {
      LexicographicZero(a[1..], b[1..]);
      assert a == [a[0]] + a[1..] && b == [b[0]] + b[1..];
    }
  }

  // ---------------------------------------------------------------- whole versions

  /** The integer triple of a stable version. */
  function Triple(version: string): (int, int, int)
    requires Stable(version)
  {
    var parts := Split(version);
    (Value(parts[0]), Value(parts[1]), Value(parts[2]))
  }

  /** Precedence of item 11 of Semantic Versioning 2.0.0 for versions without pre-release parts. */
  function Precedence(a: (int, int, int), b: (int, int, int)): int {
    if a.0 != b.0 then Order(a.0, b.0) else if a.1 != b.1 then Order(a.1, b.1) else Order(a.2, b.2)
  }

  datatype VersionError = NotStable

  /** Empty when either side is not stable; otherwise their precedence. */
  function Compared(left: string, right: string): Result<int, VersionError> {
    if Stable(left) && Stable(right) then Ok(Precedence(Triple(left), Triple(right))) else Err(NotStable)
  }

  method CompareStableVersions(left: string, right: string) returns (r: Result<int, VersionError>)
    ensures r == Compared(left, right)
  {
    if !Stable(left) || !Stable(right) { return Err(NotStable); }
    var leftParts, rightParts := Split(left), Split(right);
    for index := 0 to |leftParts|
      invariant forall i | 0 <= i < index :: leftParts[i] == rightParts[i]
    {
      var comparison := CompareNumericIdentifiers(leftParts[index], rightParts[index]);
      IdentifierOrder(leftParts[index], rightParts[index]);
      if comparison != 0 { return Ok(comparison); }
    }
    return Ok(0);
  }

  function Join(parts: seq<string>): string
    requires parts != []
  {
    if |parts| == 1 then parts[0] else parts[0] + "." + Join(parts[1..])
  }

  lemma {:induction false} JoinCons(first: string, rest: seq<string>)
    requires rest != []
    ensures Join([first] + rest) == first + "." + Join(rest)
  {
    assert ([first] + rest)[1..] == rest;
  }

  lemma {:induction false} JoinExtend(c: char, parts: seq<string>)
    requires parts != []
    ensures Join([[c] + parts[0]] + parts[1..]) == [c] + Join(parts)
  {
    if |parts| == 1 {
      assert [[c] + parts[0]] + parts[1..] == [[c] + parts[0]];
    } else {
      JoinCons([c] + parts[0], parts[1..]);
      assert [c] + parts[0] + "." + Join(parts[1..]) == [c] + (parts[0] + "." + Join(parts[1..]));
    }
  }

  lemma {:induction false} JoinSplit(s: string)
    ensures Join(Split(s)) == s
  {
    hide Join;
    if s == "" {
      JoinOne("");
    } else {
      JoinSplit(s[1..]);
      if s[0] == '.' { JoinCons("", Split(s[1..])); } else { JoinExtend(s[0], Split(s[1..])); }
      assert s == [s[0]] + s[1..];
      assert "" + "." + s[1..] == ['.'] + s[1..];
    }
  }

  lemma {:induction false} JoinOne(s: string)
    ensures Join([s]) == s
  {
  }

  lemma {:induction false} EqualTriples(a: string, b: string)
    requires Stable(a) && Stable(b) && Triple(a) == Triple(b)
    ensures a == b
  {
    var p, q := Split(a), Split(b);
    IdentifierOrder(p[0], q[0]);
    IdentifierOrder(p[1], q[1]);
    IdentifierOrder(p[2], q[2]);
    assert p == [p[0], p[1], p[2]] && q == [q[0], q[1], q[2]];
    JoinSplit(a);
    JoinSplit(b);
  }

  /** On stable versions the comparison is a total order whose ties are equal strings. */
  lemma {:induction false} StableVersionsAreTotallyOrdered(a: string, b: string, c: string)
    requires Stable(a) && Stable(b) && Stable(c)
    ensures Compared(a, b).value == 0 <==> a == b
    ensures Compared(a, b).value == -Compared(b, a).value
    ensures Compared(a, b).value <= 0 && Compared(b, c).value <= 0 ==> Compared(a, c).value <= 0
  {
    if Triple(a) == Triple(b) { EqualTriples(a, b); }
  }
}
