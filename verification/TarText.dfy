/** The three text layers of a tar header: octal numbers, NUL-terminated strings and UTF-8. */
module TarText {
  import opened Common

  // ---------------------------------------------------------------- octal printing

  const ZERO: byte := 48

  predicate IsOctalDigit(b: byte) { 48 <= b < 56 }

  predicate AllOctal(s: seq<byte>) { forall i | 0 <= i < |s| :: IsOctalDigit(s[i]) }

  function Pow8(k: nat): nat { if k == 0 then 1 else 8 * Pow8(k - 1) }

  function Repeat(b: byte, n: nat): (s: seq<byte>)
    ensures |s| == n && forall i | 0 <= i < n :: s[i] == b
  {
    seq(n, _ => b)
  }

  /** Number.prototype.toString(8). */
  function OctalText(n: nat): (s: seq<byte>)
    ensures s != [] && AllOctal(s)
  {
    if n < 8 then [48 + n] else OctalText(n / 8) + [48 + n % 8]
  }

  function PadZeros(s: seq<byte>, width: nat): seq<byte> {
    if |s| >= width then s else Repeat(ZERO, width - |s|) + s
  }

  /** Value of a digit string, most significant digit first. */
  function OctalValue(s: seq<byte>): nat
    requires AllOctal(s)
  {
    if s == [] then 0 else OctalValue(s[..|s| - 1]) * 8 + (s[|s| - 1] - 48)
  }

  lemma {:induction false} OctalTextValue(n: nat)
    ensures OctalValue(OctalText(n)) == n
  {
    if n >= 8 {
      var high := OctalText(n / 8);
      assert OctalText(n)[..|high|] == high;
      OctalTextValue(n / 8);
    } else {
      assert [48 + n][..0] == [];
    }
  }

  /** A number prints in at most k digits exactly when it is below 8^k. */
  lemma {:induction false} OctalTextLength(n: nat, k: nat)
    requires k > 0
    ensures |OctalText(n)| <= k <==> n < Pow8(k)
    decreases k
  {
    if k == 1 {
      assert Pow8(1) == 8;
    } else {
      OctalTextLength(n / 8, k - 1);
    }
  }

  lemma {:induction false} PaddingKeepsValue(s: seq<byte>, zeros: nat)
    requires AllOctal(s)
    ensures AllOctal(Repeat(ZERO, zeros) + s)
    ensures OctalValue(Repeat(ZERO, zeros) + s) == OctalValue(s)
    decreases |s| + zeros
  {
    var t := Repeat(ZERO, zeros) + s;
    if s != [] {
      assert t[..|t| - 1] == Repeat(ZERO, zeros) + s[..|s| - 1];
      PaddingKeepsValue(s[..|s| - 1], zeros);
    } else if zeros > 0 {
      assert t[..|t| - 1] == Repeat(ZERO, zeros - 1) + [];
      PaddingKeepsValue([], zeros - 1);
    }
  }

  // ---------------------------------------------------------------- octal parsing

  /** Buffer.toString("ascii"): the top bit of every byte is dropped. */
  function Ascii(s: seq<byte>): (r: seq<byte>)
    ensures |r| == |s| && forall i | 0 <= i < |s| :: r[i] == s[i] % 128
  {
    seq(|s|, i requires 0 <= i < |s| => s[i] % 128)
  }

  predicate IsNulOrSpace(b: byte) { b == 0 || b == 32 }

  predicate IsAsciiWhitespace(b: byte) { 9 <= b <= 13 || b == 32 }

  function DropTrailingPadding(s: seq<byte>): seq<byte> {
    if s != [] && IsNulOrSpace(s[|s| - 1]) then DropTrailingPadding(s[..|s| - 1]) else s
  }

  function TrimEnd(s: seq<byte>): seq<byte> {
    if s != [] && IsAsciiWhitespace(s[|s| - 1]) then TrimEnd(s[..|s| - 1]) else s
  }

  function TrimStart(s: seq<byte>): seq<byte> {
    if s != [] && IsAsciiWhitespace(s[0]) then TrimStart(s[1..]) else s
  }

  function ParseOctal(field: seq<byte>): Option<nat> {
    var raw := TrimEnd(TrimStart(DropTrailingPadding(Ascii(field))));
    if raw == [] then Some(0)
    else if AllOctal(raw) then Some(OctalValue(raw))
    else None
  }

  /** Digits followed by NULs and spaces, as the canonical writer emits them, read back as their value. */
  lemma {:induction false} ParseOctalOfDigits(digits: seq<byte>, padding: seq<byte>)
    requires digits != [] && AllOctal(digits)
    requires forall i | 0 <= i < |padding| :: IsNulOrSpace(padding[i])
    ensures ParseOctal(digits + padding) == Some(OctalValue(digits))
  {
    assert Ascii(digits + padding) == digits + padding;
    DropPaddingAfterDigits(digits, padding);
    assert TrimStart(digits) == digits;
    assert TrimEnd(digits) == digits;
  }

  lemma {:induction false} DropPaddingAfterDigits(digits: seq<byte>, padding: seq<byte>)
    requires digits != [] && AllOctal(digits)
    requires forall i | 0 <= i < |padding| :: IsNulOrSpace(padding[i])
    ensures DropTrailingPadding(digits + padding) == digits
  {
    var s := digits + padding;
    if padding == [] {
      assert s == digits;
    } else {
      assert s[|s| - 1] == padding[|padding| - 1];
      assert s[..|s| - 1] == digits + padding[..|padding| - 1];
      DropPaddingAfterDigits(digits, padding[..|padding| - 1]);
    }
  }

  /** No header field is wide enough to leave the safe-integer range, so that check of the parser never fires. */
  lemma {:induction false} OctalValueBound(s: seq<byte>)
    requires AllOctal(s)
    ensures OctalValue(s) < Pow8(|s|)
  {
    if s != [] {
      OctalValueBound(s[..|s| - 1]);
    }
  }

  lemma {:induction false} DropsShorten(s: seq<byte>)
    ensures |DropTrailingPadding(s)| <= |s| && |TrimEnd(s)| <= |s| && |TrimStart(s)| <= |s|
  {
    if s != [] {
      DropsShorten(s[..|s| - 1]);
      DropsShorten(s[1..]);
    }
  }

  lemma {:induction false} Pow8Monotone(a: nat, b: nat)
    requires a <= b
    ensures Pow8(a) <= Pow8(b)
  {
    if a < b { Pow8Monotone(a, b - 1); }
  }

  lemma {:induction false} ParsedOctalIsSafe(field: seq<byte>)
    requires |field| <= 12
    ensures ParseOctal(field).Some? ==> ParseOctal(field).value < 0x20_0000_0000_0000
  {
    var a := DropTrailingPadding(Ascii(field));
    var raw := TrimEnd(TrimStart(a));
    DropsShorten(Ascii(field));
    DropsShorten(a);
    DropsShorten(TrimStart(a));
    if AllOctal(raw) {
      OctalValueBound(raw);
      Pow8Monotone(|raw|, 12);
      assert Pow8(12) == 0x10_0000_0000 by {
        assert Pow8(4) == 4096;
        assert Pow8(8) == 0x100_0000;
      }
    }
  }

  // ---------------------------------------------------------------- strings

  /** The bytes before the first NUL, or the whole field. */
  function UntilNul(field: seq<byte>): seq<byte> {
    if field == [] || field[0] == 0 then [] else [field[0]] + UntilNul(field[1..])
  }

  predicate NulFree(s: seq<byte>) { forall i | 0 <= i < |s| :: s[i] != 0 }

  lemma {:induction false} UntilNulOfPadded(s: seq<byte>, zeros: nat)
    requires NulFree(s)
    ensures UntilNul(s + Repeat(0, zeros)) == s
  {
    if s == [] {
      assert s + Repeat(0, zeros) == Repeat(0, zeros);
    } else {
      assert (s + Repeat(0, zeros))[1..] == s[1..] + Repeat(0, zeros);
      UntilNulOfPadded(s[1..], zeros);
    }
  }

  // ---------------------------------------------------------------- UTF-8

  // States of the well-formedness automaton of Table 3-7 of the Unicode Standard.
  const ACCEPT := 0
  const REJECT := 8

  function Utf8Step(state: nat, b: byte): nat {
    if state == 0 then
      if b < 0x80 then 0
      else if 0xC2 <= b <= 0xDF then 1
      else if b == 0xE0 then 3
      else if b == 0xED then 4
      else if 0xE1 <= b <= 0xEF then 2
      else if b == 0xF0 then 5
      else if 0xF1 <= b <= 0xF3 then 6
      else if b == 0xF4 then 7
      else REJECT
    else if state == 1 && 0x80 <= b <= 0xBF then 0
    else if state == 2 && 0x80 <= b <= 0xBF then 1
    else if state == 3 && 0xA0 <= b <= 0xBF then 1
    else if state == 4 && 0x80 <= b <= 0x9F then 1
    else if state == 5 && 0x90 <= b <= 0xBF then 2
    else if state == 6 && 0x80 <= b <= 0xBF then 2
    else if state == 7 && 0x80 <= b <= 0x8F then 2
    else REJECT
  }

  function Utf8Run(state: nat, s: seq<byte>): nat
    decreases |s|
  {
    if s == [] then state else Utf8Run(Utf8Step(state, s[0]), s[1..])
  }

  predicate ValidUtf8(s: seq<byte>) { Utf8Run(ACCEPT, s) == ACCEPT }

  const BOM: seq<byte> := [0xEF, 0xBB, 0xBF]

  predicate StartsWithBom(s: seq<byte>) { |s| >= 3 && s[..3] == BOM }

  /** TextDecoder("utf-8", { fatal: true }): rejects ill-formed input and drops one leading byte-order mark. */
  function Decode(s: seq<byte>): Option<seq<byte>> {
    if !ValidUtf8(s) then None
    else if StartsWithBom(s) then Some(s[3..])
    else Some(s)
  }

  lemma {:induction false} Utf8RunConcat(state: nat, a: seq<byte>, b: seq<byte>)
    ensures Utf8Run(state, a + b) == Utf8Run(Utf8Run(state, a), b)
    decreases |a|
  {
    if a == [] {
      assert a + b == b;
    } else {
      assert (a + b)[1..] == a[1..] + b;
      Utf8RunConcat(Utf8Step(state, a[0]), a[1..], b);
    }
  }

  lemma {:induction false} RejectIsFinal(s: seq<byte>)
    ensures Utf8Run(REJECT, s) == REJECT
  {
    if s != [] { RejectIsFinal(s[1..]); }
  }

  /** An ASCII byte is a character boundary: well-formedness splits around it, in both directions. */
  lemma {:induction false} AsciiSplitsUtf8(a: seq<byte>, b: byte, c: seq<byte>)
    requires b < 0x80
    ensures ValidUtf8(a + [b] + c) <==> ValidUtf8(a) && ValidUtf8(c)
  {
    Utf8RunConcat(ACCEPT, a + [b], c);
    Utf8RunConcat(ACCEPT, a, [b]);
    var q := Utf8Run(ACCEPT, a);
    assert Utf8Run(q, [b]) == Utf8Step(q, b) by { assert [b][1..] == []; }
    if q != ACCEPT {
      RejectIsFinal(c);
    }
  }

  lemma {:induction false} DecodedIsValid(s: seq<byte>)
    ensures Decode(s).Some? ==> ValidUtf8(Decode(s).value)
  {
    if ValidUtf8(s) && StartsWithBom(s) {
      assert s == BOM + s[3..];
      Utf8RunConcat(ACCEPT, BOM, s[3..]);
      BomIsOneCharacter();
    }
  }

  lemma {:induction false} BomIsOneCharacter()
    ensures Utf8Run(ACCEPT, BOM) == ACCEPT
  {
    assert BOM[1..] == [0xBB, 0xBF] && BOM[1..][1..] == [0xBF] && BOM[1..][1..][1..] == [];
    assert Utf8Run(1, [0xBF]) == Utf8Run(0, [0xBF][1..]);
    assert Utf8Run(2, [0xBB, 0xBF]) == Utf8Run(1, [0xBB, 0xBF][1..]);
  }
}
