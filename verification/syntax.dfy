/** The lexical classes of the expression language: the operation keywords,
    variable names (`isLiteral`) and 32-bit integer literals (`isNumeric`). */
module Syntax {
  import opened Wrappers

  const OP_LET := "let"
  const OP_ADD := "add"
  const OP_SUB := "sub"
  const OP_MUL := "mult"
  const OP_DIV := "div"
  const OP_VAR := "var"
  const OP_INT := "int"

  const INT_MIN: int := -0x8000_0000
  const INT_MAX: int := 0x7fff_ffff

  /** The five case-sensitive operation names. */
  predicate IsKeyword(t: string) {
    t == OP_LET || t == OP_ADD || t == OP_SUB || t == OP_MUL || t == OP_DIV
  }

  /** Number of operands of an operation: three for `let`, two otherwise. */
  function Arity(op: string): nat {
    if op == OP_LET then 3 else 2
  }

  predicate IsLetter(c: char) {
    'a' <= c <= 'z' || 'A' <= c <= 'Z'
  }

  predicate IsDigit(c: char) {
    '0' <= c <= '9'
  }

  /** `isLiteral`: the token matches ^[a-zA-Z]+$ */
  predicate IsLiteral(t: string) {
    |t| > 0 && forall i :: 0 <= i < |t| ==> IsLetter(t[i])
  }

  predicate IsDigits(s: string) {
    |s| > 0 && forall i :: 0 <= i < |s| ==> IsDigit(s[i])
  }

  function DigitValue(c: char): nat
    requires IsDigit(c)
  {
    c as int - '0' as int
  }

  function DigitChar(d: nat): (c: char)
    requires d < 10
    ensures IsDigit(c) && DigitValue(c) == d
  {
    ('0' as int + d) as char
  }

  /** The value of a string of decimal digits, most significant first. */
  function DigitsValue(s: string): nat
    requires forall i :: 0 <= i < |s| ==> IsDigit(s[i])
  {
    if |s| == 0 then 0 else 10 * DigitsValue(s[..|s| - 1]) + DigitValue(s[|s| - 1])
  }

  /** The integer a token spells in the syntax of Integer.parseInt, ignoring
      range: an optional '+' or '-' followed by at least one digit. */
  function SignedValue(t: string): Option<int> {
    if |t| > 0 && (t[0] == '-' || t[0] == '+') then
      if IsDigits(t[1..]) then
        Some(if t[0] == '-' then -(DigitsValue(t[1..]) as int) else DigitsValue(t[1..]))
      else None
    else if IsDigits(t) then Some(DigitsValue(t))
    else None
  }

  predicate InIntRange(i: int) {
    INT_MIN <= i <= INT_MAX
  }

  /** `isNumeric`: Integer.parseInt accepts the token, so it spells an
      integer of the 32-bit range. */
  predicate IsNumeric(t: string) {
    SignedValue(t).Some? && InIntRange(SignedValue(t).value)
  }

  function ParseInt(t: string): (i: int)
    requires IsNumeric(t)
    ensures InIntRange(i)
  {
    SignedValue(t).value
  }

  /** A prefix of a digit string is worth no more than the whole. */
  lemma {:induction false} DigitsValuePrefix(s: string, j: nat)
    requires IsDigits(s) && j <= |s|
    ensures forall i :: 0 <= i < j ==> IsDigit(s[..j][i])
    ensures DigitsValue(s[..j]) <= DigitsValue(s)
    decreases |s|
  {
    if j < |s| {
      var init := s[..|s| - 1];
      assert init[..j] == s[..j];
      if |init| > 0 {
        DigitsValuePrefix(init, j);
      }
    } else {
      assert s[..j] == s;
    }
  }

  /** `isLiteral(literal)`: a null argument is no name; otherwise every
      character, and at least one, must be an ASCII letter. */
  method MatchLiteral(literal: Option<string>) returns (b: bool)
    ensures b <==> literal.Some? && IsLiteral(literal.value)
  {
    if literal.None? {
      return false;
    }
    var s := literal.value;
    if |s| == 0 {
      return false;
    }
    var i := 0;
    while i < |s|
      invariant 0 <= i <= |s|
      invariant forall k :: 0 <= k < i ==> IsLetter(s[k])
    {
      if !IsLetter(s[i]) {
        return false;
      }
      i := i + 1;
    }
    return true;
  }

  /** `isNumeric(literal)`: whether Integer.parseInt accepts the token. A
      null or empty token and a lone sign are rejected; the digits after an
      optional sign are accumulated from the left, and the scan rejects the
      token as soon as a character is no digit or the magnitude passes the
      bound of its sign (2^31 - 1 for a positive, 2^31 for a negative value). */
  method CheckNumeric(literal: Option<string>) returns (b: bool)
    ensures b <==> literal.Some? && IsNumeric(literal.value)
  {
    if literal.None? {
      return false;
    }
    var s := literal.value;
    if |s| == 0 {
      return false;
    }
    var start := if s[0] == '-' || s[0] == '+' then 1 else 0;
    if start == |s| {
      return false;
    }
    var limit := if s[0] == '-' then -INT_MIN else INT_MAX;
    var digits := s[start..];
    var acc := 0;
    var i := 0;
    while i < |digits|
      invariant 0 <= i <= |digits|
      invariant forall k :: 0 <= k < i ==> IsDigit(digits[k])
      invariant acc == DigitsValue(digits[..i]) && acc <= limit
    {
      if !IsDigit(digits[i]) {
        assert !IsDigits(digits);
        return false;
      }
      assert digits[..i + 1][..i] == digits[..i];
      acc := 10 * acc + DigitValue(digits[i]);
      if acc > limit {
        if IsDigits(digits) {
          DigitsValuePrefix(digits, i + 1);
        }
        return false;
      }
      i := i + 1;
    }
    assert digits[..i] == digits;
    return true;
  }

  /** The decimal spelling of a natural number, without leading zeros. */
  function ShowNat(n: nat): (s: string)
    ensures IsDigits(s)
    decreases n
  {
    if n < 10 then [DigitChar(n)] else ShowNat(n / 10) + [DigitChar(n % 10)]
  }

  /** The decimal spelling of an integer, with a leading '-' when negative. */
  function ShowInt(i: int): (s: string)
    ensures |s| > 0 && (IsDigit(s[0]) || s[0] == '-')
    ensures forall k :: 0 <= k < |s| ==> IsDigit(s[k]) || s[k] == '-'
  {
    if i < 0 then "-" + ShowNat(-i) else ShowNat(i)
  }

  lemma {:induction false} DigitsValueShowNat(n: nat)
    ensures DigitsValue(ShowNat(n)) == n
    decreases n
  {
    if n >= 10 {
      var s := ShowNat(n);
      assert s[..|s| - 1] == ShowNat(n / 10);
      DigitsValueShowNat(n / 10);
    }
  }

  /** Parsing what ShowInt prints gives the integer back. */
  lemma ShowIntRoundTrip(i: int)
    ensures SignedValue(ShowInt(i)) == Some(i)
  {
    if i < 0 {
      assert ShowInt(i)[1..] == ShowNat(-i);
      DigitsValueShowNat(-i);
    } else {
      DigitsValueShowNat(i);
    }
  }

  /** A decimal spelling is numeric exactly when the integer fits in 32 bits:
      the bound of Integer.parseInt. */
  lemma ShowIntNumeric(i: int)
    ensures IsNumeric(ShowInt(i)) <==> InIntRange(i)
    ensures IsNumeric(ShowInt(i)) ==> ParseInt(ShowInt(i)) == i
  {
    ShowIntRoundTrip(i);
  }

  /** No token is both a variable name and an integer, so the order of the
      two tests matters only against keywords. */
  lemma LiteralNotNumeric(t: string)
    ensures !(IsLiteral(t) && IsNumeric(t))
  {
    if IsLiteral(t) {
      assert IsLetter(t[0]);
    }
  }

  /** Every keyword also matches the variable pattern; keywords win because
      they are checked first. */
  lemma KeywordsAreLiterals(t: string)
    requires IsKeyword(t)
    ensures IsLiteral(t) && !IsNumeric(t)
  {
    LiteralNotNumeric(t);
  }
}
