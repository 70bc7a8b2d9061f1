/** Optional values, shared by the models. */
module Options {
  datatype Option<+T> = None | Some(value: T)
}

/** C-string and decimal helpers shared by the models. */
module Text {

  /** Position of the first `c`, or the length. */
  function IndexOf(s: string, c: char): (k: nat)
    ensures k <= |s| && c !in s[..k] && (k < |s| ==> s[k] == c)
  {
    if s == "" || s[0] == c then 0 else 1 + IndexOf(s[1..], c)
  }

  /** The position is determined by what precedes it. */
  lemma IndexIs(s: string, c: char, k: nat)
    requires k <= |s| && c !in s[..k] && (k < |s| ==> s[k] == c)
    ensures IndexOf(s, c) == k
  {
  }

  lemma {:induction false} IndexAfter(a: string, c: char, b: string)
    requires c !in a
    ensures IndexOf(a + [c] + b, c) == |a|
  {
    if a != "" {
      IndexAfter(a[1..], c, b);
      assert (a + [c] + b)[1..] == a[1..] + [c] + b;
    }
  }

  predicate IsDigit(c: char) {
    '0' <= c <= '9'
  }

  predicate AllDigits(s: string) {
    forall k :: 0 <= k < |s| ==> IsDigit(s[k])
  }

  function Value(s: string): (n: nat)
    requires AllDigits(s)
  {
    if s == "" then 0 else 10 * Value(s[..|s| - 1]) + (s[|s| - 1] as int - '0' as int)
  }

  /** Decimal rendering without leading zeros. */
  function Digits(n: nat): (s: string)
    ensures s != "" && AllDigits(s) && (s[0] == '0' <==> n == 0)
  {
    if n < 10 then [(n + '0' as int) as char] else Digits(n / 10) + [(n % 10 + '0' as int) as char]
  }

  lemma {:induction false} ValueOfDigits(n: nat)
    ensures Value(Digits(n)) == n
  {
    if n >= 10 {
      ValueOfDigits(n / 10);
      assert Digits(n)[..|Digits(n)| - 1] == Digits(n / 10);
    } else {
      assert Digits(n)[..0] == "";
    }
  }

  /** How many digits lead the text. */
  function DigitRun(s: string): (k: nat)
    ensures k <= |s| && AllDigits(s[..k]) && (k < |s| ==> !IsDigit(s[k]))
  {
    if s == "" || !IsDigit(s[0]) then 0 else 1 + DigitRun(s[1..])
  }

  /** The text of a character array, up to its terminator. */
  function CString(a: seq<char>): (s: string)
    requires '\0' in a
    ensures |s| < |a| && s == a[..|s|] && '\0' !in s && a[|s|] == '\0'
  {
    assert '\0' in a[..|a|];
    a[..IndexOf(a, '\0')]
  }

  lemma CStringIs(a: seq<char>, s: string)
    requires |s| < |a| && a[..|s|] == s && '\0' !in s && a[|s|] == '\0'
    ensures '\0' in a && CString(a) == s
  {
  }

  function Take(s: string, n: nat): (r: string) {
    if |s| <= n then s else s[..n]
  }

  // ----- strtol -----

  predicate IsSpace(c: char) {
    c == ' ' || '\t' <= c <= '\r'
  }

  predicate AllSpaces(s: string) {
    forall k :: 0 <= k < |s| ==> IsSpace(s[k])
  }

  function SpaceRun(s: string): (k: nat)
    ensures k <= |s|
  {
    if s == "" || !IsSpace(s[0]) then 0 else 1 + SpaceRun(s[1..])
  }

  const LONG_MAX := 0x7FFF_FFFF_FFFF_FFFF

  /** Out of range values stick at the limits of a 64-bit long. */
  function ClampToLong(x: int): (r: int)
    ensures -LONG_MAX - 1 <= r <= LONG_MAX && (x < r ==> r == -LONG_MAX - 1) && (r < x ==> r == LONG_MAX)
  {
    if x > LONG_MAX then LONG_MAX else if x < -LONG_MAX - 1 then -LONG_MAX - 1 else x
  }

  /** The number strtol reads in base 10, and where it stops: spaces, a sign, digits; without
      digits, 0 and nothing consumed. */
  function ReadNumber(s: string): (r: (int, nat))
    ensures r.1 <= |s|
  {
    var a := SpaceRun(s);
    var sign := if a < |s| && (s[a] == '-' || s[a] == '+') then 1 else 0;
    var t := s[a + sign..];
    var d := DigitRun(t);
    if d == 0 then (0, 0)
    else (if sign == 1 && s[a] == '-' then 0 - Value(t[..d]) else Value(t[..d]), a + sign + d)
  }

  function Strtol(s: string): (r: (int, nat))
    ensures r.1 <= |s|
  {
    (ClampToLong(ReadNumber(s).0), ReadNumber(s).1)
  }

  /** On a digit string, whatever follows it. */
  lemma ReadDigits(s: string, rest: string)
    requires AllDigits(s) && (rest == "" || !IsDigit(rest[0])) && s != ""
    ensures ReadNumber(s + rest) == (Value(s), |s|)
  {
    hide DigitRun, Value;
    var t := s + rest;
    DigitRunStops(s, rest);
    assert IsDigit(t[0]) && SpaceRun(t) == 0;
    assert t[0..] == t && t[..|s|] == s;
  }

  lemma {:induction false} SpaceRunStops(spaces: string, rest: string)
    requires AllSpaces(spaces) && (rest == "" || !IsSpace(rest[0]))
    ensures SpaceRun(spaces + rest) == |spaces|
  {
    if spaces == "" {
      assert spaces + rest == rest;
    } else {
      SpaceRunStops(spaces[1..], rest);
      assert (spaces + rest)[1..] == spaces[1..] + rest;
    }
  }

  lemma ReadAfterSpaces(s: string, a: nat, sign: nat, digits: string, rest: string)
    requires SpaceRun(s) == a && a < |s| && AllDigits(digits) && digits != "" && DigitRun(digits + rest) == |digits|
    requires sign == (if s[a] == '-' || s[a] == '+' then 1 else 0) && s[a + sign..] == digits + rest
    ensures ReadNumber(s) == (if s[a] == '-' then 0 - Value(digits) else Value(digits), a + sign + |digits|)
  {
    hide DigitRun, SpaceRun, Value;
    assert (digits + rest)[..|digits|] == digits;
  }

  /** At most one of '-' and '+'. */
  predicate IsSign(sign: string) {
    |sign| == 0 || (|sign| == 1 && (sign[0] == '-' || sign[0] == '+'))
  }

  predicate Negative(sign: string) {
    |sign| == 1 && sign[0] == '-'
  }

  /** What is read in general: spaces are passed over, a sign counts, and the number ends where
      its digits end. */
  lemma ReadSigned(spaces: string, sign: string, digits: string, rest: string)
    requires AllSpaces(spaces) && IsSign(sign)
    requires AllDigits(digits) && digits != "" && (rest == "" || !IsDigit(rest[0]))
    ensures ReadNumber(spaces + (sign + (digits + rest))) ==
            (if Negative(sign) then 0 - Value(digits) else Value(digits), |spaces| + |sign| + |digits|)
  {
    hide DigitRun, SpaceRun, Value, ReadNumber, AllDigits, AllSpaces, IsSpace, IsDigit, IsSign, Negative;
    var number := digits + rest;
    var tail := sign + number;
    var s := spaces + tail;
    FirstOfNumber(sign, digits, rest);
    SpaceRunStops(spaces, tail);
    DigitRunStops(digits, rest);
    assert s[|spaces|] == tail[0];
    assert s[|spaces|..] == tail && tail[|sign|..] == number;
    assert s[|spaces| + |sign|..] == number;
    ReadAfterSpaces(s, |spaces|, |sign|, digits, rest);
  }

  lemma FirstOfNumber(sign: string, digits: string, rest: string)
    requires IsSign(sign) && AllDigits(digits) && digits != ""
    ensures var c := (sign + (digits + rest))[0];
            && !IsSpace(c) && (c == '-' <==> Negative(sign))
            && |sign| == if c == '-' || c == '+' then 1 else 0
  {
    assert (sign + (digits + rest))[0] == if |sign| == 0 then digits[0] else sign[0];
    assert IsDigit(digits[0]);
  }

  lemma {:induction false} DigitRunStops(d: string, rest: string)
    requires AllDigits(d) && (rest == "" || !IsDigit(rest[0]))
    ensures DigitRun(d + rest) == |d|
  {
    if d == "" {
      assert d + rest == rest;
    } else {
      DigitRunStops(d[1..], rest);
      assert (d + rest)[1..] == d[1..] + rest;
    }
  }
}
