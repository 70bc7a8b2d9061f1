/** Agent IDs (src/addagent/validate.c): validation, three-digit formatting, and allocation. */
module AgentIds {
  import opened Options
  import opened Text

  /** OS_IsValidID: at most eight digits, possibly none. */
  predicate ValidId(s: string) {
    |s| <= 8 && AllDigits(s)
  }

  method IsValidId(id: Option<string>) returns (valid: bool)
    ensures valid <==> id.Some? && ValidId(id.value)
  {
    if id.None? || |id.value| > 8 {
      return false;
    }
    for i := 0 to |id.value|
      invariant forall k :: 0 <= k < i ==> IsDigit(id.value[k])
    {
      if !IsDigit(id.value[i]) {
        return false;
      }
    }
    valid := true;
  }

  // ----- reading and writing numbers -----

  /** Conversion of a long to a 32-bit int. */
  function ToInt(x: int): (r: int)
    ensures -0x8000_0000 <= r < 0x8000_0000 && (x - r) % 0x1_0000_0000 == 0
  {
    (x + 0x8000_0000) % 0x1_0000_0000 - 0x8000_0000
  }

  lemma SmallToInt(x: int)
    requires -0x8000_0000 <= x < 0x8000_0000
    ensures ToInt(ClampToLong(x)) == x
  {
  }

  lemma ReadNothing()
    ensures ReadNumber("") == (0, 0) && Value("") == 0
  {
    assert SpaceRun("") == 0 && DigitRun("") == 0;
  }

  lemma ReadWhole(s: string)
    requires AllDigits(s)
    ensures ReadNumber(s) == (Value(s), |s|)
  {
    hide ReadNumber, Value;
    if s == "" {
      ReadNothing();
    } else {
      ReadDigits(s, "");
      assert s + "" == s;
    }
  }

  /** A valid ID is read entirely and exactly. */
  lemma NumberOfValidId(s: string)
    requires ValidId(s)
    ensures Strtol(s).1 == |s| && ToInt(Strtol(s).0) == Value(s)
  {
    hide ReadNumber, ClampToLong, ToInt, Value;
    ReadWhole(s);
    EightDigits(s);
    SmallToInt(Value(s));
  }

  function Zeros(n: nat): (s: string)
    ensures |s| == n && AllDigits(s) && forall k :: 0 <= k < n ==> s[k] == '0'
  {
    seq(n, _ => '0')
  }

  /** printf's "%03d". */
  function Format3(n: int): (s: string)
    ensures |s| >= 3 && '\0' !in s
    ensures n >= 0 ==> AllDigits(s)
  {
    if n >= 0 then
      var d := Digits(n);
      if |d| < 3 then Zeros(3 - |d|) + d else d
    else
      var d := Digits(-n);
      "-" + if |d| < 2 then Zeros(2 - |d|) + d else d
  }

  lemma {:induction false} LeadingZeros(n: nat, s: string)
    requires AllDigits(s)
    ensures AllDigits(Zeros(n) + s) && Value(Zeros(n) + s) == Value(s)
  {
    if s == "" {
      assert Zeros(n) + s == Zeros(n);
      ZerosAreNothing(n);
    } else {
      LeadingZeros(n, s[..|s| - 1]);
      assert (Zeros(n) + s)[..n + |s| - 1] == Zeros(n) + s[..|s| - 1];
    }
  }

  lemma {:induction false} ZerosAreNothing(n: nat)
    ensures Value(Zeros(n)) == 0
  {
    if n > 0 {
      ZerosAreNothing(n - 1);
      assert Zeros(n)[..n - 1] == Zeros(n - 1);
    }
  }

  /** Formatting keeps the number. */
  lemma ValueOfFormat3(n: nat)
    ensures Value(Format3(n)) == n
  {
    ValueOfDigits(n);
    if |Digits(n)| < 3 {
      LeadingZeros(3 - |Digits(n)|, Digits(n));
    }
  }

  /** The width: three characters for numbers below 1000, otherwise the digits without a leading
      zero; a negative number takes a sign and at least two digits. */
  lemma Format3Shape(n: int)
    ensures 0 <= n < 1000 ==> |Format3(n)| == 3
    ensures n >= 1000 ==> Format3(n) == Digits(n) && Format3(n)[0] != '0' && |Format3(n)| >= 4
    ensures n < 0 ==> Format3(n)[0] == '-' && AllDigits(Format3(n)[1..]) && Value(Format3(n)[1..]) == -n
    ensures -100 < n < 0 ==> |Format3(n)| == 3
  {
    hide Digits;
    if n >= 0 {
      DigitsBelow(n, 3);
    } else {
      DigitsBelow(-n, 2);
      ValueOfDigits(-n);
      var d := Digits(-n);
      assert Format3(n)[1..] == if |d| < 2 then Zeros(2 - |d|) + d else d;
      if |d| < 2 {
        LeadingZeros(2 - |d|, d);
      }
    }
  }

  lemma {:induction false} DigitsBelow(n: nat, k: nat)
    requires k >= 1
    ensures n < Power10(k) <==> |Digits(n)| <= k
    ensures k == 3 ==> Power10(k) == 1000
    ensures k == 2 ==> Power10(k) == 100
  {
    if n < 10 {
      PowerGrows(1, k);
    } else if k > 1 {
      DigitsBelow(n / 10, k - 1);
    }
    assert Power10(1) == 10 && Power10(2) == 100 && Power10(3) == 1000;
  }

  // ----- FormatID -----

  function Formatted(id: string): (r: string) {
    if id == "" then id
    else
      var (number, end) := Strtol(id);
      if end == |id| then Format3(ToInt(number)) else id
  }

  /** FormatID rewrites the caller's buffer, which must have room for the result. */
  method FormatId(id: array<char>)
    requires '\0' in id[..] && |Formatted(CString(id[..]))| < id.Length
    modifies id
    ensures '\0' in id[..] && CString(id[..]) == Formatted(CString(old(id[..])))
  {
    var text := CString(id[..]);
    if text != "" {
      var (number, end) := Strtol(text);
      if end == |text| {
        var out := Format3(ToInt(number));
        for k := 0 to |out|
          invariant id[..k] == out[..k]
        {
          id[k] := out[k];
        }
        id[|out|] := '\0';
        CStringIs(id[..], out);
      }
    }
  }

  /** Any text that strtol can read: it is replaced by its number, clamped to a long and narrowed
      to an int, exactly when nothing follows the digits. */
  lemma FormattedText(spaces: string, sign: string, digits: string, rest: string)
    requires AllSpaces(spaces) && IsSign(sign) && AllDigits(digits) && digits != ""
    requires rest == "" || !IsDigit(rest[0])
    ensures var text := spaces + (sign + (digits + rest));
            var number := if Negative(sign) then 0 - Value(digits) else Value(digits);
            Formatted(text) == if rest == "" then Format3(ToInt(ClampToLong(number))) else text
  {
    hide ReadNumber, Value, Format3, ToInt, ClampToLong, AllSpaces;
    ReadSigned(spaces, sign, digits, rest);
    assert |spaces + (sign + (digits + rest))| == |spaces| + |sign| + |digits| + |rest|;
  }

  /** On valid non-empty IDs formatting keeps the number, is idempotent, and identifies two IDs
      exactly when they are numerically equal. */
  lemma FormattedIds(a: string, b: string)
    requires ValidId(a) && ValidId(b) && a != "" && b != ""
    ensures AllDigits(Formatted(a)) && Value(Formatted(a)) == Value(a)
    ensures Formatted(Formatted(a)) == Formatted(a)
    ensures Formatted(a) == Formatted(b) <==> Value(a) == Value(b)
  {
    NumberOfValidId(a);
    NumberOfValidId(b);
    ValueOfFormat3(Value(a));
    ValueOfFormat3(Value(b));
    EightDigits(a);
    FormattedIsValid(Value(a));
    NumberOfValidId(Formatted(a));
  }

  lemma FormattedIsValid(n: nat)
    requires n < 100_000_000
    ensures ValidId(Format3(n))
  {
    FewDigits(n, 8);
  }

  lemma {:induction false} FewDigits(n: nat, k: nat)
    requires 1 <= k && n < Power10(k)
    ensures |Digits(n)| <= k
  {
    if n >= 10 {
      FewDigits(n / 10, k - 1);
    }
  }

  // ----- allocation -----

  /** The new counter and the ID stored for one call of OS_AddNewAgent. */
  function Add(counter: int, id: Option<string>): (r: (int, string)) {
    match id
    case None => (counter + 1, Format3(counter + 1))
    case Some(s) =>
      var (number, end) := Strtol(s);
      (if end == |s| && ToInt(number) > counter then ToInt(number) else counter, s)
  }

  class Keystore {
    var idCounter: int
    var ids: seq<string>

    constructor (counter: int)
      ensures idCounter == counter && ids == []
    {
      idCounter, ids := counter, [];
    }

    method AddNewAgent(id: Option<string>) returns (stored: string)
      modifies this
      ensures (idCounter, stored) == Add(old(idCounter), id) && ids == old(ids) + [stored]
    {
      if id.None? {
        idCounter := idCounter + 1;
        stored := Format3(idCounter);
      } else {
        var (number, end) := Strtol(id.value);
        if end == |id.value| && ToInt(number) > idCounter {
          idCounter := ToInt(number);
        }
        stored := id.value;
      }
      ids := ids + [stored];
    }
  }

  datatype Run = Run(first: nat, requests: seq<Option<string>>) {
    predicate Valid() {
      forall k :: 0 <= k < |requests| ==> requests[k].None? || ValidId(requests[k].value)
    }

    function Counter(k: nat): (c: int)
      requires k <= |requests|
    {
      if k == 0 then first else Add(Counter(k - 1), requests[k - 1]).0
    }

    /** The ID stored by call `k`. */
    function Issued(k: nat): (id: string)
      requires k < |requests|
    {
      Add(Counter(k), requests[k]).1
    }
  }

  lemma {:induction false} CounterIsNatural(r: Run, k: nat)
    requires r.Valid() && k <= |r.requests|
    ensures r.Counter(k) >= 0
  {
    hide Strtol, Format3;
    if k > 0 {
      CounterIsNatural(r, k - 1);
    }
  }

  lemma IssuedNumber(r: Run, k: nat)
    requires r.Valid() && k < |r.requests|
    ensures AllDigits(r.Issued(k)) && Value(r.Issued(k)) <= r.Counter(k + 1)
    ensures r.Counter(k) <= r.Counter(k + 1)
    ensures r.requests[k].None? ==> Value(r.Issued(k)) == r.Counter(k) + 1
  {
    CounterIsNatural(r, k);
    match r.requests[k]
    case None => ValueOfFormat3(r.Counter(k) + 1);
    case Some(s) => NumberOfValidId(s);
  }

  /** A given ID is stored as it came and moves the counter up to its number, if that is larger;
      without one the next number is stored in three digits or more. */
  lemma StoredIds(r: Run, k: nat)
    requires r.Valid() && k < |r.requests|
    ensures match r.requests[k]
            case None => r.Counter(k + 1) == r.Counter(k) + 1 && r.Issued(k) == Format3(r.Counter(k) + 1)
            case Some(s) =>
              && r.Issued(k) == s
              && r.Counter(k + 1) == if Value(s) > r.Counter(k) then Value(s) else r.Counter(k)
  {
    hide Strtol, Format3;
    if r.requests[k].Some? {
      NumberOfValidId(r.requests[k].value);
    }
  }

  lemma {:induction false} CounterGrows(r: Run, j: nat, k: nat)
    requires r.Valid() && j <= k <= |r.requests|
    ensures r.Counter(j) <= r.Counter(k)
    decreases k
  {
    hide Add, Text.Value;
    if j < k {
      CounterGrows(r, j, k - 1);
      IssuedNumber(r, k - 1);
    }
  }

  /** An automatically assigned ID differs, as a number and as a string, from every ID stored
      before it, given or assigned, and is above the number the counter started from. */
  lemma AutomaticIdsAreNew(r: Run, j: nat, k: nat)
    requires r.Valid() && j < k < |r.requests| && r.requests[k].None?
    ensures AllDigits(r.Issued(j)) && AllDigits(r.Issued(k))
    ensures Value(r.Issued(j)) < Value(r.Issued(k))
    ensures r.Issued(j) != r.Issued(k) && Value(r.Issued(k)) > r.first
  {
    hide Add, Text.Value;
    CounterGrows(r, 0, k);
    IssuedNumber(r, j);
    CounterGrows(r, j + 1, k);
    IssuedNumber(r, k);
  }

  /** Valid IDs are below 10^8, so a counter that starts there cannot overflow a 32-bit int in
      fewer than 2^31 - 10^8 additions. */
  lemma {:induction false} CounterBound(r: Run, k: nat)
    requires r.Valid() && k <= |r.requests| && r.first < 100_000_000
    ensures r.Counter(k) < 100_000_000 + k
  {
    hide Add;
    if k > 0 {
      CounterBound(r, k - 1);
      AddBound(r.Counter(k - 1), r.requests[k - 1], 100_000_000 + k - 1);
    }
  }

  lemma AddBound(counter: int, id: Option<string>, bound: int)
    requires counter < bound && 100_000_000 <= bound && (id.None? || ValidId(id.value))
    ensures Add(counter, id).0 < bound + 1
  {
    if id.Some? {
      NumberOfValidId(id.value);
      EightDigits(id.value);
    }
  }

  lemma EightDigits(s: string)
    requires ValidId(s)
    ensures Value(s) < 100_000_000
  {
    ValueBelowPower(s);
    PowerGrows(|s|, 8);
  }

  function Power10(n: nat): (p: nat) {
    if n == 0 then 1 else 10 * Power10(n - 1)
  }

  lemma {:induction false} ValueBelowPower(s: string)
    requires AllDigits(s)
    ensures Value(s) < Power10(|s|)
  {
    if s != "" {
      ValueBelowPower(s[..|s| - 1]);
      assert IsDigit(s[|s| - 1]);
    }
  }

  lemma {:induction false} PowerGrows(m: nat, n: nat)
    requires m <= n
    ensures Power10(m) <= Power10(n)
    decreases n
  {
    if m < n {
      PowerGrows(m, n - 1);
    }
  }
}
