/** Agent names (src/addagent/validate.c): validation, and cleaning in place. */
module AgentNames {
  import opened Text

  /** The characters VALID_AGENT_NAME_CHARS lists. */
  predicate Listed(c: char) {
    || c in "0123456789" || c in "abcdefghijklmnopqrstuvwxyz" || c in "ABCDEFGHIJKLMNOPQRSTUVWXYZ" || c in "_.-"
  }

  /** The test of OS_IsValidName: alphanumeric in the C locale, or one of three marks. */
  predicate Allowed(c: char) {
    || '0' <= c <= '9' || 'a' <= c <= 'z' || 'A' <= c <= 'Z'
    || c == '-' || c == '_' || c == '.'
  }

  predicate AllAllowed(s: string) {
    forall k :: 0 <= k < |s| ==> Allowed(s[k])
  }

  lemma ListedDigit(c: char)
    ensures c in "0123456789" <==> '0' <= c <= '9'
  {
  }

  lemma ListedLower(c: char)
    ensures c in "abcdefghijklmnopqrstuvwxyz" <==> 'a' <= c <= 'z'
  {
  }

  lemma ListedUpper(c: char)
    ensures c in "ABCDEFGHIJKLMNOPQRSTUVWXYZ" <==> 'A' <= c <= 'Z'
  {
  }

  /** The list that cleaning uses and the test that validation uses agree. */
  lemma ListAndTestAgree(c: char)
    ensures Listed(c) <==> Allowed(c)
  {
    ListedDigit(c);
    ListedLower(c);
    ListedUpper(c);
  }

  // ----- validation -----

  predicate ValidName(name: string) {
    2 <= |name| <= 128 && AllAllowed(name)
  }

  method IsValidName(name: string) returns (valid: bool)
    ensures valid <==> ValidName(name)
  {
    if |name| < 2 || |name| > 128 {
      return false;
    }
    for i := 0 to |name|
      invariant forall k :: 0 <= k < i ==> Allowed(name[k])
    {
      if !Allowed(name[i]) {
        return false;
      }
    }
    valid := true;
  }

  // ----- cleaning -----

  function KeepOne(c: char): (r: string) {
    if Allowed(c) then [c] else ""
  }

  /** The allowed characters, in order. */
  function Kept(s: string): (r: string)
    ensures AllAllowed(r) && |r| <= |s|
  {
    if s == "" then "" else KeepOne(s[0]) + Kept(s[1..])
  }

  lemma {:induction false} KeptConcat(a: string, b: string)
    ensures Kept(a + b) == Kept(a) + Kept(b)
  {
    hide KeepOne, AllAllowed;
    if a == "" {
      assert a + b == b;
    } else {
      KeptConcat(a[1..], b);
      assert (a + b)[0] == a[0] && (a + b)[1..] == a[1..] + b;
      assert KeepOne(a[0]) + (Kept(a[1..]) + Kept(b)) == (KeepOne(a[0]) + Kept(a[1..])) + Kept(b);
    }
  }

  lemma {:induction false} KeptIsIdentityOnAllowed(s: string)
    requires AllAllowed(s)
    ensures Kept(s) == s
  {
    if s != "" {
      KeptIsIdentityOnAllowed(s[1..]);
    }
  }

  /** Deleting one character that is not allowed changes nothing that is kept. */
  lemma DeleteKeeps(s: string, i: nat)
    requires i < |s| && !Allowed(s[i])
    ensures Kept(s[..i] + s[i + 1..]) == Kept(s)
  {
    assert s == s[..i] + ([s[i]] + s[i + 1..]);
    KeptConcat(s[..i], s[i + 1..]);
    KeptConcat(s[..i], [s[i]] + s[i + 1..]);
    KeptConcat([s[i]], s[i + 1..]);
  }

  /** strspn: how far the listed characters reach. */
  function Span(s: string): (n: nat)
    ensures n <= |s| && (forall k :: 0 <= k < n ==> Listed(s[k])) && (n < |s| ==> !Listed(s[n]))
  {
    if s == "" || !Listed(s[0]) then 0 else 1 + Span(s[1..])
  }

  lemma AllowedThroughout(s: string)
    requires Span(s) == |s|
    ensures AllAllowed(s)
  {
    forall k | 0 <= k < |s|
      ensures Allowed(s[k])
    {
      ListAndTestAgree(s[k]);
    }
  }

  method MoveDown(a: array<char>, i: nat, count: nat)
    requires i + 1 + count <= a.Length
    modifies a
    ensures forall k :: 0 <= k < a.Length ==> a[k] == if i <= k < i + count then old(a[k + 1]) else old(a[k])
  {
    for m := 0 to count
      invariant forall k :: 0 <= k < a.Length ==> a[k] == if i <= k < i + m then old(a[k + 1]) else old(a[k])
    {
      a[i + m] := a[i + m + 1];
    }
  }

  /** Moving the end of a terminated text down closes the gap. */
  lemma Closed(before: seq<char>, after: seq<char>, i: nat, length: nat)
    requires i < length < |before| == |after| && before[length] == '\0'
    requires forall k :: 0 <= k < |after| ==> after[k] == if i <= k < length then before[k + 1] else before[k]
    ensures after[..length - 1] == before[..i] + before[i + 1..length] && after[length - 1] == '\0'
    ensures before[..i] + before[i + 1..length] == before[..length][..i] + before[..length][i + 1..]
  {
    var s := before[..i] + before[i + 1..length];
    assert |s| == length - 1;
    forall k | 0 <= k < length - 1
      ensures after[k] == s[k]
    {
      assert after[k] == if i <= k < length then before[k + 1] else before[k];
      assert s[k] == if k < i then before[k] else before[i + 1..length][k - i];
    }
  }

  /** OS_ConvertToValidAgentName: delete characters in place until the whole name is listed.
      What stays is exactly the allowed characters, in order, terminated. */
  method ConvertToValidAgentName(a: array<char>)
    requires '\0' in a[..]
    modifies a
    ensures '\0' in a[..] && CString(a[..]) == Kept(CString(old(a[..])))
  {
    hide Allowed, Listed, Kept, AllAllowed, CString, Span;
    ghost var original := CString(a[..]);
    ghost var s := original;
    var length := |CString(a[..])|;
    var i := Span(a[..length]);
    while i < length
      invariant |s| == length < a.Length && a[..length] == s && '\0' !in s && a[length] == '\0'
      invariant Kept(s) == Kept(original) && i == Span(s)
      decreases length
    {
      ListAndTestAgree(a[i]);
      DeleteKeeps(s, i);
      ghost var before := a[..];
      MoveDown(a, i, length - i);
      Closed(before, a[..], i, length);
      s := s[..i] + s[i + 1..];
      length := length - 1;
      i := Span(a[..length]);
    }
    AllowedThroughout(s);
    KeptIsIdentityOnAllowed(s);
    CStringIs(a[..], s);
  }

  /** Cleaning twice is cleaning once, and a cleaned name is valid exactly when 2 to 128
      characters were kept. */
  lemma CleanedNames(s: string)
    ensures Kept(Kept(s)) == Kept(s)
    ensures ValidName(Kept(s)) <==> 2 <= |Kept(s)| <= 128
    ensures ValidName(s) ==> Kept(s) == s
  {
    KeptIsIdentityOnAllowed(Kept(s));
    if ValidName(s) {
      KeptIsIdentityOnAllowed(s);
    }
  }
}
