/** The rule listing of framework/wazuh/rule.py: get_rules filters by removing, from the list
    it will return, the first element equal to each rejected rule. */
module RuleFilter {

  /** A loaded rule; `other` stands for its description and details. */
  datatype Rule = Rule(
    id: int, level: int, status: string, filename: string, relativeDirname: string,
    lists: map<Listing, seq<string>>, other: string)

  /** The fields that hold lists; every loaded rule has them all. */
  datatype Listing = Groups | PciDss | Gpg13 | Gdpr | Hipaa | Nist80053 | Tsc | Mitre

  /** Empty strings and lists do not filter. `levels` holds one level or a range. */
  datatype Filters = Filters(
    lists: map<Listing, string>, relativeDirname: string, filenames: seq<string>, ids: seq<int>,
    levels: seq<int>, statuses: seq<string>)

  datatype Key = InList(l: Listing) | RelativeDirname | Filename | Id | Level | Status

  /** The order in which get_rules tries the parameters. */
  const KEYS := [InList(Groups), InList(PciDss), InList(Gpg13), InList(Gdpr), InList(Hipaa), InList(Nist80053),
                 InList(Tsc), InList(Mitre), RelativeDirname, Filename, Id, Level, Status]

  predicate Substring(x: string, s: string) {
    exists k :: 0 <= k <= |s| && x <= s[k..]
  }

  predicate Rejects(f: Filters, key: Key, r: Rule) {
    match key
    case InList(l) => l in f.lists && f.lists[l] != "" && !(l in r.lists && f.lists[l] in r.lists[l])
    case RelativeDirname => f.relativeDirname != "" && !Substring(f.relativeDirname, r.relativeDirname)
    case Filename => f.filenames != [] && r.filename !in f.filenames
    case Id => f.ids != [] && r.id !in f.ids
    case Level =>
      || (|f.levels| == 1 && f.levels[0] != r.level)
      || (|f.levels| == 2 && !(f.levels[0] <= r.level <= f.levels[1]))
    case Status => f.statuses != [] && r.status !in f.statuses
  }

  predicate Passes(f: Filters, r: Rule) {
    forall k :: 0 <= k < |KEYS| ==> !Rejects(f, KEYS[k], r)
  }

  /** The stable filter. */
  function Filtered(f: Filters, rules: seq<Rule>): (out: seq<Rule>) {
    if rules == [] then []
    else
      var last := rules[|rules| - 1];
      Filtered(f, rules[..|rules| - 1]) + (if Passes(f, last) then [last] else [])
  }

  function FirstIndex<T(==)>(xs: seq<T>, x: T): (k: nat)
    requires x in xs
    ensures k < |xs| && xs[k] == x && x !in xs[..k]
  {
    if xs[0] == x then 0 else 1 + FirstIndex(xs[1..], x)
  }

  /** Python's list.remove, which fails on a missing element. */
  function Remove<T(==)>(xs: seq<T>, x: T): (ys: seq<T>)
    requires x in xs
  {
    xs[..FirstIndex(xs, x)] + xs[FirstIndex(xs, x) + 1..]
  }

  lemma RemoveTakesOne<T>(xs: seq<T>, x: T)
    requires x in xs
    ensures multiset(Remove(xs, x)) == multiset(xs) - multiset{x}
  {
    var k := FirstIndex(xs, x);
    assert xs == xs[..k] + [x] + xs[k + 1..];
  }

  /** Only the first occurrence goes. */
  lemma RemoveSkips<T>(a: seq<T>, x: T, b: seq<T>)
    requires x !in a
    ensures x in a + [x] + b && Remove(a + [x] + b, x) == a + b
  {
    var xs := a + [x] + b;
    assert xs[|a|] == x && xs[..|a|] == a;
    var k := FirstIndex(xs, x);
    assert k == |a|;
  }

  lemma {:induction false} FilteredPass(f: Filters, rules: seq<Rule>)
    ensures forall r :: r in Filtered(f, rules) <==> r in rules && Passes(f, r)
  {
    if rules != [] {
      FilteredPass(f, rules[..|rules| - 1]);
      assert rules == rules[..|rules| - 1] + [rules[|rules| - 1]];
    }
  }

  /** What each parameter asks of a rule: an empty one nothing; a list name that it is in the
      rule's list; a directory that it is part of the rule's; file names, IDs and statuses that
      the rule's is among them; a level that it is the rule's, two that they enclose it. */
  ghost predicate Meets(f: Filters, r: Rule) {
    && (forall l :: l in f.lists && f.lists[l] != "" ==> l in r.lists && f.lists[l] in r.lists[l])
    && (f.relativeDirname != "" ==> exists a, b :: r.relativeDirname == a + f.relativeDirname + b)
    && (f.filenames != [] ==> r.filename in f.filenames)
    && (f.ids != [] ==> r.id in f.ids)
    && (|f.levels| == 1 ==> r.level == f.levels[0])
    && (|f.levels| == 2 ==> f.levels[0] <= r.level && r.level <= f.levels[1])
    && (f.statuses != [] ==> r.status in f.statuses)
  }

  lemma SubstringIff(x: string, s: string)
    ensures Substring(x, s) <==> exists a, b :: s == a + x + b
  {
    if Substring(x, s) {
      var k :| 0 <= k <= |s| && x <= s[k..];
      assert s == s[..k] + x + s[k + |x|..];
    }
    if exists a, b :: s == a + x + b {
      var a, b :| s == a + x + b;
      assert x <= s[|a|..];
    }
  }

  lemma KeysCover(l: Listing)
    ensures InList(l) in KEYS
  {
    match l
    case Groups => assert KEYS[0] == InList(l);
    case PciDss => assert KEYS[1] == InList(l);
    case Gpg13 => assert KEYS[2] == InList(l);
    case Gdpr => assert KEYS[3] == InList(l);
    case Hipaa => assert KEYS[4] == InList(l);
    case Nist80053 => assert KEYS[5] == InList(l);
    case Tsc => assert KEYS[6] == InList(l);
    case Mitre => assert KEYS[7] == InList(l);
  }

  /** A rule passes exactly when it meets every parameter. */
  lemma PassesIff(f: Filters, r: Rule)
    ensures Passes(f, r) <==> Meets(f, r)
  {
    hide Substring;
    SubstringIff(f.relativeDirname, r.relativeDirname);
    if Passes(f, r) {
      forall l | l in f.lists && f.lists[l] != ""
        ensures l in r.lists && f.lists[l] in r.lists[l]
      {
        KeysCover(l);
        var k :| 0 <= k < |KEYS| && KEYS[k] == InList(l);
        assert !Rejects(f, KEYS[k], r);
      }
      assert KEYS[8] == RelativeDirname && KEYS[9] == Filename && KEYS[10] == Id && KEYS[11] == Level &&
             KEYS[12] == Status;
      assert !Rejects(f, KEYS[8], r) && !Rejects(f, KEYS[9], r) && !Rejects(f, KEYS[10], r);
      assert !Rejects(f, KEYS[11], r) && !Rejects(f, KEYS[12], r);
    }
  }

  /** The rules listed are exactly the loaded ones that meet every parameter. */
  lemma ListedIff(f: Filters, rules: seq<Rule>, r: Rule)
    ensures r in Filtered(f, rules) <==> r in rules && Meets(f, r)
  {
    FilteredPass(f, rules);
    PassesIff(f, r);
  }

  function IdsOf(rules: seq<Rule>): (ids: seq<int>)
    ensures |ids| == |rules|
  {
    seq(|rules|, k requires 0 <= k < |rules| => rules[k].id)
  }

  /** The inner loop: does some parameter reject the rule? */
  method IsRejected(f: Filters, r: Rule) returns (rejected: bool)
    ensures rejected <==> !Passes(f, r)
  {
    rejected := false;
    for k := 0 to |KEYS|
      invariant !rejected && forall m :: 0 <= m < k ==> !Rejects(f, KEYS[m], r)
    {
      if Rejects(f, KEYS[k], r) {
        return true;
      }
    }
  }

  /** The loop of get_rules. Equal rules may occur many times; the call of `remove` always
      finds its rule, and the result is the stable filter of the original list. `missing` are
      the requested IDs not matched one-to-one by a rule. */
  method GetRules(f: Filters, original: seq<Rule>) returns (rules: seq<Rule>, missing: seq<int>)
    ensures rules == Filtered(f, original)
    ensures multiset(missing) == multiset(f.ids) - multiset(IdsOf(original))
  {
    hide *;
    rules, missing := original, f.ids;
    NothingYet(f, original);
    for k := 0 to |original|
      invariant rules == Filtered(f, original[..k]) + original[k..]
      invariant multiset(missing) == multiset(f.ids) - multiset(IdsOf(original[..k]))
    {
      var r := original[k];
      TickOff(f, original, k, missing);
      if r.id in missing {
        missing := Remove(missing, r.id);
      }
      var rejected := IsRejected(f, r);
      OneRule(f, original, k);
      if rejected {
        rules := Remove(rules, r);
      }
    }
    assert original[..|original|] == original;
  }

  lemma NothingYet(f: Filters, original: seq<Rule>)
    ensures original == Filtered(f, original[..0]) + original[0..]
    ensures multiset(f.ids) == multiset(f.ids) - multiset(IdsOf(original[..0]))
  {
    assert IdsOf(original[..0]) == [];
  }

  /** Where the loop stands before and after the rule at `k`. */
  lemma OneRule(f: Filters, original: seq<Rule>, k: nat)
    requires k < |original|
    ensures var rules := Filtered(f, original[..k]) + original[k..];
            var rules' := Filtered(f, original[..k + 1]) + original[k + 1..];
            if Passes(f, original[k]) then rules' == rules
            else original[k] in rules && rules' == Remove(rules, original[k])
  {
    hide Passes;
    var r, done := original[k], Filtered(f, original[..k]);
    assert original[..k + 1][..k] == original[..k];
    assert done + original[k..] == done + [r] + original[k + 1..];
    if !Passes(f, r) {
      FilteredPass(f, original[..k]);
      RemoveSkips(done, r, original[k + 1..]);
    }
  }

  lemma TickOff(f: Filters, original: seq<Rule>, k: nat, missing: seq<int>)
    requires k < |original|
    requires multiset(missing) == multiset(f.ids) - multiset(IdsOf(original[..k]))
    ensures var missing' := if original[k].id in missing then Remove(missing, original[k].id) else missing;
            multiset(missing') == multiset(f.ids) - multiset(IdsOf(original[..k + 1]))
  {
    assert IdsOf(original[..k + 1]) == IdsOf(original[..k]) + [original[k].id];
    if original[k].id in missing {
      RemoveTakesOne(missing, original[k].id);
    } else {
      assert multiset(missing)[original[k].id] == 0;
    }
  }

  // ----- what is reported as missing -----

  /** The IDs reported missing are exactly the requested IDs no rule has, if and only if no ID
      that some rule has is requested more often than rules have it. */
  lemma MissingReportIsRightIff(requested: seq<int>, loaded: seq<int>, missing: seq<int>)
    requires multiset(missing) == multiset(requested) - multiset(loaded)
    ensures (forall x :: x in missing <==> x in requested && x !in loaded) <==>
            (forall x :: x in loaded ==> multiset(requested)[x] <= multiset(loaded)[x])
  {
    assert forall x :: x in missing <==> multiset(missing)[x] > 0;
    assert forall x :: x in loaded <==> multiset(loaded)[x] > 0;
    assert forall x :: x in requested <==> multiset(requested)[x] > 0;
  }

  /** Requesting an existing ID twice reports it as missing. */
  lemma DuplicateRequestIsReported(missing: seq<int>)
    requires multiset(missing) == multiset([5, 5]) - multiset([5])
    ensures missing == [5]
  {
    assert multiset(missing) == multiset{5};
    assert |missing| == |multiset(missing)|;
    assert missing[0] in multiset(missing);
  }
}
