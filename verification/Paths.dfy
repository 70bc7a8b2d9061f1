/** Relative paths as the programs spell them, and the places they lead to. */
module Paths {
  import opened Text

  /** A place in the file system: the names on the way from the root. */
  type Place = seq<string>

  // ----- spelling -----

  /** w_ref_parent_folder: some component of the path is "..". */
  predicate RefersToParent(path: string) {
    || path == ".." || "../" <= path
    || exists k :: 0 <= k < |path| && ParentAt(path[k..])
  }

  predicate ParentAt(tail: string) {
    "/.." <= tail && (|tail| == 3 || tail[3] == '/')
  }

  /** What follows the last slash. */
  function BaseName(path: string): (r: string)
    ensures '/' !in r
  {
    var k := IndexOf(path, '/');
    if k == |path| then path else BaseName(path[k + 1..])
  }

  /** Not spelled as a directory: only such a path can be opened for writing or renamed to. */
  predicate Nameable(path: string) {
    BaseName(path) != "" && BaseName(path) != "." && BaseName(path) != ".."
  }

  function Components(path: string): (r: seq<string>)
    ensures r != []
  {
    var k := IndexOf(path, '/');
    if k == |path| then [path] else [path[..k]] + Components(path[k + 1..])
  }

  lemma SplitFirst(first: string, rest: string)
    requires '/' !in first
    ensures var path := first + "/" + rest;
            IndexOf(path, '/') == |first| && path[..|first|] == first && path[|first| + 1..] == rest
  {
    IndexAfter(first, '/', rest);
    assert first + "/" + rest == first + ['/'] + rest;
  }

  lemma {:induction false} ComponentsConcat(a: string, b: string)
    ensures Components(a + "/" + b) == Components(a) + Components(b)
    decreases |a|
  {
    hide IndexOf;
    var k := IndexOf(a, '/');
    if k == |a| {
      assert a[..k] == a;
      SplitFirst(a, b);
    } else {
      var first, rest := a[..k], a[k + 1..];
      assert a == first + "/" + rest;
      assert a + "/" + b == first + "/" + (rest + "/" + b);
      SplitFirst(first, rest + "/" + b);
      ComponentsConcat(rest, b);
    }
  }

  lemma {:induction false} BaseNameIsLast(path: string)
    ensures BaseName(path) == Components(path)[|Components(path)| - 1]
    decreases |path|
  {
    var k := IndexOf(path, '/');
    if k < |path| {
      BaseNameIsLast(path[k + 1..]);
    }
  }

  lemma BaseNameConcat(a: string, b: string)
    ensures BaseName(a + "/" + b) == BaseName(b)
  {
    BaseNameIsLast(a + "/" + b);
    BaseNameIsLast(b);
    ComponentsConcat(a, b);
  }

  lemma Alone(name: string)
    requires '/' !in name
    ensures BaseName(name) == name && Components(name) == [name]
  {
  }

  lemma ParentAtIs(path: string, k: nat)
    requires k < |path| && ParentAt(path[k..])
    ensures path[k] == '/'
  {
    assert path[k] == path[k..][0];
  }

  /** ".." opens the path. */
  predicate ParentFirst(path: string) {
    path == ".." || "../" <= path
  }

  lemma ParentFirstSplit(first: string, rest: string)
    requires '/' !in first
    ensures ParentFirst(first + "/" + rest) <==> first == ".."
  {
    var path := first + "/" + rest;
    if ParentFirst(path) {
      assert path[|first|] == '/' && path[0] == '.' && path[1] == '.' && (|path| > 2 ==> path[2] == '/');
      assert |first| == 2 && first == [path[0], path[1]];
    }
  }

  lemma ParentNextSplit(rest: string)
    ensures ParentAt("/" + rest) <==> ParentFirst(rest)
  {
    var tail := "/" + rest;
    if |rest| >= 2 {
      assert tail[0] == '/' && tail[1] == rest[0] && tail[2] == rest[1];
      assert tail[..3] == [tail[0], tail[1], tail[2]];
      if |rest| == 2 {
        assert rest == [rest[0], rest[1]];
      } else {
        assert tail[3] == rest[2] && rest[..3] == [rest[0], rest[1], rest[2]];
      }
    }
  }

  /** A path with a slash refers to a parent in its first component or in the rest. */
  lemma ParentSplit(first: string, rest: string)
    requires '/' !in first
    ensures RefersToParent(first + "/" + rest) <==> first == ".." || RefersToParent(rest)
  {
    hide ParentAt, ParentFirst;
    var path := first + "/" + rest;
    var n := |first|;
    RefersToParentIs(path);
    RefersToParentIs(rest);
    ParentFirstSplit(first, rest);
    ParentNextSplit(rest);
    assert path[n..] == "/" + rest;
    if exists k :: 0 <= k < |path| && ParentAt(path[k..]) {
      var k :| 0 <= k < |path| && ParentAt(path[k..]);
      ParentAtIs(path, k);
      if k > n {
        assert path[k..] == rest[k - n - 1..];
      }
    }
    if exists k :: 0 <= k < |rest| && ParentAt(rest[k..]) {
      var k :| 0 <= k < |rest| && ParentAt(rest[k..]);
      assert path[n + 1 + k..] == rest[k..];
    }
  }

  lemma RefersToParentIs(path: string)
    ensures RefersToParent(path) <==>
            ParentFirst(path) || exists k :: 0 <= k < |path| && ParentAt(path[k..])
  {
  }

  lemma ParentAlone(path: string)
    requires '/' !in path
    ensures RefersToParent(path) <==> path == ".."
  {
    assert |path| > 2 ==> path[..3][2] == path[2] != '/';
    forall k | 0 <= k < |path|
      ensures !ParentAt(path[k..])
    {
      assert path[k..][0] == path[k];
    }
  }

  /** The test for parents, which scans the spelling, finds exactly the ".." components. */
  lemma {:induction false} ParentIsAComponent(path: string)
    ensures RefersToParent(path) <==> ".." in Components(path)
    decreases |path|
  {
    hide RefersToParent;
    var k := IndexOf(path, '/');
    if k == |path| {
      assert path[..k] == path;
      ParentAlone(path);
    } else {
      assert path == path[..k] + "/" + path[k + 1..];
      ParentSplit(path[..k], path[k + 1..]);
      ParentIsAComponent(path[k + 1..]);
    }
  }

  // ----- resolution -----

  /** One component followed: "" and "." stay, ".." goes up, at most to the root. */
  function Follow(at: Place, c: string): (r: Place) {
    if c == "" || c == "." then at
    else if c == ".." then (if at == [] then [] else at[..|at| - 1])
    else at + [c]
  }

  function Walk(at: Place, cs: seq<string>): (r: Place)
    decreases |cs|
  {
    if cs == [] then at else Walk(Follow(at, cs[0]), cs[1..])
  }

  /** Where a relative path leads from a directory. */
  function Resolve(from: Place, path: string): (r: Place) {
    Walk(from, Components(path))
  }

  lemma {:induction false} WalkConcat(at: Place, a: seq<string>, b: seq<string>)
    ensures Walk(at, a + b) == Walk(Walk(at, a), b)
    decreases |a|
  {
    if a == [] {
      assert a + b == b;
    } else {
      assert (a + b)[0] == a[0] && (a + b)[1..] == a[1..] + b;
      WalkConcat(Follow(at, a[0]), a[1..], b);
    }
  }

  lemma ResolveConcat(from: Place, a: string, b: string)
    ensures Resolve(from, a + "/" + b) == Resolve(Resolve(from, a), b)
  {
    ComponentsConcat(a, b);
    WalkConcat(from, Components(a), Components(b));
  }

  lemma ResolveOne(from: Place, name: string)
    requires '/' !in name
    ensures Resolve(from, name) == Follow(from, name)
  {
    hide Follow;
    Alone(name);
    assert [name][1..] == [];
    assert Walk(from, [name]) == Walk(Follow(from, name), []);
  }

  /** The components that name something. */
  function Names(cs: seq<string>): (r: Place) {
    if cs == [] then []
    else if cs[0] == "" || cs[0] == "." then Names(cs[1..])
    else [cs[0]] + Names(cs[1..])
  }

  /** Without ".." a path only goes down, through its names. */
  lemma {:induction false} WalkDown(at: Place, cs: seq<string>)
    requires ".." !in cs
    ensures Walk(at, cs) == at + Names(cs)
    decreases |cs|
  {
    if cs != [] {
      WalkDown(Follow(at, cs[0]), cs[1..]);
      if cs[0] != "" && cs[0] != "." {
        assert (at + [cs[0]]) + Names(cs[1..]) == at + ([cs[0]] + Names(cs[1..]));
      }
    }
  }

  lemma {:induction false} LastIsNamed(cs: seq<string>)
    requires cs != [] && cs[|cs| - 1] != "" && cs[|cs| - 1] != "."
    ensures Names(cs) != [] && Names(cs)[|Names(cs)| - 1] == cs[|cs| - 1]
    decreases |cs|
  {
    if |cs| > 1 {
      LastIsNamed(cs[1..]);
    }
  }

  // ----- staying below a directory, decided on the name -----

  /** How a name leaves a directory: `up` levels up, then down through `below`. */
  datatype Trail = Trail(up: nat, below: Place)

  /** `depth` levels lie above. */
  function Trace(depth: nat, t: Trail, cs: seq<string>): (r: Trail)
    requires t.up <= depth
    ensures r.up <= depth
    decreases |cs|
  {
    if cs == [] then t
    else Trace(depth, TraceOne(depth, t, cs[0]), cs[1..])
  }

  function TraceOne(depth: nat, t: Trail, c: string): (r: Trail)
    requires t.up <= depth
    ensures r.up <= depth
  {
    if c == "" || c == "." then t
    else if c != ".." then Trail(t.up, t.below + [c])
    else if t.below != [] then Trail(t.up, t.below[..|t.below| - 1])
    else Trail(if t.up < depth then t.up + 1 else depth, [])
  }

  /** The test: walking over the components of the name alone, one ends below the directory, or
      comes back into it by its own names. */
  predicate EndsBelow(dir: Place, name: string) {
    var t := Trace(|dir|, Trail(0, []), Components(name));
    dir[|dir| - t.up..] < t.below
  }

  function At(dir: Place, t: Trail): (r: Place)
    requires t.up <= |dir|
  {
    dir[..|dir| - t.up] + t.below
  }

  lemma TraceFollows(dir: Place, t: Trail, c: string)
    requires t.up <= |dir|
    ensures At(dir, TraceOne(|dir|, t, c)) == Follow(At(dir, t), c)
  {
    var at := At(dir, t);
    if c == ".." {
      if t.below != [] {
        assert at[..|at| - 1] == dir[..|dir| - t.up] + t.below[..|t.below| - 1];
      } else {
        assert at == dir[..|dir| - t.up];
      }
    }
  }

  lemma {:induction false} TraceIsWalk(dir: Place, t: Trail, cs: seq<string>)
    requires t.up <= |dir|
    ensures At(dir, Trace(|dir|, t, cs)) == Walk(At(dir, t), cs)
    decreases |cs|
  {
    hide Follow, TraceOne;
    if cs != [] {
      TraceFollows(dir, t, cs[0]);
      TraceIsWalk(dir, TraceOne(|dir|, t, cs[0]), cs[1..]);
    }
  }

  /** The test is right: a name leads properly below a directory if and only if it passes. */
  lemma EndsBelowIff(dir: Place, name: string)
    ensures dir < Resolve(dir, name) <==> EndsBelow(dir, name)
  {
    var t := Trace(|dir|, Trail(0, []), Components(name));
    TraceIsWalk(dir, Trail(0, []), Components(name));
    assert At(dir, Trail(0, [])) == dir;
    var k := |dir| - t.up;
    var place := dir[..k] + t.below;
    assert place == Resolve(dir, name);
    if dir[k..] < t.below {
      assert t.below == dir[k..] + t.below[t.up..];
      assert place == dir + t.below[t.up..];
    }
    if dir < place {
      assert t.below[..t.up] == place[k..|dir|] == dir[k..];
    }
  }

  /** A name without ".." that is not spelled as a directory leads below the directory, through
      its names. */
  lemma NoParentEndsBelow(dir: Place, name: string)
    requires !RefersToParent(name) && Nameable(name)
    ensures Resolve(dir, name) == dir + Names(Components(name)) && dir < Resolve(dir, name)
    ensures EndsBelow(dir, name)
  {
    hide RefersToParent;
    ParentIsAComponent(name);
    WalkDown(dir, Components(name));
    BaseNameIsLast(name);
    LastIsNamed(Components(name));
    EndsBelowIff(dir, name);
  }
}
