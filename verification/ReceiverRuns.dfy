/** Runs of the agent's receiver: which files any sequence of messages can touch, and what a
    whole transfer leaves behind. */
module ReceiverRuns {

  import opened FileReceiver
  import opened MergeFormat
  import opened Options
  import opened Paths
  import opened Text

  datatype Arrival = Arrival(msg: string, luck: Luck)

  function Run(s: State, arrivals: seq<Arrival>, md5: string -> string): (s': State)
    ensures s'.home == s.home
    decreases |arrivals|
  {
    if arrivals == [] then s
    else Run(Receive(s, arrivals[0].msg, md5, arrivals[0].luck), arrivals[1..], md5)
  }

  // ----- where the paths lead -----

  lemma SharedIs(home: Place)
    ensures Resolve(home, SHARED_DIR) == Shared(home)
  {
    hide Resolve;
    assert SHARED_DIR == "etc" + "/" + "shared";
    ResolveConcat(home, "etc", "shared");
    ResolveOne(home, "etc");
    ResolveOne(home + ["etc"], "shared");
  }

  /** A path into the shared directory leads where its last part leads from there. */
  lemma ResolveShared(home: Place, name: string)
    ensures Resolve(home, SHARED_DIR + "/" + name) == Resolve(Shared(home), name)
  {
    ResolveConcat(home, SHARED_DIR, name);
    SharedIs(home);
  }

  /** The name of a single entry leads to it. */
  lemma ResolveAlone(dir: Place, name: string)
    requires '/' !in name && Nameable(name)
    ensures Resolve(dir, name) == dir + [name]
  {
    hide Resolve;
    Alone(name);
    ResolveOne(dir, name);
  }

  lemma ConfinedPlace(home: Place, path: string)
    requires Confined(path) && Nameable(path)
    ensures Resolve(home, path) == Shared(home) + [path[|SHARED_DIR| + 1..]] && Inside(home, Resolve(home, path))
  {
    hide Resolve, BaseName;
    var name := path[|SHARED_DIR| + 1..];
    assert path == SHARED_DIR + "/" + name;
    BaseNameConcat(SHARED_DIR, name);
    ResolveShared(home, name);
    ResolveAlone(Shared(home), name);
  }

  /** Among the received files only one has the name of the merged configuration. */
  lemma MergedIs(path: string)
    requires Confined(path)
    ensures '/' in path && (BaseName(path) == MERGED <==> path == MERGED_PATH)
  {
    hide BaseName;
    var name := path[|SHARED_DIR| + 1..];
    assert path == SHARED_DIR + "/" + name && path[10] == '/';
    BaseNameConcat(SHARED_DIR, name);
    Alone(name);
  }

  lemma MergedPlace(home: Place)
    ensures Confined(MERGED_PATH) && Nameable(MERGED_PATH) && BaseName(MERGED_PATH) == MERGED
    ensures Resolve(home, MERGED_PATH) == Shared(home) + [MERGED]
  {
    hide Resolve, BaseName;
    assert MERGED_PATH[|SHARED_DIR| + 1..] == MERGED;
    MergedIs(MERGED_PATH);
    ConfinedPlace(home, MERGED_PATH);
  }

  /** What is left of a record's name after snprintf. */
  function Cut(name: string): (r: string) {
    Take(name, LINE - |SHARED_DIR| - 1)
  }

  lemma TargetIs(name: string)
    ensures Target(SHARED_DIR, name) == SHARED_DIR + "/" + Cut(name)
  {
  }

  lemma SharedHasNoParent(name: string)
    ensures RefersToParent(SHARED_DIR + "/" + name) <==> RefersToParent(name)
  {
    hide RefersToParent;
    ParentSplit("etc", "shared" + "/" + name);
    ParentSplit("shared", name);
    assert SHARED_DIR + "/" + name == "etc" + "/" + ("shared" + "/" + name);
  }

  lemma TargetPlace(home: Place, name: string)
    ensures Resolve(home, Target(SHARED_DIR, name)) == Resolve(Shared(home), Cut(name))
    ensures RefersToParent(Target(SHARED_DIR, name)) <==> RefersToParent(Cut(name))
    ensures Nameable(Target(SHARED_DIR, name)) <==> Nameable(Cut(name))
  {
    hide Resolve, RefersToParent, Target, Cut, BaseName;
    TargetIs(name);
    ResolveShared(home, Cut(name));
    BaseNameConcat(SHARED_DIR, Cut(name));
    SharedHasNoParent(Cut(name));
  }

  // ----- confinement -----

  /** The places one message creates, writes or removes. */
  function Touched(s: State, a: Arrival, md5: string -> string): (places: set<Place>) {
    match Classify(a.msg)
    case Pass => {}
    case Ignored => {}
    case Data => if s.open.Some? then {Resolve(s.home, s.open.value)} else {}
    case Update(_, path) => if Nameable(path) then {Resolve(s.home, path)} else {}
    case Close =>
      if s.pending == "" || !Nameable(s.pending) then {}
      else if Unpacks(s, md5, a.luck) then UnpackTouches(s.home, s.files, Received(s), a.luck)
      else {Resolve(s.home, s.pending)}
  }

  function UnpackTouches(home: Place, files: map<Place, string>, data: string, luck: Luck): (places: set<Place>) {
    var u := Outcome(data, luck);
    var written := set w | w in u.writes :: Resolve(home, w.name);
    if u.ok
    then
      var all := WriteAll(home, files, u.writes);
      written + set place | place in all && Doomed(home, place, Kept(u.writes), luck.spared)
    else written
  }

  predicate SameAt(files: map<Place, string>, files': map<Place, string>, place: Place) {
    (place in files <==> place in files') && (place in files ==> files[place] == files'[place])
  }

  lemma {:induction false} WriteAllFrame(
      home: Place, files: map<Place, string>, writes: seq<Record>, place: Place)
    requires forall k :: 0 <= k < |writes| ==> Resolve(home, writes[k].name) != place
    ensures SameAt(files, WriteAll(home, files, writes), place)
  {
    hide Resolve;
    if writes != [] {
      WriteAllFrame(home, files, writes[..|writes| - 1], place);
    }
  }

  lemma UnpackFrame(home: Place, files: map<Place, string>, data: string, luck: Luck, place: Place)
    requires place !in UnpackTouches(home, files, data, luck)
    ensures SameAt(files, Unpack(home, files, data, luck), place)
  {
    hide Outcome, Doomed, Kept, Resolve, WriteAll;
    var u := Outcome(data, luck);
    forall k | 0 <= k < |u.writes|
      ensures Resolve(home, u.writes[k].name) != place
    {
      assert u.writes[k] in u.writes;
    }
    WriteAllFrame(home, files, u.writes, place);
  }

  /** Nothing but the touched places changes. */
  lemma ReceiveFrame(s: State, a: Arrival, md5: string -> string, place: Place)
    requires Inv(s) && place !in Touched(s, a, md5)
    ensures SameAt(s.files, Receive(s, a.msg, md5, a.luck).files, place)
  {
    hide Classify, Unpack, UnpackTouches, Confined, Resolve, Nameable;
    if Classify(a.msg).Close? && Unpacks(s, md5, a.luck) {
      UnpackFrame(s.home, s.files, Received(s), a.luck, place);
    }
  }

  /** Some record of the archive that gets as far as its rename does not end below the
      directory, walking over its own name. */
  predicate Climbs(home: Place, data: string, luck: Luck) {
    var records := Unmerge(data).0;
    exists k :: 0 <= k < |records| && k < |Outcome(data, luck).writes| &&
                !EndsBelow(Shared(home), Cut(records[k].name))
  }

  predicate ClimbsAt(s: State, a: Arrival, md5: string -> string) {
    Classify(a.msg).Close? && Unpacks(s, md5, a.luck) && Climbs(s.home, Received(s), a.luck)
  }

  /** The writes of an unpacking are those of the records it reads, all to nameable paths. */
  lemma WrittenAre(data: string, luck: Luck)
    ensures var u, records := Outcome(data, luck), Unmerge(data).0;
            && |u.writes| <= |records|
            && (u.ok ==> |u.writes| == |records| && NoParents(u.writes))
            && forall k :: 0 <= k < |u.writes| ==>
                 u.writes[k] == Write(SHARED_DIR, records[k]) && Nameable(Target(SHARED_DIR, records[k].name))
  {
    hide Unmerge, Write, Nameable, Target;
  }

  lemma UnpackStaysInsideIff(home: Place, files: map<Place, string>, data: string, luck: Luck)
    ensures (forall place :: place in UnpackTouches(home, files, data, luck) ==> Inside(home, place)) <==>
            !Climbs(home, data, luck)
  {
    hide Unmerge, RefersToParent, Target, Kept, Outcome, WriteAll, Resolve, Shared, EndsBelow, Cut, Nameable;
    WrittenAre(data, luck);
    var u, records := Outcome(data, luck), Unmerge(data).0;
    forall k | 0 <= k < |u.writes|
      ensures Inside(home, Resolve(home, u.writes[k].name)) <==> EndsBelow(Shared(home), Cut(records[k].name))
    {
      TargetPlace(home, records[k].name);
      EndsBelowIff(Shared(home), Cut(records[k].name));
    }
    if Climbs(home, data, luck) {
      var k :| 0 <= k < |records| && k < |u.writes| && !EndsBelow(Shared(home), Cut(records[k].name));
      assert u.writes[k] in u.writes;
      assert Resolve(home, u.writes[k].name) in UnpackTouches(home, files, data, luck);
    } else {
      forall place | place in UnpackTouches(home, files, data, luck)
        ensures Inside(home, place)
      {
        if !Doomed(home, place, Kept(u.writes), luck.spared) {
          var k :| 0 <= k < |u.writes| && Resolve(home, u.writes[k].name) == place;
        }
      }
    }
  }

  lemma VerifiedIsNamed(s: State, md5: string -> string, luck: Luck)
    requires Unpacks(s, md5, luck)
    ensures s.pending != "" && Nameable(s.pending)
  {
  }

  lemma StepStaysInsideIff(s: State, a: Arrival, md5: string -> string)
    requires Inv(s)
    ensures (forall place :: place in Touched(s, a, md5) ==> Inside(s.home, place)) <==> !ClimbsAt(s, a, md5)
  {
    hide Classify, Confined, Inside, Climbs, UnpackTouches, Resolve, Nameable;
    if s.pending != "" && Nameable(s.pending) {
      ConfinedPlace(s.home, s.pending);
    }
    if Classify(a.msg).Update? && Nameable(Classify(a.msg).path) {
      UpdateIsConfined(a.msg);
      ConfinedPlace(s.home, Classify(a.msg).path);
    } else if Classify(a.msg).Close? && Unpacks(s, md5, a.luck) {
      UnpackStaysInsideIff(s.home, s.files, Received(s), a.luck);
      VerifiedIsNamed(s, md5, a.luck);
    }
  }

  ghost function RunTouched(s: State, arrivals: seq<Arrival>, md5: string -> string): (places: set<Place>)
    decreases |arrivals|
  {
    if arrivals == [] then {}
    else
      var a := arrivals[0];
      Touched(s, a, md5) + RunTouched(Receive(s, a.msg, md5, a.luck), arrivals[1..], md5)
  }

  ghost predicate RunClimbs(s: State, arrivals: seq<Arrival>, md5: string -> string)
    decreases |arrivals|
  {
    if arrivals == [] then false
    else
      var a := arrivals[0];
      ClimbsAt(s, a, md5) || RunClimbs(Receive(s, a.msg, md5, a.luck), arrivals[1..], md5)
  }

  /** Whatever the manager sends: every file created, written or removed is properly below the
      shared directory, wherever the paths lead, if and only if in every unpacked archive each
      record that gets as far as its rename ends below it, which is decided on the record's name
      alone. Nothing else changes, and what is open is the pending file, directly inside. */
  lemma {:induction false} OnlySharedFilesChangeIff(s: State, arrivals: seq<Arrival>, md5: string -> string)
    requires Inv(s)
    ensures Inv(Run(s, arrivals, md5))
    ensures (forall place :: place in RunTouched(s, arrivals, md5) ==> Inside(s.home, place)) <==>
            !RunClimbs(s, arrivals, md5)
    ensures forall place :: place !in RunTouched(s, arrivals, md5) ==>
              SameAt(s.files, Run(s, arrivals, md5).files, place)
    decreases |arrivals|
  {
    hide Receive, Touched, ClimbsAt, Inside, Inv;
    if arrivals != [] {
      var a := arrivals[0];
      var s' := Receive(s, a.msg, md5, a.luck);
      ReceiveKeepsInv(s, a.msg, md5, a.luck);
      StepStaysInsideIff(s, a, md5);
      OnlySharedFilesChangeIff(s', arrivals[1..], md5);
      forall place | place !in RunTouched(s, arrivals, md5)
        ensures SameAt(s.files, Run(s, arrivals, md5).files, place)
      {
        ReceiveFrame(s, a, md5, place);
        assert place !in RunTouched(s', arrivals[1..], md5);
      }
    }
  }

  /** As it was, or an empty file. */
  predicate KeptOrEmptied(files: map<Place, string>, files': map<Place, string>, place: Place) {
    SameAt(files, files', place) || (place in files' && files'[place] == "")
  }

  lemma {:induction false} WriteAllOutside(
      home: Place, files: map<Place, string>, writes: seq<Record>, place: Place)
    requires !Inside(home, place)
    requires forall k :: 0 <= k < |writes| ==>
               Inside(home, Resolve(home, writes[k].name)) || writes[k].content == ""
    ensures KeptOrEmptied(files, WriteAll(home, files, writes), place)
  {
    hide Resolve, Inside;
    if writes != [] {
      WriteAllOutside(home, files, writes[..|writes| - 1], place);
    }
  }

  /** A record that is not refused ends inside. */
  lemma ContentStaysInside(home: Place, r: Record)
    requires Nameable(Target(SHARED_DIR, r.name))
    ensures var w := Write(SHARED_DIR, r); Inside(home, Resolve(home, w.name)) || w.content == ""
  {
    hide Resolve, RefersToParent, Target, Cut, Nameable;
    TargetPlace(home, r.name);
    if !RefersToParent(Cut(r.name)) {
      NoParentEndsBelow(Shared(home), Cut(r.name));
    }
  }

  /** An unpacking that reports success has stayed inside. */
  lemma SuccessStaysInside(home: Place, data: string, luck: Luck)
    requires Outcome(data, luck).ok
    ensures !Climbs(home, data, luck)
  {
    hide Unmerge, Outcome, RefersToParent, Target, Cut, Nameable, EndsBelow;
    WrittenAre(data, luck);
    var u, records := Outcome(data, luck), Unmerge(data).0;
    forall k | 0 <= k < |u.writes|
      ensures EndsBelow(Shared(home), Cut(records[k].name))
    {
      TargetPlace(home, records[k].name);
      assert !RefersToParent(u.writes[k].name);
      NoParentEndsBelow(Shared(home), Cut(records[k].name));
    }
  }

  lemma UnpackOutside(home: Place, files: map<Place, string>, data: string, luck: Luck, place: Place)
    requires !Inside(home, place)
    ensures KeptOrEmptied(files, Unpack(home, files, data, luck), place)
  {
    hide Unmerge, Kept, Outcome, Resolve, Inside, Write, Nameable;
    WrittenAre(data, luck);
    var u, records := Outcome(data, luck), Unmerge(data).0;
    forall k | 0 <= k < |u.writes|
      ensures Inside(home, Resolve(home, u.writes[k].name)) || u.writes[k].content == ""
    {
      ContentStaysInside(home, records[k]);
    }
    WriteAllOutside(home, files, u.writes, place);
  }

  lemma SameIsKept(files: map<Place, string>, files': map<Place, string>, place: Place)
    requires SameAt(files, files', place)
    ensures KeptOrEmptied(files, files', place)
  {
  }

  lemma UnpackingClose(s: State, a: Arrival, md5: string -> string)
    requires Classify(a.msg).Close? && Unpacks(s, md5, a.luck)
    ensures Receive(s, a.msg, md5, a.luck).files == Unpack(s.home, s.files, Received(s), a.luck)
  {
    hide Classify, Unpack, Resolve;
    VerifiedIsNamed(s, md5, a.luck);
  }

  lemma StepOutside(s: State, a: Arrival, md5: string -> string, place: Place)
    requires Inv(s) && !Inside(s.home, place)
    ensures KeptOrEmptied(s.files, Receive(s, a.msg, md5, a.luck).files, place)
  {
    if Classify(a.msg).Close? && Unpacks(s, md5, a.luck) {
      UnpackingClose(s, a, md5);
      hide Classify, Unpack, Inside, Receive, Resolve;
      UnpackOutside(s.home, s.files, Received(s), a.luck, place);
    } else {
      hide Classify, Inside, KeptOrEmptied, Receive, Touched;
      StepStaysInsideIff(s, a, md5);
      ReceiveFrame(s, a, md5, place);
      SameIsKept(s.files, Receive(s, a.msg, md5, a.luck).files, place);
    }
  }

  /** Outside the shared directory no data of the manager arrives and nothing is removed: after
      every run a place is as it was or an empty file. */
  lemma {:induction false} OutsideIsKeptOrEmptied(
      s: State, arrivals: seq<Arrival>, md5: string -> string, place: Place)
    requires Inv(s) && !Inside(s.home, place)
    ensures KeptOrEmptied(s.files, Run(s, arrivals, md5).files, place)
    decreases |arrivals|
  {
    hide Receive, Inside, Inv;
    if arrivals != [] {
      var a := arrivals[0];
      ReceiveKeepsInv(s, a.msg, md5, a.luck);
      StepOutside(s, a, md5, place);
      OutsideIsKeptOrEmptied(Receive(s, a.msg, md5, a.luck), arrivals[1..], md5, place);
    }
  }

  // ----- archives of one empty record -----

  lemma CloseIsClose()
    ensures Classify("#!-close file ") == Close
  {
    hide RefersToParent, CleanName;
    var body := "#!-close file "[3..];
    assert body == CLOSE && body[0] == 'c' && body[1] == 'l';
  }

  /** The close of a good transfer of the archive, with no failing operation. */
  function CloseOf(home: Place, data: string, files: map<Place, string>, md5: string -> string): (s': State) {
    var s := State(home, None, MERGED_PATH, md5(data), files);
    Receive(s, "#!-close file ", md5, Luck(true, true, true, 1, {}))
  }

  lemma CloseOfIs(home: Place, data: string, files: map<Place, string>, md5: string -> string)
    requires Shared(home) + [MERGED] in files && files[Shared(home) + [MERGED]] == data
    ensures CloseOf(home, data, files, md5).files == Unpack(home, files, data, Luck(true, true, true, 1, {}))
  {
    hide Classify, Unpack, Resolve, BaseName, Nameable;
    CloseIsClose();
    MergedPlace(home);
    MergedIs(MERGED_PATH);
  }

  lemma CutIsWhole(name: string)
    requires |name| <= 1000
    ensures Cut(name) == name
  {
  }

  lemma OneRecord(name: string, luck: Luck)
    requires luck.reopens && luck.placed >= 1 && SingleLine(name) && |name| <= 1000 && Nameable(Cut(name))
    ensures Outcome("!0 " + name + "\n", luck) ==
            Unpacked([Record(SHARED_DIR + "/" + name, "")], !RefersToParent(name))
  {
    hide Unmerge, RefersToParent, Cut, UnmergeInto, BaseName;
    var r := Record(name, "");
    assert Digits(0) == "0" && Header(r) == "!0 " + name + "\n";
    CutIsWhole(name);
    TargetPlace([], name);
    TargetIs(name);
    assert Skippable("");
    UnmergeReportsIff(SHARED_DIR, "", [r], luck.placed);
    assert Encode([r]) == EncodeOne(r) + Encode([]);
    assert TagLine("") + Encode([r]) == Header(r);
    var writes := Writes(SHARED_DIR, [r]);
    assert writes == [Write(SHARED_DIR, r)];
    assert NoParents(writes) <==> !RefersToParent(writes[0].name);
  }

  /** A refused record: one empty file where its path leads, no clean-up. */
  lemma RefusedRecord(home: Place, name: string, files: map<Place, string>, md5: string -> string)
    requires SingleLine(name) && |name| <= 1000 && Nameable(name) && RefersToParent(name)
    requires Shared(home) + [MERGED] in files && files[Shared(home) + [MERGED]] == "!0 " + name + "\n"
    ensures CloseOf(home, "!0 " + name + "\n", files, md5).files == files[Resolve(Shared(home), name) := ""]
  {
    hide Outcome, Resolve, RefersToParent, BaseName, CloseOf;
    var data, luck := "!0 " + name + "\n", Luck(true, true, true, 1, {});
    CutIsWhole(name);
    OneRecord(name, luck);
    CloseOfIs(home, data, files, md5);
    ResolveShared(home, name);
    var writes := [Record(SHARED_DIR + "/" + name, "")];
    assert writes[..0] == [];
    assert WriteAll(home, files, writes) == files[Resolve(home, writes[0].name) := ""];
  }

  /** The name of an entry of a directory. */
  predicate EntryName(name: string) {
    '/' !in name && name != "" && name != "." && name != ".." && SingleLine(name) && |name| <= 900
  }

  lemma TwoParts(dir: Place, a: string, b: string)
    requires '/' !in a && EntryName(b)
    ensures Resolve(dir, a + "/" + b) == Follow(dir, a) + [b] && Nameable(a + "/" + b)
  {
    hide BaseName, Resolve;
    ResolveConcat(dir, a, b);
    ResolveOne(dir, a);
    ResolveOne(Follow(dir, a), b);
    BaseNameConcat(a, b);
    Alone(b);
  }

  /** Record "../b" leaves: it empties the file b next to the shared directory. */
  lemma ArchiveCanClimb(home: Place, b: string, text: string, md5: string -> string)
    requires EntryName(b) && b != "shared"
    ensures var data := "!0 " + (".." + "/" + b) + "\n";
            var merged, place := Shared(home) + [MERGED], home + ["etc"] + [b];
            && CloseOf(home, data, map[merged := data, place := text], md5).files == map[merged := data, place := ""]
            && !Inside(home, place)
  {
    hide Resolve, RefersToParent, BaseName, CloseOf;
    var dir, name := Shared(home), ".." + "/" + b;
    var data, merged, place := "!0 " + name + "\n", dir + [MERGED], home + ["etc"] + [b];
    TwoParts(dir, "..", b);
    ParentSplit("..", b);
    assert dir[..|dir| - 1] == home + ["etc"];
    assert |merged| != |place|;
    var files := map[merged := data, place := text];
    RefusedRecord(home, name, files, md5);
    assert files[place := ""] == map[merged := data, place := ""];
  }

  /** Record "a/../b" comes back: it is refused, stays inside, and empties the file b there. */
  lemma ArchiveCanComeBack(home: Place, a: string, b: string, text: string, md5: string -> string)
    requires EntryName(a) && EntryName(b) && |a| + |b| <= 900 && b != MERGED
    ensures var data := "!0 " + (a + "/" + (".." + "/" + b)) + "\n";
            var merged, place := Shared(home) + [MERGED], Shared(home) + [b];
            && CloseOf(home, data, map[merged := data, place := text], md5).files == map[merged := data, place := ""]
            && Inside(home, place)
  {
    hide Resolve, RefersToParent, BaseName, CloseOf, Shared;
    var dir, rest := Shared(home), ".." + "/" + b;
    var name := a + "/" + rest;
    var data, merged, place := "!0 " + name + "\n", dir + [MERGED], dir + [b];
    ResolveConcat(dir, a, rest);
    ResolveOne(dir, a);
    TwoParts(dir + [a], "..", b);
    BaseNameConcat(a, rest);
    ParentSplit(a, rest);
    ParentSplit("..", b);
    assert (dir + [a])[..|dir|] == dir;
    assert merged[|dir|] != place[|dir|];
    var files := map[merged := data, place := text];
    RefusedRecord(home, name, files, md5);
    assert files[place := ""] == map[merged := data, place := ""];
  }

  // ----- whole transfers -----

  /** The data received before the first control message that closes the file. */
  function Contents(arrivals: seq<Arrival>): (r: string)
    decreases |arrivals|
  {
    if arrivals == [] then ""
    else
      match Classify(arrivals[0].msg)
      case Data => arrivals[0].msg + Contents(arrivals[1..])
      case Pass => Contents(arrivals[1..])
      case _ => ""
  }

  /** Neither a new update nor a close. */
  predicate MidTransfer(arrivals: seq<Arrival>) {
    forall k :: 0 <= k < |arrivals| ==>
      !Classify(arrivals[k].msg).Update? && !Classify(arrivals[k].msg).Close?
  }

  lemma {:induction false} ClosedFileKeepsItsContents(s: State, arrivals: seq<Arrival>, md5: string -> string)
    requires s.open.None? && MidTransfer(arrivals)
    ensures Run(s, arrivals, md5) == s
    decreases |arrivals|
  {
    hide Classify;
    if arrivals != [] {
      ClosedFileKeepsItsContents(Receive(s, arrivals[0].msg, md5, arrivals[0].luck), arrivals[1..], md5);
    }
  }

  /** Between update and close the open file grows by exactly the data received, in order. */
  lemma {:induction false} FileIsTheConcatenation(s: State, arrivals: seq<Arrival>, md5: string -> string)
    requires Inv(s) && s.open.Some? && MidTransfer(arrivals)
    ensures var s', place := Run(s, arrivals, md5), Resolve(s.home, s.pending);
            && s'.pending == s.pending && s'.sum == s.sum
            && s'.files == s.files[place := s.files[place] + Contents(arrivals)]
    decreases |arrivals|
  {
    hide Classify, Confined, Resolve, Nameable;
    var place := Resolve(s.home, s.pending);
    if arrivals == [] {
      assert s.files[place] + "" == s.files[place];
    } else {
      var s1 := Receive(s, arrivals[0].msg, md5, arrivals[0].luck);
      match Classify(arrivals[0].msg)
      case Data =>
        FileIsTheConcatenation(s1, arrivals[1..], md5);
        assert (s.files[place] + arrivals[0].msg) + Contents(arrivals[1..])
            == s.files[place] + (arrivals[0].msg + Contents(arrivals[1..]));
      case Pass => FileIsTheConcatenation(s1, arrivals[1..], md5);
      case Ignored =>
        ClosedFileKeepsItsContents(s1, arrivals[1..], md5);
        assert s.files[place] + "" == s.files[place];
      case Update(_, _) => assert false;
      case Close => assert false;
    }
  }

  lemma UpdateOpens(s: State, update: Arrival, md5: string -> string)
    requires Classify(update.msg).Update? && Receive(s, update.msg, md5, update.luck).open.Some?
    ensures var Update(sum, path) := Classify(update.msg);
            && Nameable(path)
            && Receive(s, update.msg, md5, update.luck) ==
               State(s.home, Some(path), path, sum, s.files[Resolve(s.home, path) := ""])
  {
    hide Classify, Resolve, Nameable;
  }

  lemma CloseInstalls(s: State, close: Arrival, md5: string -> string)
    requires Classify(close.msg).Close? && Confined(s.pending) && Nameable(s.pending)
    requires Resolve(s.home, s.pending) in s.files
    ensures var place := Resolve(s.home, s.pending);
            var good := close.luck.readable && md5(s.files[place]) == s.sum;
            Receive(s, close.msg, md5, close.luck) ==
            State(s.home, None, "", s.sum,
                  if !good then s.files - {place}
                  else if s.pending == MERGED_PATH then Unpack(s.home, s.files, s.files[place], close.luck)
                  else s.files)
  {
    hide Classify, Unpack, Resolve, Nameable;
    MergedIs(s.pending);
  }

  lemma PlaceOfUpdate(home: Place, path: string)
    requires Confined(path) && Nameable(path)
    ensures Resolve(home, path) == Shared(home) + [BaseName(path)]
  {
    hide Resolve, BaseName;
    ConfinedPlace(home, path);
    var name := path[|SHARED_DIR| + 1..];
    assert path == SHARED_DIR + "/" + name;
    BaseNameConcat(SHARED_DIR, name);
    Alone(name);
  }

  /** A whole transfer: an update whose open succeeds, any messages that neither update nor
      close, then a close. The file holds the data in order; it is installed, and unpacked if
      it is the merged configuration, exactly when it can be read and its MD5 is the announced
      sum, and removed otherwise; nothing is left open or pending. */
  lemma WholeTransfer(s: State, update: Arrival, middle: seq<Arrival>, close: Arrival, md5: string -> string)
    requires Inv(s) && MidTransfer(middle)
    requires Classify(update.msg).Update? && Receive(s, update.msg, md5, update.luck).open.Some?
    requires Classify(close.msg).Close?
    ensures var Update(sum, path) := Classify(update.msg);
            var s1 := Run(Receive(s, update.msg, md5, update.luck), middle, md5);
            var s2 := Receive(s1, close.msg, md5, close.luck);
            var place := Shared(s.home) + [BaseName(path)];
            && place in s1.files && s1.files[place] == Contents(middle)
            && s2.open.None? && s2.pending == ""
            && s2.files == (if close.luck.readable && md5(Contents(middle)) == sum
                            then if path == MERGED_PATH
                                 then Unpack(s.home, s.files[place := Contents(middle)], Contents(middle), close.luck)
                                 else s.files[place := Contents(middle)]
                            else s.files - {place})
  {
    hide Classify, Run, Contents, MidTransfer, Unpack, Receive, Confined, Resolve, BaseName, Nameable;
    var Update(sum, path) := Classify(update.msg);
    var s0 := Receive(s, update.msg, md5, update.luck);
    ReceiveKeepsInv(s, update.msg, md5, update.luck);
    UpdateIsConfined(update.msg);
    UpdateOpens(s, update, md5);
    PlaceOfUpdate(s.home, path);
    FileIsTheConcatenation(s0, middle, md5);
    var place := Resolve(s.home, path);
    assert "" + Contents(middle) == Contents(middle);
    var s1 := Run(s0, middle, md5);
    assert s1.files == s.files[place := Contents(middle)];
    CloseInstalls(s1, close, md5);
    assert s1.files - {place} == s.files - {place};
  }

  lemma UpdateFails(s: State, update: Arrival, md5: string -> string)
    requires Classify(update.msg).Update? && !update.luck.openable
    ensures var Update(sum, path) := Classify(update.msg);
            Receive(s, update.msg, md5, update.luck) == State(s.home, None, path, sum, s.files)
  {
    hide Classify, Resolve, Nameable;
  }

  /** A transfer whose open fails: the data is lost, and the close judges what was there before
      under that name by the new sum. An old file that does not match is removed. */
  lemma UnopenedTransfer(s: State, update: Arrival, middle: seq<Arrival>, close: Arrival, md5: string -> string)
    requires Inv(s) && MidTransfer(middle)
    requires Classify(update.msg).Update? && !update.luck.openable && Nameable(Classify(update.msg).path)
    requires Classify(close.msg).Close?
    ensures var Update(sum, path) := Classify(update.msg);
            var s1 := Run(Receive(s, update.msg, md5, update.luck), middle, md5);
            var s2 := Receive(s1, close.msg, md5, close.luck);
            var place := Shared(s.home) + [BaseName(path)];
            && s1.files == s.files && s2.open.None? && s2.pending == ""
            && s2.files == (if place in s.files && close.luck.readable && md5(s.files[place]) == sum
                            then if path == MERGED_PATH then Unpack(s.home, s.files, s.files[place], close.luck)
                                 else s.files
                            else s.files - {place})
  {
    hide Classify, Run, MidTransfer, Unpack, Receive, Confined, Resolve, BaseName;
    var Update(sum, path) := Classify(update.msg);
    var s0 := Receive(s, update.msg, md5, update.luck);
    UpdateIsConfined(update.msg);
    UpdateFails(s, update, md5);
    PlaceOfUpdate(s.home, path);
    ClosedFileKeepsItsContents(s0, middle, md5);
    if Resolve(s.home, path) in s.files {
      CloseInstalls(s0, close, md5);
    } else {
      CloseOfNothing(s0, close, md5);
    }
  }

  lemma CloseOfNothing(s: State, close: Arrival, md5: string -> string)
    requires Classify(close.msg).Close? && Confined(s.pending) && Nameable(s.pending)
    requires Resolve(s.home, s.pending) !in s.files
    ensures var s' := Receive(s, close.msg, md5, close.luck);
            s'.open.None? && s'.pending == "" && s'.files == s.files - {Resolve(s.home, s.pending)}
  {
    hide Classify, Resolve, Nameable;
  }
}
