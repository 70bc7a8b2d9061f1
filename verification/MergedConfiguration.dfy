/** A merged configuration, end to end: what the agent's shared directory holds after the manager
    has sent an archive of any readable names. */
module MergedConfiguration {

  import opened FileReceiver
  import opened MergeFormat
  import opened MessageTexts
  import opened Options
  import opened Paths
  import opened ReceiverRuns

  /** A record the unpacker takes without complaint. */
  predicate Acceptable(r: Record) {
    Unpackable(SHARED_DIR, r) && !RefersToParent(SHARED_DIR + "/" + r.name)
  }

  function PlaceOf(home: Place, name: string): (r: Place) {
    Resolve(home, SHARED_DIR + "/" + name)
  }

  /** The first component of a name, which is its entry in the shared directory. */
  function FirstName(name: string): (r: string) {
    var names := Names(Components(name));
    if names == [] then "" else names[0]
  }

  /** The clean-up keeps an entry that is the archive's or the base name of some record. */
  predicate IsKept(records: seq<Record>, entry: string) {
    entry == MERGED || exists j :: 0 <= j < |records| && BaseName(records[j].name) == entry
  }

  /** What the clean-up leaves. */
  function Swept(home: Place, files: map<Place, string>, records: seq<Record>): (r: map<Place, string>) {
    map place | place in files && (Inside(home, place) ==> IsKept(records, place[|Shared(home)|])) :: files[place]
  }

  lemma AcceptableIsWritten(r: Record)
    requires Acceptable(r)
    ensures Nameable(Target(SHARED_DIR, r.name)) && Readable(r)
    ensures Write(SHARED_DIR, r) == Record(SHARED_DIR + "/" + r.name, r.content)
  {
    hide Nameable, RefersToParent, Readable;
  }

  lemma AcceptablePlace(home: Place, r: Record)
    requires Acceptable(r)
    ensures Names(Components(r.name)) != []
    ensures PlaceOf(home, r.name) == Shared(home) + Names(Components(r.name))
  {
    hide Resolve, RefersToParent, BaseName, Readable, Names, Components;
    SharedHasNoParent(r.name);
    BaseNameConcat(SHARED_DIR, r.name);
    ResolveShared(home, r.name);
    NoParentEndsBelow(Shared(home), r.name);
  }

  lemma AcceptableHasNoParent(r: Record)
    requires Acceptable(r)
    ensures !RefersToParent(SHARED_DIR + "/" + r.name)
  {
    hide RefersToParent;
  }

  /** The archive comes apart into its records, and success is reported. */
  lemma OutcomeOfArchive(tag: string, records: seq<Record>, luck: Luck)
    requires Skippable(tag) && forall k :: 0 <= k < |records| ==> Acceptable(records[k])
    requires luck.reopens && luck.placed >= |records|
    ensures Outcome(TagLine(tag) + Encode(records), luck) == Unpacked(Meant(SHARED_DIR, records), true)
  {
    hide Acceptable, Readable, Nameable, Target, Write, RefersToParent, UnmergeInto, Skippable, Encode;
    forall k | 0 <= k < |records|
      ensures Readable(records[k]) && Nameable(Target(SHARED_DIR, records[k].name))
      ensures Write(SHARED_DIR, records[k]) == Meant(SHARED_DIR, records)[k]
      ensures !RefersToParent(Meant(SHARED_DIR, records)[k].name)
    {
      AcceptableIsWritten(records[k]);
      AcceptableHasNoParent(records[k]);
    }
    UnmergeReportsIff(SHARED_DIR, tag, records, luck.placed);
    assert Writes(SHARED_DIR, records) == Meant(SHARED_DIR, records);
  }

  lemma KeptIs(records: seq<Record>, entry: string)
    ensures entry in Kept(Meant(SHARED_DIR, records)) <==> IsKept(records, entry)
  {
    hide BaseName;
    var writes := Meant(SHARED_DIR, records);
    var kept := Kept(writes);
    forall k | 0 <= k < |records|
      ensures kept[1 + k] == BaseName(records[k].name)
    {
      BaseNameConcat(SHARED_DIR, records[k].name);
    }
    if IsKept(records, entry) && entry != MERGED {
      var j :| 0 <= j < |records| && BaseName(records[j].name) == entry;
      assert kept[1 + j] == entry;
    }
    assert kept[0] == MERGED;
    if entry in kept {
      var k :| 0 <= k < |kept| && kept[k] == entry;
      assert k > 0 ==> BaseName(records[k - 1].name) == entry;
    }
  }

  lemma UnpackOfArchive(home: Place, files: map<Place, string>, tag: string, records: seq<Record>, luck: Luck)
    requires Skippable(tag) && forall k :: 0 <= k < |records| ==> Acceptable(records[k])
    requires luck.reopens && luck.placed >= |records| && luck.spared == {}
    ensures Unpack(home, files, TagLine(tag) + Encode(records), luck) ==
            Swept(home, WriteAll(home, files, Meant(SHARED_DIR, records)), records)
  {
    hide Acceptable, Outcome, WriteAll, Kept, IsKept, Skippable, Encode;
    OutcomeOfArchive(tag, records, luck);
    forall entry
      ensures entry in Kept(Meant(SHARED_DIR, records)) <==> IsKept(records, entry)
    {
      KeptIs(records, entry);
    }
  }

  /** The content at a place is that of the last record written there. */
  lemma {:induction false} LastWrite(home: Place, files: map<Place, string>, writes: seq<Record>, k: nat)
    requires k < |writes|
    ensures var all, place := WriteAll(home, files, writes), Resolve(home, writes[k].name);
            && place in all
            && ((forall m :: k < m < |writes| ==> Resolve(home, writes[m].name) != place) ==>
                  all[place] == writes[k].content)
  {
    hide Resolve;
    var last := |writes| - 1;
    if k < last {
      LastWrite(home, files, writes[..last], k);
      assert writes[..last][k] == writes[k];
      assert forall m :: k < m < last ==> writes[..last][m] == writes[m];
    }
  }

  /** A packed file is left by the clean-up if and only if its first component is kept. */
  lemma SurvivesIff(home: Place, files: map<Place, string>, records: seq<Record>, k: nat)
    requires k < |records| && Acceptable(records[k])
    ensures PlaceOf(home, records[k].name) in Swept(home, WriteAll(home, files, Meant(SHARED_DIR, records)), records)
            <==> IsKept(records, FirstName(records[k].name))
  {
    hide Acceptable, WriteAll, IsKept, Resolve, Names, Components;
    AcceptablePlace(home, records[k]);
    LastWrite(home, files, Meant(SHARED_DIR, records), k);
    var place, names := PlaceOf(home, records[k].name), Names(Components(records[k].name));
    assert Shared(home) < place && place[|Shared(home)|] == names[0];
  }

  /** Every packed file is there. */
  predicate AllArrive(home: Place, files: map<Place, string>, records: seq<Record>) {
    forall k :: 0 <= k < |records| ==> PlaceOf(home, records[k].name) in files
  }

  /** No later record leads to the same place. */
  predicate NoneLater(home: Place, records: seq<Record>, k: nat)
    requires k < |records|
  {
    forall m :: k < m < |records| ==> PlaceOf(home, records[m].name) != PlaceOf(home, records[k].name)
  }

  lemma ContentArrives(home: Place, files: map<Place, string>, records: seq<Record>, k: nat)
    requires k < |records|
    ensures var swept := Swept(home, WriteAll(home, files, Meant(SHARED_DIR, records)), records);
            PlaceOf(home, records[k].name) in swept && NoneLater(home, records, k) ==>
              swept[PlaceOf(home, records[k].name)] == records[k].content
  {
    hide Resolve, WriteAll, IsKept;
    var writes := Meant(SHARED_DIR, records);
    assert forall m :: 0 <= m < |records| ==> Resolve(home, writes[m].name) == PlaceOf(home, records[m].name);
    LastWrite(home, files, writes, k);
  }

  lemma MergedOpens(s: State, update: Arrival, md5: string -> string)
    requires Classify(update.msg).Update? && Classify(update.msg).path == MERGED_PATH && update.luck.openable
    ensures Receive(s, update.msg, md5, update.luck).open.Some?
  {
    hide Classify, Resolve, BaseName;
    MergedPlace(s.home);
  }

  /** What holds of the files after unpacking: all packed ones are there if and only if each one's
      first component is kept; each that is there has its content, unless a later record leads
      to the same place. */
  ghost predicate Arrived(home: Place, files: map<Place, string>, records: seq<Record>) {
    && (AllArrive(home, files, records) <==>
        forall k :: 0 <= k < |records| ==> IsKept(records, FirstName(records[k].name)))
    && forall k :: 0 <= k < |records| && PlaceOf(home, records[k].name) in files && NoneLater(home, records, k) ==>
         files[PlaceOf(home, records[k].name)] == records[k].content
  }

  lemma SweptArrived(home: Place, files: map<Place, string>, records: seq<Record>)
    requires forall k :: 0 <= k < |records| ==> Acceptable(records[k])
    ensures Arrived(home, Swept(home, WriteAll(home, files, Meant(SHARED_DIR, records)), records), records)
  {
    hide Acceptable, Swept, IsKept, FirstName, WriteAll, NoneLater, PlaceOf, Meant;
    var swept := Swept(home, WriteAll(home, files, Meant(SHARED_DIR, records)), records);
    forall k | 0 <= k < |records|
      ensures PlaceOf(home, records[k].name) in swept <==> IsKept(records, FirstName(records[k].name))
      ensures PlaceOf(home, records[k].name) in swept && NoneLater(home, records, k) ==>
                swept[PlaceOf(home, records[k].name)] == records[k].content
    {
      SurvivesIff(home, files, records, k);
      ContentArrives(home, files, records, k);
    }
  }

  lemma MergedIsAnnounced(sum: string)
    requires ' ' !in sum && |sum| <= 33
    ensures Classify("#!-up file " + (sum + " " + ("merged.mg" + "\n"))) == Update(sum, MERGED_PATH)
  {
    hide Classify;
    assert MERGED[0] == 'm';
    PlainUpdateIsRead(sum, MERGED);
    assert "etc/shared/" + MERGED == MERGED_PATH;
  }

  /** The exact files after the archive has been received and unpacked: those of before with the
      archive and the records written over them, without the entries of the shared directory
      that are not kept. */
  function FilesAfter(home: Place, files: map<Place, string>, data: string, records: seq<Record>)
    : (r: map<Place, string>)
  {
    var merged := Shared(home) + [MERGED];
    Swept(home, WriteAll(home, files[merged := data], Meant(SHARED_DIR, records)), records)
  }

  /** End to end: the update for merged.mg arrives, then the archive of any acceptable records,
      in any number of data messages mixed with control messages that pass, then the close, and
      no operation fails. */
  lemma MergedConfigurationArrives(s: State, update: Arrival, middle: seq<Arrival>, close: Arrival,
                                   md5: string -> string, sum: string, end: string, tag: string,
                                   records: seq<Record>)
    requires Inv(s) && MidTransfer(middle)
    requires Contents(middle) == TagLine(tag) + Encode(records) && md5(Contents(middle)) == sum
    requires ' ' !in sum && |sum| <= 33
    requires update.msg == "#!-up file " + (sum + " " + ("merged.mg" + "\n")) && update.luck.openable
    requires close.msg == "#!-close file " + end
    requires Skippable(tag) && forall k :: 0 <= k < |records| ==> Acceptable(records[k])
    requires close.luck.readable && close.luck.reopens && close.luck.placed >= |records| && close.luck.spared == {}
    ensures var s1 := Run(Receive(s, update.msg, md5, update.luck), middle, md5);
            var s2 := Receive(s1, close.msg, md5, close.luck);
            && s2.files == FilesAfter(s.home, s.files, Contents(middle), records)
            && Arrived(s.home, s2.files, records)
  {
    hide *;
    MergedIsAnnounced(sum);
    CloseIsRead(end);
    MergedOpens(s, update, md5);
    WholeTransfer(s, update, middle, close, md5);
    MergedPlace(s.home);
    var files := s.files[Shared(s.home) + [MERGED] := Contents(middle)];
    UnpackOfArchive(s.home, files, tag, records, close.luck);
    SweptArrived(s.home, files, records);
    FilesAfterIs(s.home, s.files, Contents(middle), records);
  }

  lemma FilesAfterIs(home: Place, files: map<Place, string>, data: string, records: seq<Record>)
    ensures FilesAfter(home, files, data, records) ==
            Swept(home, WriteAll(home, files[Shared(home) + [MERGED] := data], Meant(SHARED_DIR, records)), records)
  {
    hide Swept, WriteAll, Meant;
  }

  lemma {:induction false} RunConcat(s: State, a: seq<Arrival>, b: seq<Arrival>, md5: string -> string)
    ensures Run(s, a + b, md5) == Run(Run(s, a, md5), b, md5)
    decreases |a|
  {
    hide Receive;
    if a == [] {
      assert a + b == b;
    } else {
      assert (a + b)[0] == a[0] && (a + b)[1..] == a[1..] + b;
      RunConcat(Receive(s, a[0].msg, md5, a[0].luck), a[1..], b, md5);
    }
  }

  lemma RunOne(s: State, a: Arrival, md5: string -> string)
    ensures Run(s, [a], md5) == Receive(s, a.msg, md5, a.luck)
  {
    hide Receive;
    assert [a][1..] == [];
    assert Run(s, [a], md5) == Run(Receive(s, a.msg, md5, a.luck), [], md5);
  }

  /** The messages of one sent file, taken apart. */
  lemma SentParts(sum: string, data: string, arrivals: seq<Arrival>)
    requires ' ' !in sum && |sum| <= 33 && Carries(arrivals, Sent(sum, MERGED, data))
    ensures |arrivals| >= 2
    ensures var last := |arrivals| - 1;
            && arrivals == [arrivals[0]] + arrivals[1..last] + [arrivals[last]]
            && arrivals[0].msg == "#!-up file " + (sum + " " + ("merged.mg" + "\n"))
            && arrivals[last].msg == "#!-close file " + ""
            && Carries(arrivals[1..last], Texts(Blocks(data)))
  {
    hide Blocks, AsText;
    var msgs, texts := Sent(sum, MERGED, data), Texts(Blocks(data));
    assert |msgs| == |texts| + 2;
    assert msgs[0] == UpdateText(sum, MERGED) && msgs[|msgs| - 1] == "#!-close file ";
    assert forall k :: 0 <= k < |texts| ==> msgs[1 + k] == texts[k];
    assert "#!-close file " + "" == "#!-close file ";
  }

  /** From manager to agent: the manager sends the archive of any acceptable records, none of
      whose 900-byte blocks looks like a control message or holds a terminator, and no operation
      fails. The agent's files are then the exact ones above. */
  lemma ManagerToAgent(s: State, arrivals: seq<Arrival>, md5: string -> string, tag: string, records: seq<Record>)
    requires Inv(s)
    requires var data := TagLine(tag) + Encode(records);
             && ' ' !in md5(data) && |md5(data)| <= 33
             && Carries(arrivals, Sent(md5(data), MERGED, data))
             && forall k :: 0 <= k < |Blocks(data)| ==> Transparent(Blocks(data)[k])
    requires Skippable(tag) && forall k :: 0 <= k < |records| ==> Acceptable(records[k])
    requires forall k :: 0 <= k < |arrivals| ==>
               var luck := arrivals[k].luck;
               luck.openable && luck.readable && luck.reopens && luck.placed >= |records| && luck.spared == {}
    ensures var s', data := Run(s, arrivals, md5), TagLine(tag) + Encode(records);
            s'.files == FilesAfter(s.home, s.files, data, records) && Arrived(s.home, s'.files, records)
  {
    hide *;
    var data := TagLine(tag) + Encode(records);
    SentParts(md5(data), data, arrivals);
    var last := |arrivals| - 1;
    var update, middle, close := arrivals[0], arrivals[1..last], arrivals[last];
    FileIsReadAsSentIff(data, middle);
    TransparentIsMidTransfer(data, middle);
    MergedConfigurationArrives(s, update, middle, close, md5, md5(data), "", tag, records);
    RunConcat(s, [update] + middle, [close], md5);
    RunConcat(s, [update], middle, md5);
    RunOne(s, update, md5);
    RunOne(Run(Receive(s, update.msg, md5, update.luck), middle, md5), close, md5);
  }

  // ----- failing operations -----

  /** An archive that cannot be opened again changes nothing. */
  lemma UnreadableArchive(home: Place, files: map<Place, string>, data: string, luck: Luck)
    requires !luck.reopens
    ensures Unpack(home, files, data, luck) == files && !Outcome(data, luck).ok
  {
  }

  /** A rename that fails ends the unpacking: the records before it are in place, failure is
      reported, and nothing is removed. */
  lemma InterruptedUnpacking(home: Place, files: map<Place, string>, tag: string, records: seq<Record>, luck: Luck)
    requires Skippable(tag) && forall k :: 0 <= k < |records| ==> Acceptable(records[k])
    requires luck.reopens && luck.placed < |records|
    ensures var data, before := TagLine(tag) + Encode(records), records[..luck.placed];
            && Outcome(data, luck) == Unpacked(Meant(SHARED_DIR, before), false)
            && Unpack(home, files, data, luck) == WriteAll(home, files, Meant(SHARED_DIR, before))
  {
    hide Acceptable, Readable, Nameable, Target, Write, Skippable, Encode, Unmerge, WriteAll, Cleaned;
    forall k | 0 <= k < |records|
      ensures Readable(records[k]) && Nameable(Target(SHARED_DIR, records[k].name))
      ensures Write(SHARED_DIR, records[k]) == Meant(SHARED_DIR, records)[k]
    {
      AcceptableIsWritten(records[k]);
    }
    UnmergeSkipsTag(tag, Encode(records));
    UnmergeRecords(records);
    var n := luck.placed;
    assert Writes(SHARED_DIR, records)[..n] == Meant(SHARED_DIR, records[..n]);
  }

  /** Where removals fail, exactly the files of entries that are not kept and whose own removal
      did not fail are gone. */
  lemma CleanedIff(home: Place, files: map<Place, string>, kept: seq<string>, spared: set<Place>, place: Place)
    requires place in files
    ensures place !in Cleaned(home, files, kept, spared) <==>
            exists entry, below :: place == Shared(home) + [entry] + below && entry !in kept && place !in spared
    ensures place in Cleaned(home, files, kept, spared) ==> Cleaned(home, files, kept, spared)[place] == files[place]
  {
    var d := Shared(home);
    if Inside(home, place) {
      assert place == d + [place[|d|]] + place[|d| + 1..];
    }
    forall entry, below | place == d + [entry] + below
      ensures Inside(home, place) && place[|d|] == entry
    {
      assert place[..|d|] == d;
    }
  }

  /** A flat configuration arrives whole. */
  lemma FlatNamesAreKept(records: seq<Record>, k: nat)
    requires k < |records| && Acceptable(records[k]) && '/' !in records[k].name
    ensures IsKept(records, FirstName(records[k].name))
  {
    hide Acceptable, BaseName, Components;
    var name := records[k].name;
    AcceptablePlace([], records[k]);
    Alone(name);
    assert [name][1..] == [];
    assert Names([name]) == [name];
  }

  lemma SweptAway(home: Place, files: map<Place, string>, sub: string, a: string)
    requires EntryName(sub) && EntryName(a) && sub != MERGED && sub != a
    requires files.Keys == {Shared(home) + [MERGED]}
    requires Resolve(home, SHARED_DIR + "/" + (sub + "/" + a)) == Shared(home) + [sub] + [a]
    ensures var writes := [Record(SHARED_DIR + "/" + (sub + "/" + a), "")];
            Cleaned(home, WriteAll(home, files, writes), Kept(writes), {}) == files
  {
    hide Resolve, BaseName;
    var dir, merged, lost := Shared(home), Shared(home) + [MERGED], Shared(home) + [sub] + [a];
    var writes := [Record(SHARED_DIR + "/" + (sub + "/" + a), "")];
    BaseNameConcat(SHARED_DIR, sub + "/" + a);
    BaseNameConcat(sub, a);
    Alone(a);
    assert writes[..0] == [];
    assert WriteAll(home, files, writes) == files[lost := ""];
    assert Kept(writes) == [MERGED, a];
    assert lost[|dir|] == sub && merged[|dir|] == MERGED && dir < lost;
    assert lost != merged;
    assert Doomed(home, lost, [MERGED, a], {}) && !Doomed(home, merged, [MERGED, a], {});
  }

  /** A file in a subdirectory is unpacked, reported as success, and then deleted. */
  lemma SubdirectoryIsLost(home: Place, sub: string, a: string, md5: string -> string)
    requires EntryName(sub) && EntryName(a) && |sub| + |a| <= 900 && sub != MERGED && sub != a
    ensures var name := sub + "/" + a;
            var data, merged := "!0 " + name + "\n", Shared(home) + [MERGED];
            && Outcome(data, Luck(true, true, true, 1, {})) ==
               Unpacked([Record(SHARED_DIR + "/" + name, "")], true)
            && CloseOf(home, data, map[merged := data], md5).files == map[merged := data]
  {
    hide Resolve, RefersToParent, BaseName, CloseOf, Outcome;
    var dir, name := Shared(home), sub + "/" + a;
    var data, merged, luck := "!0 " + name + "\n", dir + [MERGED], Luck(true, true, true, 1, {});
    var files := map[merged := data];
    TwoParts(dir, sub, a);
    ParentSplit(sub, a);
    ParentAlone(a);
    CutIsWhole(name);
    OneRecord(name, luck);
    CloseOfIs(home, data, files, md5);
    ResolveShared(home, name);
    SweptAway(home, files, sub, a);
  }
}
