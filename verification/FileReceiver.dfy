/** Shared-file transfer from the manager (src/client-agent/receiver.c): the update, data and
    close messages, the control messages that pass through between them, and the unpacking of
    the merged configuration. */
module FileReceiver {

  import opened MergeFormat
  import opened Options
  import opened Paths
  import opened Text

  const HEADER := "#!-"
  const UPDATE := "up file "
  const CLOSE := "close file "
  const SHARED_DIR := "etc/shared"
  const MERGED := "merged.mg"
  const MERGED_PATH := SHARED_DIR + "/" + MERGED

  /** `home` is the working directory, `open` the file being written, `pending` and `sum` what the
      last update announced. Files are held by the place they are at, however a path spells it. */
  datatype State = State(
    home: Place, open: Option<string>, pending: string, sum: string, files: map<Place, string>)

  /** What the file system does to one message: whether an open, a read and the second open of
      the merged file succeed, how many unpacked files can be renamed into place, and which
      files the clean-up fails to remove. */
  datatype Luck = Luck(openable: bool, readable: bool, reopens: bool, placed: nat, spared: set<Place>)

  // ----- message kinds -----

  datatype Kind = Data | Pass | Update(sum: string, path: string) | Ignored | Close

  /** Control messages handled before any open file is closed. */
  predicate PassesThrough(body: string) {
    || "execd " <= body
    || "force_reconnect" <= body
    || "syscheck " <= body || "fim_sync " <= body
    || "syscollector_" <= body || "syscollector_sync " <= body || "sca_sync " <= body
    || body == "agent ack "
    || ("req" <= body && |body| > 3)
    || "sca-dump" <= body
  }

  function WithoutSlashes(name: string): (r: string)
    ensures |r| == |name|
  {
    seq(|name|, k requires 0 <= k < |name| => if name[k] == '/' then '-' else name[k])
  }

  /** The file name: the first line, with no slash and no leading dot. */
  function CleanName(raw: string): (r: string)
    ensures '/' !in r && (r != "" ==> r[0] != '.')
  {
    var name := WithoutSlashes(raw[..IndexOf(raw, '\n')]);
    if name != "" && name[0] == '.' then "-" + name[1..] else name
  }

  function Classify(msg: string): (k: Kind) {
    if !(HEADER <= msg) then Data
    else
      var body := msg[3..];
      if PassesThrough(body) then Pass
      else if UPDATE <= body then
        var rest := body[|UPDATE|..];
        var k := IndexOf(rest, ' ');
        if k == |rest| || RefersToParent(rest[k..]) then Ignored
        else Update(Take(rest[..k], 33), Take(SHARED_DIR + "/" + CleanName(rest[k + 1..]), 1023))
      else if CLOSE <= body then Close
      else Ignored
  }

  // ----- one message -----

  function OnUpdate(s: State, sum: string, path: string, openable: bool): (s': State) {
    if openable && Nameable(path)
    then State(s.home, Some(path), path, sum, s.files[Resolve(s.home, path) := ""])
    else State(s.home, None, path, sum, s.files)
  }

  // ----- unpacking the merged configuration -----

  /** The place of the shared directory. */
  function Shared(home: Place): (r: Place) {
    home + ["etc", "shared"]
  }

  /** Properly below the shared directory. */
  predicate Inside(home: Place, place: Place) {
    Shared(home) < place
  }

  function WriteAll(home: Place, files: map<Place, string>, writes: seq<Record>): (r: map<Place, string>) {
    if writes == [] then files
    else
      var w := writes[|writes| - 1];
      WriteAll(home, files, writes[..|writes| - 1])[Resolve(home, w.name) := w.content]
  }

  /** What the clean-up may not remove: the archive and the unpacked names, without directory. */
  function Kept(writes: seq<Record>): (names: seq<string>)
    ensures |names| == 1 + |writes| && names[0] == MERGED
  {
    [MERGED] + seq(|writes|, k requires 0 <= k < |writes| => BaseName(writes[k].name))
  }

  /** Removed by the clean-up: the entry of the directory it is at or below is not kept. */
  predicate Doomed(home: Place, place: Place, kept: seq<string>, spared: set<Place>) {
    Inside(home, place) && place[|Shared(home)|] !in kept && place !in spared
  }

  function Cleaned(home: Place, files: map<Place, string>, kept: seq<string>, spared: set<Place>)
    : (r: map<Place, string>)
  {
    map place | place in files && !Doomed(home, place, kept, spared) :: files[place]
  }

  /** What UnmergeFiles does with the received archive; nothing when it cannot be opened. */
  function Outcome(data: string, luck: Luck): (u: Unpacked) {
    if luck.reopens then UnmergeInto(data, SHARED_DIR, luck.placed) else Unpacked([], false)
  }

  function Unpack(home: Place, files: map<Place, string>, data: string, luck: Luck): (r: map<Place, string>) {
    var u := Outcome(data, luck);
    var written := WriteAll(home, files, u.writes);
    if u.ok then Cleaned(home, written, Kept(u.writes), luck.spared) else written
  }

  // ----- closing a transfer -----

  /** The pending file is there and is what the update announced. */
  predicate Verified(s: State, md5: string -> string, readable: bool) {
    var place := Resolve(s.home, s.pending);
    Nameable(s.pending) && place in s.files && readable && md5(s.files[place]) == s.sum
  }

  function Installed(s: State, luck: Luck): (r: map<Place, string>)
    requires Resolve(s.home, s.pending) in s.files
  {
    var place := Resolve(s.home, s.pending);
    if '/' !in s.pending then s.files - {place}
    else if BaseName(s.pending) == MERGED then Unpack(s.home, s.files, s.files[place], luck)
    else s.files
  }

  /** A directory is not unlinked. */
  function OnClose(s: State, md5: string -> string, luck: Luck): (s': State) {
    if s.pending == "" then s.(open := None)
    else
      s.(open := None, pending := "",
         files := if !Nameable(s.pending) then s.files
                  else if Verified(s, md5, luck.readable) then Installed(s, luck)
                  else s.files - {Resolve(s.home, s.pending)})
  }

  /** The close unpacks a merged configuration. */
  predicate Unpacks(s: State, md5: string -> string, luck: Luck)
    ensures Unpacks(s, md5, luck) ==> Resolve(s.home, s.pending) in s.files
  {
    Verified(s, md5, luck.readable) && '/' in s.pending && BaseName(s.pending) == MERGED
  }

  /** The archive that it unpacks. */
  function Received(s: State): (data: string)
    requires Resolve(s.home, s.pending) in s.files
  {
    s.files[Resolve(s.home, s.pending)]
  }

  function Receive(s: State, msg: string, md5: string -> string, luck: Luck): (s': State)
    ensures s'.home == s.home
  {
    match Classify(msg)
    case Pass => s
    case Data =>
      if s.open.Some? && Resolve(s.home, s.open.value) in s.files
      then
        var place := Resolve(s.home, s.open.value);
        s.(files := s.files[place := s.files[place] + msg])
      else s
    case Update(sum, path) => OnUpdate(s, sum, path, luck.openable)
    case Close => OnClose(s, md5, luck)
    case Ignored => s.(open := None)
  }

  class Receiver {
    const md5: string -> string
    const home: Place
    var open: Option<string>
    var pending: string
    var sum: string
    var files: map<Place, string>

    ghost function View(): (s: State)
      reads this
    {
      State(home, open, pending, sum, files)
    }

    ghost predicate Valid()
      reads this
    {
      Inv(View())
    }

    constructor (md5: string -> string, home: Place, files: map<Place, string>)
      ensures this.md5 == md5 && View() == State(home, None, "", "", files)
      ensures Valid()
    {
      this.md5, this.home, this.files := md5, home, files;
      open, pending, sum := None, "", "";
    }

    /** The name as the update handler rewrites it, one slash at a time. */
    method Rename(raw: string) returns (name: string)
      ensures name == CleanName(raw)
    {
      name := raw[..IndexOf(raw, '\n')];
      ghost var line := name;
      var k := IndexOf(name, '/');
      while k < |name|
        invariant |name| == |line| && k <= |name| && '/' !in name[..k] && (k < |name| ==> name[k] == '/')
        invariant forall m :: 0 <= m < |line| ==> name[m] == if m < k && line[m] == '/' then '-' else line[m]
        decreases |name| - k
      {
        name := name[k := '-'];
        ghost var was := k;
        k := IndexOf(name, '/');
        assert forall m :: 0 <= m <= was ==> name[m] != '/';
        assert k > was;
      }
      assert name == WithoutSlashes(line) by {
        assert name[..k] == name;
        assert forall m :: 0 <= m < |line| ==> name[m] in name;
      }
      if name != "" && name[0] == '.' {
        name := "-" + name[1..];
      }
    }

    method HandleUpdate(rest: string, luck: Luck)
      requires open.None?
      modifies this
      ensures var k := IndexOf(rest, ' ');
              if k == |rest| || RefersToParent(rest[k..]) then View() == old(View())
              else View() == OnUpdate(old(View()), Take(rest[..k], 33),
                                      Take(SHARED_DIR + "/" + CleanName(rest[k + 1..]), 1023), luck.openable)
    {
      hide CleanName, RefersToParent, Resolve, Nameable;
      var k := IndexOf(rest, ' ');
      if k == |rest| || RefersToParent(rest[k..]) {
        return;
      }
      sum := Take(rest[..k], 33);
      var name := Rename(rest[k + 1..]);
      pending := Take(SHARED_DIR + "/" + name, 1023);
      if luck.openable && Nameable(pending) {
        open, files := Some(pending), files[Resolve(home, pending) := ""];
      }
    }

    /** Puts the unpacked files in place, in reading order. */
    method WriteFiles(writes: seq<Record>)
      modifies this`files
      ensures files == WriteAll(home, old(files), writes)
    {
      hide Resolve;
      for k := 0 to |writes|
        invariant files == WriteAll(home, old(files), writes[..k])
      {
        assert writes[..k + 1][..k] == writes[..k];
        files := files[Resolve(home, writes[k].name) := writes[k].content];
      }
      assert writes[..|writes|] == writes;
    }

    /** The clean-up: every entry of the directory that is not kept goes, with all below it. */
    method CleanShared(kept: seq<string>, spared: set<Place>)
      modifies this`files
      ensures files == Cleaned(home, old(files), kept, spared)
    {
      var d := |Shared(home)|;
      var entries := set place | place in files && Inside(home, place) :: place[d];
      hide Inside;
      while entries != {}
        invariant forall place :: place in files <==>
                    place in old(files) &&
                    (Doomed(home, place, kept, spared) ==> d < |place| && place[d] in entries)
        invariant forall place :: place in files ==> files[place] == old(files)[place]
        decreases |entries|
      {
        var e :| e in entries;
        entries := entries - {e};
        if e !in kept {
          files := map place | place in files &&
                               !(Inside(home, place) && d < |place| && place[d] == e && place !in spared)
                             :: files[place];
        }
      }
    }

    /** `failed` tells that the merged configuration could not be unpacked, which the manager
        is told. */
    method HandleClose(luck: Luck) returns (failed: bool)
      requires open.None?
      modifies this
      ensures View() == OnClose(old(View()), md5, luck)
      ensures failed <==> Unpacks(old(View()), md5, luck) && !Outcome(Received(old(View())), luck).ok
    {
      hide Resolve, UnmergeInto, Cleaned, WriteAll, Kept;
      failed := false;
      if pending == "" {
        assert !Unpacks(View(), md5, luck);
      } else {
        var place := Resolve(home, pending);
        if !Nameable(pending) {
        } else if !(place in files && luck.readable) || md5(files[place]) != sum || '/' !in pending {
          files := files - {place};
        } else if BaseName(pending) == MERGED {
          var u := Unpacked([], false);
          if luck.reopens {
            u := UnmergeFiles(files[place], SHARED_DIR, luck.placed);
          }
          WriteFiles(u.writes);
          failed := !u.ok;
          if u.ok {
            CleanShared(Kept(u.writes), luck.spared);
          }
        }
        pending := "";
      }
    }

    method ReceiveMessage(msg: string, luck: Luck) returns (failed: bool)
      requires Valid()
      modifies this
      ensures View() == Receive(old(View()), msg, md5, luck)
      ensures failed <==> Classify(msg).Close? && Unpacks(old(View()), md5, luck) &&
                          !Outcome(Received(old(View())), luck).ok
      ensures Valid()
    {
      hide RefersToParent, CleanName, PassesThrough, Resolve, Outcome, Nameable, OnClose, Unpacks, Inv;
      ReceiveKeepsInv(View(), msg, md5, luck);
      OpenIsPending(View());
      ClosingIgnoresOpen(View(), md5, luck);
      failed := false;
      if HEADER <= msg {
        var body := msg[3..];
        if PassesThrough(body) {
          return;
        }
        open := None;
        if UPDATE <= body {
          HandleUpdate(body[|UPDATE|..], luck);
        } else if CLOSE <= body {
          failed := HandleClose(luck);
        }
      } else if open.Some? {
        var place := Resolve(home, open.value);
        files := files[place := files[place] + msg];
      }
    }
  }

  // ----- invariant: one confined pending file -----

  /** A path directly inside the shared directory. */
  predicate Confined(path: string) {
    && SHARED_DIR + "/" <= path
    && '/' !in path[|SHARED_DIR| + 1..]
    && (|path| > |SHARED_DIR| + 1 ==> path[|SHARED_DIR| + 1] != '.')
  }

  predicate Inv(s: State) {
    && (s.pending == "" || Confined(s.pending))
    && (s.open.Some? ==>
          && s.open.value == s.pending && s.pending != "" && Nameable(s.pending)
          && Resolve(s.home, s.pending) in s.files)
  }

  /** What a close does and reports does not depend on the open file. */
  lemma ClosingIgnoresOpen(s: State, md5: string -> string, luck: Luck)
    ensures OnClose(s.(open := None), md5, luck) == OnClose(s, md5, luck)
    ensures Unpacks(s.(open := None), md5, luck) <==> Unpacks(s, md5, luck)
    ensures Unpacks(s, md5, luck) ==> Received(s.(open := None)) == Received(s)
  {
    hide Resolve, Unpack, Nameable;
  }

  lemma OpenIsPending(s: State)
    requires Inv(s)
    ensures s.open.Some? ==> Resolve(s.home, s.open.value) in s.files
  {
  }

  lemma CutIsConfined(name: string, n: nat)
    requires '/' !in name && (name != "" ==> name[0] != '.') && n > |SHARED_DIR|
    ensures Confined(Take(SHARED_DIR + "/" + name, n))
  {
    var full := SHARED_DIR + "/" + name;
    var path := Take(full, n);
    assert full[|SHARED_DIR| + 1..] == name;
    assert path[|SHARED_DIR| + 1..] <= name;
  }

  lemma UpdateIsConfined(msg: string)
    requires Classify(msg).Update?
    ensures Confined(Classify(msg).path)
  {
    hide CleanName, RefersToParent, PassesThrough, Confined, Take;
    var rest := msg[3..][|UPDATE|..];
    CutIsConfined(CleanName(rest[IndexOf(rest, ' ') + 1..]), 1023);
  }

  lemma ReceiveKeepsInv(s: State, msg: string, md5: string -> string, luck: Luck)
    requires Inv(s)
    ensures Inv(Receive(s, msg, md5, luck))
  {
    hide Confined, Installed, Resolve, Nameable;
    if Classify(msg).Update? {
      UpdateIsConfined(msg);
    }
  }

  /** After every close message, from any state, no file is open and no name is pending. */
  lemma CloseSettles(s: State, msg: string, md5: string -> string, luck: Luck)
    requires Classify(msg).Close?
    ensures Receive(s, msg, md5, luck).open.None? && Receive(s, msg, md5, luck).pending == ""
  {
    hide Classify;
  }
}
