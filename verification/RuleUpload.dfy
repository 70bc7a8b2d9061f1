/** Uploading a rule file (framework/wazuh/rule.py): overwrite through a backup, validate,
    roll back. File operations are atomic; which of them fail is the environment's choice. */
module RuleUpload {

  type Files = map<string, string>

  const SUFFIX := ".backup"

  /** A step succeeds, fails with a WazuhError, which the call reports, or fails with any other
      exception, which escapes. */
  datatype Fault = NoFault | Reported | Unreported

  /** `checks`: directory and XML validation. `upload`: the write. `logtest`: the dummy log
      test, whose own verdict is reported but whose socket errors escape. `cleans`: removal of
      the backup. `restores`: the finally clause's move of the backup over the target. */
  datatype World = World(
    checks: bool, copies: bool, deletes: bool, upload: Fault, logtest: Fault, cleans: bool, restores: bool)

  /** Uploaded, failed with a reported error, or ended by an escaping exception. */
  datatype Result = Uploaded | Failed | Raised

  datatype Call = Call(path: string, content: string, overwrite: bool, world: World)

  predicate IsBackup(path: string) {
    |path| >= |SUFFIX| && path[|path| - |SUFFIX|..] == SUFFIX
  }

  predicate NoBackups(files: Files) {
    forall p :: p in files ==> !IsBackup(p)
  }

  function Removed(files: Files, path: string, works: bool): (r: Files) {
    if works then files - {path} else files
  }

  // ----- the effect of one call -----

  /** The finally clause; if its move fails, that exception is the outcome. */
  function Restored(files: Files, result: Result, path: string, backup: string, works: bool): (r: (Files, Result)) {
    if backup == "" || backup !in files then (files, result)
    else if works then (files[path := files[backup]] - {backup}, result)
    else (files, Raised)
  }

  /** From the write on; `backup` is the backup's name if one was made. */
  function WriteAndCheck(files: Files, call: Call, backup: string, escape: string -> string): (r: (Files, Result)) {
    var w := call.world;
    if w.upload == Reported then (files, Failed)
    else if w.upload == Unreported then (files, Raised)
    else
      var files1 := files[call.path := escape(call.content)];
      if w.logtest == Reported then (if !call.overwrite then Removed(files1, call.path, w.deletes) else files1, Failed)
      else if w.logtest == Unreported then (files1, Raised)
      else if backup != "" && backup in files1 then
        if w.cleans then (files1 - {backup}, Uploaded) else (files1, Raised)
      else (files1, Uploaded)
  }

  function Upload(files: Files, call: Call, escape: string -> string): (r: (Files, Result)) {
    var found := call.path in files;
    if !call.world.checks || call.content == "" then (files, Failed)
    else if found && !call.overwrite then (files, Failed)
    else if found then
      var backup := call.path + SUFFIX;
      if !call.world.copies then Restored(files, Failed, call.path, backup, call.world.restores)
      else
        var files1 := Removed(files[backup := files[call.path]], call.path, call.world.deletes);
        var (files2, result) := WriteAndCheck(files1, call, backup, escape);
        Restored(files2, result, call.path, backup, call.world.restores)
    else WriteAndCheck(files, call, "", escape)
  }

  class RuleStore {
    var files: Files
    const escape: string -> string

    constructor (files: Files, escape: string -> string)
      ensures this.files == files && this.escape == escape
    {
      this.files, this.escape := files, escape;
    }

    /** delete_rule_file: a missing file and a failed removal are both reported, not raised. */
    method DeleteFile(path: string, works: bool) returns (ok: bool)
      modifies this
      ensures files == Removed(old(files), path, works)
      ensures ok <==> path in old(files) && works
    {
      ok := false;
      if path in files && works {
        files := files - {path};
        ok := true;
      }
    }

    method UploadFile(call: Call) returns (result: Result)
      modifies this
      ensures (files, result) == Upload(old(files), call, escape)
    {
      var backup;
      result, backup := TryUpload(call);
      if backup != "" && backup in files {
        if call.world.restores {
          files := files[call.path := files[backup]] - {backup};
        } else {
          result := Raised;
        }
      }
    }

    /** The try block and its error handler; the backup's name is what the finally clause sees. */
    method TryUpload(call: Call) returns (result: Result, backup: string)
      modifies this
      ensures Restored(files, result, call.path, backup, call.world.restores) == Upload(old(files), call, escape)
    {
      var w := call.world;
      backup := "";
      if !w.checks || call.content == "" {
        return Failed, backup;
      }
      if !call.overwrite && call.path in files {
        return Failed, backup;
      } else if call.overwrite && call.path in files {
        backup := call.path + SUFFIX;
        if !w.copies {
          return Failed, backup;
        }
        files := files[backup := files[call.path]];
        var _ := DeleteFile(call.path, w.deletes);
      }
      if w.upload != NoFault {
        return if w.upload == Reported then Failed else Raised, backup;
      }
      files := files[call.path := escape(call.content)];
      if w.logtest == Reported {
        if !call.overwrite && call.path in files {
          var _ := DeleteFile(call.path, w.deletes);
        }
        return Failed, backup;
      } else if w.logtest == Unreported {
        return Raised, backup;
      }
      if backup != "" && backup in files {
        if !w.cleans {
          return Raised, backup;
        }
        files := files - {backup};
      }
      return Uploaded, backup;
    }
  }

  // ----- all or nothing -----

  /** The API only admits names ending in ".xml", so never a backup's name. */
  predicate Admissible(call: Call) {
    !IsBackup(call.path)
  }

  lemma BackupName(path: string)
    ensures IsBackup(path + SUFFIX) && path + SUFFIX != path
  {
  }

  /** No outcome touches a file other than the target and its backup; success installs the
      content and nothing else. */
  lemma UploadContract(files: Files, call: Call, escape: string -> string)
    requires NoBackups(files) && Admissible(call)
    ensures var (files', result) := Upload(files, call, escape);
            && files' - {call.path, call.path + SUFFIX} == files - {call.path, call.path + SUFFIX}
            && (result == Uploaded ==> files' == files[call.path := escape(call.content)])
  {
    BackupName(call.path);
  }

  /** The call gets as far as touching files. */
  predicate Admits(files: Files, call: Call) {
    call.world.checks && call.content != "" && (call.path !in files || call.overwrite)
  }

  /** Writing or testing the new file fails with an error that is reported. */
  predicate FailsReported(w: World) {
    w.upload == Reported || (w.upload == NoFault && w.logtest == Reported)
  }

  /** Exactly when an upload succeeds, fails with a reported error, or ends in an exception. */
  lemma ResultIff(files: Files, call: Call, escape: string -> string)
    requires NoBackups(files) && Admissible(call)
    ensures var result, w, found := Upload(files, call, escape).1, call.world, call.path in files;
            && (result == Uploaded <==>
                  && Admits(files, call) && w.upload == NoFault && w.logtest == NoFault
                  && (found ==> w.copies && w.cleans))
            && (result == Failed <==>
                  || !Admits(files, call) || (found && !w.copies)
                  || (FailsReported(w) && (found ==> w.restores)))
            && (result == Raised <==>
                  && Admits(files, call) && (found ==> w.copies)
                  && (|| w.upload == Unreported || (w.upload == NoFault && w.logtest == Unreported)
                      || (found && FailsReported(w) && !w.restores)
                      || (found && w.upload == NoFault && w.logtest == NoFault && !w.cleans)))
  {
    BackupName(call.path);
  }

  /** A backup stays behind exactly when one was made, the call did not succeed, and the move
      that should restore it failed. */
  lemma BackupLeftIff(files: Files, call: Call, escape: string -> string)
    requires NoBackups(files) && Admissible(call)
    ensures var (files', result) := Upload(files, call, escape);
            var w := call.world;
            !NoBackups(files') <==>
            (&& call.path in files && call.overwrite && call.content != "" && w.checks && w.copies
             && !w.restores && !(w.upload == NoFault && w.logtest == NoFault && w.cleans))
  {
    BackupName(call.path);
    var files' := Upload(files, call, escape).0;
    assert call.path + SUFFIX in files' || NoBackups(files');
  }

  /** A call that does not succeed leaves the files as they were. */
  predicate RollsBack(files: Files, call: Call, escape: string -> string) {
    Upload(files, call, escape).1 != Uploaded ==> Upload(files, call, escape).0 == files
  }

  /** What a caller may rely on: deletions work, a failing log test is always a reported error,
      the restoring move works. */
  datatype Trust = Trust(deletes: bool, reports: bool, restores: bool) {
    predicate Covers(w: World) {
      && (deletes ==> w.deletes)
      && (reports ==> w.logtest != Unreported)
      && (restores ==> w.restores)
    }
  }

  predicate Protected(files: Files, path: string, content: string, overwrite: bool, t: Trust) {
    || content == ""
    || (path in files && (!overwrite || t.restores))
    || (path !in files && !overwrite && t.deletes && t.reports)
  }

  /** When every fault is rolled back: if and only if the content is empty, or the target
      exists and is not to be overwritten or can be restored, or it does not exist, is not to
      be overwritten, deletions work and failing log tests are reported. */
  lemma RollsBackIff(
      files: Files, path: string, content: string, overwrite: bool, t: Trust, escape: string -> string)
    requires NoBackups(files) && !IsBackup(path)
    ensures (forall w: World :: t.Covers(w) ==> RollsBack(files, Call(path, content, overwrite, w), escape))
            <==> Protected(files, path, content, overwrite, t)
  {
    if Protected(files, path, content, overwrite, t) {
      forall w: World | t.Covers(w)
        ensures RollsBack(files, Call(path, content, overwrite, w), escape)
      {
        CallRollsBack(files, Call(path, content, overwrite, w), escape);
      }
    } else {
      var fault := if path !in files && !overwrite && t.deletes then Unreported else Reported;
      var w := World(true, true, t.deletes, NoFault, fault, true, t.restores);
      FaultIsKept(files, Call(path, content, overwrite, w), escape);
      assert t.Covers(w);
    }
  }

  lemma CallRollsBack(files: Files, call: Call, escape: string -> string)
    requires NoBackups(files) && Admissible(call)
    requires Protected(files, call.path, call.content, call.overwrite,
                       Trust(call.world.deletes, call.world.logtest != Unreported, call.world.restores))
    ensures RollsBack(files, call, escape)
  {
    BackupName(call.path);
  }

  lemma FaultIsKept(files: Files, call: Call, escape: string -> string)
    requires NoBackups(files) && Admissible(call) && call.content != ""
    requires call.world.checks && call.world.copies && call.world.upload == NoFault && call.world.logtest != NoFault
    requires if call.path in files then call.overwrite && !call.world.restores
             else call.overwrite || call.world.logtest == Unreported || !call.world.deletes
    ensures !RollsBack(files, call, escape)
  {
    BackupName(call.path);
    var files' := Upload(files, call, escape).0;
    assert if call.path in files then call.path + SUFFIX in files' else call.path in files';
  }

  /** The log-test socket is down while a new file is uploaded without overwriting: the new
      file stays and the exception escapes, though every file operation works. */
  lemma EscapingLogTestKeepsTheFile(escape: string -> string)
    ensures var call := Call("r.xml", "x", false, World(true, true, true, NoFault, Unreported, true, true));
            Upload(map[], call, escape) == (map["r.xml" := escape("x")], Raised)
  {
  }

  /** Overwriting a file that does not exist: the new file stays after a reported failure. */
  lemma OverwriteOfNothingKeepsTheFile(escape: string -> string)
    ensures var call := Call("r.xml", "x", true, World(true, true, true, NoFault, Reported, true, true));
            Upload(map[], call, escape) == (map["r.xml" := escape("x")], Failed)
  {
  }

  // ----- runs -----

  function Run(files: Files, calls: seq<Call>, escape: string -> string): (r: Files)
    decreases |calls|
  {
    if calls == [] then files else Run(Upload(files, calls[0], escape).0, calls[1..], escape)
  }

  /** Only the successful calls, each replacing its whole file. */
  function Committed(files: Files, calls: seq<Call>, escape: string -> string): (r: Files)
    decreases |calls|
  {
    if calls == [] then files
    else
      var (files', result) := Upload(files, calls[0], escape);
      Committed(if result == Uploaded then files[calls[0].path := escape(calls[0].content)] else files,
                calls[1..], escape)
  }

  /** Each call is one whose faults are rolled back, in its own world. */
  predicate Safe(files: Files, calls: seq<Call>, escape: string -> string)
    decreases |calls|
  {
    calls == [] ||
    (&& Admissible(calls[0])
     && Protected(files, calls[0].path, calls[0].content, calls[0].overwrite,
                  Trust(calls[0].world.deletes, calls[0].world.logtest != Unreported, calls[0].world.restores))
     && Safe(Upload(files, calls[0], escape).0, calls[1..], escape))
  }

  /** While restoring moves work, no run of uploads leaves a backup, whatever else fails. */
  lemma {:induction false} RunsLeaveNoBackup(files: Files, calls: seq<Call>, escape: string -> string)
    requires NoBackups(files)
    requires forall k :: 0 <= k < |calls| ==> Admissible(calls[k]) && calls[k].world.restores
    ensures NoBackups(Run(files, calls, escape))
    decreases |calls|
  {
    if calls != [] {
      BackupLeftIff(files, calls[0], escape);
      RunsLeaveNoBackup(Upload(files, calls[0], escape).0, calls[1..], escape);
    }
  }

  /** A run of uploads whose faults are rolled back is the run of its successful uploads. */
  lemma {:induction false} RunIsItsCommits(files: Files, calls: seq<Call>, escape: string -> string)
    requires NoBackups(files) && Safe(files, calls, escape)
    ensures Run(files, calls, escape) == Committed(files, calls, escape)
    decreases |calls|
  {
    if calls != [] {
      UploadContract(files, calls[0], escape);
      CallRollsBack(files, calls[0], escape);
      RunIsItsCommits(Upload(files, calls[0], escape).0, calls[1..], escape);
    }
  }
}
