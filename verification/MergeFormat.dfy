/** The merged archive of a WPK package: written by packages/wpk/wpkpack.py, taken apart by
    UnmergeFiles (src/shared/file_op.c). Text and contents are strings of bytes. */
module MergeFormat {
  import opened Paths
  import opened Text

  datatype Record = Record(name: string, content: string)

  /** A path as the packer sees it; `Other` is neither a file nor a directory. */
  datatype Tree = File(content: string) | Dir(entries: seq<Entry>) | Other

  datatype Entry = Entry(name: string, tree: Tree)

  // ----- writing -----

  function TagLine(tag: string): (s: string) {
    if tag == "" then "" else "#" + tag + "\n"
  }

  function Header(r: Record): (s: string) {
    "!" + Digits(|r.content|) + " " + r.name + "\n"
  }

  function EncodeOne(r: Record): (s: string) {
    Header(r) + r.content
  }

  function Encode(records: seq<Record>): (s: string) {
    if records == [] then "" else EncodeOne(records[0]) + Encode(records[1..])
  }

  /** The files below a path, depth first, each under its full path. */
  function Leaves(path: string, tree: Tree): (r: seq<Record>)
    decreases tree, 0
  {
    match tree
    case File(content) => [Record(path, content)]
    case Dir(entries) => AllLeaves(path, entries)
    case Other => []
  }

  function AllLeaves(path: string, entries: seq<Entry>): (r: seq<Record>)
    decreases entries, 1
  {
    if entries == [] then []
    else Leaves(path + "/" + entries[0].name, entries[0].tree) + AllLeaves(path, entries[1..])
  }

  predicate Plain(tree: Tree)
    decreases tree
  {
    match tree
    case File(_) => true
    case Dir(entries) => forall k :: 0 <= k < |entries| ==> Plain(entries[k].tree)
    case Other => false
  }

  lemma {:induction false} EncodeConcat(a: seq<Record>, b: seq<Record>)
    ensures Encode(a + b) == Encode(a) + Encode(b)
  {
    hide EncodeOne;
    if a == [] {
      assert a + b == b;
    } else {
      EncodeConcat(a[1..], b);
      assert (a + b)[1..] == a[1..] + b;
      Assoc(EncodeOne(a[0]), Encode(a[1..]), Encode(b));
    }
  }

  lemma EncodeNothing(data: string)
    ensures data + Encode([]) == data
  {
  }

  lemma Assoc(a: string, b: string, c: string)
    ensures (a + b) + c == a + (b + c)
  {
  }

  lemma {:induction false} AllLeavesSnoc(path: string, entries: seq<Entry>, k: nat)
    requires k < |entries|
    ensures AllLeaves(path, entries[..k + 1]) ==
            AllLeaves(path, entries[..k]) + Leaves(path + "/" + entries[k].name, entries[k].tree)
    decreases k
  {
    var first := Leaves(path + "/" + entries[0].name, entries[0].tree);
    if k == 0 {
      assert entries[..1][1..] == [];
      assert AllLeaves(path, entries[..1]) == first + AllLeaves(path, []);
    } else {
      AllLeavesSnoc(path, entries[1..], k - 1);
      assert entries[..k + 1][1..] == entries[1..][..k] && entries[..k][1..] == entries[1..][..k - 1];
      assert entries[1..][..k - 1 + 1] == entries[1..][..k];
    }
  }

  /** Following the names through the directories of a tree leads to a subtree. */
  ghost predicate Leads(tree: Tree, names: seq<string>, end: Tree)
    decreases |names|
  {
    if names == [] then tree == end
    else tree.Dir? && exists k :: 0 <= k < |tree.entries| && LeadsThrough(tree.entries[k], names, end)
  }

  ghost predicate LeadsThrough(entry: Entry, names: seq<string>, end: Tree)
    requires names != []
    decreases |names|, 0
  {
    entry.name == names[0] && Leads(entry.tree, names[1..], end)
  }

  /** The path of the place that names lead to. */
  function Joined(path: string, names: seq<string>): (r: string)
    decreases |names|
  {
    if names == [] then path else Joined(path + "/" + names[0], names[1..])
  }

  ghost predicate ReachedAs(path: string, tree: Tree, r: Record) {
    exists names :: r.name == Joined(path, names) && Leads(tree, names, File(r.content))
  }

  lemma {:induction false} AllLeavesIff(path: string, entries: seq<Entry>, r: Record)
    ensures r in AllLeaves(path, entries) <==>
            exists k :: 0 <= k < |entries| && r in Leaves(path + "/" + entries[k].name, entries[k].tree)
    decreases |entries|
  {
    hide Leaves;
    if entries != [] {
      AllLeavesIff(path, entries[1..], r);
      if r in AllLeaves(path, entries[1..]) {
        var k :| 0 <= k < |entries[1..]| && r in Leaves(path + "/" + entries[1..][k].name, entries[1..][k].tree);
        assert r in Leaves(path + "/" + entries[k + 1].name, entries[k + 1].tree);
      }
      if exists k :: 0 < k < |entries| && r in Leaves(path + "/" + entries[k].name, entries[k].tree) {
        var k :| 0 < k < |entries| && r in Leaves(path + "/" + entries[k].name, entries[k].tree);
        assert entries[1..][k - 1] == entries[k];
      }
    }
  }

  lemma ReachedThroughEntry(path: string, entries: seq<Entry>, k: nat, r: Record)
    requires k < |entries| && ReachedAs(path + "/" + entries[k].name, entries[k].tree, r)
    ensures ReachedAs(path, Dir(entries), r)
  {
    var names :| r.name == Joined(path + "/" + entries[k].name, names) &&
                 Leads(entries[k].tree, names, File(r.content));
    var longer := [entries[k].name] + names;
    assert longer[1..] == names;
    assert LeadsThrough(Dir(entries).entries[k], longer, File(r.content));
    assert Joined(path, longer) == r.name && Leads(Dir(entries), longer, File(r.content));
  }

  lemma EntryReaches(path: string, entries: seq<Entry>, r: Record) returns (k: nat)
    requires ReachedAs(path, Dir(entries), r)
    ensures k < |entries| && ReachedAs(path + "/" + entries[k].name, entries[k].tree, r)
  {
    var names :| r.name == Joined(path, names) && Leads(Dir(entries), names, File(r.content));
    assert names != [];
    k :| 0 <= k < |entries| && LeadsThrough(entries[k], names, File(r.content));
    assert Leads(entries[k].tree, names[1..], File(r.content));
    assert r.name == Joined(path + "/" + entries[k].name, names[1..]);
  }

  /** The records of a tree are exactly its files: a name and a content are packed if and only if
      following the components of the name below the path leads to a file with that content. */
  lemma {:induction false} LeavesIff(path: string, tree: Tree, r: Record)
    ensures r in Leaves(path, tree) <==> ReachedAs(path, tree, r)
    decreases tree
  {
    match tree
    case File(content) =>
      if r == Record(path, content) {
        assert Joined(path, []) == r.name && Leads(tree, [], File(r.content));
      }
    case Dir(entries) =>
      AllLeavesIff(path, entries, r);
      if r in AllLeaves(path, entries) {
        var k :| 0 <= k < |entries| && r in Leaves(path + "/" + entries[k].name, entries[k].tree);
        LeavesIff(path + "/" + entries[k].name, entries[k].tree, r);
        ReachedThroughEntry(path, entries, k, r);
      }
      if ReachedAs(path, tree, r) {
        var k := EntryReaches(path, entries, r);
        LeavesIff(path + "/" + entries[k].name, entries[k].tree, r);
      }
    case Other =>
  }

  /** Packing raises exactly when some path of the tree is neither a file nor a directory. */
  lemma {:induction false} PlainIff(tree: Tree)
    ensures Plain(tree) <==> forall names :: !Leads(tree, names, Other)
    decreases tree
  {
    match tree
    case File(_) =>
    case Other => assert Leads(tree, [], Other);
    case Dir(entries) =>
      forall k | 0 <= k < |entries|
        ensures Plain(entries[k].tree) <==> forall names :: !Leads(entries[k].tree, names, Other)
      {
        PlainIff(entries[k].tree);
      }
      if Plain(tree) {
        forall names
          ensures !Leads(tree, names, Other)
        {
          assert forall k :: 0 <= k < |entries| && names != [] ==> !LeadsThrough(entries[k], names, Other);
        }
      } else {
        var k :| 0 <= k < |entries| && !Plain(entries[k].tree);
        var names :| Leads(entries[k].tree, names, Other);
        var longer := [entries[k].name] + names;
        assert longer[1..] == names;
        assert LeadsThrough(tree.entries[k], longer, Other);
        assert Leads(tree, longer, Other);
      }
  }

  /** Directories are packed in listing order. */
  lemma {:induction false} AllLeavesConcat(path: string, a: seq<Entry>, b: seq<Entry>)
    ensures AllLeaves(path, a + b) == AllLeaves(path, a) + AllLeaves(path, b)
    decreases |a|
  {
    hide Leaves;
    if a == [] {
      assert a + b == b;
    } else {
      assert (a + b)[0] == a[0] && (a + b)[1..] == a[1..] + b;
      AllLeavesConcat(path, a[1..], b);
    }
  }

  class Archive {
    var data: string

    /** mergecreate: an empty tag writes nothing. */
    constructor (tag: string)
      ensures data == TagLine(tag)
    {
      data := "";
      if tag != "" {
        data := "#" + tag + "\n";
      }
    }

    method AppendFile(path: string, content: string)
      modifies this
      ensures data == old(data) + Encode([Record(path, content)])
    {
      data := data + ("!" + Digits(|content|) + " " + path + "\n");
      data := data + content;
      var r := Record(path, content);
      assert Encode([r]) == EncodeOne(r) + Encode([]);
      Assoc(old(data), Header(r), content);
    }

    /** _mergeappend: one record per file, directories in listing order; anything else raises. */
    method AppendTree(path: string, tree: Tree) returns (ok: bool)
      modifies this
      ensures ok <==> Plain(tree)
      ensures ok ==> data == old(data) + Encode(Leaves(path, tree))
      decreases tree
    {
      hide Encode;
      match tree {
        case File(content) =>
          AppendFile(path, content);
          ok := true;
        case Dir(entries) =>
          EncodeNothing(old(data));
          for k := 0 to |entries|
            invariant forall m :: 0 <= m < k ==> Plain(entries[m].tree)
            invariant data == old(data) + Encode(AllLeaves(path, entries[..k]))
          {
            ok := AppendTree(path + "/" + entries[k].name, entries[k].tree);
            if !ok {
              return;
            }
            AllLeavesSnoc(path, entries, k);
            EncodeConcat(AllLeaves(path, entries[..k]), Leaves(path + "/" + entries[k].name, entries[k].tree));
          }
          assert entries[..|entries|] == entries;
          ok := true;
        case Other =>
          ok := false;
      }
    }

    method AppendAll(sources: seq<Entry>) returns (ok: bool)
      modifies this
      ensures ok <==> forall k :: 0 <= k < |sources| ==> Plain(sources[k].tree)
      ensures ok ==> data == old(data) + Encode(Records(sources))
    {
      hide Encode;
      EncodeNothing(old(data));
      for k := 0 to |sources|
        invariant forall m :: 0 <= m < k ==> Plain(sources[m].tree)
        invariant data == old(data) + Encode(Records(sources[..k]))
      {
        ok := AppendTree(sources[k].name, sources[k].tree);
        if !ok {
          return;
        }
        assert sources[..k + 1][..k] == sources[..k];
        EncodeConcat(Records(sources[..k]), Leaves(sources[k].name, sources[k].tree));
      }
      assert sources[..|sources|] == sources;
      ok := true;
    }
  }

  /** The records of a list of named sources. */
  function Records(sources: seq<Entry>): (r: seq<Record>) {
    if sources == [] then []
    else
      var last := sources[|sources| - 1];
      Records(sources[..|sources| - 1]) + Leaves(last.name, last.tree)
  }

  // ----- reading -----

  /** fgets is given 2048 bytes, snprintf 2048 as well. */
  const LINE := 2047

  /** fgets: through the first newline, at most LINE characters. */
  function LineLength(data: string): (n: nat)
    requires data != ""
    ensures 1 <= n <= |data| && n <= LINE
  {
    var k := IndexOf(data, '\n') + 1;
    var whole := if k <= |data| then k else |data|;
    if whole <= LINE then whole else LINE
  }

  /** The text of a line: a C string, up to its newline. */
  function TextOf(line: string): (text: string) {
    var c := line[..IndexOf(line, '\0')];
    c[..IndexOf(c, '\n')]
  }

  /** What the reader finds at the front: a line to skip, a '!' line without a name, or a record. */
  datatype Piece = Skipped(used: nat) | Broken(used: nat) | Found(record: Record, used: nat)

  /** How much to read for an announced size: never past the end, and all of it for a negative
      one, which is a huge unsigned count. */
  function ContentLength(size: int, available: nat): (m: nat)
    ensures m <= available
  {
    if 0 <= size <= available then size else available
  }

  function FirstPiece(data: string): (p: Piece)
    requires data != ""
    ensures 1 <= p.used <= |data|
  {
    var n := LineLength(data);
    var line := data[..n];
    if line[0] != '!' then Skipped(n)
    else
      var text := TextOf(line);
      var k := IndexOf(text, ' ');
      if k == |text| then Broken(n)
      else
        var m := ContentLength(ReadNumber(line[1..]).0, |data| - n);
        Found(Record(text[k + 1..], data[n..n + m]), n + m)
  }

  /** All records in reading order, and whether every '!' line had a name. */
  function Unmerge(data: string): (r: (seq<Record>, bool))
    decreases |data|
  {
    if data == "" then ([], true)
    else
      var p := FirstPiece(data);
      var (records, whole) := Unmerge(data[p.used..]);
      match p
      case Skipped(_) => (records, whole)
      case Broken(_) => (records, false)
      case Found(r, _) => ([r] + records, whole)
  }

  // ----- unpacking into a directory -----

  function Target(dir: string, name: string): (path: string) {
    Take(dir + "/" + name, LINE)
  }

  /** A record whose path has a ".." component is refused: its file is created all the same,
      but stays empty. */
  function Write(dir: string, r: Record): (w: Record) {
    var path := Target(dir, r.name);
    Record(path, if RefersToParent(path) then "" else r.content)
  }

  function Writes(dir: string, records: seq<Record>): (w: seq<Record>)
    ensures |w| == |records|
  {
    seq(|records|, k requires 0 <= k < |records| => Write(dir, records[k]))
  }

  predicate NoParents(writes: seq<Record>) {
    forall k :: 0 <= k < |writes| ==> !RefersToParent(writes[k].name)
  }

  /** How many records come before one whose path is spelled as a directory: its rename fails. */
  function Fitting(dir: string, records: seq<Record>): (n: nat)
    ensures n <= |records| && forall k :: 0 <= k < n ==> Nameable(Target(dir, records[k].name))
    ensures n < |records| ==> !Nameable(Target(dir, records[n].name))
  {
    if records == [] || !Nameable(Target(dir, records[0].name)) then 0 else 1 + Fitting(dir, records[1..])
  }

  datatype Unpacked = Unpacked(writes: seq<Record>, ok: bool)

  /** The files put in place and the returned success. A rename that fails ends the unpacking:
      one to a directory, or the one after `placed` others. */
  function UnmergeInto(data: string, dir: string, placed: nat): (u: Unpacked) {
    var (records, whole) := Unmerge(data);
    var writes := Writes(dir, records);
    var n := if placed < Fitting(dir, records) then placed else Fitting(dir, records);
    if n < |records| then Unpacked(writes[..n], false) else Unpacked(writes, whole && NoParents(writes))
  }

  /** The fread loop, in blocks of 2048 bytes. */
  method ReadContent(data: string, start: nat, size: int) returns (content: string)
    requires start <= |data|
    ensures content == data[start..start + ContentLength(size, |data| - start)]
  {
    var wanted := if size < 0 then |data| + 1 else size;
    var pos, filesSize := start, wanted;
    var i := if filesSize < 2048 then filesSize else 2048;
    filesSize := filesSize - i;
    content := "";
    while i > 0 && pos < |data|
      invariant start <= pos <= |data| && content == data[start..pos]
      invariant 0 <= i <= 2048 && 0 <= filesSize && (i == 0 ==> filesSize == 0)
      invariant pos < |data| ==> (pos - start) + i + filesSize == wanted
      invariant pos == |data| ==> pos - start <= wanted
      decreases |data| - pos
    {
      var n := if i <= |data| - pos then i else |data| - pos;
      content := content + data[pos..pos + n];
      pos := pos + n;
      i := if filesSize < 2048 then filesSize else 2048;
      filesSize := filesSize - i;
    }
  }

  /** One round of the reading loop. */
  method ReadPiece(data: string, pos: nat) returns (p: Piece)
    requires pos < |data|
    ensures p == FirstPiece(data[pos..])
  {
    hide LineLength, ReadNumber, IndexOf, TextOf;
    var n := LineLength(data[pos..]);
    var buf := data[pos..pos + n];
    assert data[pos..][..n] == buf;
    if buf[0] != '!' {
      return Skipped(n);
    }
    var size := ReadNumber(buf[1..]).0;
    var text := TextOf(buf);
    var k := IndexOf(text, ' ');
    if k == |text| {
      return Broken(n);
    }
    var content := ReadContent(data, pos + n, size);
    assert data[pos..][n..n + |content|] == content;
    return Found(Record(text[k + 1..], content), n + |content|);
  }

  /** The loop of UnmergeFiles with a target directory. */
  method UnmergeFiles(data: string, dir: string, placed: nat) returns (u: Unpacked)
    ensures u == UnmergeInto(data, dir, placed)
  {
    hide FirstPiece, Write, Fitting, Nameable, UnmergeInto, Target;
    var pos, writes, ok := 0, [], true;
    ghost var records, whole := [], true;
    assert ReadSoFar(data, 0, [], true) by {
      assert data[0..] == data;
      assert [] + Unmerge(data).0 == Unmerge(data).0;
    }
    while pos < |data|
      invariant pos <= |data| && |records| <= placed
      invariant ReadSoFar(data, pos, records, whole)
      invariant forall k :: 0 <= k < |records| ==> Nameable(Target(dir, records[k].name))
      invariant writes == Writes(dir, records) && (ok <==> whole && NoParents(writes))
      decreases |data| - pos
    {
      var p := ReadPiece(data, pos);
      ReadOn(data, pos, records, whole);
      match p {
        case Skipped(_) =>
        case Broken(_) =>
          ok, whole := false, false;
        case Found(r, _) =>
          if |writes| == placed || !Nameable(Target(dir, r.name)) {
            Interrupted(data, pos + p.used, dir, records, r, whole, placed);
            return Unpacked(writes, false);
          }
          WritesSnoc(dir, records, r);
          NoParentsSnoc(writes, Write(dir, r));
          records := records + [r];
          var w := Write(dir, r);
          writes := writes + [w];
          ok := ok && !RefersToParent(w.name);
      }
      pos := pos + p.used;
    }
    Completed(data, dir, records, whole, placed);
    return Unpacked(writes, ok);
  }

  ghost predicate ReadSoFar(data: string, pos: nat, records: seq<Record>, whole: bool)
    requires pos <= |data|
  {
    var (rest, restWhole) := Unmerge(data[pos..]);
    Unmerge(data) == (records + rest, whole && restWhole)
  }

  lemma ReadOn(data: string, pos: nat, records: seq<Record>, whole: bool)
    requires pos < |data| && ReadSoFar(data, pos, records, whole)
    ensures var p := FirstPiece(data[pos..]);
            match p
            case Skipped(n) => ReadSoFar(data, pos + n, records, whole)
            case Broken(n) => ReadSoFar(data, pos + n, records, false)
            case Found(r, n) => ReadSoFar(data, pos + n, records + [r], whole)
  {
    hide FirstPiece;
    var p := FirstPiece(data[pos..]);
    assert data[pos..][p.used..] == data[pos + p.used..];
    if p.Found? {
      var rest := Unmerge(data[pos + p.used..]).0;
      assert records + ([p.record] + rest) == records + [p.record] + rest;
    }
  }

  lemma WritesSnoc(dir: string, records: seq<Record>, r: Record)
    ensures Writes(dir, records + [r]) == Writes(dir, records) + [Write(dir, r)]
  {
  }

  lemma NoParentsSnoc(writes: seq<Record>, w: Record)
    ensures NoParents(writes + [w]) <==> NoParents(writes) && !RefersToParent(w.name)
  {
    assert (writes + [w])[|writes|] == w;
    assert forall k :: 0 <= k < |writes| ==> (writes + [w])[k] == writes[k];
  }

  /** The rename of `r`, after those of `records`, fails. */
  lemma Interrupted(
      data: string, pos: nat, dir: string, records: seq<Record>, r: Record, whole: bool, placed: nat)
    requires pos <= |data| && ReadSoFar(data, pos, records + [r], whole) && |records| <= placed
    requires forall k :: 0 <= k < |records| ==> Nameable(Target(dir, records[k].name))
    requires |records| == placed || !Nameable(Target(dir, r.name))
    ensures UnmergeInto(data, dir, placed) == Unpacked(Writes(dir, records), false)
  {
    hide Nameable, Target, Write;
    var all := Unmerge(data).0;
    var n := |records|;
    assert all[..n] == records && all[n] == r;
    assert Fitting(dir, all) >= n;
    assert Writes(dir, all)[..n] == Writes(dir, all[..n]);
  }

  lemma Completed(data: string, dir: string, records: seq<Record>, whole: bool, placed: nat)
    requires ReadSoFar(data, |data|, records, whole) && |records| <= placed
    requires forall k :: 0 <= k < |records| ==> Nameable(Target(dir, records[k].name))
    ensures UnmergeInto(data, dir, placed) ==
            Unpacked(Writes(dir, records), whole && NoParents(Writes(dir, records)))
  {
    hide Nameable, Target, Write;
    assert data[|data|..] == "" && records + [] == records;
  }

  // ----- what is read for one packed record -----

  /** No newline and no terminator. */
  predicate SingleLine(s: string) {
    '\n' !in s && '\0' !in s
  }

  predicate AllNewlines(s: string) {
    forall k :: 0 <= k < |s| ==> s[k] == '\n'
  }

  /** The part of a header before the name. */
  function SizeText(r: Record): (s: string) {
    "!" + Digits(|r.content|) + " "
  }

  /** A header line without its newline. */
  function HeaderText(r: Record): (s: string) {
    SizeText(r) + r.name
  }

  /** A size that can be written on a line: every size of fewer than 2046 digits. */
  predicate Sized(r: Record) {
    |SizeText(r)| <= LINE
  }

  lemma SizeTextIs(r: Record)
    ensures SingleLine(SizeText(r)) && SizeText(r)[0] == '!' && Header(r) == HeaderText(r) + "\n"
    ensures var n := |SizeText(r)| - 1; ' ' !in SizeText(r)[..n] && SizeText(r)[n] == ' '
  {
    var d := Digits(|r.content|);
    assert forall k :: 0 <= k < |d| ==> IsDigit(d[k]);
    assert SizeText(r)[..|SizeText(r)| - 1] == "!" + d;
  }

  lemma TextIs(line: string, n: nat)
    requires n <= |line| && SingleLine(line[..n]) && (n < |line| ==> line[n] == '\n' || line[n] == '\0')
    ensures TextOf(line) == line[..n]
  {
    hide IndexOf;
    var c := line[..IndexOf(line, '\0')];
    assert n <= |c|;
    assert c[..n] == line[..n];
    IndexIs(c, '\n', n);
  }

  /** Where the text of a line of the archive ends: at a break, or where the buffer is full. */
  lemma LineText(data: string, n: nat)
    requires 1 <= n < |data| && SingleLine(data[..n])
    requires n == LINE || (n < LINE && (data[n] == '\n' || data[n] == '\0'))
    ensures n <= LineLength(data) && TextOf(data[..LineLength(data)]) == data[..n]
  {
    hide TextOf;
    var m := LineLength(data);
    assert n <= IndexOf(data, '\n');
    assert data[..m][..n] == data[..n];
    TextIs(data[..m], n);
  }

  /** The name of the first record: the packed name up to a break or to the end of the buffer. */
  function NameRead(r: Record): (name: string)
    requires Sized(r)
  {
    var cut := TextOf(r.name);
    if |SizeText(r)| + |cut| <= LINE then cut else cut[..LINE - |SizeText(r)|]
  }

  lemma TextOfIs(s: string)
    ensures TextOf(s) <= s && SingleLine(TextOf(s))
    ensures |TextOf(s)| < |s| ==> s[|TextOf(s)|] == '\n' || s[|TextOf(s)|] == '\0'
    ensures TextOf(s) == s <==> SingleLine(s)
  {
    hide IndexOf;
    var c := s[..IndexOf(s, '\0')];
    var k := IndexOf(c, '\n');
    assert c[..k] == s[..k];
    if SingleLine(s) {
      assert s[..|s|] == s;
      TextIs(s, |s|);
    }
  }

  lemma FirstText(r: Record, tail: string)
    requires Sized(r)
    ensures var data := EncodeOne(r) + tail;
            TextOf(data[..LineLength(data)]) == SizeText(r) + NameRead(r)
  {
    hide TextOf, LineLength, Digits;
    var data, h := EncodeOne(r) + tail, SizeText(r);
    SizeTextIs(r);
    TextOfIs(r.name);
    var cut, name := TextOf(r.name), NameRead(r);
    var n := |h| + |name|;
    assert data == h + (r.name + ("\n" + r.content + tail));
    assert name <= r.name && SingleLine(name);
    assert data[..n] == h + name;
    if |h| + |cut| < LINE {
      assert data[n] == (r.name + "\n")[|cut|];
    }
    LineText(data, n);
  }

  lemma FindsName(r: Record, tail: string)
    requires Sized(r)
    ensures var p := FirstPiece(EncodeOne(r) + tail); p.Found? && p.record.name == NameRead(r)
  {
    hide TextOf, LineLength, Digits, ReadNumber, NameRead;
    var data, h := EncodeOne(r) + tail, SizeText(r);
    SizeTextIs(r);
    FirstText(r, tail);
    var text := h + NameRead(r);
    assert data[..LineLength(data)][0] == data[0] == h[0] == '!';
    assert text[..|h| - 1] == h[..|h| - 1] && text[|h| - 1] == h[|h| - 1];
    IndexIs(text, ' ', |h| - 1);
    assert text[|h|..] == NameRead(r);
  }

  lemma ReadsSize(r: Record, rest: string)
    requires rest == "" || !IsDigit(rest[0])
    ensures ReadNumber(Digits(|r.content|) + rest).0 == |r.content|
  {
    ReadDigits(Digits(|r.content|), rest);
    ValueOfDigits(|r.content|);
  }

  lemma AfterBang(r: Record, end: string)
    ensures (HeaderText(r) + end)[1..] == Digits(|r.content|) + (" " + r.name + end)
  {
    hide Digits;
  }

  lemma LineOf(data: string, h: string)
    requires |data| > |h| && data[..|h|] == h && data[|h|] == '\n' && |h| <= LINE && IndexOf(data, '\n') == |h|
    ensures data[..LineLength(data)] == h + (if |h| < LINE then "\n" else "")
  {
    hide IndexOf;
  }

  lemma FindsSize(r: Record, data: string)
    requires |data| > |HeaderText(r)| && data[..|HeaderText(r)|] == HeaderText(r) && data[|HeaderText(r)|] == '\n'
    requires |HeaderText(r)| <= LINE && IndexOf(data, '\n') == |HeaderText(r)|
    ensures ReadNumber(data[..LineLength(data)][1..]).0 == |r.content|
  {
    hide ReadNumber, Digits, IndexOf, HeaderText, LineLength;
    var h := HeaderText(r);
    var end := if |h| < LINE then "\n" else "";
    LineOf(data, h);
    AfterBang(r, end);
    assert (" " + r.name + end)[0] == ' ';
    ReadsSize(r, " " + r.name + end);
  }

  /** The first record, when its name is read whole. */
  lemma FindsRecord(r: Record, tail: string)
    requires SingleLine(r.name) && |Header(r)| <= LINE + 1
    ensures var n := if |Header(r)| <= LINE then |Header(r)| else LINE;
            var data := EncodeOne(r) + tail;
            && n + |r.content| <= |data|
            && FirstPiece(data) == Found(Record(r.name, data[n..n + |r.content|]), n + |r.content|)
  {
    hide TextOf, Digits, ReadNumber, IndexOf;
    SizeTextIs(r);
    TextOfIs(r.name);
    FindsName(r, tail);
    var data := EncodeOne(r) + tail;
    var h := HeaderText(r);
    assert data == h + (['\n'] + (r.content + tail));
    assert data[..|h|] == h && data[|h|] == '\n';
    assert '\n' !in h;
    IndexIs(data, '\n', |h|);
    FindsSize(r, data);
  }

  lemma FindsWhole(r: Record, tail: string)
    requires SingleLine(r.name) && |Header(r)| <= LINE
    ensures Unmerge(EncodeOne(r) + tail) == ([r] + Unmerge(tail).0, Unmerge(tail).1)
  {
    hide FirstPiece, Header;
    FindsRecord(r, tail);
    var data := EncodeOne(r) + tail;
    assert data[|Header(r)|..|Header(r)| + |r.content|] == r.content;
    assert data[|EncodeOne(r)|..] == tail;
  }

  /** Of a header one character too long the newline is left over, and read as content. */
  lemma FindsShifted(r: Record, tail: string)
    requires SingleLine(r.name) && |Header(r)| == LINE + 1
    ensures var shifted, data := ("\n" + r.content)[..|r.content|], EncodeOne(r) + tail;
            && FirstPiece(data) == Found(Record(r.name, shifted), LINE + |r.content|)
            && (AllNewlines(r.content) ==> data[LINE + |r.content|..] == "\n" + tail)
  {
    hide FirstPiece;
    FindsRecord(r, tail);
    SizeTextIs(r);
    var data := EncodeOne(r) + tail;
    var rest := ("\n" + r.content) + tail;
    assert data == HeaderText(r) + rest;
    assert data[LINE..] == rest;
    assert data[LINE..LINE + |r.content|] == rest[..|r.content|] == ("\n" + r.content)[..|r.content|];
    assert data[LINE + |r.content|..] == rest[|r.content|..];
    assert ("\n" + r.content)[|r.content|..] == [("\n" + r.content)[|r.content|]];
    assert rest[|r.content|..] == ("\n" + r.content)[|r.content|..] + tail;
  }

  lemma {:induction false} ShiftedFrom(content: string, k: nat)
    requires k < |content| && ("\n" + content)[..|content|] == content
    ensures content[k] == '\n'
  {
    assert content[k] == ("\n" + content)[..|content|][k] == ("\n" + content)[k];
    if k > 0 {
      ShiftedFrom(content, k - 1);
    }
  }

  lemma ShiftedIff(content: string)
    ensures ("\n" + content)[..|content|] == content <==> AllNewlines(content)
  {
    if ("\n" + content)[..|content|] == content {
      forall k | 0 <= k < |content|
        ensures content[k] == '\n'
      {
        ShiftedFrom(content, k);
      }
    }
  }

  lemma SkipsNewline(tail: string)
    ensures Unmerge("\n" + tail) == Unmerge(tail)
  {
    var data := "\n" + tail;
    assert data[0] == '\n';
    assert data[..0] == "";
    IndexIs(data, '\n', 0);
    assert data[1..] == tail;
  }

  // ----- headers the packer does not write -----

  /** A '!' line without a space names nothing: it is passed over, and failure is reported. */
  lemma BrokenLineFails(text: string, rest: string)
    requires SingleLine(text) && ' ' !in text && |text| + 2 <= LINE
    ensures Unmerge("!" + text + "\n" + rest) == (Unmerge(rest).0, false)
  {
    hide TextOf, IndexOf;
    var line := "!" + text;
    var data := line + "\n" + rest;
    assert data[..|line|] == line && data[|line|] == '\n' && data[0] == '!';
    LineText(data, |line|);
    IndexIs(line, ' ', |line|);
    IndexIs(data, '\n', |line|);
    assert data[|line| + 1..] == rest;
  }

  lemma AnyHeader(number: string, name: string, rest: string)
    requires SingleLine(number) && ' ' !in number && SingleLine(name) && |number| + |name| + 3 <= LINE
    ensures var header := "!" + (number + (" " + name + "\n"));
            var m := ContentLength(ReadNumber(header[1..]).0, |rest|);
            FirstPiece(header + rest) == Found(Record(name, rest[..m]), |header| + m)
  {
    hide TextOf, IndexOf, ReadNumber, ContentLength;
    var header := "!" + (number + (" " + name + "\n"));
    var line := "!" + number + " " + name;
    var data := header + rest;
    assert header == line + "\n" && SingleLine(line);
    assert data[..|line|] == line && data[|line|] == '\n' && data[0] == '!';
    LineText(data, |line|);
    IndexIs(data, '\n', |line|);
    assert LineLength(data) == |header| && data[..|header|] == header;
    assert line[..|number| + 1] == "!" + number && line[|number| + 1] == ' ';
    IndexIs(line, ' ', |number| + 1);
    assert line[|number| + 2..] == name;
    assert data[|header|..] == rest;
  }

  /** Whatever size a header announces: as much is read, at most all that is left; a negative
      size takes all. */
  lemma AnnouncedSize(sign: string, digits: string, name: string, rest: string)
    requires IsSign(sign) && AllDigits(digits) && digits != "" && SingleLine(name)
    requires |sign| + |digits| + |name| + 3 <= LINE
    ensures var content := if Negative(sign) && Value(digits) > 0 then rest else Take(rest, Value(digits));
            var header := "!" + ((sign + digits) + (" " + name + "\n"));
            FirstPiece(header + rest) == Found(Record(name, content), |header| + |content|)
  {
    hide ReadNumber, Value, FirstPiece;
    var number, end := sign + digits, " " + name + "\n";
    assert forall k :: 0 <= k < |digits| ==> IsDigit(digits[k]);
    AnyHeader(number, name, rest);
    assert ("!" + (number + end))[1..] == "" + (sign + (digits + end));
    ReadSigned("", sign, digits, end);
  }

  /** The record is read as it was packed: its header fits the line buffer, or is one character
      too long and the content cannot tell. */
  predicate Readable(r: Record) {
    && SingleLine(r.name)
    && (|Header(r)| <= LINE || (|Header(r)| == LINE + 1 && AllNewlines(r.content)))
  }

  lemma UnmergeOne(r: Record, tail: string)
    requires Readable(r)
    ensures Unmerge(EncodeOne(r) + tail) == ([r] + Unmerge(tail).0, Unmerge(tail).1)
  {
    hide FirstPiece, Header, EncodeOne;
    if |Header(r)| <= LINE {
      FindsWhole(r, tail);
    } else {
      FindsShifted(r, tail);
      ShiftedIff(r.content);
      SkipsNewline(tail);
    }
  }

  lemma {:induction false} UnmergeRecords(records: seq<Record>)
    requires forall k :: 0 <= k < |records| ==> Readable(records[k])
    ensures Unmerge(Encode(records)) == (records, true)
  {
    hide FirstPiece, Readable;
    if records == [] {
    } else {
      UnmergeRecords(records[1..]);
      UnmergeOne(records[0], Encode(records[1..]));
      assert [records[0]] + records[1..] == records;
    }
  }

  /** A tag that is skipped however long it is: where the line buffer cuts it, no '!' follows. */
  predicate Skippable(tag: string) {
    '\n' !in tag && forall p :: 0 < p < |TagLine(tag)| && p % LINE == 0 ==> TagLine(tag)[p] != '!'
  }

  /** A line is skipped, piece by piece. */
  lemma {:induction false} SkipsLine(line: string, rest: string)
    requires '\n' !in line && forall p :: 0 <= p <= |line| && p % LINE == 0 ==> (line + "\n")[p] != '!'
    ensures Unmerge(line + "\n" + rest) == Unmerge(rest)
    decreases |line|
  {
    var data := line + "\n" + rest;
    assert data[..|line|] == line && data[|line|] == '\n';
    IndexIs(data, '\n', |line|);
    assert data[0] == (line + "\n")[0];
    if |line| < LINE {
      assert data[|line| + 1..] == rest;
    } else {
      var line' := line[LINE..];
      assert data[LINE..] == line' + "\n" + rest;
      forall p | 0 <= p <= |line'| && p % LINE == 0
        ensures (line' + "\n")[p] != '!'
      {
        assert (line' + "\n")[p] == (line + "\n")[p + LINE];
      }
      SkipsLine(line', rest);
    }
  }

  lemma UnmergeSkipsTag(tag: string, rest: string)
    requires Skippable(tag)
    ensures Unmerge(TagLine(tag) + rest) == Unmerge(rest)
  {
    hide Unmerge;
    if tag == "" {
      assert TagLine(tag) + rest == rest;
    } else {
      assert TagLine(tag) == ("#" + tag) + "\n";
      SkipsLine("#" + tag, rest);
    }
  }

  // ----- round trip -----

  /** What the packer means: each record's content under its name in the directory. */
  function Meant(dir: string, records: seq<Record>): (w: seq<Record>)
    ensures |w| == |records|
  {
    seq(|records|, k requires 0 <= k < |records| => Record(dir + "/" + records[k].name, records[k].content))
  }

  /** A readable record whose name is not spelled as a directory, whose path fits, and whose
      path has no ".." component unless the file is empty. */
  predicate Unpackable(dir: string, r: Record) {
    && Readable(r) && Nameable(dir + "/" + r.name)
    && |dir + "/" + r.name| <= LINE
    && (r.content == "" || !RefersToParent(dir + "/" + r.name))
  }

  /** The files put in place when no other rename fails. */
  function Placed(dir: string, records: seq<Record>): (w: seq<Record>) {
    Writes(dir, records)[..Fitting(dir, records)]
  }

  lemma PlacedCons(dir: string, r: Record, records: seq<Record>)
    ensures Placed(dir, [r] + records) ==
            if Nameable(Target(dir, r.name)) then [Write(dir, r)] + Placed(dir, records) else []
  {
    hide Nameable, Target, Write;
    var all := [r] + records;
    assert all[1..] == records;
    assert Writes(dir, all) == [Write(dir, r)] + Writes(dir, records);
  }

  lemma SameLists(a: Record, later: seq<Record>, b: Record, rest: seq<Record>)
    ensures [a] + later == [b] + rest <==> a == b && later == rest
  {
    assert ([a] + later)[0] == a && ([b] + rest)[0] == b;
    assert ([a] + later)[1..] == later && ([b] + rest)[1..] == rest;
  }

  lemma WriteIsMeantIff(dir: string, r: Record)
    requires Readable(r)
    ensures Nameable(Target(dir, r.name)) && Write(dir, r) == Record(dir + "/" + r.name, r.content) <==>
            Unpackable(dir, r)
  {
    hide Nameable, RefersToParent, Readable;
  }

  /** Of a record that is not readable, name or content come out differently. */
  lemma UnreadableIsWrong(dir: string, r: Record, tail: string)
    requires Sized(r) && !Readable(r)
    ensures var p := FirstPiece(EncodeOne(r) + tail);
            p.Found? && Write(dir, p.record) != Record(dir + "/" + r.name, r.content)
  {
    hide FirstPiece, RefersToParent, Digits, TextOf;
    FindsName(r, tail);
    TextOfIs(r.name);
    SizeTextIs(r);
    if SingleLine(r.name) && |Header(r)| == LINE + 1 {
      FindsShifted(r, tail);
      ShiftedIff(r.content);
    } else {
      assert |NameRead(r)| < |r.name|;
      assert |Target(dir, NameRead(r))| < |dir + "/" + r.name|;
    }
  }

  lemma FirstIsUndoneIff(dir: string, r: Record, tail: string, meant: seq<Record>)
    requires Sized(r)
    ensures Placed(dir, Unmerge(EncodeOne(r) + tail).0) == [Record(dir + "/" + r.name, r.content)] + meant <==>
            Unpackable(dir, r) && Placed(dir, Unmerge(tail).0) == meant
  {
    hide Write, Readable, EncodeOne, Placed, Nameable, Target, FirstPiece, Sized, RefersToParent;
    var m := Record(dir + "/" + r.name, r.content);
    if Readable(r) {
      hide Unmerge;
      UnmergeOne(r, tail);
      PlacedCons(dir, r, Unmerge(tail).0);
      WriteIsMeantIff(dir, r);
      SameLists(Write(dir, r), Placed(dir, Unmerge(tail).0), m, meant);
    } else {
      UnreadableIsWrong(dir, r, tail);
      var data := EncodeOne(r) + tail;
      var p := FirstPiece(data);
      var later := Unmerge(data[p.used..]).0;
      PlacedCons(dir, p.record, later);
      SameLists(Write(dir, p.record), Placed(dir, later), m, meant);
    }
  }

  lemma NothingPlaced(dir: string)
    ensures Placed(dir, []) == []
  {
  }

  lemma {:induction false} RecordsUndoneIff(dir: string, records: seq<Record>)
    requires forall k :: 0 <= k < |records| ==> Sized(records[k])
    ensures Placed(dir, Unmerge(Encode(records)).0) == Meant(dir, records) <==>
            forall k :: 0 <= k < |records| ==> Unpackable(dir, records[k])
  {
    hide FirstPiece, Write, Unpackable, EncodeOne, RefersToParent, Placed, Sized;
    if records == [] {
      NothingPlaced(dir);
    } else {
      var r, rest := records[0], records[1..];
      RecordsUndoneIff(dir, rest);
      assert Encode(records) == EncodeOne(r) + Encode(rest);
      assert Meant(dir, records) == [Record(dir + "/" + r.name, r.content)] + Meant(dir, rest);
      assert (forall k :: 0 <= k < |records| ==> Unpackable(dir, records[k])) <==>
             Unpackable(dir, r) && forall k :: 0 <= k < |rest| ==> Unpackable(dir, rest[k]);
      FirstIsUndoneIff(dir, r, Encode(rest), Meant(dir, rest));
    }
  }

  /** Round trip: unpacking a packed archive writes every file with its content under its
      name, for all contents and names, if and only if every record is unpackable. `placed`
      lets every rename succeed that can. */
  lemma UnmergeUndoesMergeIff(dir: string, tag: string, records: seq<Record>, placed: nat)
    requires Skippable(tag) && forall k :: 0 <= k < |records| ==> Sized(records[k])
    requires placed >= |Unmerge(TagLine(tag) + Encode(records)).0|
    ensures UnmergeInto(TagLine(tag) + Encode(records), dir, placed).writes == Meant(dir, records) <==>
            forall k :: 0 <= k < |records| ==> Unpackable(dir, records[k])
  {
    hide Unmerge, Encode, Skippable, Sized, Unpackable, Write;
    var data := TagLine(tag) + Encode(records);
    UnmergeSkipsTag(tag, Encode(records));
    RecordsUndoneIff(dir, records);
    var writes := Writes(dir, Unmerge(data).0);
    assert writes[..|writes|] == writes;
  }

  /** The unpacking of readable records in full, and its reported success: exactly when no path
      refers to a parent. */
  lemma UnmergeReportsIff(dir: string, tag: string, records: seq<Record>, placed: nat)
    requires Skippable(tag) && |records| <= placed
    requires forall k :: 0 <= k < |records| ==> Readable(records[k]) && Nameable(Target(dir, records[k].name))
    ensures UnmergeInto(TagLine(tag) + Encode(records), dir, placed) ==
            Unpacked(Writes(dir, records), NoParents(Writes(dir, records)))
  {
    hide Unmerge, Encode, Skippable, Readable, Write, Nameable, Target;
    UnmergeSkipsTag(tag, Encode(records));
    UnmergeRecords(records);
  }

  /** A package built from ../dir/f: its file is created outside the directory, empty. */
  lemma ParentNameIsEmptied()
    ensures var r := Record("../dir/f", "x");
            Write("var/upgrade", r) == Record("var/upgrade/../dir/f", "") && !Unpackable("var/upgrade", r)
  {
    var path := "var/upgrade/../dir/f";
    assert "var/upgrade" + "/" + "../dir/f" == path;
    assert ParentAt(path[11..]);
  }

  // ----- unique decodability -----

  lemma EncodeStart(records: seq<Record>)
    ensures Encode(records) == "" || Encode(records)[0] == '!'
  {
  }

  lemma TagIsDetermined(tag1: string, rest1: string, tag2: string, rest2: string)
    requires '\n' !in tag1 && '\n' !in tag2
    requires (rest1 == "" || rest1[0] == '!') && (rest2 == "" || rest2[0] == '!')
    requires TagLine(tag1) + rest1 == TagLine(tag2) + rest2
    ensures tag1 == tag2 && rest1 == rest2
  {
    var s := TagLine(tag1) + rest1;
    FirstLine(tag1, rest1);
    FirstLine(tag2, rest2);
    assert tag1 == "" <==> tag2 == "";
  }

  /** An archive opens with '#' exactly when it has a tag, which is then its first line. */
  lemma FirstLine(tag: string, rest: string)
    requires '\n' !in tag && (rest == "" || rest[0] == '!')
    ensures var s := TagLine(tag) + rest;
            if s != "" && s[0] == '#'
            then tag != "" && tag == s[1..IndexOf(s, '\n')] && rest == s[IndexOf(s, '\n') + 1..]
            else tag == "" && rest == s
  {
    var s := TagLine(tag) + rest;
    if tag == "" {
      assert s == rest;
    } else {
      assert s == ("#" + tag) + ['\n'] + rest;
      IndexAfter("#" + tag, '\n', rest);
    }
  }

  /** A header is the first line, and determines size and name. */
  lemma HeaderIsDetermined(r: Record, rest: string)
    requires '\n' !in r.name
    ensures var data := Header(r) + rest;
            var h := data[..IndexOf(data, '\n')];
            var k := IndexOf(h, ' ');
            && h == HeaderText(r) && 1 <= k < |h| && h[1..k] == Digits(|r.content|) && h[k + 1..] == r.name
            && data[|h| + 1..] == rest
  {
    hide Digits;
    SizeTextIs(r);
    var data, h, n := Header(r) + rest, HeaderText(r), |SizeText(r)| - 1;
    assert data == h + ['\n'] + rest;
    assert '\n' !in h;
    IndexAfter(h, '\n', rest);
    assert h[..n] == SizeText(r)[..n] && h[n] == SizeText(r)[n];
    IndexIs(h, ' ', n);
    assert h[1..n] == Digits(|r.content|) && h[n + 1..] == r.name;
  }

  lemma FirstIsDetermined(r1: Record, tail1: string, r2: Record, tail2: string)
    requires '\n' !in r1.name && '\n' !in r2.name
    requires EncodeOne(r1) + tail1 == EncodeOne(r2) + tail2
    ensures r1 == r2 && tail1 == tail2
  {
    hide Digits, IndexOf, Header, HeaderText;
    var rest1, rest2 := r1.content + tail1, r2.content + tail2;
    assert EncodeOne(r1) + tail1 == Header(r1) + rest1 && EncodeOne(r2) + tail2 == Header(r2) + rest2;
    HeaderIsDetermined(r1, rest1);
    HeaderIsDetermined(r2, rest2);
    ValueOfDigits(|r1.content|);
    ValueOfDigits(|r2.content|);
    assert rest1 == rest2 && |r1.content| == |r2.content|;
    assert r1.content == rest1[..|r1.content|] && tail1 == rest1[|r1.content|..];
    assert r2.content == rest2[..|r1.content|] && tail2 == rest2[|r1.content|..];
  }

  lemma {:induction false} RecordsAreDetermined(records1: seq<Record>, records2: seq<Record>)
    requires forall k :: 0 <= k < |records1| ==> '\n' !in records1[k].name
    requires forall k :: 0 <= k < |records2| ==> '\n' !in records2[k].name
    requires Encode(records1) == Encode(records2)
    ensures records1 == records2
    decreases |records1|
  {
    hide EncodeOne;
    NotEmpty(records1);
    NotEmpty(records2);
    if records1 != [] {
      FirstIsDetermined(records1[0], Encode(records1[1..]), records2[0], Encode(records2[1..]));
      RecordsAreDetermined(records1[1..], records2[1..]);
      assert records1 == [records1[0]] + records1[1..] && records2 == [records2[0]] + records2[1..];
    }
  }

  lemma NotEmpty(records: seq<Record>)
    ensures Encode(records) == "" <==> records == []
  {
  }

  /** Two archives of single-line names and tags are equal only if their tags and their lists
      of records are, for all contents. */
  lemma UniquelyDecodable(tag1: string, records1: seq<Record>, tag2: string, records2: seq<Record>)
    requires '\n' !in tag1 && '\n' !in tag2
    requires forall k :: 0 <= k < |records1| ==> '\n' !in records1[k].name
    requires forall k :: 0 <= k < |records2| ==> '\n' !in records2[k].name
    requires TagLine(tag1) + Encode(records1) == TagLine(tag2) + Encode(records2)
    ensures tag1 == tag2 && records1 == records2
  {
    hide Encode, TagLine;
    EncodeStart(records1);
    EncodeStart(records2);
    TagIsDetermined(tag1, Encode(records1), tag2, Encode(records2));
    RecordsAreDetermined(records1, records2);
  }

  /** The same for source trees: equal archives come from the same leaf files. */
  lemma TreesWithEqualArchives(tag1: string, sources1: seq<Entry>, tag2: string, sources2: seq<Entry>)
    requires '\n' !in tag1 && '\n' !in tag2
    requires forall k :: 0 <= k < |Records(sources1)| ==> '\n' !in Records(sources1)[k].name
    requires forall k :: 0 <= k < |Records(sources2)| ==> '\n' !in Records(sources2)[k].name
    requires TagLine(tag1) + Encode(Records(sources1)) == TagLine(tag2) + Encode(Records(sources2))
    ensures tag1 == tag2 && Records(sources1) == Records(sources2)
  {
    UniquelyDecodable(tag1, Records(sources1), tag2, Records(sources2));
  }
}
