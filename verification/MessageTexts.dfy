/** The texts of a transfer: how the agent reads them, and how the manager sends a file
    (send_file_toagent in src/remoted/manager.c). */
module MessageTexts {

  import opened FileReceiver
  import opened Options
  import opened Paths
  import opened ReceiverRuns
  import opened Text

  // ----- reading -----

  const WORDS := ["execd ", "force_reconnect", "syscheck ", "fim_sync ", "syscollector_", "sca_sync ", "sca-dump"]

  lemma ControlBody(body: string)
    ensures HEADER <= "#!-" + body && ("#!-" + body)[3..] == body
  {
  }

  /** The control messages that concern other parts of the agent leave the transfer alone, open
      file included, whatever follows their first word. */
  lemma ControlTextsPass(rest: string, c: char, s: State, md5: string -> string, luck: Luck)
    ensures Receive(s, "#!-" + ("execd " + rest), md5, luck) == s
    ensures Receive(s, "#!-" + ("force_reconnect" + rest), md5, luck) == s
    ensures Receive(s, "#!-" + ("syscheck " + rest), md5, luck) == s
    ensures Receive(s, "#!-" + ("fim_sync " + rest), md5, luck) == s
    ensures Receive(s, "#!-" + ("syscollector_" + rest), md5, luck) == s
    ensures Receive(s, "#!-" + ("sca_sync " + rest), md5, luck) == s
    ensures Receive(s, "#!-" + "agent ack ", md5, luck) == s
    ensures Receive(s, "#!-" + ("req" + [c] + rest), md5, luck) == s
    ensures Receive(s, "#!-" + ("sca-dump" + rest), md5, luck) == s
  {
    Passes("execd ", rest, s, md5, luck);
    Passes("force_reconnect", rest, s, md5, luck);
    Passes("syscheck ", rest, s, md5, luck);
    Passes("fim_sync ", rest, s, md5, luck);
    Passes("syscollector_", rest, s, md5, luck);
    Passes("sca_sync ", rest, s, md5, luck);
    Passes("sca-dump", rest, s, md5, luck);
    ControlBody("agent ack ");
    ControlBody("req" + [c] + rest);
    assert "req" <= "req" + [c] + rest;
  }

  lemma Passes(word: string, rest: string, s: State, md5: string -> string, luck: Luck)
    requires word in WORDS
    ensures Receive(s, "#!-" + (word + rest), md5, luck) == s
  {
    hide RefersToParent, CleanName, OnUpdate, OnClose;
    ControlBody(word + rest);
    assert word <= word + rest;
  }

  /** Nothing else passes: a longer text than the server's ACK, or any other word, does not. */
  lemma OnlyThesePass(body: string)
    ensures Classify("#!-" + body) == Pass <==>
            || (exists k :: 0 <= k < |WORDS| && WORDS[k] <= body)
            || body == "agent ack " || ("req" <= body && |body| > 3)
  {
    hide RefersToParent, CleanName;
    ControlBody(body);
    if PassesThrough(body) && body != "agent ack " && !("req" <= body && |body| > 3) {
      var k := if "execd " <= body then 0 else if "force_reconnect" <= body then 1 else if "syscheck " <= body then 2
               else if "fim_sync " <= body then 3 else if "syscollector_" <= body then 4
               else if "sca_sync " <= body then 5 else if "sca-dump" <= body then 6 else 7;
      assert "syscollector_sync " <= body ==> "syscollector_" <= body by {
        assert "syscollector_sync "[..13] == "syscollector_";
      }
      assert k < 7 && WORDS[k] <= body;
    }
  }

  /** Every other control message ends the transfer of the open file. */
  lemma OtherControlCloses(s: State, msg: string, md5: string -> string, luck: Luck)
    requires "#!-" <= msg && !PassesThrough(msg[3..])
    ensures var s' := Receive(s, msg, md5, luck);
            s'.open.None? || (Classify(msg).Update? && s'.open == Some(Classify(msg).path))
  {
    hide RefersToParent, CleanName, PassesThrough, Resolve, Nameable;
  }

  lemma NotPassing(body: string)
    requires body != "" && body[0] in "uc"
    ensures !PassesThrough(body)
  {
  }

  /** The name an update gives its file, character by character: the first line, with '-' for a
      slash and for a leading dot. */
  lemma NameIs(raw: string)
    ensures var name, n := CleanName(raw), IndexOf(raw, '\n');
            && |name| == n
            && forall k :: 0 <= k < n ==>
                 name[k] == if raw[k] == '/' || (k == 0 && raw[k] == '.') then '-' else raw[k]
  {
    hide IndexOf;
  }

  /** How any update is read. The test for parents sees the name with the space before it. */
  lemma UpdateIsRead(sum: string, raw: string)
    requires ' ' !in sum
    ensures Classify("#!-up file " + (sum + " " + raw)) ==
            if RefersToParent(" " + raw) then Ignored
            else Update(Take(sum, 33), Take("etc/shared/" + CleanName(raw), 1023))
  {
    hide RefersToParent, CleanName, PassesThrough, IndexOf;
    var rest := sum + " " + raw;
    var body := "up file " + rest;
    assert "#!-up file " + rest == "#!-" + body;
    ControlBody(body);
    assert body[0] == 'u' && UPDATE <= body && body[|UPDATE|..] == rest;
    NotPassing(body);
    IndexAfter(sum, ' ', raw);
    assert rest == sum + [' '] + raw;
    assert rest[..|sum|] == sum && rest[|sum|..] == " " + raw && rest[|sum| + 1..] == raw;
    assert SHARED_DIR + "/" == "etc/shared/";
  }

  /** A plain file name. */
  predicate PlainName(name: string) {
    '/' !in name && '\n' !in name && (name != "" ==> name[0] != '.') && |"etc/shared/" + name| <= 1023
  }

  /** The update a manager sends for a plain name announces exactly that file. */
  lemma PlainUpdateIsRead(sum: string, name: string)
    requires ' ' !in sum && |sum| <= 33 && PlainName(name)
    ensures Classify("#!-up file " + (sum + " " + (name + "\n"))) == Update(sum, "etc/shared/" + name)
  {
    hide RefersToParent, CleanName, Classify;
    var raw := name + "\n";
    UpdateIsRead(sum, raw);
    assert (" " + raw)[0] == ' ';
    NoSlashNoParent(" " + raw);
    NameIs(raw);
    assert raw[..|name|] == name && raw[|name|] == '\n';
    IndexIs(raw, '\n', |name|);
    assert CleanName(raw) == name;
  }

  lemma NoSlashNoParent(path: string)
    requires '/' !in path && path != ".."
    ensures !RefersToParent(path)
  {
    ParentAlone(path);
  }

  lemma CloseIsRead(rest: string)
    ensures Classify("#!-close file " + rest) == Close
  {
    hide RefersToParent, CleanName, PassesThrough;
    var body := "close file " + rest;
    assert "#!-close file " + rest == "#!-" + body;
    ControlBody(body);
    assert body[0] == 'c' && CLOSE <= body;
    NotPassing(body);
    assert !(UPDATE <= body) by {
      assert UPDATE[0] == 'u';
    }
  }

  // ----- sending -----

  /** The file in blocks of 900 bytes. */
  function Blocks(data: string): (blocks: seq<string>) {
    if data == "" then [] else [Take(data, 900)] + Blocks(data[|Take(data, 900)|..])
  }

  /** A block is sent as a C string. */
  function AsText(block: string): (text: string) {
    block[..IndexOf(block, '\0')]
  }

  function Texts(blocks: seq<string>): (texts: seq<string>)
    ensures |texts| == |blocks|
  {
    seq(|blocks|, k requires 0 <= k < |blocks| => AsText(blocks[k]))
  }

  function UpdateText(sum: string, name: string): (msg: string) {
    Take("#!-up file " + (sum + " " + (name + "\n")), 1023)
  }

  function Sent(sum: string, name: string, data: string): (msgs: seq<string>) {
    [UpdateText(sum, name)] + Texts(Blocks(data)) + ["#!-close file "]
  }

  /** send_file_toagent, with a connection that works. */
  method SendFile(sum: string, name: string, data: string) returns (msgs: seq<string>)
    ensures msgs == Sent(sum, name, data)
  {
    msgs := [Take("#!-up file " + (sum + " " + (name + "\n")), 1023)];
    var pos := 0;
    assert data[0..] == data;
    assert msgs + Texts(Blocks(data[0..])) == [UpdateText(sum, name)] + Texts(Blocks(data));
    while pos < |data|
      invariant pos <= |data|
      invariant msgs + Texts(Blocks(data[pos..])) == [UpdateText(sum, name)] + Texts(Blocks(data))
      decreases |data| - pos
    {
      var n := if |data| - pos < 900 then |data| - pos else 900;
      var buf := data[pos..pos + n];
      BlocksStep(data, pos);
      msgs := msgs + [AsText(buf)];
      pos := pos + n;
    }
    assert data[pos..] == "";
    assert msgs + Texts([]) == msgs;
    msgs := msgs + ["#!-close file "];
  }

  lemma BlocksStep(data: string, pos: nat)
    requires pos < |data|
    ensures var n := if |data| - pos < 900 then |data| - pos else 900;
            forall msgs: seq<string> ::
              msgs + Texts(Blocks(data[pos..])) ==
              (msgs + [AsText(data[pos..pos + n])]) + Texts(Blocks(data[pos + n..]))
  {
    hide AsText;
    var n := if |data| - pos < 900 then |data| - pos else 900;
    var rest := data[pos..];
    assert Take(rest, 900) == data[pos..pos + n];
    assert rest[n..] == data[pos + n..];
    assert Texts(Blocks(rest)) == [AsText(data[pos..pos + n])] + Texts(Blocks(data[pos + n..]));
  }

  function Concat(parts: seq<string>): (r: string) {
    if parts == [] then "" else parts[0] + Concat(parts[1..])
  }

  lemma {:induction false} BlocksAreTheData(data: string)
    ensures Concat(Blocks(data)) == data
    decreases |data|
  {
    if data != "" {
      var first := Take(data, 900);
      BlocksAreTheData(data[|first|..]);
      assert Blocks(data)[1..] == Blocks(data[|first|..]);
      assert data == first + data[|first|..];
    }
  }

  lemma {:induction false} BlocksAreNotEmpty(data: string)
    ensures forall k :: 0 <= k < |Blocks(data)| ==>
              0 < |Blocks(data)[k]| && |Blocks(data)[k]| <= 900 && (k < |Blocks(data)| - 1 ==> |Blocks(data)[k]| == 900)
    decreases |data|
  {
    if data != "" {
      BlocksAreNotEmpty(data[|Take(data, 900)|..]);
    }
  }

  // ----- sent and read -----

  /** The messages as they arrive. */
  predicate Carries(arrivals: seq<Arrival>, msgs: seq<string>) {
    |arrivals| == |msgs| && forall k :: 0 <= k < |msgs| ==> arrivals[k].msg == msgs[k]
  }

  /** A block that is read as it was sent: no terminator in it, and not like a control message. */
  predicate Transparent(block: string) {
    '\0' !in block && !("#!-" <= block)
  }

  lemma {:induction false} ReadIsShorter(arrivals: seq<Arrival>, blocks: seq<string>)
    requires Carries(arrivals, Texts(blocks))
    ensures |Contents(arrivals)| <= |Concat(blocks)|
    decreases |blocks|
  {
    hide Classify;
    if blocks != [] {
      RestCarries(arrivals, blocks);
      ReadIsShorter(arrivals[1..], blocks[1..]);
      assert |arrivals[0].msg| <= |blocks[0]|;
    }
  }

  lemma RestCarries(arrivals: seq<Arrival>, blocks: seq<string>)
    requires blocks != [] && Carries(arrivals, Texts(blocks))
    ensures arrivals != [] && arrivals[0].msg == AsText(blocks[0]) && Carries(arrivals[1..], Texts(blocks[1..]))
  {
    hide AsText;
    assert Texts(blocks)[0] == AsText(blocks[0]);
    assert forall k :: 0 <= k < |blocks| - 1 ==> Texts(blocks[1..])[k] == Texts(blocks)[k + 1];
  }

  lemma FirstBlock(block: string)
    ensures |AsText(block)| <= |block|
    ensures Classify(AsText(block)).Data? <==> !("#!-" <= AsText(block))
    ensures Transparent(block) ==> AsText(block) == block && Classify(block).Data?
    ensures !Transparent(block) ==> |AsText(block)| < |block| || !Classify(AsText(block)).Data?
  {
    hide PassesThrough, RefersToParent, CleanName;
    if '\0' !in block {
      IndexIs(block, '\0', |block|);
      assert block[..|block|] == block;
    }
  }

  /** The data sent is the data read if and only if every block is transparent. */
  lemma {:induction false} ReadIsSentIff(arrivals: seq<Arrival>, blocks: seq<string>)
    requires Carries(arrivals, Texts(blocks)) && forall k :: 0 <= k < |blocks| ==> blocks[k] != ""
    ensures Contents(arrivals) == Concat(blocks) <==> forall k :: 0 <= k < |blocks| ==> Transparent(blocks[k])
    decreases |blocks|
  {
    hide Classify, AsText, Transparent;
    if blocks != [] {
      RestCarries(arrivals, blocks);
      ReadIsSentIff(arrivals[1..], blocks[1..]);
      ReadIsShorter(arrivals[1..], blocks[1..]);
      FirstBlock(blocks[0]);
      assert (forall k :: 0 <= k < |blocks| ==> Transparent(blocks[k])) <==>
             Transparent(blocks[0]) && forall k :: 0 <= k < |blocks[1..]| ==> Transparent(blocks[1..][k]);
      if Transparent(blocks[0]) {
        SameAfter(blocks[0], Contents(arrivals[1..]), Concat(blocks[1..]));
      } else {
        assert |Contents(arrivals)| < |Concat(blocks)|;
      }
    }
  }

  lemma SameAfter(a: string, b: string, c: string)
    ensures a + b == a + c <==> b == c
  {
    assert (a + b)[|a|..] == b && (a + c)[|a|..] == c;
  }

  /** A file the manager sends is read by the agent as it is if and only if none of its 900-byte
      blocks begins like a control message or holds a terminator. */
  lemma FileIsReadAsSentIff(data: string, arrivals: seq<Arrival>)
    requires Carries(arrivals, Texts(Blocks(data)))
    ensures Contents(arrivals) == data <==> forall k :: 0 <= k < |Blocks(data)| ==> Transparent(Blocks(data)[k])
  {
    BlocksAreTheData(data);
    BlocksAreNotEmpty(data);
    ReadIsSentIff(arrivals, Blocks(data));
  }

  lemma TransparentIsMidTransfer(data: string, arrivals: seq<Arrival>)
    requires Carries(arrivals, Texts(Blocks(data)))
    requires forall k :: 0 <= k < |Blocks(data)| ==> Transparent(Blocks(data)[k])
    ensures MidTransfer(arrivals)
  {
    hide Classify, AsText, Transparent, Blocks;
    forall k | 0 <= k < |arrivals|
      ensures Classify(arrivals[k].msg).Data?
    {
      FirstBlock(Blocks(data)[k]);
      assert arrivals[k].msg == Texts(Blocks(data))[k];
    }
  }
}
