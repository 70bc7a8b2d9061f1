/** The agent's remote-request manager (src/client-agent/request.c): a table of outstanding
    requests by counter, and a bounded ring that hands request nodes from the pushing thread
    to the receiver thread. One step per mutex section; `mutex_table` stays held across two
    steps while an ACK waits for a node's own mutex. */
module Requests {
  import opened Options
  import opened Ring
  import Text

  datatype Node = Node(counter: string, target: string, buffer: string)

  // ----- message format -----

  datatype Parsed = BadTarget | BadPayload | Ack(counter: string) | Request(node: Node)

  /** "counter ack", or "counter target payload". */
  function Parse(msg: string): (r: Parsed) {
    var k := Text.IndexOf(msg, ' ');
    if k == |msg| then BadTarget
    else
      var rest := msg[k + 1..];
      if rest == "ack" then Ack(msg[..k])
      else
        var m := Text.IndexOf(rest, ' ');
        if m == |rest| then BadPayload else Request(Node(msg[..k], rest[..m], rest[m + 1..]))
  }

  /** A rendered request is parsed back into its parts, whatever the payload holds. */
  lemma ParseRequest(n: Node)
    requires ' ' !in n.counter && ' ' !in n.target
    ensures Parse(n.counter + " " + n.target + " " + n.buffer) == Request(n)
  {
    hide Text.IndexOf;
    var rest := n.target + " " + n.buffer;
    var msg := n.counter + " " + rest;
    assert n.counter + " " + n.target + " " + n.buffer == msg;
    FirstWord(n.counter, rest);
    FirstWord(n.target, n.buffer);
    assert rest[|n.target|] == ' ';
  }

  lemma FirstWord(word: string, rest: string)
    requires ' ' !in word
    ensures var msg := word + " " + rest;
            Text.IndexOf(msg, ' ') == |word| && msg[..|word|] == word && msg[|word| + 1..] == rest
  {
    hide Text.IndexOf;
    Text.IndexAfter(word, ' ', rest);
    assert word + [' '] + rest == word + " " + rest;
  }

  /** "counter ack" acknowledges that counter. */
  lemma ParseAck(counter: string)
    requires ' ' !in counter
    ensures Parse(counter + " " + "ack") == Ack(counter)
  {
    hide Text.IndexOf;
    var msg := counter + " " + "ack";
    Text.IndexAfter(counter, ' ', "ack");
    assert counter + [' '] + "ack" == msg;
    assert msg[..|counter|] == counter && msg[|counter| + 1..] == "ack";
  }

  /** One word is no request, and neither are two whose second is not "ack". */
  lemma ParseMalformed(counter: string, target: string)
    requires ' ' !in counter && ' ' !in target && target != "ack"
    ensures Parse(counter) == BadTarget && Parse(counter + " " + target) == BadPayload
  {
    hide Text.IndexOf;
    Text.IndexIs(counter, ' ', |counter|);
    var msg := counter + " " + target;
    Text.IndexAfter(counter, ' ', target);
    assert counter + [' '] + target == msg;
    assert msg[|counter| + 1..] == target;
    Text.IndexIs(target, ' ', |target|);
  }

  /** There is no other message. */
  lemma ParseCovers(msg: string)
    ensures match Parse(msg)
            case BadTarget => ' ' !in msg
            case BadPayload => exists c, t :: msg == c + " " + t && ' ' !in c && ' ' !in t && t != "ack"
            case Ack(c) => msg == c + " " + "ack" && ' ' !in c
            case Request(n) =>
              msg == n.counter + " " + n.target + " " + n.buffer && ' ' !in n.counter && ' ' !in n.target
  {
    hide Text.IndexOf;
    var k := Text.IndexOf(msg, ' ');
    if k == |msg| {
      assert msg[..k] == msg;
    } else {
      var c, rest := msg[..k], msg[k + 1..];
      assert msg == c + " " + rest;
      var m := Text.IndexOf(rest, ' ');
      if m == |rest| {
        assert rest[..m] == rest;
      } else {
        assert rest == rest[..m] + " " + rest[m + 1..];
        assert msg == c + " " + rest[..m] + " " + rest[m + 1..];
      }
    }
  }

  // ----- the protocol -----

  /** Created: before the table insertion. Inserted: before the pool section. Rejecting: pool
      was full, before the table deletion. Dropping: before the error reply and the free.
      AckHolding: mutex_table held, waiting for the node's mutex. */
  datatype Pusher =
    | PIdle
    | Created(n: nat)
    | Inserted(n: nat)
    | Rejecting(n: nat)
    | Dropping(n: nat, error: Option<string>)
    | AckHolding(n: nat)

  /** Processing: the node's mutex is held. Answered: before the table deletion. Unlisted:
      before the free. */
  datatype Receiver = RIdle | Taken(n: nat) | Processing(n: nat) | Answered(n: nat) | Unlisted(n: nat)

  /** `nodes` are the allocated nodes; `fault` records a touch of a node not among them. */
  datatype Manager = Manager(
    table: map<string, nat>, pool: seq<nat>, pi: nat, pj: nat,
    nodes: map<nat, Node>, next: nat, pusher: Pusher, receiver: Receiver, fault: bool)
  {
    predicate Indexed() {
      pi < |pool| && pj < |pool|
    }

    function Waiting(): (q: seq<nat>)
      requires Indexed()
    {
      Queue(pool, pi, pj)
    }

    function Touch(n: nat): (r: Manager) {
      this.(fault := fault || n !in nodes)
    }

    function Unlist(n: nat): (r: Manager) {
      if n in nodes then this.(table := table - {nodes[n].counter}) else this.(fault := true)
    }

    function Release(n: nat): (r: Manager) {
      Touch(n).(nodes := nodes - {n})
    }
  }

  /** `refusal`: why the target's socket refused, if it did. `oom`: the table could not
      allocate. `beyond`: the memory after the response header's buffer. */
  datatype Step =
    | Push(request: Parsed, refusal: Option<string>) | Add(oom: bool) | Offer | Unregister | Drop | Update
    | Dequeue | Lock | Respond(reply: string, beyond: string) | Delete | Dispose

  datatype Entry = Entry(n: nat, counter: string)

  datatype Outcome = Outcome(
    after: Manager, admitted: seq<Entry>, answered: seq<Entry>, finished: seq<Entry>, sent: seq<string>)

  function Heading(counter: string): (r: string) {
    "#!-req " + counter + " "
  }

  /** What is to go to the manager: the request's counter, then the reply. */
  function Message(counter: string, reply: string): (r: string) {
    Heading(counter) + (if reply == "" then "err Disconnected" else reply)
  }

  /** Room for a text in the response buffer of REQ_RESPONSE_LENGTH characters. */
  const ROOM := 63

  /** An error reply is printed into that buffer whole. */
  function ErrorMessage(counter: string, error: string): (r: string) {
    Text.Take(Heading(counter) + error, ROOM)
  }

  /** What is copied for a heading printed into that buffer: as many characters as the heading
      has, printed or not. */
  function Copied(heading: string, beyond: string): (r: string)
    ensures |r| == |heading|
  {
    var memory := Text.Take(heading, ROOM) + ['\0'] + beyond;
    seq(|heading|, k requires 0 <= k < |heading| => if k < |memory| then memory[k] else '\0')
  }

  /** What does go to the manager. */
  function Response(counter: string, reply: string, beyond: string): (r: string) {
    Copied(Heading(counter), beyond) + (if reply == "" then "err Disconnected" else reply)
  }

  /** An answer arrives under its counter, whatever memory follows, if and only if the counter
      has at most 55 characters. */
  lemma ResponseIsMessageIff(counter: string, reply: string, beyond: string)
    requires '\0' !in counter
    ensures Response(counter, reply, beyond) == Message(counter, reply) <==> |counter| <= 55
  {
    var h := Heading(counter);
    var c := Copied(h, beyond);
    if |counter| <= 55 {
      assert c == h;
    } else {
      assert c[ROOM] == '\0' && h[ROOM] == (counter + " ")[ROOM - 7];
      assert Response(counter, reply, beyond)[ROOM] == c[ROOM] && Message(counter, reply)[ROOM] == h[ROOM];
    }
  }

  /** What the manager reads from a message: the header, the counter up to the first space, and
      the reply, or an error for an empty one. */
  lemma MessageIsReadBack(counter: string, reply: string)
    requires ' ' !in counter
    ensures var m := Message(counter, reply);
            && "#!-req " <= m
            && Text.IndexOf(m[7..], ' ') == |counter| && m[7..][..|counter|] == counter
            && m[7 + |counter| + 1..] == if reply == "" then "err Disconnected" else reply
  {
    hide Text.IndexOf;
    var m, text := Message(counter, reply), if reply == "" then "err Disconnected" else reply;
    assert m == "#!-req " + (counter + [' '] + text);
    Text.IndexAfter(counter, ' ', text);
    assert m[7..] == counter + [' '] + text;
  }

  /** An error reply is the message, cut at 63 characters. */
  lemma ErrorMessageIs(counter: string, error: string)
    requires error != ""
    ensures var e, m := ErrorMessage(counter, error), Message(counter, error);
            e <= m && |e| == if |counter| + |error| <= 55 then |m| else 63
  {
  }

  function Quiet(s: Manager): (r: Outcome) {
    Outcome(s, [], [], [], [])
  }

  function PushStep(s: Manager, request: Parsed, refusal: Option<string>): (r: Outcome) {
    match request
    case BadTarget => Quiet(s)
    case BadPayload => Quiet(s)
    case Ack(c) => Quiet(if c in s.table then s.(pusher := AckHolding(s.table[c])) else s)
    case Request(node) =>
      if node.target != "agent" && refusal.Some? then
        Quiet(s).(sent := [ErrorMessage(node.counter, "err " + refusal.value)])
      else Quiet(s.(nodes := s.nodes[s.next := node], next := s.next + 1, pusher := Created(s.next)))
  }

  function AddStep(s: Manager, n: nat, oom: bool): (r: Outcome) {
    if n !in s.nodes then Quiet(s.(fault := true))
    else if s.nodes[n].counter in s.table then Quiet(s.(pusher := Dropping(n, None)))
    else if oom then Quiet(s.(pusher := Dropping(n, Some("err Internal error"))))
    else Quiet(s.(table := s.table[s.nodes[n].counter := n], pusher := Inserted(n)))
  }

  function OfferStep(s: Manager, n: nat): (r: Outcome)
    requires s.Indexed()
  {
    if Full(s.pi, s.pj, |s.pool|) then Quiet(s.(pusher := Rejecting(n)))
    else
      var s' := s.(pool := s.pool[s.pi := n], pi := Forward(s.pi, |s.pool|), pusher := PIdle);
      Quiet(s').(admitted := EntryOf(s, n))
  }

  function EntryOf(s: Manager, n: nat): (r: seq<Entry>) {
    if n in s.nodes then [Entry(n, s.nodes[n].counter)] else []
  }

  function UnregisterStep(s: Manager, n: nat): (r: Outcome) {
    Quiet(s.Unlist(n).(pusher := Dropping(n, Some("err Too many requests"))))
  }

  function DropStep(s: Manager, n: nat, error: Option<string>): (r: Outcome) {
    var o := Quiet(s.Release(n).(pusher := PIdle));
    if error.Some? && n in s.nodes then o.(sent := [ErrorMessage(s.nodes[n].counter, error.value)]) else o
  }

  function UpdateStep(s: Manager, n: nat): (r: Outcome) {
    var s' := s.Touch(n).(pusher := PIdle);
    Quiet(if n in s.nodes then s'.(nodes := s.nodes[n := s.nodes[n].(buffer := "ack")]) else s')
  }

  function DequeueStep(s: Manager): (r: Outcome)
    requires s.Indexed()
  {
    Quiet(s.(pj := Forward(s.pj, |s.pool|), receiver := Taken(s.pool[s.pj])))
  }

  function LockStep(s: Manager, n: nat): (r: Outcome) {
    Quiet(s.Touch(n).(receiver := Processing(n)))
  }

  function RespondStep(s: Manager, n: nat, reply: string, beyond: string): (r: Outcome) {
    var o := Quiet(s.Touch(n).(receiver := Answered(n))).(answered := EntryOf(s, n));
    if n in s.nodes then o.(sent := [Response(s.nodes[n].counter, reply, beyond)]) else o
  }

  function DeleteStep(s: Manager, n: nat): (r: Outcome) {
    Quiet(s.Unlist(n).(receiver := Unlisted(n))).(finished := EntryOf(s, n))
  }

  function DisposeStep(s: Manager, n: nat): (r: Outcome) {
    Quiet(s.Release(n).(receiver := RIdle))
  }

  predicate Enabled(s: Manager, step: Step) {
    match step
    case Push(_, _) => s.pusher.PIdle?
    case Add(_) => s.pusher.Created?
    case Offer => s.pusher.Inserted?
    case Unregister => s.pusher.Rejecting?
    case Drop => s.pusher.Dropping?
    case Update => s.pusher.AckHolding? && s.receiver != Processing(s.pusher.n)
    case Dequeue => s.receiver.RIdle? && !Empty(s.pi, s.pj)
    case Lock => s.receiver.Taken?
    case Respond(_, _) => s.receiver.Processing?
    case Delete => s.receiver.Answered? && !s.pusher.AckHolding?
    case Dispose => s.receiver.Unlisted?
  }

  /** A thread that cannot take its step waits. */
  function Next(s: Manager, step: Step): (r: Outcome)
    requires s.Indexed()
    ensures r.after.Indexed() && |r.after.pool| == |s.pool|
  {
    if !Enabled(s, step) then Quiet(s) else
    match step
    case Push(request, refusal) => PushStep(s, request, refusal)
    case Add(oom) => AddStep(s, s.pusher.n, oom)
    case Offer => OfferStep(s, s.pusher.n)
    case Unregister => UnregisterStep(s, s.pusher.n)
    case Drop => DropStep(s, s.pusher.n, s.pusher.error)
    case Update => UpdateStep(s, s.pusher.n)
    case Dequeue => DequeueStep(s)
    case Lock => LockStep(s, s.receiver.n)
    case Respond(reply, beyond) => RespondStep(s, s.receiver.n, reply, beyond)
    case Delete => DeleteStep(s, s.receiver.n)
    case Dispose => DisposeStep(s, s.receiver.n)
  }

  // ----- the invariant -----

  /** Node the receiver owns. */
  function ReceiverPart(s: Manager): (r: seq<nat>) {
    if s.receiver.RIdle? then [] else [s.receiver.n]
  }

  /** Node the pusher owns. */
  function PusherPart(s: Manager): (r: seq<nat>) {
    if s.pusher.PIdle? || s.pusher.AckHolding? then [] else [s.pusher.n]
  }

  /** All owned nodes, from the oldest. */
  function Chain(s: Manager): (r: seq<nat>)
    requires s.Indexed()
  {
    ReceiverPart(s) + s.Waiting() + PusherPart(s)
  }

  predicate Increasing(q: seq<nat>) {
    forall a, b :: 0 <= a < b < |q| ==> q[a] < q[b]
  }

  /** Nodes the table must list: inserted and not yet deleted. */
  predicate Listed(s: Manager, n: nat) {
    && n in s.nodes
    && s.receiver != Unlisted(n)
    && s.pusher != Created(n)
    && !(s.pusher.Dropping? && s.pusher.n == n)
  }

  function Elements(q: seq<nat>): (r: set<nat>) {
    set n | n in q
  }

  /** Ownership: the allocated nodes are those being pushed, queued or processed, each owned
      once, in order of creation. */
  ghost predicate Owned(s: Manager) {
    && s.Indexed()
    && Increasing(Chain(s))
    && s.nodes.Keys == Elements(Chain(s))
    && Fresh(s)
    && !s.fault
  }

  ghost predicate Fresh(s: Manager) {
    forall n :: n in s.nodes ==> n < s.next
  }

  /** The table lists exactly the listed nodes, each under its own counter. */
  ghost predicate Tabled(s: Manager) {
    && (forall c :: c in s.table ==> Listed(s, s.table[c]) && s.nodes[s.table[c]].counter == c)
    && (forall n :: Listed(s, n) ==> s.nodes[n].counter in s.table && s.table[s.nodes[n].counter] == n)
    && (s.pusher.AckHolding? ==> Listed(s, s.pusher.n))
  }

  ghost predicate Inv(s: Manager) {
    Owned(s) && Tabled(s)
  }

  /** The threads' own nodes are allocated, and they never own the same one. */
  predicate Separate(s: Manager) {
    && (PusherPart(s) != [] ==> s.pusher.n in s.nodes)
    && (ReceiverPart(s) != [] ==> s.receiver.n in s.nodes)
    && (PusherPart(s) != [] && ReceiverPart(s) != [] ==> s.pusher.n != s.receiver.n)
  }

  lemma OwnersAreSeparate(s: Manager)
    requires Owned(s)
    ensures Separate(s)
  {
    var c := Chain(s);
    if PusherPart(s) != [] {
      assert c[|c| - 1] == s.pusher.n && c[|c| - 1] in Elements(c);
    }
    if ReceiverPart(s) != [] {
      assert c[0] == s.receiver.n && c[0] in Elements(c);
    }
  }

  lemma SeparateOwners(s: Manager)
    requires Inv(s)
    ensures s.Indexed() && Fresh(s) && Separate(s)
  {
    OwnersAreSeparate(s);
  }

  lemma AckTouchesLiveNode(s: Manager)
    requires Inv(s) && s.pusher.AckHolding?
    ensures s.pusher.n in s.nodes
  {
  }

  lemma Extend(q: seq<nat>, n: nat)
    requires Increasing(q) && forall m :: m in Elements(q) ==> m < n
    ensures Increasing(q + [n]) && Elements(q + [n]) == Elements(q) + {n}
  {
    assert forall k :: 0 <= k < |q| ==> q[k] in Elements(q);
  }

  lemma DropLast(q: seq<nat>, n: nat)
    requires Increasing(q + [n])
    ensures Increasing(q) && Elements(q) == Elements(q + [n]) - {n}
  {
    var q' := q + [n];
    assert q'[|q|] == n;
    assert forall k :: 0 <= k < |q| ==> q'[k] == q[k];
  }

  lemma DropFirst(q: seq<nat>, n: nat)
    requires Increasing([n] + q)
    ensures Increasing(q) && Elements(q) == Elements([n] + q) - {n}
  {
    var q' := [n] + q;
    assert q'[0] == n;
    assert forall k :: 0 <= k < |q| ==> q'[k + 1] == q[k];
  }

  // Ownership: how each step moves the chain.

  /** A step that neither allocates nor frees and keeps the chain keeps ownership. */
  lemma SameChain(s: Manager, s': Manager)
    requires Owned(s) && s'.Indexed() && Chain(s') == Chain(s)
    requires s'.nodes.Keys == s.nodes.Keys && s'.next == s.next && !s'.fault
    ensures Owned(s')
  {
  }

  lemma OfferChain(s: Manager)
    requires s.Indexed() && s.pusher.Inserted?
    ensures OfferStep(s, s.pusher.n).after.Indexed()
    ensures Chain(OfferStep(s, s.pusher.n).after) == Chain(s)
  {
    var s' := OfferStep(s, s.pusher.n).after;
    if !Full(s.pi, s.pj, |s.pool|) {
      QueuePush(s.pool, s.pi, s.pj, s.pusher.n);
      assert Chain(s') == ReceiverPart(s) + (s.Waiting() + [s.pusher.n]);
    }
  }

  lemma DequeueChain(s: Manager)
    requires s.Indexed() && s.receiver.RIdle? && !Empty(s.pi, s.pj)
    ensures DequeueStep(s).after.Indexed()
    ensures Chain(DequeueStep(s).after) == Chain(s)
  {
    QueuePop(s.pool, s.pi, s.pj);
  }

  lemma PushOwned(s: Manager, request: Parsed, refusal: Option<string>)
    requires Owned(s) && s.pusher.PIdle?
    ensures Owned(PushStep(s, request, refusal).after)
  {
    var s' := PushStep(s, request, refusal).after;
    if s'.next > s.next {
      assert Chain(s') == Chain(s) + [s.next];
      assert forall n :: n in s.nodes <==> n in s.nodes.Keys;
      Extend(Chain(s), s.next);
    } else {
      SameChain(s, s');
    }
  }

  lemma DropOwned(s: Manager)
    requires Owned(s) && Separate(s) && s.pusher.Dropping?
    ensures Owned(DropStep(s, s.pusher.n, s.pusher.error).after)
  {
    var s' := DropStep(s, s.pusher.n, s.pusher.error).after;
    assert Chain(s) == Chain(s') + [s.pusher.n];
    DropLast(Chain(s'), s.pusher.n);
  }

  lemma DisposeOwned(s: Manager)
    requires Owned(s) && Separate(s) && s.receiver.Unlisted?
    ensures Owned(DisposeStep(s, s.receiver.n).after)
  {
    hide Queue, Increasing, Elements;
    var s' := DisposeStep(s, s.receiver.n).after;
    assert Chain(s') == s.Waiting() + PusherPart(s);
    assert Chain(s) == [s.receiver.n] + (s.Waiting() + PusherPart(s));
    DropFirst(Chain(s'), s.receiver.n);
  }

  lemma PusherStepOwned(s: Manager, step: Step)
    requires Owned(s) && Separate(s) && Tabled(s) && Enabled(s, step)
    requires step.Push? || step.Add? || step.Offer? || step.Unregister? || step.Drop? || step.Update?
    ensures Owned(Next(s, step).after)
  {
    hide Increasing, Elements, Fresh;
    match step
    case Push(request, refusal) => PushOwned(s, request, refusal);
    case Add(oom) => SameChain(s, Next(s, step).after);
    case Offer =>
      OfferChain(s);
      SameChain(s, Next(s, step).after);
    case Unregister => SameChain(s, Next(s, step).after);
    case Drop => DropOwned(s);
    case Update => SameChain(s, Next(s, step).after);
  }

  lemma ReceiverStepOwned(s: Manager, step: Step)
    requires Owned(s) && Separate(s) && Enabled(s, step)
    requires step.Dequeue? || step.Lock? || step.Respond? || step.Delete? || step.Dispose?
    ensures Owned(Next(s, step).after)
  {
    match step
    case Dequeue =>
      DequeueChain(s);
      SameChain(s, Next(s, step).after);
    case Lock => SameChain(s, Next(s, step).after);
    case Respond(_, _) => SameChain(s, Next(s, step).after);
    case Delete => SameChain(s, Next(s, step).after);
    case Dispose => DisposeOwned(s);
  }

  // The table: which nodes each step lists.

  lemma PushTabled(s: Manager, request: Parsed, refusal: Option<string>)
    requires Tabled(s) && Fresh(s) && s.pusher.PIdle?
    ensures Tabled(PushStep(s, request, refusal).after)
  {
    var s' := PushStep(s, request, refusal).after;
    assert forall n :: Listed(s', n) <==> Listed(s, n);
  }

  lemma AddTabled(s: Manager, oom: bool)
    requires Tabled(s) && Separate(s) && s.pusher.Created?
    ensures Tabled(AddStep(s, s.pusher.n, oom).after)
  {
    var s' := AddStep(s, s.pusher.n, oom).after;
    assert forall n :: Listed(s', n) <==> Listed(s, n) || (s'.pusher.Inserted? && n == s.pusher.n);
  }

  lemma UnlistTabled(s: Manager, n: nat, s': Manager)
    requires Tabled(s) && Listed(s, n) && !s'.pusher.AckHolding?
    requires s'.nodes == s.nodes && s'.table == s.table - {s.nodes[n].counter}
    requires forall m :: Listed(s', m) <==> Listed(s, m) && m != n
    ensures Tabled(s')
  {
  }

  lemma SameTabled(s: Manager, s': Manager)
    requires Tabled(s) && s'.table == s.table && (s'.pusher.AckHolding? ==> s'.pusher == s.pusher)
    requires forall m :: Listed(s', m) <==> Listed(s, m)
    requires forall m :: Listed(s, m) ==> m in s'.nodes && s'.nodes[m].counter == s.nodes[m].counter
    ensures Tabled(s')
  {
  }

  lemma StepKeepsTabled(s: Manager, step: Step)
    requires s.Indexed() && Tabled(s) && Separate(s) && Fresh(s) && Enabled(s, step)
    ensures Tabled(Next(s, step).after)
  {
    hide Tabled, Queue;
    var s' := Next(s, step).after;
    match step
    case Push(request, refusal) => PushTabled(s, request, refusal);
    case Add(oom) => AddTabled(s, oom);
    case Unregister => UnlistTabled(s, s.pusher.n, s');
    case Delete => UnlistTabled(s, s.receiver.n, s');
    case _ => SameTabled(s, s');
  }

  lemma StepKeepsInv(s: Manager, step: Step)
    requires Inv(s)
    ensures Inv(Next(s, step).after)
  {
    hide Owned, Tabled;
    if Enabled(s, step) {
      SeparateOwners(s);
      StepKeepsTabled(s, step);
      if step.Dequeue? || step.Lock? || step.Respond? || step.Delete? || step.Dispose? {
        ReceiverStepOwned(s, step);
      } else {
        PusherStepOwned(s, step);
      }
    }
  }
}
