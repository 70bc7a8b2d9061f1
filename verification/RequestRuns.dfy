/** Whole runs of the request manager: every interleaving of the pushing thread with the
    receiver thread, for any pool size. */
module RequestRuns {
  import opened Options
  import opened Ring
  import opened Requests

  function Init(size: nat): (s: Manager) {
    Manager(map[], seq(size, _ => 0), 0, 0, map[], 0, PIdle, RIdle, false)
  }

  datatype Run = Run(size: nat, steps: seq<Step>) {
    predicate Valid() {
      1 <= size
    }

    function State(k: nat): (s: Manager)
      requires Valid() && k <= |steps|
      ensures s.Indexed() && |s.pool| == size
    {
      if k == 0 then Init(size) else Next(State(k - 1), steps[k - 1]).after
    }

    function Out(k: nat): (o: Outcome)
      requires Valid() && k < |steps|
    {
      Next(State(k), steps[k])
    }

    /** Requests put in the pool, in order. */
    function Admitted(k: nat): (log: seq<Entry>)
      requires Valid() && k <= |steps|
    {
      if k == 0 then [] else Admitted(k - 1) + Out(k - 1).admitted
    }

    /** Requests whose response was sent, in order. */
    function Answered(k: nat): (log: seq<Entry>)
      requires Valid() && k <= |steps|
    {
      if k == 0 then [] else Answered(k - 1) + Out(k - 1).answered
    }

    /** Requests removed from the table after their response, in order. */
    function Finished(k: nat): (log: seq<Entry>)
      requires Valid() && k <= |steps|
    {
      if k == 0 then [] else Finished(k - 1) + Out(k - 1).finished
    }
  }

  lemma InitInvariant(size: nat)
    requires 1 <= size
    ensures Inv(Init(size))
  {
    assert Chain(Init(size)) == [];
  }

  lemma {:induction false} RunInvariant(r: Run, k: nat)
    requires r.Valid() && k <= |r.steps|
    ensures Inv(r.State(k))
  {
    hide Next, Inv;
    if k == 0 {
      InitInvariant(r.size);
    } else {
      RunInvariant(r, k - 1);
      StepKeepsInv(r.State(k - 1), r.steps[k - 1]);
    }
  }

  // ----- in order, exactly once -----

  function ServingPart(r: Receiver): (q: seq<nat>) {
    if r.Taken? || r.Processing? then [r.n] else []
  }

  function OpenPart(r: Receiver): (q: seq<nat>) {
    if r.RIdle? || r.Unlisted? then [] else [r.n]
  }

  /** Admitted and not yet answered, respectively not yet removed from the table. */
  function Unanswered(s: Manager): (q: seq<nat>)
    requires s.Indexed()
  {
    ServingPart(s.receiver) + s.Waiting()
  }

  function Unfinished(s: Manager): (q: seq<nat>)
    requires s.Indexed()
  {
    OpenPart(s.receiver) + s.Waiting()
  }

  function Nodes(log: seq<Entry>): (r: seq<nat>)
    ensures |r| == |log|
  {
    seq(|log|, k requires 0 <= k < |log| => log[k].n)
  }

  /** No step renames a request, and only fresh numbers are allocated. */
  lemma CountersAreStable(s: Manager, step: Step, n: nat)
    requires s.Indexed() && Fresh(s) && n < s.next && n in Next(s, step).after.nodes
    ensures n in s.nodes && Next(s, step).after.nodes[n].counter == s.nodes[n].counter
  {
    if Enabled(s, step) {
      match step
      case Push(_, _) =>
      case Add(_) =>
      case Offer =>
      case Unregister =>
      case Drop =>
      case Update =>
      case Dequeue =>
      case Lock =>
      case Respond(_, _) =>
      case Delete =>
      case Dispose =>
    }
  }

  /** How one step moves the two windows of admitted requests, by node. */
  ghost predicate Moves(s: Manager, o: Outcome)
    requires s.Indexed()
  {
    && o.after.Indexed()
    && Unanswered(s) + Nodes(o.admitted) == Nodes(o.answered) + Unanswered(o.after)
    && Unfinished(s) + Nodes(o.admitted) == Nodes(o.finished) + Unfinished(o.after)
  }

  lemma QuietMoves(s: Manager, o: Outcome)
    requires s.Indexed() && o.after.pool == s.pool && o.after.pi == s.pi && o.after.pj == s.pj
    requires o.admitted == [] && o.answered == [] && o.finished == []
    requires ServingPart(o.after.receiver) == ServingPart(s.receiver)
    requires OpenPart(o.after.receiver) == OpenPart(s.receiver)
    ensures Moves(s, o)
  {
  }

  lemma OfferMoves(s: Manager, n: nat)
    requires s.Indexed() && n in s.nodes
    ensures Moves(s, OfferStep(s, n))
  {
    hide Queue;
    var o := OfferStep(s, n);
    if Full(s.pi, s.pj, |s.pool|) {
      QuietMoves(s, o);
    } else {
      QueuePush(s.pool, s.pi, s.pj, n);
      assert Nodes(o.admitted) == [n] && Nodes(o.answered) == [] && Nodes(o.finished) == [];
      assert Unanswered(o.after) == Unanswered(s) + [n];
      assert Unfinished(o.after) == Unfinished(s) + [n];
    }
  }

  lemma DequeueMoves(s: Manager)
    requires s.Indexed() && s.receiver.RIdle? && !Empty(s.pi, s.pj)
    ensures Moves(s, DequeueStep(s))
  {
  }

  lemma ServeMoves(s: Manager, reply: string, beyond: string)
    requires s.Indexed() && Separate(s)
    ensures s.receiver.Processing? ==> Moves(s, RespondStep(s, s.receiver.n, reply, beyond))
    ensures s.receiver.Answered? ==> Moves(s, DeleteStep(s, s.receiver.n))
  {
    if s.receiver.Processing? || s.receiver.Answered? {
      assert Nodes(EntryOf(s, s.receiver.n)) == [s.receiver.n];
    }
  }

  lemma WindowStep(s: Manager, step: Step)
    requires s.Indexed() && Separate(s)
    ensures Moves(s, Next(s, step))
  {
    hide Moves, Queue;
    if !Enabled(s, step) {
      QuietMoves(s, Next(s, step));
    } else {
      match step
      case Offer => OfferMoves(s, s.pusher.n);
      case Dequeue => DequeueMoves(s);
      case Respond(reply, beyond) => ServeMoves(s, reply, beyond);
      case Delete => ServeMoves(s, "", "");
      case Lock => QuietMoves(s, Next(s, step));
      case Dispose => QuietMoves(s, Next(s, step));
      case _ =>
        assert Next(s, step).after.receiver == s.receiver;
        QuietMoves(s, Next(s, step));
    }
  }

  /** Entries that name allocated nodes carry those nodes' counters. */
  ghost predicate Labelled(s: Manager, log: seq<Entry>) {
    forall m :: 0 <= m < |log| ==>
      log[m].n < s.next && (log[m].n in s.nodes ==> s.nodes[log[m].n].counter == log[m].counter)
  }

  /** The logs against the state: requests leave in the order they were admitted. */
  ghost predicate Logged(s: Manager, admitted: seq<Entry>, answered: seq<Entry>, finished: seq<Entry>)
    requires s.Indexed()
  {
    && Nodes(admitted) == Nodes(answered) + Unanswered(s)
    && Nodes(admitted) == Nodes(finished) + Unfinished(s)
    && Labelled(s, admitted)
    && answered <= admitted && finished <= admitted
  }

  lemma AdmissionStep(s: Manager, step: Step)
    requires s.Indexed() && Separate(s)
    ensures var o := Next(s, step);
            && o.after.next >= s.next
            && (o.admitted != [] ==>
                  PusherPart(s) != [] && o.after.nodes == s.nodes && o.admitted == EntryOf(s, s.pusher.n))
  {
  }

  lemma LabelledStep(s: Manager, step: Step, log: seq<Entry>)
    requires s.Indexed() && Fresh(s) && Separate(s) && Labelled(s, log)
    ensures Labelled(Next(s, step).after, log + Next(s, step).admitted)
  {
    hide Next;
    var o := Next(s, step);
    AdmissionStep(s, step);
    forall m | 0 <= m < |log| && log[m].n in o.after.nodes
      ensures o.after.nodes[log[m].n].counter == log[m].counter
    {
      CountersAreStable(s, step, log[m].n);
    }
  }

  /** What leaves a window is the next admitted entry. */
  lemma LeavesInOrder(s: Manager, admitted: seq<Entry>, left: seq<Entry>, window: seq<nat>, out: seq<Entry>)
    requires Nodes(admitted) == Nodes(left) + window && left <= admitted && Labelled(s, admitted)
    requires out == [] || (window != [] && out == EntryOf(s, window[0]))
    ensures left + out <= admitted
  {
    if out != [] {
      assert Nodes(admitted)[|left|] == window[0];
    }
  }

  lemma NodesConcat(a: seq<Entry>, b: seq<Entry>)
    ensures Nodes(a + b) == Nodes(a) + Nodes(b)
  {
  }

  lemma LoggedStep(s: Manager, step: Step, admitted: seq<Entry>, answered: seq<Entry>, finished: seq<Entry>)
    requires Inv(s) && Logged(s, admitted, answered, finished)
    ensures var o := Next(s, step);
            Logged(o.after, admitted + o.admitted, answered + o.answered, finished + o.finished)
  {
    hide Next, Inv;
    SeparateOwners(s);
    var o := Next(s, step);
    WindowStep(s, step);
    LabelledStep(s, step, admitted);
    NodesConcat(admitted, o.admitted);
    NodesConcat(answered, o.answered);
    NodesConcat(finished, o.finished);
    Regroup(Nodes(answered), Unanswered(s), Nodes(o.admitted), Nodes(o.answered), Unanswered(o.after));
    Regroup(Nodes(finished), Unfinished(s), Nodes(o.admitted), Nodes(o.finished), Unfinished(o.after));
    OutputsAreHeads(s, step);
    LeavesInOrder(s, admitted, answered, Unanswered(s), o.answered);
    LeavesInOrder(s, admitted, finished, Unfinished(s), o.finished);
  }

  lemma OutputsAreHeads(s: Manager, step: Step)
    requires s.Indexed()
    ensures var o := Next(s, step);
            && (o.answered == [] || (Unanswered(s) != [] && o.answered == EntryOf(s, Unanswered(s)[0])))
            && (o.finished == [] || (Unfinished(s) != [] && o.finished == EntryOf(s, Unfinished(s)[0])))
  {
    hide Queue, Full, Empty;
    if Enabled(s, step) {
      match step
      case Respond(_, _) => assert Unanswered(s)[0] == s.receiver.n;
      case Delete => assert Unfinished(s)[0] == s.receiver.n;
      case _ =>
    }
  }

  lemma LoggedInit(size: nat)
    requires 1 <= size
    ensures Logged(Init(size), [], [], [])
  {
  }

  /** Exactly once and in order: the answers are a prefix of the admissions, entry by entry;
      what is missing from them is the request being served, then the pool. */
  lemma {:induction false} AnsweredInOrder(r: Run, k: nat)
    requires r.Valid() && k <= |r.steps|
    ensures Logged(r.State(k), r.Admitted(k), r.Answered(k), r.Finished(k))
  {
    hide Next, Inv, Logged;
    if k == 0 {
      LoggedInit(r.size);
    } else {
      AnsweredInOrder(r, k - 1);
      RunInvariant(r, k - 1);
      LoggedStep(r.State(k - 1), r.steps[k - 1], r.Admitted(k - 1), r.Answered(k - 1), r.Finished(k - 1));
    }
  }

  ghost predicate AnswersOldest(s: Manager, step: Step, o: Outcome, admitted: seq<Entry>, answered: seq<Entry>) {
    if step.Respond? && Enabled(s, step)
    then |answered| < |admitted|
      && o.answered == [admitted[|answered|]]
      && var c := admitted[|answered|].counter;
      && o.sent == [Response(c, step.reply, step.beyond)]
      && ('\0' !in c ==> (o.sent == [Message(c, step.reply)] <==> |c| <= 55))
    else o.answered == []
  }

  lemma AnswerStep(s: Manager, step: Step, admitted: seq<Entry>, answered: seq<Entry>)
    requires s.Indexed() && Separate(s) && Labelled(s, admitted) && Nodes(admitted) == Nodes(answered) + Unanswered(s)
    ensures AnswersOldest(s, step, Next(s, step), admitted, answered)
  {
    hide Queue, Labelled, Response, Message;
    if step.Respond? && Enabled(s, step) {
      assert Unanswered(s)[0] == s.receiver.n;
      assert |Nodes(admitted)| == |answered| + |Unanswered(s)|;
      EntryInWindow(admitted, answered, Unanswered(s), |answered|);
      LabelOf(s, admitted, |answered|);
      var c := admitted[|answered|].counter;
      if '\0' !in c {
        ResponseIsMessageIff(c, step.reply, step.beyond);
      }
    }
  }

  lemma LabelOf(s: Manager, log: seq<Entry>, m: nat)
    requires Labelled(s, log) && m < |log| && log[m].n in s.nodes
    ensures s.nodes[log[m].n].counter == log[m].counter
  {
  }

  /** The receiver's answer is one message, headed by the counter the request was admitted
      with if and only if that has at most 55 characters, and no other step answers. */
  lemma OneResponsePerAnswer(r: Run, k: nat)
    requires r.Valid() && k < |r.steps|
    ensures AnswersOldest(r.State(k), r.steps[k], r.Out(k), r.Admitted(k), r.Answered(k))
  {
    hide Next, Inv, AnswersOldest;
    RunInvariant(r, k);
    SeparateOwners(r.State(k));
    AnsweredInOrder(r, k);
    AnswerStep(r.State(k), r.steps[k], r.Admitted(k), r.Answered(k));
  }

  /** The unfinished requests are owned nodes, one after the other: the chain without a node
      already removed from the table and without the pusher's. */
  lemma UnfinishedInChain(s: Manager, x: nat)
    requires s.Indexed() && x < |Unfinished(s)|
    ensures var c, d := Chain(s), if s.receiver.Unlisted? then 1 else 0;
            && x + d + |PusherPart(s)| < |c| && c[x + d] == Unfinished(s)[x]
            && (d == 1 ==> c[0] == s.receiver.n)
            && (PusherPart(s) != [] ==> c[|c| - 1] == s.pusher.n)
  {
    hide Queue;
  }

  lemma UnfinishedIncreases(s: Manager, x: nat, y: nat)
    requires Owned(s) && x < y < |Unfinished(s)|
    ensures Unfinished(s)[x] < Unfinished(s)[y]
  {
    hide Chain, Unfinished, Elements;
    UnfinishedInChain(s, x);
    UnfinishedInChain(s, y);
  }

  lemma UnfinishedIsListed(s: Manager, x: nat)
    requires Owned(s) && x < |Unfinished(s)|
    ensures Listed(s, Unfinished(s)[x])
  {
    hide Chain, Unfinished;
    UnfinishedInChain(s, x);
    var c, n := Chain(s), Unfinished(s)[x];
    assert n in Elements(c);
  }

  /** Two unfinished requests are different nodes with different counters. */
  lemma UnfinishedDiffer(s: Manager, x: nat, y: nat)
    requires Inv(s) && x < y < |Unfinished(s)|
    ensures var n, m := Unfinished(s)[x], Unfinished(s)[y];
            n in s.nodes && m in s.nodes && s.nodes[n].counter != s.nodes[m].counter
  {
    UnfinishedIsListed(s, x);
    UnfinishedIsListed(s, y);
    UnfinishedIncreases(s, x, y);
  }

  lemma EntryInWindow(admitted: seq<Entry>, left: seq<Entry>, window: seq<nat>, x: nat)
    requires Nodes(admitted) == Nodes(left) + window && |left| <= x < |admitted|
    ensures x - |left| < |window| && admitted[x].n == window[x - |left|]
  {
    assert Nodes(admitted)[x] == admitted[x].n;
  }

  lemma SameCounterMeansFinished(s: Manager, admitted: seq<Entry>, finished: seq<Entry>, a: nat, b: nat)
    requires Inv(s) && Labelled(s, admitted) && Nodes(admitted) == Nodes(finished) + Unfinished(s)
    requires a < b < |admitted| && admitted[a].counter == admitted[b].counter
    ensures a < |finished|
  {
    hide Inv, Unfinished;
    SeparateOwners(s);
    if a >= |finished| {
      EntryInWindow(admitted, finished, Unfinished(s), a);
      EntryInWindow(admitted, finished, Unfinished(s), b);
      UnfinishedDiffer(s, a - |finished|, b - |finished|);
    }
  }

  lemma AnsweredBeforeFinished(s: Manager, admitted: seq<Entry>, answered: seq<Entry>, finished: seq<Entry>)
    requires s.Indexed() && Logged(s, admitted, answered, finished)
    ensures |finished| <= |answered|
  {
  }

  /** A counter still outstanding is never admitted again: of two admissions with the same
      counter, the first was answered and removed from the table before. */
  lemma NeverTwiceWhileOutstanding(r: Run, k: nat, a: nat, b: nat)
    requires r.Valid() && k <= |r.steps| && a < b < |r.Admitted(k)|
    requires r.Admitted(k)[a].counter == r.Admitted(k)[b].counter
    ensures a < |r.Finished(k)| && r.Finished(k)[a] == r.Admitted(k)[a]
    ensures a < |r.Answered(k)| && r.Answered(k)[a] == r.Admitted(k)[a]
  {
    hide Next, Inv;
    var s, admitted, answered, finished := r.State(k), r.Admitted(k), r.Answered(k), r.Finished(k);
    AnsweredInOrder(r, k);
    RunInvariant(r, k);
    SameCounterMeansFinished(s, admitted, finished, a, b);
    AnsweredBeforeFinished(s, admitted, answered, finished);
  }

  /** Each node is admitted at most once. */
  lemma {:induction false} AdmittedOnce(r: Run, k: nat)
    requires r.Valid() && k <= |r.steps|
    ensures Increasing(Nodes(r.Admitted(k)) + PusherPart(r.State(k)))
  {
    hide Next, Inv;
    if k > 0 {
      AdmittedOnce(r, k - 1);
      RunInvariant(r, k - 1);
      AnsweredInOrder(r, k - 1);
      AdmittedOnceStep(r.State(k - 1), r.steps[k - 1], r.Admitted(k - 1));
    }
  }

  /** The pusher's node either stays, moves to the log, is let go, or is a fresh one. */
  lemma PusherPartStep(s: Manager, step: Step)
    requires s.Indexed() && Separate(s)
    ensures var o := Next(s, step);
            || (Nodes(o.admitted) + PusherPart(o.after) == PusherPart(s))
            || (o.admitted == [] && PusherPart(o.after) == [])
            || (o.admitted == [] && PusherPart(s) == [] && PusherPart(o.after) == [s.next])
  {
    if Enabled(s, step) && step.Offer? && !Full(s.pi, s.pj, |s.pool|) {
      assert Nodes(EntryOf(s, s.pusher.n)) == [s.pusher.n];
    }
  }

  lemma StaysIncreasing(log: seq<nat>, part: seq<nat>, more: seq<nat>, part': seq<nat>, next: nat)
    requires Increasing(log + part) && forall x :: 0 <= x < |log| ==> log[x] < next
    requires more + part' == part || (more == [] && part' == []) || (more == [] && part == [] && part' == [next])
    ensures Increasing((log + more) + part')
  {
    if more + part' == part {
      assert (log + more) + part' == log + part;
    } else if part' == [] {
      assert (log + more) + part' == log;
      assert forall x :: 0 <= x < |log| ==> log[x] == (log + part)[x];
    } else {
      assert (log + more) + part' == log + [next];
      assert log + part == log;
    }
  }

  lemma AdmittedOnceStep(s: Manager, step: Step, admitted: seq<Entry>)
    requires Inv(s) && Labelled(s, admitted) && Increasing(Nodes(admitted) + PusherPart(s))
    ensures Increasing(Nodes(admitted + Next(s, step).admitted) + PusherPart(Next(s, step).after))
  {
    hide Next, Inv;
    SeparateOwners(s);
    var o := Next(s, step);
    NodesConcat(admitted, o.admitted);
    PusherPartStep(s, step);
    assert o.admitted == [] ==> Nodes(o.admitted) == [];
    StaysIncreasing(Nodes(admitted), PusherPart(s), Nodes(o.admitted), PusherPart(o.after), s.next);
  }

  /** The pool never holds more than size - 1 nodes; an offer is rejected exactly then. */
  lemma PoolBound(r: Run, k: nat)
    requires r.Valid() && k <= |r.steps|
    ensures |r.State(k).Waiting()| <= r.size - 1
    ensures k < |r.steps| && r.steps[k].Offer? && r.State(k).pusher.Inserted? ==>
              (r.State(k + 1).pusher.Rejecting? <==> |r.State(k).Waiting()| == r.size - 1)
  {
    assert Used(r.State(k).pi, r.State(k).pj, r.size) <= r.size - 1;
  }

  /** In every reachable state: the table lists exactly the nodes inserted and not yet
      deleted, under distinct counters; only owned nodes are allocated; nothing was touched
      after its free; an ACK that holds the table lock holds a live, listed node. */
  lemma TableAndPoolOwnership(r: Run, k: nat)
    requires r.Valid() && k <= |r.steps|
    ensures var s := r.State(k);
            && (forall n :: Listed(s, n) <==> n in s.table.Values)
            && (forall c :: c in s.table ==> s.table[c] in s.nodes && s.nodes[s.table[c]].counter == c)
            && s.nodes.Keys == Elements(ReceiverPart(s) + s.Waiting() + PusherPart(s))
            && !s.fault
            && (s.pusher.AckHolding? ==> s.pusher.n in s.nodes && Listed(s, s.pusher.n))
  {
    RunInvariant(r, k);
  }

  // ----- which payload is served -----

  /** The request node that a step creates, under its number. */
  function Creates(s: Manager, step: Step): (made: map<nat, Node>)
    requires s.Indexed()
  {
    if step.Push? && step.request.Request? && Next(s, step).after.next > s.next
    then map[s.next := step.request.node] else map[]
  }

  /** The node to which a step applies an ACK. */
  function Acks(s: Manager, step: Step): (acked: set<nat>) {
    if step.Update? && Enabled(s, step) then {s.pusher.n} else {}
  }

  /** Every request node created so far, as it came. */
  function CreatedSoFar(r: Run, k: nat): (made: map<nat, Node>)
    requires r.Valid() && k <= |r.steps|
  {
    if k == 0 then map[] else CreatedSoFar(r, k - 1) + Creates(r.State(k - 1), r.steps[k - 1])
  }

  /** The nodes an ACK was applied to so far. */
  function AckedSoFar(r: Run, k: nat): (acked: set<nat>)
    requires r.Valid() && k <= |r.steps|
  {
    if k == 0 then {} else AckedSoFar(r, k - 1) + Acks(r.State(k - 1), r.steps[k - 1])
  }

  /** Each node is as it came, but for a payload an ACK wrote over. */
  ghost predicate AsItCame(s: Manager, made: map<nat, Node>, acked: set<nat>) {
    && (forall n :: n in acked ==> n < s.next)
    && forall n :: n in s.nodes ==>
         n in made && s.nodes[n] == if n in acked then made[n].(buffer := "ack") else made[n]
  }

  lemma NodeStep(s: Manager, step: Step, n: nat)
    requires s.Indexed() && n in Next(s, step).after.nodes
    ensures var o, made := Next(s, step), Creates(s, step);
            if n in made then n == s.next && o.after.nodes[n] == made[n] && Acks(s, step) == {}
            else n in s.nodes && o.after.nodes[n] ==
                 if n in Acks(s, step) then s.nodes[n].(buffer := "ack") else s.nodes[n]
  {
    if Enabled(s, step) {
      match step
      case Push(_, _) =>
      case Add(_) =>
      case Offer =>
      case Unregister =>
      case Drop =>
      case Update =>
      case Dequeue =>
      case Lock =>
      case Respond(_, _) =>
      case Delete =>
      case Dispose =>
    }
  }

  lemma AckedIsOld(s: Manager, step: Step)
    requires Inv(s)
    ensures Next(s, step).after.next >= s.next && forall n :: n in Acks(s, step) ==> n < s.next
  {
    hide Next, Inv;
    SeparateOwners(s);
    AdmissionStep(s, step);
    if step.Update? && Enabled(s, step) {
      AckTouchesLiveNode(s);
    }
  }

  lemma AsItCameStep(s: Manager, step: Step, made: map<nat, Node>, acked: set<nat>)
    requires Inv(s) && AsItCame(s, made, acked)
    ensures AsItCame(Next(s, step).after, made + Creates(s, step), acked + Acks(s, step))
  {
    hide Next, Inv, Creates, Acks;
    SeparateOwners(s);
    AckedIsOld(s, step);
    var s' := Next(s, step).after;
    forall n | n in s'.nodes
      ensures var made', acked' := made + Creates(s, step), acked + Acks(s, step);
              n in made' && s'.nodes[n] == if n in acked' then made'[n].(buffer := "ack") else made'[n]
    {
      NodeStep(s, step, n);
    }
  }

  lemma {:induction false} NodesAreAsTheyCame(r: Run, k: nat)
    requires r.Valid() && k <= |r.steps|
    ensures AsItCame(r.State(k), CreatedSoFar(r, k), AckedSoFar(r, k))
  {
    hide Next, Inv, AsItCame, Creates, Acks;
    if k == 0 {
      NothingCame(r.size);
    } else {
      NodesAreAsTheyCame(r, k - 1);
      RunInvariant(r, k - 1);
      AsItCameStep(r.State(k - 1), r.steps[k - 1], CreatedSoFar(r, k - 1), AckedSoFar(r, k - 1));
    }
  }

  lemma NothingCame(size: nat)
    ensures AsItCame(Init(size), map[], {})
  {
  }

  /** The payload's text is served as it came with the request if and only if no ACK of it was
      applied while it waited, or the text was that of an ACK anyway. */
  lemma PayloadServedIff(r: Run, k: nat)
    requires r.Valid() && k < |r.steps| && r.steps[k].Respond? && Enabled(r.State(k), r.steps[k])
    ensures var s, n, made := r.State(k), r.State(k).receiver.n, CreatedSoFar(r, k);
            && n in s.nodes && n in made
            && (s.nodes[n].buffer == made[n].buffer <==> n !in AckedSoFar(r, k) || made[n].buffer == "ack")
  {
    hide Next, Inv, Creates, Acks;
    RunInvariant(r, k);
    SeparateOwners(r.State(k));
    NodesAreAsTheyCame(r, k);
  }

  // ----- what becomes of a message -----

  /** An ACK reaches the outstanding request with its counter, and only that one: the pusher
      waits for that node, or nothing happens when there is none. */
  lemma AckReachesItsNode(r: Run, k: nat, counter: string)
    requires r.Valid() && k < |r.steps| && ' ' !in counter && r.State(k).pusher.PIdle?
    requires r.steps[k].Push? && r.steps[k].request == Parse(counter + " " + "ack")
    ensures var s, s' := r.State(k), r.State(k + 1);
            && (forall n :: Listed(s, n) && s.nodes[n].counter == counter ==> s' == s.(pusher := AckHolding(n)))
            && ((forall n :: Listed(s, n) ==> s.nodes[n].counter != counter) ==> s' == s)
            && r.Out(k).sent == []
  {
    hide Parse, Owned;
    ParseAck(counter);
    RunInvariant(r, k);
  }

  /** A rendered request becomes a node with its parts, unless its target refuses the
      connection: then an error goes back under its counter, and nothing else happens. */
  lemma RequestBecomesNode(r: Run, k: nat, node: Node)
    requires r.Valid() && k < |r.steps| && ' ' !in node.counter && ' ' !in node.target && r.State(k).pusher.PIdle?
    requires r.steps[k].Push?
    requires r.steps[k].request == Parse(node.counter + " " + node.target + " " + node.buffer)
    ensures var s, s', refusal := r.State(k), r.State(k + 1), r.steps[k].refusal;
            if node.target == "agent" || refusal.None?
            then && s' == s.(nodes := s.nodes[s.next := node], next := s.next + 1, pusher := Created(s.next))
                 && s.next !in s.nodes && r.Out(k).sent == []
            else s' == s && r.Out(k).sent == [ErrorMessage(node.counter, "err " + refusal.value)]
  {
    hide Parse, ErrorMessage, Inv;
    ParseRequest(node);
    RunInvariant(r, k);
    SeparateOwners(r.State(k));
  }

  /** What makes the pusher drop node `n`, and the answer it will give: none for a duplicate
      counter, an error for a failed insertion and for a full pool. */
  predicate DropsFor(s: Manager, step: Step, n: nat, error: Option<string>)
    requires s.Indexed()
  {
    && n in s.nodes
    && match step
       case Add(oom) =>
         && s.pusher == Created(n)
         && if s.nodes[n].counter in s.table then error == None else oom && error == Some("err Internal error")
       case Offer =>
         s.pusher == Inserted(n) && |s.Waiting()| == |s.pool| - 1 && error == Some("err Too many requests")
       case _ => false
  }

  /** Where a pusher that rejects or drops comes from. */
  lemma DropComesFrom(s: Manager, step: Step)
    requires s.Indexed() && Separate(s)
    ensures var p := Next(s, step).after.pusher;
            && (p.Rejecting? ==> p == s.pusher || DropsFor(s, step, p.n, Some("err Too many requests")))
            && (p.Dropping? ==>
                  || p == s.pusher || DropsFor(s, step, p.n, p.error)
                  || (s.pusher == Rejecting(p.n) && p.error == Some("err Too many requests")))
  {
    hide Queue;
    if Enabled(s, step) {
      match step
      case Push(_, _) =>
      case Add(_) =>
      case Offer =>
      case Unregister =>
      case Drop =>
      case Update =>
      case Dequeue =>
      case Lock =>
      case Respond(_, _) =>
      case Delete =>
      case Dispose =>
    }
  }

  /** The answer a pusher owes for the node it lets go. */
  function Owes(p: Pusher): (error: Option<string>) {
    if p.Dropping? then p.error else Some("err Too many requests")
  }

  lemma {:induction false} DropReason(r: Run, k: nat) returns (a: nat)
    requires r.Valid() && k <= |r.steps| && (r.State(k).pusher.Rejecting? || r.State(k).pusher.Dropping?)
    ensures var n := r.State(k).pusher.n;
            && a < k && DropsFor(r.State(a), r.steps[a], n, Owes(r.State(k).pusher))
            && n in r.State(k).nodes && r.State(a).nodes[n].counter == r.State(k).nodes[n].counter
    decreases k
  {
    hide Next, Inv, DropsFor;
    RunInvariant(r, k);
    SeparateOwners(r.State(k));
    var s, step, n := r.State(k - 1), r.steps[k - 1], r.State(k).pusher.n;
    RunInvariant(r, k - 1);
    SeparateOwners(s);
    DropComesFrom(s, step);
    DropperIsOld(s, step, n, Owes(r.State(k).pusher));
    CountersAreStable(s, step, n);
    if DropsFor(s, step, n, Owes(r.State(k).pusher)) {
      a := k - 1;
    } else {
      a := DropReason(r, k - 1);
    }
  }

  lemma DropperIsOld(s: Manager, step: Step, n: nat, error: Option<string>)
    requires s.Indexed() && Separate(s) && Fresh(s)
    requires DropsFor(s, step, n, error) || (PusherPart(s) == [n])
    ensures n < s.next
  {
    assert PusherPart(s) == [n] ==> s.pusher.n == n;
  }

  /** A node that is let go without being admitted was a duplicate, failed to be inserted or
      found the pool full, and exactly in the last two cases one error is sent, under its
      counter. */
  lemma DroppedNodeIsAnswered(r: Run, k: nat) returns (a: nat)
    requires r.Valid() && k < |r.steps| && r.steps[k].Drop? && r.State(k).pusher.Dropping?
    ensures var s, n, error := r.State(k), r.State(k).pusher.n, r.State(k).pusher.error;
            && a < k && DropsFor(r.State(a), r.steps[a], n, error)
            && n in s.nodes && n !in r.State(k + 1).nodes
            && r.Out(k).sent ==
               if error.None? then [] else [ErrorMessage(r.State(a).nodes[n].counter, error.value)]
  {
    hide Inv, ErrorMessage, DropsFor;
    a := DropReason(r, k);
  }

  /** While a request is being served its node does not change. */
  lemma ServedNodeIsStable(r: Run, k: nat, n: nat)
    requires r.Valid() && k < |r.steps|
    requires r.State(k).receiver == Processing(n) && r.State(k + 1).receiver == Processing(n)
    ensures n in r.State(k).nodes && n in r.State(k + 1).nodes && r.State(k + 1).nodes[n] == r.State(k).nodes[n]
  {
    hide Next, Inv;
    RunInvariant(r, k);
    RunInvariant(r, k + 1);
    SeparateOwners(r.State(k));
    SeparateOwners(r.State(k + 1));
    NodeStep(r.State(k), r.steps[k], n);
  }

  // ----- progress -----

  function PusherWork(p: Pusher): (w: nat) {
    match p
    case PIdle => 0
    case Created(_) => 10
    case Inserted(_) => 9
    case Rejecting(_) => 2
    case Dropping(_, _) => 1
    case AckHolding(_) => 1
  }

  function ReceiverWork(r: Receiver): (w: nat) {
    match r
    case RIdle => 0
    case Taken(_) => 5
    case Processing(_) => 4
    case Answered(_) => 3
    case Unlisted(_) => 2
  }

  /** Steps still to be taken, at most, for what is in the system. */
  function Work(s: Manager): (w: nat)
    requires s.Indexed()
  {
    PusherWork(s.pusher) + 6 * Used(s.pi, s.pj, |s.pool|) + ReceiverWork(s.receiver)
  }

  lemma PusherStepWork(s: Manager, step: Step)
    requires s.Indexed() && Separate(s) && Enabled(s, step)
    requires step.Add? || step.Offer? || step.Unregister? || step.Drop? || step.Update?
    ensures Work(Next(s, step).after) < Work(s)
  {
    var s' := Next(s, step).after;
    assert s'.receiver == s.receiver && s'.pj == s.pj;
    assert step.Offer? || s'.pi == s.pi;
  }

  lemma ReceiverStepWork(s: Manager, step: Step)
    requires s.Indexed() && Enabled(s, step)
    requires step.Dequeue? || step.Lock? || step.Respond? || step.Delete? || step.Dispose?
    ensures Work(Next(s, step).after) < Work(s)
  {
    var s' := Next(s, step).after;
    assert s'.pusher == s.pusher && s'.pi == s.pi;
    assert step.Dequeue? || s'.pj == s.pj;
  }

  /** Without new messages every step makes progress... */
  lemma StepsDecreaseWork(s: Manager, step: Step)
    requires Inv(s) && Enabled(s, step) && !step.Push?
    ensures Work(Next(s, step).after) < Work(s)
  {
    hide Next, Inv;
    SeparateOwners(s);
    if step.Dequeue? || step.Lock? || step.Respond? || step.Delete? || step.Dispose? {
      ReceiverStepWork(s, step);
    } else {
      PusherStepWork(s, step);
    }
  }

  /** Only new messages can be taken in. */
  ghost predicate Settled(s: Manager) {
    forall step :: Enabled(s, step) ==> step.Push?
  }

  /** The threads never block each other: one can step unless both are idle. */
  lemma NoDeadlock(s: Manager)
    requires s.Indexed() && Settled(s)
    ensures s.pusher.PIdle? && s.receiver.RIdle? && Empty(s.pi, s.pj)
  {
    assert !Enabled(s, Add(false)) && !Enabled(s, Offer) && !Enabled(s, Unregister) && !Enabled(s, Drop);
    assert !Enabled(s, Update) && !Enabled(s, Respond("", "")) && !Enabled(s, Lock) && !Enabled(s, Delete);
    assert !Enabled(s, Dequeue) && !Enabled(s, Dispose);
  }

  /** Each step is one of the threads' own, and enabled when it comes. */
  ghost predicate Busy(s: Manager, steps: seq<Step>)
    requires s.Indexed()
    decreases |steps|
  {
    steps == [] ||
    (Enabled(s, steps[0]) && !steps[0].Push? && Busy(Next(s, steps[0]).after, steps[1..]))
  }

  function After(s: Manager, steps: seq<Step>): (s': Manager)
    requires s.Indexed()
    ensures s'.Indexed()
    decreases |steps|
  {
    if steps == [] then s else After(Next(s, steps[0]).after, steps[1..])
  }

  /** Some way on to a settled state. */
  lemma {:induction false} SomeWayOn(s: Manager) returns (steps: seq<Step>)
    requires Inv(s)
    ensures Busy(s, steps) && |steps| <= Work(s) && Settled(After(s, steps))
    decreases Work(s)
  {
    hide Next, Inv, Enabled, Work;
    SeparateOwners(s);
    if Settled(s) {
      steps := [];
    } else {
      var step :| Enabled(s, step) && !step.Push?;
      StepsDecreaseWork(s, step);
      StepKeepsInv(s, step);
      var rest := SomeWayOn(Next(s, step).after);
      steps := [step] + rest;
      assert steps[1..] == rest;
    }
  }

  /** Without new messages the manager settles: however its threads have been scheduled from a
      reachable state, they have taken at most Work(s) steps, and they can go on, within that
      bound, to a state where both are idle and only a new message can be taken in. */
  lemma {:induction false} SettlesWithinWork(s: Manager, steps: seq<Step>)
    requires Inv(s) && Busy(s, steps)
    ensures |steps| <= Work(s) && (|steps| == Work(s) ==> Settled(After(s, steps)))
    ensures exists more :: && Busy(s, steps + more) && |steps + more| <= Work(s)
                           && Settled(After(s, steps + more))
    decreases |steps|
  {
    hide Next, Inv, Enabled, Work;
    SeparateOwners(s);
    if steps == [] {
      var more := SomeWayOn(s);
      assert [] + more == more;
      assert |more| == 0 ==> more == [];
    } else {
      var s' := Next(s, steps[0]).after;
      StepsDecreaseWork(s, steps[0]);
      StepKeepsInv(s, steps[0]);
      SettlesWithinWork(s', steps[1..]);
      var more :| && Busy(s', steps[1..] + more) && |steps[1..] + more| <= Work(s')
                  && Settled(After(s', steps[1..] + more));
      assert (steps + more)[1..] == steps[1..] + more && (steps + more)[0] == steps[0];
    }
  }

  lemma NothingLeft(s: Manager)
    requires Inv(s) && s.pusher.PIdle? && s.receiver.RIdle? && Empty(s.pi, s.pj)
    ensures s.table == map[] && s.nodes == map[] && Unanswered(s) == [] && Unfinished(s) == []
  {
  }

  /** ...so once no new message comes, the manager settles with everything admitted answered,
      the table empty and no node left allocated. */
  lemma Quiescence(r: Run, k: nat)
    requires r.Valid() && k <= |r.steps|
    requires Settled(r.State(k))
    ensures r.Answered(k) == r.Admitted(k) && r.Finished(k) == r.Admitted(k)
    ensures r.State(k).table == map[] && r.State(k).nodes == map[]
  {
    hide Next, Inv;
    RunInvariant(r, k);
    NoDeadlock(r.State(k));
    NothingLeft(r.State(k));
    AnsweredInOrder(r, k);
    assert |Nodes(r.Admitted(k))| == |Nodes(r.Answered(k))| == |Nodes(r.Finished(k))|;
  }
}
