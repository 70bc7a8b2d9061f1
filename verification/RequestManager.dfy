/** The request manager as the program holds it: the table, the pool array and its indices,
    changed in place, one method per mutex section. Each method is a step of Requests. */
module RequestManager {
  import opened Options
  import opened Ring
  import opened Requests
  import opened Text

  lemma LockAndRespond(s: Manager, reply: string, beyond: string)
    requires Inv(s) && s.receiver.Taken?
    ensures s.Indexed() && s.receiver.n in s.nodes
    ensures Next(Next(s, Lock).after, Respond(reply, beyond)).after == s.(receiver := Answered(s.receiver.n))
    ensures Inv(s.(receiver := Answered(s.receiver.n)))
  {
    hide Inv;
    SeparateOwners(s);
    StepKeepsInv(s, Lock);
    StepKeepsInv(Next(s, Lock).after, Respond(reply, beyond));
  }

  class RequestManager {
    var table: map<string, nat>
    var pool: array<nat>
    var poolI: nat
    var poolJ: nat
    var nodes: map<nat, Node>
    var next: nat
    var pusher: Pusher
    var receiver: Receiver
    var fault: bool

    ghost function View(): (s: Manager)
      reads this, pool
    {
      Manager(table, pool[..], poolI, poolJ, nodes, next, pusher, receiver, fault)
    }

    ghost predicate Valid()
      reads this, pool
    {
      Inv(View())
    }

    /** req_init: `requestPool` slots, nothing outstanding. */
    constructor (requestPool: nat)
      requires 1 <= requestPool
      ensures Valid() && fresh(pool) && pool.Length == requestPool
      ensures poolI == poolJ == 0 && table == map[] && nodes == map[] && pusher.PIdle? && receiver.RIdle?
    {
      table, nodes, next, fault := map[], map[], 0, false;
      pool := new nat[requestPool](_ => 0);
      poolI, poolJ, pusher, receiver := 0, 0, PIdle, RIdle;
    }

    /** req_push up to the node's creation, or up to the ACK's wait for the node. */
    method Push(buffer: string, refusal: Option<string>) returns (sent: seq<string>)
      requires Valid() && pusher.PIdle?
      modifies this
      ensures var o := Next(old(View()), Step.Push(Parse(buffer), refusal)); View() == o.after && sent == o.sent
      ensures Valid() && pool == old(pool)
    {
      hide Inv;
      StepKeepsInv(View(), Step.Push(Parse(buffer), refusal));
      sent := [];
      match Parse(buffer) {
        case BadTarget =>
        case BadPayload =>
        case Ack(counter) =>
          if counter in table {
            pusher := AckHolding(table[counter]);
          }
        case Request(node) =>
          if node.target != "agent" && refusal.Some? {
            sent := [ErrorMessage(node.counter, "err " + refusal.value)];
          } else {
            nodes, pusher, next := nodes[next := node], Created(next), next + 1;
          }
      }
    }

    /** The table section of an insertion. */
    method AddToTable(oom: bool)
      requires Valid() && pusher.Created?
      modifies this
      ensures View() == Next(old(View()), Add(oom)).after
      ensures Valid() && pool == old(pool)
    {
      hide Inv;
      SeparateOwners(View());
      StepKeepsInv(View(), Add(oom));
      var n := pusher.n;
      if nodes[n].counter in table {
        pusher := Dropping(n, None);
      } else if oom {
        pusher := Dropping(n, Some("err Internal error"));
      } else {
        table := table[nodes[n].counter := n];
        pusher := Inserted(n);
      }
    }

    /** The pool section of req_push. */
    method OfferToPool()
      requires Valid() && pusher.Inserted?
      modifies this, pool
      ensures View() == Next(old(View()), Offer).after
      ensures Valid() && pool == old(pool)
    {
      hide Inv;
      SeparateOwners(View());
      StepKeepsInv(View(), Offer);
      MacroForms(poolI, poolJ, pool.Length);
      if (poolI + 1) % pool.Length == poolJ {
        pusher := Rejecting(pusher.n);
      } else {
        pool[poolI] := pusher.n;
        poolI := (poolI + 1) % pool.Length;
        pusher := PIdle;
      }
    }

    /** A rejected node leaves the table. */
    method UnregisterRejected()
      requires Valid() && pusher.Rejecting?
      modifies this
      ensures View() == Next(old(View()), Unregister).after
      ensures Valid() && pool == old(pool)
    {
      hide Inv;
      SeparateOwners(View());
      StepKeepsInv(View(), Unregister);
      table := table - {nodes[pusher.n].counter};
      pusher := Dropping(pusher.n, Some("err Too many requests"));
    }

    /** A duplicate, a failed insertion or a rejected node: the error, if any, then the free. */
    method DropNode() returns (sent: seq<string>)
      requires Valid() && pusher.Dropping?
      modifies this
      ensures View() == Next(old(View()), Drop).after && sent == Next(old(View()), Drop).sent
      ensures Valid() && pool == old(pool)
    {
      hide Inv;
      SeparateOwners(View());
      StepKeepsInv(View(), Drop);
      var n, error := pusher.n, pusher.error;
      sent := if error.Some? then [ErrorMessage(nodes[n].counter, error.value)] else [];
      nodes := nodes - {n};
      pusher := PIdle;
    }

    /** req_update, once the node's mutex is free; the table lock is released with it. */
    method UpdateAcked()
      requires Valid() && pusher.AckHolding? && receiver != Processing(pusher.n)
      modifies this
      ensures View() == Next(old(View()), Update).after
      ensures Valid() && pool == old(pool)
    {
      hide Inv;
      SeparateOwners(View());
      AckTouchesLiveNode(View());
      StepKeepsInv(View(), Update);
      nodes := nodes[pusher.n := nodes[pusher.n].(buffer := "ack")];
      pusher := PIdle;
    }

    /** The receiver's pool section, once the pool is not empty. */
    method TakeFromPool()
      requires Valid() && receiver.RIdle? && !Empty(poolI, poolJ)
      modifies this
      ensures View() == Next(old(View()), Dequeue).after
      ensures Valid() && pool == old(pool)
    {
      hide Inv;
      SeparateOwners(View());
      StepKeepsInv(View(), Dequeue);
      MacroForms(poolJ, poolI, pool.Length);
      receiver := Taken(pool[poolJ]);
      poolJ := (poolJ + 1) % pool.Length;
    }

    /** Answer under the node's mutex: `length` characters of `buffer` are the reply, or an
        error when there are none. The message is rebuilt in the reply's buffer. */
    method Answer(buffer: array<char>, length: int, beyond: string) returns (out: array<char>, sent: seq<string>)
      requires Valid() && receiver.Taken? && length <= buffer.Length
      modifies this
      ensures var counter, reply := old(nodes[receiver.n].counter), buffer[..if length < 0 then 0 else length];
              && View() == Next(Next(old(View()), Lock).after, Respond(reply, beyond)).after
              && out[..] == Response(counter, reply, beyond) + ['\0']
              && sent == [Response(counter, reply, beyond)]
      ensures Valid() && pool == old(pool)
    {
      hide Inv, Copied, Heading, Next;
      var reply := buffer[..if length < 0 then 0 else length];
      LockAndRespond(View(), reply, beyond);
      var text, size := buffer, length;
      if length <= 0 {
        text := new char[][ 'e', 'r', 'r', ' ', 'D', 'i', 's', 'c', 'o', 'n', 'n', 'e', 'c', 't', 'e', 'd' ];
        size := text.Length;
        assert text[..size] == "err Disconnected";
      }
      out := BuildResponse(text, size, nodes[receiver.n].counter, beyond);
      assert out[..] == Response(nodes[receiver.n].counter, reply, beyond) + ['\0'];
      sent := [out[..out.Length - 1]];
      assert sent[0] == out[..][..|out[..]| - 1];
      receiver := Answered(receiver.n);
    }

    /** Remove the answered node from the table, then free it. */
    method Retire()
      requires Valid() && receiver.Answered? && !pusher.AckHolding?
      modifies this
      ensures View() == Next(Next(old(View()), Delete).after, Dispose).after
      ensures Valid() && pool == old(pool)
    {
      hide Inv;
      SeparateOwners(View());
      StepKeepsInv(View(), Delete);
      StepKeepsInv(Next(View(), Delete).after, Dispose);
      var n := receiver.n;
      table := table - {nodes[n].counter};
      nodes := nodes - {n};
      receiver := RIdle;
    }
  }

  /** memmove of the first `length` characters up by `shift`, from the end since they overlap. */
  method MoveUp(a: array<char>, length: nat, shift: nat)
    requires length + shift <= a.Length
    modifies a
    ensures forall m :: 0 <= m < length ==> a[shift + m] == old(a[m])
  {
    var k := length;
    while k > 0
      invariant 0 <= k <= length
      invariant forall m :: 0 <= m < k ==> a[m] == old(a[m])
      invariant forall m :: k <= m < length ==> a[shift + m] == old(a[m])
    {
      k := k - 1;
      a[shift + k] := a[k];
    }
  }

  /** memcpy of `n` characters of memory to the front. */
  method CopyIn(a: array<char>, memory: string, n: nat)
    requires n <= a.Length
    modifies a
    ensures forall x :: 0 <= x < n ==> a[x] == if x < |memory| then memory[x] else '\0'
    ensures forall x :: n <= x < a.Length ==> a[x] == old(a[x])
  {
    for m := 0 to n
      invariant forall x :: 0 <= x < m ==> a[x] == if x < |memory| then memory[x] else '\0'
      invariant forall x :: m <= x < a.Length ==> a[x] == old(a[x])
    {
      a[m] := if m < |memory| then memory[m] else '\0';
    }
  }

  /** The heading is printed into the response buffer; the reply buffer is grown, its text moved
      up and the heading copied in front, by the length it would have in full. */
  method BuildResponse(buffer: array<char>, length: nat, counter: string, beyond: string)
    returns (out: array<char>)
    requires length <= buffer.Length
    ensures fresh(out) && out[..] == Copied(Heading(counter), beyond) + buffer[..length] + ['\0']
  {
    hide Heading, Take;
    var heading := Heading(counter);
    var rlen, total := |heading|, length + |heading|;
    var memory := Take(heading, ROOM) + ['\0'] + beyond;
    out := new char[total + 1](k requires 0 <= k reads buffer => if k < length then buffer[k] else '\0');
    assert forall x :: 0 <= x < length ==> out[x] == buffer[x];
    MoveUp(out, length, rlen);
    CopyIn(out, memory, rlen);
    out[total] := '\0';
    Parts(out[..], Copied(heading, beyond), buffer[..length]);
  }

  lemma Parts(s: string, head: string, body: string)
    requires |s| == |head| + |body| + 1 && s[|s| - 1] == '\0'
    requires forall x :: 0 <= x < |head| ==> s[x] == head[x]
    requires forall x :: 0 <= x < |body| ==> s[|head| + x] == body[x]
    ensures s == head + body + ['\0']
  {
  }
}
