/** The buffer as the program holds it: an array of slots changed in place. Every method is
    tied to the state machine of EventBuffer, or, for the resize, to `Resized` below. */
module AgentBuffer {
  import opened Options
  import opened Ring
  import opened EventBuffer

  function Min(x: nat, y: nat): (m: nat) {
    if x < y then x else y
  }

  /** `q` in the first slots of an otherwise null ring of `n` slots. */
  function Padded(q: seq<Slot>, n: nat): (r: seq<Slot>)
    requires |q| <= n
    ensures |r| == n
    ensures forall k :: 0 <= k < n ==> r[k] == if k < |q| then q[k] else Null
  {
    q + seq(n - |q|, _ => Null)
  }

  function Ids(q: seq<Slot>): (r: set<nat>) {
    set k | 0 <= k < |q| && q[k].Data? :: q[k].block.id
  }

  /** The new ring of a resize to `desired` when the length report says `reported`. */
  function Resized(s: Buffer, reported: nat, desired: nat): (r: Buffer)
    requires s.Indexed() && 1 <= desired
  {
    var growing := desired + 1 > |s.slots|;
    var q := if growing then s.Waiting() else s.Waiting()[..Min(Min(reported, desired), s.Count())];
    s.(slots := Padded(q, desired + 1), j := 0,
       i := if growing then reported else Min(reported, desired),
       live := Ids(q))
  }

  /** The return code and new state of w_agentd_buffer_resize, which takes the length from
      the configured `buflength`. */
  function ResizeEffect(s: Buffer, enabled: bool, desired: nat): (r: (int, Buffer))
    requires s.Indexed()
  {
    var current := |s.slots| - 1;
    var reported := ReportedLength(s.i, s.j, s.buflength + 1);
    if desired == 0 then (-1, s)
    else if desired == current then (0, s)
    else if !enabled || reported > current + 1 then (-1, s)
    else (0, Resized(s, reported, desired))
  }

  /** The documented effect (agentd.h): the oldest messages survive, in order, as many as fit;
      exactly their blocks stay allocated and nothing is freed twice. */
  ghost predicate KeepsOldest(s: Buffer, s': Buffer, desired: nat)
    requires s.Indexed()
  {
    && s'.Indexed() && |s'.slots| == desired + 1
    && s'.Waiting() == s.Waiting()[..Min(s.Count(), desired)]
    && s'.live == Ids(s'.Waiting())
    && s'.doubleFree == s.doubleFree
  }

  /** When a resize is refused, with -1 and nothing changed, and when it succeeds, with 0: for the
      capacity it already has nothing changes either, for any other the ring has the new size. */
  lemma ResizeCodes(s: Buffer, enabled: bool, desired: nat)
    requires s.Sized()
    ensures var (code, s') := ResizeEffect(s, enabled, desired);
            && (code == -1 <==> desired == 0 || (desired != s.buflength && !enabled))
            && (code == 0 <==> desired != 0 && (desired == s.buflength || enabled))
            && (code == -1 || desired == s.buflength ==> s' == s)
            && (code == 0 ==> |s'.slots| == desired + 1)
  {
    ReportedLengthIsEuclidean(s.i, s.j, s.buflength + 1);
  }

  class AgentBuffer {
    const cfg: Config
    var slots: array<Slot>
    var i: nat
    var j: nat
    var buflength: nat
    var enabled: bool
    var alarm: Alarm
    var start: int
    var pc: Dispatcher
    var live: set<nat>
    var next: nat
    var doubleFree: bool

    ghost function View(): (s: Buffer)
      reads this, slots
    {
      Buffer(slots[..], i, j, buflength, alarm, start, pc, live, next, doubleFree)
    }

    constructor (c: Config, capacity: nat)
      requires c.Valid() && 1 <= capacity
      ensures cfg == c && fresh(slots) && enabled
      ensures View() == Buffer(seq(capacity + 1, _ => Null), 0, 0, capacity, NORMAL, 0, Idle, {}, 0, false)
      ensures WellFormed(View()) && View().Sized()
    {
      cfg, enabled := c, true;
      slots := new Slot[capacity + 1](_ => Null);
      i, j, buflength := 0, 0, capacity;
      alarm, start, pc := NORMAL, 0, Idle;
      live, next, doubleFree := {}, 0, false;
    }

    /** The switch of buffer_append: does the usage reach a higher level? */
    method RaiseAlarm(full: bool, used: nat, now: int) returns (raised: Option<Flag>)
      requires View().Sized() && full == Full(i, j, buflength + 1) && used == View().Count()
      modifies this`alarm, this`start
      ensures (View(), raised) == RaiseOnAppend(cfg, old(View()), now)
    {
      raised := None;
      match alarm {
        case NORMAL =>
          if full {
            raised, alarm, start := Some(FullFlag), FULL, now;
          } else if 100 * used >= cfg.warnLevel * buflength {
            alarm, raised := WARNING, Some(WarnFlag);
          }
        case WARNING =>
          if full {
            raised, alarm, start := Some(FullFlag), FULL, now;
          }
        case FULL =>
          if now - start >= cfg.tolerance {
            alarm, raised := FLOOD, Some(FloodFlag);
          }
        case FLOOD =>
      }
    }

    method Append(msg: seq<Byte>, msgLen: int, now: int) returns (code: int, raised: Option<Flag>)
      requires if msgLen < 0 then 0 in msg else msgLen <= |msg|
      requires View().Sized()
      modifies this, slots
      ensures slots == old(slots) && enabled == old(enabled)
      ensures var o := AppendStep(cfg, old(View()), Payload(msg, msgLen), now);
              View() == o.after && raised == o.raised && code == if o.accepted.Some? then 0 else -1
    {
      hide RaiseOnAppend, Payload;
      var n := buflength + 1;
      MacroForms(i, j, n);
      var full := (i + 1) % n == j;
      raised := RaiseAlarm(full, (i - j + n) % n, now);
      if full {
        code := -1;
      } else {
        slots[i] := Data(Block(next, Payload(msg, msgLen)));
        live, next := live + {next}, next + 1;
        i := (i + 1) % n;
        code := 0;
      }
    }

    /** The switch of dispatch_buffer: does the usage reach a lower level? */
    method LowerAlarm(used: nat) returns (raised: Option<Flag>)
      requires View().Sized() && used == View().Count()
      modifies this`alarm
      ensures (alarm, raised) == LowerOnTake(cfg, old(View()))
    {
      raised := None;
      match alarm {
        case NORMAL =>
        case WARNING =>
          if 100 * used <= cfg.normalLevel * buflength {
            alarm, raised := NORMAL, Some(NormalFlag);
          }
        case FULL =>
          if 100 * used <= cfg.warnLevel * buflength {
            alarm := WARNING;
          }
          if 100 * used <= cfg.normalLevel * buflength {
            alarm, raised := NORMAL, Some(NormalFlag);
          }
        case FLOOD =>
          if 100 * used <= cfg.warnLevel * buflength {
            alarm := WARNING;
          }
          if 100 * used <= cfg.normalLevel * buflength {
            alarm, raised := NORMAL, Some(NormalFlag);
          }
      }
    }

    /** The dispatcher's mutex section, once the buffer is not empty. */
    method TakeOldest() returns (raised: Option<Flag>)
      requires View().Sized() && pc.Idle? && !Empty(i, j)
      modifies this
      ensures slots == old(slots) && enabled == old(enabled)
      ensures View() == TakeStep(cfg, old(View())).after && raised == TakeStep(cfg, old(View())).raised
    {
      hide LowerOnTake;
      var n := buflength + 1;
      MacroForms(i, j, n);
      MacroForms(j, i, n);
      raised := LowerAlarm((i - j + n) % n);
      var slot := slots[j];
      pc := if slot.Data? then Holding(j, slot.block) else Idle;
      j := (j + 1) % n;
    }

    /** The rest of the dispatcher's round, outside the mutex. */
    method SendTaken() returns (sent: Block)
      requires View().Sized() && pc.Holding?
      modifies this`pc
      ensures View() == Next(cfg, old(View()), Send).after && Some(sent) == Next(cfg, old(View()), Send).sent
    {
      sent := pc.block;
      pc := Sent(pc.pos, pc.block);
    }

    method FreeTaken()
      requires View().Sized() && pc.Sent?
      modifies this`pc, this`live, this`doubleFree
      ensures View() == Next(cfg, old(View()), Free).after
    {
      FreeBlock(pc.block.id);
      pc := Freed(pc.pos);
    }

    method NullTaken()
      requires View().Sized() && pc.Freed? && pc.pos < slots.Length
      modifies this`pc, slots
      ensures View() == Next(cfg, old(View()), Clear).after
    {
      slots[pc.pos] := Null;
      pc := Idle;
    }

    method FreeBlock(id: nat)
      modifies this`live, this`doubleFree
      ensures live == old(live) - {id}
      ensures doubleFree == (old(doubleFree) || id !in old(live))
    {
      doubleFree := doubleFree || id !in live;
      live := live - {id};
    }

    method Length() returns (len: int)
      ensures enabled ==> len == ReportedLength(i, j, buflength + 1)
      ensures !enabled ==> len == -1
    {
      len := -1;
      if enabled {
        len := CRemainder(i - j, buflength + 1);
        len := if len < 0 then len + buflength + 1 else len;
      }
    }

    /** Free the data of every slot, once. */
    method FreeSlots()
      requires forall p, q :: 0 <= p < q < slots.Length && slots[p].Data? && slots[q].Data? ==>
                 slots[p].block.id != slots[q].block.id
      requires Ids(slots[..]) <= live
      modifies this`live, this`doubleFree, slots
      ensures forall p :: 0 <= p < slots.Length ==> slots[p] == Null
      ensures live == old(live) - Ids(old(slots[..])) && doubleFree == old(doubleFree)
    {
      ghost var was := slots[..];
      for idx := 0 to slots.Length
        invariant |was| == slots.Length
        invariant forall p :: 0 <= p < slots.Length ==> slots[p] == if p < idx then Null else was[p]
        invariant live == old(live) - Ids(was[..idx]) && doubleFree == old(doubleFree)
      {
        IdsSnoc(was, idx);
        if slots[idx].Data? {
          assert was[idx].block.id in Ids(was);
          FreeBlock(slots[idx].block.id);
          slots[idx] := Null;
        }
      }
      assert was[..slots.Length] == was;
    }

    /** Copy the waiting messages, in order, into a larger ring. */
    method CopyForGrowth(count: nat, temp: array<Slot>)
      requires temp != slots && temp.Length > slots.Length
      requires i < slots.Length && j < slots.Length && (j < i ==> count == i - j)
      requires forall p :: 0 <= p < slots.Length && !InWindow(p, i, j) ==> slots[p] == Null
      requires forall p :: 0 <= p < temp.Length ==> temp[p] == Null
      modifies temp
      ensures temp[..] == Padded(Queue(slots[..], i, j), temp.Length)
    {
      if j < i {
        CopySlots(slots, j, temp, 0, count);
      } else {
        var firstPart := slots.Length - j;
        CopySlots(slots, j, temp, 0, firstPart);
        CopySlots(slots, 0, temp, firstPart, i);
      }
    }

    /** Move the oldest `kept` messages into a smaller ring. */
    method MoveForShrink(kept: nat, temp: array<Slot>)
      requires temp != slots && kept < temp.Length <= slots.Length
      requires j < slots.Length
      requires forall p :: 0 <= p < temp.Length ==> temp[p] == Null
      modifies temp, slots
      ensures forall o :: 0 <= o < temp.Length ==>
                temp[o] == if o < kept then old(slots[At(j, o, slots.Length)]) else Null
      ensures forall o :: 0 <= o < slots.Length ==>
                slots[At(j, o, slots.Length)] == if o < kept then Null else old(slots[At(j, o, slots.Length)])
    {
      for k := 0 to kept
        invariant forall o :: 0 <= o < temp.Length ==>
                    temp[o] == if o < k then old(slots[At(j, o, slots.Length)]) else Null
        invariant forall o :: 0 <= o < slots.Length ==>
                    slots[At(j, o, slots.Length)] == if o < k then Null else old(slots[At(j, o, slots.Length)])
      {
        MacroForms(j, k, slots.Length);
        var oldIdx := (j + k) % slots.Length;
        if slots[oldIdx].Data? {
          temp[k] := slots[oldIdx];
          slots[oldIdx] := Null;
        }
      }
    }

    /** w_agentd_buffer_free: with nothing in flight every allocated block is freed, once. */
    method FreeAll(current: nat)
      requires WellFormed(View()) && pc.Idle? && slots.Length == current + 1
      modifies this, slots
      ensures current == 0 ==> View() == old(View())
      ensures current != 0 ==> live == {} && !doubleFree && slots.Length == 0 && buflength == i == j == 0
    {
      if current == 0 {
        return;
      }
      WaitingOwnsAll(View());
      KeptIsOwned(View(), 0, slots[..]);
      RestIsOwned(View(), 0, slots[..]);
      FreeSlots();
      slots := new Slot[0](_ => Null);
      buflength, i, j := 0, 0, 0;
    }

    method GrowTo(count: nat, desired: nat)
      requires WellFormed(View()) && pc.Idle? && desired + 1 > slots.Length
      requires j < i ==> count == i - j
      modifies this
      ensures View() == Resized(old(View()), count, desired) && enabled == old(enabled)
    {
      WaitingOwnsAll(View());
      var temp := new Slot[desired + 1](_ => Null);
      CopyForGrowth(count, temp);
      j, i, slots := 0, count, temp;
    }

    method ShrinkTo(count: nat, desired: nat)
      requires WellFormed(View()) && pc.Idle? && 1 <= desired && desired + 1 < slots.Length
      modifies this, slots
      ensures View() == Resized(old(View()), count, desired) && enabled == old(enabled)
    {
      ghost var s := View();
      var retained := if count < desired then count else desired;
      var temp := new Slot[desired + 1](_ => Null);
      MoveForShrink(retained, temp);
      MovedContents(s, retained, temp[..]);
      RestIsOwned(s, retained, slots[..]);
      KeptIsOwned(s, retained, slots[..]);
      FreeSlots();
      j, i, slots := 0, retained, temp;
    }

    method Resize(current: nat, desired: nat) returns (code: int)
      requires WellFormed(View()) && pc.Idle? && slots.Length == current + 1
      requires buflength == current || buflength == desired
      modifies this, slots
      ensures (code, View()) == ResizeEffect(old(View()), old(enabled), desired)
      ensures enabled == old(enabled)
    {
      if desired == 0 {
        return -1;
      }
      if desired == current {
        return 0;
      }
      var count := Length();
      if count < 0 || count > current + 1 {
        return -1;
      }
      if desired > current {
        SmallDifference(i, j, buflength + 1);
        GrowTo(count, desired);
      } else {
        ShrinkTo(count, desired);
      }
      return 0;
    }
  }

  // ----- when a resize keeps the oldest messages -----

  /** A resize that goes through keeps the oldest exactly when the report is right up to the
      new capacity. */
  lemma ResizedKeepsOldestIff(s: Buffer, reported: nat, desired: nat)
    requires WellFormed(s) && s.pc.Idle?
    requires 1 <= desired && desired + 1 != |s.slots| && reported <= |s.slots|
    ensures KeepsOldest(s, Resized(s, reported, desired), desired) <==>
            Min(reported, desired) == Min(s.Count(), desired)
  {
    var s' := Resized(s, reported, desired);
    assert |s'.Waiting()| == Min(reported, desired);
    if Min(reported, desired) == Min(s.Count(), desired) {
      var q := s.Waiting()[..Min(s.Count(), desired)];
      assert s'.slots == Padded(q, desired + 1);
      assert s'.Waiting() == q;
    }
  }

  /** Documented order (the configured capacity still describes the ring): the report is the
      queue length, so every resize of an enabled buffer keeps the oldest, and gives a
      well-formed ring of the new capacity. */
  lemma ResizeInDocumentedOrder(s: Buffer, desired: nat)
    requires WellFormed(s) && s.pc.Idle? && s.Sized() && 1 <= desired
    ensures var (code, s') := ResizeEffect(s, true, desired);
            code == 0 && KeepsOldest(s, s', desired) &&
            s'.(buflength := desired).Sized() && WellFormed(s'.(buflength := desired))
  {
    var reported := ReportedLength(s.i, s.j, s.buflength + 1);
    ReportIsCount(s);
    if desired == s.buflength {
      WaitingOwnsAll(s);
      assert s.Waiting()[..s.Count()] == s.Waiting();
    } else {
      ResizedKeepsOldestIff(s, reported, desired);
      ResizedIsWellFormed(s, desired);
    }
  }

  lemma ReportIsCount(s: Buffer)
    requires s.Sized()
    ensures ReportedLength(s.i, s.j, s.buflength + 1) == s.Count()
  {
    ReportedLengthIsEuclidean(s.i, s.j, s.buflength + 1);
    ModUnique(s.i - s.j, if s.j <= s.i then 0 else -1, s.Count(), s.buflength + 1);
  }

  lemma ResizedIsWellFormed(s: Buffer, desired: nat)
    requires WellFormed(s) && s.pc.Idle? && 1 <= desired && desired + 1 != |s.slots|
    ensures WellFormed(Resized(s, s.Count(), desired))
  {
    var s' := Resized(s, s.Count(), desired);
    var q := s.Waiting()[..Min(s.Count(), desired)];
    assert s'.slots == Padded(q, desired + 1);
    QueueOwned(s);
    assert s'.i == |q| && forall p: nat :: InWindow(p, s'.i, s'.j) <==> p < |q|;
    assert LiveIds(s'.slots, -1) == Ids(q) by {
      forall k | 0 <= k < |q|
        ensures q[k].block.id in LiveIds(s'.slots, -1)
      {
        assert s'.slots[k] == q[k];
      }
    }
  }

  lemma QueueOwned(s: Buffer)
    requires WellFormed(s)
    ensures forall k :: 0 <= k < s.Count() ==> s.Waiting()[k].Data? && s.Waiting()[k].block.id < s.next
    ensures forall k, m :: 0 <= k < m < s.Count() ==> s.Waiting()[k].block.id != s.Waiting()[m].block.id
  {
  }

  /** What a reload can check before it calls the resize with the new capacity already in
      the configuration. */
  predicate CallerOrderSafe(i: nat, j: nat, current: nat, desired: nat)
    requires i <= current && j <= current
  {
    var count := Used(i, j, current + 1);
    if j <= i then count <= desired || (count + 1) % (desired + 1) == 0
    else if count <= desired then (current + 1) % (desired + 1) == 0
    else (current - count) % (desired + 1) == 0
  }

  lemma CallerReportIsRightIff(i: nat, j: nat, current: nat, desired: nat)
    requires i <= current && j <= current
    ensures ReportedLength(i, j, desired + 1) == Min(Used(i, j, current + 1), desired) <==>
            CallerOrderSafe(i, j, current, desired)
  {
    var count := Used(i, j, current + 1);
    ReportedLengthIsEuclidean(i, j, desired + 1);
    if j <= i {
      ContiguousResidue(count, desired);
    } else {
      WrappedResidue(count, current, desired);
    }
  }

  lemma ContiguousResidue(count: nat, desired: nat)
    ensures count % (desired + 1) == Min(count, desired) <==> count <= desired || (count + 1) % (desired + 1) == 0
  {
    if count <= desired {
      ModUnique(count, 0, count, desired + 1);
    } else {
      SameResidue(count, desired, desired + 1);
      Shift(count - desired, desired + 1);
    }
  }

  lemma WrappedResidue(count: nat, current: nat, desired: nat)
    ensures (count - (current + 1)) % (desired + 1) == Min(count, desired) <==>
            (if count <= desired then (current + 1) % (desired + 1) == 0 else (current - count) % (desired + 1) == 0)
  {
    var x := count - (current + 1);
    if count <= desired {
      SameResidue(x, count, desired + 1);
      Negate(current + 1, desired + 1);
    } else {
      SameResidue(x, desired, desired + 1);
      Shift(x - desired, desired + 1);
      Negate(current - count, desired + 1);
    }
  }

  /** Caller's order (agentd.c overwrites the configured capacity first): the resize keeps the
      oldest messages exactly in the states `CallerOrderSafe` describes. */
  lemma ResizeInCallerOrder(s: Buffer, desired: nat)
    requires WellFormed(s) && s.pc.Idle? && 1 <= desired && desired + 1 != |s.slots|
    requires s.buflength == desired
    ensures KeepsOldest(s, ResizeEffect(s, true, desired).1, desired) <==>
            CallerOrderSafe(s.i, s.j, |s.slots| - 1, desired)
  {
    var reported := ReportedLength(s.i, s.j, desired + 1);
    CallerReportIsRightIff(s.i, s.j, |s.slots| - 1, desired);
    if reported <= |s.slots| {
      ResizedKeepsOldestIff(s, reported, desired);
    }
  }

  /** `x` has remainder `r` exactly when `n` divides their difference. */
  lemma SameResidue(x: int, r: nat, n: nat)
    requires r < n
    ensures x % n == r <==> (x - r) % n == 0
  {
    if x % n == r {
      ModUnique(x - r, x / n, 0, n);
    }
    if (x - r) % n == 0 {
      ModUnique(x, (x - r) / n, r, n);
    }
  }

  lemma Negate(x: int, n: nat)
    requires 0 < n
    ensures x % n == 0 <==> (-x) % n == 0
  {
    if x % n == 0 {
      ModUnique(-x, -(x / n), 0, n);
    }
    if (-x) % n == 0 {
      ModUnique(x, -((-x) / n), 0, n);
    }
  }

  lemma Shift(x: int, n: nat)
    requires 0 < n
    ensures (x + n) % n == x % n
  {
    ModUnique(x + n, x / n + 1, x % n, n);
  }

  /** The property fails in the caller's order: growing a wrapped ring of capacity 2 that
      holds one message to capacity 3 reports two messages. */
  lemma ResizeInCallerOrderCanFail(m: Block)
    requires m.id == 0
    ensures var s := Buffer([Null, Null, Data(m)], 0, 2, 3, NORMAL, 0, Idle, {0}, 1, false);
            WellFormed(s) && |s.Waiting()| == 1 &&
            var (code, s') := ResizeEffect(s, true, 3);
            code == 0 && s'.Indexed() && s'.Waiting() == [Data(m), Null]
  {
    var s := Buffer([Null, Null, Data(m)], 0, 2, 3, NORMAL, 0, Idle, {0}, 1, false);
    assert s.slots[2].block.id in LiveIds(s.slots, -1);
    assert s.Waiting() == [Data(m)];
  }

  method CopySlots(src: array<Slot>, from: nat, dst: array<Slot>, to: nat, len: nat)
    requires src != dst && from + len <= src.Length && to + len <= dst.Length
    modifies dst
    ensures forall k :: 0 <= k < dst.Length ==>
              dst[k] == if to <= k < to + len then src[from + k - to] else old(dst[k])
  {
    for m := 0 to len
      invariant forall k :: 0 <= k < dst.Length ==>
                  dst[k] == if to <= k < to + m then src[from + k - to] else old(dst[k])
    {
      dst[to + m] := src[from + m];
    }
  }

  lemma IdsSnoc(q: seq<Slot>, k: nat)
    requires k < |q|
    ensures Ids(q[..k + 1]) == Ids(q[..k]) + (if q[k].Data? then {q[k].block.id} else {})
  {
  }

  lemma SmallDifference(i: nat, j: nat, n: nat)
    requires 0 < n
    ensures j <= i && i - j < n ==> ReportedLength(i, j, n) == i - j
  {
  }

  /** With nothing in flight, the allocated blocks are those of the waiting messages. */
  lemma WaitingOwnsAll(s: Buffer)
    requires WellFormed(s) && s.pc.Idle?
    ensures s.live == Ids(s.Waiting())
  {
    forall p | 0 <= p < |s.slots| && s.slots[p].Data?
      ensures s.slots[p].block.id in Ids(s.Waiting())
    {
      WindowIsQueue(s.slots, s.i, s.j, p);
      var k :| 0 <= k < |s.Waiting()| && At(s.j, k, |s.slots|) == p;
      assert s.Waiting()[k] == s.slots[p];
    }
  }

  function Offset(p: nat, j: nat, n: nat): (o: nat)
    requires p < n && j < n
    ensures o < n && At(j, o, n) == p
  {
    if j <= p then p - j else p - j + n
  }

  /** What is left of the slots once the `kept` oldest have been moved out. */
  ghost predicate MovedOut(s: Buffer, kept: nat, rest: seq<Slot>)
    requires s.Indexed()
  {
    && |rest| == |s.slots|
    && forall o :: 0 <= o < |rest| ==>
         rest[At(s.j, o, |rest|)] == if o < kept then Null else s.slots[At(s.j, o, |rest|)]
  }

  lemma RestOf(s: Buffer, kept: nat, rest: seq<Slot>, p: nat)
    requires s.Indexed() && MovedOut(s, kept, rest) && p < |rest|
    ensures rest[p] == if Offset(p, s.j, |rest|) < kept then Null else s.slots[p]
  {
  }

  lemma RestIsOwned(s: Buffer, kept: nat, rest: seq<Slot>)
    requires WellFormed(s) && s.pc.Idle? && MovedOut(s, kept, rest)
    ensures forall p, q :: 0 <= p < q < |rest| && rest[p].Data? && rest[q].Data? ==>
              rest[p].block.id != rest[q].block.id
    ensures Ids(rest) <= s.live
  {
    forall p | 0 <= p < |rest| && rest[p].Data?
      ensures rest[p] == s.slots[p] && rest[p].block.id in s.live
    {
      RestOf(s, kept, rest, p);
    }
  }

  /** Moving the oldest and freeing the rest leaves exactly the moved blocks allocated. */
  lemma KeptIsOwned(s: Buffer, kept: nat, rest: seq<Slot>)
    requires WellFormed(s) && s.pc.Idle? && MovedOut(s, kept, rest)
    ensures s.live - Ids(rest) == Ids(s.Waiting()[..Min(kept, s.Count())])
  {
    var q := s.Waiting()[..Min(kept, s.Count())];
    forall x | x in s.live - Ids(rest)
      ensures x in Ids(q)
    {
      var p :| 0 <= p < |s.slots| && s.slots[p].Data? && s.slots[p].block.id == x;
      RestOf(s, kept, rest, p);
      var o := Offset(p, s.j, |rest|);
      assert rest[p] == Null;
      assert q[o] == s.slots[p];
    }
    forall o | 0 <= o < |q| && q[o].Data?
      ensures q[o].block.id in s.live - Ids(rest)
    {
      var p := At(s.j, o, |rest|);
      assert q[o] == s.slots[p] && rest[p] == Null;
      if q[o].block.id in Ids(rest) {
        var p' :| 0 <= p' < |rest| && rest[p'].Data? && rest[p'].block.id == q[o].block.id;
        RestOf(s, kept, rest, p');
      }
    }
  }

  lemma MovedContents(s: Buffer, kept: nat, temp: seq<Slot>)
    requires Shaped(s) && s.pc.Idle? && kept < |temp| <= |s.slots|
    requires forall o :: 0 <= o < |temp| ==>
               temp[o] == if o < kept then s.slots[At(s.j, o, |s.slots|)] else Null
    ensures temp == Padded(s.Waiting()[..Min(kept, s.Count())], |temp|)
  {
  }
}
