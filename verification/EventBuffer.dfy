/** The agent's anti-flooding event buffer (src/client-agent/buffer.c) as a state machine:
    one step per mutex section of the producers, and one per visible action of the
    dispatcher thread, which works on its slot after it has released the mutex. */
module EventBuffer {
  import opened Options
  import opened Ring

  type Byte = b: int | 0 <= b < 256

  /** A heap block holding one message; `id` is its allocation number. */
  datatype Block = Block(id: nat, bytes: seq<Byte>)

  datatype Slot = Null | Data(block: Block)

  datatype Alarm = NORMAL | WARNING | FULL | FLOOD

  datatype Flag = WarnFlag | FullFlag | FloodFlag | NormalFlag

  /** Where the dispatcher is with the message it took: before send_msg, before free,
      or before its slot is nulled. */
  datatype Dispatcher = Idle | Holding(pos: nat, block: Block) | Sent(pos: nat, block: Block) | Freed(pos: nat)

  /** The ranges buffer_init enforces on the internal options. */
  datatype Config = Config(warnLevel: nat, normalLevel: nat, tolerance: nat) {
    predicate Valid() {
      1 <= warnLevel <= 100 && normalLevel < warnLevel && tolerance <= 600
    }
  }

  /** `buflength` is the configured capacity, which a reload overwrites before the slots
      follow. `live` are the blocks allocated and not freed. */
  datatype Buffer = Buffer(
    slots: seq<Slot>, i: nat, j: nat, buflength: nat,
    alarm: Alarm, start: int, pc: Dispatcher,
    live: set<nat>, next: nat, doubleFree: bool)
  {
    predicate Indexed() {
      i < |slots| && j < |slots|
    }

    predicate Sized() {
      Indexed() && 1 <= buflength && |slots| == buflength + 1
    }

    function Count(): (c: nat)
      requires Indexed()
    {
      Used(i, j, |slots|)
    }

    function Waiting(): (q: seq<Slot>)
      requires Indexed()
      ensures |q| == Count()
    {
      Queue(slots, i, j)
    }

    /** Accepted and not yet sent, oldest first. */
    function Pending(): (q: seq<Slot>)
      requires Indexed()
    {
      (if pc.Holding? then [Data(pc.block)] else []) + Waiting()
    }
  }

  /** The bytes buffer_append stores: through the terminator of a string, or a given length. */
  function Payload(msg: seq<Byte>, msgLen: int): (r: seq<Byte>)
    requires if msgLen < 0 then 0 in msg else msgLen <= |msg|
    ensures r <= msg
    ensures msgLen >= 0 ==> |r| == msgLen
    ensures msgLen < 0 ==> r != [] && r[|r| - 1] == 0 && 0 !in r[..|r| - 1]
  {
    if msgLen >= 0 then msg[..msgLen]
    else if msg[0] == 0 then msg[..1]
    else [msg[0]] + Payload(msg[1..], msgLen)
  }

  // ----- thresholds, as exact fractions -----

  predicate Warn(c: Config, s: Buffer)
    requires s.Sized()
  {
    100 * s.Count() >= c.warnLevel * s.buflength
  }

  predicate NoWarn(c: Config, s: Buffer)
    requires s.Sized()
  {
    100 * s.Count() <= c.warnLevel * s.buflength
  }

  predicate Normal(c: Config, s: Buffer)
    requires s.Sized()
  {
    100 * s.Count() <= c.normalLevel * s.buflength
  }

  // ----- steps -----

  datatype Step = Append(bytes: seq<Byte>, now: int) | Take | Send | Free | Clear

  /** What a step did, beside the new state. */
  datatype Outcome = Outcome(after: Buffer, accepted: Option<Block>, sent: Option<Block>, raised: Option<Flag>)

  function RaiseOnAppend(c: Config, s: Buffer, now: int): (r: (Buffer, Option<Flag>))
    requires s.Sized()
    ensures r.0 == s.(alarm := r.0.alarm, start := r.0.start)
  {
    match s.alarm
    case NORMAL =>
      if Full(s.i, s.j, s.buflength + 1) then (s.(alarm := FULL, start := now), Some(FullFlag))
      else if Warn(c, s) then (s.(alarm := WARNING), Some(WarnFlag))
      else (s, None)
    case WARNING =>
      if Full(s.i, s.j, s.buflength + 1) then (s.(alarm := FULL, start := now), Some(FullFlag))
      else (s, None)
    case FULL =>
      if now - s.start >= c.tolerance then (s.(alarm := FLOOD), Some(FloodFlag)) else (s, None)
    case FLOOD =>
      (s, None)
  }

  /** Allocate a block and store it at `i`. */
  function Store(s: Buffer, bytes: seq<Byte>): (r: Buffer)
    requires s.Indexed()
  {
    s.(slots := s.slots[s.i := Data(Block(s.next, bytes))], i := Forward(s.i, |s.slots|),
       live := s.live + {s.next}, next := s.next + 1)
  }

  function AppendStep(c: Config, s: Buffer, bytes: seq<Byte>, now: int): (r: Outcome)
    requires s.Sized()
  {
    var (s1, flag) := RaiseOnAppend(c, s, now);
    if Full(s.i, s.j, s.buflength + 1) then Outcome(s1, None, None, flag)
    else Outcome(Store(s1, bytes), Some(Block(s.next, bytes)), None, flag)
  }

  function LowerOnTake(c: Config, s: Buffer): (r: (Alarm, Option<Flag>))
    requires s.Sized()
  {
    if s.alarm != NORMAL && Normal(c, s) then (NORMAL, Some(NormalFlag))
    else if (s.alarm == FULL || s.alarm == FLOOD) && NoWarn(c, s) then (WARNING, None)
    else (s.alarm, None)
  }

  function TakeStep(c: Config, s: Buffer): (r: Outcome)
    requires s.Sized()
  {
    var (alarm, flag) := LowerOnTake(c, s);
    var slot := s.slots[s.j];
    Outcome(s.(alarm := alarm, j := Forward(s.j, s.buflength + 1),
               pc := if slot.Data? then Holding(s.j, slot.block) else Idle),
            None, None, flag)
  }

  predicate Enabled(s: Buffer, step: Step) {
    match step
    case Append(_, _) => true
    case Take => s.pc.Idle? && !Empty(s.i, s.j)
    case Send => s.pc.Holding?
    case Free => s.pc.Sent?
    case Clear => s.pc.Freed? && s.pc.pos < |s.slots|
  }

  /** A thread that cannot take its step waits: the state stays as it is. */
  function Next(c: Config, s: Buffer, step: Step): (r: Outcome)
    requires s.Sized()
  {
    if !Enabled(s, step) then Outcome(s, None, None, None) else
    match step
    case Append(bytes, now) => AppendStep(c, s, bytes, now)
    case Take => TakeStep(c, s)
    case Send => Outcome(s.(pc := Sent(s.pc.pos, s.pc.block)), None, Some(s.pc.block), None)
    case Free =>
      Outcome(s.(pc := Freed(s.pc.pos), live := s.live - {s.pc.block.id},
                 doubleFree := s.doubleFree || s.pc.block.id !in s.live), None, None, None)
    case Clear => Outcome(s.(pc := Idle, slots := s.slots[s.pc.pos := Null]), None, None, None)
  }

  // ----- the invariant -----

  /** Slots and indices: messages exactly in the live window, plus the one in flight in
      the gap slot just behind it. */
  predicate Shaped(s: Buffer) {
    && s.Indexed()
    && (forall p :: 0 <= p < |s.slots| && InWindow(p, s.i, s.j) ==> s.slots[p].Data?)
    && (forall p :: 0 <= p < |s.slots| && !InWindow(p, s.i, s.j) && s.slots[p].Data? ==> !s.pc.Idle? && p == s.pc.pos)
    && (!s.pc.Idle? ==> s.pc.pos < |s.slots| && Forward(s.pc.pos, |s.slots|) == s.j && s.slots[s.pc.pos].Data?)
    && (s.pc.Holding? || s.pc.Sent? ==> s.slots[s.pc.pos] == Data(s.pc.block))
  }

  function LiveIds(slots: seq<Slot>, dangling: int): (r: set<nat>) {
    set p | 0 <= p < |slots| && slots[p].Data? && p != dangling :: slots[p].block.id
  }

  /** Memory: every block a slot points to is allocated exactly once and owned by that one
      slot, except the block in flight between its free and the nulling of its slot. */
  predicate Owned(s: Buffer) {
    && (forall p, q :: 0 <= p < q < |s.slots| && s.slots[p].Data? && s.slots[q].Data? ==>
          s.slots[p].block.id != s.slots[q].block.id)
    && (forall p :: 0 <= p < |s.slots| && s.slots[p].Data? ==> s.slots[p].block.id < s.next)
    && s.live == LiveIds(s.slots, if s.pc.Freed? then s.pc.pos else -1)
    && !s.doubleFree
  }

  predicate WellFormed(s: Buffer) {
    Shaped(s) && Owned(s)
  }

  lemma InFlightSlotIsTheGap(s: Buffer)
    requires Shaped(s) && !s.pc.Idle?
    ensures !InWindow(s.pc.pos, s.i, s.j)
  {
  }

  lemma StoreKeepsShape(s: Buffer, bytes: seq<Byte>)
    requires Shaped(s) && Forward(s.i, |s.slots|) != s.j
    ensures s.slots[s.i] == Null
    ensures Shaped(Store(s, bytes))
  {
  }

  lemma StoreKeepsOwnership(s: Buffer, bytes: seq<Byte>)
    requires Owned(s) && s.Indexed() && s.slots[s.i] == Null
    requires s.pc.Freed? ==> s.pc.pos != s.i
    ensures Owned(Store(s, bytes))
  {
    var d := if s.pc.Freed? then s.pc.pos else -1;
    var slots' := Store(s, bytes).slots;
    assert slots'[s.i].block.id in LiveIds(slots', d);
    forall p | 0 <= p < |s.slots| && s.slots[p].Data? && p != d
      ensures s.slots[p].block.id in LiveIds(slots', d)
    {
      assert slots'[p] == s.slots[p];
    }
    assert LiveIds(slots', d) == s.live + {s.next};
  }

  lemma AppendKeepsWellFormed(c: Config, s: Buffer, bytes: seq<Byte>, now: int)
    requires s.Sized() && WellFormed(s)
    ensures WellFormed(AppendStep(c, s, bytes, now).after)
  {
    if !Full(s.i, s.j, s.buflength + 1) {
      var s1 := RaiseOnAppend(c, s, now).0;
      StoreKeepsShape(s1, bytes);
      StoreKeepsOwnership(s1, bytes);
    }
  }

  lemma FreeKeepsWellFormed(s: Buffer)
    requires s.Sized() && WellFormed(s) && s.pc.Sent?
    ensures s.pc.block.id in s.live
    ensures LiveIds(s.slots, s.pc.pos) == s.live - {s.pc.block.id}
  {
  }

  lemma ClearKeepsWellFormed(s: Buffer)
    requires s.Sized() && WellFormed(s) && s.pc.Freed?
    ensures LiveIds(s.slots[s.pc.pos := Null], -1) == s.live
  {
    var cleared := s.slots[s.pc.pos := Null];
    forall p | 0 <= p < |s.slots| && s.slots[p].Data? && p != s.pc.pos
      ensures s.slots[p].block.id in LiveIds(cleared, -1)
    {
      assert cleared[p] == s.slots[p];
    }
  }

  lemma StepKeepsWellFormed(c: Config, s: Buffer, step: Step)
    requires s.Sized() && WellFormed(s)
    ensures WellFormed(Next(c, s, step).after)
  {
    if Enabled(s, step) {
      match step
      case Append(bytes, now) => AppendKeepsWellFormed(c, s, bytes, now);
      case Take =>
      case Send =>
      case Free => FreeKeepsWellFormed(s);
      case Clear => ClearKeepsWellFormed(s);
    }
  }
}
