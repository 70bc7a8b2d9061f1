/** Whole runs of the event buffer at a fixed capacity: every interleaving of appends with
    the dispatcher's own steps. */
module BufferRuns {
  import opened Options
  import opened Ring
  import opened EventBuffer

  function Init(cap: nat): (s: Buffer) {
    Buffer(seq(cap + 1, _ => Null), 0, 0, cap, NORMAL, 0, Idle, {}, 0, false)
  }

  /** Any schedule of steps, from the empty buffer. */
  datatype Run = Run(c: Config, cap: nat, steps: seq<Step>) {
    predicate Valid() {
      c.Valid() && 1 <= cap
    }

    function State(k: nat): (s: Buffer)
      requires Valid() && k <= |steps|
      ensures s.Sized() && s.buflength == cap
    {
      if k == 0 then Init(cap) else Next(c, State(k - 1), steps[k - 1]).after
    }

    function Out(k: nat): (o: Outcome)
      requires Valid() && k < |steps|
    {
      Next(c, State(k), steps[k])
    }

    /** The messages accepted in the first `k` steps, in order. */
    function Accepted(k: nat): (log: seq<Slot>)
      requires Valid() && k <= |steps|
    {
      if k == 0 then [] else Accepted(k - 1) + Admitted(State(k - 1), steps[k - 1])
    }

    /** The messages handed to send_msg in the first `k` steps, in order. */
    function Delivered(k: nat): (log: seq<Slot>)
      requires Valid() && k <= |steps|
    {
      if k == 0 then [] else Delivered(k - 1) + HandedOver(Out(k - 1))
    }

    /** How many messages the dispatcher took from step `a` up to step `b`. */
    function Takes(a: nat, b: nat): (n: nat)
      requires Valid() && a <= b <= |steps|
    {
      if a == b then 0
      else Takes(a, b - 1) + (if steps[b - 1].Take? && Enabled(State(b - 1), steps[b - 1]) then 1 else 0)
    }

    predicate Raised(k: nat, f: Flag)
      requires Valid() && k < |steps|
    {
      Out(k).raised == Some(f)
    }
  }

  lemma {:induction false} RunInvariant(r: Run, k: nat)
    requires r.Valid() && k <= |r.steps|
    ensures WellFormed(r.State(k))
  {
    if k > 0 {
      RunInvariant(r, k - 1);
      StepKeepsWellFormed(r.c, r.State(k - 1), r.steps[k - 1]);
    }
  }

  // ----- first in, first out -----

  /** What one step accepts: an append that finds fewer than `buflength` waiting. */
  function Admitted(s: Buffer, step: Step): (r: seq<Slot>)
    requires s.Sized()
  {
    if step.Append? && |s.Waiting()| < s.buflength then [Data(Block(s.next, step.bytes))] else []
  }

  /** What one step hands to send_msg. */
  function HandedOver(o: Outcome): (r: seq<Slot>) {
    if o.sent.Some? then [Data(o.sent.value)] else []
  }

  lemma PendingAppend(c: Config, s: Buffer, bytes: seq<Byte>, now: int)
    requires s.Sized() && s.Count() < s.buflength
    ensures AppendStep(c, s, bytes, now).after.Indexed()
    ensures AppendStep(c, s, bytes, now).after.Pending() == s.Pending() + [Data(Block(s.next, bytes))]
  {
    QueuePush(s.slots, s.i, s.j, Data(Block(s.next, bytes)));
  }

  lemma PendingTake(c: Config, s: Buffer)
    requires s.Sized() && Shaped(s) && s.pc.Idle? && !Empty(s.i, s.j)
    ensures TakeStep(c, s).after.Indexed()
    ensures TakeStep(c, s).after.Pending() == s.Pending()
  {
    QueuePop(s.slots, s.i, s.j);
    assert InWindow(s.j, s.i, s.j);
  }

  lemma PendingRest(s: Buffer)
    requires s.Sized() && Shaped(s)
    ensures s.pc.Holding? ==> s.Pending() == [Data(s.pc.block)] + s.(pc := Sent(s.pc.pos, s.pc.block)).Pending()
    ensures s.pc.Freed? ==>
              Queue(s.slots[s.pc.pos := Null], s.i, s.j) == s.Pending()
  {
  }

  /** The pending messages move as a queue. */
  ghost predicate MovesAsQueue(s: Buffer, step: Step, o: Outcome)
    requires s.Sized()
  {
    o.after.Indexed() && s.Pending() + Admitted(s, step) == HandedOver(o) + o.after.Pending()
  }

  lemma AppendMoves(c: Config, s: Buffer, bytes: seq<Byte>, now: int)
    requires s.Sized() && Shaped(s)
    ensures MovesAsQueue(s, Append(bytes, now), AppendStep(c, s, bytes, now))
  {
    hide Queue, RaiseOnAppend;
    if s.Count() < s.buflength {
      PendingAppend(c, s, bytes, now);
    }
  }

  lemma TakeMoves(c: Config, s: Buffer)
    requires s.Sized() && Shaped(s) && s.pc.Idle? && !Empty(s.i, s.j)
    ensures MovesAsQueue(s, Take, TakeStep(c, s))
  {
    hide Queue, LowerOnTake;
    PendingTake(c, s);
  }

  lemma LateMoves(c: Config, s: Buffer, step: Step)
    requires s.Sized() && Shaped(s) && Enabled(s, step) && (step.Send? || step.Free? || step.Clear?)
    ensures MovesAsQueue(s, step, Next(c, s, step))
  {
    hide Queue;
    PendingRest(s);
  }

  lemma PendingStep(c: Config, s: Buffer, step: Step)
    requires s.Sized() && Shaped(s)
    ensures MovesAsQueue(s, step, Next(c, s, step))
  {
    if !Enabled(s, step) {
      hide Queue;
    } else {
      hide MovesAsQueue;
      match step
      case Append(bytes, now) => AppendMoves(c, s, bytes, now);
      case Take => TakeMoves(c, s);
      case _ => LateMoves(c, s, step);
    }
  }

  /** What was accepted is what was delivered, then the message in flight, then the ring. */
  lemma {:induction false} FirstInFirstOut(r: Run, k: nat)
    requires r.Valid() && k <= |r.steps|
    ensures r.Accepted(k) == r.Delivered(k) + r.State(k).Pending()
  {
    hide Next;
    if k > 0 {
      FirstInFirstOut(r, k - 1);
      RunInvariant(r, k - 1);
      PendingStep(r.c, r.State(k - 1), r.steps[k - 1]);
      Regroup(r.Delivered(k - 1), r.State(k - 1).Pending(), Admitted(r.State(k - 1), r.steps[k - 1]),
              HandedOver(r.Out(k - 1)), r.State(k).Pending());
    }
  }

  /** An append is refused exactly when `cap` messages wait; a refusal changes no message;
      the reported length is the number of waiting messages, never more than `cap`. */
  lemma RefusedExactlyWhenFull(r: Run, k: nat)
    requires r.Valid() && k < |r.steps|
    ensures |r.State(k).Waiting()| <= r.cap
    ensures r.steps[k].Append? ==>
              (r.Out(k).accepted.None? <==> |r.State(k).Waiting()| == r.cap)
    ensures r.steps[k].Append? && |r.State(k).Waiting()| == r.cap ==>
              r.State(k + 1).slots == r.State(k).slots && r.State(k + 1).live == r.State(k).live
    ensures ReportedLength(r.State(k).i, r.State(k).j, r.cap + 1) == |r.State(k).Waiting()|
  {
    RunInvariant(r, k);
    var s := r.State(k);
    ReportedLengthIsEuclidean(s.i, s.j, r.cap + 1);
    ModUnique(s.i - s.j, if s.j <= s.i then 0 else -1, s.Count(), r.cap + 1);
  }

  /** The slot the dispatcher nulls after releasing the mutex is the ring's gap slot: nulling
      it at any later point erases no waiting message, its block is freed exactly once and
      while allocated, and with nothing in flight only waiting messages occupy slots. */
  lemma LateClearingIsSafe(r: Run, k: nat)
    requires r.Valid() && k <= |r.steps|
    ensures var s := r.State(k);
            && !s.doubleFree
            && (!s.pc.Idle? ==>
                  && s.pc.pos < |s.slots|
                  && !InWindow(s.pc.pos, s.i, s.j)
                  && Queue(s.slots[s.pc.pos := Null], s.i, s.j) == s.Waiting())
            && (s.pc.Holding? || s.pc.Sent? ==> s.pc.block.id in s.live)
            && (s.pc.Idle? ==> forall p :: 0 <= p < |s.slots| ==> (s.slots[p].Data? <==> InWindow(p, s.i, s.j)))
  {
    RunInvariant(r, k);
    var s := r.State(k);
    if !s.pc.Idle? {
      InFlightSlotIsTheGap(s);
      QueueUntouched(s.slots, s.i, s.j, s.pc.pos, Null);
      assert !s.pc.Freed? ==> s.slots[s.pc.pos].block.id in LiveIds(s.slots, -1);
    }
  }

  // ----- alarm levels -----

  /** The alarm follows the occupancy within one message of its thresholds. */
  predicate AlarmSound(c: Config, s: Buffer)
    requires s.Sized()
  {
    && (s.alarm == NORMAL ==> 100 * (s.Count() - 1) < c.warnLevel * s.buflength)
    && (s.alarm != NORMAL ==> 100 * (s.Count() + 1) > c.normalLevel * s.buflength)
    && (s.alarm == FULL || s.alarm == FLOOD ==> 100 * (s.Count() + 1) > c.warnLevel * s.buflength)
  }

  /** Occupancy after one step. */
  lemma CountStep(c: Config, s: Buffer, step: Step)
    requires s.Sized()
    ensures var s' := Next(c, s, step).after;
            s'.Sized() && s'.buflength == s.buflength &&
            s'.Count() == s.Count() + |Admitted(s, step)| - (if step.Take? && Enabled(s, step) then 1 else 0)
  {
  }

  /** Which steps move the alarm, and what they find. */
  lemma AlarmStep(c: Config, s: Buffer, step: Step)
    requires s.Sized()
    ensures var o := Next(c, s, step);
            var s' := o.after;
            && (s'.alarm == FULL && s.alarm == FULL ==> s'.start == s.start)
            && (s'.alarm == FULL && s.alarm != FULL ==>
                  step.Append? && o.raised == Some(FullFlag) && s.Count() == s.buflength && s'.start == step.now)
            && (s'.alarm == FLOOD && s.alarm != FLOOD ==>
                  step.Append? && o.raised == Some(FloodFlag) && s.alarm == FULL && step.now - s.start >= c.tolerance)
            && (s'.alarm == NORMAL && s.alarm != NORMAL ==>
                  step.Take? && Enabled(s, step) && o.raised == Some(NormalFlag) && Normal(c, s))
            && (o.raised == Some(WarnFlag) ==>
                  step.Append? && s.alarm == NORMAL && s'.alarm == WARNING && Warn(c, s) && s.Count() < s.buflength)
  {
  }

  lemma LevelsBelowCapacity(c: Config, cap: nat)
    requires c.Valid() && 1 <= cap
    ensures c.normalLevel * cap < c.warnLevel * cap <= 100 * cap
  {
  }

  lemma AlarmSoundStep(c: Config, s: Buffer, step: Step)
    requires c.Valid() && s.Sized() && AlarmSound(c, s)
    ensures Next(c, s, step).after.Sized() && AlarmSound(c, Next(c, s, step).after)
  {
    LevelsBelowCapacity(c, s.buflength);
    CountStep(c, s, step);
    if step.Take? && Enabled(s, step) {
      assert Next(c, s, step).after.alarm == LowerOnTake(c, s).0;
    } else if step.Append? {
      assert Next(c, s, step).after.alarm == RaiseOnAppend(c, s, step.now).0.alarm;
    }
  }

  lemma {:induction false} AlarmSoundness(r: Run, k: nat)
    requires r.Valid() && k <= |r.steps|
    ensures AlarmSound(r.c, r.State(k))
  {
    if k > 0 {
      AlarmSoundness(r, k - 1);
      AlarmSoundStep(r.c, r.State(k - 1), r.steps[k - 1]);
    } else {
      LevelsBelowCapacity(r.c, r.cap);
    }
  }

  /** Conservation: the occupancy moves by what was accepted minus what was taken. */
  lemma {:induction false} Conservation(r: Run, a: nat, b: nat)
    requires r.Valid() && a <= b <= |r.steps|
    ensures r.State(b).Count() - r.State(a).Count() ==
            |r.Accepted(b)| - |r.Accepted(a)| - r.Takes(a, b)
  {
    if a < b {
      Conservation(r, a, b - 1);
      CountStep(r.c, r.State(b - 1), r.steps[b - 1]);
    }
  }

  /** A run that leaves an alarm level above NORMAL and is later at NORMAL raised the normal
      flag in between, at an occupancy at or below the normal threshold. */
  lemma {:induction false} ReturnToNormal(r: Run, a: nat, b: nat) returns (m: nat)
    requires r.Valid() && a < b <= |r.steps|
    requires r.State(a).alarm != NORMAL && r.State(b).alarm == NORMAL
    ensures a <= m < b && r.steps[m].Take? && r.Raised(m, NormalFlag)
    ensures 1 <= r.State(m).Count() && 100 * r.State(m).Count() <= r.c.normalLevel * r.cap
  {
    hide Next;
    AlarmStep(r.c, r.State(b - 1), r.steps[b - 1]);
    if r.State(b - 1).alarm != NORMAL {
      m := b - 1;
    } else {
      m := ReturnToNormal(r, a, b - 1);
    }
  }

  lemma WarnRaised(r: Run, k: nat)
    requires r.Valid() && k < |r.steps| && r.Raised(k, WarnFlag)
    ensures r.State(k).alarm == NORMAL && r.State(k + 1).alarm == WARNING
    ensures 100 * r.State(k).Count() >= r.c.warnLevel * r.cap
    ensures 100 * r.State(k + 1).Count() >= r.c.warnLevel * r.cap
  {
    AlarmStep(r.c, r.State(k), r.steps[k]);
    CountStep(r.c, r.State(k), r.steps[k]);
  }

  /** Draining from above the warning level to the normal level dispatches the whole band. */
  lemma DrainsTheBand(r: Run, a: nat, b: nat)
    requires r.Valid() && a <= b <= |r.steps|
    requires 100 * r.State(a).Count() >= r.c.warnLevel * r.cap
    requires 100 * r.State(b).Count() <= r.c.normalLevel * r.cap
    ensures 100 * r.Takes(a, b) >= r.c.warnLevel * r.cap - r.c.normalLevel * r.cap
  {
    Conservation(r, a, b);
    AcceptedGrows(r, a, b);
  }

  /** Filling from the normal level to the warning level accepts the whole band. */
  lemma FillsTheBand(r: Run, a: nat, b: nat)
    requires r.Valid() && a <= b <= |r.steps|
    requires 100 * r.State(a).Count() <= r.c.normalLevel * r.cap
    requires 100 * r.State(b).Count() >= r.c.warnLevel * r.cap
    ensures 100 * (|r.Accepted(b)| - |r.Accepted(a)|) >= r.c.warnLevel * r.cap - r.c.normalLevel * r.cap
  {
    Conservation(r, a, b);
  }

  /** Hysteresis: between two raisings of the warning flag the normal flag is raised; before
      it, and again after it, at least (warnLevel - normalLevel) percent of the capacity is
      dispatched, respectively accepted. */
  lemma Hysteresis(r: Run, a: nat, b: nat) returns (m: nat)
    requires r.Valid() && a < b < |r.steps|
    requires r.Raised(a, WarnFlag) && r.Raised(b, WarnFlag)
    ensures a < m < b && r.Raised(m, NormalFlag)
    ensures 100 * r.Takes(a + 1, m) >= r.c.warnLevel * r.cap - r.c.normalLevel * r.cap
    ensures 100 * (|r.Accepted(b)| - |r.Accepted(m)|) >= r.c.warnLevel * r.cap - r.c.normalLevel * r.cap
  {
    hide Next;
    WarnRaised(r, a);
    WarnRaised(r, b);
    m := ReturnToNormal(r, a + 1, b);
    DrainsTheBand(r, a + 1, m);
    FillsTheBand(r, m, b);
  }

  lemma {:induction false} AcceptedGrows(r: Run, a: nat, b: nat)
    requires r.Valid() && a <= b <= |r.steps|
    ensures |r.Accepted(a)| <= |r.Accepted(b)|
  {
    if a < b {
      AcceptedGrows(r, a, b - 1);
    }
  }

  /** Where the current FULL period began. */
  lemma {:induction false} FullPeriod(r: Run, b: nat) returns (a: nat)
    requires r.Valid() && b <= |r.steps|
    requires r.State(b).alarm == FULL
    ensures a < b && r.steps[a].Append? && r.Raised(a, FullFlag)
    ensures r.State(a).Count() == r.cap && r.State(b).start == r.steps[a].now
    ensures forall k :: a < k <= b ==> r.State(k).alarm == FULL
  {
    hide Next;
    AlarmStep(r.c, r.State(b - 1), r.steps[b - 1]);
    if r.State(b - 1).alarm == FULL {
      a := FullPeriod(r, b - 1);
    } else {
      a := b - 1;
    }
  }

  /** FLOOD is entered only out of an unbroken FULL period that began with the ring exactly
      full, at an append at least `tolerance` seconds earlier. */
  lemma FloodNeedsTolerance(r: Run, b: nat) returns (a: nat)
    requires r.Valid() && b < |r.steps|
    requires r.State(b).alarm != FLOOD && r.State(b + 1).alarm == FLOOD
    ensures a < b && r.steps[a].Append? && r.steps[b].Append?
    ensures r.Raised(a, FullFlag) && r.Raised(b, FloodFlag)
    ensures |r.State(a).Waiting()| == r.cap
    ensures forall k :: a < k <= b ==> r.State(k).alarm == FULL
    ensures r.steps[b].now - r.steps[a].now >= r.c.tolerance
  {
    AlarmStep(r.c, r.State(b), r.steps[b]);
    a := FullPeriod(r, b);
  }

  // ----- when the alarm is raised -----

  /** The dispatcher takes a message at step `k`. */
  predicate TakesAt(r: Run, k: nat)
    requires r.Valid() && k < |r.steps|
  {
    r.steps[k].Take? && Enabled(r.State(k), r.steps[k])
  }

  /** Each flag is raised, in every run, exactly when its event happens: what the append or the
      dispatcher finds waiting decides. */
  lemma FlagsIff(r: Run, k: nat)
    requires r.Valid() && k < |r.steps|
    ensures var s, step, n := r.State(k), r.steps[k], |r.State(k).Waiting()|;
            && (r.Raised(k, FullFlag) <==> step.Append? && n == r.cap && (s.alarm == NORMAL || s.alarm == WARNING))
            && (r.Raised(k, WarnFlag) <==>
                  step.Append? && n < r.cap && s.alarm == NORMAL && 100 * n >= r.c.warnLevel * r.cap)
            && (r.Raised(k, FloodFlag) <==>
                  step.Append? && s.alarm == FULL && step.now - s.start >= r.c.tolerance)
            && (r.Raised(k, NormalFlag) <==>
                  TakesAt(r, k) && s.alarm != NORMAL && 100 * n <= r.c.normalLevel * r.cap)
  {
  }

  /** The level after a step is that of the flag it raised; without a flag it stays, except that
      a take at or below the warning level ends FULL and FLOOD. */
  lemma LevelFollowsFlag(r: Run, k: nat)
    requires r.Valid() && k < |r.steps|
    ensures var s, s', n := r.State(k), r.State(k + 1), |r.State(k).Waiting()|;
            && (r.Raised(k, FullFlag) ==> s'.alarm == FULL && s'.start == r.steps[k].now)
            && (!r.Raised(k, FullFlag) ==> s'.start == s.start)
            && (r.Raised(k, WarnFlag) ==> s'.alarm == WARNING)
            && (r.Raised(k, FloodFlag) ==> s'.alarm == FLOOD)
            && (r.Raised(k, NormalFlag) ==> s'.alarm == NORMAL)
            && (r.Out(k).raised.None? ==>
                  s'.alarm == if (s.alarm == FULL || s.alarm == FLOOD) && TakesAt(r, k) &&
                                 100 * n <= r.c.warnLevel * r.cap
                              then WARNING else s.alarm)
  {
    hide Queue;
    var s := r.State(k);
    if Enabled(s, r.steps[k]) {
      match r.steps[k]
      case Append(bytes, now) =>
        assert r.State(k + 1).alarm == RaiseOnAppend(r.c, s, now).0.alarm;
        assert r.State(k + 1).start == RaiseOnAppend(r.c, s, now).0.start;
      case Take => assert r.State(k + 1).alarm == LowerOnTake(r.c, s).0;
      case _ =>
    }
  }

  /** An append that finds the ring full is never overlooked: FULL or FLOOD is in force after
      it, and it reports FULL exactly when that is news. */
  lemma FullRingIsReported(r: Run, k: nat)
    requires r.Valid() && k < |r.steps| && r.steps[k].Append? && |r.State(k).Waiting()| == r.cap
    ensures r.State(k + 1).alarm == FULL || r.State(k + 1).alarm == FLOOD
    ensures r.Raised(k, FullFlag) <==> r.State(k).alarm == NORMAL || r.State(k).alarm == WARNING
    ensures r.Raised(k, FullFlag) ==> r.State(k + 1).start == r.steps[k].now
  {
    FlagsIff(r, k);
    LevelFollowsFlag(r, k);
  }

  /** No take between `a` and `b` finds the ring at or below the warning level. */
  predicate StaysAbove(r: Run, a: nat, b: nat)
    requires r.Valid() && a <= b <= |r.steps|
  {
    forall k :: a <= k < b && TakesAt(r, k) ==> 100 * |r.State(k).Waiting()| > r.c.warnLevel * r.cap
  }

  lemma OneFlag(r: Run, k: nat)
    requires r.Valid() && k < |r.steps|
    ensures r.Out(k).raised.None? || r.Raised(k, WarnFlag) || r.Raised(k, FullFlag) ||
            r.Raised(k, FloodFlag) || r.Raised(k, NormalFlag)
  {
    hide Next;
    if r.Out(k).raised.Some? {
      match r.Out(k).raised.value
      case WarnFlag =>
      case FullFlag =>
      case FloodFlag =>
      case NormalFlag =>
    }
  }

  lemma NotBoth(r: Run, k: nat)
    requires r.Valid() && k < |r.steps| && r.steps[k].Append?
    ensures !TakesAt(r, k)
  {
  }

  lemma {:induction false} StaysFull(r: Run, a: nat, b: nat)
    requires r.Valid() && a < b <= |r.steps| && r.Raised(a, FullFlag) && StaysAbove(r, a + 1, b)
    ensures r.State(b).alarm == FLOOD || (r.State(b).alarm == FULL && r.State(b).start == r.steps[a].now)
  {
    hide Next, Queue, TakesAt;
    LevelsBelowCapacity(r.c, r.cap);
    FlagsIff(r, b - 1);
    LevelFollowsFlag(r, b - 1);
    if a < b - 1 {
      StaysFull(r, a, b - 1);
      OneFlag(r, b - 1);
    }
  }

  /** FLOOD does follow: when the ring was found full at `a` and has not been at or below the
      warning level since, an append `tolerance` seconds later leaves it in FLOOD. */
  lemma FloodFollowsTolerance(r: Run, a: nat, b: nat)
    requires r.Valid() && a < b < |r.steps| && r.Raised(a, FullFlag) && StaysAbove(r, a + 1, b)
    requires r.steps[b].Append? && r.steps[b].now - r.steps[a].now >= r.c.tolerance
    ensures r.State(b + 1).alarm == FLOOD
    ensures r.State(b).alarm == FULL ==> r.Raised(b, FloodFlag)
  {
    hide Next, Queue, StaysAbove, TakesAt;
    StaysFull(r, a, b);
    FlagsIff(r, b);
    LevelFollowsFlag(r, b);
    OneFlag(r, b);
    NotBoth(r, b);
  }

  // ----- when the alarm can return to NORMAL -----

  /** The dispatcher tests the normal level with its message still counted, so a normal level
      worth less than one message is never reached again. */
  lemma NeverNormalAgain(r: Run, a: nat, b: nat)
    requires r.Valid() && a <= b <= |r.steps| && r.c.normalLevel * r.cap < 100
    requires r.State(a).alarm != NORMAL
    ensures r.State(b).alarm != NORMAL
  {
    if a < b && r.State(b).alarm == NORMAL {
      var _ := ReturnToNormal(r, a, b);
    }
  }

  function Exec(c: Config, s: Buffer, steps: seq<Step>): (s': Buffer)
    requires s.Sized()
    ensures s'.Sized() && s'.buflength == s.buflength
    decreases |steps|
  {
    if steps == [] then s else Exec(c, Next(c, s, steps[0]).after, steps[1..])
  }

  /** How many dispatcher steps stand between `s` and its next take. */
  function Rank(pc: Dispatcher): (n: nat) {
    match pc
    case Idle => 0
    case Freed(_) => 1
    case Sent(_, _) => 2
    case Holding(_, _) => 3
  }

  function NextDispatcherStep(s: Buffer): (step: Step) {
    match s.pc
    case Idle => Take
    case Freed(_) => Clear
    case Sent(_, _) => Free
    case Holding(_, _) => Send
  }

  lemma DispatcherMoves(c: Config, s: Buffer)
    requires s.Sized() && Shaped(s) && 1 <= s.Count()
    ensures var s' := Next(c, s, NextDispatcherStep(s)).after;
            && Enabled(s, NextDispatcherStep(s))
            && (s'.Count() < s.Count() || (s'.Count() == s.Count() && s'.alarm == s.alarm && Rank(s'.pc) < Rank(s.pc)))
  {
  }

  /** Otherwise the dispatcher alone brings every reachable alarm back to NORMAL. */
  lemma {:induction false} DrainsToNormal(c: Config, s: Buffer) returns (steps: seq<Step>)
    requires c.Valid() && s.Sized() && WellFormed(s) && AlarmSound(c, s) && c.normalLevel * s.buflength >= 100
    ensures forall k :: 0 <= k < |steps| ==> !steps[k].Append?
    ensures Exec(c, s, steps).alarm == NORMAL
    decreases s.Count(), Rank(s.pc)
  {
    hide Next, WellFormed;
    steps := [];
    if s.alarm != NORMAL {
      var step := NextDispatcherStep(s);
      var s' := Next(c, s, step).after;
      assert Shaped(s) by { ShapedPart(s); }
      DispatcherMoves(c, s);
      CountStep(c, s, step);
      StepKeepsWellFormed(c, s, step);
      AlarmSoundStep(c, s, step);
      var rest := DrainsToNormal(c, s');
      steps := [step] + rest;
      assert steps[1..] == rest;
    }
  }

  lemma ShapedPart(s: Buffer)
    requires WellFormed(s)
    ensures Shaped(s)
  {
  }

  /** In every reachable state above NORMAL, the dispatcher can bring the alarm back if and
      only if the normal level is worth at least one message. */
  lemma ReturnIsPossibleIff(r: Run, k: nat)
    requires r.Valid() && k <= |r.steps| && r.State(k).alarm != NORMAL
    ensures (exists steps :: Exec(r.c, r.State(k), steps).alarm == NORMAL) <==> r.c.normalLevel * r.cap >= 100
  {
    hide Next, WellFormed, AlarmSound;
    RunInvariant(r, k);
    AlarmSoundness(r, k);
    if r.c.normalLevel * r.cap >= 100 {
      var steps := DrainsToNormal(r.c, r.State(k));
      assert Exec(r.c, r.State(k), steps).alarm == NORMAL;
    } else {
      forall steps
        ensures Exec(r.c, r.State(k), steps).alarm != NORMAL
      {
        var longer := r.(steps := r.steps[..k] + steps);
        Continued(r, k, longer, steps);
        NeverNormalAgain(longer, k, k + |steps|);
      }
    }
  }

  lemma {:induction false} SamePrefix(r: Run, r': Run, k: nat)
    requires r.Valid() && r' == r.(steps := r'.steps) && k <= |r.steps| && k <= |r'.steps|
    requires r.steps[..k] == r'.steps[..k]
    ensures r.State(k) == r'.State(k)
  {
    hide Next;
    if k > 0 {
      assert r.steps[..k][..k - 1] == r'.steps[..k][..k - 1];
      assert r.steps[..k - 1] == r.steps[..k][..k - 1] && r'.steps[..k - 1] == r'.steps[..k][..k - 1];
      SamePrefix(r, r', k - 1);
      assert r.steps[k - 1] == r.steps[..k][k - 1] && r'.steps[k - 1] == r'.steps[..k][k - 1];
    }
  }

  lemma {:induction false} ExecFrom(r: Run, k: nat)
    requires r.Valid() && k <= |r.steps|
    ensures Exec(r.c, r.State(k), r.steps[k..]) == r.State(|r.steps|)
    decreases |r.steps| - k
  {
    hide Next;
    if k < |r.steps| {
      ExecFrom(r, k + 1);
      assert r.steps[k..][1..] == r.steps[k + 1..];
    }
  }

  lemma Continued(r: Run, k: nat, longer: Run, steps: seq<Step>)
    requires r.Valid() && k <= |r.steps| && longer == r.(steps := r.steps[..k] + steps)
    ensures longer.State(k) == r.State(k)
    ensures longer.State(k + |steps|) == Exec(r.c, r.State(k), steps)
  {
    hide Next;
    SamePrefix(r, longer, k);
    ExecFrom(longer, k);
    assert longer.steps[k..] == steps;
  }
}
