/** check_rate_limit (api/api/middlewares.py): a fixed-window counter, and what it promises
    about sliding windows. */
module RateLimit {

  /** One call's three clock readings: when it arms an unset window, tests it, and restarts it. */
  datatype Call = Call(t1: real, t2: real, t3: real)

  /** The two globals; a `start` of 0.0 stands for unset (None and 0 are both false). */
  datatype Window = Window(counter: int, start: real)

  const UNSET := Window(0, 0.0)

  function Step(w: Window, c: Call): (w': Window) {
    var start := if w.start == 0.0 then c.t1 else w.start;
    if c.t2 - 60.0 <= start then Window(w.counter + 1, start) else Window(0, c.t3)
  }

  class Limiter {
    var counter: int
    var start: real

    ghost function View(): (w: Window)
      reads this
    {
      Window(counter, start)
    }

    constructor ()
      ensures View() == UNSET
    {
      counter, start := 0, 0.0;
    }

    /** Returns 0 when the call is allowed, the error code otherwise. */
    method Check(c: Call, maxRequests: int, errorCode: int) returns (code: int)
      modifies this
      ensures View() == Step(old(View()), c)
      ensures code == if View().counter > maxRequests then errorCode else 0
    {
      if start == 0.0 {
        start := c.t1;
      }
      if c.t2 - 60.0 <= start {
        counter := counter + 1;
      } else {
        counter := 0;
        start := c.t3;
      }
      code := if counter > maxRequests then errorCode else 0;
    }
  }

  // ----- runs -----

  function Final(w: Window, calls: seq<Call>): (w': Window)
    decreases |calls|
  {
    if calls == [] then w else Final(Step(w, calls[0]), calls[1..])
  }

  /** How many of the calls are allowed. */
  function Allowed(w: Window, maxRequests: int, calls: seq<Call>): (n: nat)
    decreases |calls|
  {
    if calls == [] then 0
    else
      var w' := Step(w, calls[0]);
      (if w'.counter > maxRequests then 0 else 1) + Allowed(w', maxRequests, calls[1..])
  }

  /** The clock never runs backwards, and stands after the epoch. */
  predicate Timed(calls: seq<Call>) {
    && (forall k :: 0 <= k < |calls| ==> 0.0 < calls[k].t1 <= calls[k].t2 <= calls[k].t3)
    && (forall k, m :: 0 <= k < m < |calls| ==> calls[k].t3 <= calls[m].t1)
  }

  predicate Within(calls: seq<Call>, from: real, to: real) {
    forall k :: 0 <= k < |calls| ==> from <= calls[k].t1 && calls[k].t3 <= to
  }

  lemma {:induction false} CounterIsNatural(w: Window, calls: seq<Call>)
    requires 0 <= w.counter
    ensures 0 <= Final(w, calls).counter
    decreases |calls|
  {
    if calls != [] {
      CounterIsNatural(Step(w, calls[0]), calls[1..]);
    }
  }

  function Positive(x: int): (r: nat) {
    if x < 0 then 0 else x
  }

  /** What a stretch of calls starting at `from` can still be allowed: the rest of the current
      window and, if that window began before the stretch, one further window. */
  function Budget(w: Window, maxRequests: int, from: real): (r: nat) {
    if maxRequests < 0 then 0
    else Positive(maxRequests - w.counter) + (if from <= w.start then 0 else maxRequests + 1)
  }

  lemma {:induction false} AllowedWithinBudget(w: Window, maxRequests: int, calls: seq<Call>, from: real)
    requires 0 <= w.counter && Timed(calls) && 0.0 < from && Within(calls, from, from + 60.0)
    ensures Allowed(w, maxRequests, calls) <= Budget(w, maxRequests, from)
    decreases |calls|
  {
    if calls != [] {
      AllowedWithinBudget(Step(w, calls[0]), maxRequests, calls[1..], from);
    }
  }

  /** Over every run from the unset window: in any closed 60-second interval at most
      2 * max + 1 calls are allowed, and none when max is negative. */
  lemma SlidingWindowBound(maxRequests: int, before: seq<Call>, calls: seq<Call>, from: real)
    requires Timed(before + calls) && Within(calls, from, from + 60.0)
    ensures Allowed(Final(UNSET, before), maxRequests, calls) <= Positive(2 * maxRequests + 1)
  {
    CounterIsNatural(UNSET, before);
    assert forall k :: 0 <= k < |calls| ==> calls[k] == (before + calls)[|before| + k];
    if calls != [] {
      var w := Final(UNSET, before);
      var from' := calls[0].t1;
      assert 0.0 < from' && from <= from';
      AllowedWithinBudget(w, maxRequests, calls, from');
    }
  }

  // ----- one window -----

  /** All calls fall in the window `w` is in. */
  predicate SameWindow(w: Window, calls: seq<Call>) {
    w.start != 0.0 && forall k :: 0 <= k < |calls| ==> calls[k].t2 - 60.0 <= w.start
  }

  /** Inside one window exactly the calls that keep the counter at or below max are allowed:
      max per window, plus one for a window that a call has restarted (counter 0). */
  lemma {:induction false} AllowedInOneWindow(w: Window, maxRequests: int, calls: seq<Call>)
    requires 0 <= w.counter && SameWindow(w, calls)
    ensures Final(w, calls) == w.(counter := w.counter + |calls|)
    ensures Allowed(w, maxRequests, calls) ==
            if |calls| < Positive(maxRequests - w.counter) then |calls| else Positive(maxRequests - w.counter)
    decreases |calls|
  {
    if calls != [] {
      AllowedInOneWindow(Step(w, calls[0]), maxRequests, calls[1..]);
    }
  }

  /** The first window: of the calls within 60 seconds of the first one ever, the first max are
      allowed. */
  lemma FirstWindow(maxRequests: int, calls: seq<Call>)
    requires calls != [] && 0.0 < calls[0].t1 && forall k :: 0 <= k < |calls| ==> calls[k].t2 <= calls[0].t1 + 60.0
    ensures Final(UNSET, calls) == Window(|calls|, calls[0].t1)
    ensures Allowed(UNSET, maxRequests, calls) ==
            if |calls| < Positive(maxRequests) then |calls| else Positive(maxRequests)
  {
    var w := Window(0, calls[0].t1);
    assert Step(UNSET, calls[0]) == Step(w, calls[0]);
    AllowedInOneWindow(w, maxRequests, calls);
  }

  /** A call that restarts the window resets the counter to 0 and is itself allowed. A
      restarted window therefore lets max + 1 calls pass, one more than documented, exactly
      when at least max calls follow the restart. */
  lemma RestartedWindow(w: Window, maxRequests: nat, first: Call, calls: seq<Call>)
    requires w.start != 0.0 && first.t2 - 60.0 > w.start && first.t3 > 0.0
    requires SameWindow(Window(0, first.t3), calls)
    ensures Allowed(w, maxRequests, [first] + calls) ==
            1 + (if |calls| < maxRequests then |calls| else maxRequests)
    ensures Allowed(w, maxRequests, [first] + calls) > maxRequests <==> |calls| >= maxRequests
  {
    assert ([first] + calls)[1..] == calls;
    AllowedInOneWindow(Window(0, first.t3), maxRequests, calls);
  }

  // ----- the bound is reached -----

  function At(t: real, n: nat): (calls: seq<Call>) {
    seq(n, _ => Call(t, t, t))
  }

  /** A run that is allowed 2 * max + 1 calls within one second. */
  lemma BoundIsTight(maxRequests: nat)
    ensures var before := [Call(1.0, 1.0, 1.0), Call(62.0, 62.0, 62.0)];
            var calls := At(122.0, maxRequests) + ([Call(123.0, 123.0, 123.0)] + At(123.0, maxRequests));
            && Timed(before + calls) && Within(calls, 122.0, 123.0)
            && Allowed(Final(UNSET, before), maxRequests, calls) == 2 * maxRequests + 1
  {
    var before := [Call(1.0, 1.0, 1.0), Call(62.0, 62.0, 62.0)];
    var late := [Call(123.0, 123.0, 123.0)] + At(123.0, maxRequests);
    assert Final(UNSET, before) == Window(0, 62.0) by {
      assert before[1..] == [Call(62.0, 62.0, 62.0)];
      assert Step(UNSET, before[0]) == Window(1, 1.0);
      assert Step(Window(1, 1.0), before[1]) == Window(0, 62.0);
      assert before[1..][1..] == [];
    }
    AllowedInOneWindow(Window(0, 62.0), maxRequests, At(122.0, maxRequests));
    RestartedWindow(Window(maxRequests, 62.0), maxRequests, Call(123.0, 123.0, 123.0), At(123.0, maxRequests));
    AllowedConcat(Window(0, 62.0), maxRequests, At(122.0, maxRequests), late);
  }

  lemma {:induction false} AllowedConcat(w: Window, maxRequests: int, a: seq<Call>, b: seq<Call>)
    ensures Allowed(w, maxRequests, a + b) == Allowed(w, maxRequests, a) + Allowed(Final(w, a), maxRequests, b)
    decreases |a|
  {
    if a == [] {
      assert a + b == b;
    } else {
      assert (a + b)[1..] == a[1..] + b;
      AllowedConcat(Step(w, a[0]), maxRequests, a[1..], b);
    }
  }
}
