/** Connecting to a manager (src/client-agent/start_agent.c): retries on one server, an
    enrollment and one more try, then the next server in line, round and round until an ACK. */
module Failover {
  import Ring

  datatype Server = Server(maxRetries: int)

  /** What a handshake meets: no connection, a connection without ACK, or the ACK. */
  datatype Reply = Unreachable | NoAck | Ack

  /** The world: the reply to the t-th handshake if it goes to `server`, and whether enrolling
      with `server` works after t handshakes. */
  datatype World = World(reply: (nat, nat) -> Reply, enrolls: (nat, nat) -> bool)

  datatype Attempt = Attempt(server: nat, reply: Reply)

  datatype Setup = Setup(servers: seq<Server>, enrollment: bool, world: World, first: nat) {
    predicate Valid() {
      first < |servers|
    }

    /** Handshakes before enrolling: max_retries, and at least one. */
    function Tries(server: nat): (n: nat)
      requires server < |servers|
      ensures n >= 1
    {
      if servers[server].maxRetries < 1 then 1 else servers[server].maxRetries
    }

    /** Servers are visited cyclically from the first. */
    function Visited(v: nat): (server: nat)
      requires Valid()
      ensures server < |servers|
    {
      (first + v) % |servers|
    }

    /** One more handshake exactly when enrollment is on and succeeds. */
    function Quota(v: nat, t: nat): (n: nat)
      requires Valid()
      ensures n >= 1
    {
      var server := Visited(v);
      Tries(server) + if enrollment && world.enrolls(server, t + Tries(server)) then 1 else 0
    }

    /** The servers of the handshakes of the first `v` visits, if none is acknowledged. */
    function Plan(v: nat): (plan: seq<nat>)
      requires Valid()
    {
      if v == 0 then [] else Plan(v - 1) + Repeat(Visited(v - 1), Quota(v - 1, |Plan(v - 1)|))
    }

    predicate AckAt(plan: seq<nat>, t: nat)
      requires t < |plan|
    {
      world.reply(plan[t], t) == Ack
    }

    /** The world acknowledges some planned handshake of the first `v` visits. */
    ghost predicate AcksWithin(v: nat)
      requires Valid()
    {
      exists t :: 0 <= t < |Plan(v)| && AckAt(Plan(v), t)
    }
  }

  function Repeat(x: nat, n: nat): (r: seq<nat>)
    ensures |r| == n && forall k :: 0 <= k < n ==> r[k] == x
  {
    seq(n, _ => x)
  }

  function Servers(log: seq<Attempt>): (r: seq<nat>)
    ensures |r| == |log|
  {
    seq(|log|, k requires 0 <= k < |log| => log[k].server)
  }

  /** Handshakes made so far: on plan, answered by the world, none acknowledged. */
  ghost predicate Failing(s: Setup, log: seq<Attempt>, v: nat, k: nat)
    requires s.Valid()
  {
    && Servers(log) == s.Plan(v) + Repeat(s.Visited(v), k)
    && forall t :: 0 <= t < |log| ==> log[t].reply == s.world.reply(log[t].server, t) && log[t].reply != Ack
  }

  /** A finished log: the plan up to and including its first acknowledged handshake. */
  ghost predicate Finished(s: Setup, log: seq<Attempt>, v: nat)
    requires s.Valid()
  {
    && log != [] && Servers(log) <= s.Plan(v)
    && (forall t :: 0 <= t < |log| ==> log[t].reply == s.world.reply(log[t].server, t))
    && (forall t :: 0 <= t < |log| - 1 ==> log[t].reply != Ack)
    && log[|log| - 1].reply == Ack
  }

  /** The log visit by visit, in the configuration's own numbers: visit `v` begins at handshake
      `begin[v]` and goes to the server `v` places after the first, in a circle; it takes
      max_retries handshakes, at least one, and one more exactly when enrollment is on and
      succeeds after them. */
  ghost predicate InTurn(s: Setup, log: seq<Attempt>, visits: nat, begin: seq<nat>)
    requires s.Valid()
  {
    && |begin| == visits + 1 && begin[0] == 0
    && forall v :: 0 <= v < visits ==> OneTurn(s, log, v, begin[v], begin[v + 1])
  }

  ghost predicate OneTurn(s: Setup, log: seq<Attempt>, v: nat, from: nat, to: nat)
    requires s.Valid()
  {
    var server := (s.first + v) % |s.servers|;
    var most := s.servers[server].maxRetries;
    var tries := if most < 1 then 1 else most;
    && to == from + tries + (if s.enrollment && s.world.enrolls(server, from + tries) then 1 else 0)
    && forall t :: from <= t < to && t < |log| ==> log[t].server == server
  }

  class Agent {
    const setup: Setup
    var ripId: nat
    var connected: bool
    var log: seq<Attempt>

    ghost predicate Valid()
      reads this
    {
      setup.Valid() && ripId < |setup.servers|
    }

    constructor (s: Setup)
      requires s.Valid()
      ensures Valid() && setup == s && ripId == s.first && log == [] && !connected
    {
      setup, ripId, connected, log := s, s.first, false, [];
    }

    /** The old connection is closed first; the current server changes exactly on success. */
    method ConnectServer(server: nat, reachable: bool) returns (ok: bool)
      requires Valid() && server < |setup.servers|
      modifies this`ripId, this`connected
      ensures Valid() && ok == reachable == connected
      ensures ripId == if ok then server else old(ripId)
    {
      connected := false;
      if reachable {
        connected, ripId := true, server;
      }
      ok := connected;
    }

    method Handshake(server: nat) returns (acked: bool)
      requires Valid() && server < |setup.servers|
      modifies this
      ensures Valid()
      ensures log == old(log) + [Attempt(server, setup.world.reply(server, |old(log)|))]
      ensures acked <==> log[|log| - 1].reply == Ack
      ensures acked ==> ripId == server && connected
    {
      var reply := setup.world.reply(server, |log|);
      var ok := ConnectServer(server, reply != Unreachable);
      log := log + [Attempt(server, reply)];
      acked := ok && reply == Ack;
    }

    /** The endless loop, watched for `visits` visits, in any world: it has returned, connected
        to the server of the first acknowledged handshake of the plan, exactly when the world
        acknowledges one by then; otherwise every planned handshake was made and failed. */
    method StartAgent(visits: nat) returns (acked: bool)
      requires Valid() && log == [] && ripId == setup.first
      modifies this
      ensures Valid() && (acked <==> setup.AcksWithin(visits))
      ensures acked ==> connected && Finished(setup, log, visits) && ripId == log[|log| - 1].server
      ensures !acked ==> Failing(setup, log, visits, 0)
      ensures exists begin :: InTurn(setup, log, visits, begin) &&
                              if acked then |log| <= begin[visits] else |log| == begin[visits]
    {
      hide Setup.Visited, Setup.Plan, Setup.AcksWithin, Finished, Failing, InTurn;
      var current, v := ripId, 0;
      VisitZero(setup);
      while v < visits
        invariant Valid() && current == setup.Visited(v)
        invariant v <= visits && Failing(setup, log, v, 0)
      {
        acked := Visit(current, v, visits);
        if acked {
          FinishedInTurn(setup, log, visits);
          return;
        }
        NextVisit(setup, log, v);
        if current + 1 < |setup.servers| {
          current := current + 1;
        } else {
          current := 0;
        }
        v := v + 1;
      }
      NoAckYet(setup, log, v);
      FailingInTurn(setup, log, visits);
      acked := false;
    }

    /** One visit: the retries, then an enrollment and one more try. */
    method Visit(current: nat, ghost v: nat, ghost visits: nat) returns (acked: bool)
      requires Valid() && current == setup.Visited(v) && v < visits && Failing(setup, log, v, 0)
      modifies this
      ensures Valid()
      ensures if acked
              then && connected && Finished(setup, log, visits) && ripId == log[|log| - 1].server
                   && setup.AcksWithin(visits)
              else Failing(setup, log, v, setup.Quota(v, |setup.Plan(v)|))
    {
      hide Setup.Visited, Setup.Plan, Setup.AcksWithin, Finished;
      var attempts := 0;
      while attempts < setup.servers[current].maxRetries - 1
        invariant Valid() && 0 <= attempts <= setup.Tries(current) - 1
        invariant Failing(setup, log, v, attempts)
      {
        OneMore(setup, log, v, attempts, visits);
        acked := Handshake(current);
        if acked {
          return;
        }
        attempts := attempts + 1;
      }
      OneMore(setup, log, v, attempts, visits);
      acked := Handshake(current);
      if !acked && setup.enrollment && setup.world.enrolls(current, |log|) {
        OneMore(setup, log, v, attempts + 1, visits);
        acked := Handshake(current);
      }
    }
  }

  function Begins(s: Setup, visits: nat): (begin: seq<nat>)
    requires s.Valid()
    ensures |begin| == visits + 1 && forall v :: 0 <= v <= visits ==> begin[v] == |s.Plan(v)|
  {
    seq(visits + 1, v requires 0 <= v <= visits => |s.Plan(v)|)
  }

  /** One visit of the plan. */
  lemma PlannedVisit(s: Setup, v: nat, visits: nat)
    requires s.Valid() && v < visits
    ensures |s.Plan(v)| <= |s.Plan(v + 1)| <= |s.Plan(visits)|
    ensures forall t :: |s.Plan(v)| <= t < |s.Plan(v + 1)| ==> s.Plan(visits)[t] == s.Visited(v)
  {
    hide Setup.Quota, Setup.Visited;
    PlanGrows(s, v + 1, visits);
    assert s.Plan(v + 1) == s.Plan(v) + Repeat(s.Visited(v), s.Quota(v, |s.Plan(v)|));
  }

  lemma PlanGoesOn(s: Setup, v: nat)
    requires s.Valid()
    ensures |s.Plan(v + 1)| == |s.Plan(v)| + s.Quota(v, |s.Plan(v)|)
  {
    hide Setup.Quota, Setup.Visited;
  }

  lemma PlanOneTurn(s: Setup, log: seq<Attempt>, v: nat, visits: nat)
    requires s.Valid() && v < visits && Servers(log) <= s.Plan(visits)
    ensures OneTurn(s, log, v, |s.Plan(v)|, |s.Plan(v + 1)|)
  {
    hide Setup.Plan;
    PlannedVisit(s, v, visits);
    PlanGoesOn(s, v);
    assert forall t :: 0 <= t < |log| ==> log[t].server == Servers(log)[t];
  }

  lemma PlanInTurn(s: Setup, log: seq<Attempt>, visits: nat)
    requires s.Valid() && Servers(log) <= s.Plan(visits)
    ensures InTurn(s, log, visits, Begins(s, visits))
  {
    hide OneTurn;
    var begin := Begins(s, visits);
    forall v | 0 <= v < visits
      ensures OneTurn(s, log, v, begin[v], begin[v + 1])
    {
      PlanOneTurn(s, log, v, visits);
    }
  }

  lemma FailingInTurn(s: Setup, log: seq<Attempt>, visits: nat)
    requires s.Valid() && Failing(s, log, visits, 0)
    ensures exists begin :: InTurn(s, log, visits, begin) && |log| == begin[visits]
  {
    hide Setup.Plan, InTurn;
    assert s.Plan(visits) + Repeat(s.Visited(visits), 0) == s.Plan(visits);
    PlanInTurn(s, log, visits);
    assert |log| == Begins(s, visits)[visits];
  }

  lemma FinishedInTurn(s: Setup, log: seq<Attempt>, visits: nat)
    requires s.Valid() && Finished(s, log, visits)
    ensures exists begin :: InTurn(s, log, visits, begin) && |log| <= begin[visits]
  {
    hide Setup.Plan, InTurn;
    PlanInTurn(s, log, visits);
    assert |log| <= Begins(s, visits)[visits];
  }

  lemma VisitZero(s: Setup)
    requires s.Valid()
    ensures s.Visited(0) == s.first && Failing(s, [], 0, 0)
  {
  }

  lemma {:induction false} PlanGrows(s: Setup, v: nat, w: nat)
    requires s.Valid() && v <= w
    ensures s.Plan(v) <= s.Plan(w)
    decreases w
  {
    if v < w {
      PlanGrows(s, v, w - 1);
    }
  }

  lemma NoAckYet(s: Setup, log: seq<Attempt>, v: nat)
    requires s.Valid() && Failing(s, log, v, 0)
    ensures !s.AcksWithin(v)
  {
    assert Servers(log) == s.Plan(v);
    forall t | 0 <= t < |s.Plan(v)|
      ensures !s.AckAt(s.Plan(v), t)
    {
      assert log[t].server == Servers(log)[t];
    }
  }

  lemma FinishedAcks(s: Setup, log: seq<Attempt>, v: nat)
    requires s.Valid() && Finished(s, log, v)
    ensures s.AcksWithin(v)
  {
    var t := |log| - 1;
    assert Servers(log)[t] == s.Plan(v)[t] && log[t].server == Servers(log)[t];
    assert s.AckAt(s.Plan(v), t);
  }

  lemma OnPlan(s: Setup, v: nat, k: nat, visits: nat)
    requires s.Valid() && v < visits && k <= s.Quota(v, |s.Plan(v)|)
    ensures s.Plan(v) + Repeat(s.Visited(v), k) <= s.Plan(visits)
  {
    var block := Repeat(s.Visited(v), s.Quota(v, |s.Plan(v)|));
    PlanGrows(s, v + 1, visits);
    PartOfBlock(s.Plan(v), s.Visited(v), k, |block|, s.Plan(visits));
  }

  lemma PartOfBlock(p: seq<nat>, x: nat, k: nat, n: nat, whole: seq<nat>)
    requires k <= n && p + Repeat(x, n) <= whole
    ensures p + Repeat(x, k) <= whole
  {
  }

  lemma ServersSnoc(log: seq<Attempt>, a: Attempt, plan: seq<nat>, k: nat)
    requires Servers(log) == plan + Repeat(a.server, k)
    ensures Servers(log + [a]) == plan + Repeat(a.server, k + 1)
  {
    assert Servers(log + [a]) == Servers(log) + [a.server];
    assert Repeat(a.server, k) + [a.server] == Repeat(a.server, k + 1);
  }

  /** The next handshake of visit `v`: either it finishes the log or the visit goes on. */
  lemma OneMore(s: Setup, log: seq<Attempt>, v: nat, k: nat, visits: nat)
    requires s.Valid() && v < visits && Failing(s, log, v, k) && k < s.Quota(v, |s.Plan(v)|)
    ensures var server := s.Visited(v);
            var log' := log + [Attempt(server, s.world.reply(server, |log|))];
            if log'[|log|].reply == Ack then Finished(s, log', visits) && s.AcksWithin(visits)
            else Failing(s, log', v, k + 1)
  {
    hide Setup.Visited, Setup.Quota, Setup.Plan;
    OnPlan(s, v, k + 1, visits);
    var server := s.Visited(v);
    var log' := log + [Attempt(server, s.world.reply(server, |log|))];
    ServersSnoc(log, log'[|log|], s.Plan(v), k);
    if log'[|log|].reply == Ack {
      FinishedAcks(s, log', visits);
    }
  }

  lemma NextVisit(s: Setup, log: seq<Attempt>, v: nat)
    requires s.Valid() && Failing(s, log, v, s.Quota(v, |s.Plan(v)|))
    ensures Failing(s, log, v + 1, 0)
    ensures s.Visited(v + 1) == if s.Visited(v) + 1 < |s.servers| then s.Visited(v) + 1 else 0
  {
    assert s.Plan(v + 1) + Repeat(s.Visited(v + 1), 0) == s.Plan(v + 1);
    var n := |s.servers|;
    var q, r := (s.first + v) / n, (s.first + v) % n;
    assert s.first + v + 1 == q * n + (r + 1);
    if r + 1 < n {
      Ring.ModUnique(s.first + v + 1, q, r + 1, n);
    } else {
      Ring.ModUnique(s.first + v + 1, q + 1, 0, n);
    }
  }

  // ----- how long it can take -----

  /** The handshakes of the first `v` visits, at most. */
  function Allowance(s: Setup, from: nat, v: nat): (n: nat)
    requires |s.servers| > 0
  {
    if v == 0 then 0 else Allowance(s, from, v - 1) + s.Tries((from + v - 1) % |s.servers|) + 1
  }

  lemma {:induction false} PlanWithinAllowance(s: Setup, v: nat)
    requires s.Valid()
    ensures |s.Plan(v)| <= Allowance(s, s.first, v)
  {
    if v > 0 {
      PlanWithinAllowance(s, v - 1);
    }
  }

  lemma {:induction false} AllowanceGrows(s: Setup, from: nat, v: nat, w: nat)
    requires |s.servers| > 0 && v < w
    ensures Allowance(s, from, v) + 1 <= Allowance(s, from, w)
    decreases w
  {
    if v < w - 1 {
      AllowanceGrows(s, from, v, w - 1);
    }
  }

  /** A full round costs the same from wherever it starts. */
  lemma {:induction false} RoundIsRotationInvariant(s: Setup, from: nat)
    requires |s.servers| > 0
    ensures Allowance(s, from, |s.servers|) == Allowance(s, 0, |s.servers|)
  {
    if from > 0 {
      RoundIsRotationInvariant(s, from - 1);
      Shifted(s, from - 1, |s.servers|);
      Ring.ModUnique(from - 1 + |s.servers|, (from - 1) / |s.servers| + 1, (from - 1) % |s.servers|, |s.servers|);
    }
  }

  lemma {:induction false} Shifted(s: Setup, from: nat, v: nat)
    requires |s.servers| > 0
    ensures Allowance(s, from + 1, v) + s.Tries(from % |s.servers|) + 1 ==
            Allowance(s, from, v) + s.Tries((from + v) % |s.servers|) + 1
  {
    if v > 0 {
      Shifted(s, from, v - 1);
    }
  }

  /** What one round can take: for each server max_retries handshakes, at least one, and one
      more for an enrollment. */
  function RoundLimit(servers: seq<Server>): (n: nat) {
    if servers == [] then 0
    else
      var most := servers[|servers| - 1].maxRetries;
      RoundLimit(servers[..|servers| - 1]) + (if most < 1 then 1 else most) + 1
  }

  lemma {:induction false} RoundIsLimited(s: Setup, v: nat)
    requires |s.servers| > 0 && v <= |s.servers|
    ensures Allowance(s, 0, v) == RoundLimit(s.servers[..v])
  {
    if v > 0 {
      RoundIsLimited(s, v - 1);
      assert s.servers[..v][..v - 1] == s.servers[..v - 1];
      Ring.ModUnique(v - 1, 0, v - 1, |s.servers|);
    }
  }

  /** The visit that reaches `server`. */
  lemma ReachedInFirstRound(s: Setup, server: nat) returns (v: nat)
    requires s.Valid() && server < |s.servers|
    ensures v < |s.servers| && s.Visited(v) == server
  {
    var n := |s.servers|;
    if s.first <= server {
      v := server - s.first;
      Ring.ModUnique(s.first + v, 0, server, n);
    } else {
      v := server - s.first + n;
      Ring.ModUnique(s.first + v, 1, server, n);
    }
  }

  /** The first handshake of visit `v`. */
  lemma VisitBegins(s: Setup, v: nat, visits: nat)
    requires s.Valid() && v < visits
    ensures |s.Plan(v)| < |s.Plan(visits)| && s.Plan(visits)[|s.Plan(v)|] == s.Visited(v)
  {
  }

  /** If some server always acknowledges, the run ends within the first round: after at most
      the sum over all servers of max(1, max_retries) + 1 handshakes. */
  lemma BoundedFailover(s: Setup, server: nat, log: seq<Attempt>, visits: nat)
    requires s.Valid() && server < |s.servers| && forall t: nat :: s.world.reply(server, t) == Ack
    ensures s.AcksWithin(|s.servers|)
    ensures Finished(s, log, visits) ==> |log| <= RoundLimit(s.servers)
  {
    var v := ReachedInFirstRound(s, server);
    var n := |s.servers|;
    VisitBegins(s, v, n);
    assert s.AckAt(s.Plan(n), |s.Plan(v)|);
    if Finished(s, log, visits) {
      EndsByFirstAck(s, log, visits, n, |s.Plan(v)|);
      PlanWithinAllowance(s, v);
      AllowanceGrows(s, s.first, v, n);
      RoundIsRotationInvariant(s, s.first);
      RoundIsLimited(s, n);
      assert s.servers[..n] == s.servers;
    }
  }

  /** A finished log goes no further than any acknowledged handshake of the plan. */
  lemma EndsByFirstAck(s: Setup, log: seq<Attempt>, visits: nat, v: nat, t: nat)
    requires s.Valid() && Finished(s, log, visits) && t < |s.Plan(v)| && s.AckAt(s.Plan(v), t)
    ensures |log| <= t + 1
  {
    if v <= visits {
      PlanGrows(s, v, visits);
    } else {
      PlanGrows(s, visits, v);
    }
    if t < |log| {
      assert Servers(log)[t] == s.Plan(v)[t];
      assert log[t].server == Servers(log)[t];
    }
  }
}
