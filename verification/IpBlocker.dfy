/** The login guard of the API: check_blocked_ip (api/api/middlewares.py) lets an address in
    or not, and prevent_bruteforce_attack (api/api/error_handler.py) counts its failures.
    Each login request is handled as one step. */
module IpBlocker {

  type Ip = string

  datatype Stats = Stats(attempts: int, timestamp: real)

  datatype Guard = Guard(stats: map<Ip, Stats>, block: set<Ip>)

  /** A request with its two clock readings: at the check, and at the failure handler. */
  datatype Request = Request(path: string, verb: string, ip: Ip, checkTime: real, failTime: real, authorized: bool)

  datatype Response = Denied | Served | Rejected

  datatype Config = Config(maxAttempts: int, blockTime: real)

  predicate IsLogin(r: Request) {
    && (r.path == "/security/user/authenticate" || r.path == "/security/user/authenticate/run_as")
    && (r.verb == "GET" || r.verb == "POST")
  }

  // ----- one request -----

  /** An expired entry is forgotten before the address is tested. */
  function Expire(c: Config, g: Guard, ip: Ip, now: real): (g': Guard) {
    if ip in g.stats && now - c.blockTime >= g.stats[ip].timestamp
    then Guard(g.stats - {ip}, g.block - {ip})
    else g
  }

  function CountFailure(c: Config, g: Guard, ip: Ip, now: real): (g': Guard) {
    var s := if ip in g.stats then g.stats[ip].(attempts := g.stats[ip].attempts + 1) else Stats(1, now);
    Guard(g.stats[ip := s], if s.attempts >= c.maxAttempts then g.block + {ip} else g.block)
  }

  function Step(c: Config, g: Guard, r: Request): (res: (Guard, Response)) {
    if !IsLogin(r) then (g, if r.authorized then Served else Rejected)
    else
      var g1 := Expire(c, g, r.ip, r.checkTime);
      if r.ip in g1.block then (g1, Denied)
      else if r.authorized then (g1, Served)
      else (CountFailure(c, g1, r.ip, r.failTime), Rejected)
  }

  class LoginGuard {
    var ipStats: map<Ip, Stats>
    var ipBlock: set<Ip>

    ghost function View(): (g: Guard)
      reads this
    {
      Guard(ipStats, ipBlock)
    }

    constructor ()
      ensures View() == Guard(map[], {})
    {
      ipStats, ipBlock := map[], {};
    }

    /** check_blocked_ip: removing an address that was not blocked raises KeyError, after its
        statistics are gone; the error is swallowed. */
    method CheckBlocked(c: Config, ip: Ip, now: real) returns (blocked: bool)
      modifies this
      ensures View() == Expire(c, old(View()), ip, now) && (blocked <==> ip in ipBlock)
    {
      if ip in ipStats && now - c.blockTime >= ipStats[ip].timestamp {
        ipStats := ipStats - {ip};
        if ip in ipBlock {
          ipBlock := ipBlock - {ip};
        }
      }
      blocked := ip in ipBlock;
    }

    method PreventBruteforce(c: Config, ip: Ip, now: real)
      modifies this
      ensures View() == CountFailure(c, old(View()), ip, now)
    {
      if ip !in ipStats {
        ipStats := ipStats[ip := Stats(1, now)];
      } else {
        ipStats := ipStats[ip := ipStats[ip].(attempts := ipStats[ip].attempts + 1)];
      }
      if ipStats[ip].attempts >= c.maxAttempts {
        ipBlock := ipBlock + {ip};
      }
    }

    method Handle(c: Config, r: Request) returns (res: Response)
      modifies this
      ensures (View(), res) == Step(c, old(View()), r)
    {
      res := if r.authorized then Served else Rejected;
      if IsLogin(r) {
        var blocked := CheckBlocked(c, r.ip, r.checkTime);
        if blocked {
          res := Denied;
        } else if !r.authorized {
          PreventBruteforce(c, r.ip, r.failTime);
        }
      }
    }
  }

  // ----- runs -----

  /** Blocked addresses are tracked, and an address is blocked exactly when its count has
      reached the limit. */
  ghost predicate Inv(c: Config, g: Guard) {
    && g.block <= g.stats.Keys
    && forall ip :: ip in g.stats ==>
         g.stats[ip].attempts >= 1 && (ip in g.block <==> g.stats[ip].attempts >= c.maxAttempts)
  }

  lemma StepKeepsInv(c: Config, g: Guard, r: Request)
    requires Inv(c, g)
    ensures Inv(c, Step(c, g, r).0)
  {
  }

  function Final(c: Config, g: Guard, requests: seq<Request>): (g': Guard)
    decreases |requests|
  {
    if requests == [] then g else Final(c, Step(c, g, requests[0]).0, requests[1..])
  }

  lemma {:induction false} RunInvariant(c: Config, g: Guard, requests: seq<Request>)
    requires Inv(c, g)
    ensures Inv(c, Final(c, g, requests))
    decreases |requests|
  {
    if requests != [] {
      StepKeepsInv(c, g, requests[0]);
      RunInvariant(c, Step(c, g, requests[0]).0, requests[1..]);
    }
  }

  /** The failed logins of `ip` that were evaluated, that is, not denied beforehand. */
  function Failures(c: Config, g: Guard, requests: seq<Request>, ip: Ip): (n: nat)
    decreases |requests|
  {
    if requests == [] then 0
    else
      var (g', res) := Step(c, g, requests[0]);
      (if IsLogin(requests[0]) && requests[0].ip == ip && res == Rejected then 1 else 0)
      + Failures(c, g', requests[1..], ip)
  }

  predicate Within(requests: seq<Request>, from: real, to: real) {
    forall k :: 0 <= k < |requests| ==>
      from <= requests[k].failTime && requests[k].checkTime <= requests[k].failTime < to
  }

  function Limit(c: Config): (m: nat) {
    if c.maxAttempts < 1 then 1 else c.maxAttempts
  }

  /** What `ip` can still fail in a stretch that begins at `from`. */
  function Budget(c: Config, g: Guard, ip: Ip, from: real): (n: int) {
    if ip !in g.stats then Limit(c)
    else
      (if g.stats[ip].attempts < Limit(c) then Limit(c) - g.stats[ip].attempts else 0)
      + (if from <= g.stats[ip].timestamp then 0 else Limit(c))
  }

  lemma {:induction false} FailuresWithinBudget(c: Config, g: Guard, requests: seq<Request>, ip: Ip, from: real)
    requires Inv(c, g) && Within(requests, from, from + c.blockTime)
    ensures Failures(c, g, requests, ip) <= Budget(c, g, ip, from)
    decreases |requests|
  {
    if requests != [] {
      StepKeepsInv(c, g, requests[0]);
      FailuresWithinBudget(c, Step(c, g, requests[0]).0, requests[1..], ip, from);
    }
  }

  /** Over every run: in any half-open interval of blockTime seconds an address gets at most
      2 * max(1, maxAttempts) - 1 evaluated failures. */
  lemma BruteforceBound(c: Config, before: seq<Request>, requests: seq<Request>, ip: Ip, from: real)
    requires Within(requests, from, from + c.blockTime)
    ensures Failures(c, Final(c, Guard(map[], {}), before), requests, ip) <= 2 * Limit(c) - 1
  {
    RunInvariant(c, Guard(map[], {}), before);
    FailuresWithinBudget(c, Final(c, Guard(map[], {}), before), requests, ip, from);
  }

  /** A login is denied exactly while its address is blocked and its window's first failure
      is less than blockTime old. */
  lemma DeniedExactlyInBlockTime(c: Config, g: Guard, r: Request)
    requires Inv(c, g) && IsLogin(r)
    ensures Step(c, g, r).1 == Denied <==>
            r.ip in g.block && r.ip in g.stats && r.checkTime - c.blockTime < g.stats[r.ip].timestamp
  {
  }

  /** A blocked address stays blocked, with its window unmoved, through any traffic in which
      its own logins come early; its first login at or after blockTime is let through. */
  lemma {:induction false} BlockedUntilBlockTime(c: Config, g: Guard, requests: seq<Request>, ip: Ip, r: Request)
    requires Inv(c, g) && ip in g.block && IsLogin(r) && r.ip == ip
    requires forall k :: 0 <= k < |requests| && IsLogin(requests[k]) && requests[k].ip == ip ==>
               requests[k].checkTime - c.blockTime < g.stats[ip].timestamp
    ensures Failures(c, g, requests, ip) == 0
    ensures var g' := Final(c, g, requests);
            && ip in g'.block && ip in g'.stats && g'.stats[ip] == g.stats[ip]
            && (Step(c, g', r).1 != Denied <==> r.checkTime >= g.stats[ip].timestamp + c.blockTime)
    decreases |requests|
  {
    if requests != [] {
      StepKeepsInv(c, g, requests[0]);
      var g1 := Step(c, g, requests[0]).0;
      assert ip in g1.block && g1.stats[ip] == g.stats[ip];
      BlockedUntilBlockTime(c, g1, requests[1..], ip, r);
    }
  }

  // ----- who is counted -----

  /** The four kinds of login. */
  lemma LoginsAre(r: Request)
    ensures IsLogin(r) <==>
            (r.path, r.verb) in {("/security/user/authenticate", "GET"), ("/security/user/authenticate", "POST"),
                                 ("/security/user/authenticate/run_as", "GET"),
                                 ("/security/user/authenticate/run_as", "POST")}
  {
  }

  /** Neither a failed login of `ip`, nor a login of it after its window has expired. */
  predicate Harmless(c: Config, g: Guard, r: Request, ip: Ip) {
    || !IsLogin(r) || r.ip != ip
    || (r.authorized && (ip in g.stats ==> r.checkTime - c.blockTime < g.stats[ip].timestamp))
  }

  /** What is recorded of an address does not change through any harmless traffic, and while it
      is not blocked none of that traffic is denied to it. */
  lemma {:induction false} HarmlessTraffic(c: Config, g: Guard, requests: seq<Request>, ip: Ip)
    requires Inv(c, g) && forall k :: 0 <= k < |requests| ==> Harmless(c, g, requests[k], ip)
    ensures var g' := Final(c, g, requests);
            && (ip in g'.stats <==> ip in g.stats) && (ip in g.stats ==> g'.stats[ip] == g.stats[ip])
            && (ip in g'.block <==> ip in g.block)
    ensures forall k :: 0 <= k < |requests| && requests[k].ip == ip && ip !in g.block ==>
              Step(c, Final(c, g, requests[..k]), requests[k]).1 ==
              if requests[k].authorized then Served else Rejected
    decreases |requests|
  {
    if requests != [] {
      var last := |requests| - 1;
      var before := requests[..last];
      HarmlessTraffic(c, g, before, ip);
      FinalSnoc(c, g, before, requests[last]);
      assert requests == before + [requests[last]];
      RunInvariant(c, g, before);
      forall k | 0 <= k < last
        ensures requests[..k] == before[..k] && requests[k] == before[k]
      {
      }
    }
  }

  lemma {:induction false} FinalSnoc(c: Config, g: Guard, requests: seq<Request>, r: Request)
    ensures Final(c, g, requests + [r]) == Step(c, Final(c, g, requests), r).0
    decreases |requests|
  {
    hide Step;
    if requests == [] {
      assert [] + [r] == [r] && [r][1..] == [];
      assert Final(c, g, [r]) == Final(c, Step(c, g, r).0, []);
    } else {
      assert (requests + [r])[1..] == requests[1..] + [r];
      FinalSnoc(c, Step(c, g, requests[0]).0, requests[1..], r);
    }
  }

  /** A failed login of `ip` whose check falls within `blockTime` of `t`. */
  predicate FailsSoon(c: Config, r: Request, ip: Ip, t: real) {
    IsLogin(r) && r.ip == ip && !r.authorized && r.checkTime - c.blockTime < t
  }

  /** Failures are counted one by one: after n of them in one window an address that had none is
      recorded with min(n, limit) attempts from the first one's time, and is blocked exactly
      when n has reached the limit; up to the limit they are evaluated, the others denied. */
  lemma {:induction false} FailuresAreCounted(c: Config, g: Guard, requests: seq<Request>, ip: Ip)
    requires Inv(c, g) && ip !in g.stats && requests != []
    requires forall k :: 0 <= k < |requests| ==> FailsSoon(c, requests[k], ip, requests[0].failTime)
    ensures var g', n := Final(c, g, requests), |requests|;
            && ip in g'.stats
            && g'.stats[ip] == Stats(if n < Limit(c) then n else Limit(c), requests[0].failTime)
            && (ip in g'.block <==> n >= Limit(c))
    ensures forall k :: 0 <= k < |requests| ==>
              Step(c, Final(c, g, requests[..k]), requests[k]).1 == if k < Limit(c) then Rejected else Denied
    decreases |requests|
  {
    var last := |requests| - 1;
    var before := requests[..last];
    FinalSnoc(c, g, before, requests[last]);
    assert requests == before + [requests[last]];
    RunInvariant(c, g, before);
    if last > 0 {
      FailuresAreCounted(c, g, before, ip);
      forall k | 0 <= k < last
        ensures requests[..k] == before[..k] && requests[k] == before[k]
      {
      }
    }
  }

  // ----- the bound is reached -----

  function Attempt(ip: Ip, t: real): (r: Request) {
    Request("/security/user/authenticate", "GET", ip, t, t, false)
  }

  function Attempts(ip: Ip, t: real, n: nat): (r: seq<Request>) {
    seq(n, _ => Attempt(ip, t))
  }

  /** Inside one window the first failures up to the limit are all evaluated. */
  lemma {:induction false} FailuresInOneWindow(c: Config, g: Guard, ip: Ip, t: real, n: nat)
    requires Inv(c, g) && ip in g.stats && t - c.blockTime < g.stats[ip].timestamp
    requires g.stats[ip].attempts + n <= Limit(c)
    ensures Failures(c, g, Attempts(ip, t, n), ip) == n
    ensures var g' := Final(c, g, Attempts(ip, t, n));
            ip in g'.stats && g'.stats[ip].timestamp == g.stats[ip].timestamp
    decreases n
  {
    if n > 0 {
      StepKeepsInv(c, g, Attempt(ip, t));
      assert Attempts(ip, t, n)[1..] == Attempts(ip, t, n - 1);
      FailuresInOneWindow(c, Step(c, g, Attempt(ip, t)).0, ip, t, n - 1);
    }
  }

  lemma {:induction false} FailuresConcat(c: Config, g: Guard, a: seq<Request>, b: seq<Request>, ip: Ip)
    ensures Failures(c, g, a + b, ip) == Failures(c, g, a, ip) + Failures(c, Final(c, g, a), b, ip)
    decreases |a|
  {
    if a == [] {
      assert a + b == b;
    } else {
      assert (a + b)[1..] == a[1..] + b;
      FailuresConcat(c, Step(c, g, a[0]).0, a[1..], b, ip);
    }
  }

  /** A window's worth of failures, evaluated in full once the old window has expired. */
  lemma FreshWindow(c: Config, g: Guard, ip: Ip, t: real)
    requires Inv(c, g) && 0.0 < c.blockTime && ip in g.stats && t - c.blockTime >= g.stats[ip].timestamp
    ensures Failures(c, g, Attempts(ip, t, Limit(c)), ip) == Limit(c)
  {
    var g1 := Step(c, g, Attempt(ip, t)).0;
    StepKeepsInv(c, g, Attempt(ip, t));
    assert Attempts(ip, t, Limit(c))[1..] == Attempts(ip, t, Limit(c) - 1);
    FailuresInOneWindow(c, g1, ip, t, Limit(c) - 1);
  }

  /** For every limit and block time some run reaches the bound. */
  lemma BoundIsTight(c: Config, ip: Ip)
    requires 0.0 < c.blockTime
    ensures var before, half := [Attempt(ip, 0.0)], c.blockTime / 2.0;
            var requests := Attempts(ip, half, Limit(c) - 1) + Attempts(ip, c.blockTime, Limit(c));
            && Within(requests, half, half + c.blockTime)
            && Failures(c, Final(c, Guard(map[], {}), before), requests, ip) == 2 * Limit(c) - 1
  {
    var before, half := [Attempt(ip, 0.0)], c.blockTime / 2.0;
    var early := Attempts(ip, half, Limit(c) - 1);
    var g := Final(c, Guard(map[], {}), before);
    var first := Step(c, Guard(map[], {}), before[0]).0;
    assert g == Final(c, first, []) == first by {
      assert before[1..] == [];
    }
    RunInvariant(c, Guard(map[], {}), before);
    FailuresInOneWindow(c, g, ip, half, Limit(c) - 1);
    RunInvariant(c, g, early);
    FreshWindow(c, Final(c, g, early), ip, c.blockTime);
    FailuresConcat(c, g, early, Attempts(ip, c.blockTime, Limit(c)), ip);
  }
}
