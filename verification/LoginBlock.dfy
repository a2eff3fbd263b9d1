/** Blocking the addresses that fail to log in to the API too often. A login is checked when it arrives and, if it
    was let through, ends later with a success or a failure; the logins of an address may overlap. */
module LoginBlock {

  datatype Stats = Stats(attempts: int, since: real)

  datatype State = State(stats: map<string, Stats>, blocked: set<string>)

  datatype Config = Config(maxAttempts: int, blockTime: real)

  /** A login arrives and is checked; a login that was let through ends. */
  datatype Event =
    | Arrive(host: string, now: real)
    | Fail(host: string, now: real)
    | Succeed(host: string)

  // ---------------------------------------------------------------- specification

  /** The block time of the host is over. */
  predicate IsOver(cfg: Config, s: State, host: string, now: real) {
    host in s.stats && now - cfg.blockTime >= s.stats[host].since
  }

  function Checked(cfg: Config, s: State, host: string, now: real): State {
    if IsOver(cfg, s, host, now) then State(s.stats - {host}, s.blocked - {host}) else s
  }

  function FailureNoted(cfg: Config, s: State, host: string, now: real): State {
    var st := if host in s.stats then Stats(s.stats[host].attempts + 1, s.stats[host].since) else Stats(1, now);
    State(s.stats[host := st], if st.attempts >= cfg.maxAttempts then s.blocked + {host} else s.blocked)
  }

  function Step(cfg: Config, s: State, e: Event): State {
    match e
    case Arrive(host, now) => Checked(cfg, s, host, now)
    case Fail(host, now) => FailureNoted(cfg, s, host, now)
    case Succeed(_) => s
  }

  /** The login that arrives is turned away. */
  predicate IsRejected(cfg: Config, s: State, e: Event) {
    e.Arrive? && e.host in Checked(cfg, s, e.host, e.now).blocked
  }

  class LoginGuard {
    var ipStats: map<string, Stats>
    var ipBlock: set<string>

    ghost function Abstract(): State
      reads this
    {
      State(ipStats, ipBlock)
    }

    constructor ()
      ensures Abstract() == State(map[], {})
    {
      ipStats, ipBlock := map[], {};
    }

    /** `check_blocked_ip`; the result says whether the request is turned away. */
    method CheckBlockedIp(cfg: Config, host: string, now: real) returns (rejected: bool)
      modifies this
      ensures Abstract() == Checked(cfg, old(Abstract()), host, now)
      ensures rejected <==> host in ipBlock
    {
      if host in ipStats && now - cfg.blockTime >= ipStats[host].since {
        ipStats := ipStats - {host};
        if host in ipBlock {
          ipBlock := ipBlock - {host};
        }
      }
      rejected := host in ipBlock;
    }

    /** `prevent_bruteforce_attack`. */
    method PreventBruteforceAttack(cfg: Config, host: string, now: real)
      modifies this
      ensures Abstract() == FailureNoted(cfg, old(Abstract()), host, now)
    {
      if host !in ipStats {
        ipStats := ipStats[host := Stats(1, now)];
      } else {
        ipStats := ipStats[host := Stats(ipStats[host].attempts + 1, ipStats[host].since)];
      }
      if ipStats[host].attempts >= cfg.maxAttempts {
        ipBlock := ipBlock + {host};
      }
    }
  }

  // ---------------------------------------------------------------- whole runs

  function Run(cfg: Config, s: State, es: seq<Event>): State
    decreases |es|
  {
    if es == [] then s else Run(cfg, Step(cfg, s, es[0]), es[1..])
  }

  function Max(a: int, b: int): int { if a < b then b else a }

  /** Every host with a record has failed at least once, and it is blocked exactly when it has failed as often as is
      allowed; nobody else is blocked. */
  ghost predicate Inv(cfg: Config, s: State) {
    && (forall h :: h in s.stats ==> 1 <= s.stats[h].attempts)
    && (forall h :: h in s.blocked <==> h in s.stats && s.stats[h].attempts >= cfg.maxAttempts)
  }

  lemma {:induction false} RunInv(cfg: Config, s: State, es: seq<Event>)
    requires Inv(cfg, s)
    ensures Inv(cfg, Run(cfg, s, es))
    decreases |es|
  {
    if es != [] {
      RunInv(cfg, Step(cfg, s, es[0]), es[1..]);
    }
  }

  // ---------------------------------------------------------------- what the records mean

  function Failures(es: seq<Event>, host: string): nat {
    if es == [] then 0
    else (if es[0].Fail? && es[0].host == host then 1 else 0) + Failures(es[1..], host)
  }

  /** Event `r` is a login of the host that arrives when the block time from failure `a` on is over. */
  predicate Ends(cfg: Config, es: seq<Event>, host: string, a: nat, r: nat)
    requires a < |es| && r < |es| && es[a].Fail?
  {
    a < r && es[r].Arrive? && es[r].host == host && es[r].now - cfg.blockTime >= es[a].now
  }

  /** A period of the host begins with failure `b`: all periods that began before it have ended. */
  ghost predicate Begins(cfg: Config, es: seq<Event>, host: string, b: nat)
    decreases b
  {
    && b < |es| && es[b].Fail? && es[b].host == host
    && forall a: nat :: a < b && Begins(cfg, es, host, a) ==> exists r: nat :: r < b && Ends(cfg, es, host, a, r)
  }

  /** The period that began with failure `b` goes on. */
  ghost predicate GoesOn(cfg: Config, es: seq<Event>, host: string, b: nat) {
    Begins(cfg, es, host, b) && forall r: nat :: r < |es| ==> !Ends(cfg, es, host, b, r)
  }

  lemma {:induction false} BeginsStays(cfg: Config, es: seq<Event>, e: Event, host: string, b: nat)
    requires b < |es|
    ensures Begins(cfg, es + [e], host, b) <==> Begins(cfg, es, host, b)
    decreases b
  {
    var es' := es + [e];
    assert es'[b] == es[b];
    forall a: nat | a < b ensures Begins(cfg, es', host, a) <==> Begins(cfg, es, host, a) {
      BeginsStays(cfg, es, e, host, a);
    }
    forall a: nat, r: nat | a < b && r < b && es[a].Fail?
      ensures Ends(cfg, es', host, a, r) <==> Ends(cfg, es, host, a, r)
    {
      assert es'[a] == es[a] && es'[r] == es[r];
    }
  }

  lemma {:induction false} GoesOnStays(cfg: Config, es: seq<Event>, e: Event, host: string, b: nat)
    requires b < |es|
    ensures GoesOn(cfg, es + [e], host, b) <==>
      GoesOn(cfg, es, host, b) && !Ends(cfg, es + [e], host, b, |es|)
  {
    var es' := es + [e];
    BeginsStays(cfg, es, e, host, b);
    hide Begins;
    BeginsIsFail(cfg, es, host, b);
    if es[b].Fail? {
      forall r: nat | r < |es| ensures Ends(cfg, es', host, b, r) <==> Ends(cfg, es, host, b, r) {
        assert es'[r] == es[r] && es'[b] == es[b];
      }
    }
  }

  lemma {:induction false} BeginsIsFail(cfg: Config, es: seq<Event>, host: string, b: nat)
    ensures Begins(cfg, es, host, b) ==> b < |es| && es[b].Fail? && es[b].host == host
  {
  }

  lemma {:induction false} RunOneMore(cfg: Config, s: State, es: seq<Event>, e: Event)
    ensures Run(cfg, s, es + [e]) == Step(cfg, Run(cfg, s, es), e)
    decreases |es|
  {
    if es == [] {
      assert es + [e] == [e] && [e][1..] == [];
    } else {
      RunOneMore(cfg, Step(cfg, s, es[0]), es[1..], e);
      assert (es + [e])[1..] == es[1..] + [e];
    }
  }

  lemma {:induction false} FailuresOneMore(es: seq<Event>, e: Event, host: string)
    ensures Failures(es + [e], host) == Failures(es, host) + if e.Fail? && e.host == host then 1 else 0
  {
    if es == [] {
      assert es + [e] == [e] && [e][1..] == [];
    } else {
      FailuresOneMore(es[1..], e, host);
      assert (es + [e])[1..] == es[1..] + [e];
    }
  }

  /** The record of a host: there is one exactly while a period of the host goes on, and it holds the time of the
      failure that it began with and the number of failures since. */
  ghost predicate RecordIs(cfg: Config, es: seq<Event>, host: string, stats: map<string, Stats>) {
    && (host in stats <==> exists b: nat :: GoesOn(cfg, es, host, b))
    && (forall b: nat :: b < |es| && GoesOn(cfg, es, host, b) ==>
          host in stats && es[b].Fail? && stats[host] == Stats(Failures(es[b..], host), es[b].now))
  }

  lemma {:induction false} NewPeriod(cfg: Config, es: seq<Event>, e: Event, host: string)
    requires e.Fail? && e.host == host
    ensures GoesOn(cfg, es + [e], host, |es|) <==> forall b: nat :: !GoesOn(cfg, es, host, b)
  {
    var es' := es + [e];
    forall a: nat | a < |es| ensures Begins(cfg, es', host, a) <==> Begins(cfg, es, host, a) {
      BeginsStays(cfg, es, e, host, a);
    }
    forall a: nat, r: nat | a < |es| && r < |es| && es[a].Fail?
      ensures Ends(cfg, es', host, a, r) <==> Ends(cfg, es, host, a, r)
    {
      assert es'[a] == es[a] && es'[r] == es[r];
    }
    if forall b: nat :: !GoesOn(cfg, es, host, b) {
      forall a: nat | a < |es| && Begins(cfg, es', host, a)
        ensures exists r: nat :: r < |es| && Ends(cfg, es', host, a, r)
      {
        assert !GoesOn(cfg, es, host, a);
        var r: nat :| r < |es| && Ends(cfg, es, host, a, r);
        assert Ends(cfg, es', host, a, r);
      }
      assert es'[|es|] == e;
      assert Begins(cfg, es', host, |es|);
      assert forall r: nat :: r < |es'| ==> !Ends(cfg, es', host, |es|, r);
    } else {
      var b: nat :| GoesOn(cfg, es, host, b);
      assert Begins(cfg, es', host, b) && forall r: nat :: r < |es| ==> !Ends(cfg, es', host, b, r);
    }
  }

  /** One more event. */
  lemma {:induction false} RecordOneMore(cfg: Config, es: seq<Event>, e: Event, host: string, s: State)
    requires RecordIs(cfg, es, host, s.stats)
    ensures RecordIs(cfg, es + [e], host, Step(cfg, s, e).stats)
  {
    hide GoesOn, Begins, Failures;
    var es', s' := es + [e], Step(cfg, s, e);
    forall b: nat | b < |es|
      ensures GoesOn(cfg, es', host, b) <==> GoesOn(cfg, es, host, b) && !Ends(cfg, es', host, b, |es|)
      ensures es'[b] == es[b]
      ensures Failures(es'[b..], host) == Failures(es[b..], host) + if e.Fail? && e.host == host then 1 else 0
    {
      GoesOnStays(cfg, es, e, host, b);
      assert es'[b..] == es[b..] + [e];
      FailuresOneMore(es[b..], e, host);
    }
    forall b: nat | GoesOn(cfg, es, host, b) || GoesOn(cfg, es', host, b) ensures b <= |es| {
      GoesOnIndex(cfg, es, host, b);
      GoesOnIndex(cfg, es', host, b);
    }
    forall b: nat | GoesOn(cfg, es, host, b) ensures b < |es| {
      GoesOnIndex(cfg, es, host, b);
    }
    if e.Fail? && e.host == host {
      NewPeriod(cfg, es, e, host);
      assert es'[|es|..] == [e] && es'[|es|] == e;
      OneFailure(e, host);
    } else {
      NoPeriod(cfg, es, e, host);
    }
  }

  lemma {:induction false} GoesOnIndex(cfg: Config, es: seq<Event>, host: string, b: nat)
    ensures GoesOn(cfg, es, host, b) ==> b < |es| && es[b].Fail? && es[b].host == host
  {
  }

  lemma {:induction false} NoPeriod(cfg: Config, es: seq<Event>, e: Event, host: string)
    requires !(e.Fail? && e.host == host)
    ensures !GoesOn(cfg, es + [e], host, |es|)
  {
    assert (es + [e])[|es|] == e;
  }

  lemma {:induction false} OneFailure(e: Event, host: string)
    ensures Failures([e], host) == if e.Fail? && e.host == host then 1 else 0
  {
    assert [e][1..] == [];
  }

  /** After every run from the start, the records mean what the events say. */
  lemma {:induction false} RecordMeaning(cfg: Config, es: seq<Event>, host: string)
    ensures RecordIs(cfg, es, host, Run(cfg, State(map[], {}), es).stats)
    decreases |es|
  {
    hide Step, GoesOn;
    if es == [] {
      NothingGoesOn(cfg, host);
    } else {
      var front, e := es[..|es| - 1], es[|es| - 1];
      assert es == front + [e];
      RecordMeaning(cfg, front, host);
      RunOneMore(cfg, State(map[], {}), front, e);
      RecordOneMore(cfg, front, e, host, Run(cfg, State(map[], {}), front));
    }
  }

  lemma {:induction false} NothingGoesOn(cfg: Config, host: string)
    ensures forall b: nat :: !GoesOn(cfg, [], host, b)
  {
  }

  /** After every run from the start, whatever the order of the logins and of the clock, a login is turned away exactly
      when a period of its address goes on in which it has failed as often as is allowed, and the block time from the
      first of these failures on is not over. */
  lemma {:induction false} RejectedIff(cfg: Config, es: seq<Event>, host: string, now: real)
    ensures IsRejected(cfg, Run(cfg, State(map[], {}), es), Arrive(host, now)) <==>
      exists b: nat ::
        && b < |es| && GoesOn(cfg, es, host, b) && es[b].Fail?
        && Failures(es[b..], host) >= cfg.maxAttempts && now - cfg.blockTime < es[b].now
  {
    hide GoesOn, Failures, Run;
    RunInv(cfg, State(map[], {}), es);
    RecordMeaning(cfg, es, host);
    forall b: nat | GoesOn(cfg, es, host, b) ensures b < |es| && es[b].Fail? {
      GoesOnIndex(cfg, es, host, b);
    }
  }

  // ---------------------------------------------------------------- how many failures get through

  /** How many logins of the host have been let through and have not ended. */
  function InFlight(cfg: Config, s: State, n: int, e: Event, host: string): int {
    if e.host != host || IsRejected(cfg, s, e) then n
    else if e.Arrive? then n + 1
    else n - 1
  }

  /** From `n` logins of the host in flight, there are never more than `k`, and only those end. */
  ghost predicate AtMost(cfg: Config, s: State, n: int, es: seq<Event>, host: string, k: int)
    decreases |es|
  {
    && 0 <= n <= k
    && (es == [] || AtMost(cfg, Step(cfg, s, es[0]), InFlight(cfg, s, n, es[0], host), es[1..], host, k))
  }

  /** The logins of the host arrive before the end of a block time that started at `since`. */
  ghost predicate Before(cfg: Config, es: seq<Event>, host: string, since: real) {
    forall i :: 0 <= i < |es| && es[i].Arrive? && es[i].host == host ==> es[i].now - cfg.blockTime < since
  }

  /** Until the end of the block time, the failures on record and the logins in flight stay under the bound
      together: once the address is blocked, only the logins in flight can still fail. */
  lemma {:induction false} RecordBounded(cfg: Config, s: State, n: int, es: seq<Event>, host: string, k: int)
    requires Inv(cfg, s) && host in s.stats && Before(cfg, es, host, s.stats[host].since)
    requires AtMost(cfg, s, n, es, host, k)
    requires s.stats[host].attempts + n < Max(1, cfg.maxAttempts) + k
    ensures s.stats[host].attempts + Failures(es, host) < Max(1, cfg.maxAttempts) + k
    decreases |es|
  {
    if es != [] {
      var e := es[0];
      var s1 := Step(cfg, s, e);
      var n1 := InFlight(cfg, s, n, e, host);
      assert host in s1.stats && s1.stats[host].since == s.stats[host].since by {
        assert e.Arrive? && e.host == host ==> !IsOver(cfg, s, host, e.now);
      }
      assert 0 <= n1 <= k;
      assert Before(cfg, es[1..], host, s1.stats[host].since) by {
        forall i | 0 <= i < |es| - 1 && es[1..][i].Arrive? && es[1..][i].host == host
          ensures es[1..][i].now - cfg.blockTime < s.stats[host].since
        {
          assert es[i + 1].host == host;
        }
      }
      RecordBounded(cfg, s1, n1, es[1..], host, k);
    }
  }

  /** From its first failure to the end of the block time, an address that never has more than `k` logins in flight
      fails fewer than `max(1, maxAttempts) + k` times: `max(1, maxAttempts)` times if its logins do not overlap. */
  lemma {:induction false} FailuresBounded(cfg: Config, s: State, n: int, first: Event, es: seq<Event>, k: int)
    requires Inv(cfg, s) && first.Fail? && first.host !in s.stats
    requires AtMost(cfg, s, n, [first] + es, first.host, k)
    requires Before(cfg, es, first.host, first.now)
    ensures Failures([first] + es, first.host) < Max(1, cfg.maxAttempts) + k
  {
    var s1 := Step(cfg, s, first);
    assert ([first] + es)[1..] == es;
    assert AtMost(cfg, s1, n - 1, es, first.host, k);
    assert s1.stats[first.host] == Stats(1, first.now);
    RecordBounded(cfg, s1, n - 1, es, first.host, k);
  }

  // ---------------------------------------------------------------- the bound is reached

  function Fails(host: string, now: real, n: nat): seq<Event> {
    if n == 0 then [] else [Fail(host, now)] + Fails(host, now, n - 1)
  }

  /** `rounds` times a login in flight fails and another one arrives; then the `k` logins in flight fail. */
  function Burst(host: string, now: real, rounds: nat, k: nat): seq<Event> {
    if rounds == 0 then Fails(host, now, k)
    else [Fail(host, now), Arrive(host, now)] + Burst(host, now, rounds - 1, k)
  }

  lemma {:induction false} FailsFit(cfg: Config, s: State, host: string, now: real, n: nat, k: nat)
    requires n <= k
    ensures AtMost(cfg, s, n, Fails(host, now, n), host, k)
    ensures Failures(Fails(host, now, n), host) == n
    ensures Before(cfg, Fails(host, now, n), host, now)
    decreases n
  {
    if n > 0 {
      var rest := Fails(host, now, n - 1);
      FailsFit(cfg, Step(cfg, s, Fail(host, now)), host, now, n - 1, k);
      assert Fails(host, now, n)[1..] == rest;
      assert forall i :: 0 < i <= |rest| ==> Fails(host, now, n)[i] == rest[i - 1];
    }
  }

  lemma {:induction false} BurstFits(cfg: Config, s: State, host: string, now: real, rounds: nat, k: nat)
    requires Inv(cfg, s) && cfg.blockTime > 0.0 && k > 0
    requires host in s.stats ==> s.stats[host].since == now && s.stats[host].attempts + rounds < cfg.maxAttempts
    requires host !in s.stats ==> rounds == 0 || rounds < cfg.maxAttempts
    ensures AtMost(cfg, s, k, Burst(host, now, rounds, k), host, k)
    ensures Failures(Burst(host, now, rounds, k), host) == rounds + k
    ensures Before(cfg, Burst(host, now, rounds, k), host, now)
    decreases rounds
  {
    if rounds == 0 {
      FailsFit(cfg, s, host, now, k, k);
    } else {
      var es := Burst(host, now, rounds, k);
      var rest := Burst(host, now, rounds - 1, k);
      var s1 := Step(cfg, s, es[0]);
      assert Step(cfg, s1, es[1]) == s1;
      BurstFits(cfg, s1, host, now, rounds - 1, k);
      assert es[1..][1..] == rest;
      assert forall i :: 1 < i < |es| ==> es[i] == rest[i - 2];
    }
  }

  /** The bound of `FailuresBounded` is exact. */
  lemma {:induction false} BoundIsReached(cfg: Config, s: State, host: string, now: real, k: nat)
    requires Inv(cfg, s) && host !in s.stats && k > 0 && cfg.blockTime > 0.0
    ensures exists es: seq<Event> ::
      && es != [] && es[0] == Fail(host, now)
      && AtMost(cfg, s, k, es, host, k) && Before(cfg, es[1..], host, now)
      && Failures(es, host) == Max(1, cfg.maxAttempts) + k - 1
  {
    var es := Burst(host, now, Max(1, cfg.maxAttempts) - 1, k);
    BurstFits(cfg, s, host, now, Max(1, cfg.maxAttempts) - 1, k);
    assert es[0] == Fail(host, now);
    assert Before(cfg, es[1..], host, now) by {
      assert forall i :: 0 <= i < |es| - 1 ==> es[1..][i] == es[i + 1];
    }
  }
}
