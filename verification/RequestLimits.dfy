/** The two limits on API requests together: the general one counts every request, the other one those for `/events`,
    and the second verdict on such a request overwrites the first. */
module RequestLimits {
  import opened RateLimit

  datatype Request = Request(isEvents: bool, general: Clock, events: Clock)

  datatype Limits = Limits(general: Limiter, events: Limiter)

  /** `CheckRateLimitsMiddleware.dispatch`: the limit on `/events` overwrites the verdict of the general one. */
  function Dispatch(s: Limits, r: Request, max: int): (Limits, int) {
    var g := if Accepts(s.general, r.general, max) then 0 else GENERAL_ERROR;
    if r.isEvents then
      (Limits(Counted(s.general, r.general), Counted(s.events, r.events)),
       if Accepts(s.events, r.events, MAX_EVENTS) then 0 else EVENTS_ERROR)
    else (Limits(Counted(s.general, r.general), s.events), g)
  }

  /** Both limits on one request. */
  method Handle(general: Counter, events: Counter, r: Request, max: int) returns (code: int)
    requires general != events
    modifies general, events
    ensures (Limits(general.Abstract(), events.Abstract()), code) ==
            Dispatch(old(Limits(general.Abstract(), events.Abstract())), r, max)
    ensures code == 0 || code == if r.isEvents then 6005 else 6001
  {
    code := general.Check(r.general, max, GENERAL_ERROR);
    if r.isEvents {
      code := events.Check(r.events, MAX_EVENTS, EVENTS_ERROR);
    }
  }

  function RunLimits(rs: seq<Request>, max: int): Limits {
    if rs == [] then Limits(Limiter(0, 0.0), Limiter(0, 0.0))
    else Dispatch(RunLimits(rs[..|rs| - 1], max), rs[|rs| - 1], max).0
  }

  function GeneralClocks(rs: seq<Request>): seq<Clock> {
    seq(|rs|, i requires 0 <= i < |rs| => rs[i].general)
  }

  function EventsClocks(rs: seq<Request>): seq<Clock> {
    if rs == [] then []
    else
      EventsClocks(rs[..|rs| - 1]) + if rs[|rs| - 1].isEvents then [rs[|rs| - 1].events] else []
  }

  lemma {:induction false} AfterPrefix(a: seq<Clock>, b: seq<Clock>, k: nat)
    requires k <= |a| && a <= b
    ensures After(a, k) == After(b, k)
  {
    if k > 0 {
      AfterPrefix(a, b, k - 1);
    }
  }

  /** The general limiter counts every request, the other one exactly the requests for `/events`. */
  lemma {:induction false} LimitersAreIndependent(rs: seq<Request>, max: int)
    ensures var s := RunLimits(rs, max);
      && s.general == After(GeneralClocks(rs), |rs|)
      && s.events == After(EventsClocks(rs), |EventsClocks(rs)|)
  {
    if rs != [] {
      var front := rs[..|rs| - 1];
      LimitersAreIndependent(front, max);
      assert GeneralClocks(rs)[..|front|] == GeneralClocks(front);
      AfterPrefix(GeneralClocks(front), GeneralClocks(rs), |front|);
      if !rs[|rs| - 1].isEvents {
        assert EventsClocks(rs) == EventsClocks(front);
      } else {
        AfterPrefix(EventsClocks(front), EventsClocks(rs), |EventsClocks(front)|);
      }
    }
  }

  // ---------------------------------------------------------------- what both accept

  /** The answer to request number `k`. */
  function Code(rs: seq<Request>, k: nat, max: int): int
    requires k < |rs|
  {
    Dispatch(RunLimits(rs[..k], max), rs[k], max).1
  }

  /** The number of requests of one kind accepted from number `i` to number `j`. */
  function Passed(rs: seq<Request>, i: nat, j: nat, max: int, isEvents: bool): nat
    requires i <= j <= |rs|
    decreases j - i
  {
    if i == j then 0
    else
      Passed(rs, i, j - 1, max, isEvents) + if rs[j - 1].isEvents == isEvents && Code(rs, j - 1, max) == 0 then 1 else 0
  }

  /** How many of the first `k` requests are for `/events`. */
  function EventsBefore(rs: seq<Request>, k: nat): nat
    requires k <= |rs|
  {
    |EventsClocks(rs[..k])|
  }

  /** The clock is positive and never goes back, within a request and from one to the next. */
  ghost predicate RunClockOk(rs: seq<Request>) {
    && (forall i :: 0 <= i < |rs| ==> 0.0 < rs[i].general.t1 <= rs[i].general.t2 <= rs[i].general.t3)
    && (forall i :: 0 <= i < |rs| && rs[i].isEvents ==>
          rs[i].general.t3 <= rs[i].events.t1 <= rs[i].events.t2 <= rs[i].events.t3)
    && (forall i, j :: 0 <= i < j < |rs| ==> Last(rs[i]).t3 <= rs[j].general.t1)
  }

  /** The last readings of a request. */
  function Last(r: Request): Clock { if r.isEvents then r.events else r.general }

  lemma {:induction false} EventsOfPrefix(rs: seq<Request>, k: nat)
    requires k <= |rs|
    ensures EventsClocks(rs[..k]) <= EventsClocks(rs)
    ensures k < |rs| ==>
      EventsClocks(rs[..k + 1]) == EventsClocks(rs[..k]) + if rs[k].isEvents then [rs[k].events] else []
    decreases |rs| - k
  {
    if k < |rs| {
      EventsOfPrefix(rs, k + 1);
      assert rs[..k + 1][..k] == rs[..k];
    } else {
      assert rs[..k] == rs;
    }
  }

  lemma {:induction false} EventsGrow(rs: seq<Request>, i: nat, j: nat)
    requires i <= j <= |rs|
    ensures EventsBefore(rs, i) <= EventsBefore(rs, j) <= |EventsClocks(rs)|
    decreases j - i
  {
    hide EventsClocks;
    EventsOfPrefix(rs, j);
    if i < j {
      EventsOfPrefix(rs, j - 1);
      EventsGrow(rs, i, j - 1);
    }
  }

  /** The request that an entry of the clocks of `/events` belongs to. */
  lemma {:induction false} RequestOf(rs: seq<Request>, m: nat, i: nat, j: nat) returns (k: nat)
    requires i <= j <= |rs| && EventsBefore(rs, i) <= m < EventsBefore(rs, j)
    ensures i <= k < j && rs[k].isEvents && EventsBefore(rs, k) == m
    ensures m < |EventsClocks(rs)| && EventsClocks(rs)[m] == rs[k].events
    decreases j - i
  {
    hide EventsClocks;
    EventsOfPrefix(rs, j);
    EventsOfPrefix(rs, j - 1);
    if m < EventsBefore(rs, j - 1) {
      k := RequestOf(rs, m, i, j - 1);
    } else {
      k := j - 1;
      assert EventsClocks(rs[..j])[m] == rs[k].events;
    }
  }

  /** Requests that are not for `/events` are judged by the general limit, which counts all requests. */
  lemma {:induction false} OthersAreGeneral(rs: seq<Request>, i: nat, j: nat, max: int)
    requires i <= j <= |rs|
    ensures Passed(rs, i, j, max, false) <= Accepted(GeneralClocks(rs), i, j, max)
    decreases j - i
  {
    hide Accepts, Counted, After, RunLimits;
    if i < j {
      OthersAreGeneral(rs, i, j - 1, max);
      LimitersAreIndependent(rs[..j - 1], max);
      assert GeneralClocks(rs[..j - 1]) <= GeneralClocks(rs);
      AfterPrefix(GeneralClocks(rs[..j - 1]), GeneralClocks(rs), j - 1);
    }
  }

  /** Requests for `/events` are judged by their own limit alone, whatever the general one is. */
  lemma {:induction false} EventsAreTheirOwn(rs: seq<Request>, i: nat, j: nat, max: int)
    requires i <= j <= |rs| && EventsBefore(rs, i) <= EventsBefore(rs, j) <= |EventsClocks(rs)|
    ensures Passed(rs, i, j, max, true) ==
            Accepted(EventsClocks(rs), EventsBefore(rs, i), EventsBefore(rs, j), MAX_EVENTS)
    decreases j - i
  {
    hide Accepts, Counted, After, RunLimits, EventsClocks;
    if i < j {
      EventsGrow(rs, i, j - 1);
      EventsAreTheirOwn(rs, i, j - 1, max);
      EventsOfPrefix(rs, j - 1);
      if rs[j - 1].isEvents {
        LimitersAreIndependent(rs[..j - 1], max);
        AfterPrefix(EventsClocks(rs[..j - 1]), EventsClocks(rs), EventsBefore(rs, j - 1));
        EventsOfPrefix(rs, j);
      }
    }
  }

  lemma {:induction false} GeneralClockOk(rs: seq<Request>)
    requires RunClockOk(rs)
    ensures ClockOk(GeneralClocks(rs))
  {
  }

  lemma {:induction false} EventsClockOk(rs: seq<Request>)
    requires RunClockOk(rs)
    ensures ClockOk(EventsClocks(rs))
  {
    hide EventsClocks;
    var cs := EventsClocks(rs);
    assert rs[..|rs|] == rs && EventsBefore(rs, 0) == 0 by {
      EventsOfNone(rs);
    }
    forall m | 0 <= m < |cs| ensures 0.0 < cs[m].t1 <= cs[m].t2 <= cs[m].t3 {
      var k := RequestOf(rs, m, 0, |rs|);
    }
    forall m, n | 0 <= m < n < |cs| ensures cs[m].t3 <= cs[n].t1 {
      var k := RequestOf(rs, m, 0, |rs|);
      var l := RequestOf(rs, n, 0, |rs|);
      if l <= k {
        EventsGrow(rs, l, k);
      }
    }
  }

  lemma {:induction false} EventsOfNone(rs: seq<Request>)
    ensures rs[..0] == [] && EventsClocks(rs[..0]) == []
  {
  }

  /** In any minute the API accepts at most `2 max + 1` requests, and besides them `61` requests for `/events`, whatever
      `max` is. */
  lemma {:induction false} MinuteOfBoth(rs: seq<Request>, i: nat, j: nat, max: int)
    requires i < j <= |rs| && RunClockOk(rs)
    requires Last(rs[j - 1]).t2 - rs[i].general.t2 <= 60.0
    ensures Passed(rs, i, j, max, false) <= PerMinute(max)
    ensures Passed(rs, i, j, max, true) <= 61
  {
    hide Accepted, EventsClocks, Passed;
    GeneralClockOk(rs);
    OthersAreGeneral(rs, i, j, max);
    assert GeneralClocks(rs)[j - 1].t2 <= Last(rs[j - 1]).t2;
    MinuteBound(GeneralClocks(rs), i, j, max);
    EventsGrow(rs, i, j);
    EventsAreTheirOwn(rs, i, j, max);
    var m, n := EventsBefore(rs, i), EventsBefore(rs, j);
    if m < n {
      EventsClockOk(rs);
      var k := RequestOf(rs, m, i, j);
      var l := RequestOf(rs, n - 1, i, j);
      ReadInOrder(rs, i, k, l, j);
      MinuteBound(EventsClocks(rs), m, n, MAX_EVENTS);
    } else {
      NoneAccepted(EventsClocks(rs), m);
    }
  }

  lemma {:induction false} ReadInOrder(rs: seq<Request>, i: nat, k: nat, l: nat, j: nat)
    requires i <= k < j <= |rs| && i <= l < j && rs[k].isEvents && rs[l].isEvents && RunClockOk(rs)
    ensures rs[i].general.t2 <= rs[k].events.t2 && rs[l].events.t2 <= Last(rs[j - 1]).t2
  {
    if i < k {
      assert Last(rs[i]).t3 <= rs[k].general.t1;
    }
    if l < j - 1 {
      assert Last(rs[l]).t3 <= rs[j - 1].general.t1;
    }
  }

  lemma {:induction false} NoneAccepted(cs: seq<Clock>, m: nat)
    requires m <= |cs|
    ensures Accepted(cs, m, m, MAX_EVENTS) == 0
  {
  }

  /** What is accepted on `/events` does not depend on the general limit. */
  lemma {:induction false} EventsIgnoreMax(rs: seq<Request>, i: nat, j: nat, max: int, max': int)
    requires i <= j <= |rs|
    ensures Passed(rs, i, j, max, true) == Passed(rs, i, j, max', true)
  {
    EventsGrow(rs, i, j);
    EventsAreTheirOwn(rs, i, j, max);
    EventsAreTheirOwn(rs, i, j, max');
  }

  // ---------------------------------------------------------------- both bounds are reached at once

  function At(t: real, isEvents: bool): Request {
    var c := Clock(t, t, t);
    Request(isEvents, c, c)
  }

  function TimeAt(n: nat, k: nat): real {
    if k == 0 then 1.0 else if k == 1 then 61.5 else if k == 2 then 121.4 else if k == 3 then 121.6
    else if k < n + 34 then 181.4 else 181.7
  }

  function RequestAt(n: nat, k: nat): Request {
    At(TimeAt(n, k), k == 0 || k == 2 || n + 4 <= k < n + 34 || 2 * n + 35 <= k)
  }

  lemma {:induction false} TimesGrow(n: nat, i: nat, j: nat)
    requires i <= j
    ensures 0.0 < TimeAt(n, i) <= TimeAt(n, j)
  {
  }

  /** The window of `/events` starts at 121.4 and that of all requests at 121.6. At 181.4 both are used up, first by
      other requests; at 181.7 both start anew and are used up again. */
  function Rush(n: nat): seq<Request> { seq(2 * n + 66, k requires 0 <= k => RequestAt(n, k)) }

  /** The limiters before request `k`. */
  function RushLimits(n: nat, k: nat): Limits
    requires 4 <= k
  {
    if k <= n + 4 then Limits(Limiter(k - 4, 121.6), Limiter(0, 121.4))
    else if k <= n + 34 then Limits(Limiter(k - 4, 121.6), Limiter(k - n - 4, 121.4))
    else if k <= 2 * n + 35 then Limits(Limiter(k - n - 35, 181.7), Limiter(MAX_EVENTS, 121.4))
    else Limits(Limiter(k - n - 35, 181.7), Limiter(k - 2 * n - 36, 181.7))
  }

  lemma {:induction false} RushStart(n: nat)
    ensures RunLimits(Rush(n)[..4], n) == RushLimits(n, 4)
  {
    var rs := Rush(n);
    var s1, s2, s3 := Limits(Limiter(1, 1.0), Limiter(1, 1.0)), Limits(Limiter(0, 61.5), Limiter(1, 1.0)),
      Limits(Limiter(1, 61.5), Limiter(0, 121.4));
    RunNone(rs, n);
    RunOneMore(rs, 0, n);
    assert RunLimits(rs[..1], n) == s1;
    RunOneMore(rs, 1, n);
    assert RunLimits(rs[..2], n) == s2;
    RunOneMore(rs, 2, n);
    assert RunLimits(rs[..3], n) == s3;
    RunOneMore(rs, 3, n);
  }

  lemma {:induction false} RunNone(rs: seq<Request>, max: int)
    ensures RunLimits(rs[..0], max) == Limits(Limiter(0, 0.0), Limiter(0, 0.0))
  {
  }

  lemma {:induction false} RunOneMore(rs: seq<Request>, k: nat, max: int)
    requires k < |rs|
    ensures RunLimits(rs[..k + 1], max) == Dispatch(RunLimits(rs[..k], max), rs[k], max).0
  {
    hide Dispatch;
    assert rs[..k + 1][..k] == rs[..k];
  }

  lemma {:induction false} RushStep(n: nat, k: nat)
    requires 4 <= k < 2 * n + 66
    ensures Dispatch(RushLimits(n, k), RequestAt(n, k), n) == (RushLimits(n, k + 1), 0)
  {
  }

  lemma {:induction false} RushPasses(n: nat, k: nat)
    requires 4 <= k <= 2 * n + 66
    ensures RunLimits(Rush(n)[..k], n) == RushLimits(n, k)
    ensures Passed(Rush(n), 4, k, n, false) + Passed(Rush(n), 4, k, n, true) == k - 4
    ensures Passed(Rush(n), 4, k, n, true) ==
      if k <= n + 4 then 0 else if k <= n + 34 then k - n - 4 else if k <= 2 * n + 35 then 30 else k - 2 * n - 5
    decreases k
  {
    hide Dispatch, RushLimits, RunLimits;
    if k == 4 {
      RushStart(n);
    } else {
      RushPasses(n, k - 1);
      RunOneMore(Rush(n), k - 1, n);
      RushStep(n, k - 1);
    }
  }

  /** The two bounds of `MinuteOfBoth` are reached at once, for every limit. */
  lemma {:induction false} MinuteOfBothIsReached(n: nat)
    ensures exists rs: seq<Request>, i: nat, j: nat ::
      && i < j <= |rs| && RunClockOk(rs) && Last(rs[j - 1]).t2 - rs[i].general.t2 <= 60.0
      && Passed(rs, i, j, n, false) == PerMinute(n) && Passed(rs, i, j, n, true) == 61
  {
    hide Passed;
    var rs := Rush(n);
    RushPasses(n, |rs|);
    RushClockOk(n);
    assert rs[4].general.t2 == 181.4;
    assert Last(rs[|rs| - 1]).t2 == 181.7;
  }

  lemma {:induction false} RushClockOk(n: nat)
    ensures RunClockOk(Rush(n))
  {
    hide TimeAt;
    var rs := Rush(n);
    forall i | 0 <= i < |rs|
      ensures Last(rs[i]) == rs[i].general == rs[i].events == Clock(TimeAt(n, i), TimeAt(n, i), TimeAt(n, i))
      ensures 0.0 < TimeAt(n, i)
    {
      TimesGrow(n, i, i);
    }
    forall i, j | 0 <= i < j < |rs| ensures Last(rs[i]).t3 <= rs[j].general.t1 {
      TimesGrow(n, i, j);
    }
  }
}
