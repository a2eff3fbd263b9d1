/** The limit on API requests per minute. A check reads the clock up to three times; the readings are inputs. */
module RateLimit {

  const WINDOW := 60.0
  const MAX_EVENTS := 30
  const GENERAL_ERROR := 6001
  const EVENTS_ERROR := 6005

  /** A counter and the start of its counting window, 0.0 as long as there is none. */
  datatype Limiter = Limiter(counter: int, start: real)

  datatype Clock = Clock(t1: real, t2: real, t3: real)

  /** The window that a call falls into starts anew. */
  predicate Resets(s: Limiter, c: Clock) { !(c.t2 - WINDOW <= if s.start == 0.0 then c.t1 else s.start) }

  function Counted(s: Limiter, c: Clock): Limiter {
    if Resets(s, c) then Limiter(0, c.t3)
    else Limiter(s.counter + 1, if s.start == 0.0 then c.t1 else s.start)
  }

  predicate Accepts(s: Limiter, c: Clock, max: int) { !(Counted(s, c).counter > max) }

  class Counter {
    var counter: int
    var start: real

    ghost function Abstract(): Limiter
      reads this
    {
      Limiter(counter, start)
    }

    constructor ()
      ensures Abstract() == Limiter(0, 0.0)
    {
      counter, start := 0, 0.0;
    }

    /** `check_rate_limit`. */
    method Check(c: Clock, max: int, errorCode: int) returns (code: int)
      modifies this
      ensures Abstract() == Counted(old(Abstract()), c)
      ensures code == if Accepts(old(Abstract()), c, max) then 0 else errorCode
    {
      if start == 0.0 {
        start := c.t1;
      }
      if c.t2 - WINDOW <= start {
        counter := counter + 1;
      } else {
        counter := 0;
        start := c.t3;
      }
      if counter > max {
        return errorCode;
      }
      return 0;
    }
  }

  // ---------------------------------------------------------------- whole runs

  /** The clock never goes back. */
  ghost predicate ClockOk(cs: seq<Clock>) {
    && (forall i :: 0 <= i < |cs| ==> 0.0 < cs[i].t1 <= cs[i].t2 <= cs[i].t3)
    && (forall i, j :: 0 <= i < j < |cs| ==> cs[i].t3 <= cs[j].t1)
  }

  /** The limiter after the first `k` calls. */
  function After(cs: seq<Clock>, k: nat): Limiter
    requires k <= |cs|
  {
    if k == 0 then Limiter(0, 0.0) else Counted(After(cs, k - 1), cs[k - 1])
  }

  /** The number of calls accepted from number `i` to number `j`. */
  function Accepted(cs: seq<Clock>, i: nat, j: nat, max: int): (n: nat)
    requires i <= j <= |cs|
    decreases j - i
  {
    if i == j then 0
    else Accepted(cs, i, j - 1, max) + if Accepts(After(cs, j - 1), cs[j - 1], max) then 1 else 0
  }

  function Quota(max: int): nat { if max < 0 then 0 else max + 1 }

  lemma {:induction false} AcceptedSplit(cs: seq<Clock>, i: nat, p: nat, j: nat, max: int)
    requires i <= p <= j <= |cs|
    ensures Accepted(cs, i, j, max) == Accepted(cs, i, p, max) + Accepted(cs, p, j, max)
    decreases j - p
  {
    if p < j {
      AcceptedSplit(cs, i, p, j - 1, max);
    }
  }

  lemma {:induction false} CounterNatural(cs: seq<Clock>, k: nat)
    requires k <= |cs|
    ensures After(cs, k).counter >= 0
  {
    if k > 0 {
      CounterNatural(cs, k - 1);
    }
  }

  /** Within one counting window at most `max + 1` calls are accepted, and at most `max` without the call that
      starts it. */
  lemma {:induction false} WindowBound(cs: seq<Clock>, i: nat, j: nat, max: int)
    requires i <= j <= |cs|
    requires forall k :: i < k < j ==> !Resets(After(cs, k), cs[k])
    ensures Accepted(cs, i, j, max) <= Quota(max)
    ensures Accepted(cs, i, j, max) <= After(cs, j).counter + 1
    ensures i < j && !Resets(After(cs, i), cs[i]) && max >= 0 ==> Accepted(cs, i, j, max) <= max
    ensures i < j && !Resets(After(cs, i), cs[i]) ==> Accepted(cs, i, j, max) <= After(cs, j).counter
    decreases j - i
  {
    CounterNatural(cs, j);
    if i < j {
      CounterNatural(cs, j - 1);
      WindowBound(cs, i, j - 1, max);
    }
  }

  /** A call is never later than a minute after the start of its window, and starts never go back. */
  lemma {:induction false} StartOfWindow(cs: seq<Clock>, i: nat, k: nat)
    requires i < k <= |cs| && ClockOk(cs)
    ensures After(cs, k).start > 0.0 && cs[i].t2 <= After(cs, k).start + 60.0
    ensures After(cs, k).start <= cs[k - 1].t3
    decreases k
  {
    if k == 1 {
      assert After(cs, 0).start == 0.0;
    } else if i < k - 1 {
      StartOfWindow(cs, i, k - 1);
    } else {
      StartOfWindow(cs, k - 2, k - 1);
    }
  }

  lemma {:induction false} StartGrows(cs: seq<Clock>, i: nat, k: nat)
    requires 0 < i <= k <= |cs| && ClockOk(cs)
    ensures After(cs, i).start <= After(cs, k).start
    decreases k
  {
    if i < k {
      StartGrows(cs, i, k - 1);
      StartOfWindow(cs, k - 2, k - 1);
    }
  }

  /** Windows start more than a minute apart, and two cannot both start within a minute after a call. */
  lemma {:induction false} TwoResets(cs: seq<Clock>, i: nat, p: nat, q: nat)
    requires i <= p < q < |cs| && ClockOk(cs)
    requires Resets(After(cs, p), cs[p]) && Resets(After(cs, q), cs[q])
    ensures cs[q].t2 > cs[i].t2 + 60.0
  {
    if i < p {
      StartOfWindow(cs, i, p);
    }
    StartOfWindow(cs, i, q);
    StartGrows(cs, p + 1, q);
    assert After(cs, p + 1).start == cs[p].t3;
  }

  lemma {:induction false} OneReset(cs: seq<Clock>, i: nat, p: nat, q: nat, j: nat)
    requires i <= p < q < j <= |cs| && ClockOk(cs)
    requires cs[j - 1].t2 - cs[i].t2 <= 60.0
    ensures !Resets(After(cs, p), cs[p]) || !Resets(After(cs, q), cs[q])
  {
    hide After, Resets, Counted;
    assert cs[q].t2 <= cs[j - 1].t2;
    if Resets(After(cs, p), cs[p]) && Resets(After(cs, q), cs[q]) {
      TwoResets(cs, i, p, q);
    }
  }

  /** The most calls that a limiter accepts within a minute. */
  function PerMinute(max: int): nat { if max < 0 then 0 else 2 * max + 1 }

  /** In any closed interval of a minute at most `2 max + 1` calls are accepted. */
  lemma {:induction false} MinuteBound(cs: seq<Clock>, i: nat, j: nat, max: int)
    requires i < j <= |cs| && ClockOk(cs)
    requires cs[j - 1].t2 - cs[i].t2 <= 60.0
    ensures Accepted(cs, i, j, max) <= PerMinute(max)
  {
    hide After, Resets, Counted, Accepts, Accepted;
    if p :| i < p < j && Resets(After(cs, p), cs[p]) {
      forall q | i <= q < j && q != p ensures !Resets(After(cs, q), cs[q]) {
        if p < q {
          OneReset(cs, i, p, q, j);
        } else {
          OneReset(cs, i, q, p, j);
        }
      }
      WindowBound(cs, i, p, max);
      WindowBound(cs, p, j, max);
      AcceptedSplit(cs, i, p, j, max);
    } else {
      WindowBound(cs, i, j, max);
    }
  }

  /** The times of a run that gets as many accepted: a window starts at 62, most of its calls come at its very end,
      at 122, and the next window starts right after it. */
  function BurstTime(max: nat, k: nat): real {
    if k == 0 then 1.0 else if k == 1 then 62.0 else if k < max + 2 then 122.0 else 122.5
  }

  function Burst(max: nat): seq<Clock> {
    seq(2 * max + 3, k requires 0 <= k => var t := BurstTime(max, k); Clock(t, t, t))
  }

  lemma {:induction false} BurstAfter(max: nat, k: nat)
    requires 2 <= k <= 2 * max + 3
    ensures After(Burst(max), k) == if k < max + 3 then Limiter(k - 2, 62.0) else Limiter(k - max - 3, 122.5)
  {
    var cs := Burst(max);
    if k == 2 {
      assert After(cs, 1) == Counted(After(cs, 0), cs[0]);
    } else {
      BurstAfter(max, k - 1);
    }
  }

  lemma {:induction false} BurstAccepted(max: nat, k: nat)
    requires 2 <= k <= 2 * max + 3
    ensures Accepted(Burst(max), 2, k, max) == k - 2
  {
    if k > 2 {
      BurstAccepted(max, k - 1);
      BurstAfter(max, k);
    }
  }

  /** The bound of `MinuteBound` is exact. */
  lemma {:induction false} MinuteBoundIsReached(max: nat)
    ensures exists cs: seq<Clock>, i: nat, j: nat ::
      && i < j <= |cs| && ClockOk(cs) && cs[j - 1].t2 - cs[i].t2 <= 60.0
      && Accepted(cs, i, j, max) == PerMinute(max)
  {
    BurstAccepted(max, 2 * max + 3);
    assert ClockOk(Burst(max));
  }
}
