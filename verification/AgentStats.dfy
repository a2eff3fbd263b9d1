/** Collecting the statistics of all agents page by page. The daemon answers a request with the first 75 active
    agents above an id, as far as it has statistics about them, and says whether more are due; the API goes on
    from the last id it got. */
module AgentStats {

  const LIMIT := 75
  const CHUNK := 74

  // ---------------------------------------------------------------- server

  /** The ids of the active agents in the order of the database query. */
  ghost predicate Ascending(ids: seq<nat>) {
    forall i, j :: 0 <= i < j < |ids| ==> ids[i] < ids[j]
  }

  /** What the server knows when it answers: the active agents and those it has statistics about. */
  datatype Snapshot = Snapshot(ids: seq<nat>, tracked: set<nat>)

  /** The index of the first id above `last`. */
  function Above(ids: seq<nat>, last: nat): (a: nat)
    ensures a <= |ids|
    ensures a < |ids| ==> ids[a] > last
    ensures forall i :: 0 <= i < a ==> ids[i] <= last
  {
    if ids == [] || ids[0] > last then 0 else 1 + Above(ids[1..], last)
  }

  function PageEnd(ids: seq<nat>, last: nat): (b: nat)
    ensures Above(ids, last) <= b <= |ids|
  {
    if Above(ids, last) + LIMIT <= |ids| then Above(ids, last) + LIMIT else |ids|
  }

  /** The first 75 ids above `last`. */
  function Page(ids: seq<nat>, last: nat): seq<nat> { ids[Above(ids, last)..PageEnd(ids, last)] }

  /** The entries of an answer: the ids of the page with statistics. */
  function Entries(page: seq<nat>, tracked: set<nat>): (es: seq<nat>)
    ensures forall x :: x in es <==> x in page && x in tracked
  {
    if page == [] then [] else (if page[0] in tracked then [page[0]] else []) + Entries(page[1..], tracked)
  }

  predicate IsDue(s: Snapshot, last: nat) { |Page(s.ids, last)| >= LIMIT }

  // ---------------------------------------------------------------- client

  datatype Client = Client(last: nat, collected: seq<nat>, finished: bool)

  function Round(c: Client, s: Snapshot): Client {
    if c.finished then c
    else
      var es := Entries(Page(s.ids, c.last), s.tracked);
      Client(if es == [] then c.last else es[|es| - 1], c.collected + es, !IsDue(s, c.last))
  }

  /** The client after `k` rounds, when the server's knowledge changes between rounds. */
  function Rounds(env: nat -> Snapshot, k: nat): Client {
    if k == 0 then Client(0, [], false) else Round(Rounds(env, k - 1), env(k - 1))
  }

  ghost predicate IsSnapshot(s: Snapshot) {
    Ascending(s.ids) && forall i :: 0 <= i < |s.ids| ==> s.ids[i] > 0
  }

  ghost predicate Orderly(c: Client) {
    && Ascending(c.collected)
    && (forall i :: 0 <= i < |c.collected| ==> 0 < c.collected[i] <= c.last)
    && (c.last > 0 ==> c.collected != [] && c.collected[|c.collected| - 1] == c.last)
  }

  lemma {:induction false} EntriesAscend(page: seq<nat>, tracked: set<nat>)
    requires Ascending(page)
    ensures Ascending(Entries(page, tracked))
  {
    if page != [] {
      EntriesAscend(page[1..], tracked);
      var es := Entries(page[1..], tracked);
      forall i | 0 <= i < |es| ensures page[0] < es[i] {
        assert es[i] in page[1..];
      }
    }
  }

  /** Whatever changes between the pages, no agent is collected twice and the ids ascend. */
  lemma {:induction false} RoundOrderly(c: Client, s: Snapshot)
    requires Orderly(c) && IsSnapshot(s)
    ensures Orderly(Round(c, s)) && Round(c, s).last >= c.last && c.collected <= Round(c, s).collected
  {
    hide Entries, Above;
    if !c.finished {
      var page := Page(s.ids, c.last);
      var es := Entries(page, s.tracked);
      EntriesAscend(page, s.tracked);
      forall i | 0 <= i < |es| ensures es[i] > c.last {
        assert es[i] in page;
      }
    }
  }

  lemma {:induction false} CollectedAscend(env: nat -> Snapshot, k: nat)
    requires forall j :: 0 <= j < k ==> IsSnapshot(env(j))
    ensures Orderly(Rounds(env, k))
  {
    if k > 0 {
      CollectedAscend(env, k - 1);
      RoundOrderly(Rounds(env, k - 1), env(k - 1));
    }
  }

  ghost predicate Offered(s: Snapshot, x: nat) { x in s.ids && x in s.tracked }

  /** One round misses nothing up to the new position, and nothing at all if it is the last. */
  lemma {:induction false} RoundMissesNothing(c: Client, s: Snapshot, x: nat)
    requires IsSnapshot(s) && Offered(s, x) && !c.finished && x > c.last
    ensures var c' := Round(c, s);
      x <= c'.last || c'.finished ==> x in c'.collected
  {
    hide Entries, Above;
    var a, b := Above(s.ids, c.last), PageEnd(s.ids, c.last);
    var page := Page(s.ids, c.last);
    var es := Entries(page, s.tracked);
    var m :| 0 <= m < |s.ids| && s.ids[m] == x;
    assert m >= a;
    if m < b {
      assert page[m - a] == x;
      assert x in es;
    } else {
      assert b == a + LIMIT;
      if es != [] {
        assert es[|es| - 1] in page;
      }
    }
  }

  /** When the client has finished, it has every agent that was active and known in all rounds. */
  lemma {:induction false} Complete(env: nat -> Snapshot, k: nat, x: nat)
    requires forall j :: 0 <= j < k ==> IsSnapshot(env(j)) && Offered(env(j), x)
    requires x > 0
    ensures x <= Rounds(env, k).last || Rounds(env, k).finished ==> x in Rounds(env, k).collected
  {
    hide Round, Orderly;
    if k > 0 {
      Complete(env, k - 1, x);
      CollectedAscend(env, k - 1);
      var c := Rounds(env, k - 1);
      RoundOrderly(c, env(k - 1));
      if !c.finished && x > c.last {
        RoundMissesNothing(c, env(k - 1), x);
      }
    }
  }

  /** Nothing is collected that was not active and known in some round. */
  lemma {:induction false} OnlyOffered(env: nat -> Snapshot, k: nat, x: nat)
    requires x in Rounds(env, k).collected
    ensures exists j :: 0 <= j < k && Offered(env(j), x)
  {
    hide Above, IsDue;
    if k > 0 {
      var c, s := Rounds(env, k - 1), env(k - 1);
      if x in c.collected {
        OnlyOffered(env, k - 1, x);
      } else {
        var page := Page(s.ids, c.last);
        assert x in Entries(page, s.tracked);
        assert x in page;
        assert Offered(s, x);
      }
    }
  }

  /** Against a server that does not change, a client that has finished has collected exactly the active agents with
      statistics, in ascending order. */
  lemma {:induction false} CollectsExactly(s: Snapshot, k: nat)
    requires IsSnapshot(s)
    ensures Ascending(Rounds(Fixed(s), k).collected)
    ensures Rounds(Fixed(s), k).finished ==> forall x :: x in Rounds(Fixed(s), k).collected <==> Offered(s, x)
  {
    hide Rounds, IsSnapshot;
    var c := Rounds(Fixed(s), k);
    CollectedAscend(Fixed(s), k);
    if c.finished {
      forall x ensures x in c.collected <==> Offered(s, x) {
        if x in c.collected {
          OnlyOffered(Fixed(s), k, x);
        }
        if Offered(s, x) {
          IdsArePositive(s, x);
          Complete(Fixed(s), k, x);
        }
      }
    }
  }

  lemma {:induction false} IdsArePositive(s: Snapshot, x: nat)
    requires IsSnapshot(s) && x in s.ids
    ensures x > 0
  {
  }

  function Fixed(s: Snapshot): nat -> Snapshot { _ => s }

  // ---------------------------------------------------------------- does it end?

  /** If the server has statistics about one agent of the page, a round that is not the last moves on. */
  lemma {:induction false} RoundMovesOn(c: Client, s: Snapshot)
    requires IsSnapshot(s) && !c.finished && IsDue(s, c.last)
    requires exists x :: x in Page(s.ids, c.last) && x in s.tracked
    ensures Round(c, s).last > c.last && Round(c, s).last in Page(s.ids, c.last)
  {
    hide Entries, Above;
    var page := Page(s.ids, c.last);
    var es := Entries(page, s.tracked);
    var x :| x in page && x in s.tracked;
    assert x in es;
    assert es[|es| - 1] in page;
  }

  /** A stretch of 75 active agents in a row about which the server has no statistics. */
  ghost predicate HasGap(s: Snapshot) {
    exists g: nat :: IsGap(s, g)
  }

  ghost predicate IsGap(s: Snapshot, g: nat) {
    g + 75 <= |s.ids| && forall i :: g <= i < g + 75 ==> s.ids[i] !in s.tracked
  }

  /** In front of such a stretch a client stays in front of it, and more is always due. */
  lemma {:induction false} RoundAtGap(c: Client, s: Snapshot, g: nat)
    requires IsSnapshot(s) && IsGap(s, g) && !c.finished && c.last < s.ids[g]
    ensures !Round(c, s).finished && Round(c, s).last < s.ids[g]
  {
    hide Entries, Above;
    var a := Above(s.ids, c.last);
    assert a <= g;
    assert PageEnd(s.ids, c.last) == a + 75;
    var page := Page(s.ids, c.last);
    var es := Entries(page, s.tracked);
    if es != [] {
      var x := es[|es| - 1];
      assert x in es;
      var m :| 0 <= m < |page| && page[m] == x;
      assert s.ids[a + m] == x;
      assert a + m < g;
    }
  }

  /** The stretch that starts with agent `lo` is there in this round. */
  ghost predicate HasGapAt(s: Snapshot, lo: nat) { exists g: nat :: IsGap(s, g) && s.ids[g] == lo }

  /** If such a stretch is there in all rounds, the client does not finish, however the other agents change. */
  lemma {:induction false} StuckAtGap(env: nat -> Snapshot, lo: nat, k: nat)
    requires lo > 0 && forall j :: 0 <= j < k ==> IsSnapshot(env(j)) && HasGapAt(env(j), lo)
    ensures !Rounds(env, k).finished && Rounds(env, k).last < lo
  {
    hide Round;
    if k > 0 {
      StuckAtGap(env, lo, k - 1);
      var s := env(k - 1);
      var g: nat :| IsGap(s, g) && s.ids[g] == lo;
      RoundAtGap(Rounds(env, k - 1), s, g);
    }
  }

  /** Without one, there is an agent with statistics in every full page. */
  lemma {:induction false} PageWithoutGap(s: Snapshot, last: nat)
    requires !HasGap(s) && IsDue(s, last)
    ensures exists x :: x in Page(s.ids, last) && x in s.tracked
  {
    hide Above;
    var a := Above(s.ids, last);
    var page := Page(s.ids, last);
    assert !IsGap(s, a);
    var i :| a <= i < a + 75 && s.ids[i] in s.tracked;
    assert page[i - a] == s.ids[i];
  }

  lemma {:induction false} RoundStaysBelow(c: Client, s: Snapshot, top: nat)
    requires c.last <= top && forall x :: x in s.ids ==> x <= top
    ensures Round(c, s).last <= top
  {
    hide Above;
    var page := Page(s.ids, c.last);
    var es := Entries(page, s.tracked);
    if es != [] {
      assert es[|es| - 1] in page;
      assert es[|es| - 1] in s.ids;
    }
  }

  /** If in no round 75 active agents in a row are without statistics, the client finishes, however the set of active
      agents changes: with ids up to `top`, within `top + 1` rounds. */
  lemma {:induction false} Terminates(env: nat -> Snapshot, top: nat, k: nat)
    requires forall j :: 0 <= j < k ==>
      IsSnapshot(env(j)) && !HasGap(env(j)) && forall x :: x in env(j).ids ==> x <= top
    ensures Rounds(env, k).last <= top && (Rounds(env, k).finished || Rounds(env, k).last >= k)
    ensures k > top ==> Rounds(env, k).finished
  {
    hide HasGap, Page, Entries, IsSnapshot, IsDue;
    if k > 0 {
      Terminates(env, top, k - 1);
      var c, s := Rounds(env, k - 1), env(k - 1);
      RoundStaysBelow(c, s, top);
      if !c.finished && IsDue(s, c.last) {
        PageWithoutGap(s, c.last);
        RoundMovesOn(c, s);
      }
    }
  }

  lemma {:induction false} TopOf(ids: seq<nat>) returns (top: nat)
    ensures forall x :: x in ids ==> x <= top
  {
    if ids == [] {
      top := 0;
    } else {
      var t := TopOf(ids[1..]);
      top := if t < ids[0] then ids[0] else t;
      forall x | x in ids ensures x <= top {
        assert x == ids[0] || x in ids[1..];
      }
    }
  }

  /** With a fixed set of active agents the client finishes exactly when no 75 active agents in a row are without
      statistics. */
  lemma {:induction false} FinishesIffNoGap(s: Snapshot)
    requires IsSnapshot(s)
    ensures (exists k :: Rounds(Fixed(s), k).finished) <==> !HasGap(s)
  {
    if HasGap(s) {
      var g: nat :| IsGap(s, g);
      assert HasGapAt(s, s.ids[g]);
      forall k ensures !Rounds(Fixed(s), k).finished {
        StuckAtGap(Fixed(s), s.ids[g], k);
      }
    } else {
      var top := TopOf(s.ids);
      Terminates(Fixed(s), top, top + 1);
    }
  }

  // ---------------------------------------------------------------- the loops

  /** The server counts the ids that the database layer returned, up to the -1 behind them. */
  method CountIds(ids: array<int>) returns (count: nat)
    requires exists i :: 0 <= i < ids.Length && ids[i] == -1
    ensures count < ids.Length && ids[count] == -1 && forall i :: 0 <= i < count ==> ids[i] != -1
  {
    ghost var end :| 0 <= end < ids.Length && ids[end] == -1;
    count := 0;
    while ids[count] != -1
      invariant count <= end
      invariant forall i :: 0 <= i < count ==> ids[i] != -1
      decreases end - count
    {
      count := count + 1;
    }
  }

  lemma {:induction false} FinishedStays(env: nat -> Snapshot, j: nat, k: nat)
    requires j <= k && Rounds(env, j).finished
    ensures Rounds(env, k) == Rounds(env, j)
    decreases k
  {
    if j < k {
      FinishedStays(env, j, k - 1);
    }
  }

  /** The loop of the client, watched for `limit` rounds, against any server. */
  method CollectFor(env: nat -> Snapshot, limit: nat) returns (c: Client)
    ensures c == Rounds(env, limit)
  {
    hide Entries, Page, IsDue;
    var collected, last: nat, due, k := [], 0, true, 0;
    while due && k < limit
      invariant k <= limit && Client(last, collected, !due) == Rounds(env, k)
      decreases limit - k
    {
      var es := Entries(Page(env(k).ids, last), env(k).tracked);
      due := IsDue(env(k), last);
      collected := collected + es;
      if |es| > 0 {
        last := es[|es| - 1];
      }
      k := k + 1;
    }
    c := Client(last, collected, !due);
    if !due {
      FinishedStays(env, k, limit);
    }
  }

  function Concat(chunks: seq<seq<nat>>): seq<nat> {
    if chunks == [] then [] else Concat(chunks[..|chunks| - 1]) + chunks[|chunks| - 1]
  }

  /** An explicit list of agents is sent in pieces that the server does not find too long, and all of it. */
  method Chunked(agents: seq<nat>) returns (chunks: seq<seq<nat>>)
    ensures Concat(chunks) == agents
    ensures forall i :: 0 <= i < |chunks| ==> 0 < |chunks[i]| < 75
  {
    chunks := [];
    var x := 0;
    while x < |agents|
      invariant x <= |agents| + CHUNK
      invariant Concat(chunks) == agents[..if x < |agents| then x else |agents|]
      invariant forall i :: 0 <= i < |chunks| ==> 0 < |chunks[i]| < 75
    {
      var end := if x + CHUNK < |agents| then x + CHUNK else |agents|;
      assert agents[..end] == agents[..x] + agents[x..end];
      assert (chunks + [agents[x..end]])[..|chunks|] == chunks;
      chunks := chunks + [agents[x..end]];
      x := x + CHUNK;
    }
  }
}
