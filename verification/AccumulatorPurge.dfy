/** When the purge of the accumulator can be seen: in one call, and for which readings of the clock at all. */
module AccumulatorPurge {
  import opened CText
  import opened Accumulator

  // ---------------------------------------------------------------- one call

  /** The event lacks a field that the entry could fill. */
  ghost predicate Fills(entry: Entry, e: Event) {
    exists f: Field :: IsBlank(e.fields.Get(f)) && IsStorable(entry.fields.Get(f))
  }

  /** In a call the purge shows exactly when it is due, drops the entry of the event, and that entry is not too old
      for the second reading of the clock and would have filled a field. */
  lemma {:induction false} CallShowsPurge(s: State, i: Input)
    ensures Call(s, i.event, i.purgeTime, i.now, true).1 != Call(s, i.event, i.purgeTime, i.now, false).1 <==>
      && IsKeyed(i.event) && IsDue(s, i.purgeTime) && IsFresh(s.store, KeyOf(i.event), i.now)
      && s.store[KeyOf(i.event)].timestamp < i.purgeTime - EXPIRE_AFTER
      && Fills(s.store[KeyOf(i.event)], i.event)
  {
    var e := i.event;
    if IsKeyed(e) && KeyOf(e) in s.store {
      MergeChanges(s.store[KeyOf(e)], e);
    }
  }

  lemma {:induction false} MergeChanges(entry: Entry, e: Event)
    ensures Merge(e.fields, entry.fields) != e.fields <==> Fills(entry, e)
  {
    forall f: Field ensures Merge(e.fields, entry.fields).Get(f) == Replace(e.fields.Get(f), entry.fields.Get(f)) {
      MergeGet(e.fields, entry.fields, f);
    }
    if Merge(e.fields, entry.fields) != e.fields {
      SomeFieldDiffers(Merge(e.fields, entry.fields), e.fields);
    }
  }

  lemma {:induction false} SomeFieldDiffers(a: Fields, b: Fields)
    requires a != b
    ensures exists f: Field :: a.Get(f) != b.Get(f)
  {
    assert a.Get(DstUser) != b.Get(DstUser) || a.Get(SrcUser) != b.Get(SrcUser) || a.Get(DstIp) != b.Get(DstIp)
        || a.Get(SrcIp) != b.Get(SrcIp) || a.Get(DstPort) != b.Get(DstPort) || a.Get(SrcPort) != b.Get(SrcPort)
        || a.Get(Data) != b.Get(Data);
  }

  // ---------------------------------------------------------------- all events on a clock

  /** The two readings of the clock in a call. */
  datatype Reading = Reading(purgeTime: int, now: int)

  ghost predicate OnClock(h: seq<Input>, c: seq<Reading>) {
    |h| == |c| && forall i :: 0 <= i < |h| ==> h[i].purgeTime == c[i].purgeTime && h[i].now == c[i].now
  }

  /** What call `i` stores is so old in call `p` that a purge drops it, and not too old in call `j`. */
  predicate Revives(c: seq<Reading>, i: int, p: int, j: int)
    requires 0 <= i < p <= j < |c|
  {
    && c[i].now < c[p].purgeTime - EXPIRE_AFTER
    && !(c[i].now > 0 && c[i].now < c[j].now - EXPIRE_AFTER)
  }

  ghost predicate IsSafe(c: seq<Reading>) {
    forall i, p, j :: 0 <= i < p <= j < |c| ==> !Revives(c, i, p, j)
  }

  /** The entry was stored by call `i` and dropped by call `p`. */
  ghost predicate IsDropped(h: seq<Input>, entry: Entry) {
    exists i, p :: 0 <= i < p < |h| && entry.timestamp == h[i].now && h[i].now < h[p].purgeTime - EXPIRE_AFTER
  }

  /** The purged store is part of the other; what it lacks has been dropped. */
  ghost predicate Lags(h: seq<Input>, purged: map<string, Entry>, full: map<string, Entry>) {
    && (forall k :: k in purged ==> k in full && purged[k] == full[k])
    && (forall k :: k in full && k !in purged ==> IsDropped(h, full[k]))
    && (forall k :: k in full ==> exists i :: 0 <= i < |h| && full[k].timestamp == h[i].now)
  }

  lemma {:induction false} DroppedStays(g: seq<Input>, i: Input, entry: Entry)
    requires IsDropped(g, entry)
    ensures IsDropped(g + [i], entry)
  {
    var k, p :| 0 <= k < p < |g| && entry.timestamp == g[k].now && g[k].now < g[p].purgeTime - EXPIRE_AFTER;
    assert (g + [i])[k] == g[k] && (g + [i])[p] == g[p];
  }

  /** A purge by the last call. */
  lemma {:induction false} CleanUpLags(g: seq<Input>, i: Input, p: State, full: map<string, Entry>)
    requires Lags(g, p.store, full)
    ensures var h, p1 := g + [i], CleanUp(p, i.purgeTime);
      && (forall k :: k in p1.store ==> k in full && p1.store[k] == full[k])
      && (forall k :: k in full && k !in p1.store ==> IsDropped(h, full[k]))
  {
    var h, p1 := g + [i], CleanUp(p, i.purgeTime);
    forall k | k in full && k !in p1.store ensures IsDropped(h, full[k]) {
      if k !in p.store {
        DroppedStays(g, i, full[k]);
      } else {
        var m :| 0 <= m < |g| && full[k].timestamp == g[m].now;
        assert h[m] == g[m] && h[|g|] == i;
        assert full[k].timestamp < i.purgeTime - EXPIRE_AFTER;
      }
    }
  }

  /** On a safe clock, what was dropped is too old in the call. */
  lemma {:induction false} DroppedIsStale(h: seq<Input>, c: seq<Reading>, entry: Entry)
    requires OnClock(h, c) && IsSafe(c) && h != [] && IsDropped(h, entry)
    ensures entry.timestamp > 0 && entry.timestamp < h[|h| - 1].now - EXPIRE_AFTER
  {
    var i, p :| 0 <= i < p < |h| && entry.timestamp == h[i].now && h[i].now < h[p].purgeTime - EXPIRE_AFTER;
    assert !Revives(c, i, p, |c| - 1);
  }

  lemma {:induction false} CallLags(g: seq<Input>, i: Input, c: seq<Reading>, p: State, f: State)
    requires Lags(g, p.store, f.store) && OnClock(g + [i], c) && IsSafe(c)
    ensures var (p', outP) := Call(p, i.event, i.purgeTime, i.now, true);
      var (f', outF) := Call(f, i.event, i.purgeTime, i.now, false);
      outP == outF && Lags(g + [i], p'.store, f'.store)
  {
    hide IsDropped, OnClock, IsSafe, Merge;
    var h := g + [i];
    CleanUpLags(g, i, p, f.store);
    forall k | k in f.store && k !in p.store ensures IsDropped(h, f.store[k]) {
      DroppedStays(g, i, f.store[k]);
    }
    forall k | k in f.store ensures exists m :: 0 <= m < |h| && f.store[k].timestamp == h[m].now {
      var m :| 0 <= m < |g| && f.store[k].timestamp == g[m].now;
      assert h[m] == g[m];
    }
    if IsKeyed(i.event) {
      var key := KeyOf(i.event);
      var p1 := CleanUp(p, i.purgeTime);
      if key in f.store && key !in p1.store {
        DroppedIsStale(h, c, f.store[key]);
      }
      assert IsFresh(p1.store, key, i.now) <==> IsFresh(f.store, key, i.now);
      assert h[|g|].now == i.now;
    }
  }

  lemma {:induction false} PrefixIsSafe(c: seq<Reading>, m: nat)
    requires m <= |c| && IsSafe(c)
    ensures IsSafe(c[..m])
  {
    forall i, p, j | 0 <= i < p <= j < m ensures !Revives(c[..m], i, p, j) {
      assert !Revives(c, i, p, j);
    }
  }

  lemma {:induction false} SafeRunLags(s: State, h: seq<Input>, c: seq<Reading>)
    requires s.store == map[] && OnClock(h, c) && IsSafe(c)
    ensures Lags(h, RunState(s, h, true).store, RunState(s, h, false).store)
    ensures h != [] ==> LastOutput(s, h, true) == LastOutput(s, h, false)
    decreases |h|
  {
    hide Lags, IsSafe, Call;
    if h == [] {
      EmptyLags(s);
    } else {
      var n := |h| - 1;
      var g := h[..n];
      PrefixIsSafe(c, n);
      SafeRunLags(s, g, c[..n]);
      assert h == g + [h[n]];
      CallLags(g, h[n], c, RunState(s, g, true), RunState(s, g, false));
    }
  }

  lemma {:induction false} EmptyLags(s: State)
    requires s.store == map[]
    ensures Lags([], s.store, s.store)
  {
  }

  /** On a safe clock with positive readings, every output field means what the history says. */
  lemma {:induction false} FieldMeaningOnSafeClock(s: State, h: seq<Input>, c: seq<Reading>, f: Field)
    requires s.store == map[] && OnClock(h, c) && IsSafe(c) && forall n :: 0 <= n < |h| ==> h[n].now > 0
    requires h != [] && IsKeyed(h[|h| - 1].event)
    ensures OutputIs(h, f, LastOutput(s, h, true).fields.Get(f))
  {
    hide OutputIs, Enrich, Remember, Lags, IsSafe;
    var g, i := h[..|h| - 1], h[|h| - 1];
    assert h == g + [i];
    SafeRunLags(s, h, c);
    FullStoreMeaning(s, g);
    EnrichMeans(g, i, RunState(s, g, false).store, f);
  }

  // ---------------------------------------------------------------- an unsafe clock shows it

  const KEYED := Event(Some("1"), Some("d"), "h", EMPTY)
  const FULL := KEYED.(fields := EMPTY.(data := Some("x")))
  const SILENT := Event(None, None, "h", EMPTY)

  /** An event that counts for the purge and is not stored. */
  function Unkeyed(): Event { Event(Some("1"), Some("d"), seq(MAX_KEY, _ => 'h'), EMPTY) }

  function EventAt(k: int, i: int, p: int, j: int): Event {
    if k == i then FULL else if k == j then KEYED else if k == p then Unkeyed() else SILENT
  }

  function Showing(c: seq<Reading>, i: int, p: int, j: int): seq<Input> {
    seq(|c|, k requires 0 <= k < |c| => Input(EventAt(k, i, p, j), c[k].purgeTime, c[k].now))
  }

  /** One call before a purge, which is due in the second call after it. */
  function Almost(c: seq<Reading>, i: int): State
    requires 0 <= i < |c|
  {
    State(map[], PURGE_COUNT - 2, c[i].purgeTime)
  }

  function Kept(now: int): map<string, Entry> { map[KeyOf(KEYED) := Entry(now, FULL.fields)] }

  lemma {:induction false} StoresFull(s: State, r: Reading, purging: bool)
    requires s == State(map[], PURGE_COUNT - 2, r.purgeTime)
    ensures IsKeyed(FULL) && KeyOf(FULL) == KeyOf(KEYED)
    ensures Call(s, FULL, r.purgeTime, r.now, purging).0 ==
      State(Kept(r.now), if purging then PURGE_COUNT - 1 else PURGE_COUNT - 2, r.purgeTime)
  {
    assert FULL.fields.data == Some("x");
  }

  lemma {:induction false} UnkeyedCounts(s: State, r: Reading, purging: bool)
    ensures Call(s, Unkeyed(), r.purgeTime, r.now, purging) ==
      (if purging then CleanUp(s, r.purgeTime) else s, Unkeyed())
  {
    assert |Unkeyed().hostname| == MAX_KEY;
  }

  /** The state before call `k`. */
  lemma {:induction false} StateBefore(c: seq<Reading>, i: int, p: int, j: int, k: int, purging: bool)
    requires 0 <= i < p <= j < |c| && Revives(c, i, p, j) && 0 <= k <= j
    ensures var st := RunState(Almost(c, i), Showing(c, i, p, j)[..k], purging);
      && (k <= i ==> st == Almost(c, i))
      && (i < k <= p ==> st.store == Kept(c[i].now) && (purging ==> st.lookups == PURGE_COUNT - 1))
      && (p < k ==> st.store == if purging then map[] else Kept(c[i].now))
    decreases k
  {
    var h := Showing(c, i, p, j);
    if k > 0 {
      StateBefore(c, i, p, j, k - 1, purging);
      var st := RunState(Almost(c, i), h[..k - 1], purging);
      assert h[..k][..k - 1] == h[..k - 1];
      assert h[..k][k - 1] == h[k - 1] == Input(EventAt(k - 1, i, p, j), c[k - 1].purgeTime, c[k - 1].now);
      if k - 1 == i {
        StoresFull(st, c[i], purging);
      } else if k - 1 == p {
        UnkeyedCounts(st, c[p], purging);
        if purging {
          PurgesKept(st, c, i, p);
        }
      }
    }
  }

  lemma {:induction false} PurgesKept(st: State, c: seq<Reading>, i: int, p: int)
    requires 0 <= i < p < |c| && c[i].now < c[p].purgeTime - EXPIRE_AFTER
    requires st.store == Kept(c[i].now) && st.lookups == PURGE_COUNT - 1
    ensures CleanUp(st, c[p].purgeTime).store == map[]
  {
  }

  lemma {:induction false} ShowsPurge(c: seq<Reading>, i: int, p: int, j: int)
    requires 0 <= i < p <= j < |c| && Revives(c, i, p, j)
    ensures var s, h := Almost(c, i), Showing(c, i, p, j)[..j + 1];
      LastOutput(s, h, true) == KEYED && LastOutput(s, h, false) == FULL
  {
    var s, h := Almost(c, i), Showing(c, i, p, j);
    StateBefore(c, i, p, j, j, true);
    StateBefore(c, i, p, j, j, false);
    assert h[..j + 1][..j] == h[..j];
    assert h[..j + 1][j] == Input(KEYED, c[j].purgeTime, c[j].now);
    var a, b := RunState(s, h[..j], true), RunState(s, h[..j], false);
    hide RunState;
    ReadsKept(b, c[i].now, c[j]);
    if p == j {
      PurgesKept(a, c, i, p);
    }
    FindsNothing(a, c[j]);
  }

  lemma {:induction false} ReadsKept(s: State, stored: int, r: Reading)
    requires s.store == Kept(stored) && !(stored > 0 && stored < r.now - EXPIRE_AFTER)
    ensures Call(s, KEYED, r.purgeTime, r.now, false).1 == FULL
  {
  }

  lemma {:induction false} FindsNothing(s: State, r: Reading)
    requires CleanUp(s, r.purgeTime).store == map[]
    ensures Call(s, KEYED, r.purgeTime, r.now, true).1 == KEYED
  {
  }

  /** No events on this clock make any output show the purge, from an empty store and however many calls went by
      since the last purge. */
  ghost predicate IsInvisible(c: seq<Reading>) {
    forall s: State, h: seq<Input>, m: nat ::
      s.store == map[] && 0 <= s.lookups < PURGE_COUNT && OnClock(h, c) && 0 < m <= |h| ==>
        LastOutput(s, h[..m], true) == LastOutput(s, h[..m], false)
  }

  /** The purge cannot be seen exactly on the clocks on which nothing that a purge may have dropped is young enough in
      a later reading. */
  lemma {:induction false} PurgeInvisibleIff(c: seq<Reading>)
    ensures IsInvisible(c) <==> IsSafe(c)
  {
    hide LastOutput, Almost, Showing;
    if IsSafe(c) {
      forall s: State, h: seq<Input>, m: nat |
        s.store == map[] && 0 <= s.lookups < PURGE_COUNT && OnClock(h, c) && 0 < m <= |h|
        ensures LastOutput(s, h[..m], true) == LastOutput(s, h[..m], false)
      {
        PrefixIsSafe(c, m);
        SafeRunLags(s, h[..m], c[..m]);
      }
    } else {
      var i, p, j :| 0 <= i < p <= j < |c| && Revives(c, i, p, j);
      ShowsPurge(c, i, p, j);
      ShowingIsOnClock(c, i, p, j);
      AlmostIsState(c, i);
      assert KEYED != FULL;
      assert LastOutput(Almost(c, i), Showing(c, i, p, j)[..j + 1], true)
          != LastOutput(Almost(c, i), Showing(c, i, p, j)[..j + 1], false);
    }
  }

  lemma {:induction false} ShowingIsOnClock(c: seq<Reading>, i: int, p: int, j: int)
    ensures OnClock(Showing(c, i, p, j), c)
  {
  }

  lemma {:induction false} AlmostIsState(c: seq<Reading>, i: int)
    requires 0 <= i < |c|
    ensures Almost(c, i).store == map[] && 0 <= Almost(c, i).lookups < PURGE_COUNT
  {
  }

  /** A positive clock that never goes back is safe. */
  lemma {:induction false} SteadyClockIsSafe(h: seq<Input>, c: seq<Reading>)
    requires OnClock(h, c) && ClockOk(h)
    ensures IsSafe(c)
  {
    forall i, p, j | 0 <= i < p <= j < |c| ensures !Revives(c, i, p, j) {
      assert h[i].now <= h[p].purgeTime && h[p].purgeTime <= h[p].now && (p < j ==> h[p].now <= h[j].purgeTime);
    }
  }
}
