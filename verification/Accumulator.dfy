/** The accumulator: it carries field values from one event to later events with the same host, decoder and
    identifier, as long as these follow each other within 120 seconds. The clock is an input: every call
    reads it twice. */
module Accumulator {
  import opened CText

  const EXPIRE_AFTER := 120
  const PURGE_INTERVAL := 300
  const PURGE_COUNT := 200
  const MAX_KEY := 256
  const MAX_ELEMENT := 80

  // ---------------------------------------------------------------- data

  datatype Field = DstUser | SrcUser | DstIp | SrcIp | DstPort | SrcPort | Data

  /** A text field of an event or of a stored record; `None` is a null pointer. */
  type Text = Option<string>

  datatype Fields = Fields(
    dstuser: Text, srcuser: Text, dstip: Text, srcip: Text, dstport: Text, srcport: Text, data: Text)
  {
    function Get(f: Field): Text {
      match f
      case DstUser => dstuser
      case SrcUser => srcuser
      case DstIp => dstip
      case SrcIp => srcip
      case DstPort => dstport
      case SrcPort => srcport
      case Data => data
    }
  }

  const EMPTY := Fields(None, None, None, None, None, None, None)

  datatype Event = Event(id: Option<string>, decoder: Option<string>, hostname: string, fields: Fields)

  datatype Entry = Entry(timestamp: int, fields: Fields)

  datatype State = State(store: map<string, Entry>, lookups: int, purgeTs: int)

  // ---------------------------------------------------------------- one call

  /** `acm_str_replace`: fill an empty target with a text of 1 to 80 characters. */
  function Replace(dst: Text, src: Text): Text {
    if src == None then dst
    else if dst.Some? && dst.value != "" then dst
    else if |src.value| == 0 || |src.value| > MAX_ELEMENT then dst
    else src
  }

  function Merge(dst: Fields, src: Fields): Fields {
    Fields(Replace(dst.dstuser, src.dstuser), Replace(dst.srcuser, src.srcuser), Replace(dst.dstip, src.dstip),
           Replace(dst.srcip, src.srcip), Replace(dst.dstport, src.dstport), Replace(dst.srcport, src.srcport),
           Replace(dst.data, src.data))
  }

  lemma {:induction false} MergeGet(dst: Fields, src: Fields, f: Field)
    ensures Merge(dst, src).Get(f) == Replace(dst.Get(f), src.Get(f))
  {
  }

  predicate HasParts(e: Event) { e.id.Some? && e.decoder.Some? }

  function KeyOf(e: Event): string
    requires HasParts(e)
  {
    e.hostname + " " + e.decoder.value + " " + e.id.value
  }

  /** The event takes part in the accumulation: it has all parts of a key and the key fits its buffer. */
  predicate IsKeyed(e: Event) { HasParts(e) && |KeyOf(e)| < MAX_KEY }

  predicate HasKey(e: Event, key: string) { IsKeyed(e) && KeyOf(e) == key }

  predicate IsDue(s: State, now: int) {
    !(s.lookups + 1 < PURGE_COUNT && s.purgeTs < now + PURGE_INTERVAL)
  }

  function Purged(store: map<string, Entry>, now: int): map<string, Entry> {
    map k | k in store && !(store[k].timestamp < now - EXPIRE_AFTER) :: store[k]
  }

  function CleanUp(s: State, now: int): State {
    if IsDue(s, now) then State(Purged(s.store, now), 0, now) else s.(lookups := s.lookups + 1)
  }

  predicate IsFresh(store: map<string, Entry>, key: string, now: int) {
    key in store && !(store[key].timestamp > 0 && store[key].timestamp < now - EXPIRE_AFTER)
  }

  function Enrich(store: map<string, Entry>, e: Event, now: int): Event
    requires IsKeyed(e)
  {
    var key := KeyOf(e);
    if IsFresh(store, key, now) then e.(fields := Merge(e.fields, store[key].fields)) else e
  }

  function Remember(store: map<string, Entry>, e: Event, now: int): map<string, Entry>
    requires IsKeyed(e)
  {
    var key := KeyOf(e);
    var base := if IsFresh(store, key, now) then store[key].fields else EMPTY;
    store[key := Entry(now, Merge(base, Enrich(store, e, now).fields))]
  }

  /** One call: `purgeTime` and `now` are the two readings of the clock. */
  function Call(s: State, e: Event, purgeTime: int, now: int, purging: bool): (State, Event) {
    if !HasParts(e) then (s, e)
    else
      var s1 := if purging then CleanUp(s, purgeTime) else s;
      if IsKeyed(e) then (s1.(store := Remember(s1.store, e, now)), Enrich(s1.store, e, now)) else (s1, e)
  }

  class Accumulator {
    var store: map<string, Entry>
    var lookups: int
    var purgeTs: int

    ghost function Abstract(): State
      reads this
    {
      State(store, lookups, purgeTs)
    }

    constructor (now: int)
      ensures Abstract() == State(map[], 0, now)
    {
      store, lookups, purgeTs := map[], 0, now;
    }

    method Accumulate(e: Event, purgeTime: int, now: int) returns (out: Event)
      modifies this
      ensures (Abstract(), out) == Call(old(Abstract()), e, purgeTime, now, true)
      ensures out.id == e.id && out.decoder == e.decoder && out.hostname == e.hostname
      ensures e.id == None || e.decoder == None || |e.hostname| + |e.decoder.value| + |e.id.value| > 253 ==> out == e
    {
      out := e;
      if e.id == None || e.decoder == None {
        return;
      }
      CleanUpStore(purgeTime);
      ghost var cleaned := store;
      var key := e.hostname + " " + e.decoder.value + " " + e.id.value;
      if |key| >= MAX_KEY {
        return;
      }
      var stored := Entry(0, EMPTY);
      if key in store {
        stored := store[key];
        if stored.timestamp > 0 && stored.timestamp < now - EXPIRE_AFTER {
          store := store - {key};
          stored := Entry(0, EMPTY);
        } else {
          out := out.(fields := Merge(out.fields, stored.fields));
        }
      }
      stored := Entry(now, Merge(stored.fields, out.fields));
      store := store[key := stored];
      assert store == cleaned[key := stored];
    }

    method CleanUpStore(now: int)
      modifies this
      ensures Abstract() == CleanUp(old(Abstract()), now)
    {
      lookups := lookups + 1;
      if lookups < PURGE_COUNT && purgeTs < now + PURGE_INTERVAL {
        return;
      }
      lookups := 0;
      purgeTs := now;
      var left := store.Keys;
      while left != {}
        invariant lookups == 0 && purgeTs == now
        invariant left <= store.Keys <= old(store).Keys
        invariant forall k :: k in store ==> store[k] == old(store)[k]
        invariant forall k :: k in old(store) && k !in left ==>
                    (k in store <==> !(old(store)[k].timestamp < now - EXPIRE_AFTER))
      {
        var k :| k in left;
        left := left - {k};
        if store[k].timestamp < now - EXPIRE_AFTER {
          store := store - {k};
        }
      }
    }
  }

  // ---------------------------------------------------------------- whole runs

  datatype Input = Input(event: Event, purgeTime: int, now: int)

  function RunState(s: State, h: seq<Input>, purging: bool): State {
    if h == [] then s
    else
      var i := h[|h| - 1];
      Call(RunState(s, h[..|h| - 1], purging), i.event, i.purgeTime, i.now, purging).0
  }

  /** The event that comes out of the last call of a run. */
  function LastOutput(s: State, h: seq<Input>, purging: bool): Event
    requires h != []
  {
    var i := h[|h| - 1];
    Call(RunState(s, h[..|h| - 1], purging), i.event, i.purgeTime, i.now, purging).1
  }

  /** The clock is positive and never goes back. */
  ghost predicate ClockOk(h: seq<Input>) {
    && (forall i :: 0 <= i < |h| ==> 0 < h[i].purgeTime <= h[i].now)
    && (forall i, j :: 0 <= i < j < |h| ==> h[i].now <= h[j].purgeTime)
  }

  function Clock(h: seq<Input>): int { if h == [] then 0 else h[|h| - 1].now }

  /** A purged store holds the same entries as the other, but for entries that have expired by `now`. */
  ghost predicate Agree(purged: map<string, Entry>, full: map<string, Entry>, now: int) {
    && (forall k :: k in purged ==> k in full && purged[k] == full[k])
    && (forall k :: k in full && k !in purged ==> full[k].timestamp < now - 120)
    && (forall k :: k in full ==> 0 < full[k].timestamp <= now)
  }

  lemma {:induction false} CallAgrees(p: State, f: State, i: Input, before: int)
    requires Agree(p.store, f.store, before) && before <= i.purgeTime <= i.now && 0 < i.purgeTime
    ensures var (p', outP) := Call(p, i.event, i.purgeTime, i.now, true);
      var (f', outF) := Call(f, i.event, i.purgeTime, i.now, false);
      outP == outF && Agree(p'.store, f'.store, i.now)
  {
    if HasParts(i.event) {
      var p1 := CleanUp(p, i.purgeTime);
      assert Agree(p1.store, f.store, i.now);
      if IsKeyed(i.event) {
        var key := KeyOf(i.event);
        assert IsFresh(p1.store, key, i.now) <==> IsFresh(f.store, key, i.now);
      }
    }
  }

  /** Purging cannot be seen: on every run from an empty store with a clock that never goes back, every output
      is that of an accumulator that never purges, and the stores agree on all entries that have not expired. */
  lemma {:induction false} PurgeInvisible(s: State, h: seq<Input>)
    requires s.store == map[] && ClockOk(h)
    ensures Agree(RunState(s, h, true).store, RunState(s, h, false).store, Clock(h))
    ensures h != [] ==> LastOutput(s, h, true) == LastOutput(s, h, false)
  {
    if h != [] {
      var g := h[..|h| - 1];
      PurgeInvisible(s, g);
      CallAgrees(RunState(s, g, true), RunState(s, g, false), h[|h| - 1], Clock(g));
    }
  }

  /** With a clock that never goes back the purge test reduces to the count: at every call that reaches it, a
      purge happens exactly when 199 calls went by since the last. */
  lemma {:induction false} OnlyCountPurges(s: State, h: seq<Input>)
    requires ClockOk(h) && (h == [] || s.purgeTs <= h[0].purgeTime)
    ensures RunState(s, h, true).purgeTs <= if h == [] then s.purgeTs else Clock(h)
    ensures forall now :: now >= RunState(s, h, true).purgeTs ==>
              (IsDue(RunState(s, h, true), now) <==> RunState(s, h, true).lookups >= 199)
  {
    if h != [] {
      OnlyCountPurges(s, h[..|h| - 1]);
    }
  }

  /** How many calls of a run reach the purge test. */
  function Reaching(h: seq<Input>): nat {
    if h == [] then 0 else Reaching(h[..|h| - 1]) + if HasParts(h[|h| - 1].event) then 1 else 0
  }

  /** So every two hundredth call that reaches the test purges: the counter is the number of such calls modulo 200, and
      right after such a call no entry is older than 120 seconds. */
  lemma {:induction false} EveryTwoHundredthPurges(s: State, h: seq<Input>)
    requires s.lookups == 0 && ClockOk(h) && (h == [] || s.purgeTs <= h[0].purgeTime)
    ensures RunState(s, h, true).lookups == Reaching(h) % 200
    ensures h != [] && HasParts(h[|h| - 1].event) && Reaching(h) % 200 == 0 ==>
      forall k :: k in RunState(s, h, true).store ==>
        RunState(s, h, true).store[k].timestamp >= h[|h| - 1].purgeTime - 120
  {
    hide Merge, KeyOf;
    if h != [] {
      var g := h[..|h| - 1];
      EveryTwoHundredthPurges(s, g);
      OnlyCountPurges(s, g);
      CountsOn(Reaching(g));
    }
  }

  lemma {:induction false} CountsOn(n: nat)
    ensures (n + 1) % 200 == if n % 200 == 199 then 0 else n % 200 + 1
  {
  }

  // ---------------------------------------------------------------- what the fields mean

  predicate KeyAt(h: seq<Input>, key: string, i: int) { 0 <= i < |h| && HasKey(h[i].event, key) }

  /** Calls `j` and `k` are next to each other among the calls with that key. */
  ghost predicate Consecutive(h: seq<Input>, key: string, j: int, k: int) {
    j < k && KeyAt(h, key, j) && KeyAt(h, key, k) && forall m :: j < m < k ==> !KeyAt(h, key, m)
  }

  /** Call `i` belongs to the last session of that key: from there on, calls with the key are never more than
      120 seconds apart. */
  ghost predicate InSession(h: seq<Input>, key: string, i: int) {
    KeyAt(h, key, i) && forall j, k :: i <= j && Consecutive(h, key, j, k) ==> h[k].now - h[j].now <= 120
  }

  predicate IsStorable(t: Text) { t.Some? && 1 <= |t.value| <= 80 }

  /** Call `i` brings the first value of 1 to 80 characters for that field in the last session of the key. */
  ghost predicate IsFirstValue(h: seq<Input>, key: string, f: Field, i: int) {
    && InSession(h, key, i) && IsStorable(h[i].event.fields.Get(f))
    && forall j :: 0 <= j < i && InSession(h, key, j) ==> !IsStorable(h[j].event.fields.Get(f))
  }

  /** What is stored under a key after a run: the time of the last call with it, and for every field the first
      value of the last session. */
  ghost predicate EntryIs(h: seq<Input>, key: string, entry: Entry) {
    && (exists n :: IsLastCall(h, key, n) && entry.timestamp == h[n].now)
    && (forall f: Field, i :: IsFirstValue(h, key, f, i) ==> entry.fields.Get(f) == h[i].event.fields.Get(f))
    && (forall f: Field :: entry.fields.Get(f) != None ==> exists i :: IsFirstValue(h, key, f, i))
  }

  ghost predicate IsLastCall(h: seq<Input>, key: string, n: int) {
    KeyAt(h, key, n) && forall m :: n < m < |h| ==> !KeyAt(h, key, m)
  }

  /** The pairs of neighbours after one more call: those before it, and the last call with its key and itself. */
  lemma {:induction false} ConsecutiveOneMore(g: seq<Input>, i: Input, key: string, j: int, k: int)
    ensures Consecutive(g + [i], key, j, k) <==>
      Consecutive(g, key, j, k) || (k == |g| && HasKey(i.event, key) && IsLastCall(g, key, j))
  {
    var h := g + [i];
    assert forall m :: 0 <= m < |g| ==> (KeyAt(h, key, m) <==> KeyAt(g, key, m));
    if Consecutive(h, key, j, k) && k == |g| {
      assert forall m :: j < m < |g| ==> !KeyAt(h, key, m);
    }
    if k == |g| && HasKey(i.event, key) && IsLastCall(g, key, j) {
      assert forall m :: j < m < k ==> !KeyAt(h, key, m);
    }
  }

  lemma {:induction false} SessionFrame(g: seq<Input>, i: Input, key: string, m: int)
    requires !HasKey(i.event, key)
    ensures InSession(g + [i], key, m) <==> InSession(g, key, m)
  {
    forall j, k ensures Consecutive(g + [i], key, j, k) <==> Consecutive(g, key, j, k) {
      ConsecutiveOneMore(g, i, key, j, k);
    }
  }

  /** A call within 120 seconds of the last one with its key joins the session. */
  lemma {:induction false} SessionExtends(g: seq<Input>, i: Input, key: string, n: int, m: int)
    requires HasKey(i.event, key) && IsLastCall(g, key, n) && i.now - g[n].now <= 120
    ensures InSession(g + [i], key, m) <==> InSession(g, key, m) || m == |g|
  {
    var h := g + [i];
    forall j, k
      ensures Consecutive(h, key, j, k) <==> Consecutive(g, key, j, k) || (j == n && k == |g|)
    {
      ConsecutiveOneMore(g, i, key, j, k);
    }
    assert KeyAt(h, key, |g|);
  }

  /** The first call with a key, or one after more than 120 seconds, starts a session. */
  lemma {:induction false} SessionRestarts(g: seq<Input>, i: Input, key: string, m: int)
    requires HasKey(i.event, key)
    requires forall n :: IsLastCall(g, key, n) ==> i.now - g[n].now > 120
    ensures InSession(g + [i], key, m) <==> m == |g|
  {
    var h := g + [i];
    if m == |g| {
      assert KeyAt(h, key, |g|);
    } else if KeyAt(g, key, m) {
      var n := LastCallFrom(g, key, m);
      ConsecutiveOneMore(g, i, key, n, |g|);
      assert Consecutive(h, key, n, |g|);
      assert h[|g|].now - h[n].now > 120;
    }
  }

  /** A key that was seen has a last call. */
  lemma {:induction false} LastCallFrom(g: seq<Input>, key: string, m: int) returns (n: int)
    requires KeyAt(g, key, m)
    ensures m <= n && IsLastCall(g, key, n)
    decreases |g| - m
  {
    if x :| m < x < |g| && KeyAt(g, key, x) {
      n := LastCallFrom(g, key, x);
    } else {
      n := m;
    }
  }

  /** The entries of a store mean what `EntryIs` says, and there is one for every key seen. */
  ghost predicate StoreMeans(h: seq<Input>, store: map<string, Entry>) {
    && (forall key :: key in store ==> EntryIs(h, key, store[key]))
    && (forall key, i :: KeyAt(h, key, i) ==> key in store)
  }

  lemma {:induction false} EntryFrame(g: seq<Input>, i: Input, key: string, entry: Entry)
    requires EntryIs(g, key, entry) && !HasKey(i.event, key)
    ensures EntryIs(g + [i], key, entry)
  {
    var h := g + [i];
    var n :| IsLastCall(g, key, n) && entry.timestamp == g[n].now;
    assert forall m :: 0 <= m < |g| ==> (KeyAt(h, key, m) <==> KeyAt(g, key, m));
    assert IsLastCall(h, key, n);
    forall m ensures InSession(h, key, m) <==> InSession(g, key, m) {
      SessionFrame(g, i, key, m);
    }
    forall f: Field, m ensures IsFirstValue(h, key, f, m) <==> IsFirstValue(g, key, f, m) {
    }
  }

  /** The entry written by a call that joins a session. */
  lemma {:induction false} EntryJoins(g: seq<Input>, i: Input, key: string, entry: Entry)
    requires HasKey(i.event, key) && EntryIs(g, key, entry) && i.now - entry.timestamp <= 120
    ensures EntryIs(g + [i], key, Entry(i.now, Merge(entry.fields, Merge(i.event.fields, entry.fields))))
  {
    hide Merge, Consecutive;
    var h := g + [i];
    var n :| IsLastCall(g, key, n) && entry.timestamp == g[n].now;
    var entry' := Entry(i.now, Merge(entry.fields, Merge(i.event.fields, entry.fields)));
    assert IsLastCall(h, key, |g|);
    forall m ensures InSession(h, key, m) <==> InSession(g, key, m) || m == |g| {
      SessionExtends(g, i, key, n, m);
    }
    forall f: Field
      ensures entry'.fields.Get(f) == Replace(entry.fields.Get(f), Replace(i.event.fields.Get(f), entry.fields.Get(f)))
    {
      MergeGet(i.event.fields, entry.fields, f);
      MergeGet(entry.fields, Merge(i.event.fields, entry.fields), f);
    }
    forall f: Field, m | IsFirstValue(h, key, f, m) ensures entry'.fields.Get(f) == h[m].event.fields.Get(f) {
      if m < |g| {
        assert IsFirstValue(g, key, f, m);
      } else {
        assert entry.fields.Get(f) == None;
      }
    }
    forall f: Field | entry'.fields.Get(f) != None ensures exists m :: IsFirstValue(h, key, f, m) {
      if entry.fields.Get(f) != None {
        var m :| IsFirstValue(g, key, f, m);
        assert IsFirstValue(h, key, f, m);
      } else {
        assert forall m :: InSession(g, key, m) ==> !IsStorable(g[m].event.fields.Get(f)) by {
          NoFirstNone(g, key, f);
        }
        assert IsFirstValue(h, key, f, |g|);
      }
    }
  }

  /** If no call brings a first value, no call of the session brings any. */
  lemma {:induction false} NoFirstNone(h: seq<Input>, key: string, f: Field)
    requires forall i :: !IsFirstValue(h, key, f, i)
    ensures forall m :: InSession(h, key, m) ==> !IsStorable(h[m].event.fields.Get(f))
  {
    if m :| InSession(h, key, m) && IsStorable(h[m].event.fields.Get(f)) {
      var _ := LeastStorable(h, key, f, m);
    }
  }

  lemma {:induction false} LeastStorable(h: seq<Input>, key: string, f: Field, m: int) returns (i: int)
    requires InSession(h, key, m) && IsStorable(h[m].event.fields.Get(f))
    ensures IsFirstValue(h, key, f, i)
    decreases m
  {
    if x :| 0 <= x < m && InSession(h, key, x) && IsStorable(h[x].event.fields.Get(f)) {
      i := LeastStorable(h, key, f, x);
    } else {
      i := m;
    }
  }

  /** The entry written by a call that starts a session. */
  lemma {:induction false} EntryStarts(g: seq<Input>, i: Input, key: string)
    requires HasKey(i.event, key)
    requires forall n :: IsLastCall(g, key, n) ==> i.now - g[n].now > 120
    ensures EntryIs(g + [i], key, Entry(i.now, Merge(EMPTY, i.event.fields)))
  {
    hide Merge, Consecutive;
    var h := g + [i];
    var entry := Entry(i.now, Merge(EMPTY, i.event.fields));
    forall f: Field ensures entry.fields.Get(f) == Replace(None, i.event.fields.Get(f)) {
      MergeGet(EMPTY, i.event.fields, f);
    }
    assert IsLastCall(h, key, |g|);
    forall m ensures InSession(h, key, m) <==> m == |g| {
      SessionRestarts(g, i, key, m);
    }
    forall f: Field | entry.fields.Get(f) != None ensures exists m :: IsFirstValue(h, key, f, m) {
      assert IsFirstValue(h, key, f, |g|);
    }
  }

  lemma {:induction false} LastCallIsUnique(h: seq<Input>, key: string, m: int, n: int)
    requires IsLastCall(h, key, m) && IsLastCall(h, key, n)
    ensures m == n
  {
  }

  /** One call keeps the meaning of the store. */
  lemma {:induction false} RememberMeans(g: seq<Input>, i: Input, store: map<string, Entry>)
    requires IsKeyed(i.event) && StoreMeans(g, store) && forall n :: 0 <= n < |g| ==> g[n].now > 0
    ensures StoreMeans(g + [i], Remember(store, i.event, i.now))
  {
    var h, key, store' := g + [i], KeyOf(i.event), Remember(store, i.event, i.now);
    forall k | k in store' ensures EntryIs(h, k, store'[k]) {
      if k != key {
        EntryFrame(g, i, k, store[k]);
      } else if IsFresh(store, key, i.now) {
        EntryJoins(g, i, key, store[key]);
      } else {
        forall n | IsLastCall(g, key, n) ensures i.now - g[n].now > 120 {
          assert KeyAt(g, key, n);
          var n' :| IsLastCall(g, key, n') && store[key].timestamp == g[n'].now;
          LastCallIsUnique(g, key, n, n');
        }
        EntryStarts(g, i, key);
      }
    }
    forall k, n | KeyAt(h, k, n) ensures k in store' {
      if n < |g| {
        assert KeyAt(g, k, n);
      }
    }
  }

  lemma {:induction false} FullStoreMeaning(s: State, h: seq<Input>)
    requires s.store == map[] && forall n :: 0 <= n < |h| ==> h[n].now > 0
    ensures StoreMeans(h, RunState(s, h, false).store)
  {
    if h != [] {
      var g, i := h[..|h| - 1], h[|h| - 1];
      var store := RunState(s, g, false).store;
      FullStoreMeaning(s, g);
      assert h == g + [i];
      if IsKeyed(i.event) {
        RememberMeans(g, i, store);
      } else {
        forall k | k in store ensures EntryIs(h, k, store[k]) {
          EntryFrame(g, i, k, store[k]);
        }
        forall k, n | KeyAt(h, k, n) ensures k in store {
          assert KeyAt(g, k, n);
        }
      }
    }
  }

  /** What the purged store holds: every entry means what `EntryIs` says, and there is one for every key whose last
      call is not more than 120 seconds old. */
  lemma {:induction false} StoreMeaning(s: State, h: seq<Input>)
    requires s.store == map[] && ClockOk(h)
    ensures var store := RunState(s, h, true).store;
      && (forall key :: key in store ==> EntryIs(h, key, store[key]))
      && (forall key, n :: IsLastCall(h, key, n) && h[n].now >= Clock(h) - 120 ==> key in store)
  {
    hide RunState, EntryIs;
    var store, full := RunState(s, h, true).store, RunState(s, h, false).store;
    PurgeInvisible(s, h);
    FullStoreMeaning(s, h);
    forall key, n | IsLastCall(h, key, n) && h[n].now >= Clock(h) - 120 ensures key in store {
      assert KeyAt(h, key, n) && EntryIs(h, key, full[key]);
      TimeOfEntry(h, key, full[key], n);
    }
  }

  lemma {:induction false} TimeOfEntry(h: seq<Input>, key: string, entry: Entry, n: int)
    requires EntryIs(h, key, entry) && IsLastCall(h, key, n)
    ensures entry.timestamp == h[n].now
  {
    var m :| IsLastCall(h, key, m) && entry.timestamp == h[m].now;
    LastCallIsUnique(h, key, m, n);
  }

  predicate IsBlank(t: Text) { t == None || t.value == "" }

  lemma {:induction false} EntryStorable(h: seq<Input>, key: string, entry: Entry, f: Field)
    requires EntryIs(h, key, entry)
    ensures entry.fields.Get(f) == None || IsStorable(entry.fields.Get(f))
  {
    if entry.fields.Get(f) != None {
      var m :| IsFirstValue(h, key, f, m);
      assert entry.fields.Get(f) == h[m].event.fields.Get(f);
    }
  }

  /** A blank field comes out as it is stored afterwards, or stays blank when nothing is stored. */
  lemma {:induction false} EnrichAndStore(store: map<string, Entry>, e: Event, now: int, f: Field)
    requires IsKeyed(e)
    requires KeyOf(e) in store ==> store[KeyOf(e)].fields.Get(f) == None || IsStorable(store[KeyOf(e)].fields.Get(f))
    ensures var own, out := e.fields.Get(f), Enrich(store, e, now).fields.Get(f);
      var after := Remember(store, e, now)[KeyOf(e)].fields.Get(f);
      if !IsBlank(own) then out == own else if after == None then out == own else out == after
  {
  }

  /** What a call makes of a field, given what the store means. */
  lemma {:induction false} EnrichMeans(g: seq<Input>, i: Input, store: map<string, Entry>, f: Field)
    requires IsKeyed(i.event) && StoreMeans(g, store) && forall n :: 0 <= n < |g| ==> g[n].now > 0
    ensures OutputIs(g + [i], f, Enrich(store, i.event, i.now).fields.Get(f))
  {
    hide InSession, KeyOf, Merge, Enrich, Replace, IsFresh, StoreMeans, OutputIs, EntryIs, Remember, IsStorable;
    var key := KeyOf(i.event);
    if key in store {
      StoreEntry(g, store, key);
      EntryStorable(g, key, store[key], f);
    }
    RememberMeans(g, i, store);
    EnrichAndStore(store, i.event, i.now, f);
    RemembersKey(store, i.event, i.now);
    StoreEntry(g + [i], Remember(store, i.event, i.now), key);
    assert (g + [i])[|g|] == i;
    OutputFromEntry(g + [i], f, Remember(store, i.event, i.now)[key], Enrich(store, i.event, i.now).fields.Get(f));
  }

  lemma {:induction false} StoreEntry(h: seq<Input>, store: map<string, Entry>, key: string)
    requires StoreMeans(h, store) && key in store
    ensures EntryIs(h, key, store[key])
  {
  }

  lemma {:induction false} RemembersKey(store: map<string, Entry>, e: Event, now: int)
    requires IsKeyed(e)
    ensures KeyOf(e) in Remember(store, e, now)
  {
  }

  lemma {:induction false} OutputFromEntry(h: seq<Input>, f: Field, after: Entry, out: Text)
    requires h != [] && IsKeyed(h[|h| - 1].event)
    ensures var own := h[|h| - 1].event.fields.Get(f);
      && EntryIs(h, KeyOf(h[|h| - 1].event), after)
      && out == (if IsBlank(own) && after.fields.Get(f) != None then after.fields.Get(f) else own)
      ==> OutputIs(h, f, out)
  {
    hide InSession, KeyOf;
  }

  /** The value `out` of a field of the last event of a run, told by the session it belongs to. */
  ghost predicate OutputIs(h: seq<Input>, f: Field, out: Text)
    requires h != [] && IsKeyed(h[|h| - 1].event)
  {
    var key, own := KeyOf(h[|h| - 1].event), h[|h| - 1].event.fields.Get(f);
    if !IsBlank(own) then out == own
    else
      && (forall i :: IsFirstValue(h, key, f, i) ==> out == h[i].event.fields.Get(f))
      && ((forall i :: !IsFirstValue(h, key, f, i)) ==> out == own)
  }

  /** The meaning of every output field, on every run: an event keeps its own non-empty value; otherwise it gets
      the first value of 1 to 80 characters of its session, and stays as it is when the session has none. */
  lemma {:induction false} FieldMeaning(s: State, h: seq<Input>, f: Field)
    requires s.store == map[] && ClockOk(h) && h != [] && IsKeyed(h[|h| - 1].event)
    ensures OutputIs(h, f, LastOutput(s, h, true).fields.Get(f))
  {
    var g, i := h[..|h| - 1], h[|h| - 1];
    assert h == g + [i];
    PurgeInvisible(s, h);
    FullStoreMeaning(s, g);
    EnrichMeans(g, i, RunState(s, g, false).store, f);
  }
}
