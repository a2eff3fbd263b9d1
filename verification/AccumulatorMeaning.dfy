/** What the accumulator does to an event, told by the host, the decoder and the identifier of the events before it. */
module AccumulatorMeaning {
  import opened CText
  import opened Accumulator

  // ---------------------------------------------------------------- keys

  ghost predicate SameSource(a: Event, b: Event) {
    HasParts(a) && HasParts(b) && a.hostname == b.hostname && a.decoder == b.decoder && a.id == b.id
  }

  /** Without blanks in them, host and decoder can be told apart in a key. */
  predicate IsPlain(e: Event) { e.decoder.Some? ==> ' ' !in e.hostname && ' ' !in e.decoder.value }

  /** The part in front of the first blank, and the part behind it. */
  lemma {:induction false} SplitAtBlank(a: string, x: string, b: string, y: string)
    requires ' ' !in a && ' ' !in b && a + " " + x == b + " " + y
    ensures a == b && x == y
  {
    var s, t := a + " " + x, b + " " + y;
    assert s[|a|] == ' ' && forall i :: 0 <= i < |a| ==> s[i] == a[i];
    assert t[|b|] == ' ' && forall i :: 0 <= i < |b| ==> t[i] == b[i];
    assert s[..|a|] == a && t[..|b|] == b;
    assert s[|a| + 1..] == x && t[|b| + 1..] == y;
  }

  /** Two events whose hosts and decoders hold no blank have one key exactly when host, decoder and identifier are the
      same. */
  lemma {:induction false} KeyTellsSource(a: Event, b: Event)
    requires HasParts(a) && HasParts(b) && IsPlain(a) && IsPlain(b)
    ensures KeyOf(a) == KeyOf(b) <==> SameSource(a, b)
  {
    if KeyOf(a) == KeyOf(b) {
      var x, y := a.decoder.value + " " + a.id.value, b.decoder.value + " " + b.id.value;
      assert KeyOf(a) == a.hostname + " " + x && KeyOf(b) == b.hostname + " " + y;
      SplitAtBlank(a.hostname, x, b.hostname, y);
      SplitAtBlank(a.decoder.value, a.id.value, b.decoder.value, b.id.value);
    }
  }

  /** With a blank in the host, two different sources share a key. */
  lemma {:induction false} BlankConfuses(id: string, fields: Fields)
    ensures var a := Event(Some(id), Some("c"), "a b", fields);
      var b := Event(Some(id), Some("b c"), "a", fields);
      KeyOf(a) == KeyOf(b) && !SameSource(a, b)
  {
    assert "a b" + " " + "c" == "a" + " " + "b c";
    assert "a b" != "a" by { assert |"a b"| != |"a"|; }
  }

  // ---------------------------------------------------------------- what comes out

  ghost predicate SourceAt(h: seq<Input>, e: Event, i: int) { 0 <= i < |h| && SameSource(h[i].event, e) }

  /** From call `i` on, every call of that source but the last is followed within 120 seconds by another one. */
  ghost predicate Follows(h: seq<Input>, e: Event, i: int) {
    && SourceAt(h, e, i)
    && forall j :: i <= j < |h| - 1 && SourceAt(h, e, j) ==>
         exists k :: j < k && SourceAt(h, e, k) && h[k].now - h[j].now <= 120
  }

  /** Call `i` brings a value of 1 to 80 characters. */
  ghost predicate Brings(h: seq<Input>, e: Event, f: Field, i: int) {
    Follows(h, e, i) && var t := h[i].event.fields.Get(f); t.Some? && 1 <= |t.value| <= 80
  }

  ghost predicate BringsFirst(h: seq<Input>, e: Event, f: Field, i: int) {
    Brings(h, e, f, i) && forall j :: 0 <= j < i ==> !Brings(h, e, f, j)
  }

  lemma {:induction false} SameCalls(h: seq<Input>, e: Event, i: int)
    requires IsKeyed(e) && IsPlain(e) && forall j :: 0 <= j < |h| ==> IsPlain(h[j].event)
    ensures KeyAt(h, KeyOf(e), i) <==> SourceAt(h, e, i)
  {
    hide KeyOf, IsPlain;
    if 0 <= i < |h| && HasParts(h[i].event) {
      KeyTellsSource(h[i].event, e);
    }
  }

  /** Some call is the next one of its key. */
  lemma {:induction false} NextCall(h: seq<Input>, key: string, j: int, k: int) returns (n: int)
    requires j < k && KeyAt(h, key, j) && KeyAt(h, key, k)
    ensures n <= k && Consecutive(h, key, j, n)
    decreases k
  {
    if x :| j < x < k && KeyAt(h, key, x) {
      n := NextCall(h, key, j, x);
    } else {
      n := k;
    }
  }

  /** The session of the last call, told by its source. */
  lemma {:induction false} SameSession(h: seq<Input>, i: int)
    requires ClockOk(h) && h != [] && IsKeyed(h[|h| - 1].event) && forall j :: 0 <= j < |h| ==> IsPlain(h[j].event)
    ensures InSession(h, KeyOf(h[|h| - 1].event), i) <==> Follows(h, h[|h| - 1].event, i)
  {
    hide KeyOf, IsPlain, SourceAt;
    var e := h[|h| - 1].event;
    var key := KeyOf(e);
    forall j ensures KeyAt(h, key, j) <==> SourceAt(h, e, j) {
      SameCalls(h, e, j);
    }
    assert KeyAt(h, key, |h| - 1);
    if InSession(h, key, i) {
      forall j | i <= j < |h| - 1 && SourceAt(h, e, j)
        ensures exists k :: j < k && SourceAt(h, e, k) && h[k].now - h[j].now <= 120
      {
        var n := NextCall(h, key, j, |h| - 1);
        assert SourceAt(h, e, n);
      }
    }
    if Follows(h, e, i) {
      forall j, k | i <= j && Consecutive(h, key, j, k) ensures h[k].now - h[j].now <= 120 {
        var n :| j < n && SourceAt(h, e, n) && h[n].now - h[j].now <= 120;
        assert KeyAt(h, key, n);
        ClockGrows(h, k, n);
      }
    }
  }

  lemma {:induction false} ClockGrows(h: seq<Input>, i: int, j: int)
    requires ClockOk(h) && 0 <= i <= j < |h|
    ensures h[i].now <= h[j].now
  {
  }

  lemma {:induction false} SessionInRun(h: seq<Input>, key: string, i: int)
    ensures InSession(h, key, i) ==> 0 <= i < |h|
  {
  }

  lemma {:induction false} SameFirst(h: seq<Input>, f: Field, i: int)
    requires ClockOk(h) && h != [] && IsKeyed(h[|h| - 1].event) && forall j :: 0 <= j < |h| ==> IsPlain(h[j].event)
    ensures IsFirstValue(h, KeyOf(h[|h| - 1].event), f, i) <==> BringsFirst(h, h[|h| - 1].event, f, i)
  {
    hide KeyOf, IsPlain, SourceAt, InSession, Follows;
    var e := h[|h| - 1].event;
    var key := KeyOf(e);
    forall j | 0 <= j < |h|
      ensures InSession(h, key, j) && IsStorable(h[j].event.fields.Get(f)) <==> Brings(h, e, f, j)
    {
      SameSession(h, j);
    }
    SameSession(h, i);
    SessionInRun(h, key, i);
  }

  /** On every run with a clock that never goes back and without blanks in hosts and decoders, a field that is not empty
      comes out as it is. An empty one gets the first value that a call of the same host, decoder and identifier
      brought, from where these follow each other within 120 seconds; without such a value it stays as it is. */
  lemma {:induction false} FieldBySource(s: State, h: seq<Input>, f: Field)
    requires s.store == map[] && ClockOk(h) && h != [] && forall i :: 0 <= i < |h| ==> IsPlain(h[i].event)
    requires HasParts(h[|h| - 1].event)
    requires var e := h[|h| - 1].event; |e.hostname| + |e.decoder.value| + |e.id.value| <= 253
    ensures var e, out := h[|h| - 1].event, LastOutput(s, h, true).fields.Get(f);
      var own := e.fields.Get(f);
      if own.Some? && own.value != "" then out == own
      else
        && (forall i :: BringsFirst(h, e, f, i) ==> out == h[i].event.fields.Get(f))
        && ((forall i :: !BringsFirst(h, e, f, i)) ==> out == own)
  {
    hide RunState, InSession, IsFirstValue, BringsFirst, IsPlain, ClockOk;
    FieldMeaning(s, h, f);
    var e := h[|h| - 1].event;
    var key := KeyOf(e);
    forall i ensures IsFirstValue(h, key, f, i) <==> BringsFirst(h, e, f, i) {
      SameFirst(h, f, i);
    }
  }

  /** Nothing else of an event changes, and an event without identifier or decoder, or with too long a key, comes out
      as it went in. */
  lemma {:induction false} OutputKeeps(s: State, h: seq<Input>)
    requires h != []
    ensures var e, out := h[|h| - 1].event, LastOutput(s, h, true);
      && out.id == e.id && out.decoder == e.decoder && out.hostname == e.hostname
      && (e.id == None || e.decoder == None || |e.hostname| + |e.decoder.value| + |e.id.value| > 253 ==> out == e)
  {
    hide RunState, Merge;
  }
}
