/** What pre-decoding does to a line: when the text of the message survives. */
module SyslogMeaning {
  import opened CText
  import opened Syslog

  lemma {:induction false} IndexOfIs(s: string, c: char, k: nat)
    requires k < |s| && s[k] == c && c !in s[..k]
    ensures IndexOf(s, c) == k
  {
    if k > 0 {
      assert s[0] == s[..k][0];
      assert s[1..][..k - 1] == s[..k][1..];
      IndexOfIs(s[1..], c, k - 1);
    }
  }

  lemma {:induction false} CStrIs(b: string, at: nat, end: nat)
    requires at <= end < |b| && b[end] == NUL && NUL !in b[at..end]
    ensures CStr(b, at) == b[at..end]
  {
    assert b[at..][..end - at] == b[at..end];
    IndexOfIs(b[at..], NUL, end - at);
  }

  lemma {:induction false} CStrStopsAt(b: string, at: nat, end: nat)
    requires at <= end < |b| && b[end] == NUL
    ensures |CStr(b, at)| <= end - at
  {
    IndexOfAtMost(b[at..], NUL, end - at);
  }

  lemma {:induction false} IndexOfAtMost(s: string, c: char, k: nat)
    requires k < |s| && s[k] == c
    ensures IndexOf(s, c) <= k
  {
    if k > 0 {
      IndexOfAtMost(s[1..], c, k - 1);
    }
  }

  // ---------------------------------------------------------------- does the message survive?

  /** An AIX tag whose `name[digits` is not closed by `]: `. */
  predicate IsUnclosedAix(b: string, n: nat, p: nat)
    requires IsBuffer(b, n) && p <= n
  {
    var e := Span(b, n, p, HostChars);
    && b[e] == '|' && IsLower(b[e + 1])
    && var f := Span(b, n, e + 2, Alnums);
    && b[f] == ':'
    && var g := Span(b, n, f + 1, Alnums);
    b[g] == ' ' && IsUnclosedAixTag(b, n, g + 1)
  }

  lemma {:induction false} OnlyUnclosedAixStays(b: string, n: nat, p: nat)
    requires IsBuffer(b, n) && p <= n
    ensures var s := ProgramName(b, n, p);
      s.cut.Some? && s.pieces == None <==> IsUnclosedAix(b, n, p)
  {
    hide Span, AixTag, IsUnclosedAixTag, PidEnd;
  }

  /** A host name and that form behind a date that ends at `d`. */
  predicate TagLosesText(b: string, n: nat, d: nat)
    requires IsBuffer(b, n) && 1 <= d <= n
  {
    var b1 := b[d - 1 := NUL];
    var e := Span(b1, n, SkipSpace(b1, n, d), HostChars);
    b1[e] == ' ' && IsUnclosedAix(b1[e := NUL], n, e + 1)
  }

  predicate LosesText(b: string, n: nat)
    requires IsBuffer(b, n)
  {
    var d := DateLength(DateView(b, n), n);
    d.Some? && TagLosesText(b, n, d.value)
  }

  ghost predicate SameFrom(b: string, b': string, at: nat, n: nat)
    requires n <= |b| && n <= |b'|
  {
    forall i :: at <= i < n ==> b'[i] == b[i]
  }

  ghost predicate CutFrom(b: string, at: nat, n: nat)
    requires n <= |b|
  {
    exists i :: at <= i < n && b[i] == NUL
  }

  lemma {:induction false} TagCuts(b: string, n: nat, d: nat)
    requires IsBuffer(b, n) && 1 <= d <= n
    ensures var h := Tag(b, n, d);
      if TagLosesText(b, n, d) then CutFrom(h.buf, h.logAt, n) else SameFrom(b, h.buf, h.logAt, n)
    ensures var h := Tag(b, n, d);
      h.hostAt.Some? && h.progAt == None ==>
        h.hostAt.value < h.logAt <= n && h.buf[h.logAt - 1] == NUL && !TagLosesText(b, n, d) &&
        forall i :: h.hostAt.value <= i < h.logAt - 1 ==> h.buf[i] == b[i] && b[i] != NUL
  {
    hide Span, IsUnclosedAix, ProgramName, DropId;
    var b1 := b[d - 1 := NUL];
    var start := SkipSpace(b1, n, d);
    var e := Span(b1, n, start, HostChars);
    if b1[e] == ' ' {
      forall i | start <= i < e ensures b1[i] == b[i] && b[i] != NUL {
        assert Fits(b1[i], HostChars);
      }
      var b2 := b1[e := NUL];
      OnlyUnclosedAixStays(b2, n, e + 1);
      var s := ProgramName(b2, n, e + 1);
      if s.cut.Some? && s.pieces == None {
        assert Cut(b2, s.cut)[s.cut.value] == NUL;
      }
    }
  }

  /** What a message is without a message identifier `[ID ...] ` in front: nothing is left to point at, not even an
      empty text, if the message ends with the bracket. */
  function WithoutId(msg: string): Option<string> {
    if !("[ID " <= msg) || ']' !in msg then Some(msg)
    else
      var k := IndexOf(msg, ']');
      if k + 1 >= |msg| then None else Some(msg[k + 2..])
  }

  lemma {:induction false} IdSpan(b: string, n: nat, p: nat)
    requires IsBuffer(b, n) && p <= n && NUL !in b[p..n] && "[ID " <= b[p..n]
    ensures var msg := b[p..n];
      Span(b, n, p + 4, NoBracket) == p + (if ']' in msg then IndexOf(msg, ']') else |msg|)
  {
    var msg := b[p..n];
    forall i | 0 <= i < |msg| ensures b[p + i] == msg[i] != NUL {
    }
    assert msg[..4] == "[ID ";
    forall i | 0 <= i < 4 ensures msg[i] != ']' {
      assert msg[i] == msg[..4][i];
    }
    var r := Span(b, n, p + 4, NoBracket);
    if ']' in msg {
      var k :| 0 <= k < |msg| && msg[k] == ']';
      assert r <= p + k by {
        assert !(p + 4 <= p + k < r);
      }
      forall i | 0 <= i < r - p ensures msg[i] != ']' {
        assert i >= 4 ==> Fits(b[p + i], NoBracket);
      }
      IndexOfIs(msg, ']', r - p);
    } else {
      assert r == n;
    }
  }

  /** Skipping the identifier on the buffer. */
  lemma {:induction false} DropIdMeans(b: string, n: nat, p: nat)
    requires IsBuffer(b, n) && p <= n && NUL !in b[p..n]
    ensures match WithoutId(b[p..n])
      case None => DropId(b, n, p) == n + 1
      case Some(rest) => DropId(b, n, p) <= n && b[DropId(b, n, p)..n] == rest
  {
    var msg := b[p..n];
    if "[ID " <= msg {
      IdSpan(b, n, p);
      assert msg[..4] == "[ID ";
      assert b[p] == msg[..4][0] && b[p + 1] == msg[..4][1] && b[p + 2] == msg[..4][2] && b[p + 3] == msg[..4][3];
    } else {
      hide Span;
      assert DropId(b, n, p) == p by {
        if |msg| >= 4 {
          assert msg[..4] == [b[p], b[p + 1], b[p + 2], b[p + 3]];
        } else {
          assert b[p + |msg|] == NUL;
        }
      }
    }
  }

  /** The message behind the tag, before an identifier in front of it is skipped. */
  function MessageAt(b: string, n: nat, d: nat): (p: Option<nat>)
    requires IsBuffer(b, n) && 1 <= d <= n
    ensures p.Some? ==> d <= p.value <= n
  {
    var b1 := b[d - 1 := NUL];
    var e := Span(b1, n, SkipSpace(b1, n, d), HostChars);
    if b1[e] == ':' && b1[e + 1] == ' ' then Some(e + 2)
    else if b1[e] == ' ' then ProgramName(b1[e := NUL], n, e + 1).pieces
    else None
  }

  /** A tag is recognised, and the message behind it is `[ID ...]` with nothing behind the bracket. */
  predicate EndsInId(b: string, n: nat)
    requires IsBuffer(b, n)
  {
    var d := DateLength(DateView(b, n), n);
    && d.Some?
    && var p := MessageAt(b, n, d.value);
    p.Some? && WithoutId(b[p.value..n]) == None
  }

  lemma {:induction false} TagOffset(b: string, n: nat, d: nat)
    requires IsBuffer(b, n) && 1 <= d <= n && NUL !in b[..n]
    ensures var h, p := Tag(b, n, d), MessageAt(b, n, d);
      if p.Some? then
        match WithoutId(b[p.value..n])
        case None => h.logAt == n + 1
        case Some(rest) => h.logAt <= n && b[h.logAt..n] == rest
      else h.logAt <= n
  {
    hide Span, ProgramName, DropId, WithoutId;
    var p := MessageAt(b, n, d);
    if p.Some? {
      var h := Tag(b, n, d);
      forall i | p.value <= i < n ensures h.buf[i] == b[i] && b[i] != NUL {
        assert b[..n][i] != NUL;
      }
      assert h.buf[p.value..n] == b[p.value..n];
      DropIdMeans(h.buf, n, p.value);
      if h.logAt <= n {
        assert h.buf[h.logAt..n] == b[h.logAt..n];
      }
    }
  }

  /** The offset of the message runs past the end of the line, behind the terminating NUL, exactly when the line ends
      in a message identifier. */
  lemma {:induction false} OffsetInLine(b: string, n: nat)
    requires IsBuffer(b, n) && NUL !in b[..n]
    ensures Decode(b, n).logAt <= n <==> !EndsInId(b, n)
    ensures EndsInId(b, n) ==> Decode(b, n).logAt == n + 1
  {
    hide Tag, MessageAt, WithoutId, DateLength, DateView;
    var d := DateLength(DateView(b, n), n);
    if d.Some? {
      TagOffset(b, n, d.value);
    }
  }

  /** The two ways to lose the message exclude each other. */
  lemma {:induction false} NotBoth(b: string, n: nat)
    requires IsBuffer(b, n)
    ensures !(EndsInId(b, n) && LosesText(b, n))
  {
    hide Span, ProgramName, IsUnclosedAix, DateLength, DateView, WithoutId;
    var d := DateLength(DateView(b, n), n);
    if d.Some? {
      var b1 := b[d.value - 1 := NUL];
      var e := Span(b1, n, SkipSpace(b1, n, d.value), HostChars);
      if b1[e] == ' ' {
        OnlyUnclosedAixStays(b1[e := NUL], n, e + 1);
      }
    }
  }

  /** The message that is left to decode is the line from some offset on, byte for byte, exactly when the line is
      neither an unclosed AIX form, where it ends early, nor ends in a message identifier. */
  lemma {:induction false} LogIsSuffix(b: string, n: nat)
    requires IsBuffer(b, n) && NUL !in b[..n]
    ensures var h := Decode(b, n);
      h.logAt <= n && CStr(h.buf, h.logAt) == b[h.logAt..n] <==> !LosesText(b, n) && !EndsInId(b, n)
  {
    OffsetInLine(b, n);
    hide Tag, TagLosesText, DateLength, DateView, CStr, EndsInId;
    var h := Decode(b, n);
    var d := DateLength(DateView(b, n), n);
    if d.Some? {
      TagCuts(b, n, d.value);
    }
    if LosesText(b, n) {
      var c :| h.logAt <= c < n && h.buf[c] == NUL;
      CStrStopsAt(h.buf, h.logAt, c);
    } else {
      SameTail(b, h.buf, h.logAt, n);
    }
  }

  /** If nothing was cut from an offset on, the C string there is the rest of the line. */
  lemma {:induction false} SameTail(b: string, b': string, at: nat, n: nat)
    requires IsBuffer(b, n) && IsBuffer(b', n) && NUL !in b[..n]
    requires SameFrom(b, b', at, n)
    ensures at <= n ==> CStr(b', at) == b[at..n]
  {
    if at <= n {
      assert b'[at..n] == b[at..n];
      forall c | c in b[at..n] ensures c in b[..n] {
        var i :| 0 <= i < n - at && b[at..n][i] == c;
        assert b[..n][at + i] == c;
      }
      CStrIs(b', at, n);
    }
  }

  /** A tag that is not recognised is undone: the message is everything behind the host name as received. */
  lemma {:induction false} UnknownTagIsKept(b: string, n: nat)
    requires IsBuffer(b, n) && NUL !in b[..n]
    ensures var h := Decode(b, n);
      h.hostAt.Some? && h.progAt == None ==>
        && h.hostAt.value < h.logAt <= n
        && CStr(h.buf, h.hostAt.value) == b[h.hostAt.value..h.logAt - 1]
        && CStr(h.buf, h.logAt) == b[h.logAt..n]
  {
    hide Tag, TagLosesText, DateLength, DateView, CStr;
    var h := Decode(b, n);
    if h.hostAt.Some? && h.progAt == None {
      TagCuts(b, n, DateLength(DateView(b, n), n).value);
      SameTail(b, h.buf, h.logAt, n);
      assert h.buf[h.hostAt.value..h.logAt - 1] == b[h.hostAt.value..h.logAt - 1];
      CStrIs(h.buf, h.hostAt.value, h.logAt - 1);
    }
  }
}
