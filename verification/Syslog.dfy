/** Pre-decoding of a log line: the header of RFC 3164 (timestamp, host and tag, its sections 4.1.2 and 4.1.3)
    is cut in place out of the buffer that holds the line.

    The buffer holds the `n` bytes of the line, the terminating NUL and one spare byte. Cutting writes a NUL
    behind a part; a part is then the C string at its offset. */
module Syslog {
  import opened CText

  const NUL := '\0'

  /** The entries of the host name map that equal 1. */
  predicate IsHostChar(c: char) {
    || '0' <= c <= '9' || 'A' <= c <= 'Z' || 'a' <= c <= 'z'
    || c == '(' || c == ')' || c == '-' || c == '.' || c == '/' || c == '@' || c == '_'
  }

  predicate IsLower(c: char) { 'a' <= c <= 'z' }

  predicate IsAlnum(c: char) { '0' <= c <= '9' || 'A' <= c <= 'Z' || 'a' <= c <= 'z' }

  datatype Class = HostChars | Digits | Alnums | NoBracket

  predicate Fits(c: char, k: Class) {
    match k
    case HostChars => IsHostChar(c)
    case Digits => IsDigit(c)
    case Alnums => IsAlnum(c)
    case NoBracket => c != NUL && c != ']'
  }

  predicate IsBuffer(b: string, n: nat) { |b| == n + 2 && b[n] == NUL }

  /** The C string at an offset. */
  function CStr(b: string, at: nat): string
    requires at <= |b|
  {
    b[at..at + IndexOf(b[at..], NUL)]
  }

  // ---------------------------------------------------------------- specification

  /** The first offset from `i` on whose character is not of the class. */
  function Span(b: string, n: nat, i: nat, k: Class): (r: nat)
    requires IsBuffer(b, n) && i <= n
    ensures i <= r <= n && !Fits(b[r], k)
    ensures forall j :: i <= j < r ==> Fits(b[j], k)
    decreases n - i
  {
    if Fits(b[i], k) then Span(b, n, i + 1, k) else i
  }

  /** Where the date ends, for the five date formats; `v` is the line and its NUL. */
  function DateLength(v: string, n: nat): (d: Option<nat>)
    requires n <= |v| && |v| <= n + 1
    ensures d.Some? ==> 16 <= d.value <= n
  {
    if n > 16 && v[3] == ' ' && v[6] == ' ' && v[9] == ':' && v[12] == ':' && v[15] == ' ' then Some(16)
    else if n > 23 && v[4] == '-' && v[7] == '-' && v[10] == ' ' && v[13] == ':' && v[16] == ':' && v[19] == ','
    then Some(24)
    else if n > 32 && v[4] == '-' && v[7] == '-' && v[10] == 'T' && v[13] == ':' && v[16] == ':'
            && ((v[22] == ':' && v[25] == ' ') || v[19] == '.')
    then
      Some(if v[22] == ':' && v[25] == ' ' then 26 else if v[26] == ':' then 30 else if v[29] == ':' then 33 else 32)
    else if n > 20 && IsDigit(v[0]) && v[4] == ' ' && v[8] == ' ' && v[11] == ' ' && v[14] == ':' && v[17] == ':'
            && v[20] == ' '
    then Some(21)
    else if n > 32 && IsDigit(v[0]) && v[4] == '-' && v[7] == '-' && v[10] == ' ' && v[13] == ':' && v[16] == ':'
            && v[19] == '.' && (v[26] == '-' || v[26] == '+') && v[31] == ' '
    then Some(32)
    else None
  }

  /** What the date formats are compared with: a two-byte letter a-umlaut in second place counts as one. */
  function DateView(b: string, n: nat): (v: string)
    requires IsBuffer(b, n)
    ensures n <= |v| <= n + 1
  {
    if n >= 2 && b[1] == '\U{C3}' && b[2] == '\U{A4}' then "Ma" + b[3..n + 1] else b[..n + 1]
  }

  function SkipSpace(b: string, n: nat, i: nat): (r: nat)
    requires IsBuffer(b, n) && i <= n
    ensures i <= r <= n
  {
    if b[i] == ' ' then i + 1 else i
  }

  /** What a part of the header comes to: where it is cut off, where the message goes on if its end is found,
      and where the program name starts. */
  datatype Step = Step(cut: Option<nat>, pieces: Option<nat>, progAt: Option<nat>)

  function Cut(b: string, c: Option<nat>): (r: string)
    ensures |r| == |b|
  {
    if c.Some? && c.value < |b| then b[c.value := NUL] else b
  }

  /** A step is sound if it cuts behind `p`, before the end of the line and before the message. */
  predicate IsSound(s: Step, n: nat, p: nat) {
    && (s.cut.Some? ==> p <= s.cut.value < n)
    && (s.pieces.Some? ==> p <= s.pieces.value <= n)
    && (s.progAt.Some? ==> p <= s.progAt.value <= n)
    && (s.cut.Some? && s.pieces.Some? ==> s.cut.value < s.pieces.value)
    && (s.progAt == None ==> s.cut == None && s.pieces == None)
    && (s.cut.Some? ==> s.progAt.Some? && s.progAt.value <= s.cut.value)
  }

  /** Where the message goes on behind `[pid]:` or `[pid] `, from the second character of the number on. */
  function PidEnd(b: string, n: nat, i: nat): (r: Option<nat>)
    requires IsBuffer(b, n) && i <= n
    ensures r.Some? ==> i <= r.value <= n
  {
    var d := Span(b, n, i, Digits);
    if b[d] == ']' && b[d + 1] == ':' then Some(SkipSpace(b, n, d + 2))
    else if b[d] == ']' && b[d + 1] == ' ' then Some(d + 2)
    else None
  }

  /** The tag: `name:`, `name[pid]:`, `name[pid] ` or, on AIX, a facility and a severity before these. */
  function ProgramName(b: string, n: nat, p: nat): (s: Step)
    requires IsBuffer(b, n) && p <= n
    ensures IsSound(s, n, p)
  {
    var e := Span(b, n, p, HostChars);
    if b[e] == ':' then Step(Some(e), Some(SkipSpace(b, n, e + 1)), Some(p))
    else if b[e] == '[' && IsDigit(b[e + 1]) then
      var end := PidEnd(b, n, e + 2);
      if end == None then Step(None, None, None) else Step(Some(e), end, Some(p))
    else if b[e] == '|' && IsLower(b[e + 1]) then AixName(b, n, e + 2)
    else Step(None, None, None)
  }

  /** Behind the first letter of the facility: the severity and the tag must follow. */
  function AixName(b: string, n: nat, i: nat): (s: Step)
    requires IsBuffer(b, n) && i <= n
    ensures IsSound(s, n, i)
  {
    var f := Span(b, n, i, Alnums);
    if b[f] != ':' then Step(None, None, None)
    else
      var g := Span(b, n, f + 1, Alnums);
      if b[g] != ' ' then Step(None, None, None) else AixTag(b, n, g + 1)
  }

  function AixTag(b: string, n: nat, p: nat): (s: Step)
    requires IsBuffer(b, n) && p <= n
    ensures IsSound(s, n, p) && s.progAt == Some(p)
    ensures s.cut.Some? && s.pieces == None <==> IsUnclosedAixTag(b, n, p)
  {
    var q := Span(b, n, p, HostChars);
    if b[q] == ':' && b[q + 1] == ' ' then Step(Some(q), Some(q + 2), Some(p))
    else if b[q] == '[' && IsDigit(b[q + 1]) then
      var d := Span(b, n, q + 2, Digits);
      Step(Some(q), if b[d] == ']' && b[d + 1] == ':' && b[d + 2] == ' ' then Some(d + 3) else None, Some(p))
    else Step(None, Some(q), Some(p))
  }

  /** `name[digits` without `]: ` behind it. */
  predicate IsUnclosedAixTag(b: string, n: nat, p: nat)
    requires IsBuffer(b, n) && p <= n
  {
    var q := Span(b, n, p, HostChars);
    && b[q] == '[' && IsDigit(b[q + 1])
    && var d := Span(b, n, q + 2, Digits);
    !(b[d] == ']' && b[d + 1] == ':' && b[d + 2] == ' ')
  }

  /** Skips `[ID xx facility.severity]`. */
  function DropId(b: string, n: nat, p: nat): (r: nat)
    requires IsBuffer(b, n) && p <= n
    ensures p <= r <= n + 1
  {
    if b[p] == '[' && b[p + 1] == 'I' && b[p + 2] == 'D' && b[p + 3] == ' ' then
      var k := Span(b, n, p + 4, NoBracket);
      if b[k] == ']' then k + 2 else p
    else p
  }

  datatype Header = Header(buf: string, dated: bool, hostAt: Option<nat>, progAt: Option<nat>, logAt: nat)

  /** The header behind a date that ends at `d`. */
  function Tag(b: string, n: nat, d: nat): (h: Header)
    requires IsBuffer(b, n) && 1 <= d <= n
    ensures IsBuffer(h.buf, n) && h.dated && h.logAt <= n + 1
  {
    var b1 := b[d - 1 := NUL];
    var start := SkipSpace(b1, n, d);
    var e := Span(b1, n, start, HostChars);
    if b1[e] == ':' && b1[e + 1] == ' ' then
      var b2 := b1[e := NUL];
      Header(b2, true, None, Some(start), DropId(b2, n, e + 2))
    else if b1[e] != ' ' then Header(b1, true, None, None, start)
    else
      var b2 := b1[e := NUL];
      var s := ProgramName(b2, n, e + 1);
      var b3 := Cut(b2, s.cut);
      Header(b3, true, Some(start), s.progAt, if s.pieces.Some? then DropId(b3, n, s.pieces.value) else e + 1)
  }

  function Decode(b: string, n: nat): (h: Header)
    requires IsBuffer(b, n)
    ensures IsBuffer(h.buf, n) && h.logAt <= n + 1
  {
    var d := DateLength(DateView(b, n), n);
    if d == None then Header(b, false, None, None, 0) else Tag(b, n, d.value)
  }

  // ---------------------------------------------------------------- the code, in place

  method SpanFrom(buf: array<char>, n: nat, i: nat, k: Class) returns (r: nat)
    requires IsBuffer(buf[..], n) && i <= n
    ensures r == Span(buf[..], n, i, k)
  {
    r := i;
    while Fits(buf[r], k)
      invariant i <= r <= n
      invariant Span(buf[..], n, r, k) == Span(buf[..], n, i, k)
      decreases n - r
    {
      r := r + 1;
    }
  }

  /** A cut before the start of a span does not move its end. */
  lemma {:induction false} SpanBehindCut(b: string, n: nat, i: nat, c: nat, k: Class)
    requires IsBuffer(b, n) && c < i <= n
    ensures Span(b[c := NUL], n, i, k) == Span(b, n, i, k)
    decreases n - i
  {
    if Fits(b[i], k) {
      SpanBehindCut(b, n, i + 1, c, k);
    }
  }

  /** `name[pid]`, cut at the bracket. If it is not closed, the cut is found again by walking back over the
      digits, and the bracket is restored. */
  method ExtractPid(buf: array<char>, n: nat, e: nat) returns (pieces: Option<nat>)
    requires IsBuffer(buf[..], n) && e + 2 <= n && buf[e] == '[' && IsDigit(buf[e + 1])
    modifies buf
    ensures pieces == PidEnd(old(buf[..]), n, e + 2)
    ensures buf[..] == if pieces.Some? then old(buf[..])[e := NUL] else old(buf[..])
  {
    hide Span;
    ghost var b := buf[..];
    buf[e] := NUL;
    assert buf[..] == b[e := NUL];
    SpanBehindCut(b, n, e + 2, e, Digits);
    var d := SpanFrom(buf, n, e + 2, Digits);
    if buf[d] == ']' && buf[d + 1] == ':' {
      pieces := Some(if buf[d + 2] == ' ' then d + 3 else d + 2);
    } else if buf[d] == ']' && buf[d + 1] == ' ' {
      pieces := Some(d + 2);
    } else {
      pieces := None;
      var back := d - 1;
      while IsDigit(buf[back])
        invariant e <= back < d
        invariant forall j :: e + 2 <= j < d ==> IsDigit(buf[j])
        invariant buf[..] == b[e := NUL]
        decreases back
      {
        back := back - 1;
      }
      if buf[back] == NUL {
        buf[back] := '[';
      }
      assert buf[..] == b;
    }
  }

  method ExtractProgram(buf: array<char>, n: nat, p: nat) returns (pieces: Option<nat>, progAt: Option<nat>)
    requires IsBuffer(buf[..], n) && p <= n
    modifies buf
    ensures var s := ProgramName(old(buf[..]), n, p);
      buf[..] == Cut(old(buf[..]), s.cut) && pieces == s.pieces && progAt == s.progAt
  {
    hide Span, PidEnd, AixName;
    ghost var b := buf[..];
    progAt := Some(p);
    var e := SpanFrom(buf, n, p, HostChars);
    if buf[e] == ':' {
      buf[e] := NUL;
      pieces := Some(if buf[e + 1] == ' ' then e + 2 else e + 1);
      assert buf[..] == b[e := NUL];
    } else if buf[e] == '[' && IsDigit(buf[e + 1]) {
      pieces := ExtractPid(buf, n, e);
      if pieces == None {
        progAt := None;
      }
    } else if buf[e] == '|' && IsLower(buf[e + 1]) {
      pieces, progAt := ExtractAixProgram(buf, n, e + 2);
    } else {
      pieces, progAt := None, None;
    }
  }

  method ExtractAixProgram(buf: array<char>, n: nat, i: nat) returns (pieces: Option<nat>, progAt: Option<nat>)
    requires IsBuffer(buf[..], n) && i <= n
    modifies buf
    ensures var s := AixName(old(buf[..]), n, i);
      buf[..] == Cut(old(buf[..]), s.cut) && pieces == s.pieces && progAt == s.progAt
  {
    hide Span, AixTag;
    pieces, progAt := None, None;
    var f := SpanFrom(buf, n, i, Alnums);
    if buf[f] == ':' {
      var g := SpanFrom(buf, n, f + 1, Alnums);
      if buf[g] == ' ' {
        progAt := Some(g + 1);
        pieces := ExtractAixTag(buf, n, g + 1);
      }
    }
  }

  method ExtractAixTag(buf: array<char>, n: nat, p: nat) returns (pieces: Option<nat>)
    requires IsBuffer(buf[..], n) && p <= n
    modifies buf
    ensures var s := AixTag(old(buf[..]), n, p);
      buf[..] == Cut(old(buf[..]), s.cut) && pieces == s.pieces
  {
    hide Span;
    ghost var b := buf[..];
    var q := SpanFrom(buf, n, p, HostChars);
    if buf[q] == ':' && buf[q + 1] == ' ' {
      buf[q] := NUL;
      pieces := Some(q + 2);
      assert buf[..] == b[q := NUL];
    } else if buf[q] == '[' && IsDigit(buf[q + 1]) {
      buf[q] := NUL;
      assert buf[..] == b[q := NUL];
      SpanBehindCut(b, n, q + 2, q, Digits);
      var d := SpanFrom(buf, n, q + 2, Digits);
      pieces := if buf[d] == ']' && buf[d + 1] == ':' && buf[d + 2] == ' ' then Some(d + 3) else None;
    } else {
      pieces := Some(q);
    }
  }

  method SkipId(buf: array<char>, n: nat, p: nat) returns (log: nat)
    requires IsBuffer(buf[..], n) && p <= n
    ensures log == DropId(buf[..], n, p)
  {
    log := p;
    if buf[p] == '[' && buf[p + 1] == 'I' && buf[p + 2] == 'D' && buf[p + 3] == ' ' {
      var k := SpanFrom(buf, n, p + 4, NoBracket);
      if buf[k] == ']' {
        log := k + 2;
      }
    }
  }

  /** The part of the syslog branch of `OS_CleanMSG` behind the date. */
  method ExtractTag(buf: array<char>, n: nat, d: nat) returns (hostAt: Option<nat>, progAt: Option<nat>, log: nat)
    requires IsBuffer(buf[..], n) && 1 <= d <= n
    modifies buf
    ensures Header(buf[..], true, hostAt, progAt, log) == Tag(old(buf[..]), n, d)
  {
    hide Span, ProgramName, DropId;
    ghost var b1 := buf[..][d - 1 := NUL];
    hostAt, progAt, log := None, None, d;
    buf[log - 1] := NUL;
    assert buf[..] == b1;
    if buf[log] == ' ' {
      log := log + 1;
    }
    var e := SpanFrom(buf, n, log, HostChars);
    var pieces: Option<nat> := None;
    if buf[e] == ':' && buf[e + 1] == ' ' {
      progAt := Some(log);
      buf[e] := NUL;
      assert buf[..] == b1[e := NUL];
      log := e + 2;
      pieces := Some(log);
    } else if buf[e] == ' ' {
      hostAt := Some(log);
      buf[e] := NUL;
      assert buf[..] == b1[e := NUL];
      log := e + 1;
      pieces, progAt := ExtractProgram(buf, n, e + 1);
    }
    if pieces.Some? {
      log := SkipId(buf, n, pieces.value);
    }
  }

  /** The date check and the syslog branch of `OS_CleanMSG`. */
  method PreDecode(buf: array<char>, n: nat)
    returns (dated: bool, hostAt: Option<nat>, progAt: Option<nat>, log: nat)
    requires IsBuffer(buf[..], n)
    modifies buf
    ensures Header(buf[..], dated, hostAt, progAt, log) == Decode(old(buf[..]), n)
  {
    hide Tag, DateLength, DateView;
    dated, hostAt, progAt, log := false, None, None, 0;
    var date := DateLength(DateView(buf[..], n), n);
    if date.Some? {
      dated := true;
      hostAt, progAt, log := ExtractTag(buf, n, date.value);
    }
  }
}
