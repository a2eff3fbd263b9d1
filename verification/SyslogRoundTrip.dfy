/** Printing a log line and reading its header gives the parts back: for every date format, with and without a host
    name, and for every form of the tag. */
module SyslogRoundTrip {
  import opened CText
  import opened Syslog
  import opened SyslogDates
  import opened SyslogMeaning

  // ---------------------------------------------------------------- what is printed

  predicate AllFit(s: string, k: Class) { forall i :: 0 <= i < |s| ==> Fits(s[i], k) }

  /** What stands behind the program name and its process number. */
  datatype Close = ColonBlank | Colon | Blank

  function CloseText(close: Close): string {
    match close
    case ColonBlank => ": "
    case Colon => ":"
    case Blank => " "
  }

  /** The text between the program name and the message. */
  function TagText(pid: Option<string>, close: Close): string {
    match pid
    case None => CloseText(close)
    case Some(p) => "[" + p + "]" + CloseText(close)
  }

  /** On AIX, what stands in front of the program name: `auth|security:info `. */
  datatype Lead = Lead(name: string, facility: string, severity: string)

  function LeadText(lead: Option<Lead>): string {
    match lead
    case None => ""
    case Some(l) => l.name + "|" + l.facility + ":" + l.severity + " "
  }

  predicate IsLead(l: Lead) {
    && AllFit(l.name, HostChars) && AllFit(l.severity, Alnums)
    && l.facility != "" && IsLower(l.facility[0]) && AllFit(l.facility, Alnums)
  }

  /** The tag can be read back in front of this message. */
  predicate IsTag(lead: Option<Lead>, prog: string, pid: Option<string>, close: Close, msg: string) {
    && AllFit(prog, HostChars) && NUL !in msg
    && (pid.Some? ==> pid.value != "" && AllFit(pid.value, Digits))
    && (lead.Some? ==> IsLead(lead.value) && close == ColonBlank)
    && (close == Colon ==> !(" " <= msg))
    && (close == Blank ==> pid.Some?)
  }

  function Body(lead: Option<Lead>, prog: string, pid: Option<string>, close: Close, msg: string): string {
    LeadText(lead) + prog + TagText(pid, close) + msg
  }

  /** The buffer for a line with this date, an extra blank or none, and this host and rest. */
  function Line(ts: string, extra: bool, host: string, body: string, spare: char): string {
    ts + (if extra then "  " else " ") + host + " " + body + [NUL, spare]
  }

  /** The same without a host name. */
  function BareLine(ts: string, extra: bool, body: string, spare: char): string {
    ts + (if extra then "  " else " ") + body + [NUL, spare]
  }

  /** Where the host name or, without one, the program name starts. */
  function After(ts: string, extra: bool): nat { |ts| + if extra then 2 else 1 }

  // ---------------------------------------------------------------- texts in a buffer

  lemma {:induction false} SpanIs(b: string, n: nat, i: nat, k: Class, r: nat)
    requires IsBuffer(b, n) && i <= r <= n
    requires (forall j :: i <= j < r ==> Fits(b[j], k)) && !Fits(b[r], k)
    ensures Span(b, n, i, k) == r
    decreases n - i
  {
    if i < r {
      SpanIs(b, n, i + 1, k, r);
    }
  }

  lemma {:induction false} CStrHolds(b: string, at: nat, w: string)
    requires Holds(b, at, w) && NUL !in w && at + |w| < |b| && b[at + |w|] == NUL
    ensures CStr(b, at) == w
  {
    assert b[at..at + |w|] == w;
    CStrIs(b, at, at + |w|);
  }

  lemma {:induction false} HoldsAfterCut(b: string, at: nat, w: string, c: nat)
    requires Holds(b, at, w) && c < |b| && !(at <= c < at + |w|)
    ensures Holds(b[c := NUL], at, w)
  {
  }

  /** A text of one class and what follows it. */
  lemma {:induction false} SpanHolds(b: string, n: nat, at: nat, w: string, k: Class)
    requires IsBuffer(b, n) && Holds(b, at, w) && AllFit(w, k) && at + |w| <= n && !Fits(b[at + |w|], k)
    ensures Span(b, n, at, k) == at + |w|
  {
    forall j | at <= j < at + |w| ensures Fits(b[j], k) {
      assert b[j] == w[j - at];
    }
    SpanIs(b, n, at, k, at + |w|);
  }

  /** Two texts one behind the other. */
  lemma {:induction false} HoldsBoth(b: string, at: nat, x: string, y: string)
    ensures Holds(b, at, x + y) <==> Holds(b, at, x) && Holds(b, at + |x|, y)
  {
    var w := x + y;
    if Holds(b, at, w) {
      forall i {:trigger x[i]} | 0 <= i < |x| ensures b[at + i] == x[i] {
        assert w[i] == x[i];
      }
      forall i {:trigger y[i]} | 0 <= i < |y| ensures b[at + |x| + i] == y[i] {
        assert w[|x| + i] == y[i];
      }
    }
  }

  lemma {:induction false} HoldsChar(b: string, at: nat, c: char)
    ensures Holds(b, at, [c]) <==> at < |b| && b[at] == c
  {
    if Holds(b, at, [c]) {
      assert b[at + 0] == [c][0];
    }
  }

  lemma {:induction false} NoNul(s: string, k: Class)
    requires AllFit(s, k)
    ensures NUL !in s
  {
  }

  // ---------------------------------------------------------------- the tag

  /** `prog` and the text behind it. */
  lemma {:induction false} PlainTag(b: string, n: nat, p: nat, prog: string, pid: Option<string>, close: Close,
                                    msg: string)
    requires IsTag(None, prog, pid, close, msg)
    requires IsBuffer(b, n) && Holds(b, p, prog) && Holds(b, p + |prog|, TagText(pid, close))
    requires var m := p + |prog| + |TagText(pid, close)|; m + |msg| == n && Holds(b, m, msg)
    ensures var q := p + |prog|;
      ProgramName(b, n, p) == Step(Some(q), Some(q + |TagText(pid, close)|), Some(p))
  {
    hide Span, Holds, AllFit, PidEnd;
    var q := p + |prog|;
    match pid {
      case None =>
        Behind(b, n, q + |CloseText(close)|, msg);
        CloseHolds(b, q, close);
        ProgramEnds(b, n, p, prog);
      case Some(w) =>
        PidText(b, q, w, CloseText(close));
        ProgramEnds(b, n, p, prog);
        PidIsSkipped(b, n, q, w, close, msg);
    }
  }

  lemma {:induction false} PidIsSkipped(b: string, n: nat, q: nat, w: string, close: Close, msg: string)
    requires IsBuffer(b, n) && w != "" && AllFit(w, Digits) && (close == Colon ==> !(" " <= msg))
    requires Holds(b, q + 1, w) && Holds(b, q + 2 + |w|, CloseText(close))
    requires var m := q + 2 + |w| + |CloseText(close)|; m + |msg| == n && Holds(b, m, msg)
    requires b[q + 1 + |w|] == ']'
    ensures IsDigit(b[q + 1]) && PidEnd(b, n, q + 2) == Some(q + 2 + |w| + |CloseText(close)|)
  {
    hide Span, Holds, AllFit;
    Behind(b, n, q + 2 + |w| + |CloseText(close)|, msg);
    CloseHolds(b, q + 2 + |w|, close);
    PidSpan(b, n, q, w);
  }

  /** What stands where the message starts. */
  lemma {:induction false} Behind(b: string, n: nat, m: nat, msg: string)
    requires IsBuffer(b, n) && m + |msg| == n && Holds(b, m, msg)
    ensures m <= n && (b[m] == ' ' <==> " " <= msg)
  {
    if msg != "" {
      assert b[m + 0] == msg[0];
      assert " " <= msg <==> msg[0] == ' ';
    }
  }

  lemma {:induction false} CloseHolds(b: string, at: nat, close: Close)
    requires Holds(b, at, CloseText(close))
    ensures close == ColonBlank ==> at + 1 < |b| && b[at] == ':' && b[at + 1] == ' '
    ensures close == Colon ==> at < |b| && b[at] == ':'
    ensures close == Blank ==> at < |b| && b[at] == ' '
  {
    var t := CloseText(close);
    assert b[at + 0] == t[0];
    if close == ColonBlank {
      assert b[at + 1] == t[1];
    }
  }

  lemma {:induction false} ProgramEnds(b: string, n: nat, p: nat, prog: string)
    requires IsBuffer(b, n) && AllFit(prog, HostChars) && Holds(b, p, prog) && p + |prog| <= n
    requires b[p + |prog|] == ':' || b[p + |prog|] == '[' || b[p + |prog|] == '|'
    ensures Span(b, n, p, HostChars) == p + |prog|
  {
    SpanHolds(b, n, p, prog, HostChars);
  }

  /** `[pid]` at an offset, and the text behind it. */
  lemma {:induction false} PidText(b: string, q: nat, w: string, t: string)
    requires Holds(b, q, "[" + w + "]" + t)
    ensures Holds(b, q + 1, w) && Holds(b, q + 2 + |w|, t)
    ensures q + 1 + |w| < |b| && b[q] == '[' && b[q + 1 + |w|] == ']'
  {
    hide Holds;
    HoldsBoth(b, q, "[" + w + "]", t);
    HoldsBoth(b, q, "[" + w, "]");
    HoldsBoth(b, q, "[", w);
    HoldsChar(b, q, '[');
    HoldsChar(b, q + 1 + |w|, ']');
  }

  /** The digits of a process number, from the second one on. */
  lemma {:induction false} PidSpan(b: string, n: nat, q: nat, w: string)
    requires IsBuffer(b, n) && w != "" && AllFit(w, Digits) && Holds(b, q + 1, w)
    requires q + 1 + |w| <= n && !IsDigit(b[q + 1 + |w|])
    ensures IsDigit(b[q + 1]) && Span(b, n, q + 2, Digits) == q + 1 + |w|
  {
    assert b[q + 1 + 0] == w[0];
    forall j | q + 2 <= j < q + 1 + |w| ensures Fits(b[j], Digits) {
      assert b[j] == w[j - q - 1];
    }
    SpanIs(b, n, q + 2, Digits, q + 1 + |w|);
  }

  /** The parts of the text in front of the program name. */
  lemma {:induction false} LeadParts(b: string, p: nat, l: Lead)
    requires Holds(b, p, LeadText(Some(l)))
    ensures var e := p + |l.name|;
      var f := e + 1 + |l.facility|;
      var g := f + 1 + |l.severity|;
      && g < |b| && b[e] == '|' && b[f] == ':' && b[g] == ' '
      && Holds(b, p, l.name) && Holds(b, e + 1, l.facility) && Holds(b, f + 1, l.severity)
  {
    hide Holds;
    var e := p + |l.name|;
    var f := e + 1 + |l.facility|;
    HoldsBoth(b, p, l.name + "|" + l.facility + ":" + l.severity, " ");
    HoldsBoth(b, p, l.name + "|" + l.facility + ":", l.severity);
    HoldsBoth(b, p, l.name + "|" + l.facility, ":");
    HoldsBoth(b, p, l.name + "|", l.facility);
    HoldsBoth(b, p, l.name, "|");
    HoldsChar(b, e, '|');
    HoldsChar(b, f, ':');
    HoldsChar(b, f + 1 + |l.severity|, ' ');
  }

  /** Facility and severity are skipped. */
  lemma {:induction false} LeadIsSkipped(b: string, n: nat, p: nat, l: Lead)
    requires IsBuffer(b, n) && IsLead(l) && Holds(b, p, LeadText(Some(l))) && p + |LeadText(Some(l))| <= n
    ensures ProgramName(b, n, p) == AixTag(b, n, p + |LeadText(Some(l))|)
  {
    hide Span, AixTag, Holds, AllFit;
    LeadParts(b, p, l);
    var e := p + |l.name|;
    var f := e + 1 + |l.facility|;
    ProgramEnds(b, n, p, l.name);
    FacilitySpan(b, n, e, l.facility);
    SpanHolds(b, n, f + 1, l.severity, Alnums);
    assert AixName(b, n, e + 2) == AixTag(b, n, f + 1 + |l.severity| + 1);
  }

  lemma {:induction false} FacilitySpan(b: string, n: nat, e: nat, w: string)
    requires IsBuffer(b, n) && w != "" && IsLower(w[0]) && AllFit(w, Alnums) && Holds(b, e + 1, w)
    requires e + 1 + |w| <= n && b[e + 1 + |w|] == ':'
    ensures IsLower(b[e + 1]) && Span(b, n, e + 2, Alnums) == e + 1 + |w|
  {
    assert b[e + 1 + 0] == w[0];
    forall j | e + 2 <= j < e + 1 + |w| ensures Fits(b[j], Alnums) {
      assert b[j] == w[j - e - 1];
    }
    SpanIs(b, n, e + 2, Alnums, e + 1 + |w|);
  }

  /** The tag behind facility and severity. */
  lemma {:induction false} AixTagIs(b: string, n: nat, a: nat, prog: string, pid: Option<string>)
    requires IsBuffer(b, n) && AllFit(prog, HostChars) && (pid.Some? ==> pid.value != "" && AllFit(pid.value, Digits))
    requires Holds(b, a, prog) && Holds(b, a + |prog|, TagText(pid, ColonBlank))
    requires a + |prog| + |TagText(pid, ColonBlank)| <= n
    ensures var q := a + |prog|;
      AixTag(b, n, a) == Step(Some(q), Some(q + |TagText(pid, ColonBlank)|), Some(a))
  {
    var q := a + |prog|;
    hide Span, Holds, AllFit;
    match pid {
      case None =>
        CloseHolds(b, q, ColonBlank);
        ProgramEnds(b, n, a, prog);
      case Some(w) =>
        PidText(b, q, w, ": ");
        ProgramEnds(b, n, a, prog);
        CloseHolds(b, q + 2 + |w|, ColonBlank);
        PidSpan(b, n, q, w);
    }
  }

  /** Every form of the tag is read back, whatever is written in front of it. */
  lemma {:induction false} TagRoundTrip(b: string, n: nat, p: nat, lead: Option<Lead>, prog: string,
                                        pid: Option<string>, close: Close, msg: string)
    requires IsTag(lead, prog, pid, close, msg) && IsBuffer(b, n)
    requires p + |Body(lead, prog, pid, close, msg)| == n && Holds(b, p, Body(lead, prog, pid, close, msg))
    ensures var a := p + |LeadText(lead)|;
      var q := a + |prog|;
      var m := q + |TagText(pid, close)|;
      && ProgramName(b, n, p) == Step(Some(q), Some(m), Some(a))
      && q < m && m + |msg| == n && Holds(b, a, prog) && Holds(b, m, msg)
  {
    hide ProgramName, Holds, LeadText, AixTag, AllFit, IsLead;
    var a := p + |LeadText(lead)|;
    HoldsBoth(b, p, LeadText(lead) + prog + TagText(pid, close), msg);
    HoldsBoth(b, p, LeadText(lead) + prog, TagText(pid, close));
    HoldsBoth(b, p, LeadText(lead), prog);
    match lead {
      case None =>
        NoLead();
        PlainTag(b, n, p, prog, pid, close, msg);
      case Some(l) =>
        LeadIsSkipped(b, n, p, l);
        AixTagIs(b, n, a, prog, pid);
    }
  }

  lemma {:induction false} NoLead()
    ensures LeadText(None) == ""
  {
  }

  // ---------------------------------------------------------------- the line

  /** The date of the line ends at `d`, and the next part starts there or behind an extra blank. */
  ghost predicate StartsPart(b: string, d: nat, at: nat) {
    1 <= d <= at < |b| && b[at] != ' ' && (at == d || (at == d + 1 && b[d] == ' '))
  }

  lemma {:induction false} FirstFits(b: string, at: nat, w: string)
    requires w != "" && AllFit(w, HostChars) && Holds(b, at, w)
    ensures b[at] != ' '
  {
    assert b[at + 0] == w[0];
  }

  /** The header behind a host name that starts at `at`, where `p - 1` is cut. */
  function TagAt(b: string, n: nat, at: nat, p: nat): Header
    requires IsBuffer(b, n) && p <= n
  {
    var s := ProgramName(b, n, p);
    var b' := Cut(b, s.cut);
    Header(b', true, Some(at), s.progAt, if s.pieces.Some? then DropId(b', n, s.pieces.value) else p)
  }

  /** A host name behind the date. */
  lemma {:induction false} HostIsSeen(b: string, n: nat, d: nat, at: nat, host: string)
    requires IsBuffer(b, n) && StartsPart(b, d, at) && AllFit(host, HostChars)
    requires Holds(b, at, host) && at + |host| < n && b[at + |host|] == ' '
    ensures Tag(b, n, d) == TagAt(b[d - 1 := NUL][at + |host| := NUL], n, at, at + |host| + 1)
  {
    hide Span, ProgramName, DropId, AllFit;
    var b1 := b[d - 1 := NUL];
    HoldsAfterCut(b, at, host, d - 1);
    SpanHolds(b1, n, at, host, HostChars);
  }

  /** A program name and `: ` behind the date. */
  lemma {:induction false} BareIsSeen(b: string, n: nat, d: nat, at: nat, prog: string)
    requires IsBuffer(b, n) && StartsPart(b, d, at) && AllFit(prog, HostChars)
    requires Holds(b, at, prog) && at + |prog| + 2 <= n && b[at + |prog|] == ':' && b[at + |prog| + 1] == ' '
    ensures var b2 := b[d - 1 := NUL][at + |prog| := NUL];
      Tag(b, n, d) == Header(b2, true, None, Some(at), DropId(b2, n, at + |prog| + 2))
  {
    hide Span, DropId, AllFit;
    var b1 := b[d - 1 := NUL];
    HoldsAfterCut(b, at, prog, d - 1);
    SpanHolds(b1, n, at, prog, HostChars);
  }

  /** Where the parts of a line stand. */
  lemma {:induction false} Layout(ts: string, extra: bool, host: string, body: string, spare: char)
    ensures var b, at := Line(ts, extra, host, body, spare), After(ts, extra);
      var p := at + |host| + 1;
      && IsBuffer(b, p + |body|) && Holds(b, 0, ts) && b[|ts|] == ' ' && (extra ==> b[|ts| + 1] == ' ')
      && Holds(b, at, host) && b[p - 1] == ' ' && Holds(b, p, body)
  {
    var b, at, end := Line(ts, extra, host, body, spare), After(ts, extra), [NUL, spare];
    var gap := if extra then "  " else " ";
    assert b == ts + (gap + host + " " + body + end);
    assert b == (ts + gap) + (host + (" " + body + end));
    assert b == (ts + gap + host + " ") + (body + end);
  }

  lemma {:induction false} BareLayout(ts: string, extra: bool, body: string, spare: char)
    ensures var b, at := BareLine(ts, extra, body, spare), After(ts, extra);
      && IsBuffer(b, at + |body|) && Holds(b, 0, ts) && b[|ts|] == ' ' && (extra ==> b[|ts| + 1] == ' ')
      && Holds(b, at, body)
  {
    var b, end := BareLine(ts, extra, body, spare), [NUL, spare];
    var gap := if extra then "  " else " ";
    assert b == ts + (gap + body + end);
    assert b == (ts + gap) + (body + end);
  }

  // ---------------------------------------------------------------- reading it back

  /** The parts that the header splits a buffer into; `date` is what is left of the date. */
  ghost predicate HasParts(h: Header, date: string, at: nat, host: string, prog: string) {
    && h.dated && CStr(h.buf, 0) == date
    && h.hostAt == Some(at) && at <= |h.buf| && CStr(h.buf, at) == host
    && h.progAt.Some? && h.progAt.value <= |h.buf| && CStr(h.buf, h.progAt.value) == prog
  }

  /** What is expected of the message. */
  ghost predicate HasMessage(h: Header, n: nat, msg: string) {
    match WithoutId(msg)
    case None => h.logAt == n + 1
    case Some(rest) => h.logAt <= |h.buf| && CStr(h.buf, h.logAt) == rest
  }

  lemma {:induction false} MessageIs(b: string, n: nat, m: nat, msg: string)
    requires IsBuffer(b, n) && m + |msg| == n && Holds(b, m, msg) && NUL !in msg
    ensures match WithoutId(msg)
      case None => DropId(b, n, m) == n + 1
      case Some(rest) => DropId(b, n, m) <= n && CStr(b, DropId(b, n, m)) == rest
  {
    hide DropId, WithoutId, CStr;
    assert b[m..n] == msg;
    DropIdMeans(b, n, m);
    var k := DropId(b, n, m);
    if WithoutId(msg).Some? {
      forall i | k <= i < n ensures b[i] != NUL {
        assert b[i] == msg[i - m];
      }
      CStrIs(b, k, n);
    }
  }

  lemma {:induction false} TagAtHasParts(b: string, n: nat, date: string, at: nat, host: string, lead: Option<Lead>,
                                         prog: string, pid: Option<string>, close: Close, msg: string)
    requires NUL !in date && AllFit(host, HostChars) && IsTag(lead, prog, pid, close, msg)
    requires var p, body := at + |host| + 1, Body(lead, prog, pid, close, msg);
      && IsBuffer(b, n) && p + |body| == n && |date| < at
      && Holds(b, 0, date) && b[|date|] == NUL && Holds(b, at, host) && b[p - 1] == NUL && Holds(b, p, body)
    ensures var h := TagAt(b, n, at, at + |host| + 1);
      HasParts(h, date, at, host, prog) && HasMessage(h, n, msg)
  {
    hide ProgramName, DropId, TagText, LeadText, Body, CStr, Holds, AllFit, WithoutId, IsLead;
    var p := at + |host| + 1;
    TagRoundTrip(b, n, p, lead, prog, pid, close, msg);
    var a := p + |LeadText(lead)|;
    var q := a + |prog|;
    var m := q + |TagText(pid, close)|;
    var b3 := b[q := NUL];
    HoldsAfterCut(b, 0, date, q);
    HoldsAfterCut(b, at, host, q);
    HoldsAfterCut(b, a, prog, q);
    HoldsAfterCut(b, m, msg, q);
    MessageIs(b3, n, m, msg);
    NoNul(host, HostChars);
    NoNul(prog, HostChars);
    CStrHolds(b3, 0, date);
    CStrHolds(b3, at, host);
    CStrHolds(b3, a, prog);
  }

  lemma {:induction false} BodyIsLong(lead: Option<Lead>, prog: string, pid: Option<string>, close: Close, msg: string)
    requires IsTag(lead, prog, pid, close, msg)
    ensures |Body(lead, prog, pid, close, msg)| >= 1
    ensures close == ColonBlank || pid.Some? ==> |Body(lead, prog, pid, close, msg)| >= 2
  {
  }

  /** A line of which the date ends at `d`, read up to the host name. */
  lemma {:induction false} AfterHost(b: string, n: nat, d: nat, at: nat, host: string, body: string)
    requires IsBuffer(b, n) && at + |host| + 1 + |body| == n && host != "" && AllFit(host, HostChars)
    requires 1 <= d <= at && (at == d || (at == d + 1 && b[d] == ' '))
    requires Holds(b, at, host) && b[at + |host|] == ' ' && Holds(b, at + |host| + 1, body)
    ensures var p := at + |host| + 1;
      var b2 := b[d - 1 := NUL][p - 1 := NUL];
      && Tag(b, n, d) == TagAt(b2, n, at, p)
      && IsBuffer(b2, n) && Holds(b2, at, host) && Holds(b2, p, body) && b2[p - 1] == NUL && b2[d - 1] == NUL
  {
    hide Tag, TagAt, AllFit;
    var p := at + |host| + 1;
    FirstFits(b, at, host);
    HostIsSeen(b, n, d, at, host);
    var b1 := b[d - 1 := NUL];
    HoldsAfterCut(b, at, host, d - 1);
    HoldsAfterCut(b1, at, host, p - 1);
    HoldsAfterCut(b, p, body, d - 1);
    HoldsAfterCut(b1, p, body, p - 1);
  }

  /** A date and a host name are recognised, whatever follows them. */
  lemma {:induction false} HostRoundTrip(ts: string, extra: bool, host: string, body: string, spare: char)
    requires IsDate(ts) && host != "" && AllFit(host, HostChars)
    requires |ts| >= 25 ==> After(ts, extra) + |host| + 1 + |body| > 32
    ensures var b, at := Line(ts, extra, host, body, spare), After(ts, extra);
      var p := at + |host| + 1;
      var n := p + |body|;
      && IsBuffer(b, n)
      && var b2 := b[|ts| := NUL][p - 1 := NUL];
      && Decode(b, n) == TagAt(b2, n, at, p)
      && IsBuffer(b2, n) && Holds(b2, 0, ts) && b2[|ts|] == NUL
      && Holds(b2, at, host) && b2[p - 1] == NUL && Holds(b2, p, body)
  {
    hide Line, Tag, TagAt, DateLength, DateView, AllFit, IsDate, Holds;
    var b, at := Line(ts, extra, host, body, spare), After(ts, extra);
    var p := at + |host| + 1;
    var n := p + |body|;
    Layout(ts, extra, host, body, spare);
    DateIsSeen(b, n, ts);
    AfterHost(b, n, |ts| + 1, at, host, body);
    HoldsAfterCut(b, 0, ts, |ts|);
    HoldsAfterCut(b[|ts| := NUL], 0, ts, p - 1);
  }

  lemma {:induction false} DateIsNotLong(ts: string)
    requires IsDate(ts)
    ensures |ts| == 25 || |ts| >= 29 || |ts| <= 23
  {
  }

  /** Reading a printed line gives its date, host, program and message back, the message without its identifier if it
      has one: for every date format and every form of the tag. The one exception is a line of at most 32 characters
      with an ISO date without a fraction, which is not taken for a syslog line at all. */
  lemma {:induction false} HeaderRoundTrip(ts: string, extra: bool, host: string, lead: Option<Lead>, prog: string,
                                           pid: Option<string>, close: Close, msg: string, spare: char)
    requires IsDate(ts) && host != "" && AllFit(host, HostChars) && IsTag(lead, prog, pid, close, msg)
    ensures var body, at := Body(lead, prog, pid, close, msg), After(ts, extra);
      var b, n := Line(ts, extra, host, body, spare), at + |host| + 1 + |body|;
      && IsBuffer(b, n)
      && if |ts| == 25 && n <= 32 then Decode(b, n) == Header(b, false, None, None, 0)
         else HasParts(Decode(b, n), ts, at, host, prog) && HasMessage(Decode(b, n), n, msg)
  {
    hide Line, Holds, Tag, TagAt, Body, HasParts, HasMessage, AllFit, IsDate, IsTag, DateLength, DateView;
    var body, at := Body(lead, prog, pid, close, msg), After(ts, extra);
    var b, n := Line(ts, extra, host, body, spare), at + |host| + 1 + |body|;
    DateIsNotLong(ts);
    BodyIsLong(lead, prog, pid, close, msg);
    DateHasNoNul(ts);
    if |ts| == 25 && n <= 32 {
      Layout(ts, extra, host, body, spare);
      DateIsSeen(b, n, ts);
    } else {
      HostRoundTrip(ts, extra, host, body, spare);
      var b2 := b[|ts| := NUL][at + |host| := NUL];
      TagAtHasParts(b2, n, ts, at, host, lead, prog, pid, close, msg);
    }
  }

  lemma {:induction false} DateHasNoNul(ts: string)
    requires IsDate(ts)
    ensures NUL !in ts
  {
  }

  /** With an a-umlaut in the month the same holds, but the date loses its last character. */
  lemma {:induction false} UmlautRoundTrip(ts: string, host: string, lead: Option<Lead>, prog: string,
                                           pid: Option<string>, close: Close, msg: string, spare: char)
    requires IsUmlaut(ts) && host != "" && AllFit(host, HostChars) && IsTag(lead, prog, pid, close, msg)
    ensures var body := Body(lead, prog, pid, close, msg);
      var b, n := Line(ts, false, host, body, spare), 18 + |host| + |body|;
      && IsBuffer(b, n)
      && HasParts(Decode(b, n), ts[..15], 17, host, prog) && HasMessage(Decode(b, n), n, msg)
  {
    hide Line, Holds, Tag, TagAt, Body, HasParts, HasMessage, AllFit, IsTag, DateLength, DateView;
    var body := Body(lead, prog, pid, close, msg);
    var b, n := Line(ts, false, host, body, spare), 18 + |host| + |body|;
    Layout(ts, false, host, body, spare);
    BodyIsLong(lead, prog, pid, close, msg);
    UmlautIsSeen(b, n, ts);
    AfterHost(b, n, 16, 17, host, body);
    var b2 := b[15 := NUL][17 + |host| := NUL];
    assert ts == ts[..15] + ts[15..];
    HoldsBoth(b, 0, ts[..15], ts[15..]);
    HoldsAfterCut(b, 0, ts[..15], 15);
    HoldsAfterCut(b[15 := NUL], 0, ts[..15], 17 + |host|);
    TagAtHasParts(b2, n, ts[..15], 17, host, lead, prog, pid, close, msg);
  }

  ghost predicate HasBareParts(h: Header, date: string, at: nat, prog: string) {
    && h.dated && CStr(h.buf, 0) == date && h.hostAt == None
    && h.progAt == Some(at) && at <= |h.buf| && CStr(h.buf, at) == prog
  }

  /** A line without host name, where the program name stands right behind the date, with the same exception. */
  lemma {:induction false} BareRoundTrip(ts: string, extra: bool, prog: string, msg: string, spare: char)
    requires IsDate(ts) && prog != "" && AllFit(prog, HostChars) && NUL !in msg
    ensures var at, body := After(ts, extra), prog + ": " + msg;
      var b, n := BareLine(ts, extra, body, spare), at + |body|;
      && IsBuffer(b, n)
      && if |ts| == 25 && n <= 32 then Decode(b, n) == Header(b, false, None, None, 0)
         else HasBareParts(Decode(b, n), ts, at, prog) && HasMessage(Decode(b, n), n, msg)
  {
    hide BareLine, Holds, Tag, AllFit, IsDate, DateLength, DateView, CStr, WithoutId, DropId;
    var at, body := After(ts, extra), prog + ": " + msg;
    var b, n := BareLine(ts, extra, body, spare), at + |body|;
    BareLayout(ts, extra, body, spare);
    DateIsNotLong(ts);
    DateHasNoNul(ts);
    DateIsSeen(b, n, ts);
    if !(|ts| == 25 && n <= 32) {
      HoldsBoth(b, at, prog + ": ", msg);
      HoldsBoth(b, at, prog, ": ");
      CloseHolds(b, at + |prog|, ColonBlank);
      FirstFits(b, at, prog);
      BareIsSeen(b, n, |ts| + 1, at, prog);
      BareParts(b, n, |ts|, at, ts, prog, msg);
    }
  }

  /** The two cuts of such a line leave its parts. */
  lemma {:induction false} BareParts(b: string, n: nat, c: nat, at: nat, ts: string, prog: string, msg: string)
    requires IsBuffer(b, n) && c == |ts| < at && at + |prog| + 2 + |msg| == n && NUL !in ts && NUL !in msg
    requires AllFit(prog, HostChars) && Holds(b, 0, ts) && Holds(b, at, prog) && Holds(b, at + |prog| + 2, msg)
    ensures var b2, m := b[c := NUL][at + |prog| := NUL], at + |prog| + 2;
      && IsBuffer(b2, n) && CStr(b2, 0) == ts && CStr(b2, at) == prog
      && match WithoutId(msg)
         case None => DropId(b2, n, m) == n + 1
         case Some(rest) => DropId(b2, n, m) <= n && CStr(b2, DropId(b2, n, m)) == rest
  {
    hide Holds, AllFit, CStr, WithoutId, DropId;
    var b1, q := b[c := NUL], at + |prog|;
    var b2 := b1[q := NUL];
    HoldsAfterCut(b, 0, ts, c);
    HoldsAfterCut(b1, 0, ts, q);
    HoldsAfterCut(b, at, prog, c);
    HoldsAfterCut(b1, at, prog, q);
    HoldsAfterCut(b, q + 2, msg, c);
    HoldsAfterCut(b1, q + 2, msg, q);
    NoNul(prog, HostChars);
    CStrHolds(b2, 0, ts);
    CStrHolds(b2, at, prog);
    MessageIs(b2, n, q + 2, msg);
  }

  // ---------------------------------------------------------------- tags that are not closed

  lemma {:induction false} UnclosedPidStep(b: string, n: nat, p: nat, prog: string, pid: string, rest: string)
    requires IsBuffer(b, n) && AllFit(prog, HostChars) && pid != "" && AllFit(pid, Digits)
    requires p + |prog + "[" + pid + rest| == n && Holds(b, p, prog + "[" + pid + rest)
    requires NUL !in rest && !("]:" <= rest) && !("] " <= rest) && (rest == "" || !IsDigit(rest[0]))
    ensures ProgramName(b, n, p) == Step(None, None, None)
  {
    hide Span, Holds, AllFit;
    var q := p + |prog|;
    var d := q + 1 + |pid|;
    HoldsBoth(b, p, prog + "[" + pid, rest);
    HoldsBoth(b, p, prog + "[", pid);
    HoldsBoth(b, p, prog, "[");
    HoldsChar(b, q, '[');
    ProgramEnds(b, n, p, prog);
    NotClosed(b, n, d, rest);
    PidSpan(b, n, q, pid);
    assert PidEnd(b, n, q + 2) == None;
  }

  lemma {:induction false} NotClosed(b: string, n: nat, d: nat, rest: string)
    requires IsBuffer(b, n) && d + |rest| == n && Holds(b, d, rest)
    requires NUL !in rest && !("]:" <= rest) && !("] " <= rest) && (rest == "" || !IsDigit(rest[0]))
    ensures !IsDigit(b[d]) && !(b[d] == ']' && (b[d + 1] == ':' || b[d + 1] == ' '))
  {
    if rest != "" {
      assert b[d + 0] == rest[0];
      if |rest| > 1 {
        assert b[d + 1] == rest[1];
        assert rest[..2] == [rest[0], rest[1]];
      }
    }
  }

  /** Reading `date host prog[digits` with something else behind it leaves all behind the host name untouched. */
  lemma {:induction false} UnclosedPidIsKept(ts: string, extra: bool, host: string, prog: string, pid: string,
                                             rest: string, spare: char)
    requires IsDate(ts) && host != "" && AllFit(host, HostChars) && AllFit(prog, HostChars)
    requires pid != "" && AllFit(pid, Digits)
    requires NUL !in rest && !("]:" <= rest) && !("] " <= rest) && (rest == "" || !IsDigit(rest[0]))
    requires |ts| == 25 ==> After(ts, extra) + |host| + 1 + |prog + "[" + pid + rest| > 32
    ensures var body, at := prog + "[" + pid + rest, After(ts, extra);
      var b, n := Line(ts, extra, host, body, spare), at + |host| + 1 + |body|;
      && IsBuffer(b, n)
      && var h := Decode(b, n);
      h.hostAt == Some(at) && h.progAt == None && CStr(h.buf, h.logAt) == body
  {
    hide Line, Decode, Holds, AllFit, ProgramName, DropId, CStr, IsDate;
    var body, at := prog + "[" + pid + rest, After(ts, extra);
    var b, n, p := Line(ts, extra, host, body, spare), at + |host| + 1 + |body|, at + |host| + 1;
    DateIsNotLong(ts);
    HostRoundTrip(ts, extra, host, body, spare);
    NoNul(prog, HostChars);
    NoNul(pid, Digits);
    var b2 := b[|ts| := NUL][p - 1 := NUL];
    UnclosedPidStep(b2, n, p, prog, pid, rest);
    CStrHolds(b2, p, body);
  }

  /** A line whose message is only an identifier: the message is said to start behind the terminating NUL. */
  lemma {:induction false} IdAtEndOfLine(spare: char)
    ensures var b, n := "Dec 29 10:00:01 h p: [ID 1]" + [NUL, spare], 27;
      IsBuffer(b, n) && NUL !in b[..n] && !LosesText(b, n) && EndsInId(b, n) && Decode(b, n).logAt == n + 1
  {
    hide Decode, LosesText, EndsInId, HasParts, HasMessage, Line, Body, IsDate, AllFit, IsTag;
    var b, n := "Dec 29 10:00:01 h p: [ID 1]" + [NUL, spare], 27;
    IdLine(spare);
    HeaderRoundTrip("Dec 29 10:00:01", false, "h", None, "p", None, ColonBlank, "[ID 1]", spare);
    MessageOfId(Decode(b, n), n);
    OffsetInLine(b, n);
    NotBoth(b, n);
  }

  lemma {:induction false} IdLine(spare: char)
    ensures var b := "Dec 29 10:00:01 h p: [ID 1]" + [NUL, spare];
      && Body(None, "p", None, ColonBlank, "[ID 1]") == "p: [ID 1]"
      && b == Line("Dec 29 10:00:01", false, "h", "p: [ID 1]", spare)
      && NUL !in b[..27]
    ensures IsDate("Dec 29 10:00:01") && AllFit("h", HostChars) && IsTag(None, "p", None, ColonBlank, "[ID 1]")
  {
    var b := "Dec 29 10:00:01 h p: [ID 1]" + [NUL, spare];
    assert b[..27] == "Dec 29 10:00:01 h p: [ID 1]";
    assert IsBsd("Dec 29 10:00:01");
  }

  lemma {:induction false} MessageOfId(h: Header, n: nat)
    requires HasMessage(h, n, "[ID 1]")
    ensures h.logAt == n + 1
  {
    var msg := "[ID 1]";
    assert "[ID " <= msg && msg[5] == ']' && ']' !in msg[..5];
    IndexOfIs(msg, ']', 5);
  }
}
