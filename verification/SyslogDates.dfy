/** The date formats at the start of a log line, each told by what its text looks like. */
module SyslogDates {
  import opened CText
  import opened Syslog

  predicate AreDigits(s: string, from: nat, to: nat)
    requires to <= |s|
  {
    forall i :: from <= i < to ==> IsDigit(s[i])
  }

  /** `2015-12-29` at the start. */
  predicate HasDay(s: string)
    requires |s| >= 10
  {
    AreDigits(s, 0, 4) && s[4] == '-' && AreDigits(s, 5, 7) && s[7] == '-' && AreDigits(s, 8, 10)
  }

  /** `10:00:01` at an offset. */
  predicate HasTime(s: string, at: nat)
    requires at + 8 <= |s|
  {
    && AreDigits(s, at, at + 2) && s[at + 2] == ':' && AreDigits(s, at + 3, at + 5) && s[at + 5] == ':'
    && AreDigits(s, at + 6, at + 8)
  }

  /** `+01:00` at an offset. */
  predicate HasZone(s: string, at: nat)
    requires at + 6 <= |s|
  {
    && (s[at] == '+' || s[at] == '-') && AreDigits(s, at + 1, at + 3) && s[at + 3] == ':'
    && AreDigits(s, at + 4, at + 6)
  }

  /** `Dec 29 10:00:01`; only the separators are looked at. */
  predicate IsBsd(ts: string) {
    |ts| == 15 && ts[3] == ' ' && ts[6] == ' ' && ts[9] == ':' && ts[12] == ':' && ts[1] != '\U{C3}'
  }

  /** `2015-04-16 21:51:02,805`. */
  predicate IsComma(ts: string) {
    |ts| == 23 && HasDay(ts) && ts[10] == ' ' && HasTime(ts, 11) && ts[19] == ',' && AreDigits(ts, 20, 23)
  }

  /** `2007-06-14T15:48:55-04:00`. */
  predicate IsIso(ts: string) { |ts| == 25 && HasDay(ts) && ts[10] == 'T' && HasTime(ts, 11) && HasZone(ts, 19) }

  /** `2022-12-19T15:02:53.288+00:00`, with `k` digits behind the point. */
  predicate IsIsoFraction(ts: string, k: nat) {
    && |ts| == 26 + k && HasDay(ts) && ts[10] == 'T' && HasTime(ts, 11) && ts[19] == '.'
    && AreDigits(ts, 20, 20 + k) && HasZone(ts, 20 + k)
  }

  /** `2015 Dec 29 10:00:01`. */
  predicate IsYearFirst(ts: string) {
    && |ts| == 20 && AreDigits(ts, 0, 4) && ts[4] == ' ' && ts[8] == ' ' && ts[11] == ' ' && HasTime(ts, 12)
  }

  /** `2021-04-21 10:16:09.404756-0700`. */
  predicate IsUls(ts: string) {
    && |ts| == 31 && HasDay(ts) && ts[10] == ' ' && HasTime(ts, 11) && ts[19] == '.' && AreDigits(ts, 20, 26)
    && (ts[26] == '-' || ts[26] == '+') && AreDigits(ts, 27, 31)
  }

  predicate IsDate(ts: string) {
    && NUL !in ts
    && (IsBsd(ts) || IsComma(ts) || IsIso(ts) || IsIsoFraction(ts, 3) || IsIsoFraction(ts, 5) || IsIsoFraction(ts, 6)
        || IsYearFirst(ts) || IsUls(ts))
  }

  /** `w` stands at offset `at` of `b`. */
  ghost predicate Holds(b: string, at: nat, w: string) {
    at + |w| <= |b| && forall i {:trigger w[i]} :: 0 <= i < |w| ==> b[at + i] == w[i]
  }

  lemma {:induction false} StartsWith(b: string, ts: string, i: nat)
    requires Holds(b, 0, ts) && i < |ts|
    ensures b[i] == ts[i]
  {
    assert b[0 + i] == ts[i];
  }

  /** The view is the line, unless its second letter is an a-umlaut. */
  lemma {:induction false} PlainView(b: string, n: nat)
    requires IsBuffer(b, n) && n >= 1 && b[1] != '\U{C3}'
    ensures DateView(b, n) == b[..n + 1]
  {
  }

  lemma {:induction false} SecondIsPlain(ts: string)
    requires IsDate(ts)
    ensures 15 <= |ts| <= 32 && ts[1] != '\U{C3}'
  {
  }

  /** What `DateLength` makes of a line that starts with each of the texts. */
  lemma {:induction false} BsdSeen(v: string, n: nat)
    requires n <= |v| <= n + 1 && n > 16 && IsBsd(v[..15]) && v[15] == ' '
    ensures DateLength(v, n) == Some(16)
  {
    var ts := v[..15];
    assert v[3] == ts[3] && v[6] == ts[6] && v[9] == ts[9] && v[12] == ts[12];
  }

  lemma {:induction false} DigitsOf(v: string, k: nat, from: nat, to: nat)
    requires from <= to <= k <= |v| && AreDigits(v[..k], from, to)
    ensures AreDigits(v, from, to)
  {
    forall i | from <= i < to ensures IsDigit(v[i]) {
      assert v[..k][i] == v[i];
    }
  }

  lemma {:induction false} DayOf(v: string, k: nat)
    requires 10 <= k <= |v| && HasDay(v[..k])
    ensures IsDigit(v[0]) && IsDigit(v[3]) && v[4] == '-' && v[7] == '-'
  {
    DigitsOf(v, k, 0, 4);
  }

  lemma {:induction false} TimeOf(v: string, k: nat, at: nat)
    requires at + 8 <= k <= |v| && HasTime(v[..k], at)
    ensures v[at + 2] == ':' && v[at + 5] == ':'
  {
  }

  lemma {:induction false} CommaSeen(v: string, n: nat)
    requires n < |v| <= n + 1 && n > 23 && IsComma(v[..23])
    ensures DateLength(v, n) == Some(24)
  {
    hide AreDigits, HasDay, HasTime;
    DayOf(v, 23);
    TimeOf(v, 23, 11);
  }

  lemma {:induction false} IsoSeen(v: string, n: nat)
    requires n < |v| <= n + 1 && n > 25 && IsIso(v[..25]) && v[25] == ' '
    ensures DateLength(v, n) == if n > 32 then Some(26) else None
  {
    hide AreDigits, HasDay, HasTime;
    DayOf(v, 25);
    TimeOf(v, 25, 11);
    assert v[..25][22] == v[22];
  }

  lemma {:induction false} FractionSeen(v: string, n: nat, k: nat)
    requires n < |v| <= n + 1 && n > 32 && (k == 3 || k == 5 || k == 6) && IsIsoFraction(v[..26 + k], k)
    ensures DateLength(v, n) == Some(27 + k)
  {
    hide HasDay, HasTime;
    var w := 26 + k;
    DayOf(v, w);
    TimeOf(v, w, 11);
    DigitsOf(v, w, 20, 20 + k);
    DigitsOf(v, w, 21 + k, 23 + k);
    DigitsOf(v, w, 24 + k, 26 + k);
    assert v[..w][20 + k] == v[20 + k] && v[..w][23 + k] == v[23 + k];
    assert IsDigit(v[22]);
  }

  lemma {:induction false} YearFirstSeen(v: string, n: nat)
    requires n < |v| <= n + 1 && n > 20 && IsYearFirst(v[..20]) && v[20] == ' '
    ensures DateLength(v, n) == Some(21)
  {
    hide AreDigits, HasTime;
    DigitsOf(v, 20, 0, 4);
    FirstDigits(v);
    TimeOf(v, 20, 12);
  }

  lemma {:induction false} FirstDigits(v: string)
    requires |v| >= 4 && AreDigits(v, 0, 4)
    ensures IsDigit(v[0]) && IsDigit(v[3])
  {
  }

  lemma {:induction false} UlsSeen(v: string, n: nat)
    requires n < |v| <= n + 1 && n > 32 && IsUls(v[..31]) && v[31] == ' '
    ensures DateLength(v, n) == Some(32)
  {
    hide AreDigits, HasDay, HasTime;
    DayOf(v, 31);
    TimeOf(v, 31, 11);
    assert v[..31][26] == v[26];
  }

  /** A date text and a blank at the start of a line are found to be a date of that length, except that an ISO date
      without a fraction needs a line of more than 32 characters. */
  lemma {:induction false} DateIsSeen(b: string, n: nat, ts: string)
    requires IsBuffer(b, n) && IsDate(ts) && Holds(b, 0, ts) && |ts| + 1 < n && b[|ts|] == ' '
    requires |ts| > 25 ==> n > 32
    ensures DateLength(DateView(b, n), n) == if |ts| == 25 && n <= 32 then None else Some(|ts| + 1)
  {
    hide IsBsd, IsComma, IsIso, IsIsoFraction, IsYearFirst, IsUls, DateLength, DateView;
    SecondIsPlain(ts);
    StartsWith(b, ts, 1);
    PlainView(b, n);
    var v := b[..n + 1];
    assert v[..|ts|] == ts;
    DateLengths(ts);
    if IsBsd(ts) {
      BsdSeen(v, n);
    } else if IsComma(ts) {
      CommaSeen(v, n);
    } else if IsIso(ts) {
      IsoSeen(v, n);
    } else if IsYearFirst(ts) {
      YearFirstSeen(v, n);
    } else if IsUls(ts) {
      UlsSeen(v, n);
    } else {
      FractionSeen(v, n, |ts| - 26);
    }
  }

  lemma {:induction false} DateLengths(ts: string)
    ensures IsBsd(ts) ==> |ts| == 15
    ensures IsComma(ts) ==> |ts| == 23
    ensures IsIso(ts) ==> |ts| == 25
    ensures IsYearFirst(ts) ==> |ts| == 20
    ensures IsUls(ts) ==> |ts| == 31
    ensures forall k: nat :: IsIsoFraction(ts, k) ==> |ts| == 26 + k
  {
  }

  /** A month whose second letter is an a-umlaut of two bytes: the text is one byte longer than the date. */
  predicate IsUmlaut(ts: string) {
    |ts| == 16 && NUL !in ts && ts[1] == '\U{C3}' && ts[2] == '\U{A4}' && IsBsd("Ma" + ts[3..])
  }

  lemma {:induction false} UmlautIsSeen(b: string, n: nat, ts: string)
    requires IsBuffer(b, n) && IsUmlaut(ts) && Holds(b, 0, ts) && n > 17 && b[16] == ' '
    ensures DateLength(DateView(b, n), n) == Some(16)
  {
    hide DateLength, IsBsd;
    StartsWith(b, ts, 1);
    StartsWith(b, ts, 2);
    var v := DateView(b, n);
    forall i | 3 <= i < 16 ensures b[i] == ts[i] {
      StartsWith(b, ts, i);
    }
    assert v[..15] == "Ma" + ts[3..];
    assert v[15] == b[16];
    BsdSeen(v, n);
  }
}
