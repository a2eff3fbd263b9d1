/** The pieces of the C library that the modelled code rests on: line reads with a bounded buffer, character
    search, and decimal printing and reading. Strings hold no NUL, which ends a string in C. */
module CText {

  datatype Option<+T> = None | Some(value: T)

  /** The index of the first element that passes the test, or the length. */
  function First<T>(s: seq<T>, test: T -> bool): (k: nat)
    ensures k <= |s|
    ensures forall i :: 0 <= i < k ==> !test(s[i])
    ensures k < |s| ==> test(s[k])
  {
    if s == [] || test(s[0]) then 0 else 1 + First(s[1..], test)
  }

  // ---------------------------------------------------------------- strchr

  /** The index of the first `c` in `s`, or `|s|` when there is none. */
  function IndexOf(s: string, c: char): (i: nat)
    ensures i <= |s|
    ensures i < |s| ==> s[i] == c
  {
    if s == "" || s[0] == c then 0 else 1 + IndexOf(s[1..], c)
  }

  lemma {:induction false} IndexOfAfter(a: string, c: char, b: string)
    requires c !in a
    ensures IndexOf(a + [c] + b, c) == |a|
  {
    if a != "" {
      IndexOfAfter(a[1..], c, b);
      assert (a + [c] + b)[1..] == a[1..] + [c] + b;
    }
  }

  // ---------------------------------------------------------------- fgets

  /** How many characters one `fgets` with room for `room` of them takes: up to and including a newline. */
  function LineLength(s: string, room: nat): (n: nat)
    ensures n <= |s| && n <= room
    ensures s != "" && room > 0 ==> n > 0
  {
    if s == "" || room == 0 then 0
    else if s[0] == '\n' then 1
    else 1 + LineLength(s[1..], room - 1)
  }

  /** What successive `fgets` calls return until the end of the file. */
  function Reads(s: string, room: nat): (rs: seq<string>)
    requires room > 0
  {
    if s == "" then []
    else
      var n := LineLength(s, room);
      [s[..n]] + Reads(s[n..], room)
  }

  function Concat(rs: seq<string>): string {
    if rs == [] then "" else rs[0] + Concat(rs[1..])
  }

  /** The last read of `s` is over whatever follows: it ends in a newline or fills the buffer. */
  predicate EndsClosed(s: string, room: nat)
    requires room > 0
  {
    s == "" ||
    var n := LineLength(s, room);
    if n == |s| then n == room || s[n - 1] == '\n' else EndsClosed(s[n..], room)
  }

  lemma {:induction false} LineLengthIs(s: string, room: nat, n: nat)
    requires n <= |s| && n <= room
    requires forall i :: 0 <= i < n - 1 ==> s[i] != '\n'
    requires n == |s| || n == room || (n > 0 && s[n - 1] == '\n')
    requires n == 0 ==> s == "" || room == 0
    ensures LineLength(s, room) == n
  {
    if n > 0 && s[0] != '\n' {
      if n > 1 || n == |s| || n == room {
        LineLengthIs(s[1..], room - 1, n - 1);
      }
    }
  }

  /** What one read looks like: no newline but possibly the last character, and it stops short only at the end. */
  lemma {:induction false} LineLengthShape(s: string, room: nat)
    ensures var n := LineLength(s, room);
      && (forall i :: 0 <= i < n - 1 ==> s[i] != '\n')
      && (n == |s| || n == room || (n > 0 && s[n - 1] == '\n'))
  {
    if s != "" && room > 0 && s[0] != '\n' {
      LineLengthShape(s[1..], room - 1);
    }
  }

  lemma {:induction false} Assoc(a: string, b: string, c: string)
    ensures a + b + c == a + (b + c)
  {
  }

  lemma {:induction false} ConcatAppend(a: seq<string>, b: seq<string>)
    ensures Concat(a + b) == Concat(a) + Concat(b)
  {
    if a == [] {
      assert a + b == b;
    } else {
      ConcatAppend(a[1..], b);
      assert (a + b)[1..] == a[1..] + b;
      Assoc(a[0], Concat(a[1..]), Concat(b));
    }
  }

  lemma {:induction false} ConcatSplit(rs: seq<string>, k: nat)
    requires k < |rs|
    ensures Concat(rs) == Concat(rs[..k]) + (rs[k] + Concat(rs[k + 1..]))
  {
    assert rs == rs[..k] + rs[k..];
    ConcatAppend(rs[..k], rs[k..]);
    assert rs[k..][1..] == rs[k + 1..];
  }

  lemma {:induction false} ConcatUpdate(rs: seq<string>, k: nat, r: string)
    requires k < |rs|
    ensures Concat(rs[k := r]) == Concat(rs[..k]) + (r + Concat(rs[k + 1..]))
  {
    ConcatSplit(rs[k := r], k);
    assert rs[k := r][..k] == rs[..k] && rs[k := r][k + 1..] == rs[k + 1..];
  }

  /** A line with its newline. */
  predicate IsLine(line: string, room: nat) {
    line != "" && |line| <= room && line[|line| - 1] == '\n' && '\n' !in line[..|line| - 1]
  }

  /** A whole line in front is one read. */
  lemma {:induction false} ReadsLine(line: string, rest: string, room: nat)
    requires IsLine(line, room)
    ensures LineLength(line + rest, room) == |line|
    ensures (line + rest)[..|line|] == line && (line + rest)[|line|..] == rest
    ensures Reads(line + rest, room) == [line] + Reads(rest, room)
  {
    var s := line + rest;
    var n := |line|;
    forall i | 0 <= i < n - 1 ensures s[i] != '\n' {
      assert s[i] == line[..n - 1][i];
    }
    LineLengthIs(s, room, n);
  }

  lemma {:induction false} ReadsOfLines(ls: seq<string>, room: nat)
    requires room > 0
    requires forall i :: 0 <= i < |ls| ==> IsLine(ls[i], room)
    ensures Reads(Concat(ls), room) == ls
  {
    if ls != [] {
      ReadsOfLines(ls[1..], room);
      ReadsLine(ls[0], Concat(ls[1..]), room);
    }
  }

  lemma {:induction false} FirstReadAppend(s: string, t: string, room: nat)
    requires room > 0 && s != "" && EndsClosed(s, room)
    ensures var n := LineLength(s, room);
      n == LineLength(s + t, room) && (s + t)[..n] == s[..n] && (s + t)[n..] == s[n..] + t
  {
    var n := LineLength(s, room);
    LineLengthShape(s, room);
    LineLengthIs(s + t, room, n);
  }

  // ---------------------------------------------------------------- %03d and strtol

  predicate IsDigit(c: char) { '0' <= c <= '9' }

  predicate IsSpace(c: char) { c == ' ' || '\t' <= c <= '\r' }

  predicate AllDigits(s: string) { forall i :: 0 <= i < |s| ==> IsDigit(s[i]) }

  function Digit(d: nat): (c: char)
    requires d < 10
    ensures IsDigit(c) && c as int == '0' as int + d
  {
    ('0' as int + d) as char
  }

  /** `%d` of a natural number. */
  function Decimal(n: nat): (s: string)
    ensures AllDigits(s) && s != ""
    ensures |s| == 1 <==> n < 10
    ensures |s| <= 2 <==> n < 100
  {
    if n < 10 then [Digit(n)] else Decimal(n / 10) + [Digit(n % 10)]
  }

  /** `%03d` of a natural number. */
  function Decimal3(n: nat): (s: string)
    ensures AllDigits(s) && |s| >= 3
  {
    if n < 10 then "00" + Decimal(n) else if n < 100 then "0" + Decimal(n) else Decimal(n)
  }

  function Value(s: string): (n: nat)
    requires AllDigits(s)
  {
    if s == "" then 0 else 10 * Value(s[..|s| - 1]) + (s[|s| - 1] as int - '0' as int)
  }

  lemma {:induction false} ValueOfDecimal(n: nat)
    ensures Value(Decimal(n)) == n
  {
    if n >= 10 {
      ValueOfDecimal(n / 10);
      assert Decimal(n)[..|Decimal(n)| - 1] == Decimal(n / 10);
    }
  }

  lemma {:induction false} ValueOfZero(s: string)
    requires AllDigits(s)
    ensures Value("0" + s) == Value(s)
  {
    if s != "" {
      ValueOfZero(s[..|s| - 1]);
      assert ("0" + s)[..|s|] == "0" + s[..|s| - 1];
    }
  }

  lemma {:induction false} ValueOfDecimal3(n: nat)
    ensures Value(Decimal3(n)) == n
  {
    ValueOfDecimal(n);
    ValueOfZero(Decimal(n));
    ValueOfZero("0" + Decimal(n));
    assert "00" + Decimal(n) == "0" + ("0" + Decimal(n));
  }

  /** `%03d` is injective. */
  lemma {:induction false} Decimal3Injective(m: nat, n: nat)
    requires Decimal3(m) == Decimal3(n)
    ensures m == n
  {
    ValueOfDecimal3(m);
    ValueOfDecimal3(n);
  }

  lemma {:induction false} ValueBound(s: string)
    requires AllDigits(s)
    ensures Value(s) < Pow10(|s|)
  {
    if s != "" {
      ValueBound(s[..|s| - 1]);
    }
  }

  function Pow10(k: nat): nat { if k == 0 then 1 else 10 * Pow10(k - 1) }
}
