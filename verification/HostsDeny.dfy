/** Editing the list of denied hosts: an add appends a rule unless some line mentions the address already, a
    delete copies the lines that do not mention it. */
module HostsDeny {
  import opened CText

  /** Room for characters in the line buffer. */
  const ROOM := 65510

  /** `strstr`. */
  predicate Mentions(s: string, ip: string) {
    ip <= s || (s != "" && Mentions(s[1..], ip))
  }

  function Rule(ip: string, freeBsd: bool): string {
    if freeBsd then "ALL : " + ip + " : deny" else "ALL:" + ip
  }

  predicate FitsLine(ip: string) { '\n' !in ip && |ip| <= 64 }

  /** A numeric address: it fits on one line and holds no word of a rule. */
  predicate IsAddress(ip: string) { FitsLine(ip) && !Mentions(ip, "ALL") }

  /** Some line mentions the address. */
  predicate Listed(s: string, ip: string) {
    s != "" &&
    var n := LineLength(s, ROOM);
    Mentions(s[..n], ip) || Listed(s[n..], ip)
  }

  function Without(s: string, ip: string): string {
    if s == "" then ""
    else
      var n := LineLength(s, ROOM);
      (if Mentions(s[..n], ip) then "" else s[..n]) + Without(s[n..], ip)
  }

  datatype Job = Add(ip: string, freeBsd: bool) | Delete(ip: string)

  /** What a job does to the file when it runs alone. */
  function Apply(s: string, j: Job): string {
    match j
    case Add(ip, freeBsd) => if Listed(s, ip) then s else s + (Rule(ip, freeBsd) + "\n")
    case Delete(ip) => Without(s, ip)
  }

  // ---------------------------------------------------------------- the loops

  method CheckListed(content: string, ip: string) returns (found: bool)
    ensures found <==> Listed(content, ip)
  {
    hide Mentions;
    var pos := 0;
    assert content[0..] == content;
    while pos < |content|
      invariant pos <= |content|
      invariant Listed(content[pos..], ip) <==> Listed(content, ip)
      decreases |content| - pos
    {
      var n := LineLength(content[pos..], ROOM);
      assert content[pos..][n..] == content[pos + n..];
      if Mentions(content[pos..][..n], ip) {
        return true;
      }
      pos := pos + n;
    }
    return false;
  }

  lemma {:induction false} WithoutAt(content: string, pos: nat, ip: string)
    requires pos < |content|
    ensures var n := LineLength(content[pos..], ROOM);
      var line := content[pos..][..n];
      && 0 < n <= |content| - pos
      && Without(content[pos..], ip) == (if Mentions(line, ip) then "" else line) + Without(content[pos + n..], ip)
  {
    hide Mentions;
    var n := LineLength(content[pos..], ROOM);
    assert content[pos..][n..] == content[pos + n..];
  }

  method CopyWithout(content: string, ip: string) returns (temp: string)
    ensures temp == Without(content, ip)
  {
    hide Mentions, LineLength, Without;
    temp := "";
    var pos := 0;
    assert content[0..] == content;
    while pos < |content|
      invariant pos <= |content|
      invariant temp + Without(content[pos..], ip) == Without(content, ip)
      decreases |content| - pos
    {
      WithoutAt(content, pos, ip);
      var n := LineLength(content[pos..], ROOM);
      var line := content[pos..][..n];
      if !Mentions(line, ip) {
        Assoc(temp, line, Without(content[pos + n..], ip));
        temp := temp + line;
      }
      pos := pos + n;
    }
    NothingLeft(content, ip);
  }

  lemma {:induction false} NothingLeft(content: string, ip: string)
    ensures Without(content[|content|..], ip) == ""
  {
  }

  // ---------------------------------------------------------------- delete keeps the other lines

  function Unlisted(rs: seq<string>, ip: string): seq<string> {
    if rs == [] then [] else (if Mentions(rs[0], ip) then [] else [rs[0]]) + Unlisted(rs[1..], ip)
  }

  lemma {:induction false} ListedReads(s: string, ip: string)
    ensures Listed(s, ip) <==> exists r :: r in Reads(s, ROOM) && Mentions(r, ip)
  {
    hide Mentions;
    if s != "" {
      var n := LineLength(s, ROOM);
      ListedReads(s[n..], ip);
      var rs := Reads(s[n..], ROOM);
      assert Reads(s, ROOM) == [s[..n]] + rs;
      InCons(s[..n], rs);
      if Mentions(s[..n], ip) {
        assert s[..n] in Reads(s, ROOM);
      } else if Listed(s[n..], ip) {
        var r :| r in rs && Mentions(r, ip);
        assert r in Reads(s, ROOM);
      }
    }
  }

  lemma {:induction false} InCons(r: string, rs: seq<string>)
    ensures forall x :: x in [r] + rs <==> x == r || x in rs
  {
  }

  /** A first read stays a read in front of any text, unless it was cut short by the end of the file. */
  lemma {:induction false} FirstReadStays(s: string, rest: string)
    requires s != "" && (LineLength(s, ROOM) == |s| ==> rest == "")
    ensures var n := LineLength(s, ROOM); Reads(s[..n] + rest, ROOM) == [s[..n]] + Reads(rest, ROOM)
  {
    var n := LineLength(s, ROOM);
    var t := s[..n] + rest;
    LineLengthShape(s, ROOM);
    LineLengthIs(t, ROOM, n);
    assert t[..n] == s[..n] && t[n..] == rest;
  }

  /** A delete keeps, in order, exactly the lines that do not mention the address. */
  lemma {:induction false} DeleteKeepsOthers(s: string, ip: string)
    ensures Reads(Without(s, ip), ROOM) == Unlisted(Reads(s, ROOM), ip)
  {
    if s != "" {
      hide Mentions;
      var n := LineLength(s, ROOM);
      DeleteKeepsOthers(s[n..], ip);
      assert Reads(s, ROOM)[1..] == Reads(s[n..], ROOM);
      if Mentions(s[..n], ip) {
        assert Without(s, ip) == Without(s[n..], ip);
      } else {
        FirstReadStays(s, Without(s[n..], ip));
      }
    }
  }

  // ---------------------------------------------------------------- delete undoes add

  lemma {:induction false} MentionsIn(a: string, ip: string, b: string)
    ensures Mentions(a + ip + b, ip)
  {
    if a == "" {
      assert (a + ip + b)[..|ip|] == ip;
    } else {
      MentionsIn(a[1..], ip, b);
      assert (a + ip + b)[1..] == a[1..] + ip + b;
    }
  }

  lemma {:induction false} RuleIsLine(ip: string, freeBsd: bool)
    requires FitsLine(ip)
    ensures IsLine(Rule(ip, freeBsd) + "\n", ROOM) && Mentions(Rule(ip, freeBsd) + "\n", ip)
  {
    if freeBsd {
      MentionsIn("ALL : ", ip, " : deny\n");
      assert Rule(ip, freeBsd) + "\n" == "ALL : " + ip + " : deny\n";
    } else {
      MentionsIn("ALL:", ip, "\n");
    }
  }

  /** Deleting from a file that ends with a line mentioning the address. */
  lemma {:induction false} WithoutLastLine(s: string, line: string, ip: string)
    requires !Listed(s, ip) && IsLine(line, ROOM) && Mentions(line, ip) && EndsClosed(s, ROOM)
    ensures Without(s + line, ip) == s
  {
    hide Mentions, LineLength;
    if s == "" {
      assert s + line == line;
      ReadsLine(line, "", ROOM);
      assert line + "" == line;
    } else {
      var n := LineLength(s, ROOM);
      FirstReadAppend(s, line, ROOM);
      WithoutLastLine(s[n..], line, ip);
      assert s == s[..n] + s[n..];
    }
  }

  /** If the file stops in the middle of a line, the rule is written behind it, and the delete does not give the
      file back. */
  lemma {:induction false} WithoutMergedLine(s: string, line: string, ip: string)
    requires !Listed(s, ip) && IsLine(line, ROOM) && !EndsClosed(s, ROOM)
    ensures Without(s + line, ip) != s
  {
    hide Mentions;
    var n := LineLength(s, ROOM);
    if n < |s| {
      FirstReadGoesOn(s, line);
      WithoutMergedLine(s[n..], line, ip);
      assert s == s[..n] + s[n..];
      Cancel(s[..n], Without(s[n..] + line, ip), s[n..]);
    } else {
      MergedRead(s, line);
      var m := LineLength(s + line, ROOM);
      var rest := (s + line)[m..];
      if Mentions((s + line)[..m], ip) {
        WithoutIsPart(rest, ip);
        TailKeepsNewline(s, line, m);
      }
    }
  }

  lemma {:induction false} Cancel(a: string, x: string, y: string)
    ensures a + x == a + y <==> x == y
  {
    if a + x == a + y {
      assert x == (a + x)[|a|..] && y == (a + y)[|a|..];
    }
  }

  lemma {:induction false} FirstReadGoesOn(s: string, line: string)
    requires LineLength(s, ROOM) < |s|
    ensures var n := LineLength(s, ROOM);
      n == LineLength(s + line, ROOM) && (s + line)[..n] == s[..n] && (s + line)[n..] == s[n..] + line
  {
    var n := LineLength(s, ROOM);
    LineLengthShape(s, ROOM);
    LineLengthIs(s + line, ROOM, n);
  }

  /** The unfinished line and the rule behind it make one read, longer than the unfinished line, and at most one
      more. */
  lemma {:induction false} MergedRead(s: string, line: string)
    requires s != "" && LineLength(s, ROOM) == |s| < ROOM && s[|s| - 1] != '\n' && IsLine(line, ROOM)
    ensures |s| < LineLength(s + line, ROOM)
    ensures LineLength(s + line, ROOM) == if |s + line| <= ROOM then |s + line| else ROOM
    ensures var m := LineLength(s + line, ROOM);
      (s + line)[m..] == line[m - |s|..] && LineLength(line[m - |s|..], ROOM) == |line| - (m - |s|)
  {
    var t := s + line;
    LineLengthShape(s, ROOM);
    var m := if |t| <= ROOM then |t| else ROOM;
    forall i | 0 <= i < m - 1 ensures t[i] != '\n' {
      if i < |s| {
        assert t[i] == s[i];
      } else {
        assert t[i] == line[..|line| - 1][i - |s|];
      }
    }
    LineLengthIs(t, ROOM, m);
    var rest := line[m - |s|..];
    assert t[m..] == rest;
    forall i | 0 <= i < |rest| - 1 ensures rest[i] != '\n' {
      assert rest[i] == line[..|line| - 1][i + m - |s|];
    }
    LineLengthIs(rest, ROOM, |rest|);
  }

  /** What is left of a single read is that read or nothing. */
  lemma {:induction false} WithoutIsPart(rest: string, ip: string)
    requires LineLength(rest, ROOM) == |rest|
    ensures Without(rest, ip) == rest || Without(rest, ip) == ""
  {
    if rest != "" {
      assert rest[..|rest|] == rest && rest[|rest|..] == "";
      assert Without("", ip) == "";
    }
  }

  lemma {:induction false} TailKeepsNewline(s: string, line: string, m: nat)
    requires s != "" && s[|s| - 1] != '\n' && IsLine(line, ROOM) && |s| < m <= |s + line|
    ensures (s + line)[m..] != s
  {
    var rest := (s + line)[m..];
    if rest != "" {
      assert rest[|rest| - 1] == line[|line| - 1];
    }
  }

  /** Deleting an address right after adding it gives back a file that does not mention it, exactly when the
      file does not stop in the middle of a line. */
  lemma {:induction false} DeleteUndoesAdd(s: string, ip: string, freeBsd: bool)
    requires FitsLine(ip) && !Listed(s, ip)
    ensures Apply(Apply(s, Add(ip, freeBsd)), Delete(ip)) == s <==> EndsClosed(s, ROOM)
  {
    hide Listed, Mentions, Without, Rule, EndsClosed;
    RuleIsLine(ip, freeBsd);
    if EndsClosed(s, ROOM) {
      WithoutLastLine(s, Rule(ip, freeBsd) + "\n", ip);
    } else {
      WithoutMergedLine(s, Rule(ip, freeBsd) + "\n", ip);
    }
  }

  // ---------------------------------------------------------------- no rule twice

  function Count(rs: seq<string>, line: string): nat {
    if rs == [] then 0 else (if rs[0] == line then 1 else 0) + Count(rs[1..], line)
  }

  lemma {:induction false} CountUnlisted(rs: seq<string>, ip: string, line: string)
    ensures Count(Unlisted(rs, ip), line) <= Count(rs, line)
  {
    hide Mentions;
    if rs != [] {
      CountUnlisted(rs[1..], ip, line);
      if Mentions(rs[0], ip) {
        assert Unlisted(rs, ip) == Unlisted(rs[1..], ip);
      } else {
        assert Unlisted(rs, ip)[1..] == Unlisted(rs[1..], ip);
      }
    }
  }

  lemma {:induction false} CountedIsIn(rs: seq<string>, line: string)
    ensures Count(rs, line) > 0 ==> line in rs
  {
    if rs != [] {
      CountedIsIn(rs[1..], line);
    }
  }

  lemma {:induction false} ClosedAfterLine(s: string, line: string)
    requires EndsClosed(s, ROOM) && IsLine(line, ROOM)
    ensures EndsClosed(s + line, ROOM)
  {
    if s == "" {
      ReadsLine(line, "", ROOM);
      assert s + line == line && line + "" == line;
    } else {
      var n := LineLength(s, ROOM);
      FirstReadAppend(s, line, ROOM);
      ClosedAfterLine(s[n..], line);
    }
  }

  lemma {:induction false} ClosedWithout(s: string, ip: string)
    requires EndsClosed(s, ROOM)
    ensures EndsClosed(Without(s, ip), ROOM)
  {
    hide Mentions;
    if s != "" {
      var n := LineLength(s, ROOM);
      ClosedWithout(s[n..], ip);
      var r, rest := s[..n], Without(s[n..], ip);
      if Mentions(r, ip) {
        assert Without(s, ip) == rest;
      } else {
        LineLengthShape(s, ROOM);
        LineLengthIs(r + rest, ROOM, n);
        assert (r + rest)[n..] == rest;
      }
    }
  }

  function ApplyAll(s: string, jobs: seq<Job>): string {
    if jobs == [] then s else Apply(ApplyAll(s, jobs[..|jobs| - 1]), jobs[|jobs| - 1])
  }

  ghost predicate IsRule(line: string) {
    exists ip, freeBsd :: FitsLine(ip) && line == Rule(ip, freeBsd) + "\n"
  }

  /** The end of a rule is not a rule. */
  lemma {:induction false} TailIsNoRule(ip: string, freeBsd: bool, k: nat)
    requires IsAddress(ip) && 0 < k <= |Rule(ip, freeBsd)|
    ensures !IsRule((Rule(ip, freeBsd) + "\n")[k..])
  {
    hide Mentions, Rule, IsRule;
    var rule := Rule(ip, freeBsd) + "\n";
    var at := if freeBsd then 6 else 4;
    if IsRule(rule[k..]) {
      var t := rule[k..];
      RuleStarts(t);
      assert t[0] == rule[k] && t[1] == rule[k + 1] && t[2] == rule[k + 2];
      AllIsInAddress(ip, freeBsd, k);
      var a, b := ip[..k - at], ip[k - at + 3..];
      assert ip == a + "ALL" + b;
      MentionsIn(a, "ALL", b);
    }
  }

  lemma {:induction false} RuleStarts(t: string)
    requires IsRule(t)
    ensures |t| >= 4 && t[0] == 'A' && t[1] == 'L' && t[2] == 'L'
  {
    var ip, freeBsd :| FitsLine(ip) && t == Rule(ip, freeBsd) + "\n";
    assert Rule(ip, freeBsd)[..3] == "ALL";
    assert t[0] == Rule(ip, freeBsd)[..3][0] && t[1] == Rule(ip, freeBsd)[..3][1] && t[2] == Rule(ip, freeBsd)[..3][2];
  }

  lemma {:induction false} AllIsInAddress(ip: string, freeBsd: bool, k: nat)
    requires 0 < k && k + 2 < |Rule(ip, freeBsd) + "\n"|
    requires var rule := Rule(ip, freeBsd) + "\n"; rule[k] == 'A' && rule[k + 1] == 'L' && rule[k + 2] == 'L'
    ensures var at := if freeBsd then 6 else 4;
      at <= k && k - at + 3 <= |ip| && ip[k - at] == 'A' && ip[k - at + 1] == 'L' && ip[k - at + 2] == 'L'
  {
    var rule := Rule(ip, freeBsd) + "\n";
    var end := if freeBsd then " : deny\n" else "\n";
    var at := if freeBsd then 6 else 4;
    forall i | at + |ip| <= i < |rule| ensures rule[i] == end[i - at - |ip|] {
    }
  }

  /** Writing a rule behind a list that does not mention its address adds at most one line that does, even where it
      is written behind an unfinished line. */
  lemma {:induction false} CountAfterRule(s: string, ip: string, freeBsd: bool, line: string)
    requires IsAddress(ip) && !Listed(s, ip) && (EndsClosed(s, ROOM) || IsRule(line))
    ensures var rule := Rule(ip, freeBsd) + "\n";
      Count(Reads(s + rule, ROOM), line) <= Count(Reads(s, ROOM), line) + if Mentions(line, ip) then 1 else 0
    decreases |s|
  {
    hide Mentions, LineLength, Rule, IsRule, IsAddress, Count;
    var rule := Rule(ip, freeBsd) + "\n";
    AddressFits(ip);
    RuleIsLine(ip, freeBsd);
    if s == "" {
      assert s + rule == rule;
      OneLine(rule, line);
      NoLines(line);
    } else {
      var n := LineLength(s, ROOM);
      if n < |s| || s[n - 1] == '\n' || n == ROOM {
        FirstReadEnds(s, rule);
        CountAfterRule(s[n..], ip, freeBsd, line);
        CountCons(s[..n], Reads(s[n..] + rule, ROOM), line);
        CountCons(s[..n], Reads(s[n..], ROOM), line);
      } else {
        CountMerged(s, ip, freeBsd, line);
      }
    }
  }

  lemma {:induction false} AddressFits(ip: string)
    requires IsAddress(ip)
    ensures FitsLine(ip)
  {
  }

  lemma {:induction false} NoLines(line: string)
    ensures Count([], line) == 0
  {
  }

  lemma {:induction false} CountCons(r: string, rs: seq<string>, line: string)
    ensures Count([r] + rs, line) == (if r == line then 1 else 0) + Count(rs, line)
  {
    assert ([r] + rs)[1..] == rs;
  }

  /** A read that is not cut short by the end of the file stays the first one. */
  lemma {:induction false} FirstReadEnds(s: string, line: string)
    requires s != "" && var n := LineLength(s, ROOM); n < |s| || s[n - 1] == '\n' || n == ROOM
    ensures var n := LineLength(s, ROOM);
      && Reads(s, ROOM) == [s[..n]] + Reads(s[n..], ROOM)
      && Reads(s + line, ROOM) == [s[..n]] + Reads(s[n..] + line, ROOM)
  {
    var n := LineLength(s, ROOM);
    LineLengthShape(s, ROOM);
    LineLengthIs(s + line, ROOM, n);
    assert (s + line)[..n] == s[..n] && (s + line)[n..] == s[n..] + line;
  }

  /** The unfinished line and the rule behind it. */
  lemma {:induction false} CountMerged(s: string, ip: string, freeBsd: bool, line: string)
    requires IsAddress(ip) && IsRule(line)
    requires s != "" && LineLength(s, ROOM) == |s| < ROOM && s[|s| - 1] != '\n'
    ensures Count(Reads(s + (Rule(ip, freeBsd) + "\n"), ROOM), line) <= if Mentions(line, ip) then 1 else 0
  {
    hide Mentions, IsAddress, LineLength;
    var rule := Rule(ip, freeBsd) + "\n";
    var t := s + rule;
    AddressFits(ip);
    RuleIsLine(ip, freeBsd);
    MergedRead(s, rule);
    var m := LineLength(t, ROOM);
    ReadsTwo(t);
    if m == |t| {
      MergedMentions(s, ip, freeBsd);
      assert t[..m] == t;
      CountCons(t, [], line);
      NoLines(line);
    } else {
      RulesAreShort(line);
      TailIsNoRule(ip, freeBsd, m - |s|);
      CountCons(t[..m], [t[m..]], line);
      CountCons(t[m..], [], line);
      NoLines(line);
      assert [t[m..]] + [] == [t[m..]];
    }
  }

  lemma {:induction false} MergedMentions(s: string, ip: string, freeBsd: bool)
    ensures Mentions(s + (Rule(ip, freeBsd) + "\n"), ip)
  {
    var front := s + if freeBsd then "ALL : " else "ALL:";
    var end := if freeBsd then " : deny\n" else "\n";
    assert s + (Rule(ip, freeBsd) + "\n") == front + ip + end;
    MentionsIn(front, ip, end);
  }

  lemma {:induction false} RulesAreShort(line: string)
    requires IsRule(line)
    ensures |line| < 100
  {
  }

  /** A text that is two reads long. */
  lemma {:induction false} ReadsTwo(t: string)
    requires t != "" && var m := LineLength(t, ROOM); LineLength(t[m..], ROOM) == |t| - m
    ensures var m := LineLength(t, ROOM);
      Reads(t, ROOM) == if m == |t| then [t] + [] else [t[..m]] + [t[m..]]
  {
    var m := LineLength(t, ROOM);
    var rest := t[m..];
    assert t[..|t|] == t;
    if rest != "" {
      assert rest[..|rest|] == rest && rest[|rest|..] == "";
      assert Reads(rest, ROOM) == [rest];
    }
  }

  /** One job keeps it so that no rule is in the file twice, and no other line either if the file does not stop in the
      middle of one. */
  lemma {:induction false} JobKeepsRuleOnce(s: string, j: Job, line: string)
    requires IsAddress(j.ip) && Count(Reads(s, ROOM), line) <= 1 && (EndsClosed(s, ROOM) || IsRule(line))
    ensures EndsClosed(s, ROOM) ==> EndsClosed(Apply(s, j), ROOM)
    ensures Count(Reads(Apply(s, j), ROOM), line) <= 1
  {
    hide Mentions, LineLength, EndsClosed, Without, Listed, Count, Rule, IsRule, IsAddress;
    match j {
      case Delete(ip) =>
        if EndsClosed(s, ROOM) {
          ClosedWithout(s, ip);
        }
        DeleteKeepsOthers(s, ip);
        CountUnlisted(Reads(s, ROOM), ip, line);
      case Add(ip, freeBsd) =>
        if !Listed(s, ip) {
          var rule := Rule(ip, freeBsd) + "\n";
          AddressFits(ip);
          RuleIsLine(ip, freeBsd);
          if EndsClosed(s, ROOM) {
            ClosedAfterLine(s, rule);
          }
          CountAfterRule(s, ip, freeBsd, line);
          ListedReads(s, ip);
          CountedIsIn(Reads(s, ROOM), line);
        }
    }
  }

  lemma {:induction false} OneLine(rule: string, line: string)
    requires IsLine(rule, ROOM)
    ensures Reads(rule, ROOM) == [rule] && Count([rule], line) == if rule == line then 1 else 0
  {
    ReadsLine(rule, "", ROOM);
    assert rule + "" == rule;
    assert [rule][1..] == [];
  }

  /** No run of adds and deletes puts a rule into the file twice, whatever the file holds. */
  lemma {:induction false} RuleOnce(s: string, jobs: seq<Job>, line: string)
    requires forall i :: 0 <= i < |jobs| ==> IsAddress(jobs[i].ip)
    requires Count(Reads(s, ROOM), line) <= 1 && (EndsClosed(s, ROOM) || IsRule(line))
    ensures Count(Reads(ApplyAll(s, jobs), ROOM), line) <= 1
    ensures EndsClosed(s, ROOM) ==> EndsClosed(ApplyAll(s, jobs), ROOM)
  {
    hide EndsClosed, Apply, Count, IsRule, IsAddress;
    if jobs != [] {
      RuleOnce(s, jobs[..|jobs| - 1], line);
      JobKeepsRuleOnce(ApplyAll(s, jobs[..|jobs| - 1]), jobs[|jobs| - 1], line);
    }
  }
}
