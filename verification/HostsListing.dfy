/** Which addresses some line of the list mentions after an add or a delete. */
module HostsListing {
  import opened CText
  import opened HostsDeny

  ghost predicate OccursAt(s: string, ip: string, i: int) { 0 <= i && i + |ip| <= |s| && s[i..i + |ip|] == ip }

  lemma {:induction false} MentionsIs(s: string, ip: string)
    ensures Mentions(s, ip) <==> exists i :: OccursAt(s, ip, i)
  {
    if Mentions(s, ip) {
      var _ := Occurrence(s, ip);
    } else if i :| OccursAt(s, ip, i) {
      assert s == s[..i] + ip + s[i + |ip|..];
      MentionsIn(s[..i], ip, s[i + |ip|..]);
    }
  }

  lemma {:induction false} Occurrence(s: string, ip: string) returns (i: int)
    requires Mentions(s, ip)
    ensures OccursAt(s, ip, i)
  {
    if ip <= s {
      i := 0;
    } else {
      var j := Occurrence(s[1..], ip);
      i := j + 1;
      assert s[i..i + |ip|] == s[1..][j..j + |ip|];
    }
  }

  // ---------------------------------------------------------------- delete

  lemma {:induction false} UnlistedHas(rs: seq<string>, ip: string, r: string)
    ensures r in Unlisted(rs, ip) <==> r in rs && !Mentions(r, ip)
  {
    hide Mentions;
    if rs != [] {
      UnlistedHas(rs[1..], ip, r);
    }
  }

  /** After a delete the lines are those from before that do not mention the address. */
  lemma {:induction false} DeleteUnlists(s: string, ip: string)
    ensures var s' := Apply(s, Delete(ip));
      && !Listed(s', ip)
      && forall r :: r in Reads(s', ROOM) <==> r in Reads(s, ROOM) && !Mentions(r, ip)
  {
    hide Mentions, Listed, Without, Reads;
    DeleteKeepsOthers(s, ip);
    forall r ensures r in Unlisted(Reads(s, ROOM), ip) <==> r in Reads(s, ROOM) && !Mentions(r, ip) {
      UnlistedHas(Reads(s, ROOM), ip, r);
    }
    ListedReads(Without(s, ip), ip);
  }

  // ---------------------------------------------------------------- add

  /** The unfinished line at the end. */
  function Open(s: string): string {
    if s == "" then ""
    else
      var n := LineLength(s, ROOM);
      if n < |s| then Open(s[n..]) else if s[n - 1] == '\n' || n == ROOM then "" else s
  }

  /** A rule behind the unfinished line would be cut inside the address by the end of the line buffer. */
  predicate Cuts(s: string, ip: string, freeBsd: bool) {
    var at := |Open(s)| + if freeBsd then 6 else 4;
    at < 65510 < at + |ip|
  }

  predicate IsDot(c: char) { '0' <= c <= '9' || c == '.' }

  predicate IsDotted(ip: string) { ip != "" && forall i :: 0 <= i < |ip| ==> IsDot(ip[i]) }

  function Front(freeBsd: bool): string { if freeBsd then "ALL : " else "ALL:" }

  function End(freeBsd: bool): string { if freeBsd then " : deny\n" else "\n" }

  lemma {:induction false} RuleParts(ip: string, freeBsd: bool)
    ensures Rule(ip, freeBsd) + "\n" == Front(freeBsd) + ip + End(freeBsd)
  {
  }

  /** A text without characters of the address. */
  predicate IsGap(s: string) { s != "" && forall i :: 0 <= i < |s| ==> !IsDot(s[i]) }

  /** An occurrence cannot lie across a gap. */
  lemma {:induction false} OccursBeside(a: string, gap: string, b: string, ip: string, i: int)
    requires IsDotted(ip) && IsGap(gap) && OccursAt(a + gap + b, ip, i)
    ensures OccursAt(a, ip, i) || OccursAt(b, ip, i - |a| - |gap|)
  {
    var t := a + gap + b;
    var k := i - |a| - |gap|;
    assert forall j :: i <= j < i + |ip| ==> t[j] == ip[j - i];
    assert forall j :: |a| <= j < |a| + |gap| ==> t[j] == gap[j - |a|];
    var j := if i < |a| then |a| else i;
    assert i <= j < i + |ip| ==> IsDot(t[j]);
    assert |a| <= j < |a| + |gap| ==> !IsDot(t[j]);
    if i + |ip| <= |a| {
      assert a[i..i + |ip|] == t[i..i + |ip|];
    } else {
      assert b[k..k + |ip|] == t[i..i + |ip|];
    }
  }

  lemma {:induction false} NoneAcross(a: string, gap: string, b: string, ip: string)
    requires IsDotted(ip) && IsGap(gap) && !Mentions(a, ip) && !Mentions(b, ip)
    ensures !Mentions(a + gap + b, ip)
  {
    hide Mentions, IsDotted, IsGap, OccursAt;
    MentionsIs(a + gap + b, ip);
    MentionsIs(a, ip);
    MentionsIs(b, ip);
    if i :| OccursAt(a + gap + b, ip, i) {
      OccursBeside(a, gap, b, ip, i);
    }
  }

  lemma {:induction false} TooShort(s: string, ip: string)
    requires |s| < |ip|
    ensures !Mentions(s, ip)
  {
    hide Mentions;
    MentionsIs(s, ip);
  }

  lemma {:induction false} RuleWords(freeBsd: bool)
    ensures IsGap(Front(freeBsd)) && IsGap(End(freeBsd))
  {
  }

  /** The two reads of a rule that is cut after `c` characters. */
  lemma {:induction false} CutRule(u: string, ip: string, freeBsd: bool, c: nat)
    requires var rule := Rule(ip, freeBsd) + "\n"; c <= |rule| && !Mentions(u, ip)
    ensures var rule, at := Rule(ip, freeBsd) + "\n", |Front(freeBsd)|;
      var mentioned := Mentions(u + rule[..c], ip) || Mentions(rule[c..], ip);
      && (!(at < c < at + |ip|) ==> mentioned)
      && (IsDotted(ip) && at < c < at + |ip| ==> !mentioned)
  {
    hide Mentions, Rule, IsDotted;
    RuleParts(ip, freeBsd);
    var rule, front, end := Rule(ip, freeBsd) + "\n", Front(freeBsd), End(freeBsd);
    var at := |front|;
    if c <= at {
      assert rule[c..] == front[c..] + ip + end;
      MentionsIn(front[c..], ip, end);
    } else if at + |ip| <= c {
      assert u + rule[..c] == (u + front) + ip + end[..c - at - |ip|];
      MentionsIn(u + front, ip, end[..c - at - |ip|]);
    } else if IsDotted(ip) {
      var k := c - at;
      RuleWords(freeBsd);
      assert u + rule[..c] == u + front + ip[..k];
      TooShort(ip[..k], ip);
      NoneAcross(u, front, ip[..k], ip);
      assert rule[c..] == ip[k..] + end + "";
      TooShort(ip[k..], ip);
      TooShort("", ip);
      NoneAcross(ip[k..], end, "", ip);
    }
  }

  /** The reads of an unfinished line and a line behind it. */
  lemma {:induction false} MergedListed(u: string, line: string, ip: string)
    requires u != "" && LineLength(u, ROOM) == |u| < ROOM && u[|u| - 1] != '\n' && IsLine(line, ROOM)
    ensures Listed(u + line, ip) <==>
      if |u + line| <= ROOM then Mentions(u + line, ip)
      else Mentions(u + line[..ROOM - |u|], ip) || Mentions(line[ROOM - |u|..], ip)
  {
    hide Mentions, LineLength, Listed, Reads;
    var t := u + line;
    MergedRead(u, line);
    ListedReads(t, ip);
    ReadsTwo(t);
    var m := LineLength(t, ROOM);
    if m == |t| {
      InCons(t, []);
    } else {
      assert t[..m] == u + line[..m - |u|] && t[m..] == line[m - |u|..];
      InCons(t[..m], [t[m..]]);
    }
  }

  /** The last read of a list and the rule behind it. */
  lemma {:induction false} ListedMerged(u: string, ip: string, freeBsd: bool)
    requires FitsLine(ip) && !Mentions(u, ip)
    requires u != "" && LineLength(u, ROOM) == |u| < ROOM && u[|u| - 1] != '\n'
    ensures var s' := u + (Rule(ip, freeBsd) + "\n");
      && (!Cuts(u, ip, freeBsd) ==> Listed(s', ip))
      && (IsDotted(ip) && Cuts(u, ip, freeBsd) ==> !Listed(s', ip))
  {
    hide Mentions, LineLength, IsDotted, Listed, Rule, FitsLine, Open;
    var rule := Rule(ip, freeBsd) + "\n";
    RuleIsLine(ip, freeBsd);
    MergedListed(u, rule, ip);
    OpenOne(u);
    RuleParts(ip, freeBsd);
    if |u + rule| <= ROOM {
      MergedMentions(u, ip, freeBsd);
    } else {
      CutRule(u, ip, freeBsd, ROOM - |u|);
    }
  }

  lemma {:induction false} OpenOne(u: string)
    requires u != "" && LineLength(u, ROOM) == |u| < ROOM && u[|u| - 1] != '\n'
    ensures Open(u) == u
  {
  }

  /** One read in front of the others. */
  lemma {:induction false} ListedCons(s: string, rule: string, ip: string, freeBsd: bool)
    requires s != "" && var n := LineLength(s, ROOM); n < |s| || s[n - 1] == '\n' || n == ROOM
    ensures var n := LineLength(s, ROOM);
      && (Listed(s, ip) <==> Mentions(s[..n], ip) || Listed(s[n..], ip))
      && (Listed(s + rule, ip) <==> Mentions(s[..n], ip) || Listed(s[n..] + rule, ip))
      && (Cuts(s, ip, freeBsd) <==> Cuts(s[n..], ip, freeBsd))
  {
    hide Mentions;
    var n := LineLength(s, ROOM);
    LineLengthShape(s, ROOM);
    LineLengthIs(s + rule, ROOM, n);
    assert (s + rule)[..n] == s[..n] && (s + rule)[n..] == s[n..] + rule;
  }

  lemma {:induction false} RuleAlone(ip: string, freeBsd: bool)
    requires FitsLine(ip)
    ensures Listed(Rule(ip, freeBsd) + "\n", ip) && !Cuts("", ip, freeBsd)
  {
    hide Mentions, LineLength, Listed;
    var rule := Rule(ip, freeBsd) + "\n";
    RuleIsLine(ip, freeBsd);
    OneLine(rule, rule);
    ListedReads(rule, ip);
    assert rule in Reads(rule, ROOM);
  }

  lemma {:induction false} ListedAfterRule(s: string, ip: string, freeBsd: bool)
    requires FitsLine(ip) && !Listed(s, ip)
    ensures var s' := s + (Rule(ip, freeBsd) + "\n");
      && (!Cuts(s, ip, freeBsd) ==> Listed(s', ip))
      && (IsDotted(ip) && Cuts(s, ip, freeBsd) ==> !Listed(s', ip))
    decreases |s|
  {
    hide Mentions, LineLength, Rule, IsDotted, Cuts;
    var rule := Rule(ip, freeBsd) + "\n";
    if s == "" {
      assert s + rule == rule;
      RuleAlone(ip, freeBsd);
    } else {
      var n := LineLength(s, ROOM);
      if n < |s| || s[n - 1] == '\n' || n == ROOM {
        ListedCons(s, rule, ip, freeBsd);
        ListedAfterRule(s[n..], ip, freeBsd);
      } else {
        LineLengthShape(s, ROOM);
        assert s[..n] == s;
        ListedMerged(s, ip, freeBsd);
      }
    }
  }

  /** An add keeps the old text in front. Afterwards some line mentions the address, unless the rule is written behind
      an unfinished line so long that the buffer ends inside the address; then no line does, for a dotted address. */
  lemma {:induction false} AddLists(s: string, ip: string, freeBsd: bool)
    requires FitsLine(ip)
    ensures var s' := Apply(s, Add(ip, freeBsd));
      && s <= s' && (Listed(s, ip) ==> s' == s)
      && (!Cuts(s, ip, freeBsd) ==> Listed(s', ip))
      && (IsDotted(ip) ==> (Listed(s', ip) <==> Listed(s, ip) || !Cuts(s, ip, freeBsd)))
  {
    hide Listed, Cuts, IsDotted, Rule;
    if !Listed(s, ip) {
      ListedAfterRule(s, ip, freeBsd);
    }
  }
}
