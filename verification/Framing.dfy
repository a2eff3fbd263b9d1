/** The frame around an event: an integration prints the location of the event, escaped, and the log; the
    analysis engine splits the frame again and reads the agent off the location. */
module Framing {
  import opened CText
  import opened AgentIds

  const ESCAPE := '|'
  const SEPARATOR := ':'
  /** Room for characters in the buffer for the location. */
  const LOCATION_ROOM := 8450

  // ---------------------------------------------------------------- printing

  datatype Agent = Agent(id: string, name: string, ip: Option<string>)

  /** `str.replace` of one character. */
  function ReplaceChar(s: string, c: char, rep: string): string {
    if s == "" then "" else (if s[0] == c then rep else [s[0]]) + ReplaceChar(s[1..], c, rep)
  }

  /** Character-wise escaping. */
  function Escape(s: string): string {
    if s == "" then "" else EscapeChar(s[0]) + Escape(s[1..])
  }

  function EscapeChar(c: char): string {
    if c == ESCAPE || c == SEPARATOR then [ESCAPE, c] else [c]
  }

  /** `[id] (name) ip`. */
  function Origin(a: Agent): string {
    "[" + a.id + "] (" + a.name + ") " + (if a.ip.Some? then a.ip.value else "any")
  }

  /** `send_msg` of an integration: the two replacements are applied one after the other. */
  function SendMsg(agent: Option<Agent>, payload: string): string {
    if agent == None || agent.value.id == "000" then "1:virustotal:" + payload
    else
      var location := ReplaceChar(ReplaceChar(Origin(agent.value), ESCAPE, "||"), SEPARATOR, "|:");
      "1:" + location + "->virustotal:" + payload
  }

  lemma {:induction false} ReplaceAppend(s: string, t: string, c: char, rep: string)
    ensures ReplaceChar(s + t, c, rep) == ReplaceChar(s, c, rep) + ReplaceChar(t, c, rep)
  {
    if s == "" {
      assert s + t == t;
    } else {
      ReplaceAppend(s[1..], t, c, rep);
      assert (s + t)[1..] == s[1..] + t;
      Assoc(if s[0] == c then rep else [s[0]], ReplaceChar(s[1..], c, rep), ReplaceChar(t, c, rep));
    }
  }

  /** The two chained replacements are one character-wise escaping. */
  lemma {:induction false} TwoReplacesEscape(s: string)
    ensures ReplaceChar(ReplaceChar(s, ESCAPE, "||"), SEPARATOR, "|:") == Escape(s)
  {
    if s != "" {
      var rest := ReplaceChar(s[1..], ESCAPE, "||");
      var head := if s[0] == ESCAPE then "||" else [s[0]];
      TwoReplacesEscape(s[1..]);
      ReplaceAppend(head, rest, SEPARATOR, "|:");
      ReplaceOne(head[0]);
      assert head[1..] == "" || head[1..] == "|";
    }
  }

  lemma {:induction false} ReplaceOne(c: char)
    ensures ReplaceChar([c], SEPARATOR, "|:") == if c == SEPARATOR then "|:" else [c]
    ensures ReplaceChar("||", SEPARATOR, "|:") == "||"
  {
    assert [c][1..] == "";
    assert "||"[1..] == "|" && "|"[1..] == "";
    assert ReplaceChar("|", SEPARATOR, "|:") == "|";
  }

  // ---------------------------------------------------------------- splitting

  /** `wstr_chr_escape`: the first `c` that is not escaped, or the length; `escaped` says whether the character
      before the text was an escape. */
  function ChrEscape(s: string, escaped: bool): (r: nat)
    ensures r <= |s|
  {
    if s == "" then 0
    else if escaped then 1 + ChrEscape(s[1..], false)
    else if s[0] == SEPARATOR then 0
    else 1 + ChrEscape(s[1..], s[0] == ESCAPE)
  }

  /** `wstr_unescape` without the limit of the target buffer. */
  function Unescape(s: string): string {
    if s == "" then ""
    else if s[0] != ESCAPE then [s[0]] + Unescape(s[1..])
    else if |s| == 1 then s
    else [s[1]] + Unescape(s[2..])
  }

  function Take(s: string, n: nat): string { if |s| <= n then s else s[..n] }

  method FindSeparator(s: string) returns (r: nat)
    ensures r == ChrEscape(s, false)
  {
    r := 0;
    var escaped := false;
    assert s[0..] == s;
    while r < |s|
      invariant r <= |s|
      invariant r + ChrEscape(s[r..], escaped) == ChrEscape(s, false)
    {
      assert s[r..][1..] == s[r + 1..];
      if !escaped {
        if s[r] == SEPARATOR {
          return;
        }
        if s[r] == ESCAPE {
          escaped := true;
        }
      } else {
        escaped := false;
      }
      r := r + 1;
    }
  }

  /** The loop copies up to the next escape at a time, and stops when the buffer is full. */
  method UnescapeInto(s: string, room: nat) returns (dst: string)
    ensures dst == Take(Unescape(s), room)
  {
    hide Unescape, IndexOf;
    dst := "";
    var i := 0;
    assert s[0..] == s;
    UnescapeNothing();
    while i < |s| && |dst| < room
      invariant i <= |s| && |dst| <= room
      invariant Take(dst + Unescape(s[i..]), room) == Take(Unescape(s), room)
      decreases |s| - i
    {
      var z := IndexOf(s[i..], ESCAPE);
      if z + |dst| > room {
        z := room - |dst|;
      }
      CopySpan(s, i, z);
      Assoc(dst, s[i..i + z], Unescape(s[i + z..]));
      dst := dst + s[i..i + z];
      i := i + z;
      if i < |s| && |dst| < room {
        EscapeStep(s, i);
        Assoc(dst, Unescaped(s, i).0, Unescape(s[Unescaped(s, i).1..]));
        var (c, next) := Unescaped(s, i);
        dst := dst + c;
        i := next;
      }
    }
  }

  /** What the loop does at an escape: the text it emits and where it goes on. */
  function Unescaped(s: string, i: nat): (r: (string, nat))
    requires i < |s|
    ensures i < r.1 <= |s| && |r.0| <= 1
  {
    if i + 1 < |s| && s[i + 1] == ESCAPE then ([ESCAPE], i + 2)
    else if i + 1 == |s| then ([s[i]], i + 1)
    else ("", i + 1)
  }

  lemma {:induction false} UnescapeNothing()
    ensures Unescape("") == ""
  {
  }

  lemma {:induction false} CopySpan(s: string, i: nat, z: nat)
    requires i <= |s| && z <= IndexOf(s[i..], ESCAPE)
    ensures i + z <= |s| && Unescape(s[i..]) == s[i..i + z] + Unescape(s[i + z..])
    decreases z
  {
    if z > 0 {
      assert s[i..][1..] == s[i + 1..];
      CopySpan(s, i + 1, z - 1);
      assert s[i..i + z] == [s[i]] + s[i + 1..i + z];
      Assoc([s[i]], s[i + 1..i + z], Unescape(s[i + z..]));
    }
  }

  lemma {:induction false} EscapeStep(s: string, i: nat)
    requires i < |s| && s[i] == ESCAPE
    ensures Unescape(s[i..]) == Unescaped(s, i).0 + Unescape(s[Unescaped(s, i).1..])
  {
    assert s[i..][0] == s[i];
    if i + 1 < |s| {
      assert s[i..][1] == s[i + 1] && s[i..][2..] == s[i + 2..];
      assert s[i + 1..][1..] == s[i + 2..];
    } else {
      assert s[i..] == [s[i]] && s[i + 1..] == "";
    }
  }

  datatype Frame = Frame(location: string, log: string)

  /** The location, unescaped, and the log of a frame `id:location:log`. */
  method SplitFrame(msg: string) returns (f: Option<Frame>)
    requires |msg| >= 2
    ensures f == FrameOf(msg)
  {
    var text := msg[2..];
    var p := FindSeparator(text);
    if p == |text| {
      return None;
    }
    var location := UnescapeInto(text[..p], LOCATION_ROOM);
    return Some(Frame(location, text[p + 1..]));
  }

  function FrameOf(msg: string): Option<Frame>
    requires |msg| >= 2
  {
    var text := msg[2..];
    var p := ChrEscape(text, false);
    if p == |text| then None else Some(Frame(Take(Unescape(text[..p]), LOCATION_ROOM), text[p + 1..]))
  }

  // ---------------------------------------------------------------- the agent

  datatype Source = Source(agentId: string, hostname: string, location: string)

  /** The agent that a location names. Messages of the server itself get the host that the pre-decoding found,
      or the server's own name. A bracket that is not closed is an error. */
  function SourceOf(location: string, decodedHost: Option<string>, shost: string): Option<Source> {
    if location == "" || location[0] != '[' then
      Some(Source("000", if decodedHost.Some? then decodedHost.value else shost, location))
    else
      var rest := location[1..];
      var e := IndexOf(rest, ']');
      if e == |rest| then None
      else
        var place := if |rest| > e + 1 then rest[e + 2..] else "";
        Some(Source(rest[..e], HostIn(place), place))
  }

  /** The name in parentheses at the start of a location. */
  function HostIn(place: string): string {
    if place == "" || place[0] != '(' then ""
    else
      var e := IndexOf(place[1..], ')');
      if e == |place| - 1 then "" else place[1..][..e]
  }

  /** The offset of the first `->`, or the length. */
  function Arrow(s: string): (r: nat)
    ensures r <= |s|
    ensures r < |s| ==> r + 2 <= |s| && s[r] == '-' && s[r + 1] == '>'
  {
    if s == "" then 0 else if "->" <= s then 0 else 1 + Arrow(s[1..])
  }

  /** `extract_module_from_location`. */
  function ModuleOf(location: string): string {
    var a := Arrow(location);
    if a == |location| then location else location[a + 2..]
  }

  /** The server itself is the source exactly of the locations without a bracket in front; a bracket that is not closed
      is the only error. */
  lemma {:induction false} LocalSource(location: string, decodedHost: Option<string>, shost: string)
    ensures !("[" <= location) ==>
      SourceOf(location, decodedHost, shost) ==
        Some(Source("000", match decodedHost case Some(h) => h case None => shost, location))
    ensures SourceOf(location, decodedHost, shost) == None <==> "[" <= location && ']' !in location
  {
    if location != "" {
      IndexOfNone(location[1..], ']');
      assert location == [location[0]] + location[1..];
    }
  }

  lemma {:induction false} IndexOfNone(s: string, c: char)
    ensures IndexOf(s, c) == |s| <==> c !in s
  {
    if s != "" {
      IndexOfNone(s[1..], c);
      assert s == [s[0]] + s[1..];
    }
  }

  predicate HasArrow(s: string, i: int) { 0 <= i && i + 1 < |s| && s[i] == '-' && s[i + 1] == '>' }

  lemma {:induction false} ArrowIsFirst(s: string)
    ensures Arrow(s) < |s| ==> HasArrow(s, Arrow(s))
    ensures forall i :: i < Arrow(s) ==> !HasArrow(s, i)
  {
    if s != "" {
      ArrowIsFirst(s[1..]);
      forall i | 0 < i < Arrow(s) ensures !HasArrow(s, i) {
        assert !HasArrow(s[1..], i - 1);
      }
      if |s| >= 2 {
        assert s[..2] == [s[0], s[1]];
      }
    }
  }

  /** The module is what follows the first arrow, or the whole location. */
  lemma {:induction false} ModuleMeaning(location: string)
    ensures if exists i :: HasArrow(location, i) then
      exists i :: HasArrow(location, i) && (forall j :: j < i ==> !HasArrow(location, j))
                  && ModuleOf(location) == location[i + 2..]
      else ModuleOf(location) == location
  {
    hide Arrow;
    ArrowIsFirst(location);
  }

  lemma {:induction false} UnescapeBehind(a: string, t: string)
    requires ESCAPE !in a
    ensures Unescape(a + t) == a + Unescape(t)
  {
    if a == "" {
      assert a + t == t;
    } else {
      UnescapeBehind(a[1..], t);
      assert (a + t)[1..] == a[1..] + t;
      Assoc([a[0]], a[1..], Unescape(t));
      assert a == [a[0]] + a[1..];
    }
  }

  lemma {:induction false} EscapedPair(c: char, b: string)
    ensures Unescape([ESCAPE, c] + b) == [c] + Unescape(b) && Unescape([ESCAPE]) == [ESCAPE]
  {
    assert ([ESCAPE, c] + b)[2..] == b;
  }

  /** An escape in front of any character stands for that character; an escape at the end stands for itself. */
  lemma {:induction false} UnescapeMeaning(a: string, c: char, b: string)
    requires ESCAPE !in a
    ensures Unescape(a) == a && Unescape(a + [ESCAPE]) == a + [ESCAPE]
    ensures Unescape(a + ([ESCAPE, c] + b)) == a + ([c] + Unescape(b))
  {
    hide Unescape;
    UnescapeNothing();
    UnescapeBehind(a, "");
    assert a + "" == a;
    EscapedPair(c, b);
    UnescapeBehind(a, [ESCAPE]);
    UnescapeBehind(a, [ESCAPE, c] + b);
  }

  // ---------------------------------------------------------------- round trip

  lemma {:induction false} EscapedHead(c: char, tail: string)
    ensures ChrEscape(EscapeChar(c) + tail, false) == |EscapeChar(c)| + ChrEscape(tail, false)
    ensures Unescape(EscapeChar(c) + tail) == [c] + Unescape(tail)
  {
    var s := EscapeChar(c) + tail;
    if |EscapeChar(c)| == 2 {
      assert s[1..] == [c] + tail;
      assert s[1..][1..] == tail && s[2..] == tail;
    } else {
      assert s[1..] == tail;
    }
  }

  /** Behind an escaped text, the search for the separator and the unescaping start afresh. */
  lemma {:induction false} EscapedPrefix(s: string, t: string)
    ensures ChrEscape(Escape(s) + t, false) == |Escape(s)| + ChrEscape(t, false)
    ensures Unescape(Escape(s) + t) == s + Unescape(t)
  {
    hide ChrEscape, Unescape, EscapeChar;
    if s == "" {
      assert Escape(s) + t == t;
    } else {
      EscapedPrefix(s[1..], t);
      EscapedHead(s[0], Escape(s[1..]) + t);
      Assoc(EscapeChar(s[0]), Escape(s[1..]), t);
      Assoc([s[0]], s[1..], Unescape(t));
      assert s == [s[0]] + s[1..];
    }
  }

  /** A suffix without escapes and separators is left alone, up to the separator behind it. */
  lemma {:induction false} PlainSuffix(t: string, rest: string)
    requires ESCAPE !in t && SEPARATOR !in t
    ensures ChrEscape(t + [SEPARATOR] + rest, false) == |t|
    ensures Unescape(t) == t
  {
    if t != "" {
      PlainSuffix(t[1..], rest);
      assert (t + [SEPARATOR] + rest)[1..] == t[1..] + [SEPARATOR] + rest;
    }
  }

  /** Splitting what an integration prints gives back the location, as much of it as fits, and the payload. */
  lemma {:induction false} FrameRoundTrip(origin: string, suffix: string, payload: string)
    requires ESCAPE !in suffix && SEPARATOR !in suffix
    ensures var f := FrameOf("1:" + Escape(origin) + suffix + ":" + payload);
      && (|origin| + |suffix| <= 8450 ==> f == Some(Frame(origin + suffix, payload)))
      && (|origin| + |suffix| > 8450 ==> f == Some(Frame((origin + suffix)[..8450], payload)))
  {
    hide Escape, ChrEscape, Unescape;
    var msg := "1:" + Escape(origin) + suffix + ":" + payload;
    var text := Escape(origin) + (suffix + [SEPARATOR] + payload);
    assert msg[2..] == text;
    EscapedPrefix(origin, suffix + [SEPARATOR] + payload);
    PlainSuffix(suffix, payload);
    var p := |Escape(origin)| + |suffix|;
    assert text[..p] == Escape(origin) + suffix;
    assert text[p + 1..] == payload;
    EscapedPrefix(origin, suffix);
  }

  lemma {:induction false} ArrowAfter(s: string, t: string)
    requires Arrow(s) == |s| && "->" <= t
    ensures Arrow(s + t) == |s|
  {
    if s == "" {
      assert s + t == t;
    } else {
      ArrowAfter(s[1..], t);
      assert (s + t)[1..] == s[1..] + t;
      if |s| >= 2 {
        assert (s + t)[..2] == s[..2];
      }
      assert !("->" <= s + t);
    }
  }

  /** The agent is read off a printed location. */
  lemma {:induction false} SourceRoundTrip(id: string, name: string, rest: string, decodedHost: Option<string>,
                                           shost: string)
    requires ']' !in id && ')' !in name
    ensures var place := "(" + name + ") " + rest;
      SourceOf("[" + id + "] " + place, decodedHost, shost) == Some(Source(id, name, place))
  {
    hide IndexOf;
    var place := "(" + name + ") " + rest;
    var location := "[" + id + "] " + place;
    assert location[1..] == id + [']'] + (" " + place);
    IndexOfAfter(id, ']', " " + place);
    assert location[1..][..|id|] == id;
    assert location[1..][|id| + 2..] == place;
    HostRoundTrip(name, rest);
  }

  lemma {:induction false} HostRoundTrip(name: string, rest: string)
    requires ')' !in name
    ensures HostIn("(" + name + ") " + rest) == name
  {
    hide IndexOf;
    var place := "(" + name + ") " + rest;
    assert place[1..] == name + [')'] + (" " + rest);
    IndexOfAfter(name, ')', " " + rest);
    assert place[1..][..|name|] == name;
  }

  lemma {:induction false} NameHasNoArrow(name: string, ip: string)
    requires IsValidName(name) && Arrow(ip) == |ip|
    ensures Arrow("(" + name + ") " + ip) == |"(" + name + ") " + ip|
  {
    var head := "(" + name + ") ";
    NoGreater(head, ip);
  }

  lemma {:induction false} NoGreater(s: string, t: string)
    requires '>' !in s && (s == "" || s[|s| - 1] != '-') && Arrow(t) == |t|
    ensures Arrow(s + t) == |s + t|
  {
    if s == "" {
      assert s + t == t;
    } else {
      NoGreater(s[1..], t);
      assert (s + t)[1..] == s[1..] + t;
      if |s| >= 2 {
        assert (s + t)[..2] == s[..2];
      }
      assert !("->" <= s + t);
    }
  }

  /** The whole way, for any module name that needs no escaping. */
  lemma {:induction false} RoundTripWith(id: string, name: string, ip: string, mod: string, payload: string,
                                         decodedHost: Option<string>, shost: string)
    requires ']' !in id && IsValidName(name) && Arrow(ip) == |ip|
    requires ESCAPE !in mod && SEPARATOR !in mod
    requires var place := "(" + name + ") " + ip; |"[" + id + "] " + place| + |"->" + mod| <= LOCATION_ROOM
    ensures var place := "(" + name + ") " + ip;
      var origin := "[" + id + "] " + place;
      && FrameOf("1:" + Escape(origin) + ("->" + mod) + ":" + payload) == Some(Frame(origin + ("->" + mod), payload))
      && SourceOf(origin + ("->" + mod), decodedHost, shost) == Some(Source(id, name, place + ("->" + mod)))
      && ModuleOf(place + ("->" + mod)) == mod
  {
    hide Escape, FrameOf, SourceOf, Arrow, ModuleOf, IsValidName;
    var place := "(" + name + ") " + ip;
    var origin := "[" + id + "] " + place;
    PlainArrow(mod);
    FrameRoundTrip(origin, "->" + mod, payload);
    ValidNameIsPlain(name);
    SourceRoundTrip(id, name, ip + ("->" + mod), decodedHost, shost);
    Assoc("(" + name + ") ", ip, "->" + mod);
    Assoc("[" + id + "] ", place, "->" + mod);
    ModuleAfter(name, ip, mod);
  }

  lemma {:induction false} PlainArrow(mod: string)
    requires ESCAPE !in mod && SEPARATOR !in mod
    ensures ESCAPE !in "->" + mod && SEPARATOR !in "->" + mod
  {
  }

  lemma {:induction false} ValidNameIsPlain(name: string)
    requires IsValidName(name)
    ensures ')' !in name
  {
  }

  lemma {:induction false} ModuleAfter(name: string, ip: string, mod: string)
    requires IsValidName(name) && Arrow(ip) == |ip|
    ensures ModuleOf("(" + name + ") " + ip + ("->" + mod)) == mod
  {
    hide Arrow, IsValidName;
    var place := "(" + name + ") " + ip;
    NameHasNoArrow(name, ip);
    ArrowAfter(place, "->" + mod);
    assert (place + ("->" + mod))[|place| + 2..] == mod;
  }

  function Address(a: Agent): string { if a.ip.Some? then a.ip.value else "any" }

  /** For every agent id without `]`, every valid name, every address without `->` and every payload, what
      `send_msg` prints is read back as that agent, host name, location, module and log. */
  lemma {:induction false} RoundTrip(a: Agent, payload: string, decodedHost: Option<string>, shost: string)
    requires a.id != "000" && ']' !in a.id && IsValidName(a.name)
    requires a.ip.Some? ==> Arrow(a.ip.value) == |a.ip.value|
    requires |Origin(a)| + 12 <= LOCATION_ROOM
    ensures var msg := SendMsg(Some(a), payload);
      && |msg| >= 2 && FrameOf(msg).Some?
      && var f := FrameOf(msg).value;
      && f.log == payload
      && SourceOf(f.location, decodedHost, shost) ==
           Some(Source(a.id, a.name, "(" + a.name + ") " + Address(a) + "->virustotal"))
      && ModuleOf("(" + a.name + ") " + Address(a) + "->virustotal") == "virustotal"
  {
    hide ReplaceChar, Escape, FrameOf, SourceOf, Arrow, ModuleOf;
    var mod := "virustotal";
    var place := "(" + a.name + ") " + Address(a);
    var origin := "[" + a.id + "] " + place;
    OriginIs(a);
    ArrowOfAny();
    PlainModule();
    RoundTripWith(a.id, a.name, Address(a), mod, payload, decodedHost, shost);
    TwoReplacesEscape(origin);
    FramePrinted(a, payload);
  }

  lemma {:induction false} OriginIs(a: Agent)
    ensures Origin(a) == "[" + a.id + "] " + ("(" + a.name + ") " + Address(a))
  {
    assert "[" + a.id + "] (" == "[" + a.id + "] " + "(";
  }

  lemma {:induction false} PlainModule()
    ensures ESCAPE !in "virustotal" && SEPARATOR !in "virustotal" && '>' !in "virustotal"
    ensures "->" + "virustotal" == "->virustotal"
  {
  }

  lemma {:induction false} FramePrinted(a: Agent, payload: string)
    requires a.id != "000"
    ensures SendMsg(Some(a), payload) == "1:" + Escape(Origin(a)) + "->virustotal" + ":" + payload
  {
    hide ReplaceChar, Escape, Origin;
    TwoReplacesEscape(Origin(a));
    assert "->virustotal:" == "->virustotal" + ":";
  }

  lemma {:induction false} ArrowOfAny()
    ensures Arrow("any") == 3
  {
    assert "any"[1..] == "ny" && "ny"[1..] == "y" && "y"[1..] == "";
    assert Arrow("y") == 1;
    assert Arrow("ny") == 2;
  }

  /** Messages about the server itself name no agent: they are read back as agent 000, on the host that the
      pre-decoding found or else on the server. */
  lemma {:induction false} LocalRoundTrip(agent: Option<Agent>, payload: string, decodedHost: Option<string>,
                                          shost: string)
    requires agent.Some? ==> agent.value.id == "000"
    ensures var msg := SendMsg(agent, payload);
      && |msg| >= 2 && FrameOf(msg) == Some(Frame("virustotal", payload))
      && SourceOf("virustotal", decodedHost, shost) ==
           Some(Source("000", if decodedHost.Some? then decodedHost.value else shost, "virustotal"))
      && ModuleOf("virustotal") == "virustotal"
  {
    hide FrameOf, IndexOf, Arrow;
    var mod := "virustotal";
    var msg := SendMsg(agent, payload);
    PlainModule();
    assert msg == "1:" + Escape("") + mod + ":" + payload;
    FrameRoundTrip("", mod, payload);
    assert "" + mod == mod;
    assert Arrow(mod) == |mod|;
  }
}
