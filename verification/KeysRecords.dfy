/** The key file as a list of records. `RenderAll` writes the list down; the lemmas say that the byte-level
    searches and the tombstoning edit of the file are operations on the list. */
module KeysRecords {
  import opened CText
  import opened KeysFile

  datatype Mark = Live | Bang | Hash

  datatype Line =
    | Comment(text: string)
    | Agent(id: string, mark: Mark, name: string, ip: string, key: string)

  predicate Plain(s: string) { forall i :: 0 <= i < |s| ==> s[i] != ' ' && s[i] != '\n' }

  function Marked(l: Line): string
    requires l.Agent?
  {
    match l.mark
    case Live => l.name
    case Bang => "!" + l.name
    case Hash => "#" + l.name
  }

  /** What follows the first and the second space of a record. */
  function AfterName(l: Line): string
    requires l.Agent?
  {
    l.ip + [' '] + (l.key + "\n")
  }

  function AfterId(l: Line): string
    requires l.Agent?
  {
    Marked(l) + [' '] + AfterName(l)
  }

  function Render(l: Line): string {
    match l
    case Comment(text) => text + "\n"
    case Agent(id, _, _, _, _) => id + [' '] + AfterId(l)
  }

  /** A line the scanners take in one read, even after a tombstone makes it one character longer. */
  predicate WellFormed(l: Line) {
    match l
    case Comment(text) => text != "" && text[0] == '#' && '\n' !in text && |text| < ROOM
    case Agent(id, _, name, ip, key) =>
      && Plain(id) && Plain(name) && Plain(ip) && Plain(key)
      && id != "" && id[0] != '#'
      && name != "" && name[0] != '!' && name[0] != '#'
      && |id| + |name| + |ip| + |key| + 5 <= ROOM
  }

  function Lines(db: seq<Line>): (ls: seq<string>)
    ensures |ls| == |db|
  {
    seq(|db|, i requires 0 <= i < |db| => Render(db[i]))
  }

  /** The file that holds these records. */
  function RenderAll(db: seq<Line>): string { Concat(Lines(db)) }

  ghost predicate AllWellFormed(db: seq<Line>) {
    forall i :: 0 <= i < |db| ==> WellFormed(db[i])
  }

  // ---------------------------------------------------------------- record-level operations

  predicate Carries(l: Line, id: string, discardRemoved: bool) {
    l.Agent? && l.id == id && (discardRemoved ==> l.mark == Live)
  }

  predicate HoldsName(l: Line, name: string) { l.Agent? && l.mark == Live && l.name == name }

  predicate HoldsIp(l: Line, ip: string) { l.Agent? && l.mark == Live && l.ip == ip }

  function ById(id: string, discardRemoved: bool): Line -> bool { l => Carries(l, id, discardRemoved) }

  function ByName(name: string): Line -> bool { l => HoldsName(l, name) }

  function ByIp(ip: string): Line -> bool { l => HoldsIp(l, ip) }

  function Removed(db: seq<Line>, id: string): (r: seq<Line>)
    ensures |r| == |db|
  {
    var k := First(db, ById(id, true));
    if k == |db| then db else db[k := db[k].(mark := Bang)]
  }

  // ---------------------------------------------------------------- one line

  lemma {:induction false} RenderIsLine(l: Line)
    requires WellFormed(l)
    ensures IsLine(Render(l), ROOM)
  {
    hide WellFormed;
    BodyOf(l);
    var text := Body(l);
    assert (text + "\n")[..|text|] == text;
  }

  /** A record without its newline. */
  function Body(l: Line): string {
    match l
    case Comment(text) => text
    case Agent(id, _, _, ip, key) => id + [' '] + (Marked(l) + [' '] + (ip + [' '] + key))
  }

  lemma {:induction false} BodyOf(l: Line)
    requires WellFormed(l)
    ensures Render(l) == Body(l) + "\n" && '\n' !in Body(l) && |Body(l)| < ROOM
  {
    if l.Agent? {
      Assoc(l.ip + [' '], l.key, "\n");
      Assoc(Marked(l) + [' '], l.ip + [' '] + l.key, "\n");
      Assoc(l.id + [' '], Marked(l) + [' '] + (l.ip + [' '] + l.key), "\n");
    }
  }

  lemma {:induction false} Spaces(l: Line)
    requires WellFormed(l) && l.Agent?
    ensures IndexOf(Render(l), ' ') == |l.id| && Render(l)[..|l.id|] == l.id && Render(l)[|l.id| + 1..] == AfterId(l)
    ensures !IsComment(Render(l))
    ensures MarkedAt(Render(l), |l.id| + 1) <==> l.mark != Live
    ensures IndexOf(AfterId(l), ' ') == |Marked(l)| && AfterId(l)[..|Marked(l)|] == Marked(l)
    ensures AfterId(l)[|Marked(l)| + 1..] == AfterName(l)
    ensures UpToSpace(AfterName(l)) == Some(l.ip)
  {
    IndexOfAfter(l.id, ' ', AfterId(l));
    IndexOfAfter(Marked(l), ' ', AfterName(l));
    IndexOfAfter(l.ip, ' ', l.key + "\n");
    assert Render(l)[|l.id| + 1] == Marked(l)[0];
    assert AfterName(l)[..|l.ip|] == l.ip;
  }

  /** The scanners see a rendered record as that record. */
  lemma {:induction false} LineMeaning(l: Line)
    requires WellFormed(l)
    ensures forall id, d :: HasId(Render(l), id, d) <==> Carries(l, id, d)
    ensures forall n :: LiveName(Render(l)) == Some(n) <==> HoldsName(l, n)
    ensures forall a :: LiveIp(Render(l)) == Some(a) <==> HoldsIp(l, a)
    ensures l.Agent? ==> Render(l)[..IndexOf(Render(l), ' ')] == l.id
  {
    if l.Agent? {
      Spaces(l);
    } else {
      assert IsComment(Render(l));
    }
  }

  lemma {:induction false} TombstonedRender(l: Line)
    requires WellFormed(l) && l.Agent? && l.mark == Live
    ensures BangAfterSpace(Render(l)) == Render(l.(mark := Bang))
  {
    Spaces(l);
    BangIsSplice(Render(l));
    var head := l.id + [' '];
    assert Render(l)[..|l.id| + 1] == head;
    Assoc("!", l.name, [' ']);
    Assoc("!", l.name + [' '], AfterName(l));
    Assoc(head, "!", AfterId(l));
  }

  // ---------------------------------------------------------------- the whole file

  lemma {:induction false} LinesAre(db: seq<Line>)
    requires AllWellFormed(db)
    ensures forall i :: 0 <= i < |db| ==> IsLine(Lines(db)[i], ROOM)
  {
    forall i | 0 <= i < |db| ensures IsLine(Lines(db)[i], ROOM) {
      RenderIsLine(db[i]);
    }
  }

  /** A test of lines that agrees with a test of records scans the file to the first such record. */
  lemma {:induction false} ScanOfRender(db: seq<Line>, onLine: string -> bool, onRecord: Line -> bool)
    requires AllWellFormed(db)
    requires forall i :: 0 <= i < |db| ==> (onLine(Lines(db)[i]) <==> onRecord(db[i]))
    ensures First(Lines(db), onLine) == First(db, onRecord)
    ensures Scan(RenderAll(db), onLine) == |RenderAll(db[..First(db, onRecord)])|
    ensures Scan(RenderAll(db), onLine) < |RenderAll(db)| <==> First(db, onRecord) < |db|
  {
    LinesAre(db);
    ScanOfLines(Lines(db), onLine);
    assert Lines(db)[..First(db, onRecord)] == Lines(db[..First(db, onRecord)]);
  }

  /** The search leaves the file position at the byte where the first matching record starts. */
  lemma {:induction false} IdScanOfRender(db: seq<Line>, id: string, discardRemoved: bool)
    requires AllWellFormed(db)
    ensures var k := First(db, ById(id, discardRemoved));
      && First(Lines(db), IdTest(id, discardRemoved)) == k
      && Scan(RenderAll(db), IdTest(id, discardRemoved)) == |RenderAll(db[..k])|
      && (Scan(RenderAll(db), IdTest(id, discardRemoved)) < |RenderAll(db)| <==> k < |db|)
  {
    forall i | 0 <= i < |db|
      ensures IdTest(id, discardRemoved)(Lines(db)[i]) <==> ById(id, discardRemoved)(db[i])
    {
      LineMeaning(db[i]);
    }
    ScanOfRender(db, IdTest(id, discardRemoved), ById(id, discardRemoved));
  }

  lemma {:induction false} NameScanOfRender(db: seq<Line>, name: string)
    requires AllWellFormed(db)
    ensures Scan(RenderAll(db), NameTest(name)) < |RenderAll(db)| <==> First(db, ByName(name)) < |db|
  {
    forall i | 0 <= i < |db| ensures NameTest(name)(Lines(db)[i]) <==> ByName(name)(db[i]) {
      LineMeaning(db[i]);
    }
    ScanOfRender(db, NameTest(name), ByName(name));
  }

  /** The search by address stops at the first live record with it, and the line there names its identifier. */
  lemma {:induction false} IpScanOfRender(db: seq<Line>, ip: string)
    requires AllWellFormed(db)
    ensures var k, p := First(db, ByIp(ip)), Scan(RenderAll(db), IpTest(ip));
      && (p < |RenderAll(db)| <==> k < |db|)
      && (k < |db| ==> forall id :: HasId(ReadAt(RenderAll(db), p), id, true) <==> id == db[k].id)
  {
    var k := First(db, ByIp(ip));
    forall i | 0 <= i < |db| ensures IpTest(ip)(Lines(db)[i]) <==> ByIp(ip)(db[i]) {
      LineMeaning(db[i]);
    }
    ScanOfRender(db, IpTest(ip), ByIp(ip));
    if k < |db| {
      LinesAre(db);
      ReadAtLine(Lines(db), k);
      assert Lines(db)[..k] == Lines(db[..k]);
      LineMeaning(db[k]);
    }
  }

  lemma {:induction false} RenderOne(l: Line)
    ensures RenderAll([l]) == Render(l)
  {
    var r := Render(l);
    assert Lines([l]) == [r];
    assert [r][1..] == [];
    assert Concat([r]) == r + Concat([]) == r;
  }

  lemma {:induction false} RenderAppend(a: seq<Line>, b: seq<Line>)
    ensures RenderAll(a + b) == RenderAll(a) + RenderAll(b)
  {
    assert Lines(a + b) == Lines(a) + Lines(b);
    ConcatAppend(Lines(a), Lines(b));
  }

  /** The edit of the bytes is the tombstoning of one record, and the rewritten file reads back as just that. */
  lemma {:induction false} TombstonedOfRender(db: seq<Line>, id: string)
    requires AllWellFormed(db)
    ensures Tombstoned(RenderAll(db), id) == RenderAll(Removed(db, id))
    ensures AllWellFormed(Removed(db, id))
  {
    hide Tombstoned, IdTest, First, Concat;
    var k := First(db, ById(id, true));
    LinesAre(db);
    IdScanOfRender(db, id, true);
    TombstonedOfLines(Lines(db), id);
    if k < |db| {
      TombstonedRender(db[k]);
      assert Lines(db)[k := Render(db[k].(mark := Bang))] == Lines(Removed(db, id));
    }
  }

  /** No two lists of well-formed records are written the same way, so a file determines its records. */
  lemma {:induction false} RenderInjective(a: seq<Line>, b: seq<Line>)
    requires AllWellFormed(a) && AllWellFormed(b)
    requires RenderAll(a) == RenderAll(b)
    ensures a == b
  {
    LinesAre(a);
    LinesAre(b);
    ReadsOfLines(Lines(a), ROOM);
    ReadsOfLines(Lines(b), ROOM);
    assert Lines(a) == Lines(b);
    forall i | 0 <= i < |a| ensures a[i] == b[i] {
      assert Lines(a)[i] == Lines(b)[i];
      LineInjective(a[i], b[i]);
    }
  }

  lemma {:induction false} LineInjective(a: Line, b: Line)
    requires WellFormed(a) && WellFormed(b) && Render(a) == Render(b)
    ensures a == b
  {
    LineMeaning(a);
    LineMeaning(b);
    if a.Comment? && b.Comment? {
      assert a.text == Render(a)[..|a.text|];
    } else if a.Agent? && b.Agent? {
      assert a.id == b.id;
      SplitUnique(a.id, AfterId(a), b.id, AfterId(b));
      SplitUnique(Marked(a), AfterName(a), Marked(b), AfterName(b));
      SplitUnique(a.ip, a.key + "\n", b.ip, b.key + "\n");
      assert a.key == (a.key + "\n")[..|a.key|];
      MarkedInjective(a, b);
    } else {
      assert IsComment(Render(a));
      if a.Agent? {
        Spaces(a);
      } else {
        Spaces(b);
      }
    }
  }

  lemma {:induction false} MarkedInjective(a: Line, b: Line)
    requires WellFormed(a) && WellFormed(b) && a.Agent? && b.Agent? && Marked(a) == Marked(b)
    ensures a.mark == b.mark && a.name == b.name
  {
    assert a.mark == Live || a.name == Marked(a)[1..];
    assert b.mark == Live || b.name == Marked(b)[1..];
  }

  lemma {:induction false} SplitUnique(a: string, x: string, b: string, y: string)
    requires ' ' !in a && ' ' !in b && a + [' '] + x == b + [' '] + y
    ensures a == b && x == y
  {
    IndexOfAfter(a, ' ', x);
    IndexOfAfter(b, ' ', y);
    var s := a + [' '] + x;
    assert a == s[..|a|] && b == s[..|b|];
    assert x == s[|a| + 1..] && y == s[|b| + 1..];
  }
}
