/** The agent key file, byte by byte: the searches that scan it with `fgets` and the edit that tombstones a
    record at the file position a search left behind. */
module KeysFile {
  import opened CText
  import opened AgentIds

  /** Room for characters in the scanning buffer and in the editing buffer. */
  const ROOM := 255
  const EDIT_ROOM := 2045

  /** Where the bulk load starts its search for the last identifier in use. */
  const DEFAULT_ID := 132512

  // ---------------------------------------------------------------- one line, as the scanners see it

  predicate IsComment(r: string) { r != "" && r[0] == '#' }

  predicate MarkedAt(r: string, p: nat) { p < |r| && (r[p] == '!' || r[p] == '#') }

  predicate HasId(r: string, id: string, discardRemoved: bool) {
    && !IsComment(r)
    && var sp := IndexOf(r, ' ');
    && sp < |r|
    && r[..sp] == id
    && !(discardRemoved && MarkedAt(r, sp + 1))
  }

  /** The text behind the first space of a line that is neither a comment nor marked as removed. */
  function LiveTail(r: string): Option<string> {
    var sp := IndexOf(r, ' ');
    if IsComment(r) || sp == |r| || MarkedAt(r, sp + 1) then None else Some(r[sp + 1..])
  }

  function UpToSpace(s: string): Option<string> {
    var sp := IndexOf(s, ' ');
    if sp == |s| then None else Some(s[..sp])
  }

  function LiveName(r: string): Option<string> {
    var t := LiveTail(r);
    if t == None then None else UpToSpace(t.value)
  }

  function LiveIp(r: string): Option<string> {
    var t := LiveTail(r);
    if t == None then None
    else
      var sp := IndexOf(t.value, ' ');
      if sp == |t.value| then None else UpToSpace(t.value[sp + 1..])
  }

  /** Addresses that two agents may share: those starting with `any` and those with a mask. */
  predicate IsShareable(ip: string) { "any" <= ip || '/' in ip }

  function IdTest(id: string, discardRemoved: bool): string -> bool { r => HasId(r, id, discardRemoved) }

  function NameTest(name: string): string -> bool { r => LiveName(r) == Some(name) }

  function IpTest(ip: string): string -> bool { r => LiveIp(r) == Some(ip) }

  // ---------------------------------------------------------------- scanning

  /** The offset of the first read that passes the test, or the length of the file. */
  function Scan(s: string, test: string -> bool): (p: nat)
    ensures p <= |s|
  {
    if s == "" then 0
    else
      var n := LineLength(s, ROOM);
      if test(s[..n]) then 0 else n + Scan(s[n..], test)
  }

  /** One `fgets` at offset `pos`. */
  function ReadAt(s: string, pos: nat): (line: string)
    requires pos < |s|
    ensures line != "" && pos + |line| <= |s|
    ensures |line| == LineLength(s[pos..], ROOM) && line == s[pos..][..|line|]
    ensures s[pos..][|line|..] == s[pos + |line|..]
  {
    s[pos..pos + LineLength(s[pos..], ROOM)]
  }

  /** The read at the offset found passes. */
  lemma {:induction false} ScanHits(s: string, test: string -> bool)
    requires Scan(s, test) < |s|
    ensures test(ReadAt(s, Scan(s, test)))
  {
    var n := LineLength(s, ROOM);
    assert s[0..] == s;
    if !test(s[..n]) {
      var p := Scan(s[n..], test);
      ScanHits(s[n..], test);
      assert s[n..][p..] == s[n + p..];
    }
  }

  /** On a file of whole lines the scan stops where the first line that passes starts. */
  lemma {:induction false} ScanOfLines(ls: seq<string>, test: string -> bool)
    requires forall i :: 0 <= i < |ls| ==> IsLine(ls[i], ROOM)
    ensures var k := First(ls, test);
      && Scan(Concat(ls), test) == |Concat(ls[..k])|
      && (Scan(Concat(ls), test) < |Concat(ls)| <==> k < |ls|)
  {
    if ls != [] {
      var k := First(ls, test);
      ReadsLine(ls[0], Concat(ls[1..]), ROOM);
      ScanOfLines(ls[1..], test);
      if k > 0 {
        assert ls[..k][1..] == ls[1..][..k - 1];
      }
    }
  }

  lemma {:induction false} ReadAtLine(ls: seq<string>, k: nat)
    requires forall i :: 0 <= i < |ls| ==> IsLine(ls[i], ROOM)
    requires k < |ls|
    ensures |Concat(ls[..k])| < |Concat(ls)| && ReadAt(Concat(ls), |Concat(ls[..k])|) == ls[k]
  {
    var pre, rest := Concat(ls[..k]), Concat(ls[k + 1..]);
    ConcatSplit(ls, k);
    ReadsLine(ls[k], rest, ROOM);
    assert Concat(ls)[|pre|..] == ls[k] + rest;
  }

  // ---------------------------------------------------------------- tombstones

  /** `s` with `!` behind its first space. */
  function BangAfterSpace(s: string): string {
    if s == "" then s
    else if s[0] == ' ' then " !" + s[1..]
    else [s[0]] + BangAfterSpace(s[1..])
  }

  /** The file with `!` in front of the name of the first live record of `id`. */
  function Tombstoned(s: string, id: string): string {
    var p := Scan(s, IdTest(id, true));
    s[..p] + BangAfterSpace(s[p..])
  }

  lemma {:induction false} IndexOfPrefix(s: string, n: nat, c: char)
    requires n <= |s| && IndexOf(s[..n], c) < n
    ensures IndexOf(s, c) == IndexOf(s[..n], c)
  {
    if s[0] != c {
      assert s[..n][1..] == s[1..][..n - 1];
      IndexOfPrefix(s[1..], n - 1, c);
    }
  }

  /** What follows the line does not move the tombstone. */
  lemma {:induction false} BangInLine(line: string, rest: string)
    requires IndexOf(line, ' ') < |line|
    ensures BangAfterSpace(line + rest) == BangAfterSpace(line) + rest
  {
    assert (line + rest)[1..] == line[1..] + rest;
    if line[0] != ' ' {
      BangInLine(line[1..], rest);
    }
  }

  lemma {:induction false} BangIsSplice(line: string)
    requires IndexOf(line, ' ') < |line|
    ensures var m := IndexOf(line, ' ') + 1;
      BangAfterSpace(line) == line[..m] + "!" + line[m..]
  {
    var m := IndexOf(line, ' ') + 1;
    if line[0] != ' ' {
      var t := line[1..];
      BangIsSplice(t);
      assert line[..m] == [line[0]] + t[..m - 1] && line[m..] == t[m - 1..];
      Assoc([line[0]], t[..m - 1], "!");
      Assoc([line[0]], t[..m - 1] + "!", t[m - 1..]);
    }
  }

  lemma {:induction false} HitHasSpace(s: string, id: string)
    requires Scan(s, IdTest(id, true)) < |s|
    ensures var t := s[Scan(s, IdTest(id, true))..];
      var n := LineLength(t, ROOM);
      IndexOf(t[..n], ' ') == |id| < n
  {
    hide Scan, LineLength;
    var p := Scan(s, IdTest(id, true));
    ScanHits(s, IdTest(id, true));
    assert HasId(ReadAt(s, p), id, true);
  }

  /** On every file, whatever its lines, the edit adds one byte behind a space and leaves all others alone. */
  lemma {:induction false} TombstonedIsOneByte(s: string, id: string)
    requires Scan(s, IdTest(id, true)) < |s|
    ensures var q := Scan(s, IdTest(id, true)) + |id| + 1;
      q <= |s| && s[q - 1] == ' ' && Tombstoned(s, id) == s[..q] + "!" + s[q..]
  {
    hide Scan, IndexOf, BangAfterSpace, IdTest, LineLength;
    var p := Scan(s, IdTest(id, true));
    var t := s[p..];
    HitHasSpace(s, id);
    IndexOfPrefix(t, LineLength(t, ROOM), ' ');
    BangInTail(s, p, |id|);
  }

  /** Splicing into the tail of a text is splicing into the text. */
  lemma {:induction false} BangInTail(s: string, p: nat, k: nat)
    requires p <= |s| && k < |s| - p && IndexOf(s[p..], ' ') == k
    ensures s[p + k] == ' ' && s[..p] + BangAfterSpace(s[p..]) == s[..p + k + 1] + "!" + s[p + k + 1..]
  {
    var t := s[p..];
    BangIsSplice(t);
    hide IndexOf, BangAfterSpace;
    assert s[..p] + t[..k + 1] == s[..p + k + 1];
    assert t[k + 1..] == s[p + k + 1..];
  }

  lemma {:induction false} TombstonedOfLines(ls: seq<string>, id: string)
    requires forall i :: 0 <= i < |ls| ==> IsLine(ls[i], ROOM)
    ensures var k := First(ls, IdTest(id, true));
      Tombstoned(Concat(ls), id) == if k == |ls| then Concat(ls) else Concat(ls[k := BangAfterSpace(ls[k])])
  {
    var k := First(ls, IdTest(id, true));
    var s := Concat(ls);
    ScanOfLines(ls, IdTest(id, true));
    if k < |ls| {
      var pre, rest := Concat(ls[..k]), Concat(ls[k + 1..]);
      ConcatUpdate(ls, k, BangAfterSpace(ls[k]));
      ConcatSplit(ls, k);
      BangInLine(ls[k], rest);
      assert s[..|pre|] == pre && s[|pre|..] == ls[k] + rest;
    } else {
      assert ls[..k] == ls;
      assert s[|s|..] == "" && s[..|s|] == s;
    }
  }

  lemma {:induction false} LineLengthMonotone(s: string, a: nat, b: nat)
    requires a <= b
    ensures LineLength(s, a) <= LineLength(s, b)
  {
    if s != "" && a > 0 && s[0] != '\n' {
      LineLengthMonotone(s[1..], a - 1, b - 1);
    }
  }

  /** In the line that a longer read takes, the first space is the one that a shorter read saw. */
  lemma {:induction false} LongerReadSeesSpace(t: string, a: nat, b: nat)
    requires a <= b && IndexOf(t[..LineLength(t, a)], ' ') < LineLength(t, a)
    ensures var m := LineLength(t, b);
      IndexOf(t[..m], ' ') < m && BangAfterSpace(t) == BangAfterSpace(t[..m]) + t[m..]
  {
    var n, m := LineLength(t, a), LineLength(t, b);
    LineLengthMonotone(t, a, b);
    hide LineLength, IndexOf, BangAfterSpace;
    assert t[..m][..n] == t[..n];
    IndexOfPrefix(t[..m], n, ' ');
    BangInLine(t[..m], t[m..]);
    assert t == t[..m] + t[m..];
  }

  // ---------------------------------------------------------------- identifiers in use

  predicate Used(s: string, id: string) { Scan(s, IdTest(id, false)) < |s| }

  /** The identifiers that some read carries, removed records included. */
  function IdsOn(rs: seq<string>): (ids: set<string>)
    ensures |ids| <= |rs|
  {
    if rs == [] then {}
    else
      var sp := IndexOf(rs[0], ' ');
      IdsOn(rs[1..]) + if IsComment(rs[0]) || sp == |rs[0]| then {} else {rs[0][..sp]}
  }

  lemma {:induction false} UsedAreOn(s: string, id: string)
    ensures Used(s, id) <==> id in IdsOn(Reads(s, ROOM))
  {
    if s != "" {
      var n := LineLength(s, ROOM);
      UsedAreOn(s[n..], id);
      assert Reads(s, ROOM)[1..] == Reads(s[n..], ROOM);
    }
  }

  /** The first `n` default identifiers: `n` different texts. */
  function FirstNumbers(n: nat): (ids: set<string>) {
    if n == 0 then {} else FirstNumbers(n - 1) + {Decimal3(n)}
  }

  lemma {:induction false} FirstNumbersDiffer(n: nat)
    ensures |FirstNumbers(n)| == n
    ensures forall m :: m > n ==> Decimal3(m) !in FirstNumbers(n)
  {
    if n > 0 {
      FirstNumbersDiffer(n - 1);
      forall m | m > n ensures Decimal3(m) !in FirstNumbers(n) {
        if Decimal3(m) == Decimal3(n) {
          Decimal3Injective(m, n);
        }
      }
    }
  }

  /** A file cannot use up more default identifiers than it has lines. */
  lemma {:induction false} Pigeonhole(s: string, n: nat)
    requires FirstNumbers(n) <= IdsOn(Reads(s, ROOM))
    ensures n <= |Reads(s, ROOM)|
  {
    FirstNumbersDiffer(n);
    SubsetSize(FirstNumbers(n), IdsOn(Reads(s, ROOM)));
  }

  lemma {:induction false} SubsetSize(a: set<string>, b: set<string>)
    requires a <= b
    ensures |a| <= |b|
  {
    if x :| x in a {
      SubsetSize(a - {x}, b - {x});
    }
  }

  // ---------------------------------------------------------------- the file

  /** The edit with the longer line buffer makes the tombstoned file. */
  lemma {:induction false} TombstoneEdit(s: string, id: string)
    requires Scan(s, IdTest(id, true)) < |s|
    ensures var p := Scan(s, IdTest(id, true));
      var tail := s[p..];
      var n := LineLength(tail, EDIT_ROOM);
      var line := tail[..n];
      var m := IndexOf(line, ' ') + 1;
      m <= |line| && s[..p] + (line[..m] + "!" + line[m..]) + tail[n..] == Tombstoned(s, id)
  {
    hide Scan, IndexOf, LineLength, BangAfterSpace, IdTest;
    var p := Scan(s, IdTest(id, true));
    var tail := s[p..];
    HitHasSpace(s, id);
    LongerReadSeesSpace(tail, ROOM, EDIT_ROOM);
    var n := LineLength(tail, EDIT_ROOM);
    BangIsSplice(tail[..n]);
    Assoc(s[..p], BangAfterSpace(tail[..n]), tail[n..]);
  }

  /** What a search finds in the file: nothing, if it cannot be opened for reading. */
  function Seen(content: string, readable: bool): string { if readable then content else "" }

  /** How a rewrite of the file goes: well, not at all, or only the first bytes get there. */
  datatype Io = Works | Fails | Breaks(kept: nat)

  function Head(s: string, n: nat): string { if n < |s| then s[..n] else s }

  lemma {:induction false} NumberIsShort(n: nat)
    requires n <= DEFAULT_ID + 1
    ensures IsValidId(Decimal3(n)) && Decimal3(n) != ""
  {
    assert Pow10(MAX_ID_LENGTH) == 100_000_000;
    DecimalLength(n, MAX_ID_LENGTH);
  }

  class KeysFile {
    var content: string
    /** The file position that the search by identifier shares with the editor. */
    var fpPos: nat

    constructor (content: string)
      ensures this.content == content
    {
      this.content := content;
      fpPos := 0;
    }

    /** The loop over `fgets` that all searches share. */
    method ScanFor(test: string -> bool) returns (pos: nat)
      ensures pos == Scan(content, test)
    {
      pos := 0;
      assert content[0..] == content;
      while pos < |content|
        invariant pos <= |content|
        invariant pos + Scan(content[pos..], test) == Scan(content, test)
      {
        var line := ReadAt(content, pos);
        if test(line) {
          return;
        }
        pos := pos + |line|;
      }
    }

    /** A search that cannot open the file answers that nothing is there. */
    method IdExist(id: string, discardRemoved: bool, readable: bool) returns (found: bool)
      modifies this`fpPos
      ensures fpPos == if readable then Scan(content, IdTest(id, discardRemoved)) else old(fpPos)
      ensures found <==> readable && fpPos < |content|
      ensures !discardRemoved ==> (found <==> Used(Seen(content, readable), id))
    {
      if !readable {
        return false;
      }
      fpPos := ScanFor(IdTest(id, discardRemoved));
      found := fpPos < |content|;
    }

    method NameExist(name: string, readable: bool) returns (found: bool)
      ensures found <==> name != "" && name[0] != '\r' && name[0] != '\n'
                         && Scan(Seen(content, readable), NameTest(name)) < |Seen(content, readable)|
    {
      if name == "" || name[0] == '\r' || name[0] == '\n' || !readable {
        return false;
      }
      var pos := ScanFor(NameTest(name));
      found := pos < |content|;
    }

    /** The identifier on the first live line with that address, if no two agents may share it. */
    method IpExist(ip: string, readable: bool) returns (id: Option<string>)
      ensures var p := Scan(Seen(content, readable), IpTest(ip));
        if IsShareable(ip) || p == |Seen(content, readable)| then id == None
        else id.Some? && HasId(ReadAt(content, p), id.value, true)
    {
      if IsShareable(ip) || !readable {
        return None;
      }
      var pos := ScanFor(IpTest(ip));
      if pos == |content| {
        return None;
      }
      ScanHits(content, IpTest(ip));
      var line := ReadAt(content, pos);
      id := Some(line[..IndexOf(line, ' ')]);
    }

    /** `OS_RemoveAgent`. A failure before the key file is written leaves it alone; a move that falls back on copying
        and fails in the midst of it leaves the first bytes of the new content. */
    method RemoveAgent(id: string, io: Io) returns (ok: bool)
      modifies this
      ensures ok <==> io == Works && Scan(old(content), IdTest(id, true)) < |old(content)|
      ensures content ==
        if io == Fails || Scan(old(content), IdTest(id, true)) == |old(content)| then old(content)
        else if io == Works then Tombstoned(old(content), id)
        else Head(Tombstoned(old(content), id), io.kept)
    {
      hide Scan, IndexOf, LineLength, BangAfterSpace, IdTest, Tombstoned;
      var exist := IdExist(id, true, true);
      if !exist {
        return false;
      }
      TombstoneEdit(content, id);
      var tail := content[fpPos..];
      var n := LineLength(tail, EDIT_ROOM);
      var line := tail[..n];
      var name := IndexOf(line, ' ');
      if name == |line| {
        return false;
      }
      name := name + 1;
      line := line[..name] + "!" + line[name..];
      var buffer := content[..fpPos] + line + tail[n..];
      if io == Fails {
        return false;
      }
      if io.Breaks? {
        content := Head(buffer, io.kept);
        return false;
      }
      content := buffer;
      return true;
    }

    /** The default identifier offered for a new agent: the least positive number that no record uses, as far as the
        file can be read. The search ends on every file. */
    method DefaultId(readable: bool) returns (id: string, ghost i: nat)
      modifies this`fpPos
      ensures i > 0 && id == Decimal3(i) && !Used(Seen(content, readable), id)
      ensures forall j :: 0 < j < i ==> Used(Seen(content, readable), Decimal3(j))
      ensures i <= |Reads(content, ROOM)| + 1
    {
      hide Decimal3, Used, Reads, IdsOn, Scan, IdTest, LineLength;
      var k := 1;
      id := Decimal3(k);
      var exist := IdExist(id, false, readable);
      while exist
        invariant k > 0 && id == Decimal3(k) && (exist <==> Used(Seen(content, readable), id)) && (exist ==> readable)
        invariant forall j :: 0 < j < k ==> Used(Seen(content, readable), Decimal3(j))
        invariant FirstNumbers(k - 1) <= IdsOn(Reads(content, ROOM))
        invariant k <= |Reads(content, ROOM)| + 1
        decreases |Reads(content, ROOM)| + 1 - k
      {
        UsedAreOn(content, id);
        Pigeonhole(content, k);
        k := k + 1;
        id := Decimal3(k);
        exist := IdExist(id, false, readable);
      }
      i := k;
    }

    /** The identifier a bulk load gives: one more than the largest number in use up to 132512, or nothing. */
    method BulkId(readable: bool) returns (id: Option<string>, ghost last: nat)
      modifies this`fpPos
      ensures last <= DEFAULT_ID && (last == 0 || Used(Seen(content, readable), Decimal3(last)))
      ensures forall j :: last < j <= DEFAULT_ID ==> !Used(Seen(content, readable), Decimal3(j))
      ensures id.Some? ==>
                id.value == Decimal3(last + 1) && !Used(Seen(content, readable), id.value) && IsValidId(id.value)
      ensures id == None <==>
                && Used(Seen(content, readable), Decimal3(DEFAULT_ID))
                && Used(Seen(content, readable), Decimal3(DEFAULT_ID + 1))
    {
      var i := LastUsed(readable);
      last := i;
      var text := Decimal3(i + 1);
      assert IsValidId(text) by {
        NumberIsShort(i + 1);
      }
      hide *;
      var valid := CheckId(text);
      if !valid {
        return None, last;
      }
      var exist := IdExist(text, false, readable);
      return if exist then None else Some(text), last;
    }

    /** The countdown of the bulk load. */
    method LastUsed(readable: bool) returns (i: nat)
      modifies this`fpPos
      ensures i <= DEFAULT_ID && (i == 0 || Used(Seen(content, readable), Decimal3(i)))
      ensures forall j :: i < j <= DEFAULT_ID ==> !Used(Seen(content, readable), Decimal3(j))
    {
      hide Decimal3, Scan, IdTest, Used;
      i := DEFAULT_ID;
      var exist := IdExist(Decimal3(i), false, readable);
      while !exist
        invariant 0 < i <= DEFAULT_ID && (exist <==> Used(Seen(content, readable), Decimal3(i)))
        invariant forall j :: i < j <= DEFAULT_ID ==> !Used(Seen(content, readable), Decimal3(j))
        decreases i
      {
        i := i - 1;
        if i <= 0 {
          return 0;
        }
        exist := IdExist(Decimal3(i), false, readable);
      }
    }
  }
}
