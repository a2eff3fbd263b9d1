/** Registering and removing agents while the registration daemon is down, on the list of records: what the answers
    of a user, the lines of a bulk load and the failures of writes make of it, and what stays unique. */
module KeysCommands {
  import opened CText
  import opened AgentIds
  import opened KeysFile
  import opened KeysRecords

  /** What the address check lets through: `INET6_ADDRSTRLEN` bounds it, and it holds no blanks. */
  predicate IsAddress(ip: string) { Plain(ip) && |ip| <= 46 }

  /** Two MD5 sums in hexadecimal. */
  predicate IsKey(key: string) { Plain(key) && |key| == 64 }

  /** An answer to the question for the address: what the address check makes of it, whether the holder of the
      address may be replaced, and whether the removal of the holder fails. */
  datatype IpTry = IpTry(ip: Option<string>, mayReplace: bool, ioFails: bool)

  /** Which searches can open the key file: those for a name, for an address and for an identifier. A search that
      cannot answers that nothing is there. */
  datatype Sight = Sight(name: bool, address: bool, id: bool)

  const ALL_SEEN := Sight(true, true, true)
  const BLIND := Sight(false, false, false)

  datatype BulkEntry = BulkEntry(name: string, ip: Option<string>, key: string, writeFails: bool, sight: Sight)

  /** An add writes the records that it can read and the new one to a temporary file and moves that over the key file:
      `copies` says whether it can read them. */
  datatype Command =
    | Add(names: seq<string>, ips: seq<IpTry>, ids: seq<string>, key: string, confirmed: bool, writeFails: bool,
          sight: Sight, copies: bool)
    | Bulk(entries: seq<BulkEntry>)
    | Remove(inputs: seq<string>, confirmed: bool, ioFails: bool, readable: bool)

  predicate IsInput(c: Command) {
    match c
    case Add(_, ips, _, key, _, _, _, _) =>
      IsKey(key) && forall i :: 0 <= i < |ips| && ips[i].ip.Some? ==> IsAddress(ips[i].ip.value)
    case Bulk(entries) => forall i :: 0 <= i < |entries| ==> IsEntry(entries[i])
    case Remove(_, _, _, _) => true
  }

  predicate IsEntry(e: BulkEntry) { IsKey(e.key) && (e.ip.Some? ==> IsAddress(e.ip.value)) }

  // ---------------------------------------------------------------- uniqueness

  ghost predicate UniqueIds(db: seq<Line>) {
    forall i, j :: 0 <= i < j < |db| && db[i].Agent? && db[j].Agent? ==> db[i].id != db[j].id
  }

  predicate IsLive(l: Line) { l.Agent? && l.mark == Live }

  ghost predicate UniqueNames(db: seq<Line>) {
    forall i, j :: 0 <= i < j < |db| && IsLive(db[i]) && IsLive(db[j]) ==> db[i].name != db[j].name
  }

  ghost predicate UniqueIps(db: seq<Line>) {
    forall i, j :: 0 <= i < j < |db| && IsLive(db[i]) && IsLive(db[j]) && !IsShareable(db[i].ip) ==>
      db[i].ip != db[j].ip
  }

  ghost predicate Consistent(db: seq<Line>) { AllWellFormed(db) && UniqueIds(db) && UniqueNames(db) }

  /** Records are only ever tombstoned or added behind the others. */
  ghost predicate Persists(a: seq<Line>, b: seq<Line>) {
    |a| <= |b| && forall i :: 0 <= i < |a| ==> b[i] == a[i] || (IsLive(a[i]) && b[i] == a[i].(mark := Bang))
  }

  /** One more live record keeps the registry consistent exactly when its identifier and its name are free. */
  lemma {:induction false} AppendKeeps(db: seq<Line>, l: Line)
    requires Consistent(db) && WellFormed(l) && IsLive(l)
    ensures Consistent(db + [l]) <==> !IsTaken(db, l.id) && First(db, ByName(l.name)) == |db|
  {
    var db' := db + [l];
    var k, n := First(db, ById(l.id, false)), First(db, ByName(l.name));
    if k < |db| {
      assert db'[k].Agent? && db'[k].id == db'[|db|].id;
    } else if n < |db| {
      assert IsLive(db'[n]) && db'[n].name == db'[|db|].name;
    } else {
      forall i | 0 <= i < |db|
        ensures db[i].Agent? ==> db[i].id != l.id
        ensures IsLive(db[i]) ==> db[i].name != l.name
      {
        assert !ById(l.id, false)(db[i]);
        assert !ByName(l.name)(db[i]);
      }
    }
  }

  /** It keeps plain addresses unique exactly when its address is not held. */
  lemma {:induction false} AppendKeepsIps(db: seq<Line>, l: Line)
    requires UniqueIps(db) && IsLive(l)
    ensures UniqueIps(db + [l]) <==> !IsHeld(db, l.ip)
  {
    var k := First(db, ByIp(l.ip));
    if k == |db| {
      forall i | 0 <= i < |db| && IsLive(db[i]) ensures db[i].ip != l.ip {
        assert !ByIp(l.ip)(db[i]);
      }
    } else {
      assert IsLive((db + [l])[k]) && IsLive((db + [l])[|db|]) && (db + [l])[k].ip == (db + [l])[|db|].ip;
    }
  }

  /** What holds of a registry holds of its first records. */
  lemma {:induction false} PrefixKeeps(db: seq<Line>, db': seq<Line>)
    requires db <= db'
    ensures Consistent(db') ==> Consistent(db)
    ensures UniqueIps(db') ==> UniqueIps(db)
  {
  }

  lemma {:induction false} RemovedKeeps(db: seq<Line>, id: string)
    requires Consistent(db)
    ensures Consistent(Removed(db, id)) && Persists(db, Removed(db, id))
    ensures UniqueIps(db) ==> UniqueIps(Removed(db, id))
    ensures forall other :: First(db, ById(other, false)) == |db| ==> First(Removed(db, id), ById(other, false)) == |db|
    ensures forall name :: First(db, ByName(name)) == |db| ==> First(Removed(db, id), ByName(name)) == |db|
  {
    var r := Removed(db, id);
    forall other | First(db, ById(other, false)) == |db| ensures First(r, ById(other, false)) == |db| {
      forall i | 0 <= i < |db| ensures !ById(other, false)(r[i]) {
        assert !ById(other, false)(db[i]);
      }
    }
    forall name | First(db, ByName(name)) == |db| ensures First(r, ByName(name)) == |db| {
      forall i | 0 <= i < |db| ensures !ByName(name)(r[i]) {
        assert !ByName(name)(db[i]);
      }
    }
  }

  /** Once the holder of a plain address is removed, nobody holds it. */
  lemma {:induction false} RemovedFreesIp(db: seq<Line>, ip: string)
    requires Consistent(db) && UniqueIps(db) && !IsShareable(ip) && First(db, ByIp(ip)) < |db|
    ensures var id := db[First(db, ByIp(ip))].id;
      First(db, ById(id, true)) < |db| && First(Removed(db, id), ByIp(ip)) == |db|
  {
    var k := First(db, ByIp(ip));
    var id := db[k].id;
    assert ById(id, true)(db[k]);
    var m := First(db, ById(id, true));
    assert m == k;
    var r := Removed(db, id);
    forall j | 0 <= j < |db| ensures !ByIp(ip)(r[j]) {
      if j != k {
        assert r[j] == db[j];
      }
    }
  }

  lemma {:induction false} PersistsTrans(a: seq<Line>, b: seq<Line>, c: seq<Line>)
    requires Persists(a, b) && Persists(b, c)
    ensures Persists(a, c)
  {
  }

  // ---------------------------------------------------------------- adding an agent

  /** A record has the identifier, be it a removed one. */
  predicate IsTaken(db: seq<Line>, id: string) { First(db, ById(id, false)) < |db| }

  /** The name is valid, not the server's own and not taken. */
  predicate IsFreeName(db: seq<Line>, shost: string, name: string) {
    IsValidName(name) && name != shost && First(db, ByName(name)) == |db|
  }

  /** A live agent has the address, and no other may have it. */
  predicate IsHeld(db: seq<Line>, ip: string) { !IsShareable(ip) && First(db, ByIp(ip)) < |db| }

  /** The address is valid, and free or its holder may be replaced. */
  predicate Settles(db: seq<Line>, t: IpTry) { t.ip.Some? && (IsHeld(db, t.ip.value) ==> t.mayReplace) }

  /** The records after an address was settled on. */
  function Settled(db: seq<Line>, t: IpTry): seq<Line>
    requires t.ip.Some?
  {
    if IsHeld(db, t.ip.value) && !t.ioFails then Removed(db, db[First(db, ByIp(t.ip.value))].id) else db
  }

  ghost predicate IsLeastFree(db: seq<Line>, n: nat) {
    n > 0 && !IsTaken(db, Decimal3(n)) && forall j :: 0 < j < n ==> IsTaken(db, Decimal3(j))
  }

  function IdsIn(db: seq<Line>): (ids: set<string>)
    ensures |ids| <= |db|
  {
    if db == [] then {} else IdsIn(db[1..]) + if db[0].Agent? then {db[0].id} else {}
  }

  lemma {:induction false} TakenIsIn(db: seq<Line>, id: string)
    ensures IsTaken(db, id) <==> id in IdsIn(db)
  {
    if db != [] {
      TakenIsIn(db[1..], id);
    }
  }

  lemma {:induction false} TakenNumbers(db: seq<Line>, n: nat)
    requires forall j :: 0 < j <= n ==> IsTaken(db, Decimal3(j))
    ensures FirstNumbers(n) <= IdsIn(db)
  {
    hide IsTaken, Decimal3;
    if n > 0 {
      TakenNumbers(db, n - 1);
      TakenIsIn(db, Decimal3(n));
    }
  }

  /** There is a least free number: a registry cannot use up more numbers than it has records. */
  lemma {:induction false} SomeIsLeastFree(db: seq<Line>, n: nat)
    requires n > 0 && forall j :: 0 < j < n ==> IsTaken(db, Decimal3(j))
    ensures exists m: nat :: IsLeastFree(db, m)
    decreases |db| + 1 - n
  {
    hide IsTaken, Decimal3, IdsIn;
    TakenNumbers(db, n - 1);
    FirstNumbersDiffer(n - 1);
    SubsetSize(FirstNumbers(n - 1), IdsIn(db));
    if IsTaken(db, Decimal3(n)) {
      SomeIsLeastFree(db, n + 1);
    } else {
      assert IsLeastFree(db, n);
    }
  }

  /** The default identifier. */
  ghost function LeastFree(db: seq<Line>): (n: nat)
    ensures IsLeastFree(db, n)
  {
    SomeIsLeastFree(db, 1);
    var n: nat :| IsLeastFree(db, n);
    n
  }

  lemma {:induction false} LeastFreeIs(db: seq<Line>, n: nat)
    requires IsLeastFree(db, n)
    ensures LeastFree(db) == n
  {
    hide IsTaken, Decimal3;
    var m := LeastFree(db);
    assert !(m < n) && !(n < m);
  }

  /** The identifier that an answer gives the new agent; no answer and 0 stand for the default. */
  ghost function NewId(db: seq<Line>, answer: string): Option<string> {
    var text := if answer == "" || answer == "0" then Decimal3(LeastFree(db)) else answer;
    if IsValidId(text) && !IsTaken(db, FormatId(text)) then Some(FormatId(text)) else None
  }

  ghost function GoodName(db: seq<Line>, shost: string): string -> bool { name => IsFreeName(db, shost, name) }

  ghost function GoodAddress(db: seq<Line>): IpTry -> bool { t => Settles(db, t) }

  ghost function GoodId(db: seq<Line>): string -> bool { answer => NewId(db, answer).Some? }

  /** The records that a search sees. */
  function See(db: seq<Line>, visible: bool): seq<Line> { if visible then db else [] }

  /** The records after an address was settled on. */
  function SettledBy(db: seq<Line>, visible: bool, t: IpTry): seq<Line>
    requires t.ip.Some?
  {
    if visible then Settled(db, t) else db
  }

  /** An add: the first good name, the first good address, the first good identifier, and what becomes of them. */
  ghost function Added(db: seq<Line>, shost: string, c: Command): (seq<Line>, Option<Line>)
    requires c.Add?
  {
    var n := First(c.names, GoodName(See(db, c.sight.name), shost));
    var k := First(c.ips, GoodAddress(See(db, c.sight.address)));
    if n == |c.names| || k == |c.ips| then (db, None)
    else
      var db1 := SettledBy(db, c.sight.address, c.ips[k]);
      var seen := See(db1, c.sight.id);
      var i := First(c.ids, GoodId(seen));
      if i == |c.ids| || !c.confirmed || c.writeFails then (db1, None)
      else
        var l := Agent(NewId(seen, c.ids[i]).value, Live, c.names[n], c.ips[k].ip.value, c.key);
        (See(db1, c.copies) + [l], Some(l))
  }

  /** The address that an add settles on. */
  ghost function Chosen(db: seq<Line>, c: Command): (t: IpTry)
    requires c.Add? && First(c.ips, GoodAddress(See(db, c.sight.address))) < |c.ips|
    ensures Settles(See(db, c.sight.address), t) && t.ip.Some?
  {
    c.ips[First(c.ips, GoodAddress(See(db, c.sight.address)))]
  }

  /** There is a good answer to every question, it is confirmed, and the file can be written. */
  ghost predicate Succeeds(db: seq<Line>, shost: string, c: Command)
    requires c.Add?
  {
    && First(c.names, GoodName(See(db, c.sight.name), shost)) < |c.names|
    && First(c.ips, GoodAddress(See(db, c.sight.address))) < |c.ips|
    && First(c.ids, GoodId(See(db, c.sight.id))) < |c.ids|
    && c.confirmed && !c.writeFails
  }

  /** The agent that an add appends. */
  ghost function NewAgent(db: seq<Line>, shost: string, c: Command): (l: Line)
    requires c.Add? && Succeeds(db, shost, c)
    ensures IsLive(l)
  {
    var seen := See(db, c.sight.id);
    Agent(NewId(seen, c.ids[First(c.ids, GoodId(seen))]).value, Live,
          c.names[First(c.names, GoodName(See(db, c.sight.name), shost))], Chosen(db, c).ip.value, c.key)
  }

  /** The add cannot read the old records, and writes a file with the new one alone. */
  ghost predicate AddWipes(db: seq<Line>, shost: string, c: Command) {
    c.Add? && Succeeds(db, shost, c) && !c.copies && db != [] && db != [NewAgent(db, shost, c)]
  }

  /** The add keeps the old records and appends one with an identifier or a name that one of them has. */
  ghost predicate AddClashes(db: seq<Line>, shost: string, c: Command) {
    && c.Add? && Succeeds(db, shost, c) && c.copies
    && var l, db1 := NewAgent(db, shost, c), SettledBy(db, c.sight.address, Chosen(db, c));
    IsTaken(db, l.id) || First(db1, ByName(l.name)) < |db1|
  }

  /** The add keeps the old records and appends one with a plain address whose holder it did not see, or could not
      remove. */
  ghost predicate AddShares(db: seq<Line>, shost: string, c: Command) {
    && c.Add? && Succeeds(db, shost, c) && c.copies
    && IsHeld(db, NewAgent(db, shost, c).ip) && (!c.sight.address || Chosen(db, c).ioFails)
  }

  lemma {:induction false} TakenStays(db: seq<Line>, db': seq<Line>, id: string)
    requires Persists(db, db') && |db'| == |db|
    ensures IsTaken(db, id) <==> IsTaken(db', id)
  {
    forall i | 0 <= i < |db| ensures ById(id, false)(db[i]) <==> ById(id, false)(db'[i]) {
    }
  }

  /** Tombstones keep the identifiers, so every answer gives what it gave before. */
  lemma {:induction false} NewIdStays(db: seq<Line>, db': seq<Line>)
    requires Persists(db, db') && |db'| == |db|
    ensures forall answer :: NewId(db, answer) == NewId(db', answer)
  {
    hide IsTaken, Decimal3, FormatId, IsValidId;
    forall x ensures IsTaken(db, x) <==> IsTaken(db', x) {
      TakenStays(db, db', x);
    }
    assert IsLeastFree(db', LeastFree(db));
    LeastFreeIs(db', LeastFree(db));
  }

  /** A new identifier is valid, in canonical form and free. */
  lemma {:induction false} NewIdIsGood(db: seq<Line>, answer: string)
    requires NewId(db, answer).Some?
    ensures var id := NewId(db, answer).value;
      IsValidId(id) && id != "" && FormatId(id) == id && !IsTaken(db, id)
    ensures answer != "" && answer != "0" ==> IsValidId(answer) && NewId(db, answer).value == Decimal3(Value(answer))
    ensures answer == "" || answer == "0" ==> NewId(db, answer).value == Decimal3(LeastFree(db))
  {
    hide IsTaken, FormatId, Decimal3;
    var text := if answer == "" || answer == "0" then Decimal3(LeastFree(db)) else answer;
    FormatIdCanonical(text);
    FormatIdIdempotent(text);
    ValueOfDecimal3(LeastFree(db));
  }

  /** Settling on an address keeps the registry in order and marks at most its holder; the address is then free,
      unless the removal failed. */
  lemma {:induction false} SettledKeeps(db: seq<Line>, t: IpTry)
    requires Consistent(db) && Settles(db, t)
    ensures Consistent(Settled(db, t)) && Persists(db, Settled(db, t)) && |Settled(db, t)| == |db|
    ensures forall i :: 0 <= i < |db| && Settled(db, t)[i] != db[i] ==> HoldsIp(db[i], t.ip.value)
    ensures UniqueIps(db) ==> UniqueIps(Settled(db, t))
    ensures UniqueIps(db) ==> (IsHeld(Settled(db, t), t.ip.value) <==> IsHeld(db, t.ip.value) && t.ioFails)
  {
    var ip := t.ip.value;
    if IsHeld(db, ip) && !t.ioFails {
      var m := First(db, ByIp(ip));
      var id := db[m].id;
      RemovedKeeps(db, id);
      assert ById(id, true)(db[m]);
      assert First(db, ById(id, true)) == m;
      if UniqueIps(db) {
        RemovedFreesIp(db, ip);
      }
    }
  }

  /** A live agent is only ever tombstoned, so a name that was free is. */
  lemma {:induction false} SettledKeepsName(db: seq<Line>, db': seq<Line>, name: string)
    requires Persists(db, db') && |db'| == |db| && First(db, ByName(name)) == |db|
    ensures First(db', ByName(name)) == |db'|
  {
    forall i | 0 <= i < |db| ensures !ByName(name)(db'[i]) {
      assert !ByName(name)(db[i]);
    }
  }

  lemma {:induction false} PartsFit(id: string, name: string, ip: string, key: string)
    requires IsValidId(id) && id != "" && IsValidName(name) && IsAddress(ip) && IsKey(key)
    ensures WellFormed(Agent(id, Live, name, ip, key))
  {
  }

  lemma {:induction false} SettledByIs(db: seq<Line>, visible: bool, t: IpTry)
    requires t.ip.Some?
    ensures Persists(db, SettledBy(db, visible, t)) && |SettledBy(db, visible, t)| == |db|
    ensures AllWellFormed(db) ==> AllWellFormed(SettledBy(db, visible, t))
  {
  }

  lemma {:induction false} SettledByKeeps(db: seq<Line>, visible: bool, t: IpTry)
    requires Consistent(db) && t.ip.Some? && Settles(See(db, visible), t)
    ensures var db1 := SettledBy(db, visible, t);
      && Consistent(db1)
      && (forall i :: 0 <= i < |db| && db1[i] != db[i] ==> HoldsIp(db[i], t.ip.value))
      && (UniqueIps(db) ==> UniqueIps(db1))
      && (UniqueIps(db) ==> (IsHeld(db1, t.ip.value) <==> IsHeld(db, t.ip.value) && (!visible || t.ioFails)))
  {
    hide Consistent, UniqueIps, IsHeld, Settled, Settles;
    if visible {
      SettledKeeps(db, t);
    }
  }

  lemma {:induction false} SettledIfAllowed(db: seq<Line>, visible: bool, t: IpTry)
    requires t.ip.Some? && Settles(See(db, visible), t)
    ensures SettledBy(db, visible, t) != db ==> t.mayReplace
  {
  }

  /** The answers that an add settles on make a record. */
  lemma {:induction false} NewAgentFits(db: seq<Line>, shost: string, c: Command)
    requires c.Add? && IsInput(c) && Succeeds(db, shost, c)
    ensures WellFormed(NewAgent(db, shost, c))
    ensures !IsTaken(See(db, c.sight.id), NewAgent(db, shost, c).id)
    ensures IsFreeName(See(db, c.sight.name), shost, NewAgent(db, shost, c).name)
    ensures IsAddress(NewAgent(db, shost, c).ip)
    ensures IsValidId(NewAgent(db, shost, c).id) && NewAgent(db, shost, c).id != ""
  {
    hide NewId, IsTaken, IsAddress, IsKey, IsValidName, IsValidId, FormatId, WellFormed, ByName, Settles;
    var seen := See(db, c.sight.id);
    var i := First(c.ids, GoodId(seen));
    assert GoodId(seen)(c.ids[i]);
    NewIdIsGood(seen, c.ids[i]);
    var n := First(c.names, GoodName(See(db, c.sight.name), shost));
    assert GoodName(See(db, c.sight.name), shost)(c.names[n]);
    var l := NewAgent(db, shost, c);
    PartsFit(l.id, l.name, l.ip, c.key);
  }

  /** The add in one line. */
  lemma {:induction false} AddedForm(db: seq<Line>, shost: string, c: Command)
    requires c.Add?
    ensures var (db', l) := Added(db, shost, c);
      if Succeeds(db, shost, c) then
        && l == Some(NewAgent(db, shost, c))
        && db' == See(SettledBy(db, c.sight.address, Chosen(db, c)), c.copies) + [NewAgent(db, shost, c)]
      else
        && l == None
        && (db' == db || (First(c.ips, GoodAddress(See(db, c.sight.address))) < |c.ips|
                          && db' == SettledBy(db, c.sight.address, Chosen(db, c))))
  {
    hide NewId, Settled, IsFreeName, Settles;
    var n := First(c.names, GoodName(See(db, c.sight.name), shost));
    var k := First(c.ips, GoodAddress(See(db, c.sight.address)));
    if n < |c.names| && k < |c.ips| {
      var t := Chosen(db, c);
      var db1 := SettledBy(db, c.sight.address, t);
      SettledByIs(db, c.sight.address, t);
      NewIdStays(db, db1);
      FirstSame(c.ids, GoodId(See(db, c.sight.id)), GoodId(See(db1, c.sight.id)));
    }
  }

  /** An add keeps the old records, but for marks, exactly when it does not wipe them. */
  lemma {:induction false} AddedPersists(db: seq<Line>, shost: string, c: Command)
    requires c.Add?
    ensures Persists(db, Added(db, shost, c).0) <==> !AddWipes(db, shost, c)
  {
    hide Succeeds, NewAgent, SettledBy;
    AddedForm(db, shost, c);
    if First(c.ips, GoodAddress(See(db, c.sight.address))) < |c.ips| {
      SettledByIs(db, c.sight.address, Chosen(db, c));
    }
    if Succeeds(db, shost, c) {
      SucceedsChooses(db, shost, c);
      if !c.copies {
        var l := NewAgent(db, shost, c);
        assert [] + [l] == [l];
        if |db| == 1 {
          assert db == [db[0]];
        }
      }
    }
  }

  lemma {:induction false} SucceedsChooses(db: seq<Line>, shost: string, c: Command)
    requires c.Add? && Succeeds(db, shost, c)
    ensures First(c.ips, GoodAddress(See(db, c.sight.address))) < |c.ips|
    ensures NewAgent(db, shost, c).ip == Chosen(db, c).ip.value
  {
  }

  /** What an add does, told by the records before it, the answers and what can be read: it appends an agent exactly
      when it succeeds; it keeps the registry consistent exactly when it does not clash, and plain addresses unique
      exactly when it does not share one; and it marks at most the holder of the address it settles on. */
  lemma {:induction false} AddedIs(db: seq<Line>, shost: string, c: Command)
    requires Consistent(db) && c.Add? && IsInput(c)
    ensures var (db', l) := Added(db, shost, c);
      && (l.Some? <==> Succeeds(db, shost, c))
      && (l.Some? ==> db' != [] && db'[|db'| - 1] == l.value == NewAgent(db, shost, c))
      && (Consistent(db') <==> !AddClashes(db, shost, c))
      && (UniqueIps(db) ==> (UniqueIps(db') <==> !AddShares(db, shost, c)))
  {
    hide Succeeds, NewAgent, SettledBy, Chosen, IsTaken, IsHeld, WellFormed, ByName, Consistent, UniqueIps, IsInput;
    AddedForm(db, shost, c);
    if First(c.ips, GoodAddress(See(db, c.sight.address))) < |c.ips| {
      var t := Chosen(db, c);
      var db1 := SettledBy(db, c.sight.address, t);
      SettledByKeeps(db, c.sight.address, t);
      SettledByIs(db, c.sight.address, t);
      if Succeeds(db, shost, c) {
        var l := NewAgent(db, shost, c);
        SucceedsChooses(db, shost, c);
        NewAgentFits(db, shost, c);
        if c.copies {
          AppendKeeps(db1, l);
          TakenStays(db, db1, l.id);
          if UniqueIps(db) {
            AppendKeepsIps(db1, l);
          }
        } else {
          AloneIsFine(l);
          assert [] + [l] == [l];
        }
      }
    } else if Succeeds(db, shost, c) {
      SucceedsChooses(db, shost, c);
    }
  }

  lemma {:induction false} AloneIsFine(l: Line)
    requires WellFormed(l)
    ensures Consistent([l]) && UniqueIps([l])
  {
  }

  /** The records that an add has marked: at most the holder of the address that it settles on. */
  ghost predicate MarksHolder(db: seq<Line>, db': seq<Line>, c: Command)
    requires c.Add?
  {
    forall i :: 0 <= i < |db| && i < |db'| && db'[i] != db[i] ==>
      && First(c.ips, GoodAddress(See(db, c.sight.address))) < |c.ips|
      && Chosen(db, c).mayReplace && HoldsIp(db[i], Chosen(db, c).ip.value) && db'[i] == db[i].(mark := Bang)
  }

  lemma {:induction false} AddMarksHolder(db: seq<Line>, shost: string, c: Command)
    requires Consistent(db) && c.Add?
    ensures !AddWipes(db, shost, c) ==> MarksHolder(db, Added(db, shost, c).0, c)
  {
    hide Succeeds, NewAgent, SettledBy, Chosen, Consistent, Added;
    AddedPersists(db, shost, c);
    AddedForm(db, shost, c);
    if Succeeds(db, shost, c) {
      SucceedsChooses(db, shost, c);
    }
    if First(c.ips, GoodAddress(See(db, c.sight.address))) < |c.ips| {
      SettledByKeeps(db, c.sight.address, Chosen(db, c));
      SettledByIs(db, c.sight.address, Chosen(db, c));
      SettledIfAllowed(db, c.sight.address, Chosen(db, c));
    }
  }

  /** An add that can read the key file keeps all records and clashes with none. */
  lemma {:induction false} SeeingAddIsSound(db: seq<Line>, shost: string, c: Command)
    requires c.Add? && IsInput(c) && c.sight == ALL_SEEN && c.copies
    ensures !AddWipes(db, shost, c) && !AddClashes(db, shost, c)
  {
    hide Succeeds, NewAgent, SettledBy, Chosen, IsTaken, IsInput;
    if Succeeds(db, shost, c) {
      SucceedsChooses(db, shost, c);
      var l, db1 := NewAgent(db, shost, c), SettledBy(db, c.sight.address, Chosen(db, c));
      NewAgentFits(db, shost, c);
      SettledByIs(db, c.sight.address, Chosen(db, c));
      SettledKeepsName(db, db1, l.name);
    }
  }

  lemma {:induction false} FirstSame<T>(s: seq<T>, f: T -> bool, g: T -> bool)
    requires forall i :: 0 <= i < |s| ==> f(s[i]) == g(s[i])
    ensures First(s, f) == First(s, g)
  {
  }

  // ---------------------------------------------------------------- loading many agents and removing one

  /** The number `last` is the largest in use among those that a bulk load looks at. */
  ghost predicate IsLastUsed(db: seq<Line>, last: nat) {
    && last <= DEFAULT_ID && (last == 0 || IsTaken(db, Decimal3(last)))
    && forall j :: last < j <= DEFAULT_ID ==> !IsTaken(db, Decimal3(j))
  }

  lemma {:induction false} SomeIsLastUsed(db: seq<Line>, n: nat)
    requires n <= DEFAULT_ID && forall j :: n < j <= DEFAULT_ID ==> !IsTaken(db, Decimal3(j))
    ensures exists last: nat :: IsLastUsed(db, last)
  {
    hide IsTaken, Decimal3;
    if n == 0 || IsTaken(db, Decimal3(n)) {
      assert IsLastUsed(db, n);
    } else {
      SomeIsLastUsed(db, n - 1);
    }
  }

  ghost function LastUsed(db: seq<Line>): (last: nat)
    ensures IsLastUsed(db, last)
  {
    SomeIsLastUsed(db, DEFAULT_ID);
    var last: nat :| IsLastUsed(db, last);
    last
  }

  lemma {:induction false} LastUsedIs(db: seq<Line>, last: nat)
    requires IsLastUsed(db, last)
    ensures LastUsed(db) == last
  {
    hide IsTaken, Decimal3;
    var m := LastUsed(db);
    assert !(m < last) && !(last < m);
  }

  /** A line of a bulk load makes an agent. */
  predicate IsLoadable(db: seq<Line>, e: BulkEntry) {
    && IsValidName(e.name) && First(See(db, e.sight.name), ByName(e.name)) == |See(db, e.sight.name)|
    && e.ip.Some? && !IsHeld(See(db, e.sight.address), e.ip.value)
    && !(IsTaken(See(db, e.sight.id), Decimal3(DEFAULT_ID)) && IsTaken(See(db, e.sight.id), Decimal3(DEFAULT_ID + 1)))
  }

  /** The agent gets the number behind the last one in use. */
  ghost function LoadedAgent(db: seq<Line>, e: BulkEntry): Line
    requires e.ip.Some?
  {
    Agent(Decimal3(LastUsed(See(db, e.sight.id)) + 1), Live, e.name, e.ip.value, e.key)
  }

  ghost function Loaded(db: seq<Line>, e: BulkEntry): seq<Line> {
    if IsLoadable(db, e) then db + [LoadedAgent(db, e)] else db
  }

  /** A write that fails ends the whole load. */
  predicate Stops(db: seq<Line>, e: BulkEntry) { IsLoadable(db, e) && e.writeFails }

  ghost function Load(db: seq<Line>, entries: seq<BulkEntry>): seq<Line>
    decreases |entries|
  {
    if entries == [] || Stops(db, entries[0]) then db else Load(Loaded(db, entries[0]), entries[1..])
  }

  /** The line appends an agent with an identifier or a name that another one has. */
  ghost predicate EntryClashes(db: seq<Line>, e: BulkEntry) {
    IsLoadable(db, e) && (IsTaken(db, LoadedAgent(db, e).id) || First(db, ByName(e.name)) < |db|)
  }

  ghost predicate EntryShares(db: seq<Line>, e: BulkEntry) { IsLoadable(db, e) && IsHeld(db, e.ip.value) }

  /** Some line of the load clashes where it comes. */
  ghost predicate LoadClashes(db: seq<Line>, entries: seq<BulkEntry>)
    decreases |entries|
  {
    && entries != [] && !Stops(db, entries[0])
    && (EntryClashes(db, entries[0]) || LoadClashes(Loaded(db, entries[0]), entries[1..]))
  }

  ghost predicate LoadShares(db: seq<Line>, entries: seq<BulkEntry>)
    decreases |entries|
  {
    && entries != [] && !Stops(db, entries[0])
    && (EntryShares(db, entries[0]) || LoadShares(Loaded(db, entries[0]), entries[1..]))
  }

  lemma {:induction false} LoadedIs(db: seq<Line>, e: BulkEntry)
    requires IsEntry(e)
    ensures db <= Loaded(db, e)
    ensures Consistent(db) ==> (Consistent(Loaded(db, e)) <==> !EntryClashes(db, e))
    ensures UniqueIps(db) ==> (UniqueIps(Loaded(db, e)) <==> !EntryShares(db, e))
  {
    hide Consistent, UniqueIps, IsHeld, IsTaken, WellFormed, IsAddress, IsKey, IsValidName, IsValidId, Decimal3,
      LastUsed, ByName;
    if IsLoadable(db, e) {
      var l := LoadedAgent(db, e);
      NumberIsShort(LastUsed(See(db, e.sight.id)) + 1);
      PartsFit(l.id, e.name, e.ip.value, e.key);
      if Consistent(db) {
        AppendKeeps(db, l);
      }
      if UniqueIps(db) {
        AppendKeepsIps(db, l);
      }
    }
  }

  lemma {:induction false} LoadAppends(db: seq<Line>, entries: seq<BulkEntry>)
    ensures db <= Load(db, entries)
    decreases |entries|
  {
    if entries != [] && !Stops(db, entries[0]) {
      LoadAppends(Loaded(db, entries[0]), entries[1..]);
    }
  }

  /** A load only adds records behind the others. It keeps the registry consistent exactly when no line of it clashes,
      and plain addresses unique exactly when no line shares one. */
  lemma {:induction false} LoadIs(db: seq<Line>, entries: seq<BulkEntry>)
    requires forall i :: 0 <= i < |entries| ==> IsEntry(entries[i])
    ensures db <= Load(db, entries)
    ensures Consistent(db) ==> (Consistent(Load(db, entries)) <==> !LoadClashes(db, entries))
    ensures UniqueIps(db) ==> (UniqueIps(Load(db, entries)) <==> !LoadShares(db, entries))
    decreases |entries|
  {
    hide Consistent, UniqueIps, IsEntry, Loaded, EntryClashes, EntryShares;
    if entries != [] && !Stops(db, entries[0]) {
      var db1 := Loaded(db, entries[0]);
      LoadedIs(db, entries[0]);
      LoadIs(db1, entries[1..]);
      PrefixKeeps(db1, Load(db1, entries[1..]));
    }
  }

  /** A line whose search for the identifier sees the records takes no identifier that is in use, and so for names. */
  lemma {:induction false} SeeingEntryIsSound(db: seq<Line>, e: BulkEntry)
    requires e.sight == ALL_SEEN
    ensures !EntryClashes(db, e) && !EntryShares(db, e)
  {
    hide IsTaken, Decimal3, IsHeld, LastUsed;
  }

  /** Whether an answer to a removal names an agent, be it a removed one. */
  function Names(db: seq<Line>): string -> bool { answer => IsTaken(db, FormatId(answer)) }

  /** The first answer that names an agent decides. */
  function RemovedBy(db: seq<Line>, c: Command): seq<Line>
    requires c.Remove?
  {
    var k := First(c.inputs, Names(See(db, c.readable)));
    if k < |c.inputs| && c.confirmed && !c.ioFails then Removed(db, FormatId(c.inputs[k])) else db
  }
}
