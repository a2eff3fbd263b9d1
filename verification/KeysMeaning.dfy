/** What the commands on the registry do, told by the records themselves: who has an identifier, a name or an address,
    and which record comes out marked or new. */
module KeysMeaning {
  import opened CText
  import opened AgentIds
  import opened KeysFile
  import opened KeysRecords
  import opened KeysCommands
  import opened KeysSessions

  ghost predicate NobodyHas(db: seq<Line>, id: string) {
    forall m :: 0 <= m < |db| && db[m].Agent? ==> db[m].id != id
  }

  ghost predicate NobodyIsNamed(db: seq<Line>, name: string) {
    forall m :: 0 <= m < |db| && db[m].Agent? && db[m].mark == Live ==> db[m].name != name
  }

  ghost predicate NobodyIsAt(db: seq<Line>, ip: string) {
    forall m :: 0 <= m < |db| && db[m].Agent? && db[m].mark == Live ==> db[m].ip != ip
  }

  /** An address that one agent at a time may have. */
  predicate IsPlain(ip: string) { !("any" <= ip) && '/' !in ip }

  ghost predicate NameIsGood(db: seq<Line>, shost: string, name: string) {
    IsValidName(name) && name != shost && NobodyIsNamed(db, name)
  }

  ghost predicate AddressIsGood(db: seq<Line>, t: IpTry) {
    t.ip.Some? && (t.mayReplace || !IsPlain(t.ip.value) || NobodyIsAt(db, t.ip.value))
  }

  ghost predicate IsLeastUnused(db: seq<Line>, n: nat) {
    n > 0 && NobodyHas(db, Decimal3(n)) && forall j :: 0 < j < n ==> !NobodyHas(db, Decimal3(j))
  }

  /** The answer gives this identifier: its number with at least three digits, or the least number that nobody has. */
  ghost predicate GivesId(db: seq<Line>, answer: string, id: string) {
    if answer == "" || answer == "0" then exists n: nat :: IsLeastUnused(db, n) && id == Decimal3(n) && |id| <= 8
    else AllDigits(answer) && |answer| <= 8 && id == Decimal3(Value(answer)) && NobodyHas(db, id)
  }

  /** One live record comes out marked. */
  ghost predicate Marks(db: seq<Line>, db': seq<Line>, m: nat) {
    m < |db| && db[m].Agent? && db[m].mark == Live && db' == db[m := db[m].(mark := Bang)]
  }

  // ---------------------------------------------------------------- the searches

  lemma {:induction false} TakenMeans(db: seq<Line>, id: string)
    ensures IsTaken(db, id) <==> !NobodyHas(db, id)
  {
    var k := First(db, ById(id, false));
    if k == |db| {
      forall m | 0 <= m < |db| && db[m].Agent? ensures db[m].id != id {
        assert !ById(id, false)(db[m]);
      }
    }
  }

  lemma {:induction false} NameMeans(db: seq<Line>, name: string)
    ensures First(db, ByName(name)) == |db| <==> NobodyIsNamed(db, name)
  {
    if First(db, ByName(name)) == |db| {
      forall m | 0 <= m < |db| && db[m].Agent? && db[m].mark == Live ensures db[m].name != name {
        assert !ByName(name)(db[m]);
      }
    }
  }

  lemma {:induction false} HeldMeans(db: seq<Line>, ip: string)
    ensures IsHeld(db, ip) <==> IsPlain(ip) && !NobodyIsAt(db, ip)
  {
    if First(db, ByIp(ip)) == |db| {
      forall m | 0 <= m < |db| && db[m].Agent? && db[m].mark == Live ensures db[m].ip != ip {
        assert !ByIp(ip)(db[m]);
      }
    }
  }

  lemma {:induction false} AnswersMean(db: seq<Line>, shost: string, name: string, t: IpTry)
    ensures GoodName(db, shost)(name) <==> NameIsGood(db, shost, name)
    ensures GoodAddress(db)(t) <==> AddressIsGood(db, t)
  {
    hide NobodyIsNamed, NobodyIsAt, IsHeld, First, IsPlain;
    NameMeans(db, name);
    if t.ip.Some? {
      HeldMeans(db, t.ip.value);
    }
  }

  lemma {:induction false} LeastMeans(db: seq<Line>, n: nat)
    ensures IsLeastFree(db, n) <==> IsLeastUnused(db, n)
  {
    hide IsTaken, NobodyHas, Decimal3;
    forall j: nat ensures IsTaken(db, Decimal3(j)) <==> !NobodyHas(db, Decimal3(j)) {
      TakenMeans(db, Decimal3(j));
    }
  }

  lemma {:induction false} IdMeans(db: seq<Line>, answer: string, id: string)
    ensures NewId(db, answer) == Some(id) <==> GivesId(db, answer, id)
  {
    hide IsTaken, NobodyHas, Decimal3, FormatId, LeastFree, IsLeastFree, IsLeastUnused, Value;
    TakenMeans(db, id);
    var n := LeastFree(db);
    LeastMeans(db, n);
    forall m: nat | IsLeastUnused(db, m) ensures m == n {
      LeastMeans(db, m);
      LeastFreeIs(db, m);
    }
    if answer == "" || answer == "0" {
      ValueOfDecimal3(n);
      LeastIsFree(db, n);
      if IsValidId(Decimal3(n)) {
        FormatIdCanonical(Decimal3(n));
      }
    } else if IsValidId(answer) {
      FormatIdCanonical(answer);
    }
  }

  lemma {:induction false} LeastIsFree(db: seq<Line>, n: nat)
    requires IsLeastFree(db, n)
    ensures !IsTaken(db, Decimal3(n))
  {
  }

  // ---------------------------------------------------------------- the add

  /** Answer number `n` is the first good name. */
  ghost predicate TakesName(db: seq<Line>, shost: string, names: seq<string>, n: nat) {
    n < |names| && NameIsGood(db, shost, names[n]) && forall j :: 0 <= j < n ==> !NameIsGood(db, shost, names[j])
  }

  ghost predicate TakesAddress(db: seq<Line>, ips: seq<IpTry>, k: nat) {
    k < |ips| && AddressIsGood(db, ips[k]) && forall j :: 0 <= j < k ==> !AddressIsGood(db, ips[j])
  }

  ghost predicate TakesId(db: seq<Line>, ids: seq<string>, i: nat, id: string) {
    i < |ids| && GivesId(db, ids[i], id) && forall j, x :: 0 <= j < i ==> !GivesId(db, ids[j], x)
  }

  lemma {:induction false} FirstName(db: seq<Line>, shost: string, names: seq<string>)
    ensures var n := First(names, GoodName(db, shost));
      if n < |names| then TakesName(db, shost, names, n)
      else forall j :: 0 <= j < |names| ==> !NameIsGood(db, shost, names[j])
  {
    hide NameIsGood, IsFreeName;
    forall j | 0 <= j < |names| ensures GoodName(db, shost)(names[j]) <==> NameIsGood(db, shost, names[j]) {
      AnswersMean(db, shost, names[j], IpTry(None, false, false));
    }
  }

  lemma {:induction false} FirstAddress(db: seq<Line>, ips: seq<IpTry>)
    ensures var k := First(ips, GoodAddress(db));
      if k < |ips| then TakesAddress(db, ips, k) else forall j :: 0 <= j < |ips| ==> !AddressIsGood(db, ips[j])
  {
    hide AddressIsGood, Settles;
    forall j | 0 <= j < |ips| ensures GoodAddress(db)(ips[j]) <==> AddressIsGood(db, ips[j]) {
      AnswersMean(db, "", "", ips[j]);
    }
  }

  lemma {:induction false} FirstId(db: seq<Line>, ids: seq<string>)
    ensures var i := First(ids, GoodId(db));
      if i < |ids| then NewId(db, ids[i]).Some? && TakesId(db, ids, i, NewId(db, ids[i]).value)
      else forall j, x :: 0 <= j < |ids| ==> !GivesId(db, ids[j], x)
  {
    hide NewId, GivesId;
    var i := First(ids, GoodId(db));
    forall j, x | 0 <= j < i ensures !GivesId(db, ids[j], x) {
      IdMeans(db, ids[j], x);
      assert !GoodId(db)(ids[j]);
    }
    if i < |ids| {
      assert GoodId(db)(ids[i]);
      IdMeans(db, ids[i], NewId(db, ids[i]).value);
    }
  }

  /** The first good answers, confirmed and written, make the agent; if there are none, nothing is added. */
  lemma {:induction false} AddMeaning(db: seq<Line>, shost: string, c: Command)
    requires c.Add?
    ensures var names, addresses, ids := See(db, c.sight.name), See(db, c.sight.address), See(db, c.sight.id);
      match Added(db, shost, c).1
      case Some(l) =>
        && c.confirmed && !c.writeFails
        && exists n: nat, k: nat, i: nat ::
             && TakesName(names, shost, c.names, n) && TakesAddress(addresses, c.ips, k) && TakesId(ids, c.ids, i, l.id)
             && l == Agent(l.id, Live, c.names[n], c.ips[k].ip.value, c.key)
      case None =>
        || !c.confirmed || c.writeFails
        || (forall j :: 0 <= j < |c.names| ==> !NameIsGood(names, shost, c.names[j]))
        || (forall j :: 0 <= j < |c.ips| ==> !AddressIsGood(addresses, c.ips[j]))
        || (forall j, x :: 0 <= j < |c.ids| ==> !GivesId(ids, c.ids[j], x))
  {
    hide Added, TakesName, TakesAddress, TakesId, NameIsGood, AddressIsGood, GivesId, NewId, IsFreeName, Settles, First,
      See;
    var names, addresses, ids := See(db, c.sight.name), See(db, c.sight.address), See(db, c.sight.id);
    AddedForm(db, shost, c);
    FirstName(names, shost, c.names);
    FirstAddress(addresses, c.ips);
    FirstId(ids, c.ids);
  }

  /** What an add makes of the old records: nothing, or the holder of the address that it takes is marked. It is exactly
      when it is seen, the address is plain, the answer lets it be replaced and the removal does not fail. */
  ghost predicate HolderIsMarked(db: seq<Line>, base: seq<Line>, t: IpTry, visible: bool)
    requires t.ip.Some?
  {
    if visible && IsPlain(t.ip.value) && !NobodyIsAt(db, t.ip.value) && !t.ioFails then
      t.mayReplace && exists m: nat :: Marks(db, base, m) && db[m].ip == t.ip.value
    else base == db
  }

  /** The records after an add that appends an agent: those it could copy, with at most the holder marked, and the new
      one. */
  lemma {:induction false} AddRecords(db: seq<Line>, shost: string, c: Command)
    requires Consistent(db) && c.Add?
    ensures var (db', l) := Added(db, shost, c);
      l.Some? ==>
        exists k: nat, base: seq<Line> ::
          && TakesAddress(See(db, c.sight.address), c.ips, k)
          && HolderIsMarked(db, base, c.ips[k], c.sight.address)
          && db' == (if c.copies then base else []) + [l.value]
  {
    hide Added, TakesAddress, Settles, SettledBy, HolderIsMarked, Consistent, NewAgent;
    AddedForm(db, shost, c);
    if Succeeds(db, shost, c) {
      var k := First(c.ips, GoodAddress(See(db, c.sight.address)));
      FirstAddress(See(db, c.sight.address), c.ips);
      SettledMeans(db, Chosen(db, c), c.sight.address);
    }
  }

  lemma {:induction false} SettledMeans(db: seq<Line>, t: IpTry, visible: bool)
    requires Consistent(db) && t.ip.Some? && Settles(See(db, visible), t)
    ensures HolderIsMarked(db, SettledBy(db, visible, t), t, visible)
  {
    hide NobodyIsAt, IsPlain;
    HeldMeans(db, t.ip.value);
    if visible && IsHeld(db, t.ip.value) && !t.ioFails {
      var k := First(db, ByIp(t.ip.value));
      assert ById(db[k].id, true)(db[k]);
      assert First(db, ById(db[k].id, true)) == k;
      assert Marks(db, Settled(db, t), k);
    }
  }

  // ---------------------------------------------------------------- the bulk load

  ghost predicate EntryIsGood(db: seq<Line>, e: BulkEntry) {
    && IsValidName(e.name) && NobodyIsNamed(See(db, e.sight.name), e.name)
    && e.ip.Some? && (!IsPlain(e.ip.value) || NobodyIsAt(See(db, e.sight.address), e.ip.value))
    && (NobodyHas(See(db, e.sight.id), Decimal3(132512)) || NobodyHas(See(db, e.sight.id), Decimal3(132513)))
  }

  /** The largest number up to 132512 that an agent has, or zero. */
  ghost predicate IsLargest(db: seq<Line>, last: nat) {
    && last <= 132512 && (last == 0 || !NobodyHas(db, Decimal3(last)))
    && forall j :: last < j <= 132512 ==> NobodyHas(db, Decimal3(j))
  }

  /** A good line appends its agent with the number behind the largest; any other line does nothing. */
  lemma {:induction false} EntryMeaning(db: seq<Line>, e: BulkEntry)
    ensures if EntryIsGood(db, e) then
      exists last: nat ::
        && IsLargest(See(db, e.sight.id), last)
        && Loaded(db, e) == db + [Agent(Decimal3(last + 1), Live, e.name, e.ip.value, e.key)]
      else Loaded(db, e) == db
    ensures Stops(db, e) <==> EntryIsGood(db, e) && e.writeFails
  {
    hide NobodyHas, NobodyIsNamed, NobodyIsAt, IsPlain, IsTaken, IsHeld, Decimal3, First, IsValidName, LastUsed, See;
    var seen := See(db, e.sight.id);
    forall j: nat ensures IsTaken(seen, Decimal3(j)) <==> !NobodyHas(seen, Decimal3(j)) {
      TakenMeans(seen, Decimal3(j));
    }
    NameMeans(See(db, e.sight.name), e.name);
    if e.ip.Some? {
      HeldMeans(See(db, e.sight.address), e.ip.value);
    }
    assert IsLargest(seen, LastUsed(seen));
  }

  /** The lines of a load come one after the other, up to one that cannot be written. */
  lemma {:induction false} LoadOneMore(db: seq<Line>, entries: seq<BulkEntry>, n: nat)
    requires n < |entries| && forall j :: 0 <= j < n ==> !entries[j].writeFails
    ensures var before := Load(db, entries[..n]);
      && (entries[n].writeFails && EntryIsGood(before, entries[n]) ==> Load(db, entries) == before)
      && (!(entries[n].writeFails && EntryIsGood(before, entries[n])) ==>
            Load(db, entries[..n + 1]) == Loaded(before, entries[n]))
    decreases n
  {
    hide Loaded, EntryIsGood;
    EntryMeaning(Load(db, entries[..n]), entries[n]);
    if n == 0 {
      assert entries[..1][1..] == [] && entries[..0] == [];
    } else {
      EntryMeaning(db, entries[0]);
      var rest := entries[1..];
      LoadOneMore(Loaded(db, entries[0]), rest, n - 1);
      assert entries[..n][1..] == rest[..n - 1] && entries[..n + 1][1..] == rest[..n];
    }
  }

  // ---------------------------------------------------------------- the removal

  /** The removal marks record `m`: answer `k` is the first one that names an agent, be it a removed one; the record is
      the first live one with that identifier. */
  ghost predicate Removes(db: seq<Line>, c: Command, k: nat, m: nat)
    requires c.Remove?
  {
    && c.confirmed && !c.ioFails && k < |c.inputs| && m < |db|
    && !NobodyHas(See(db, c.readable), FormatId(c.inputs[k]))
    && (forall j :: 0 <= j < k ==> NobodyHas(See(db, c.readable), FormatId(c.inputs[j])))
    && db[m].Agent? && db[m].mark == Live && db[m].id == FormatId(c.inputs[k])
    && forall i :: 0 <= i < m && db[i].Agent? && db[i].mark == Live ==> db[i].id != FormatId(c.inputs[k])
  }

  /** Exactly the record that the command removes comes out marked, and nothing else changes. */
  ghost predicate IsRemoval(db: seq<Line>, db': seq<Line>, c: Command)
    requires c.Remove?
  {
    if exists k: nat, m: nat :: Removes(db, c, k, m) then
      exists k: nat, m: nat :: Removes(db, c, k, m) && Marks(db, db', m)
    else db' == db
  }

  lemma {:induction false} NamedFirst(db: seq<Line>, c: Command, k: nat)
    requires c.Remove? && k < |c.inputs|
    ensures First(c.inputs, Names(See(db, c.readable))) == k <==>
      && !NobodyHas(See(db, c.readable), FormatId(c.inputs[k]))
      && forall j :: 0 <= j < k ==> NobodyHas(See(db, c.readable), FormatId(c.inputs[j]))
  {
    hide IsTaken, NobodyHas, FormatId;
    var seen := See(db, c.readable);
    forall j | 0 <= j < |c.inputs|
      ensures Names(seen)(c.inputs[j]) <==> !NobodyHas(seen, FormatId(c.inputs[j]))
    {
      TakenMeans(seen, FormatId(c.inputs[j]));
    }
  }

  lemma {:induction false} LiveFirst(db: seq<Line>, id: string, m: nat)
    requires m < |db|
    ensures First(db, ById(id, true)) == m <==>
      && db[m].Agent? && db[m].mark == Live && db[m].id == id
      && forall i :: 0 <= i < m && db[i].Agent? && db[i].mark == Live ==> db[i].id != id
  {
    if First(db, ById(id, true)) == m {
      forall i | 0 <= i < m && db[i].Agent? && db[i].mark == Live ensures db[i].id != id {
        assert !ById(id, true)(db[i]);
      }
    }
  }

  /** Whether the removal finds a record, and that it then is that one. */
  lemma {:induction false} RemovalMeaning(db: seq<Line>, c: Command)
    requires c.Remove?
    ensures IsRemoval(db, RemovedBy(db, c), c)
    ensures var k := First(c.inputs, Names(See(db, c.readable)));
      (exists i: nat, m: nat :: Removes(db, c, i, m)) <==>
        k < |c.inputs| && c.confirmed && !c.ioFails && First(db, ById(FormatId(c.inputs[k]), true)) < |db|
  {
    hide NobodyHas, FormatId, See, First, ById;
    var k := First(c.inputs, Names(See(db, c.readable)));
    forall i: nat, m: nat | Removes(db, c, i, m)
      ensures i == k && First(db, ById(FormatId(c.inputs[k]), true)) == m
    {
      NamedFirst(db, c, i);
      LiveFirst(db, FormatId(c.inputs[i]), m);
    }
    if k < |c.inputs| {
      NamedFirst(db, c, k);
      var m := First(db, ById(FormatId(c.inputs[k]), true));
      if m < |db| {
        LiveFirst(db, FormatId(c.inputs[k]), m);
        if c.confirmed && !c.ioFails {
          assert Removes(db, c, k, m) && Marks(db, RemovedBy(db, c), m);
        }
      }
    }
  }

  /** No live agent has this identifier. */
  ghost predicate IsGone(db: seq<Line>, id: string) {
    forall m :: 0 <= m < |db| && db[m].Agent? && db[m].mark == Live ==> db[m].id != id
  }

  lemma {:induction false} GoneOnceMarked(db: seq<Line>, m: nat)
    requires Consistent(db) && m < |db| && db[m].Agent? && db[m].mark != Live
    ensures IsGone(db, db[m].id)
  {
  }

  lemma {:induction false} SameRemoval(db: seq<Line>, c: Command, k: nat, m: nat, i: nat, n: nat)
    requires c.Remove? && Removes(db, c, k, m) && Removes(db, c, i, n)
    ensures k == i && m == n
  {
    hide NobodyHas, FormatId;
    assert !(k < i) && !(i < k);
    assert !(m < n) && !(n < m);
  }

  lemma {:induction false} RemovedRecord(db: seq<Line>, c: Command, k: nat, m: nat)
    requires c.Remove? && Removes(db, c, k, m)
    ensures Marks(db, RemovedBy(db, c), m) && db[m].id == FormatId(c.inputs[k])
  {
    hide NobodyHas, FormatId, RemovedBy;
    RemovalMeaning(db, c);
    var i: nat, n: nat :| Removes(db, c, i, n) && Marks(db, RemovedBy(db, c), n);
    SameRemoval(db, c, k, m, i, n);
  }

  lemma {:induction false} RecordsStayFrom(db: seq<Line>, shost: string, cs: seq<Command>, i: nat, j: nat)
    requires i <= j <= |cs| && forall k :: i <= k < j ==> !AddWipes(Session(db, shost, cs[..k]), shost, cs[k])
    ensures Persists(Session(db, shost, cs[..i]), Session(db, shost, cs[..j]))
    decreases j
  {
    hide AddWipes, Apply, Session;
    if i < j {
      RecordsStayFrom(db, shost, cs, i, j - 1);
      OneMoreCommand(db, shost, cs, j - 1);
      ApplyPersists(Session(db, shost, cs[..j - 1]), shost, cs[j - 1]);
      PersistsTrans(Session(db, shost, cs[..i]), Session(db, shost, cs[..j - 1]), Session(db, shost, cs[..j]));
    }
  }

  /** A removed agent is live at no later point of a session at which identifiers are unique, as long as no add in
      between wipes the records. */
  lemma {:induction false} RemovedForGood(
    db: seq<Line>, shost: string, cs: seq<Command>, i: nat, j: nat, k: nat, m: nat)
    requires i < j <= |cs| && cs[i].Remove? && Removes(Session(db, shost, cs[..i]), cs[i], k, m)
    requires forall n :: i < n < j ==> !AddWipes(Session(db, shost, cs[..n]), shost, cs[n])
    ensures Consistent(Session(db, shost, cs[..j])) ==>
      IsGone(Session(db, shost, cs[..j]), FormatId(cs[i].inputs[k]))
  {
    hide AddWipes, Session, FormatId, RemovedBy, NobodyHas, Consistent, IsGone;
    var s, t, u := Session(db, shost, cs[..i]), Session(db, shost, cs[..i + 1]), Session(db, shost, cs[..j]);
    OneMoreCommand(db, shost, cs, i);
    RemovedRecord(s, cs[i], k, m);
    RecordsStayFrom(db, shost, cs, i + 1, j);
    assert t[m].mark == Bang && t[m].id == FormatId(cs[i].inputs[k]);
    if Consistent(u) {
      GoneOnceMarked(u, m);
    }
  }

  /** If the key file can always be read, a removed agent is live at no later point, whatever else fails. */
  lemma {:induction false} RemovedInSeeingSession(
    db: seq<Line>, shost: string, cs: seq<Command>, i: nat, j: nat, k: nat, m: nat)
    requires i < j <= |cs| && cs[i].Remove?
    ensures
      && Consistent(db) && (forall n :: 0 <= n < |cs| ==> IsInput(cs[n]) && Sees(cs[n]))
      && Removes(Session(db, shost, cs[..i]), cs[i], k, m)
      ==> IsGone(Session(db, shost, cs[..j]), FormatId(cs[i].inputs[k]))
  {
    hide Session, IsInput, Sees, Clashes, Shares, AddWipes, Consistent, FormatId, Removes, IsGone;
    if Consistent(db) && (forall n :: 0 <= n < |cs| ==> IsInput(cs[n]) && Sees(cs[n]))
       && Removes(Session(db, shost, cs[..i]), cs[i], k, m)
    {
      forall n | 0 <= n < |cs|
        ensures !AddWipes(Session(db, shost, cs[..n]), shost, cs[n])
        ensures !Clashes(Session(db, shost, cs[..n]), shost, cs[n])
      {
        SeeingIsSound(Session(db, shost, cs[..n]), shost, cs[n]);
      }
      HoldsUpTo(db, shost, cs, j, false);
      RemovedForGood(db, shost, cs, i, j, k, m);
    }
  }
}
