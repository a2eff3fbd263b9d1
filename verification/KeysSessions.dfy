/** Sessions of adds, bulk loads and removals on the list of records: exactly when identifiers, names and addresses stay
    unique and records stay in place, for every failure to read and to write. */
module KeysSessions {
  import opened CText
  import opened AgentIds
  import opened KeysFile
  import opened KeysRecords
  import opened KeysCommands

  ghost function Apply(db: seq<Line>, shost: string, c: Command): seq<Line> {
    match c
    case Add(_, _, _, _, _, _, _, _) => Added(db, shost, c).0
    case Bulk(entries) => Load(db, entries)
    case Remove(_, _, _, _) => RemovedBy(db, c)
  }

  ghost function Session(db: seq<Line>, shost: string, cs: seq<Command>): seq<Line> {
    if cs == [] then db else Apply(Session(db, shost, cs[..|cs| - 1]), shost, cs[|cs| - 1])
  }

  /** The command appends a record with an identifier or a name that another one has. */
  ghost predicate Clashes(db: seq<Line>, shost: string, c: Command) {
    AddClashes(db, shost, c) || (c.Bulk? && LoadClashes(db, c.entries))
  }

  /** The command appends a record with a plain address that a live agent has. */
  ghost predicate Shares(db: seq<Line>, shost: string, c: Command) {
    AddShares(db, shost, c) || (c.Bulk? && LoadShares(db, c.entries))
  }

  // ---------------------------------------------------------------- one command

  lemma {:induction false} OnlyAddsWipe(db: seq<Line>, db': seq<Line>, shost: string, c: Command)
    ensures !c.Add? ==> !AddWipes(db, shost, c)
    ensures db <= db' ==> Persists(db, db')
  {
    hide Succeeds, NewAgent;
  }

  lemma {:induction false} RemovedPersists(db: seq<Line>, id: string)
    ensures Persists(db, Removed(db, id))
  {
  }

  lemma {:induction false} ApplyPersists(db: seq<Line>, shost: string, c: Command)
    ensures Persists(db, Apply(db, shost, c)) <==> !AddWipes(db, shost, c)
  {
    hide Added, Load, AddWipes, Persists, Removed, First, See;
    OnlyAddsWipe(db, Apply(db, shost, c), shost, c);
    match c
    case Add(_, _, _, _, _, _, _, _) => AddedPersists(db, shost, c);
    case Bulk(entries) => LoadAppends(db, entries);
    case Remove(inputs, _, _, readable) =>
      var k := First(inputs, Names(See(db, readable)));
      if k < |inputs| {
        RemovedPersists(db, FormatId(inputs[k]));
      }
  }

  lemma {:induction false} ApplyIs(db: seq<Line>, shost: string, c: Command)
    requires Consistent(db) && IsInput(c)
    ensures Consistent(Apply(db, shost, c)) <==> !Clashes(db, shost, c)
    ensures UniqueIps(db) ==> (UniqueIps(Apply(db, shost, c)) <==> !Shares(db, shost, c))
  {
    hide Consistent, UniqueIps, Added, Load, Removed, IsEntry, IsAddress, Succeeds, LoadClashes, LoadShares;
    match c
    case Add(_, _, _, _, _, _, _, _) => AddedIs(db, shost, c);
    case Bulk(entries) => LoadIs(db, entries);
    case Remove(inputs, _, _, readable) =>
      var k := First(inputs, Names(See(db, readable)));
      if k < |inputs| {
        RemovedKeeps(db, FormatId(inputs[k]));
      }
  }

  // ---------------------------------------------------------------- all points of a session

  /** What is to stay: consistency and, if asked for, unique plain addresses. */
  ghost predicate Holds(db: seq<Line>, ips: bool) { Consistent(db) && (ips ==> UniqueIps(db)) }

  ghost predicate Breaks(db: seq<Line>, shost: string, c: Command, ips: bool) {
    Clashes(db, shost, c) || (ips && Shares(db, shost, c))
  }

  lemma {:induction false} OneMoreCommand(db: seq<Line>, shost: string, cs: seq<Command>, i: nat)
    requires i < |cs|
    ensures Session(db, shost, cs[..i + 1]) == Apply(Session(db, shost, cs[..i]), shost, cs[i])
  {
    hide Apply;
    assert cs[..i + 1][..i] == cs[..i];
  }

  lemma {:induction false} HoldsOneMore(db: seq<Line>, shost: string, cs: seq<Command>, i: nat, ips: bool)
    requires i < |cs| && forall j :: 0 <= j < |cs| ==> IsInput(cs[j])
    ensures Holds(Session(db, shost, cs[..i]), ips) ==>
      (Holds(Session(db, shost, cs[..i + 1]), ips) <==> !Breaks(Session(db, shost, cs[..i]), shost, cs[i], ips))
  {
    hide Consistent, Apply, Session, IsInput, UniqueIps, Clashes, Shares;
    OneMoreCommand(db, shost, cs, i);
    if Consistent(Session(db, shost, cs[..i])) {
      ApplyIs(Session(db, shost, cs[..i]), shost, cs[i]);
    }
  }

  lemma {:induction false} HoldsUpTo(db: seq<Line>, shost: string, cs: seq<Command>, i: nat, ips: bool)
    requires Holds(db, ips) && i <= |cs| && forall j :: 0 <= j < |cs| ==> IsInput(cs[j])
    requires forall j :: 0 <= j < i ==> !Breaks(Session(db, shost, cs[..j]), shost, cs[j], ips)
    ensures Holds(Session(db, shost, cs[..i]), ips)
    decreases i
  {
    hide Holds, Apply, IsInput, Breaks;
    if i > 0 {
      HoldsUpTo(db, shost, cs, i - 1, ips);
      HoldsOneMore(db, shost, cs, i - 1, ips);
    }
  }

  lemma {:induction false} HoldsThroughout(db: seq<Line>, shost: string, cs: seq<Command>, ips: bool)
    requires Holds(db, ips) && forall i :: 0 <= i < |cs| ==> IsInput(cs[i])
    ensures (forall i :: 0 <= i <= |cs| ==> Holds(Session(db, shost, cs[..i]), ips)) <==>
            (forall i :: 0 <= i < |cs| ==> !Breaks(Session(db, shost, cs[..i]), shost, cs[i], ips))
  {
    hide Holds, Session, IsInput, Breaks;
    if forall i :: 0 <= i <= |cs| ==> Holds(Session(db, shost, cs[..i]), ips) {
      forall i | 0 <= i < |cs| ensures !Breaks(Session(db, shost, cs[..i]), shost, cs[i], ips) {
        HoldsOneMore(db, shost, cs, i, ips);
      }
    }
    if forall i :: 0 <= i < |cs| ==> !Breaks(Session(db, shost, cs[..i]), shost, cs[i], ips) {
      forall i | 0 <= i <= |cs| ensures Holds(Session(db, shost, cs[..i]), ips) {
        HoldsUpTo(db, shost, cs, i, ips);
      }
    }
  }

  /** Identifiers, removed records included, and the names of live agents are unique at every point of a session exactly
      when no command of it appends a record that clashes where it comes. */
  lemma {:induction false} IdsStayUnique(db: seq<Line>, shost: string, cs: seq<Command>)
    requires Consistent(db) && forall i :: 0 <= i < |cs| ==> IsInput(cs[i])
    ensures (forall i :: 0 <= i <= |cs| ==> Consistent(Session(db, shost, cs[..i]))) <==>
            (forall i :: 0 <= i < |cs| ==> !Clashes(Session(db, shost, cs[..i]), shost, cs[i]))
  {
    hide Consistent, Session, IsInput, Clashes, Shares;
    HoldsThroughout(db, shost, cs, false);
    forall i | 0 <= i <= |cs|
      ensures Holds(Session(db, shost, cs[..i]), false) <==> Consistent(Session(db, shost, cs[..i]))
    {
    }
    forall i | 0 <= i < |cs|
      ensures Breaks(Session(db, shost, cs[..i]), shost, cs[i], false) <==>
              Clashes(Session(db, shost, cs[..i]), shost, cs[i])
    {
    }
  }

  /** So are plain addresses besides, exactly when no command appends a record with one that is held either. */
  lemma {:induction false} AddressesStayUnique(db: seq<Line>, shost: string, cs: seq<Command>)
    requires Consistent(db) && UniqueIps(db) && forall i :: 0 <= i < |cs| ==> IsInput(cs[i])
    ensures (forall i :: 0 <= i <= |cs| ==>
               Consistent(Session(db, shost, cs[..i])) && UniqueIps(Session(db, shost, cs[..i]))) <==>
            (forall i :: 0 <= i < |cs| ==>
               && !Clashes(Session(db, shost, cs[..i]), shost, cs[i])
               && !Shares(Session(db, shost, cs[..i]), shost, cs[i]))
  {
    hide Consistent, Session, IsInput, UniqueIps, Clashes, Shares;
    HoldsThroughout(db, shost, cs, true);
    forall i | 0 <= i <= |cs|
      ensures Holds(Session(db, shost, cs[..i]), true) <==>
              Consistent(Session(db, shost, cs[..i])) && UniqueIps(Session(db, shost, cs[..i]))
    {
    }
    forall i | 0 <= i < |cs|
      ensures Breaks(Session(db, shost, cs[..i]), shost, cs[i], true) <==>
              Clashes(Session(db, shost, cs[..i]), shost, cs[i]) || Shares(Session(db, shost, cs[..i]), shost, cs[i])
    {
    }
  }

  /** At every step of a session records are only marked, or added behind the others, exactly when no add of it wipes
      them where it comes. */
  lemma {:induction false} RecordsStay(db: seq<Line>, shost: string, cs: seq<Command>)
    ensures (forall i :: 0 <= i < |cs| ==> Persists(Session(db, shost, cs[..i]), Session(db, shost, cs[..i + 1]))) <==>
            (forall i :: 0 <= i < |cs| ==> !AddWipes(Session(db, shost, cs[..i]), shost, cs[i]))
  {
    hide Session, Persists, AddWipes, Apply;
    forall i | 0 <= i < |cs|
      ensures Persists(Session(db, shost, cs[..i]), Session(db, shost, cs[..i + 1])) <==>
              !AddWipes(Session(db, shost, cs[..i]), shost, cs[i])
    {
      OneMoreCommand(db, shost, cs, i);
      ApplyPersists(Session(db, shost, cs[..i]), shost, cs[i]);
    }
    if forall i :: 0 <= i < |cs| ==> Persists(Session(db, shost, cs[..i]), Session(db, shost, cs[..i + 1])) {
      forall i | 0 <= i < |cs| ensures !AddWipes(Session(db, shost, cs[..i]), shost, cs[i]) {
        assert Persists(Session(db, shost, cs[..i]), Session(db, shost, cs[..i + 1]));
      }
    }
  }

  lemma {:induction false} RecordsStayThroughout(db: seq<Line>, shost: string, cs: seq<Command>, i: nat)
    requires i <= |cs| && forall j :: 0 <= j < |cs| ==> !AddWipes(Session(db, shost, cs[..j]), shost, cs[j])
    ensures Persists(db, Session(db, shost, cs[..i]))
    decreases i
  {
    hide AddWipes, Apply;
    if i > 0 {
      RecordsStayThroughout(db, shost, cs, i - 1);
      OneMoreCommand(db, shost, cs, i - 1);
      ApplyPersists(Session(db, shost, cs[..i - 1]), shost, cs[i - 1]);
      PersistsTrans(db, Session(db, shost, cs[..i - 1]), Session(db, shost, cs[..i]));
    }
  }

  /** Then an identifier belongs to one agent for ever. */
  lemma {:induction false} IdStaysWithItsAgent(db: seq<Line>, db': seq<Line>, m: nat, k: nat)
    requires Persists(db, db') && Consistent(db') && m < |db| && db[m].Agent?
    requires k < |db'| && db'[k].Agent? && db'[k].id == db[m].id
    ensures k == m && db'[k].(mark := db[m].mark) == db[m]
  {
    assert db'[m].Agent? && db'[m].id == db[m].id;
  }

  // ---------------------------------------------------------------- sessions that can read the key file

  predicate Sees(c: Command) {
    match c
    case Add(_, _, _, _, _, _, sight, copies) => sight == ALL_SEEN && copies
    case Bulk(entries) => forall i :: 0 <= i < |entries| ==> entries[i].sight == ALL_SEEN
    case Remove(_, _, _, _) => true
  }

  lemma {:induction false} SeeingLoadIsSound(db: seq<Line>, entries: seq<BulkEntry>)
    requires forall i :: 0 <= i < |entries| ==> entries[i].sight == ALL_SEEN
    ensures !LoadClashes(db, entries) && !LoadShares(db, entries)
    decreases |entries|
  {
    hide EntryClashes, EntryShares, Loaded;
    if entries != [] {
      SeeingEntryIsSound(db, entries[0]);
      SeeingLoadIsSound(Loaded(db, entries[0]), entries[1..]);
    }
  }

  lemma {:induction false} SeeingIsSound(db: seq<Line>, shost: string, c: Command)
    requires Sees(c) && IsInput(c)
    ensures !AddWipes(db, shost, c) && !Clashes(db, shost, c)
    ensures Shares(db, shost, c) ==> c.Add? && exists t :: t in c.ips && t.ioFails
  {
    hide Succeeds, LoadClashes, LoadShares, NewAgent, IsInput, IsHeld, IsTaken;
    match c
    case Add(_, _, _, _, _, _, _, _) =>
      SeeingAddIsSound(db, shost, c);
      SharingAddFails(db, shost, c);
    case Bulk(entries) => SeeingLoadIsSound(db, entries);
    case Remove(_, _, _, _) =>
  }

  lemma {:induction false} SharingAddFails(db: seq<Line>, shost: string, c: Command)
    requires c.Add? && c.sight == ALL_SEEN
    ensures AddShares(db, shost, c) ==> exists t :: t in c.ips && t.ioFails
  {
    hide IsHeld, NewId;
    if AddShares(db, shost, c) {
      assert Chosen(db, c) in c.ips;
    }
  }

  /** If the key file can always be read, then over every session, whatever writes fail, identifiers stay unique for
      ever, removed records included, the names of live agents stay unique, and records are only added or marked. */
  lemma {:induction false} SeeingSessionIs(db: seq<Line>, shost: string, cs: seq<Command>)
    requires Consistent(db) && forall i :: 0 <= i < |cs| ==> IsInput(cs[i]) && Sees(cs[i])
    ensures Consistent(Session(db, shost, cs)) && Persists(db, Session(db, shost, cs))
    ensures UniqueIps(db) && (forall i :: 0 <= i < |cs| && cs[i].Add? ==> forall t :: t in cs[i].ips ==> !t.ioFails) ==>
      UniqueIps(Session(db, shost, cs))
  {
    hide Session, IsInput, Sees, Clashes, Shares, AddWipes, Consistent, UniqueIps, Persists;
    forall i | 0 <= i < |cs|
      ensures !AddWipes(Session(db, shost, cs[..i]), shost, cs[i])
      ensures !Clashes(Session(db, shost, cs[..i]), shost, cs[i])
      ensures Shares(Session(db, shost, cs[..i]), shost, cs[i]) ==>
        cs[i].Add? && exists t :: t in cs[i].ips && t.ioFails
    {
      SeeingIsSound(Session(db, shost, cs[..i]), shost, cs[i]);
    }
    assert cs[..|cs|] == cs;
    RecordsStayThroughout(db, shost, cs, |cs|);
    HoldsUpTo(db, shost, cs, |cs|, false);
    if UniqueIps(db) && forall i :: 0 <= i < |cs| && cs[i].Add? ==> forall t :: t in cs[i].ips ==> !t.ioFails {
      HoldsUpTo(db, shost, cs, |cs|, true);
    }
  }

  // ---------------------------------------------------------------- instances

  /** The answers for an agent `beta`, by default the next number, at one address. */
  function AddBeta(t: IpTry, key: string, sight: Sight, copies: bool): Command {
    Add(["beta"], [t], [""], key, true, false, sight, copies)
  }

  const IP := "10.0.0.1"

  lemma {:induction false} PlainIp()
    ensures !IsShareable(IP) && IsAddress(IP) && IsValidName("alpha") && IsValidName("beta")
  {
    assert !("any" <= IP) by { assert "any"[0] != IP[0]; }
  }

  lemma {:induction false} Number(db: seq<Line>, n: nat, text: string)
    requires IsLeastFree(db, n) && text == Decimal3(n) && IsValidId(text)
    ensures NewId(db, "") == Some(text)
  {
    LeastFreeIs(db, n);
    ValueOfDecimal3(n);
    hide FormatId, Decimal3, IsTaken;
    FormatIdCanonical(text);
  }

  lemma {:induction false} FirstTexts()
    ensures Decimal3(1) == "001" && Decimal3(2) == "002" && IsValidId("001") && IsValidId("002")
  {
  }

  lemma {:induction false} NextNumber(a: Line)
    requires a.Agent? && a.id == "001"
    ensures NewId([a], "") == Some("002") && NewId([], "") == Some("001")
  {
    FirstTexts();
    hide Decimal3, FormatId, NewId, IsValidId;
    assert ById("001", false)([a][0]) && !ById("002", false)([a][0]);
    assert IsLeastFree([a], 2);
    Number([a], 2, "002");
    assert IsLeastFree([], 1);
    Number([], 1, "001");
  }

  /** What an add of `beta` comes to when the answer for the address is good. */
  lemma {:induction false} AddBetaIs(a: Line, t: IpTry, shost: string, key: string, sight: Sight, copies: bool)
    requires a.Agent? && a.id == "001" && a.name != "beta" && shost != "beta"
    requires t.ip == Some(IP) && Settles(See([a], sight.address), t) && SettledBy([a], sight.address, t) == [a]
    ensures var b := Agent(if sight.id then "002" else "001", Live, "beta", IP, key);
      Added([a], shost, AddBeta(t, key, sight, copies)) == (See([a], copies) + [b], Some(b))
  {
    hide NewId, Settles, SettledBy, IsFreeName, First, ById, ByName, ByIp;
    NextNumber(a);
    BetaIsFree(a, shost, sight.name);
    OneAnswer(t, GoodAddress(See([a], sight.address)));
    OneAnswer("beta", GoodName(See([a], sight.name), shost));
    OneAnswer("", GoodId(See([a], sight.id)));
  }

  lemma {:induction false} OneAnswer<T>(x: T, test: T -> bool)
    ensures First([x], test) == if test(x) then 0 else 1
  {
    assert [x][1..] == [];
  }

  lemma {:induction false} BetaIsFree(a: Line, shost: string, visible: bool)
    requires a.Agent? && a.name != "beta" && shost != "beta"
    ensures IsFreeName(See([a], visible), shost, "beta")
  {
    PlainIp();
    OneAnswer(a, ByName("beta"));
  }

  lemma {:induction false} AlphaIsFine(a: Line, key: string)
    requires IsKey(key) && (a == Agent("001", Live, "alpha", IP, key) || a == Agent("001", Bang, "alpha", IP, key))
    ensures Consistent([a]) && UniqueIps([a])
  {
    AloneIsFine(a);
  }

  lemma {:induction false} BetaIsInput(t: IpTry, key: string, sight: Sight, copies: bool)
    requires IsKey(key) && t.ip == Some(IP)
    ensures IsInput(AddBeta(t, key, sight, copies))
  {
    PlainIp();
  }

  lemma {:induction false} NothingHeld(t: IpTry)
    requires t.ip.Some?
    ensures Settles([], t)
  {
  }

  lemma {:induction false} HolderStays(a: Line)
    requires HoldsIp(a, IP)
    ensures var t := IpTry(Some(IP), true, true); Settles([a], t) && SettledBy([a], true, t) == [a]
  {
    hide Removed;
    PlainIp();
    OneAnswer(a, ByIp(IP));
  }

  /** Two live agents with one plain address: the answer settles on the address of the first agent, whose removal
      fails, and the second agent is added all the same. */
  lemma {:induction false} DuplicateAddress(shost: string, key: string)
    requires IsKey(key) && shost != "beta"
    ensures var a, b := Agent("001", Live, "alpha", IP, key), Agent("002", Live, "beta", IP, key);
      var c := AddBeta(IpTry(Some(IP), true, true), key, ALL_SEEN, true);
      && Consistent([a]) && UniqueIps([a]) && IsInput(c)
      && Added([a], shost, c) == ([a, b], Some(b)) && !UniqueIps([a, b])
  {
    var a, b := Agent("001", Live, "alpha", IP, key), Agent("002", Live, "beta", IP, key);
    var t := IpTry(Some(IP), true, true);
    hide Added, Consistent, IsValidName, IsAddress, IsKey, IsInput, Settles, SettledBy, AddBeta, IsShareable;
    PlainIp();
    AlphaIsFine(a, key);
    BetaIsInput(t, key, ALL_SEEN, true);
    HolderStays(a);
    AddBetaIs(a, t, shost, key, ALL_SEEN, true);
    assert [a] + [b] == [a, b];
    assert [a, b][0].ip == [a, b][1].ip && IsLive([a, b][0]) && IsLive([a, b][1]);
  }

  /** An add that cannot read the key file replaces it: the removed agent 001 is gone, and 001 is given again. */
  lemma {:induction false} BlindAdd(shost: string, key: string)
    requires IsKey(key) && shost != "beta"
    ensures var a, b := Agent("001", Bang, "alpha", IP, key), Agent("001", Live, "beta", IP, key);
      var c := AddBeta(IpTry(Some(IP), false, false), key, BLIND, false);
      && Consistent([a]) && IsInput(c)
      && Added([a], shost, c) == ([b], Some(b)) && !Persists([a], [b]) && AddWipes([a], shost, c)
  {
    var a, b := Agent("001", Bang, "alpha", IP, key), Agent("001", Live, "beta", IP, key);
    var t := IpTry(Some(IP), false, false);
    var c := AddBeta(t, key, BLIND, false);
    hide Added, Consistent, IsValidName, IsAddress, IsKey, AddWipes, IsInput, Settles;
    AlphaIsFine(a, key);
    BetaIsInput(t, key, BLIND, false);
    assert Settles([], t) by {
      NothingHeld(t);
    }
    AddBetaIs(a, t, shost, key, BLIND, false);
    assert [] + [b] == [b];
    assert [a][0] != [b][0] && [b][0] != [a][0].(mark := Bang);
    AddedPersists([a], shost, c);
  }

  /** A line of a bulk load that cannot read the key file appends the same agent once more. */
  lemma {:induction false} BlindLoad(key: string)
    requires IsKey(key)
    ensures var a := Agent("001", Live, "alpha", IP, key);
      var e := BulkEntry("alpha", Some(IP), key, false, BLIND);
      && Consistent([a]) && UniqueIps([a]) && IsEntry(e)
      && Load([a], [e]) == [a, a] && !UniqueIds([a, a]) && !UniqueNames([a, a]) && !UniqueIps([a, a])
  {
    var a := Agent("001", Live, "alpha", IP, key);
    var e := BulkEntry("alpha", Some(IP), key, false, BLIND);
    PlainIp();
    AlphaIsFine(a, key);
    BlindNumber(a, e);
    LoadOne([a], e);
    hide Load, Loaded, Consistent, IsAddress, IsKey, IsShareable;
    assert [a] + [a] == [a, a];
    assert IsLive([a, a][0]) && IsLive([a, a][1]) && [a, a][0].Agent? && [a, a][1].Agent?;
  }

  lemma {:induction false} BlindNumber(a: Line, e: BulkEntry)
    requires e.sight == BLIND && e.ip.Some? && IsValidName(e.name) && !e.writeFails
    ensures !Stops([a], e) && Loaded([a], e) == [a] + [Agent("001", Live, e.name, e.ip.value, e.key)]
  {
    FirstTexts();
    hide Decimal3, LastUsed, IsValidName, IsShareable;
    assert IsLastUsed([], 0);
    LastUsedIs([], 0);
  }

  lemma {:induction false} LoadOne(db: seq<Line>, e: BulkEntry)
    requires !Stops(db, e)
    ensures Load(db, [e]) == Loaded(db, e)
  {
    hide Stops, Loaded;
    assert [e][1..] == [];
    assert Load(Loaded(db, e), []) == Loaded(db, e);
  }
}
