/** Registering and removing agents while the registration daemon is down: the interactive add, the bulk load
    and the removal, as they work on the key file. What a user types, what the address check makes of it,
    the generated keys and the failures to read and to write are inputs. */
module KeysRegistry {
  import opened CText
  import opened AgentIds
  import opened KeysFile
  import opened KeysRecords
  import opened KeysCommands
  import opened KeysSessions
  import opened KeysMeaning

  lemma {:induction false} FirstIs<T>(s: seq<T>, test: T -> bool, k: nat)
    requires k < |s| && test(s[k]) && forall i :: 0 <= i < k ==> !test(s[i])
    ensures First(s, test) == k
  {
  }

  lemma {:induction false} UsedIsTaken(db: seq<Line>, id: string)
    requires AllWellFormed(db)
    ensures Used(RenderAll(db), id) <==> IsTaken(db, id)
  {
    IdScanOfRender(db, id, false);
  }

  lemma {:induction false} DefaultIsLeastFree(db: seq<Line>, n: nat)
    requires AllWellFormed(db) && n > 0 && !Used(RenderAll(db), Decimal3(n))
    requires forall j :: 0 < j < n ==> Used(RenderAll(db), Decimal3(j))
    ensures IsLeastFree(db, n)
  {
    hide Used, RenderAll, IsTaken, Decimal3;
    UsedIsTaken(db, Decimal3(n));
    forall j | 0 < j < n ensures IsTaken(db, Decimal3(j)) {
      UsedIsTaken(db, Decimal3(j));
    }
  }

  lemma {:induction false} UsedNumbers(db: seq<Line>, last: nat)
    requires AllWellFormed(db) && last <= DEFAULT_ID && (last == 0 || Used(RenderAll(db), Decimal3(last)))
    requires forall j :: last < j <= DEFAULT_ID ==> !Used(RenderAll(db), Decimal3(j))
    ensures IsLastUsed(db, last)
    ensures Used(RenderAll(db), Decimal3(DEFAULT_ID)) <==> IsTaken(db, Decimal3(DEFAULT_ID))
    ensures Used(RenderAll(db), Decimal3(DEFAULT_ID + 1)) <==> IsTaken(db, Decimal3(DEFAULT_ID + 1))
  {
    hide Used, RenderAll, IsTaken, Decimal3;
    UsedIsTaken(db, Decimal3(last));
    UsedIsTaken(db, Decimal3(DEFAULT_ID));
    UsedIsTaken(db, Decimal3(DEFAULT_ID + 1));
    forall j | last < j <= DEFAULT_ID ensures !IsTaken(db, Decimal3(j)) {
      UsedIsTaken(db, Decimal3(j));
    }
  }

  lemma {:induction false} FreeNameExactly(db: seq<Line>, shost: string, name: string)
    ensures IsFreeName(db, shost, name) <==> IsValidName(name) && name != shost && First(db, ByName(name)) == |db|
  {
  }

  /** What is seen of the file is what is seen of the records. */
  lemma {:induction false} SeenIs(db: seq<Line>, readable: bool)
    requires AllWellFormed(db)
    ensures Seen(RenderAll(db), readable) == RenderAll(See(db, readable)) && AllWellFormed(See(db, readable))
  {
    assert RenderAll([]) == "";
  }

  /** The answers that an add settles on can be written as a record. */
  lemma {:induction false} GoodAnswers(db: seq<Line>, shost: string, c: Command)
    requires c.Add? && IsInput(c) && Succeeds(db, shost, c)
    ensures var l := NewAgent(db, shost, c);
      IsAddress(l.ip) && IsKey(c.key) && IsValidName(l.name) && IsValidId(l.id) && l.id != ""
  {
    hide Succeeds, NewAgent, IsAddress, IsKey, IsValidName, IsValidId, See;
    NewAgentFits(db, shost, c);
    FreeNameExactly(See(db, c.sight.name), shost, NewAgent(db, shost, c).name);
  }

  class Registry {
    const file: KeysFile
    /** The records that the file holds. */
    ghost var db: seq<Line>

    ghost predicate Valid()
      reads this, file
    {
      file.content == RenderAll(db) && AllWellFormed(db)
    }

    constructor (file: KeysFile, ghost db: seq<Line>)
      requires file.content == RenderAll(db) && AllWellFormed(db)
      ensures Valid() && this.file == file && this.db == db
    {
      this.file := file;
      this.db := db;
    }

    method IdTaken(id: string, readable: bool) returns (found: bool)
      requires Valid()
      modifies file`fpPos
      ensures Valid()
      ensures found <==> IsTaken(See(db, readable), id)
    {
      hide Used, RenderAll;
      SeenIs(db, readable);
      UsedIsTaken(See(db, readable), id);
      found := file.IdExist(id, false, readable);
    }

    method NameTaken(name: string, readable: bool) returns (found: bool)
      requires Valid() && IsValidName(name)
      ensures found <==> First(See(db, readable), ByName(name)) < |See(db, readable)|
    {
      hide Scan, RenderAll, See, Seen, First;
      SeenIs(db, readable);
      NameScanOfRender(See(db, readable), name);
      found := file.NameExist(name, readable);
    }

    /** The identifier of the first live agent with that address. */
    method IpHolder(ip: string, readable: bool) returns (id: Option<string>)
      requires Valid()
      ensures var seen := See(db, readable);
        id == if IsHeld(seen, ip) then Some(seen[First(seen, ByIp(ip))].id) else None
    {
      hide Scan, RenderAll, ReadAt, HasId, IsShareable, IpTest, ByIp;
      SeenIs(db, readable);
      IpScanOfRender(See(db, readable), ip);
      id := file.IpExist(ip, readable);
      NoRecords(ip);
    }

    lemma {:induction false} NoRecords(ip: string)
      ensures Scan("", IpTest(ip)) == 0
    {
    }

    /** The move of the rewritten file is taken to be all or nothing. */
    method Tombstone(id: string, ioFails: bool) returns (ok: bool)
      requires Valid()
      modifies this, file
      ensures Valid()
      ensures ok <==> !ioFails && First(old(db), ById(id, true)) < |old(db)|
      ensures db == if ok then Removed(old(db), id) else old(db)
    {
      hide Scan, Tombstoned, RenderAll, IdTest, ById, AllWellFormed, First;
      IdScanOfRender(db, id, true);
      TombstonedOfRender(db, id);
      ok := file.RemoveAgent(id, if ioFails then Fails else Works);
      if ok {
        db := Removed(db, id);
      }
    }

    /** Writes one more record, behind the others or, if they are not copied, in their place. */
    method Append(id: string, name: string, ip: string, key: string, copies: bool)
      requires Valid()
      requires IsValidId(id) && id != "" && IsValidName(name) && IsAddress(ip) && IsKey(key)
      modifies this, file
      ensures Valid()
      ensures db == See(old(db), copies) + [Agent(id, Live, name, ip, key)]
    {
      ghost var l := Agent(id, Live, name, ip, key);
      hide RenderAll, IsValidId, IsValidName, IsAddress, IsKey, WellFormed;
      PartsFit(id, name, ip, key);
      SeenIs(db, copies);
      RenderAppend(See(db, copies), [l]);
      RenderOne(l);
      var kept := if copies then file.content else "";
      file.content := kept + (id + [' '] + (name + [' '] + (ip + [' '] + (key + "\n"))));
      db := See(db, copies) + [l];
    }

    /** Ask for a name until one is valid, not the server's own and not taken. */
    method ChooseName(shost: string, names: seq<string>, readable: bool) returns (name: Option<string>)
      requires Valid()
      ensures var k := First(names, GoodName(See(db, readable), shost));
        name == if k < |names| then Some(names[k]) else None
    {
      hide First, IsFreeName, See;
      for i := 0 to |names|
        invariant forall j :: 0 <= j < i ==> !GoodName(See(db, readable), shost)(names[j])
      {
        var valid := CheckName(names[i]);
        var taken := true;
        if valid && names[i] != shost {
          taken := NameTaken(names[i], readable);
        }
        FreeNameExactly(See(db, readable), shost, names[i]);
        if !taken {
          FirstIs(names, GoodName(See(db, readable), shost), i);
          return Some(names[i]);
        }
      }
      return None;
    }

    /** Ask for an address until one is valid and free. The holder of a plain address may be removed instead;
        the outcome of that removal is not looked at. */
    method ChooseIp(tries: seq<IpTry>, readable: bool) returns (ip: Option<string>)
      requires Valid()
      modifies this, file
      ensures Valid()
      ensures var k := First(tries, GoodAddress(See(old(db), readable)));
        if k < |tries| then ip.Some? && ip == tries[k].ip && db == SettledBy(old(db), readable, tries[k])
        else ip == None && db == old(db)
    {
      hide First, IsHeld, RenderAll, AllWellFormed;
      for i := 0 to |tries|
        invariant Valid() && db == old(db)
        invariant forall j :: 0 <= j < i ==> !GoodAddress(See(old(db), readable))(tries[j])
      {
        if tries[i].ip == None {
          continue;
        }
        ip := tries[i].ip;
        var holder := IpHolder(ip.value, readable);
        NobodySeen(ip.value);
        if holder == None {
          FirstIs(tries, GoodAddress(See(db, readable)), i);
          return;
        }
        if tries[i].mayReplace {
          FirstIs(tries, GoodAddress(See(db, readable)), i);
          HolderIsLive(db, ip.value);
          var _ := Tombstone(holder.value, tries[i].ioFails);
          return;
        }
      }
      ip := None;
    }

    lemma {:induction false} NobodySeen(ip: string)
      ensures !IsHeld([], ip)
    {
    }

    lemma {:induction false} HolderIsLive(db: seq<Line>, ip: string)
      requires IsHeld(db, ip)
      ensures First(db, ById(db[First(db, ByIp(ip))].id, true)) < |db|
    {
      assert ById(db[First(db, ByIp(ip))].id, true)(db[First(db, ByIp(ip))]);
    }

    /** Ask for an identifier until one is valid and free, offering the least free number each time. */
    method ChooseId(ids: seq<string>, readable: bool) returns (id: Option<string>)
      requires Valid()
      modifies file`fpPos
      ensures Valid()
      ensures var seen := See(db, readable);
        var k := First(ids, GoodId(seen));
        if k < |ids| then id.Some? && id == NewId(seen, ids[k]) else id == None
    {
      hide First, FormatId, IsValidId, Decimal3, IsLeastFree, RenderAll, Used, LeastFree, IsTaken, See, Seen;
      ghost var seen := See(db, readable);
      SeenIs(db, readable);
      for i := 0 to |ids|
        invariant Valid()
        invariant forall j :: 0 <= j < i ==> !GoodId(seen)(ids[j])
      {
        var text, n := file.DefaultId(readable);
        DefaultIsLeastFree(seen, n);
        LeastFreeIs(seen, n);
        if ids[i] != "" && ids[i] != "0" {
          text := ids[i];
        }
        var valid := CheckId(text);
        if valid {
          text := FormatId(text);
        }
        var taken := IdTaken(text, readable);
        if !taken && valid {
          FirstIs(ids, GoodId(seen), i);
          return Some(text);
        }
      }
      return None;
    }

    /** `add_agent`. Running out of input stands for the user giving up. */
    method AddAgent(shost: string, c: Command) returns (added: Option<Line>)
      requires Valid() && c.Add? && IsInput(c)
      modifies this, file
      ensures Valid()
      ensures (db, added) == Added(old(db), shost, c)
    {
      hide RenderAll, AllWellFormed, SettledBy, Settles, IsFreeName, NewId, IsAddress, IsKey, IsValidId, IsValidName,
        See, First, NewAgent, Succeeds, Chosen;
      added := None;
      var name := ChooseName(shost, c.names, c.sight.name);
      if name == None {
        return;
      }
      var ip := ChooseIp(c.ips, c.sight.address);
      if ip == None {
        return;
      }
      var id := ChooseId(c.ids, c.sight.id);
      if id == None || !c.confirmed || c.writeFails {
        return;
      }
      AddedForm(old(db), shost, c);
      GoodAnswers(old(db), shost, c);
      Append(id.value, name.value, ip.value, c.key, c.copies);
      added := Some(Agent(id.value, Live, name.value, ip.value, c.key));
    }

    /** `k_bulkload`. */
    method BulkLoad(entries: seq<BulkEntry>)
      requires Valid() && IsInput(Bulk(entries))
      modifies this, file
      ensures Valid() && db == Load(old(db), entries)
    {
      hide IsEntry, Loaded, Stops, AllWellFormed, RenderAll;
      assert entries[0..] == entries;
      for i := 0 to |entries|
        invariant Valid() && Load(db, entries[i..]) == Load(old(db), entries)
      {
        assert entries[i..][1..] == entries[i + 1..];
        var stopped := BulkOne(entries[i]);
        if stopped {
          return;
        }
      }
    }

    /** One line; a write that fails ends the load. */
    method BulkOne(e: BulkEntry) returns (stopped: bool)
      requires Valid() && IsEntry(e)
      modifies this, file
      ensures Valid() && (stopped <==> Stops(old(db), e))
      ensures db == if stopped then old(db) else Loaded(old(db), e)
    {
      hide Decimal3, RenderAll, IsTaken, Used, LastUsed, AllWellFormed, IsHeld, Seen, IsAddress, IsKey, IsValidName,
        IsValidId, ByName, IsLastUsed;
      stopped := false;
      var valid := CheckName(e.name);
      if !valid {
        return;
      }
      var taken := NameTaken(e.name, e.sight.name);
      if taken || e.ip == None {
        return;
      }
      var holder := IpHolder(e.ip.value, e.sight.address);
      if holder.Some? {
        return;
      }
      SeenIs(db, e.sight.id);
      var id, last := file.BulkId(e.sight.id);
      UsedNumbers(See(db, e.sight.id), last);
      LastUsedIs(See(db, e.sight.id), last);
      if id == None {
        return;
      }
      if e.writeFails {
        return true;
      }
      NumberIsShort(last + 1);
      Append(id.value, e.name, e.ip.value, e.key, true);
    }

    /** `remove_agent`. */
    method RemoveCommand(c: Command) returns (ok: bool)
      requires Valid() && c.Remove?
      modifies this, file
      ensures Valid() && db == RemovedBy(old(db), c)
      ensures var k := First(c.inputs, Names(See(old(db), c.readable)));
        ok <==> k < |c.inputs| && c.confirmed && !c.ioFails
                && First(old(db), ById(FormatId(c.inputs[k]), true)) < |old(db)|
      ensures IsRemoval(old(db), db, c) && (ok <==> exists k: nat, m: nat :: Removes(old(db), c, k, m))
    {
      hide FormatId, First, RenderAll, AllWellFormed, IsTaken, See, IsRemoval, Removes;
      RemovalMeaning(db, c);
      ghost var seen := See(db, c.readable);
      for i := 0 to |c.inputs|
        invariant Valid() && db == old(db)
        invariant forall j :: 0 <= j < i ==> !Names(seen)(c.inputs[j])
      {
        var id := FormatId(c.inputs[i]);
        var exist := IdTaken(id, c.readable);
        if exist {
          FirstIs(c.inputs, Names(seen), i);
          if !c.confirmed {
            return false;
          }
          ok := Tombstone(id, c.ioFails);
          RemovedNone(old(db), id);
          return;
        }
      }
      return false;
    }

    lemma {:induction false} RemovedNone(db: seq<Line>, id: string)
      ensures First(db, ById(id, true)) == |db| ==> Removed(db, id) == db
    {
    }

    /** Any run of adds, bulk loads and removals. */
    method RunSession(shost: string, cs: seq<Command>)
      requires Valid() && forall i :: 0 <= i < |cs| ==> IsInput(cs[i])
      modifies this, file
      ensures Valid() && db == Session(old(db), shost, cs)
    {
      hide Added, Load, RemovedBy, IsInput, AllWellFormed, RenderAll;
      for i := 0 to |cs|
        invariant Valid() && db == Session(old(db), shost, cs[..i])
      {
        assert cs[..i + 1][..i] == cs[..i];
        match cs[i] {
          case Add(_, _, _, _, _, _, _, _) =>
            var _ := AddAgent(shost, cs[i]);
          case Bulk(entries) =>
            BulkLoad(entries);
          case Remove(_, _, _, _) =>
            var _ := RemoveCommand(cs[i]);
        }
      }
      assert cs[..|cs|] == cs;
    }
  }
}
