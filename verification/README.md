# Verified models of Wazuh components

This project models eight parts of the Wazuh manager and API in Dafny and proves what they are for. `dafny verify
dfyconfig.toml` checks all of it.

- **The event memory of the analysis engine** (`EventMemory.dfy`): the doubly linked list of past events that
  composite rules search, with its sentinel node and its eviction loop, on the heap. Every insertion keeps the chain
  intact; the list holds exactly the newest events of the whole history, never more than its bound; an event that is
  recent enough in number and in time is still in it; and an eviction keeps exactly the newest event and those that are
  neither among the ten oldest nor too old.
- **The agent registry** (`AgentIds.dfy`, `KeysFile.dfy`, `KeysRecords.dfy`, `KeysCommands.dfy`, `KeysSessions.dfy`,
  `KeysMeaning.dfy`, `KeysRegistry.dfy`): the key file as bytes, searched with bounded line reads and edited in place by a tombstone of
  one character, refines a list of records; over every session of adds, bulk loads and removals it is said exactly when
  identifiers stay unique for ever, names and addresses of live agents stay unique, and records stay in place. What each
  command adds, marks or leaves alone is said by the records alone, and a removed agent is live at no later point.
- **The event accumulator** (`Accumulator.dfy`, `AccumulatorPurge.dfy`, `AccumulatorMeaning.dfy`): merging the fields of related events in a
  store with expiry. Purging the store cannot be seen from outside on a clock that does not go back, and every field
  of every output is given by the earlier events of the same host, decoder and identifier.
- **The syslog pre-decoder** (`Syslog.dfy`, `SyslogMeaning.dfy`, `SyslogDates.dfy`, `SyslogRoundTrip.dfy`): splitting a
  header by writing NULs into the buffer and taking them back when a tag turns out not to be one. What it leaves is the
  tail of the line as received, and reading a header like that of section 4.1 of RFC 3164 gives back the parts it was
  written from, for every date format and every form of the tag.
- **The queue framing** (`Framing.dfy`): the escaping of an integration's location text and its parsing by the engine
  are inverse to each other.
- **The active-response lock and the list of denied hosts** (`LockWait.dfy`, `WaitTime.dfy`,
  `LockProtocol.dfy`, `LockProgress.dfy`, `LockFailures.dfy`, `HostsDeny.dfy`, `HostsListing.dfy`): any number of
  processes that share a lock directory, as a state machine over single file-system steps, with crashes, failed calls
  and takeovers by force. The list is what the finished jobs make of it, who ends its hold without a failure is among
  them, and wherever there is no lock a process that is left undisturbed finishes.
- **The agent statistics protocol** (`AgentStats.dfy`): a client pages through a server whose set of agents changes.
- **API limits and file updates** (`RateLimit.dfy`, `RequestLimits.dfy`, `LoginBlock.dfy`, `ConfigUpdate.dfy`,
  `ConfigCrash.dfy`): the request limiters, the login blocker, and replacing a configuration or rule file with a
  backup, with a failure possible at every step.

`CText.dfy` holds the pieces of the C library that several of these rest on. A class or an array stands wherever the
source changes an object or a buffer in place; each such method is proved against a function, and the results about
runs are lemmas about these functions. Clocks, random keys, what a user types, failures of system calls and answers
of other daemons are inputs.

Properties that do not hold of the code as it is, each with the exact condition under which they do:

- A search that cannot open the key file answers that nothing is there. An add that cannot read it writes a file with
  the new agent alone (`BlindAdd`), and a line of a bulk load appends an agent that is there already (`BlindLoad`).
  Records stay in place exactly when no add succeeds without having read them (`AddedPersists`, `RecordsStay`), and
  identifiers and names stay unique exactly when no command appends a record that clashes (`AddedIs`, `LoadIs`,
  `IdsStayUnique`); both hold if the key file can be read (`SeeingSessionIs`).
- An add that replaces the holder of an address ignores that the removal failed. Plain addresses stay unique exactly
  when no command appends one whose holder it did not see or could not remove (`AddedIs`, `AddressesStayUnique`);
  `DuplicateAddress` is an instance.
- The message that the pre-decoder leaves is the tail of the line exactly when the line is neither an AIX-style tag
  `name[digits` that is not closed, which cuts the message short, nor ends in a message identifier `[ID ...]`, where
  the offset of the message is behind the terminating NUL (`LogIsSuffix`, `OffsetInLine`, `IdAtEndOfLine`).
- A printed header is read back for every date format, except that a line of at most 32 characters with an ISO date
  without a fraction is not recognised (`HeaderRoundTrip`, `BareRoundTrip`), and that a date whose month is written with
  an a-umlaut loses its last character (`UmlautRoundTrip`).
- The key of the accumulator tells host, decoder and identifier apart if host and decoder hold no blank
  (`KeyTellsSource`); with a blank, different sources can share a key (`BlankConfuses`).
- An address is mentioned in the list after it was added, unless the rule is written behind an unfinished line so long
  that the line buffer ends inside the address; for dotted addresses this is exact (`AddLists`).
- A forced removal of the lock directory keeps the exclusion exactly when it is not taken from a process that still
  holds it (`ForcedRemovalExact`); `ExclusionCanFail` gives two runs from the start in which it is, one of them after a
  kill whose outcome is not looked at. A process leaves the directory behind exactly when it cannot write its pid or
  cannot remove the pid file or the directory (`LeaveBehind`).
- Deleting a host right after adding it restores the list exactly when the list did not stop in the middle of a line
  (`DeleteUndoesAdd`).
- The statistics client finishes exactly when no 75 active agents in a row are without statistics
  (`FinishesIffNoGap`).
- The purge of the accumulator stays invisible exactly on clocks on which no entry that may have been dropped is
  young enough later (`PurgeInvisibleIff`).
- The general limit does not hold for `/events`. A minute can see `2 max + 1` other requests and 61 for `/events`, and
  no more (`MinuteOfBoth`, `MinuteOfBothIsReached`). An address with at most `k` logins in flight can fail
  `max(1, limit) + k - 1` times, and no more (`FailuresBounded`, `BoundIsReached`).
- A failed upload of a new rule file leaves it in place when overwriting was allowed, or when the test of the rules
  ends with an exception that is not a `WazuhError` (`UploadIsAtomic`, `UploadPromise`, `InvalidRulesStay`). A backup
  left by an earlier call replaces the configuration when a later update fails early; `DisturbsIff` and
  `LastSuccessStays` say exactly when an older content comes back.

## Model

| member | source | states |
|---|---|---|
| `EventMemory.Retention` | src/analysisd/eventinfo_list.c:58-80 | On every history with times that do not go back, an event among the newest `maxSize - 9` and not older than the frequency is kept. |
| `EventMemory.TrimDropsEnough` | src/analysisd/eventinfo_list.c:60-79 | An eviction drops ten events, or all but the newest. |
| `EventMemory.TrimKeepsYoung` | src/analysisd/eventinfo_list.c:60-79 | Beyond the first ten, an eviction drops only events too old for any rule. |
| `EventMemory.TrimDropsOld` | src/analysisd/eventinfo_list.c:67-68 | An eviction leaves only the newest event, or an oldest one that is not older than the frequency. |
| `EventMemory.EvictionKeeps` | src/analysisd/eventinfo_list.c:60-79 | For times that do not go back, an eviction keeps exactly the newest event and those that are neither among the ten oldest nor older than the frequency. |
| `EventMemory.Kept` | src/analysisd/eventinfo_list.c:36-111 | After any history the list is within its bound and not empty once an event was added. |
| `EventMemory.EventList.constructor` | src/analysisd/eventinfo_list.c:16-24 | A new list is valid, empty and bounded as asked. |
| `EventMemory.EventList.AddEvent` | src/analysisd/eventinfo_list.c:36-111 | Inserting keeps the doubly linked chain and the back pointers of all events and records the event as the newest. Below the bound nothing is dropped; otherwise only the new event is left, or at least ten are dropped and the oldest left is not older than the frequency. |
| `EventMemory.EventList.LinkAfterSentinel` | src/analysisd/eventinfo_list.c:40-56 | The new node goes between the sentinel and the newest; the rest of the chain is as before. |
| `EventMemory.EventList.Splice` | src/analysisd/eventinfo_list.c:45-53 | Pointing the two neighbours at the new node makes the chain longer by that node and changes no other link. |
| `EventMemory.EventList.LinkFirst` | src/analysisd/eventinfo_list.c:81-101 | The first insertion creates the sentinel and a chain of one. |
| `EventMemory.EventList.EvictOldest` | src/analysisd/eventinfo_list.c:58-80 | The loop leaves only the new node, or drops at least ten nodes and leaves an oldest event that is not older than the frequency. |
| `EventMemory.EventList.DropLast` | src/analysisd/eventinfo.c:709-722 | Freeing the event of the last node cuts exactly that node off. |
| `EventMemory.EventList.Attach` | src/analysisd/eventinfo_list.c:103-104 | The new node and the new event point at each other. |
| `EventMemory.EventList.StillListed` | src/analysisd/eventinfo_list.c:36-111 | Retention on the list itself: the event is in the chain, on its own node. |
| `AgentIds.CheckId` | src/addagent/validate.c:201-225 | Accepts exactly texts of at most eight digits. |
| `AgentIds.CheckName` | src/addagent/validate.c:340-358 | Accepts exactly names of 2 to 128 allowed characters. |
| `AgentIds.StrtolPrint3` | src/addagent/validate.c:668-678 | Every 32-bit number printed with three digits is read back. |
| `AgentIds.FormatIdIdempotent` | src/addagent/validate.c:668-678 | Formatting twice is formatting once, for every text. |
| `AgentIds.FormatIdCanonical` | src/addagent/validate.c:668-678 | A valid identifier is formatted to the valid text of its number. |
| `AgentIds.FormatIdByNumber` | src/addagent/validate.c:668-678 | Two valid identifiers get one form exactly when they are the same number. |
| `KeysFile.KeysFile.ScanFor` | src/addagent/validate.c:305-335 | The read loop stops at the first read that passes the test, on any bytes. |
| `KeysFile.KeysFile.IdExist` | src/addagent/validate.c:288-337 | Finds the first line with the identifier, if there is one, and leaves the file position at its first byte; finds nothing in a file that cannot be opened. |
| `KeysFile.KeysFile.NameExist` | src/addagent/validate.c:370-422 | True exactly when the file can be opened and a live line has the name. |
| `KeysFile.KeysFile.IpExist` | src/addagent/validate.c:425-477 | Gives the identifier on the first live line with an address that may not be shared, and none if the file cannot be opened. |
| `KeysFile.KeysFile.RemoveAgent` | src/addagent/validate.c:74-164 | Succeeds exactly when a live line has the identifier and the rewrite works; then the file is the tombstoned one. If a fallback copy breaks off, its first bytes are left; otherwise the file is unchanged. |
| `KeysFile.TombstonedIsOneByte` | src/addagent/validate.c:121-140 | On every file the edit inserts one character behind the identifier and changes no other byte. |
| `KeysFile.TombstonedOfLines` | src/addagent/validate.c:74-164 | On a file of whole lines exactly one line changes. |
| `KeysFile.ScanOfLines` | src/addagent/validate.c:288-337 | On a file of whole lines a search stops at the start of the first line that passes. |
| `KeysFile.KeysFile.DefaultId` | src/addagent/manage_agents.c:326 | The search for a default identifier ends on every file, at the least number not in use as far as the file can be read. |
| `KeysFile.Pigeonhole` | src/addagent/manage_agents.c:326 | A file cannot use up more default identifiers than it has lines. |
| `KeysFile.KeysFile.BulkId` | src/addagent/manage_keys.c:414-441 | Gives one more than the largest number in use up to 132512, and none exactly when that one and its successor are in use. |
| `KeysFile.KeysFile.LastUsed` | src/addagent/manage_keys.c:416-429 | The countdown finds the largest number in use, or zero. |
| `KeysRecords.LineMeaning` | src/addagent/validate.c:288-477 | The three searches see a written record as that record. |
| `KeysRecords.IdScanOfRender` | src/addagent/validate.c:288-337 | The byte-level search by identifier is the search in the list of records. |
| `KeysRecords.NameScanOfRender` | src/addagent/validate.c:370-422 | The byte-level search by name is the search in the list of records. |
| `KeysRecords.IpScanOfRender` | src/addagent/validate.c:425-477 | The byte-level search by address finds the first live record with it and its identifier. |
| `KeysRecords.TombstonedOfRender` | src/addagent/validate.c:74-164 | The byte edit is the marking of one record, and the file stays well formed. |
| `KeysRecords.RenderInjective` | src/addagent/manage_agents.c:424 | A file determines its records. |
| `KeysCommands.AppendKeeps` | src/addagent/manage_agents.c:424 | One more live record keeps the registry consistent exactly when its identifier and its name are free. |
| `KeysCommands.AppendKeepsIps` | src/addagent/manage_agents.c:424 | It keeps plain addresses unique exactly when its address is shareable or not held. |
| `KeysCommands.RemovedKeeps` | src/addagent/validate.c:74-164 | Marking a record keeps the registry consistent and frees no identifier. |
| `KeysCommands.RemovedFreesIp` | src/addagent/manage_agents.c:303-304 | Once the holder of a plain address is removed, nobody holds it. |
| `KeysRegistry.Registry.ChooseName` | src/addagent/manage_agents.c:158-200 | Takes the first answer that is valid, not the server's name and not in use, and none exactly when there is none. |
| `KeysRegistry.Registry.ChooseIp` | src/addagent/manage_agents.c:203-321 | Takes the first address that is free or whose holder may be replaced, removes that holder only, and goes on if the removal fails. |
| `KeysRegistry.Registry.ChooseId` | src/addagent/manage_agents.c:323-364 | Takes the identifier of the first answer that gives a free one, and none exactly when there is none. |
| `KeysRegistry.Registry.AddAgent` | src/addagent/manage_agents.c:84-479 | The add on the key file is the add on the records, for every list of answers and every failure to read or write. |
| `KeysCommands.AddedIs` | src/addagent/manage_agents.c:84-479 | Told by the records before, the answers and what can be read: an agent is appended exactly when every question has a good answer, it is confirmed and the file can be written; identifiers and names stay unique exactly when it does not clash, plain addresses exactly when it does not share one whose holder it did not see or could not remove. |
| `KeysCommands.AddedPersists` | src/addagent/manage_agents.c:393-427 | An add keeps the old records, but for marks, exactly when it does not succeed without having read them. |
| `KeysCommands.AddMarksHolder` | src/addagent/manage_agents.c:303-304 | It marks at most the holder of the address that it settles on, and only if that may be replaced. |
| `KeysCommands.SeeingAddIsSound` | src/addagent/manage_agents.c:84-479 | An add that can read the key file keeps all records and clashes with none. |
| `KeysCommands.NewIdIsGood` | src/addagent/manage_agents.c:326-364 | The identifier that an answer gives is valid, canonical and free: the text of its number, or of the least free number. |
| `KeysCommands.SomeIsLeastFree` | src/addagent/manage_agents.c:326 | Every registry has a least free number. |
| `KeysSessions.DuplicateAddress` | src/addagent/manage_agents.c:303-304 | An add whose removal of the holder fails ends with two live agents with one address. |
| `KeysSessions.BlindAdd` | src/addagent/manage_agents.c:393-427 | An add that cannot read the key file leaves one record, and gives a removed agent's identifier again. |
| `KeysSessions.BlindLoad` | src/addagent/manage_keys.c:414-475 | A line of a bulk load that cannot read the key file appends an agent with identifier, name and address of another. |
| `KeysRegistry.Registry.BulkOne` | src/addagent/manage_keys.c:353-485 | A line adds its agent, numbered behind the last number in use, exactly when name, address and number are free as far as the file can be read; a failing write ends the load. |
| `KeysRegistry.Registry.BulkLoad` | src/addagent/manage_keys.c:353-485 | The load on the key file is the load on the records. |
| `KeysCommands.LoadIs` | src/addagent/manage_keys.c:353-485 | A load only adds records behind the others; it keeps identifiers and names unique exactly when no line of it clashes where it comes, and plain addresses exactly when none shares one. |
| `KeysRegistry.Registry.RemoveCommand` | src/addagent/manage_agents.c:481-612 | Says ok exactly when a live record has the identifier of the first answer that names an agent, it is confirmed and no write fails; then exactly that record is marked, otherwise nothing changes. |
| `KeysMeaning.RemovalMeaning` | src/addagent/manage_agents.c:481-612 | Told by the records alone: the removal marks the first live record with the identifier of the first answer that names an agent, exactly when there is one, it is confirmed and no write fails; otherwise nothing changes. |
| `KeysMeaning.RemovedForGood` | src/addagent/manage_agents.c:481-612 | A removed agent is live at no later point of a session at which identifiers are unique, as long as no add wipes the records. |
| `KeysMeaning.RemovedInSeeingSession` | src/addagent/manage_agents.c:481-612 | If the key file can always be read, it is live at no later point, whatever else fails. |
| `KeysMeaning.AddMeaning` | src/addagent/manage_agents.c:84-479 | The new agent has the first name that is valid, not the server's and no live agent's, the first address that is free, shareable or may be replaced, and the identifier of the first answer that gives an unused one; nothing is added only if some question has no such answer, it is not confirmed or the file cannot be written. |
| `KeysMeaning.AddRecords` | src/addagent/manage_agents.c:303-427 | Besides, exactly the holder of a plain address that is seen, may be replaced and can be removed is marked; the other records are as they were. |
| `KeysMeaning.EntryMeaning` | src/addagent/manage_keys.c:353-485 | A line appends its agent with the number behind the largest in use exactly when name, address and number are free; any other line does nothing. |
| `KeysMeaning.LoadOneMore` | src/addagent/manage_keys.c:353-485 | The lines of a load come one after the other, up to one that cannot be written. |
| `KeysRegistry.Registry.RunSession` | src/addagent/manage_agents.c:84-612 | A session on any well-formed key file is the session on its records, whatever fails. |
| `KeysSessions.IdsStayUnique` | src/addagent/manage_agents.c:84-612 | Identifiers, removed records included, and names of live agents are unique at every point of a session exactly when no command of it appends a record that clashes where it comes. |
| `KeysSessions.RecordsStay` | src/addagent/manage_agents.c:84-612 | At every step of a session records are only marked or added behind the others exactly when no add of it wipes them. |
| `KeysSessions.IdStaysWithItsAgent` | src/addagent/manage_agents.c:84-612 | Then an identifier belongs to one agent for ever. |
| `KeysSessions.SeeingSessionIs` | src/addagent/manage_agents.c:84-612 | If the key file can be read, both hold over every session, whatever writes fail, and plain addresses stay unique if no removal fails. |
| `KeysSessions.AddressesStayUnique` | src/addagent/manage_agents.c:84-612 | Plain addresses are unique besides at every point of a session exactly when no command of it appends one that is held. |
| `Accumulator.Accumulator.Accumulate` | src/analysisd/accumulator.c:97-237 | One call updates store, counters and event as specified; identifier, decoder and host stay, and an event without a key comes out as it went in. |
| `Accumulator.Accumulator.CleanUpStore` | src/analysisd/accumulator.c:239-294 | A purge drops exactly the entries that have expired. |
| `Accumulator.PurgeInvisible` | src/analysisd/accumulator.c:97-294 | On every run with a clock that does not go back, every output is that of an accumulator that never purges. |
| `AccumulatorPurge.PurgeInvisibleIff` | src/analysisd/accumulator.c:97-294 | For every sequence of clock readings: no events show the purge exactly when nothing that a purge may have dropped is young enough at a later reading. |
| `AccumulatorPurge.CallShowsPurge` | src/analysisd/accumulator.c:97-294 | In one call the purge shows exactly when it is due, drops the entry of the event, and that entry is fresh at the second reading and would fill a field. |
| `AccumulatorPurge.SteadyClockIsSafe` | src/analysisd/accumulator.c:251-294 | A positive clock that does not go back is such a clock. |
| `AccumulatorPurge.FieldMeaningOnSafeClock` | src/analysisd/accumulator.c:97-237 | On such a clock every output field is given by the history. |
| `Accumulator.OnlyCountPurges` | src/analysisd/accumulator.c:257 | The time test never fires before the count: a purge happens exactly on the count. |
| `Accumulator.EveryTwoHundredthPurges` | src/analysisd/accumulator.c:251-294 | With such a clock exactly every two hundredth call that reaches the test purges, and right after it no entry is older than 120 seconds. |
| `Accumulator.StoreMeaning` | src/analysisd/accumulator.c:97-294 | What the purged store holds: for every key in it the first values of its last session, and an entry for every key seen in the last 120 seconds. |
| `Accumulator.FieldMeaning` | src/analysisd/accumulator.c:97-237 | Every output field: the event's own value, else the first value of 1 to 80 characters of its session, else as it was. |
| `AccumulatorMeaning.KeyTellsSource` | src/analysisd/accumulator.c:132-136 | Two events whose hosts and decoders hold no blank have one key exactly when host, decoder and identifier are the same. |
| `AccumulatorMeaning.BlankConfuses` | src/analysisd/accumulator.c:132-136 | With a blank in the host, two different sources share a key. |
| `AccumulatorMeaning.FieldBySource` | src/analysisd/accumulator.c:97-237 | Without such blanks, an empty field gets the first value of 1 to 80 characters that an event of the same host, decoder and identifier brought, from where these follow each other within 120 seconds; other fields come out as they are. |
| `AccumulatorMeaning.OutputKeeps` | src/analysisd/accumulator.c:97-140 | Identifier, decoder and host never change, and an event without identifier or decoder, or with too long a key, comes out as it went in. |
| `Syslog.PreDecode` | src/analysisd/cleanevent.c:71-352 | The in-place header split gives the buffer and the parts that the specification gives, on every line. |
| `Syslog.ExtractPid` | src/analysisd/cleanevent.c:233-264 | `[pid]` is cut off, or the walk back over the digits restores the buffer as it was. |
| `Syslog.ExtractProgram` | src/analysisd/cleanevent.c:209-326 | The program name branches, with the one cut that each makes. |
| `Syslog.ExtractAixTag` | src/analysisd/cleanevent.c:266-321 | The tag behind an AIX facility and severity. |
| `Syslog.SkipId` | src/analysisd/cleanevent.c:328-346 | Skips a Solaris message identifier. |
| `Syslog.ExtractTag` | src/analysisd/cleanevent.c:162-346 | Host name, tag and message behind a date. |
| `SyslogMeaning.LogIsSuffix` | src/analysisd/cleanevent.c:94-352 | The message is a tail of the line, byte for byte, exactly when the line is not an unclosed AIX form and does not end in a message identifier. |
| `SyslogMeaning.OffsetInLine` | src/analysisd/cleanevent.c:328-346 | The offset of the message is behind the terminating NUL exactly when the line ends in a message identifier. |
| `SyslogRoundTrip.IdAtEndOfLine` | src/analysisd/cleanevent.c:339-344 | A line on which it is. |
| `SyslogMeaning.UnknownTagIsKept` | src/analysisd/cleanevent.c:244-264 | If no program is recognised, everything behind the host name is left as received. |
| `SyslogDates.DateIsSeen` | src/analysisd/cleanevent.c:94-155 | For each date format, a text that looks like it is found to be a date of its length; an ISO date without a fraction only on a line of more than 32 characters. |
| `SyslogDates.UmlautIsSeen` | src/analysisd/cleanevent.c:71-84 | A month with an a-umlaut is found to be a date, one byte too short. |
| `SyslogRoundTrip.HeaderRoundTrip` | src/analysisd/cleanevent.c:94-346 | For every date format, host, form of the tag and message, the parts of the printed line are read back, the message without its identifier if it has one; a short line with an ISO date without a fraction is left as it is. |
| `SyslogRoundTrip.BareRoundTrip` | src/analysisd/cleanevent.c:179-192 | The same for a line without host name. |
| `SyslogRoundTrip.UmlautRoundTrip` | src/analysisd/cleanevent.c:71-84 | The same for a month with an a-umlaut, where the date loses its last character. |
| `SyslogRoundTrip.HostRoundTrip` | src/analysisd/cleanevent.c:94-207 | A date, an extra blank or none, and a host name are recognised, whatever follows. |
| `SyslogRoundTrip.TagRoundTrip` | src/analysisd/cleanevent.c:209-321 | Every form of the tag is read back: with or without process number, colon and blank, and behind an AIX facility and severity. |
| `SyslogRoundTrip.UnclosedPidIsKept` | src/analysisd/cleanevent.c:244-264 | A tag whose bracket is not closed leaves all behind the host name untouched. |
| `Framing.FindSeparator` | src/shared/string_op.c:317-333 | Finds the first separator that is not escaped. |
| `Framing.UnescapeInto` | src/shared/string_op.c:379-412 | Writes the unescaped text, as much as fits. |
| `Framing.SplitFrame` | src/analysisd/cleanevent.c:39-69 | Splits a message into location and log, or refuses it. |
| `Framing.TwoReplacesEscape` | integrations/virustotal.py:307-308 | The two chained replacements escape character by character. |
| `Framing.UnescapeMeaning` | src/shared/string_op.c:379-412 | An escape stands for the character behind it, whatever that is; one at the end stands for itself. |
| `Framing.LocalSource` | src/analysisd/cleanevent.c:543-587 | Every location without a bracket in front belongs to agent 000; an unclosed bracket is the only error. |
| `Framing.ModuleMeaning` | src/analysisd/cleanevent.c:652-662 | The module is what follows the first arrow, or the whole location. |
| `Framing.FrameRoundTrip` | src/analysisd/cleanevent.c:39-69 | Location and log are read back from what was printed, whatever they hold; a location of more than 8450 characters is cut there. |
| `Framing.SourceRoundTrip` | src/analysisd/cleanevent.c:543-587 | Agent id and name are read back from a location. |
| `Framing.RoundTrip` | integrations/virustotal.py:303-309 | Every message an integration sends about an agent is read back as that agent, host, location, module and log. |
| `Framing.RoundTripWith` | src/analysisd/cleanevent.c:652-662 | The same for every module name that needs no escaping. |
| `Framing.LocalRoundTrip` | integrations/virustotal.py:304-305 | Messages about no agent or agent 000 are read back as agent 000, on the host that the pre-decoding found or on the server. |
| `LockWait.WaitCycle` | src/active-response/active_responses.c:489-541 | Whatever pids it reads, a process waits between 625 and 1226 seconds before it takes over. |
| `LockWait.ShortestWait` | src/active-response/active_responses.c:511-541 | The lower bound is reached. |
| `LockWait.LongestWait` | src/active-response/active_responses.c:511-541 | The upper bound is reached. |
| `WaitTime.SleptForPids` | src/active-response/active_responses.c:489-541 | The time slept for pids that change: a round sleeps one second for every round before it and one more for every round so far that read the first pid. |
| `LockProtocol.SafeRuns` | src/active-response/active_responses.c:496-624 | For any number of processes and every careful interleaving, whatever calls fail: one holder at a time, the list is what the finished jobs make of it one after the other, each job done once, the directory left only by a process that died, could not write its pid or could not remove it. |
| `LockProgress.EditsAreDone` | src/active-response/host-deny.c:97-217 | In every careful run, a process that took the lock, is alive and past its edit has its edit in the list, if it did not fail to write its pid, to open the list or to write it. |
| `LockProgress.UndisturbedProcess` | src/active-response/active_responses.c:496-624 | Wherever there is no lock directory, a waiting process that is left undisturbed and does not fail stops within eleven steps; it has then made exactly its edit and left no lock. |
| `LockProgress.LoneProcess` | src/active-response/host-deny.c:97-217 | A process that is alone makes exactly its edit and leaves no lock. |
| `LockProgress.KillerNeverGivesUp` | src/active-response/active_responses.c:541-613 | A process whose takeovers all run a kill command does not give up: in every run it takes the lock, dies or is still trying. |
| `LockProgress.OthersGiveUp` | src/active-response/active_responses.c:541-613 | Without one it tries once more and then gives up. |
| `LockProtocol.RunsKeepRuleOnce` | src/active-response/host-deny.c:97-217 | In every careful interleaving no rule is in the list twice, whatever the list holds at the start. |
| `LockProtocol.StepInv` | src/active-response/active_responses.c:496-624 | Every careful step keeps the invariant. |
| `LockProtocol.StepSerial` | src/active-response/host-deny.c:97-217 | Every step keeps the list equal to the finished jobs one after the other. |
| `LockProtocol.StepOwns` | src/active-response/active_responses.c:496-624 | Every careful step keeps the holder the maker of the directory. |
| `LockProtocol.NoTakeoverIsCareful` | src/active-response/active_responses.c:541-613 | Runs without takeover are careful. |
| `LockProtocol.KillOfHolderIsCareful` | src/active-response/active_responses.c:541-613 | Removing the directory is careful when its maker was killed and did die. |
| `LockProtocol.FairRunsAreCareful` | src/active-response/active_responses.c:541-613 | A run in which every forced removal is of a directory whose maker the process has killed, or holds it no more, is careful. |
| `LockProtocol.ForcedRemovalExact` | src/active-response/active_responses.c:541-613 | After a forced removal the next process to make the directory is the only holder exactly when the removal was careful. |
| `LockProtocol.CarelessBreaksExclusion` | src/active-response/active_responses.c:541-613 | After a careless removal, the next process to try holds the lock beside the first. |
| `LockFailures.ExclusionCanFail` | src/active-response/active_responses.c:496-613 | For any two processes, runs from the start that end with both holding the lock: after a takeover without a kill, and after a kill that was run in vain. |
| `LockFailures.LeaveBehind` | src/active-response/active_responses.c:500-624 | A process that ends its hold leaves the directory exactly when it could not write its pid, or not remove the pid file or the directory. |
| `LockFailures.LeftBehind` | src/active-response/active_responses.c:500-624 | In every careful run, a directory whose maker has ended alive is there because of one of these failures of the maker. |
| `LockFailures.StaysBehind` | src/active-response/active_responses.c:541-624 | A directory left behind is there until a process removes it by force. |
| `HostsDeny.CheckListed` | src/active-response/host-deny.c:117-129 | True exactly when a read mentions the address. |
| `HostsDeny.CopyWithout` | src/active-response/host-deny.c:192-204 | The copy drops exactly the reads that mention the address. |
| `HostsDeny.DeleteKeepsOthers` | src/active-response/host-deny.c:192-204 | A delete keeps, in order, exactly the lines that do not mention the address. |
| `HostsListing.AddLists` | src/active-response/host-deny.c:117-148 | An add keeps the old text in front; afterwards some read mentions the address, unless the buffer ends inside the address behind an unfinished line. |
| `HostsListing.DeleteUnlists` | src/active-response/host-deny.c:192-204 | After a delete no read mentions the address, and the others are there. |
| `HostsDeny.DeleteUndoesAdd` | src/active-response/host-deny.c:97-217 | Deleting after adding restores a list without the address exactly when it does not stop in the middle of a line. |
| `HostsDeny.RuleOnce` | src/active-response/host-deny.c:111-150 | No sequence of adds and deletes puts a rule into any list twice, even one that stops in the middle of a line. |
| `HostsDeny.CountAfterRule` | src/active-response/host-deny.c:117-150 | Writing a rule behind a list without its address adds at most one line that mentions it. |
| `AgentStats.FinishesIffNoGap` | framework/wazuh/stats.py:170-195 | With fixed agents the client finishes exactly when no full page is without statistics. |
| `AgentStats.Complete` | framework/wazuh/stats.py:170-195 | A client that finished has every agent that was active and known in all rounds, whatever else changed. |
| `AgentStats.CollectedAscend` | framework/wazuh/stats.py:170-195 | Whatever changes between pages, no agent is collected twice. |
| `AgentStats.Terminates` | src/analysisd/asyscom.c:128-139 | If in no round 75 active agents in a row are without statistics, the client finishes within a bounded number of rounds, however the agents change. |
| `AgentStats.StuckAtGap` | framework/wazuh/stats.py:170-195 | If 75 such agents are there in all rounds, it does not finish, however the others change. |
| `AgentStats.CollectFor` | framework/wazuh/stats.py:170-195 | The loop, watched for any number of rounds against any server, is the client of the other results. |
| `AgentStats.CollectsExactly` | framework/wazuh/stats.py:170-195 | Against a server that does not change, a client that has finished has exactly the active agents with statistics, in order. |
| `AgentStats.OnlyOffered` | framework/wazuh/stats.py:170-195 | Nothing is collected that was not active and known in some round. |
| `AgentStats.CountIds` | src/analysisd/asyscom.c:133 | Counts the ids up to the end mark. |
| `AgentStats.Chunked` | framework/wazuh/stats.py:146 | The pieces make up the list and none is too long for the server. |
| `RateLimit.Counter.Check` | api/api/middlewares.py:165-177 | One check counts, or starts a window, and answers as specified. |
| `RequestLimits.Handle` | api/api/middlewares.py:183-202 | Both limits are counted on `/events`, and the second decides. |
| `RateLimit.WindowBound` | api/api/middlewares.py:165-177 | Within a window at most `max + 1` requests are accepted, and `max` without the one that starts it. |
| `RateLimit.MinuteBound` | api/api/middlewares.py:165-177 | On every run, any minute sees at most `2 max + 1` accepted requests. |
| `RateLimit.MinuteBoundIsReached` | api/api/middlewares.py:165-177 | For every limit there is a run that reaches it. |
| `RequestLimits.LimitersAreIndependent` | api/api/middlewares.py:183-202 | Each limiter behaves as if its own requests were the only ones. |
| `RequestLimits.MinuteOfBoth` | api/api/middlewares.py:183-202 | In any minute the API accepts at most `2 max + 1` other requests and 61 requests for `/events`. |
| `RequestLimits.EventsIgnoreMax` | api/api/middlewares.py:193-198 | What is accepted on `/events` does not depend on the general limit. |
| `RequestLimits.MinuteOfBothIsReached` | api/api/middlewares.py:183-202 | For every limit a run reaches both bounds in one minute. |
| `LoginBlock.LoginGuard.CheckBlockedIp` | api/api/middlewares.py:123-137 | Forgets an address whose block time is over; rejects exactly the blocked ones. |
| `LoginBlock.LoginGuard.PreventBruteforceAttack` | api/api/error_handler.py:29-39 | Counts a failure and blocks at the limit. |
| `LoginBlock.RejectedIff` | api/api/middlewares.py:123-137 | After every run, a login is rejected exactly when its address has failed as often as allowed since a failure that no later login found over, and the block time from that failure on is not over. |
| `LoginBlock.RecordMeaning` | api/api/error_handler.py:29-39 | A record exists exactly while a period of failures goes on, and holds the time of its first failure and their number. |
| `LoginBlock.FailuresBounded` | api/api/error_handler.py:29-39 | From its first failure to the end of the block time, an address with at most `k` logins in flight fails fewer than `max(1, limit) + k` times. |
| `LoginBlock.BoundIsReached` | api/api/error_handler.py:29-39 | For every limit and every `k` a run reaches that bound. |
| `ConfigUpdate.Files.UpdateOssecConf` | framework/wazuh/manager.py:365-395 | The update, for every way its steps can fail. |
| `ConfigUpdate.Files.UploadRuleFile` | framework/wazuh/rule.py:468-512 | The upload, for every way its steps can fail. |
| `ConfigUpdate.Files.MoveBack` | framework/wazuh/core/utils.py:689-710 | The backup is moved over the target in two steps, either of which may fail. |
| `ConfigUpdate.UpdateSucceeds` | framework/wazuh/manager.py:365-395 | Success exactly when every step succeeds; then the new content is in place and no backup is left. |
| `ConfigUpdate.UpdateFailure` | framework/wazuh/manager.py:365-395 | Which failure the caller sees, a reported error or another exception, for every way the steps can fail. |
| `ConfigUpdate.UpdateIsAtomic` | framework/wazuh/manager.py:365-395 | A failed update changes nothing, exactly under a condition on the copy and the move back. |
| `ConfigUpdate.StaleBackup` | framework/wazuh/manager.py:389-393 | A backup left from before replaces the target when an update fails early. |
| `ConfigUpdate.UploadSucceeds` | framework/wazuh/rule.py:468-512 | Success exactly when every step but the deletion of the old file succeeds; then the new rules are in place. |
| `ConfigUpdate.UploadFailure` | framework/wazuh/rule.py:468-512 | The same for an upload. |
| `ConfigUpdate.UploadIsAtomic` | framework/wazuh/rule.py:468-512 | A failed upload changes nothing, exactly under a condition on how the steps went. |
| `ConfigUpdate.UploadPromise` | framework/wazuh/rule.py:468-512 | With steps that are all or nothing, only new files break the promise, in exactly two cases. |
| `ConfigUpdate.InvalidRulesStay` | framework/wazuh/rule.py:494-503 | An upload of a new file with overwriting allowed that fails and leaves the file. |
| `ConfigUpdate.LastSuccessStays` | framework/wazuh/manager.py:365-395 | Whatever fails in a run of updates or uploads, the content of the last that succeeded stays exactly when no later call disturbs it. |
| `ConfigUpdate.DisturbsIff` | framework/wazuh/rule.py:468-512 | When exactly a failing update or upload leaves another content than it found, an older one from a stale backup included. |
| `ConfigUpdate.BackupAfter` | framework/wazuh/manager.py:376-393 | When exactly a backup is there after a call, and what it holds. |
| `ConfigUpdate.LastSuccessWins` | framework/wazuh/manager.py:365-395 | If copies and moves are all or nothing, after any number of updates the configuration is that of the last that succeeded, and nothing is left behind. |
| `ConfigCrash.UpdateStops` | framework/wazuh/manager.py:365-395 | A process that stops in an update leaves what an update leaves that fails at that point. |
| `ConfigCrash.UploadStops` | framework/wazuh/rule.py:468-512 | The same for an upload over an existing file. |
| `ConfigCrash.OldIsNotLost` | framework/wazuh/manager.py:365-395 | Wherever a process stops in an update or upload of a file before it has succeeded, the old content is still on the disk. |
| `ConfigCrash.NextFailureRestores` | framework/wazuh/manager.py:365-395 | What the next update that fails early puts in place, for every point where the process stopped. |
| `ConfigCrash.PartialContentStays` | framework/wazuh/manager.py:365-395 | If a process stops in the midst of writing, an update that fails later on keeps the content written in part. |
| `ConfigCrash.NothingFromNowhere` | framework/wazuh/rule.py:468-512 | After any run of calls and stops, every content on the disk was there at the start or was brought by one of the calls. |

## Left out

- KeysFile.KeysFile.NameExist: does not model the file position that the search leaves behind, which nothing reads after it; the same holds of IpExist.
- EventMemory.EventList.AddEvent: takes events that are not in the list at the time, as its callers do; an event that is in it would get a second node and be freed with the first. The mutexes around the list and its removal as a whole are not modelled.
- Framing.RoundTrip: is stated for locations that fit the engine's buffer of 8450 characters; longer ones are cut.
- KeysCommands.LoadIs: a write that fails does so before it writes; a record that is written in part is not modelled.
- KeysRegistry.Registry.AddAgent: the move of the new file over the key file is taken to be all or nothing, here and in the other commands, since a file cut in the middle of a line is no list of records; the fallback of `OS_MoveFile` opens the key file for writing before it copies. `KeysFile.KeysFile.RemoveAgent` does cover it. The searches of one question can either all open the key file or none of them.
- NUL characters inside a text: a C string ends there.
- The registry while the registration daemon runs, the answers of the agent database, and the generation of keys by hashing.
- How the lines of a bulk load are split, and the address check: their results are inputs.
- Records too long for one read of 255 characters once marked; the searches are modelled on them too, the correspondence with records is not.
- The converting of host names to agent names, the listing of agents and the import and export of keys.
- The date branches for formats other than syslog (FTP logs, Snort, Suricata, Apache, Apple, Squid), which add cases of the same kind.
- The store of the accumulator is a map; the hash table behind it is not modelled.
- Socket and database errors of the statistics protocol, which end the loop with a report.
- Decoder and list uploads, which follow the rule upload.
- Storage that loses what was written; processes killed in the middle of writing the key file or the list of denied hosts.
