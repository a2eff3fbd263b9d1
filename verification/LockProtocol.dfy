/** Any number of active responses that edit the list of denied hosts, as a state machine over the single steps
    on the file system: the lock directory, the file in it that names its holder, the list and the temporary
    copy that a delete writes. A process that has waited long enough takes the lock over by force. */
module LockProtocol {
  import opened CText
  import opened HostsDeny

  type Pid = int

  datatype Phase =
    | Ready                            // lock() not called yet
    | AtMkdir | AtRead                 // in lock(): try the directory, read the holder's pid,
    | AtSleep(seen: Option<Pid>)       //   sleep, and go round or take over:
    | AtKill(target: Pid)              //   kill the process seen,
    | AtUnlink(killed: bool, slain: Option<Pid>)   // remove the pid file and the directory (`killed`: a kill was
    | AtRmdir(killed: bool, slain: Option<Pid>)    //   run; `slain`: the process that it did kill, if any),
    | AtRetake                         //   and try the directory once more if no kill was run
    | AtWritePid | AtWork | AtAppend | AtRename | AtOwnUnlink | AtOwnRmdir   // the directory is ours
    | Stopped                          // done, or gave up without the lock
    | Leaked                           // could not write the pid file: gave up and left the directory
    | Kept                             // done, but could not remove the directory
    | Dead                             // killed or crashed

  /** Between the successful mkdir and the end of unlock. */
  predicate InHold(ph: Phase) {
    ph.AtWritePid? || ph.AtWork? || ph.AtAppend? || ph.AtRename? || ph.AtOwnUnlink? || ph.AtOwnRmdir?
  }

  predicate Committed(ph: Phase) { ph.AtOwnUnlink? || ph.AtOwnRmdir? || ph.Stopped? || ph.Kept? || ph.Dead? }

  /** `dir` names the process that made the lock directory, `pidFile` what is written in it. `done` lists the
      processes whose edit has taken effect. */
  datatype State = State(
    phase: map<Pid, Phase>, dir: Option<Pid>, pidFile: Option<Pid>, file: string, temp: string, done: seq<Pid>)

  /** What every process is to do, and the list at the start. */
  datatype System = System(jobs: map<Pid, Job>, file: string)

  /** What comes of a `kill` command: it could not be run, it killed the process, or it was run and did nothing.
      The two last look the same to the process that runs it. */
  datatype KillOutcome = NotRun | Kills | NoEffect

  datatype Action =
    | Start(p: Pid)
    | Mkdir(p: Pid, ok: bool)
    | WritePid(p: Pid, ok: bool)
    | ReadPid(p: Pid, ok: bool)
    | Wake(p: Pid)
    | TakeOver(p: Pid, kill: bool)
    | Kill(p: Pid, outcome: KillOutcome)
    | Unlink(p: Pid, ok: bool)
    | Rmdir(p: Pid, ok: bool)
    | Work(p: Pid, ok: bool)
    | Write(p: Pid, ok: bool)
    | Crash(p: Pid)

  function Init(sys: System): State {
    State(map p | p in sys.jobs :: Ready, None, None, sys.file, "", [])
  }

  function Go(s: State, p: Pid, ph: Phase): State { s.(phase := s.phase[p := ph]) }

  /** Whether the directory can be removed. */
  predicate Removes(s: State) { s.dir.Some? && s.pidFile == None }

  /** One step, if the process is at that point. */
  function Step(sys: System, s: State, a: Action): Option<State>
  {
    if a.p !in s.phase || a.p !in sys.jobs then None
    else
      var p, ph := a.p, s.phase[a.p];
      match a
      case Start(_) => if ph.Ready? then Some(Go(s, p, AtMkdir)) else None
      case Mkdir(_, ok) =>
        if !ph.AtMkdir? && !ph.AtRetake? then None
        else if ok && s.dir == None then Some(Go(s.(dir := Some(p)), p, AtWritePid))
        else Some(Go(s, p, if ph.AtMkdir? then AtRead else Stopped))
      case WritePid(_, ok) =>
        if !ph.AtWritePid? then None
        else Some(if ok && s.dir.Some? then Go(s.(pidFile := Some(p)), p, AtWork) else Go(s, p, Leaked))
      case ReadPid(_, ok) => if ph.AtRead? then Some(Go(s, p, AtSleep(if ok then s.pidFile else None))) else None
      case Wake(_) => if ph.AtSleep? then Some(Go(s, p, AtMkdir)) else None
      case TakeOver(_, kill) =>
        if !ph.AtSleep? then None
        else Some(Go(s, p, if kill && ph.seen.Some? then AtKill(ph.seen.value) else AtUnlink(false, None)))
      case Kill(_, outcome) =>
        if !ph.AtKill? then None
        else if outcome == NotRun then Some(Go(s, p, AtUnlink(false, None)))
        else if outcome == NoEffect then Some(Go(s, p, AtUnlink(true, None)))
        else Some(Slay(Go(s, p, AtUnlink(true, Some(ph.target))), ph.target))
      case Unlink(_, ok) =>
        var s' := if ok then s.(pidFile := None) else s;
        if ph.AtUnlink? then
          Some(Go(s', p, if ok then AtRmdir(ph.killed, ph.slain) else AfterForce(ph.killed)))
        else if ph.AtOwnUnlink? then Some(Go(s', p, if ok then AtOwnRmdir else Kept))
        else None
      case Rmdir(_, ok) =>
        var s' := if ok && Removes(s) then s.(dir := None) else s;
        if ph.AtRmdir? then Some(Go(s', p, AfterForce(ph.killed)))
        else if ph.AtOwnRmdir? then Some(Go(s', p, if ok && Removes(s) then Stopped else Kept))
        else None
      case Work(_, ok) => if ph.AtWork? then Some(StartWork(s, p, sys.jobs[p], ok)) else None
      case Write(_, ok) =>
        if !ph.AtAppend? && !ph.AtRename? then None
        else if !ok then Some(Go(s, p, AtOwnUnlink))
        else if ph.AtAppend? && sys.jobs[p].Add? then
          Some(Commit(s.(file := s.file + (Rule(sys.jobs[p].ip, sys.jobs[p].freeBsd) + "\n")), p))
        else Some(Commit(s.(file := s.temp, temp := ""), p))
      case Crash(_) => Some(Go(s, p, Dead))
  }

  /** Where a takeover goes on: the outcome of the removal is not looked at. */
  function AfterForce(killed: bool): Phase { if killed then AtMkdir else AtRetake }

  function Slay(s: State, p: Pid): State { if p in s.phase then Go(s, p, Dead) else s }

  function Commit(s: State, p: Pid): State { Go(s.(done := s.done + [p]), p, AtOwnUnlink) }

  /** Opening the list: an add looks for the address, a delete writes the temporary copy. */
  function StartWork(s: State, p: Pid, j: Job, ok: bool): State {
    if !ok then Go(s, p, AtOwnUnlink)
    else match j
      case Add(ip, _) => if Listed(s.file, ip) then Commit(s, p) else Go(s, p, AtAppend)
      case Delete(ip) => Go(s.(temp := Without(s.file, ip)), p, AtRename)
  }

  /** The state after a run, if all its steps are possible. */
  function Exec(sys: System, s: State, run: seq<Action>): Option<State>
    decreases |run|
  {
    if run == [] then Some(s)
    else
      var s' := Step(sys, s, run[0]);
      if s' == None then None else Exec(sys, s'.value, run[1..])
  }

  // ---------------------------------------------------------------- when a takeover is harmless

  /** The step removes the lock directory by force. */
  predicate Forces(s: State, a: Action) {
    a.Rmdir? && a.ok && a.p in s.phase && s.phase[a.p].AtRmdir? && Removes(s)
  }

  /** If it does, the maker of the directory holds it no more. */
  predicate IsCareful(s: State, a: Action) {
    Forces(s, a) && s.dir.value in s.phase ==> !InHold(s.phase[s.dir.value])
  }

  predicate AllCareful(sys: System, s: State, run: seq<Action>)
    decreases |run|
  {
    run == [] ||
    (IsCareful(s, run[0]) && (Step(sys, s, run[0]).Some? ==> AllCareful(sys, Step(sys, s, run[0]).value, run[1..])))
  }

  // ---------------------------------------------------------------- invariant

  ghost predicate HolderOwns(s: State) {
    forall p :: p in s.phase && InHold(s.phase[p]) ==> s.dir == Some(p)
  }

  /** At most one process is between its mkdir and the end of its unlock. */
  ghost predicate Exclusive(s: State) {
    forall p, q :: p in s.phase && q in s.phase && InHold(s.phase[p]) && InHold(s.phase[q]) ==> p == q
  }

  function Jobs(sys: System, done: seq<Pid>): seq<Job> {
    seq(|done|, i requires 0 <= i < |done| => if done[i] in sys.jobs then sys.jobs[done[i]] else Delete(""))
  }

  /** The list is what the jobs done so far make of it one after the other, and a job half done will fit on. */
  ghost predicate Serial(sys: System, s: State) {
    && s.file == ApplyAll(sys.file, Jobs(sys, s.done))
    && (forall p :: p in s.phase && s.phase[p].AtAppend? ==>
          p in sys.jobs && sys.jobs[p].Add? && !Listed(s.file, sys.jobs[p].ip))
    && (forall p :: p in s.phase && s.phase[p].AtRename? ==>
          p in sys.jobs && sys.jobs[p].Delete? && s.temp == Without(s.file, sys.jobs[p].ip))
  }

  /** Every job is done at most once. */
  ghost predicate Once(s: State) {
    && (forall i, j :: 0 <= i < j < |s.done| ==> s.done[i] != s.done[j])
    && (forall i :: 0 <= i < |s.done| ==> s.done[i] in s.phase && Committed(s.phase[s.done[i]]))
  }

  predicate MayOwn(ph: Phase) { InHold(ph) || ph.Dead? || ph.Leaked? || ph.Kept? }

  /** Who left the directory: its maker holds it, or died, or could not write the pid file or remove the directory. */
  ghost predicate Accounted(s: State) {
    && (s.dir == None ==> s.pidFile == None)
    && (s.dir.Some? ==> s.dir.value in s.phase && MayOwn(s.phase[s.dir.value]))
    && (forall p :: p in s.phase && s.phase[p].AtOwnRmdir? ==> s.pidFile == None)
  }

  predicate Claims(ph: Phase, q: Pid) { (ph.AtUnlink? || ph.AtRmdir?) && ph.slain == Some(q) }

  /** Who was killed stays dead. */
  ghost predicate SlainDead(s: State) {
    forall p, q :: p in s.phase && q in s.phase && Claims(s.phase[p], q) ==> s.phase[q].Dead?
  }

  ghost predicate Inv(sys: System, s: State) {
    s.phase.Keys == sys.jobs.Keys && HolderOwns(s) && Serial(sys, s) && Once(s) && Accounted(s) && SlainDead(s)
  }

  lemma {:induction false} InitInv(sys: System)
    ensures Inv(sys, Init(sys))
  {
    assert Jobs(sys, []) == [];
  }

  lemma {:induction false} OwnsExcludes(s: State)
    requires HolderOwns(s)
    ensures Exclusive(s)
  {
  }

  /** A step leaves the other processes where they are, or kills one. */
  lemma {:induction false} StepOthers(sys: System, s: State, a: Action, p: Pid)
    requires Step(sys, s, a).Some? && p != a.p
    ensures var s' := Step(sys, s, a).value;
      && (p in s'.phase <==> p in s.phase)
      && (p in s.phase ==> s'.phase[p] == s.phase[p] || (a.Kill? && s'.phase[p].Dead?))
  {
    hide Listed, Without, Rule;
  }

  lemma {:induction false} StepOwn(sys: System, s: State, a: Action)
    requires Step(sys, s, a).Some?
    ensures a.p in s.phase && a.p in sys.jobs && a.p in Step(sys, s, a).value.phase
  {
    hide Listed, Without, Rule;
  }

  /** A careful step keeps the exclusion. */
  lemma {:induction false} StepOwns(sys: System, s: State, a: Action)
    requires HolderOwns(s) && IsCareful(s, a) && Step(sys, s, a).Some?
    ensures HolderOwns(Step(sys, s, a).value)
  {
    hide Listed, Without, Rule;
  }

  lemma {:induction false} StepAccounted(sys: System, s: State, a: Action)
    requires HolderOwns(s) && Accounted(s) && IsCareful(s, a) && Step(sys, s, a).Some?
    ensures Accounted(Step(sys, s, a).value)
  {
    hide Listed, Without, Rule;
  }

  /** A step claims a kill only of a process that it leaves dead, and the dead stay dead. */
  lemma {:induction false} StepClaims(sys: System, s: State, a: Action, q: Pid)
    requires Step(sys, s, a).Some? && q in s.phase
    ensures var s' := Step(sys, s, a).value;
      && q in s'.phase && a.p in s.phase && a.p in s'.phase
      && (s.phase[q].Dead? && q != a.p ==> s'.phase[q].Dead?)
      && (Claims(s'.phase[a.p], q) ==> s'.phase[q].Dead? || Claims(s.phase[a.p], q))
  {
    hide Listed, Without, Rule;
  }

  lemma {:induction false} JobsAppend(sys: System, done: seq<Pid>, p: Pid)
    requires p in sys.jobs
    ensures ApplyAll(sys.file, Jobs(sys, done + [p])) == Apply(ApplyAll(sys.file, Jobs(sys, done)), sys.jobs[p])
  {
    hide Apply;
    var js := Jobs(sys, done + [p]);
    assert js[..|js| - 1] == Jobs(sys, done);
  }

  /** Steps that are neither `Work` nor `Write` leave the list alone and start no edit. */
  lemma {:induction false} StepAside(sys: System, s: State, a: Action)
    requires Step(sys, s, a).Some? && !a.Work? && !a.Write?
    ensures var s' := Step(sys, s, a).value;
      && s'.file == s.file && s'.temp == s.temp && s'.done == s.done
      && a.p in s'.phase && !s'.phase[a.p].AtAppend? && !s'.phase[a.p].AtRename?
  {
    hide Listed, Without, Rule;
  }

  lemma {:induction false} SerialAside(sys: System, s: State, a: Action)
    requires Serial(sys, s) && Step(sys, s, a).Some? && !a.Work? && !a.Write?
    ensures Serial(sys, Step(sys, s, a).value)
  {
    hide Step, ApplyAll, Jobs, Listed, Without;
    StepAside(sys, s, a);
    var s' := Step(sys, s, a).value;
    forall p | p in s'.phase && p != a.p ensures p in s.phase && (s'.phase[p] == s.phase[p] || s'.phase[p].Dead?) {
      StepOthers(sys, s, a, p);
    }
  }

  lemma {:induction false} SerialWork(sys: System, s: State, a: Action)
    requires HolderOwns(s) && Serial(sys, s) && Step(sys, s, a).Some? && a.Work?
    ensures Serial(sys, Step(sys, s, a).value)
  {
    hide ApplyAll, Jobs, Listed, Without, Rule;
    JobsAppend(sys, s.done, a.p);
  }

  lemma {:induction false} SerialWrite(sys: System, s: State, a: Action)
    requires HolderOwns(s) && Serial(sys, s) && Step(sys, s, a).Some? && a.Write?
    ensures Serial(sys, Step(sys, s, a).value)
  {
    hide ApplyAll, Jobs, Listed, Without, Rule;
    JobsAppend(sys, s.done, a.p);
  }

  /** Only the holder changes the list and the temporary copy, so an edit fits on the list it was made for. */
  lemma {:induction false} StepSerial(sys: System, s: State, a: Action)
    requires HolderOwns(s) && Serial(sys, s) && Step(sys, s, a).Some?
    ensures Serial(sys, Step(sys, s, a).value)
  {
    hide Step, HolderOwns, Serial;
    if a.Work? {
      SerialWork(sys, s, a);
    } else if a.Write? {
      SerialWrite(sys, s, a);
    } else {
      SerialAside(sys, s, a);
    }
  }

  lemma {:induction false} StepSlain(sys: System, s: State, a: Action)
    requires SlainDead(s) && Step(sys, s, a).Some?
    ensures SlainDead(Step(sys, s, a).value)
  {
    hide Step, Claims;
    StepKeys(sys, s, a);
    StepOwn(sys, s, a);
    var s' := Step(sys, s, a).value;
    forall p, q | p in s'.phase && q in s'.phase && Claims(s'.phase[p], q) ensures s'.phase[q].Dead? {
      assert p in s.phase.Keys && q in s.phase.Keys;
      StepClaims(sys, s, a, q);
      if p != a.p {
        StepOthers(sys, s, a, p);
        DeadClaimNothing(s'.phase[p], q);
      }
      if q == a.p {
        StepDead(sys, s, a);
      }
    }
  }

  lemma {:induction false} DeadClaimNothing(ph: Phase, q: Pid)
    ensures ph.Dead? ==> !Claims(ph, q)
  {
  }

  /** A dead process takes no step but to crash again. */
  lemma {:induction false} StepDead(sys: System, s: State, a: Action)
    requires Step(sys, s, a).Some?
    ensures a.p in s.phase && (s.phase[a.p].Dead? ==> Step(sys, s, a).value.phase[a.p].Dead?)
  {
    hide Listed, Without, Rule;
  }

  /** A step commits its own process or none, and what is committed stays so. */
  lemma {:induction false} StepCommits(sys: System, s: State, a: Action, p: Pid)
    requires Step(sys, s, a).Some?
    ensures var s' := Step(sys, s, a).value;
      && (s'.done == s.done
          || (s'.done == s.done + [a.p] && a.p in s.phase && !Committed(s.phase[a.p])
              && a.p in s'.phase && Committed(s'.phase[a.p])))
      && (p in s.phase && Committed(s.phase[p]) ==> p in s'.phase && Committed(s'.phase[p]))
  {
    hide Listed, Without;
  }

  lemma {:induction false} StepOnce(sys: System, s: State, a: Action)
    requires Once(s) && Step(sys, s, a).Some?
    ensures Once(Step(sys, s, a).value)
  {
    hide Step, Committed;
    StepCommits(sys, s, a, a.p);
    forall i | 0 <= i < |s.done|
      ensures var s' := Step(sys, s, a).value; s.done[i] in s'.phase && Committed(s'.phase[s.done[i]])
    {
      StepCommits(sys, s, a, s.done[i]);
    }
  }

  lemma {:induction false} StepInv(sys: System, s: State, a: Action)
    requires Inv(sys, s) && IsCareful(s, a) && Step(sys, s, a).Some?
    ensures Inv(sys, Step(sys, s, a).value)
  {
    StepKeys(sys, s, a);
    hide Step, HolderOwns, Serial, Once, Accounted, SlainDead;
    StepOwns(sys, s, a);
    StepSerial(sys, s, a);
    StepOnce(sys, s, a);
    StepAccounted(sys, s, a);
    StepSlain(sys, s, a);
  }

  lemma {:induction false} StepKeys(sys: System, s: State, a: Action)
    requires Step(sys, s, a).Some?
    ensures Step(sys, s, a).value.phase.Keys == s.phase.Keys
  {
    hide Listed, Without;
  }

  lemma {:induction false} RunInv(sys: System, s: State, run: seq<Action>)
    requires Inv(sys, s) && AllCareful(sys, s, run) && Exec(sys, s, run).Some?
    ensures Inv(sys, Exec(sys, s, run).value)
    decreases |run|
  {
    hide Inv, Step, IsCareful;
    if run != [] {
      StepInv(sys, s, run[0]);
      RunInv(sys, Step(sys, s, run[0]).value, run[1..]);
    }
  }

  // ---------------------------------------------------------------- results

  /** For any number of processes and every interleaving in which forced removals are careful: at most one
      process holds the lock; the list is what the finished jobs make of it one after the other, each done once;
      and the directory is left behind only by a process that died, could not write its pid or could not remove it. */
  lemma {:induction false} SafeRuns(sys: System, run: seq<Action>)
    requires AllCareful(sys, Init(sys), run) && Exec(sys, Init(sys), run).Some?
    ensures var s := Exec(sys, Init(sys), run).value;
      && Exclusive(s)
      && s.file == ApplyAll(sys.file, Jobs(sys, s.done))
      && (forall i, j :: 0 <= i < j < |s.done| ==> s.done[i] != s.done[j])
      && (s.dir.Some? ==> s.dir.value in s.phase && MayOwn(s.phase[s.dir.value]))
  {
    hide AllCareful, Exec, Init, ApplyAll, Jobs, MayOwn;
    InitInv(sys);
    RunInv(sys, Init(sys), run);
  }

  lemma {:induction false} JobsHaveAddresses(sys: System, s: State)
    requires s.phase.Keys == sys.jobs.Keys && Once(s)
    requires forall p :: p in sys.jobs ==> IsAddress(sys.jobs[p].ip)
    ensures forall i :: 0 <= i < |Jobs(sys, s.done)| ==> IsAddress(Jobs(sys, s.done)[i].ip)
  {
    forall i | 0 <= i < |s.done| ensures IsAddress(Jobs(sys, s.done)[i].ip) {
      var p := s.done[i];
      assert p in sys.jobs.Keys;
      assert p in sys.jobs;
      assert IsAddress(sys.jobs[p].ip);
      assert Jobs(sys, s.done)[i] == sys.jobs[p];
    }
  }

  /** So concurrent adds and deletes never leave a rule in the list twice. */
  lemma {:induction false} RunsKeepRuleOnce(sys: System, run: seq<Action>, line: string)
    requires AllCareful(sys, Init(sys), run) && Exec(sys, Init(sys), run).Some?
    requires forall p :: p in sys.jobs ==> IsAddress(sys.jobs[p].ip)
    requires Count(Reads(sys.file, ROOM), line) <= 1 && (EndsClosed(sys.file, ROOM) || IsRule(line))
    ensures Count(Reads(Exec(sys, Init(sys), run).value.file, ROOM), line) <= 1
  {
    hide AllCareful, Exec, Init, ApplyAll, Reads, Count, EndsClosed, IsRule;
    InitInv(sys);
    RunInv(sys, Init(sys), run);
    var s := Exec(sys, Init(sys), run).value;
    JobsHaveAddresses(sys, s);
    RuleOnce(sys.file, Jobs(sys, s.done), line);
  }

  /** A run without takeover is careful. */
  lemma {:induction false} NoTakeoverIsCareful(sys: System, s: State, run: seq<Action>)
    requires (forall i :: 0 <= i < |run| ==> !run[i].TakeOver?) && NobodyTakesOver(s)
    ensures AllCareful(sys, s, run)
    decreases |run|
  {
    hide Listed, Without;
    if run != [] && Step(sys, s, run[0]).Some? {
      NoTakeoverIsCareful(sys, Step(sys, s, run[0]).value, run[1..]);
    }
  }

  ghost predicate NobodyTakesOver(s: State) {
    forall p :: p in s.phase ==> !s.phase[p].AtKill? && !s.phase[p].AtUnlink? && !s.phase[p].AtRmdir?
  }

  /** Removing the directory after killing its maker is careful: what counts is that the process has died, not that
      the kill command was run. */
  lemma {:induction false} KillOfHolderIsCareful(sys: System, s: State, a: Action)
    requires Inv(sys, s) && Forces(s, a) && s.phase[a.p].slain == s.dir
    ensures IsCareful(s, a)
  {
    if s.dir.value in s.phase {
      assert Claims(s.phase[a.p], s.dir.value);
    }
  }

  /** Every forced removal of the run is of a directory whose maker the process has killed, or holds it no more. */
  predicate AllFair(sys: System, s: State, run: seq<Action>)
    decreases |run|
  {
    run == [] ||
    (IsFair(s, run[0]) && (Step(sys, s, run[0]).Some? ==> AllFair(sys, Step(sys, s, run[0]).value, run[1..])))
  }

  predicate IsFair(s: State, a: Action) { (Forces(s, a) && s.phase[a.p].slain == s.dir) || IsCareful(s, a) }

  /** Such runs are careful: a kill that did kill the maker makes the removal safe, however long it takes. */
  lemma {:induction false} FairRunsAreCareful(sys: System, s: State, run: seq<Action>)
    requires Inv(sys, s) && AllFair(sys, s, run)
    ensures AllCareful(sys, s, run)
    decreases |run|
  {
    hide Inv, Step, IsCareful, Forces;
    if run != [] {
      if !IsCareful(s, run[0]) {
        KillOfHolderIsCareful(sys, s, run[0]);
      }
      if Step(sys, s, run[0]).Some? {
        StepInv(sys, s, run[0]);
        FairRunsAreCareful(sys, Step(sys, s, run[0]).value, run[1..]);
      }
    }
  }

  /** Carefulness is exactly what a forced removal needs: if it is careful, whoever makes the directory next is the
      only holder; if not, the process that forced it can be one beside the first. */
  lemma {:induction false} ForcedRemovalExact(sys: System, s: State, a: Action)
    requires Inv(sys, s) && Forces(s, a) && Step(sys, s, a).Some?
    ensures (forall p :: Exec(sys, s, [a, Mkdir(p, true)]).Some? ==>
               Exclusive(Exec(sys, s, [a, Mkdir(p, true)]).value)) <==>
            IsCareful(s, a)
  {
    hide Step, Exec, Exclusive, Forces, IsCareful, HolderOwns, Serial, Once, Accounted, SlainDead;
    if IsCareful(s, a) {
      StepOwns(sys, s, a);
      var s1 := Step(sys, s, a).value;
      forall p | Exec(sys, s, [a, Mkdir(p, true)]).Some? ensures Exclusive(Exec(sys, s, [a, Mkdir(p, true)]).value) {
        ExecTwo(sys, s, a, Mkdir(p, true));
        MkdirIsCareful(s1, p);
        StepOwns(sys, s1, Mkdir(p, true));
        OwnsExcludes(Step(sys, s1, Mkdir(p, true)).value);
      }
    } else {
      CarelessBreaksExclusion(sys, s, a, a.p);
    }
  }

  lemma {:induction false} ExecNil(sys: System, s: State)
    ensures Exec(sys, s, []) == Some(s)
  {
  }

  lemma {:induction false} ExecTwo(sys: System, s: State, a: Action, b: Action)
    ensures Exec(sys, s, [a, b]) ==
      if Step(sys, s, a) == None then None else Step(sys, Step(sys, s, a).value, b)
  {
    hide Step;
    assert [a, b][1..] == [b] && [b][1..] == [];
    if Step(sys, s, a).Some? {
      var s1 := Step(sys, s, a).value;
      assert Exec(sys, s, [a, b]) == Exec(sys, s1, [b]);
      if Step(sys, s1, b).Some? {
        ExecNil(sys, Step(sys, s1, b).value);
      }
    }
  }

  lemma {:induction false} MkdirIsCareful(s: State, p: Pid)
    ensures IsCareful(s, Mkdir(p, true))
  {
  }

  /** After a careless removal the next process that tries the directory holds the lock beside the first; the process
      that removed it can be that one. */
  lemma {:induction false} CarelessBreaksExclusion(sys: System, s: State, a: Action, p: Pid)
    requires Inv(sys, s) && Forces(s, a) && !IsCareful(s, a) && Step(sys, s, a).Some?
    requires p == a.p || (p in s.phase && s.phase[p].AtMkdir?)
    ensures Exec(sys, s, [a, Mkdir(p, true)]).Some? && !Exclusive(Exec(sys, s, [a, Mkdir(p, true)]).value)
  {
    hide Listed, Without, ApplyAll, Rule;
    var o := s.dir.value;
    var s1 := Step(sys, s, a).value;
    assert s1.phase[o] == s.phase[o] && s1.dir == None;
    var s2 := Step(sys, s1, Mkdir(p, true)).value;
    assert InHold(s2.phase[o]) && InHold(s2.phase[p]) && p != o;
    ExecTwo(sys, s, a, Mkdir(p, true));
  }
}
