/** What the lock lets processes get done: who ends its hold without a failure has its edit in the list, and wherever
    there is no lock, a process that is left undisturbed makes exactly its edit and leaves no lock behind. */
module LockProgress {
  import opened CText
  import opened HostsDeny
  import opened LockProtocol

  /** The step fails to write the pid file, to open the list or to write it. */
  predicate FailsToEdit(a: Action) { (a.WritePid? || a.Work? || a.Write?) && !a.ok }

  predicate FailsNever(run: seq<Action>, p: Pid) {
    forall i :: 0 <= i < |run| && run[i].p == p ==> !FailsToEdit(run[i])
  }

  predicate IsEditing(ph: Phase) { ph.AtWork? || ph.AtAppend? || ph.AtRename? }

  predicate IsBeforeHold(ph: Phase) {
    || ph.Ready? || ph.AtMkdir? || ph.AtRead? || ph.AtSleep? || ph.AtKill? || ph.AtUnlink? || ph.AtRmdir?
    || ph.AtRetake? || ph.AtWritePid? || ph.Stopped? || ph.Dead?
  }

  /** Where a process is that has (`held`) or has not written its pid, as long as no step of it fails. */
  ghost predicate OnTheWay(s: State, p: Pid, held: bool) {
    p in s.phase &&
    if held then s.phase[p].Dead? || IsEditing(s.phase[p]) || p in s.done else IsBeforeHold(s.phase[p])
  }

  lemma {:induction false} OwnStepOnTheWay(sys: System, s: State, a: Action, held: bool)
    requires HolderOwns(s) && Step(sys, s, a).Some? && OnTheWay(s, a.p, held) && !FailsToEdit(a)
    ensures OnTheWay(Step(sys, s, a).value, a.p, held || a.WritePid?)
  {
    hide Listed, Without, Rule;
  }

  lemma {:induction false} DoneGrows(sys: System, s: State, a: Action)
    requires Step(sys, s, a).Some?
    ensures s.done <= Step(sys, s, a).value.done
  {
    hide Step;
    StepCommits(sys, s, a, a.p);
  }

  lemma {:induction false} StepOnTheWay(sys: System, s: State, a: Action, p: Pid, held: bool)
    requires HolderOwns(s) && Step(sys, s, a).Some? && OnTheWay(s, p, held) && (a.p == p ==> !FailsToEdit(a))
    ensures OnTheWay(Step(sys, s, a).value, p, held || (a.WritePid? && a.p == p))
  {
    hide Step, HolderOwns, FailsToEdit;
    if a.p == p {
      OwnStepOnTheWay(sys, s, a, held);
    } else {
      StepOthers(sys, s, a, p);
      DoneGrows(sys, s, a);
    }
  }

  predicate WritesPid(run: seq<Action>, p: Pid) { exists i :: 0 <= i < |run| && run[i].WritePid? && run[i].p == p }

  lemma {:induction false} WritesPidFirst(run: seq<Action>, p: Pid)
    requires run != []
    ensures WritesPid(run, p) <==> (run[0].WritePid? && run[0].p == p) || WritesPid(run[1..], p)
    ensures FailsNever(run, p) ==> FailsNever(run[1..], p)
  {
    if WritesPid(run, p) {
      var i :| 0 <= i < |run| && run[i].WritePid? && run[i].p == p;
      if i > 0 {
        assert run[1..][i - 1] == run[i];
      }
    }
  }

  lemma {:induction false} RunOnTheWay(sys: System, s: State, run: seq<Action>, p: Pid, held: bool)
    requires Inv(sys, s) && AllCareful(sys, s, run) && Exec(sys, s, run).Some?
    requires OnTheWay(s, p, held) && FailsNever(run, p)
    ensures OnTheWay(Exec(sys, s, run).value, p, held || WritesPid(run, p))
    decreases |run|
  {
    hide Step, IsCareful, OnTheWay, FailsToEdit, Serial, Once, Accounted, SlainDead, HolderOwns;
    if run != [] {
      StepInv(sys, s, run[0]);
      StepOnTheWay(sys, s, run[0], p, held);
      WritesPidFirst(run, p);
      RunOnTheWay(sys, Step(sys, s, run[0]).value, run[1..], p, held || (run[0].WritePid? && run[0].p == p));
    }
  }

  /** In every run with careful removals, a process that took the lock, is alive and no longer at its edit has its edit
      in the list, if no step of it failed to write its pid, to open the list or to write it. */
  lemma {:induction false} EditsAreDone(sys: System, run: seq<Action>, p: Pid)
    requires AllCareful(sys, Init(sys), run) && Exec(sys, Init(sys), run).Some?
    requires p in sys.jobs && WritesPid(run, p) && FailsNever(run, p)
    ensures var s := Exec(sys, Init(sys), run).value;
      p in s.phase && (!s.phase[p].Dead? && !IsEditing(s.phase[p]) ==> p in s.done)
  {
    hide AllCareful, Exec, Inv, FailsNever, WritesPid, IsEditing;
    InitInv(sys);
    RunOnTheWay(sys, Init(sys), run, p, false);
  }

  // ---------------------------------------------------------------- who gives up

  /** The step is no takeover of that process without a kill command that was run. */
  predicate RunsKill(s: State, a: Action, p: Pid) {
    a.p == p && p in s.phase && s.phase[p].AtSleep? ==>
      (a.TakeOver? ==> a.kill && s.phase[p].seen.Some?)
  }

  predicate AllRunKill(sys: System, s: State, run: seq<Action>, p: Pid)
    decreases |run|
  {
    run == [] ||
    (RunsKill(s, run[0], p) && run[0] != Kill(p, NotRun)
     && (Step(sys, s, run[0]).Some? ==> AllRunKill(sys, Step(sys, s, run[0]).value, run[1..], p)))
  }

  /** Where a process is that has not taken the lock and has not given up. */
  predicate IsTrying(ph: Phase) {
    || ph.Ready? || ph.AtMkdir? || ph.AtRead? || ph.AtSleep? || ph.AtKill? || ph.AtWritePid? || ph.Dead?
    || ((ph.AtUnlink? || ph.AtRmdir?) && ph.killed)
  }

  lemma {:induction false} StepKeepsTrying(sys: System, s: State, a: Action, p: Pid)
    requires p in s.phase && IsTrying(s.phase[p]) && Step(sys, s, a).Some?
    requires RunsKill(s, a, p) && a != Kill(p, NotRun) && !(a.WritePid? && a.p == p)
    ensures var s' := Step(sys, s, a).value; p in s'.phase && IsTrying(s'.phase[p])
  {
    hide Listed, Without, Rule;
    if a.p != p {
      StepOthers(sys, s, a, p);
    }
  }

  lemma {:induction false} RunKeepsTrying(sys: System, s: State, run: seq<Action>, p: Pid)
    requires p in s.phase && IsTrying(s.phase[p]) && Exec(sys, s, run).Some?
    requires AllRunKill(sys, s, run, p) && !WritesPid(run, p)
    ensures var s' := Exec(sys, s, run).value; p in s'.phase && IsTrying(s'.phase[p])
    decreases |run|
  {
    hide Step, IsTrying, RunsKill;
    if run != [] {
      WritesPidFirst(run, p);
      StepKeepsTrying(sys, s, run[0], p);
      RunKeepsTrying(sys, Step(sys, s, run[0]).value, run[1..], p);
    }
  }

  /** A process whose takeovers all run a kill command does not give up: in every run it holds the lock, has died or is
      still trying, whatever its attempts to remove and to make the directory come to. */
  lemma {:induction false} KillerNeverGivesUp(sys: System, run: seq<Action>, p: Pid)
    requires p in sys.jobs && Exec(sys, Init(sys), run).Some?
    requires AllRunKill(sys, Init(sys), run, p) && !WritesPid(run, p)
    ensures var s := Exec(sys, Init(sys), run).value;
      p in s.phase && !s.phase[p].Stopped? && !s.phase[p].AtRetake?
  {
    hide Exec, AllRunKill, WritesPid;
    RunKeepsTrying(sys, Init(sys), run, p);
  }

  /** Without one it tries the directory once more, and gives up if that fails. */
  lemma {:induction false} OthersGiveUp(sys: System, s: State, p: Pid)
    requires p in s.phase && p in sys.jobs && s.phase[p].AtUnlink? && !s.phase[p].killed
    ensures var s' := Exec(sys, s, [Unlink(p, false), Mkdir(p, false)]);
      s'.Some? && p in s'.value.phase && s'.value.phase[p].Stopped? && s'.value.dir == s.dir
  {
    hide Listed, Without, Rule;
    ExecTwo(sys, s, Unlink(p, false), Mkdir(p, false));
  }

  // ---------------------------------------------------------------- one process undisturbed

  /** The step does not fail and kills nobody. */
  predicate IsGood(a: Action) {
    match a
    case Start(_) => true
    case Mkdir(_, ok) => ok
    case WritePid(_, ok) => ok
    case ReadPid(_, ok) => ok
    case Wake(_) => true
    case TakeOver(_, _) => true
    case Kill(_, outcome) => outcome != Kills
    case Unlink(_, ok) => ok
    case Rmdir(_, ok) => ok
    case Work(_, ok) => ok
    case Write(_, ok) => ok
    case Crash(_) => false
  }

  predicate IsWaiting(ph: Phase) {
    || ph.Ready? || ph.AtMkdir? || ph.AtRead? || ph.AtSleep? || ph.AtKill? || ph.AtUnlink? || ph.AtRmdir?
    || ph.AtRetake?
  }

  /** The lock directory and its pid file. */
  predicate Locked(s: State, dir: Option<Pid>, pidFile: Option<Pid>) { s.dir == dir && s.pidFile == pidFile }

  /** Where a process is that was waiting in `s0` and has run undisturbed since, and what it has done there. */
  ghost predicate Undisturbed(sys: System, s0: State, s: State, p: Pid) {
    && p in s0.phase && p in s.phase && p in sys.jobs && s.phase == s0.phase[p := s.phase[p]]
    && var ph, j := s.phase[p], sys.jobs[p];
       if IsWaiting(ph) then Locked(s, None, None) && s.file == s0.file && s.done == s0.done
       else if ph.AtWritePid? then Locked(s, Some(p), None) && s.file == s0.file && s.done == s0.done
       else if ph.AtWork? then Locked(s, Some(p), Some(p)) && s.file == s0.file && s.done == s0.done
       else if ph.AtAppend? then
         && Locked(s, Some(p), Some(p)) && s.file == s0.file && s.done == s0.done
         && j.Add? && !Listed(s.file, j.ip)
       else if ph.AtRename? then
         Locked(s, Some(p), Some(p)) && s.done == s0.done && j.Delete? && s.temp == Without(s0.file, j.ip)
       else
         && s.file == Apply(s0.file, j) && s.done == s0.done + [p]
         && if ph.AtOwnUnlink? then Locked(s, Some(p), Some(p))
            else if ph.AtOwnRmdir? then Locked(s, Some(p), None)
            else ph.Stopped? && Locked(s, None, None)
  }

  /** How many steps are left at most. */
  function Left(ph: Phase): nat {
    match ph
    case AtRead => 11
    case AtSleep(_) => 10
    case AtKill(_) => 9
    case AtUnlink(_, _) => 8
    case AtRmdir(_, _) => 7
    case Ready => 7
    case AtRetake => 6
    case AtMkdir => 6
    case AtWritePid => 5
    case AtWork => 4
    case AtAppend => 3
    case AtRename => 3
    case AtOwnUnlink => 2
    case AtOwnRmdir => 1
    case _ => 0
  }

  lemma {:induction false} StepWaiting(sys: System, s0: State, s: State, a: Action)
    requires Undisturbed(sys, s0, s, a.p) && Step(sys, s, a).Some? && IsGood(a) && IsWaiting(s.phase[a.p])
    ensures Undisturbed(sys, s0, Step(sys, s, a).value, a.p)
    ensures Left(Step(sys, s, a).value.phase[a.p]) < Left(s.phase[a.p])
  {
    hide Listed, Without, Rule;
  }

  lemma {:induction false} StepEditing(sys: System, s0: State, s: State, a: Action)
    requires Undisturbed(sys, s0, s, a.p) && Step(sys, s, a).Some? && IsGood(a) && IsEditing(s.phase[a.p])
    ensures Undisturbed(sys, s0, Step(sys, s, a).value, a.p)
    ensures Left(Step(sys, s, a).value.phase[a.p]) < Left(s.phase[a.p])
  {
    hide Listed, Without, Rule;
  }

  lemma {:induction false} StepHolding(sys: System, s0: State, s: State, a: Action)
    requires Undisturbed(sys, s0, s, a.p) && Step(sys, s, a).Some? && IsGood(a)
    requires !IsWaiting(s.phase[a.p]) && !IsEditing(s.phase[a.p])
    ensures Undisturbed(sys, s0, Step(sys, s, a).value, a.p)
    ensures Left(Step(sys, s, a).value.phase[a.p]) < Left(s.phase[a.p])
  {
    hide Listed, Without, Rule;
  }

  lemma {:induction false} StepUndisturbed(sys: System, s0: State, s: State, a: Action)
    requires Undisturbed(sys, s0, s, a.p) && Step(sys, s, a).Some? && IsGood(a)
    ensures Undisturbed(sys, s0, Step(sys, s, a).value, a.p)
    ensures Left(Step(sys, s, a).value.phase[a.p]) < Left(s.phase[a.p])
  {
    hide Step, IsGood, IsWaiting, IsEditing, Left, Locked, Apply;
    if IsWaiting(s.phase[a.p]) {
      StepWaiting(sys, s0, s, a);
    } else if IsEditing(s.phase[a.p]) {
      StepEditing(sys, s0, s, a);
    } else {
      StepHolding(sys, s0, s, a);
    }
  }

  lemma {:induction false} RunUndisturbed(sys: System, s0: State, s: State, run: seq<Action>, p: Pid)
    requires Undisturbed(sys, s0, s, p) && Exec(sys, s, run).Some?
    requires forall i :: 0 <= i < |run| ==> run[i].p == p && IsGood(run[i])
    ensures Undisturbed(sys, s0, Exec(sys, s, run).value, p)
    ensures |run| + Left(Exec(sys, s, run).value.phase[p]) <= Left(s.phase[p])
    decreases |run|
  {
    hide Step, IsGood, Apply, Left, Locked, IsWaiting;
    if run != [] {
      StepUndisturbed(sys, s0, s, run[0]);
      RunUndisturbed(sys, s0, Step(sys, s, run[0]).value, run[1..], p);
    }
  }

  function NextStep(p: Pid, ph: Phase): Action {
    match ph
    case Ready => Start(p)
    case AtRead => ReadPid(p, true)
    case AtSleep(_) => Wake(p)
    case AtKill(_) => Kill(p, NotRun)
    case AtUnlink(_, _) => Unlink(p, true)
    case AtRetake => Mkdir(p, true)
    case AtMkdir => Mkdir(p, true)
    case AtWritePid => WritePid(p, true)
    case AtWork => Work(p, true)
    case AtAppend => Write(p, true)
    case AtRename => Write(p, true)
    case AtOwnUnlink => Unlink(p, true)
    case _ => Rmdir(p, true)
  }

  lemma {:induction false} GoesOn(sys: System, s0: State, s: State, p: Pid)
    requires Undisturbed(sys, s0, s, p) && !s.phase[p].Stopped?
    ensures var a := NextStep(p, s.phase[p]); a.p == p && IsGood(a) && Step(sys, s, a).Some?
  {
    hide Listed, Without, Rule;
  }

  /** In every state without a lock directory, a process that has not given up and is left undisturbed, without a
      failure, stops after eleven steps at the latest and can go on until then. Once it has stopped, it has made exactly
      its edit, on the list as it was, no lock is left, and the other processes are where they were. */
  lemma {:induction false} UndisturbedProcess(sys: System, s: State, run: seq<Action>, p: Pid)
    requires p in s.phase && p in sys.jobs && IsWaiting(s.phase[p]) && s.dir == None && s.pidFile == None
    requires Exec(sys, s, run).Some? && forall i :: 0 <= i < |run| ==> run[i].p == p && IsGood(run[i])
    ensures var s' := Exec(sys, s, run).value;
      && |run| <= 11 && p in s'.phase && s'.phase == s.phase[p := s'.phase[p]]
      && (s'.phase[p].Stopped? ==>
            && s'.file == Apply(s.file, sys.jobs[p]) && s'.done == s.done + [p]
            && s'.dir == None && s'.pidFile == None)
      && (s'.phase[p].Stopped? || exists a: Action :: a.p == p && IsGood(a) && Step(sys, s', a).Some?)
  {
    hide Step, IsGood, Exec, Apply, Listed, Without;
    assert s.phase == s.phase[p := s.phase[p]];
    RunUndisturbed(sys, s, s, run, p);
    var s' := Exec(sys, s, run).value;
    if !s'.phase[p].Stopped? {
      GoesOn(sys, s, s', p);
    }
  }

  lemma {:induction false} OnlyOneMoves(sys: System, s: State, run: seq<Action>, p: Pid)
    requires sys.jobs.Keys == {p} && Exec(sys, s, run).Some?
    ensures forall i :: 0 <= i < |run| ==> run[i].p == p
    decreases |run|
  {
    hide Step;
    if run != [] {
      StepOwn(sys, s, run[0]);
      assert run[0].p in sys.jobs.Keys;
      OnlyOneMoves(sys, Step(sys, s, run[0]).value, run[1..], p);
      assert forall i :: 1 <= i < |run| ==> run[i] == run[1..][i - 1];
    }
  }

  /** So a process that is alone makes exactly its edit. */
  lemma {:induction false} LoneProcess(sys: System, run: seq<Action>, p: Pid)
    requires sys.jobs.Keys == {p} && Exec(sys, Init(sys), run).Some?
    requires forall i :: 0 <= i < |run| ==> IsGood(run[i])
    ensures var s := Exec(sys, Init(sys), run).value;
      && p in s.phase && p in sys.jobs
      && (s.phase[p].Stopped? ==> s.file == Apply(sys.file, sys.jobs[p]) && s.dir == None && s.pidFile == None)
      && (s.phase[p].Stopped? || exists a: Action :: IsGood(a) && Step(sys, s, a).Some?)
  {
    hide Step, IsGood, Exec, Apply;
    OnlyOneMoves(sys, Init(sys), run, p);
    assert p in sys.jobs.Keys;
    UndisturbedProcess(sys, Init(sys), run, p);
  }
}
