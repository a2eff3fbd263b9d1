/** What can go wrong with the lock: runs that end with two holders, and directories that are left behind. */
module LockFailures {
  import opened CText
  import opened HostsDeny
  import opened LockProtocol

  /** All processes are ready but two. */
  function Two(sys: System, p: Pid, php: Phase, q: Pid, phq: Phase, dir: Option<Pid>, pidFile: Option<Pid>): State {
    Init(sys).(phase := Init(sys).phase[p := php][q := phq], dir := dir, pidFile := pidFile)
  }

  lemma {:induction false} ExecCons(sys: System, s: State, a: Action, s': State, rest: seq<Action>)
    requires Step(sys, s, a) == Some(s')
    ensures Exec(sys, s, [a] + rest) == Exec(sys, s', rest)
  {
    hide Step;
    assert ([a] + rest)[1..] == rest;
  }

  lemma {:induction false} PhasesAfter(sys: System, p: Pid, q: Pid, php: Phase, phq: Phase, ph: Phase)
    requires p != q && p in sys.jobs && q in sys.jobs
    ensures Init(sys).phase[p := php][q := phq][p := ph] == Init(sys).phase[p := ph][q := phq]
    ensures Init(sys).phase[p := php][q := phq][q := ph] == Init(sys).phase[p := php][q := ph]
    ensures Init(sys).phase == Init(sys).phase[p := Ready][q := Ready]
  {
  }

  /** One step of such a run takes one of the two from one phase to the next. */
  lemma {:induction false} TwoSteps(sys: System, p: Pid, q: Pid)
    requires p != q && p in sys.jobs && q in sys.jobs
    ensures Init(sys) == Two(sys, p, Ready, q, Ready, None, None)
    ensures Step(sys, Two(sys, p, Ready, q, Ready, None, None), Start(p))
         == Some(Two(sys, p, AtMkdir, q, Ready, None, None))
    ensures Step(sys, Two(sys, p, AtMkdir, q, Ready, None, None), Mkdir(p, true))
         == Some(Two(sys, p, AtWritePid, q, Ready, Some(p), None))
    ensures Step(sys, Two(sys, p, AtWritePid, q, Ready, Some(p), None), WritePid(p, true))
         == Some(Two(sys, p, AtWork, q, Ready, Some(p), Some(p)))
    ensures Step(sys, Two(sys, p, AtWork, q, Ready, Some(p), Some(p)), Start(q))
         == Some(Two(sys, p, AtWork, q, AtMkdir, Some(p), Some(p)))
    ensures Step(sys, Two(sys, p, AtWork, q, AtMkdir, Some(p), Some(p)), Mkdir(q, true))
         == Some(Two(sys, p, AtWork, q, AtRead, Some(p), Some(p)))
  {
    PhasesAfter(sys, p, q, Ready, Ready, AtMkdir);
    PhasesAfter(sys, p, q, AtMkdir, Ready, AtWritePid);
    PhasesAfter(sys, p, q, AtWritePid, Ready, AtWork);
    PhasesAfter(sys, p, q, AtWork, Ready, AtMkdir);
    PhasesAfter(sys, p, q, AtWork, AtMkdir, AtRead);
  }

  lemma {:induction false} TwoTakeOver(sys: System, p: Pid, q: Pid)
    requires p != q && p in sys.jobs && q in sys.jobs
    ensures Step(sys, Two(sys, p, AtWork, q, AtRead, Some(p), Some(p)), ReadPid(q, true))
         == Some(Two(sys, p, AtWork, q, AtSleep(Some(p)), Some(p), Some(p)))
    ensures Step(sys, Two(sys, p, AtWork, q, AtSleep(Some(p)), Some(p), Some(p)), TakeOver(q, false))
         == Some(Two(sys, p, AtWork, q, AtUnlink(false, None), Some(p), Some(p)))
    ensures Step(sys, Two(sys, p, AtWork, q, AtSleep(Some(p)), Some(p), Some(p)), TakeOver(q, true))
         == Some(Two(sys, p, AtWork, q, AtKill(p), Some(p), Some(p)))
    ensures Step(sys, Two(sys, p, AtWork, q, AtKill(p), Some(p), Some(p)), Kill(q, NoEffect))
         == Some(Two(sys, p, AtWork, q, AtUnlink(true, None), Some(p), Some(p)))
  {
    PhasesAfter(sys, p, q, AtWork, AtRead, AtSleep(Some(p)));
    PhasesAfter(sys, p, q, AtWork, AtSleep(Some(p)), AtUnlink(false, None));
    PhasesAfter(sys, p, q, AtWork, AtSleep(Some(p)), AtKill(p));
    PhasesAfter(sys, p, q, AtWork, AtKill(p), AtUnlink(true, None));
  }

  lemma {:induction false} TwoForces(sys: System, p: Pid, q: Pid, killed: bool)
    requires p != q && p in sys.jobs && q in sys.jobs
    ensures Step(sys, Two(sys, p, AtWork, q, AtUnlink(killed, None), Some(p), Some(p)), Unlink(q, true))
         == Some(Two(sys, p, AtWork, q, AtRmdir(killed, None), Some(p), None))
    ensures Step(sys, Two(sys, p, AtWork, q, AtRmdir(killed, None), Some(p), None), Rmdir(q, true))
         == Some(Two(sys, p, AtWork, q, AfterForce(killed), None, None))
    ensures Step(sys, Two(sys, p, AtWork, q, AfterForce(killed), None, None), Mkdir(q, true))
         == Some(Two(sys, p, AtWork, q, AtWritePid, Some(q), None))
  {
    PhasesAfter(sys, p, q, AtWork, AtUnlink(killed, None), AtRmdir(killed, None));
    PhasesAfter(sys, p, q, AtWork, AtRmdir(killed, None), AfterForce(killed));
    PhasesAfter(sys, p, q, AtWork, AfterForce(killed), AtWritePid);
  }

  /** One process takes the lock; another one waits, and takes over without a kill or after one without effect. */
  function ForcedRun(p: Pid, q: Pid, killed: bool): seq<Action> {
    WaitRun(p, q) + (TakeRun(q, killed) + [Unlink(q, true), Rmdir(q, true), Mkdir(q, true)])
  }

  function WaitRun(p: Pid, q: Pid): seq<Action> {
    [Start(p), Mkdir(p, true), WritePid(p, true), Start(q), Mkdir(q, true), ReadPid(q, true)]
  }

  function TakeRun(q: Pid, killed: bool): seq<Action> {
    if killed then [TakeOver(q, true), Kill(q, NoEffect)] else [TakeOver(q, false)]
  }

  lemma {:induction false} ExecAppend(sys: System, s: State, a: seq<Action>, b: seq<Action>, s': State)
    requires Exec(sys, s, a) == Some(s')
    ensures Exec(sys, s, a + b) == Exec(sys, s', b)
    decreases |a|
  {
    hide Step;
    if a == [] {
      assert a + b == b;
    } else {
      var s1 := Step(sys, s, a[0]).value;
      ExecAppend(sys, s1, a[1..], b, s');
      assert a + b == [a[0]] + (a[1..] + b);
      ExecCons(sys, s, a[0], s1, a[1..] + b);
    }
  }

  lemma {:induction false} ExecWait(sys: System, p: Pid, q: Pid)
    requires p != q && p in sys.jobs && q in sys.jobs
    ensures Exec(sys, Init(sys), WaitRun(p, q)) == Some(Two(sys, p, AtWork, q, AtSleep(Some(p)), Some(p), Some(p)))
  {
    hide Step, Exec, Init, Two;
    TwoSteps(sys, p, q);
    TwoTakeOver(sys, p, q);
    var s6 := Two(sys, p, AtWork, q, AtSleep(Some(p)), Some(p), Some(p));
    var s5 := Two(sys, p, AtWork, q, AtRead, Some(p), Some(p));
    var s4 := Two(sys, p, AtWork, q, AtMkdir, Some(p), Some(p));
    var s3 := Two(sys, p, AtWork, q, Ready, Some(p), Some(p));
    var s2 := Two(sys, p, AtWritePid, q, Ready, Some(p), None);
    var s1 := Two(sys, p, AtMkdir, q, Ready, None, None);
    var run := WaitRun(p, q);
    ExecNil(sys, s6);
    assert run[5..] == [ReadPid(q, true)] + [];
    ExecCons(sys, s5, ReadPid(q, true), s6, []);
    assert run[4..] == [Mkdir(q, true)] + run[5..];
    ExecCons(sys, s4, Mkdir(q, true), s5, run[5..]);
    assert run[3..] == [Start(q)] + run[4..];
    ExecCons(sys, s3, Start(q), s4, run[4..]);
    assert run[2..] == [WritePid(p, true)] + run[3..];
    ExecCons(sys, s2, WritePid(p, true), s3, run[3..]);
    assert run[1..] == [Mkdir(p, true)] + run[2..];
    ExecCons(sys, s1, Mkdir(p, true), s2, run[2..]);
    assert run == [Start(p)] + run[1..];
    ExecCons(sys, Init(sys), Start(p), s1, run[1..]);
  }

  lemma {:induction false} ExecTake(sys: System, p: Pid, q: Pid, killed: bool)
    requires p != q && p in sys.jobs && q in sys.jobs
    ensures Exec(sys, Two(sys, p, AtWork, q, AtSleep(Some(p)), Some(p), Some(p)), TakeRun(q, killed))
         == Some(Two(sys, p, AtWork, q, AtUnlink(killed, None), Some(p), Some(p)))
  {
    hide Step, Exec, Init, Two;
    TwoTakeOver(sys, p, q);
    var s0 := Two(sys, p, AtWork, q, AtSleep(Some(p)), Some(p), Some(p));
    var s1 := Two(sys, p, AtWork, q, AtKill(p), Some(p), Some(p));
    var s2 := Two(sys, p, AtWork, q, AtUnlink(killed, None), Some(p), Some(p));
    ExecNil(sys, s2);
    if killed {
      assert [Kill(q, NoEffect)] + [] == [Kill(q, NoEffect)];
      ExecCons(sys, s1, Kill(q, NoEffect), s2, []);
      assert TakeRun(q, killed) == [TakeOver(q, true)] + [Kill(q, NoEffect)];
      ExecCons(sys, s0, TakeOver(q, true), s1, [Kill(q, NoEffect)]);
    } else {
      assert TakeRun(q, killed) == [TakeOver(q, false)] + [];
      ExecCons(sys, s0, TakeOver(q, false), s2, []);
    }
  }

  lemma {:induction false} ExecForce(sys: System, p: Pid, q: Pid, killed: bool)
    requires p != q && p in sys.jobs && q in sys.jobs
    ensures Exec(sys, Two(sys, p, AtWork, q, AtUnlink(killed, None), Some(p), Some(p)),
                 [Unlink(q, true), Rmdir(q, true), Mkdir(q, true)])
         == Some(Two(sys, p, AtWork, q, AtWritePid, Some(q), None))
  {
    hide Step, Exec, Init, Two;
    TwoForces(sys, p, q, killed);
    var s0 := Two(sys, p, AtWork, q, AtUnlink(killed, None), Some(p), Some(p));
    var s1 := Two(sys, p, AtWork, q, AtRmdir(killed, None), Some(p), None);
    var s2 := Two(sys, p, AtWork, q, AfterForce(killed), None, None);
    var s3 := Two(sys, p, AtWork, q, AtWritePid, Some(q), None);
    var run := [Unlink(q, true), Rmdir(q, true), Mkdir(q, true)];
    ExecNil(sys, s3);
    assert run[2..] == [Mkdir(q, true)] + [];
    ExecCons(sys, s2, Mkdir(q, true), s3, []);
    assert run[1..] == [Rmdir(q, true)] + run[2..];
    ExecCons(sys, s1, Rmdir(q, true), s2, run[2..]);
    assert run == [Unlink(q, true)] + run[1..];
    ExecCons(sys, s0, Unlink(q, true), s1, run[1..]);
  }

  /** With any two processes there are runs from the start that end with both of them holding the lock: one waits too
      long for the other and takes the directory away, without a kill or after a kill that was run in vain. */
  lemma {:induction false} ExclusionCanFail(sys: System, p: Pid, q: Pid, killed: bool)
    requires p != q && p in sys.jobs && q in sys.jobs
    ensures var s := Exec(sys, Init(sys), ForcedRun(p, q, killed));
      && s.Some? && !Exclusive(s.value)
      && p in s.value.phase && InHold(s.value.phase[p]) && q in s.value.phase && InHold(s.value.phase[q])
  {
    hide Exec, Init, Step, Exclusive, WaitRun, TakeRun;
    var s1 := Two(sys, p, AtWork, q, AtSleep(Some(p)), Some(p), Some(p));
    var s2 := Two(sys, p, AtWork, q, AtUnlink(killed, None), Some(p), Some(p));
    var s3 := Two(sys, p, AtWork, q, AtWritePid, Some(q), None);
    var force := [Unlink(q, true), Rmdir(q, true), Mkdir(q, true)];
    ExecWait(sys, p, q);
    ExecAppend(sys, Init(sys), WaitRun(p, q), TakeRun(q, killed) + force, s1);
    ExecTake(sys, p, q, killed);
    ExecAppend(sys, s1, TakeRun(q, killed), force, s2);
    ExecForce(sys, p, q, killed);
    BothHold(sys, p, q, s3);
  }

  lemma {:induction false} BothHold(sys: System, p: Pid, q: Pid, s: State)
    requires p != q && s == Two(sys, p, AtWork, q, AtWritePid, Some(q), None)
    ensures !Exclusive(s)
  {
    assert InHold(s.phase[p]) && InHold(s.phase[q]);
  }

  /** A process that ends leaves the lock directory behind exactly when it cannot write its pid, or cannot remove the
      pid file or the directory. */
  lemma {:induction false} LeaveBehind(sys: System, s: State, a: Action)
    requires Inv(sys, s) && Step(sys, s, a).Some? && s.dir == Some(a.p) && InHold(s.phase[a.p])
    requires var s' := Step(sys, s, a).value; !InHold(s'.phase[a.p]) && !s'.phase[a.p].Dead?
    ensures var s' := Step(sys, s, a).value;
      s'.dir == Some(a.p) <==> a == WritePid(a.p, false) || a == Unlink(a.p, false) || a == Rmdir(a.p, false)
  {
    hide Listed, Without, Rule;
  }

  /** A step of another kind leaves the directory that a process has left behind. */
  lemma {:induction false} StaysOneMore(sys: System, s: State, a: Action, p: Pid)
    requires HolderOwns(s) && Step(sys, s, a).Some? && !Forces(s, a)
    requires s.dir == Some(p) && p in s.phase && HasEnded(s.phase[p])
    ensures var s' := Step(sys, s, a).value; s'.dir == Some(p) && p in s'.phase && HasEnded(s'.phase[p])
  {
    hide Listed, Without, Rule;
  }

  predicate HasEnded(ph: Phase) { ph.Stopped? || ph.Leaked? || ph.Kept? || ph.Dead? }

  ghost predicate NobodyForces(sys: System, s: State, run: seq<Action>)
    decreases |run|
  {
    run == [] ||
    (!Forces(s, run[0]) && (Step(sys, s, run[0]).Some? ==> NobodyForces(sys, Step(sys, s, run[0]).value, run[1..])))
  }

  /** A directory left behind is there until it is removed by force. */
  lemma {:induction false} StaysBehind(sys: System, s: State, run: seq<Action>, p: Pid)
    requires Inv(sys, s) && NobodyForces(sys, s, run) && Exec(sys, s, run).Some?
    requires s.dir == Some(p) && p in s.phase && HasEnded(s.phase[p])
    ensures Exec(sys, s, run).value.dir == Some(p)
    decreases |run|
  {
    hide Inv, Step, Forces, HasEnded, HolderOwns, Accounted;
    if run != [] {
      InvOwns(sys, s);
      StaysOneMore(sys, s, run[0], p);
      UnforcedIsCareful(s, run[0]);
      StepInv(sys, s, run[0]);
      StaysBehind(sys, Step(sys, s, run[0]).value, run[1..], p);
    }
  }

  lemma {:induction false} InvOwns(sys: System, s: State)
    requires Inv(sys, s)
    ensures HolderOwns(s) && Accounted(s)
  {
  }

  lemma {:induction false} UnforcedIsCareful(s: State, a: Action)
    requires !Forces(s, a)
    ensures IsCareful(s, a)
  {
  }

  /** The failures that make a process leave the directory behind. */
  predicate Fails(a: Action, p: Pid) { a == WritePid(p, false) || a == Unlink(p, false) || a == Rmdir(p, false) }

  lemma {:induction false} LeavesOneMore(sys: System, s: State, a: Action, p: Pid)
    requires HolderOwns(s) && Accounted(s) && Step(sys, s, a).Some? && p in s.phase
    ensures var s' := Step(sys, s, a).value;
      p in s'.phase && (s'.phase[p].Leaked? || s'.phase[p].Kept? ==> s.phase[p] == s'.phase[p] || Fails(a, p))
  {
    hide Listed, Without, Rule, ApplyAll;
  }

  lemma {:induction false} LeaverFailed(sys: System, s: State, run: seq<Action>, p: Pid)
    requires Inv(sys, s) && AllCareful(sys, s, run) && Exec(sys, s, run).Some? && p in s.phase
    requires !s.phase[p].Leaked? && !s.phase[p].Kept?
    ensures var s' := Exec(sys, s, run).value;
      p in s'.phase && (s'.phase[p].Leaked? || s'.phase[p].Kept? ==> exists a :: a in run && Fails(a, p))
    decreases |run|
  {
    hide Inv, Step, IsCareful, Fails, HolderOwns, Accounted;
    if run != [] {
      var s1 := Step(sys, s, run[0]).value;
      InvOwns(sys, s);
      LeavesOneMore(sys, s, run[0], p);
      StepInv(sys, s, run[0]);
      if s1.phase[p].Leaked? || s1.phase[p].Kept? {
        assert Fails(run[0], p) && run[0] in run;
        RunKeeps(sys, s1, run[1..], p);
      } else {
        LeaverFailed(sys, s1, run[1..], p);
        assert forall a :: a in run[1..] ==> a in run;
      }
    }
  }

  lemma {:induction false} RunKeeps(sys: System, s: State, run: seq<Action>, p: Pid)
    requires Exec(sys, s, run).Some? && p in s.phase
    ensures p in Exec(sys, s, run).value.phase
    decreases |run|
  {
    hide Step;
    if run != [] {
      StepKeys(sys, s, run[0]);
      assert p in Step(sys, s, run[0]).value.phase.Keys;
      RunKeeps(sys, Step(sys, s, run[0]).value, run[1..], p);
    }
  }

  /** In every careful run: a directory whose maker has ended alive is there because the maker could not write its pid,
      or not remove the pid file or the directory. */
  lemma {:induction false} LeftBehind(sys: System, run: seq<Action>, p: Pid)
    requires AllCareful(sys, Init(sys), run) && Exec(sys, Init(sys), run).Some?
    ensures var s := Exec(sys, Init(sys), run).value;
      s.dir == Some(p) && p in s.phase && !InHold(s.phase[p]) && !s.phase[p].Dead? ==>
        exists a :: a in run && Fails(a, p)
  {
    hide AllCareful, Exec, Fails, HolderOwns, Serial, Once, SlainDead;
    InitInv(sys);
    RunInv(sys, Init(sys), run);
    var s := Exec(sys, Init(sys), run).value;
    if p in s.phase {
      assert p in sys.jobs.Keys;
      LeaverFailed(sys, Init(sys), run, p);
    }
  }
}
