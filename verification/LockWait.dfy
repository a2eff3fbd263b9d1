/** How long an active response waits for the lock directory before it takes the lock over. */
module LockWait {

  const MAX_ITERATION := 50

  /** What one round sees in the file with the pid of the holder. */
  datatype Observation = Unreadable | Pid(pid: int)

  /** One waiting cycle of `lock`, from the round `k` on: `i` is the back-off counter, `saved` the pid that the
      cycle remembers (-1 for none). The result is the time slept until the takeover. */
  function Slept(seen: nat -> Observation, k: nat, i: nat, saved: int): nat
    decreases MAX_ITERATION - i
  {
    if i >= MAX_ITERATION then 0
    else
      var saved' := if seen(k).Pid? && saved == -1 then seen(k).pid else saved;
      var nap := if seen(k).Pid? && seen(k).pid == saved' then i + 1 else i;
      nap + Slept(seen, k + 1, nap + 1, saved')
  }

  /** The least and the greatest time that can have been slept when the counter stands at `i`: naps of every
      second, and of every, length below `i`. */
  function Least(i: nat): nat { if i < 2 then 0 else Least(i - 2) + i - 1 }

  function Greatest(i: nat): nat { if i == 0 then 0 else Greatest(i - 1) + i - 1 }

  lemma {:induction false} ClosedForms(m: nat)
    ensures Least(2 * m) == m * m && Least(2 * m + 1) == m * (m + 1)
    ensures 2 * Greatest(m) == m * (m - 1)
  {
    if m > 0 {
      ClosedForms(m - 1);
    }
  }

  lemma {:induction false} Ends()
    ensures Least(50) == 625 && Least(51) == 650 && Greatest(49) == 1176 && Greatest(50) == 1225
  {
    ClosedForms(25);
    ClosedForms(49);
    ClosedForms(50);
  }

  lemma {:induction false} LeastGrows(i: nat)
    ensures Least(i) <= Least(i + 1) <= Least(i) + i
  {
    if i >= 2 {
      LeastGrows(i - 2);
    }
  }

  /** Whatever pids or read failures the cycle sees, the time slept before the takeover is between 625 and 1226
      seconds. */
  lemma {:induction false} WaitBounds(seen: nat -> Observation, k: nat, i: nat, saved: int, before: nat)
    requires i < MAX_ITERATION && Least(i) <= before <= Greatest(i)
    ensures 625 <= before + Slept(seen, k, i, saved) <= 1226
    decreases MAX_ITERATION - i
  {
    Ends();
    LeastGrows(i);
    var saved' := if seen(k).Pid? && saved == -1 then seen(k).pid else saved;
    var nap := if seen(k).Pid? && seen(k).pid == saved' then i + 1 else i;
    if nap + 1 < MAX_ITERATION {
      WaitBounds(seen, k + 1, nap + 1, saved', before + nap);
    }
  }

  /** The waiting loop of `lock`, in which every attempt to create the directory fails. */
  method WaitCycle(seen: nat -> Observation) returns (slept: nat)
    ensures slept == Slept(seen, 0, 0, -1)
    ensures 625 <= slept <= 1226
  {
    WaitBounds(seen, 0, 0, -1, 0);
    var i: nat := 0;
    var saved := -1;
    var round: nat := 0;
    slept := 0;
    while i < MAX_ITERATION
      invariant slept + Slept(seen, round, i, saved) == Slept(seen, 0, 0, -1)
      decreases MAX_ITERATION - i
    {
      match seen(round) {
        case Unreadable =>
        case Pid(pid) =>
          if saved == -1 {
            saved := pid;
          }
          if pid == saved {
            i := i + 1;
          }
      }
      slept := slept + i;
      i := i + 1;
      round := round + 1;
    }
  }

  function Always(pid: int): nat -> Observation { _ => Pid(pid) }

  function OnlyFrom(k: nat, pid: int): nat -> Observation { j => if j < k then Unreadable else Pid(pid) }

  /** The lower bound is reached when every round reads the same pid. */
  lemma {:induction false} ShortestWait(pid: int, k: nat, i: nat)
    requires i % 2 == 0 && i <= MAX_ITERATION && pid != -1
    ensures Slept(Always(pid), k, i, pid) + Least(i) == 625
    ensures i == 0 ==> Slept(Always(pid), k, i, -1) == 625
    decreases MAX_ITERATION - i
  {
    Ends();
    if i < MAX_ITERATION {
      ShortestWait(pid, k + 1, i + 2);
    }
  }

  /** The upper bound is reached when only the last round can read the pid. */
  lemma {:induction false} LongestWait(pid: int, i: nat)
    requires i <= 49 && pid != -1
    ensures Slept(OnlyFrom(49, pid), i, i, -1) + Greatest(i) == 1226
    decreases 49 - i
  {
    Ends();
    if i < 49 {
      LongestWait(pid, i + 1);
    }
  }
}
