/** The time that the waiting cycle of the lock takes when the pids that it reads change. */
module WaitTime {
  import opened LockWait

  /** Round `k` reads the pid that the first readable round read. */
  ghost predicate IsFamiliar(seen: nat -> Observation, k: nat) {
    seen(k).Pid? &&
    forall j: nat :: j <= k && seen(j).Pid? && (forall m: nat :: m < j ==> seen(m).Unreadable?) ==> seen(j) == seen(k)
  }

  /** How many of the first `k` rounds do. */
  ghost function Familiar(seen: nat -> Observation, k: nat): nat {
    if k == 0 then 0 else Familiar(seen, k - 1) + if IsFamiliar(seen, k - 1) then 1 else 0
  }

  /** The naps of the first `r` rounds: round `k` sleeps one second for every round before it and one more for every
      round up to itself that read the first pid. */
  ghost function Naps(seen: nat -> Observation, r: nat): nat {
    if r == 0 then 0 else Naps(seen, r - 1) + (r - 1) + Familiar(seen, r)
  }

  /** What the cycle remembers before round `k`. */
  ghost predicate Remembers(seen: nat -> Observation, k: nat, saved: int) {
    if saved == -1 then forall j: nat :: j < k ==> seen(j).Unreadable?
    else exists j: nat :: j < k && seen(j) == Pid(saved) && forall m: nat :: m < j ==> seen(m).Unreadable?
  }

  /** A pid file never names process -1. */
  ghost predicate AreProcesses(seen: nat -> Observation) { forall k: nat :: seen(k) != Pid(-1) }

  lemma {:induction false} RemembersNext(seen: nat -> Observation, k: nat, saved: int)
    requires Remembers(seen, k, saved) && AreProcesses(seen)
    ensures var saved' := if seen(k).Pid? && saved == -1 then seen(k).pid else saved;
      Remembers(seen, k + 1, saved') && (IsFamiliar(seen, k) <==> seen(k) == Pid(saved'))
  {
    if saved != -1 {
      var j: nat :| j < k && seen(j) == Pid(saved) && forall m: nat :: m < j ==> seen(m).Unreadable?;
      forall i: nat | i <= k && seen(i).Pid? && (forall m: nat :: m < i ==> seen(m).Unreadable?) ensures i == j {
      }
    } else if seen(k).Pid? {
      assert IsFamiliar(seen, k);
    }
  }

  /** After `r` rounds, and no earlier, the rounds and those of them that read the first pid come to 50. */
  ghost predicate EndsAfter(seen: nat -> Observation, r: nat) {
    r + Familiar(seen, r) >= 50 && forall j: nat :: j < r ==> j + Familiar(seen, j) < 50
  }

  lemma {:induction false} OneRound(seen: nat -> Observation, k: nat, r: nat, i: nat, saved: int)
    requires k < r && EndsAfter(seen, r) && Remembers(seen, k, saved) && AreProcesses(seen)
    requires i == k + Familiar(seen, k)
    ensures var saved' := if seen(k).Pid? && saved == -1 then seen(k).pid else saved;
      var i' := k + 1 + Familiar(seen, k + 1);
      && Remembers(seen, k + 1, saved')
      && Slept(seen, k, i, saved) == i' - 1 + Slept(seen, k + 1, i', saved')
      && Naps(seen, k + 1) == Naps(seen, k) + i' - 1
  {
    hide Remembers, IsFamiliar, AreProcesses;
    RemembersNext(seen, k, saved);
  }

  lemma {:induction false} WaitTimeFrom(seen: nat -> Observation, k: nat, r: nat, i: nat, saved: int)
    requires k <= r && EndsAfter(seen, r) && Remembers(seen, k, saved) && AreProcesses(seen)
    requires i == k + Familiar(seen, k)
    ensures Naps(seen, k) + Slept(seen, k, i, saved) == Naps(seen, r)
    decreases r - k
  {
    if k < r {
      hide Remembers, AreProcesses, EndsAfter, Slept, Familiar, Naps;
      OneRound(seen, k, r, i, saved);
      WaitTimeFrom(seen, k + 1, r, k + 1 + Familiar(seen, k + 1),
                   if seen(k).Pid? && saved == -1 then seen(k).pid else saved);
    }
  }

  /** The time slept, whatever pids the cycle sees, told by how many rounds read the first of them. */
  lemma {:induction false} SleptForPids(seen: nat -> Observation, r: nat)
    requires AreProcesses(seen) && EndsAfter(seen, r)
    ensures Slept(seen, 0, 0, -1) == Naps(seen, r)
  {
    hide Slept;
    WaitTimeFrom(seen, 0, r, 0, -1);
  }
}
