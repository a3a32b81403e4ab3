/** What ends a sleep, and what wait returns, in every step of every run. */
module ProcWait {
  import opened ProcTable
  import opened ProcRuns

  // Waking

  /** A wakeup makes runnable exactly the processes asleep on its channel, and does nothing else to any. */
  lemma WakeupExactly(s: Sys, s': Sys, c: nat, chan: Chan, i: nat)
    requires Wakeup(s, s', c, chan) && i < |s.procs|
    ensures |s'.procs| == |s.procs|
    ensures s.procs[i].state == Sleeping && s.procs[i].chan == chan ==> s'.procs[i] == s.procs[i].(state := Runnable)
    ensures !(s.procs[i].state == Sleeping && s.procs[i].chan == chan) ==> s'.procs[i] == s.procs[i]
  {
  }

  ghost predicate WokenUp(s: Sys, s': Sys, chan: Chan) { exists c: nat :: Wakeup(s, s', c, chan) }

  ghost predicate Killed(s: Sys, s': Sys, q: nat) { exists c: nat, p: nat :: Kill(s, s', c, p, q) }

  ghost predicate Exits(s: Sys, s': Sys, p: nat) { exists c: nat :: Exit(s, s', c, p) }

  predicate HasZombie(t: Table, p: nat) { exists k | 0 <= k < |t| :: t[k].parent == p && t[k].state == Zombie }

  /** Process p exits: its parent hears of it, and init of the zombies it is handed. */
  ghost predicate ExitReaches(s: Sys, s': Sys, p: nat, i: nat)
    requires p < |s.procs|
  {
    Exits(s, s', p) && (s.procs[p].parent == i || (i == 0 && HasZombie(s.procs, p)))
  }

  lemma ExitWakesWhom(t: Table, p: nat, i: nat)
    requires p < |t| && i < |t| && i != p && t[i].state == Sleeping && Exited(t, p, 0)[i].state != Sleeping
    ensures Exited(t, p, 0)[i].state == Runnable
    ensures (t[p].parent >= 0 && t[i].chan == OfProc(t[p].parent)) || (t[i].chan == OfProc(0) && HasZombie(t, p))
  {
    var parent := t[p].parent;
    var t1 := if parent >= 0 then Wakeup1(t, OfProc(parent)) else t;
    if t1[i].state == Sleeping {
      var k :| 0 <= k < |t1| && ZombieChild(t1[k], p);
      assert t[k].parent == p && t[k].state == Zombie;
    }
  }

  /** A process stops sleeping only by a wakeup on its channel, a kill that names it, or, in wait, the exit of a child
      of its own or of one that leaves it a zombie. */
  lemma WhoWakes(s: Sys, s': Sys, i: nat)
    requires Inv(s) && Next(s, s') && i < |s.procs| && s.procs[i].state == Sleeping
    requires |s'.procs| == |s.procs| && s'.procs[i].state != Sleeping
    ensures s'.procs[i].state == Runnable
    ensures || WokenUp(s, s', s.procs[i].chan) || Killed(s, s', i)
            || (s.procs[i].chan == OfProc(i) && exists p: nat :: p < |s.procs| && ExitReaches(s, s', p, i))
  {
    if c: nat, p: nat :| ProcStep(s, s', c, p) {
      WakesInStep(s, s', c, p, i);
    } else if c: nat, p: nat, q: nat :| Kill(s, s', c, p, q) || ForkAlloc(s, s', c, p, q) || WaitReap(s, s', c, p, q) {
      assert CpuOk(s.procs, s.cpus[c], s.lock == c);
      assert q == i && Kill(s, s', c, p, i);
    } else {
      WakesOtherwise(s, s', i);
    }
  }

  /** In fork, wait and sleep a process touches no sleeper. */
  lemma SleepersLeft(s: Sys, s': Sys, c: nat, p: nat, i: nat)
    requires Inv(s) && ProcStep(s, s', c, p) && !Exit(s, s', c, p) && i < |s.procs| && s.procs[i].state == Sleeping
    ensures i < |s'.procs| && s'.procs[i].state == Sleeping
  {
    assert CpuOk(s.procs, s.cpus[c], s.lock == c) && ChildOk(s.procs, p);
  }

  lemma WakesInStep(s: Sys, s': Sys, c: nat, p: nat, i: nat)
    requires Inv(s) && ProcStep(s, s', c, p) && i < |s.procs| && s.procs[i].state == Sleeping
    requires |s'.procs| == |s.procs| && s'.procs[i].state != Sleeping
    ensures s'.procs[i].state == Runnable && s.procs[i].chan == OfProc(i)
    ensures p < |s.procs| && ExitReaches(s, s', p, i)
  {
    assert CpuOk(s.procs, s.cpus[c], s.lock == c) && ContOk(s.procs[i], i);
    assert Exit(s, s', c, p) by {
      if !Exit(s, s', c, p) {
        SleepersLeft(s, s', c, p, i);
      }
    }
    ExitWakesWhom(s.procs, p, i);
  }

  lemma WakesOtherwise(s: Sys, s': Sys, i: nat)
    requires i < |s.procs| && s.procs[i].state == Sleeping && |s'.procs| == |s.procs| && s'.procs[i].state != Sleeping
    requires Inv(s)
    requires || (exists c: nat :: SchedAcquire(s, s', c) || Back(s, s', c) || SchedRelease(s, s', c))
             || (exists c: nat, p: nat :: Pick(s, s', c, p))
             || (exists c: nat, p: nat, lk: nat :: TakeLock(s, s', c, p, lk) || DropLock(s, s', c, p, lk))
             || (exists c: nat, p: nat, chan, lk: nat :: SleepTable(s, s', c, p, chan, lk))
             || (exists c: nat, chan :: Wakeup(s, s', c, chan))
    ensures s'.procs[i].state == Runnable && WokenUp(s, s', s.procs[i].chan)
  {
    if c: nat, chan :| Wakeup(s, s', c, chan) {
      WakeupExactly(s, s', c, chan, i);
    }
  }

  // Channels

  /** A process has a channel only while it sleeps on it, or has been woken and is not back yet. */
  predicate ChanOk(p: Proc, i: nat) {
    p.chan != NoChan ==>
      p.Alive() && ((p.cont == InWait && p.chan == OfProc(i)) || (p.cont.Slept? && p.cont.chan == p.chan))
  }

  predicate ChansOk(t: Table) { forall i: nat | i < |t| :: ChanOk(t[i], i) }

  lemma ChansStep(s: Sys, s': Sys, c: nat, p: nat)
    requires Inv(s) && ChansOk(s.procs) && ProcStep(s, s', c, p)
    ensures ChansOk(s'.procs)
  {
    assert p < |s.procs| && s.procs[p].state == Running by {
      assert CpuOk(s.procs, s.cpus[c], s.lock == c);
    }
    if ForkFail(s, s', c, p) || ForkParent(s, s', c, p) || ForkReady(s, s', c, p) {
      assert ChildOk(s.procs, p);
      ChansFork(s, s', c, p);
    } else if Exit(s, s', c, p) {
      ChansExit(s, s', c, p);
    } else if Yield(s, s', c, p) || SleepMark(s, s', c, p) || WaitSleep(s, s', c, p) {
      ChansOff(s, s', c, p);
    } else {
      ChansQuiet(s, s', c, p);
    }
  }

  lemma ChansFork(s: Sys, s': Sys, c: nat, p: nat)
    requires ChansOk(s.procs) && p < |s.procs| && s.procs[p].state == Running
    requires ForkFail(s, s', c, p) || ForkParent(s, s', c, p) || ForkReady(s, s', c, p)
    requires s.procs[s.procs[p].cont.child].state == Embryo
    ensures ChansOk(s'.procs)
  {
  }

  lemma ChansExit(s: Sys, s': Sys, c: nat, p: nat)
    requires ChansOk(s.procs) && p < |s.procs| && s.procs[p].state == Running && Exit(s, s', c, p)
    ensures ChansOk(s'.procs)
  {
    forall i: nat | i < |s'.procs|
      ensures ChanOk(s'.procs[i], i)
    {
      assert ChanOk(s.procs[i], i);
    }
  }

  lemma ChansOff(s: Sys, s': Sys, c: nat, p: nat)
    requires ChansOk(s.procs) && p < |s.procs| && s.procs[p].state == Running
    requires Yield(s, s', c, p) || SleepMark(s, s', c, p) || WaitSleep(s, s', c, p)
    ensures ChansOk(s'.procs)
  {
  }

  lemma ChansQuiet(s: Sys, s': Sys, c: nat, p: nat)
    requires ChansOk(s.procs) && p < |s.procs| && s.procs[p].state == Running
    requires || Resume(s, s', c, p) || SleepDrop(s, s', c, p) || SleepReturn(s, s', c, p) || Relock(s, s', c, p)
             || WaitEnter(s, s', c, p) || WaitFail(s, s', c, p)
    ensures ChansOk(s'.procs)
  {
  }

  lemma ChansPair(s: Sys, s': Sys, c: nat, p: nat, q: nat)
    requires ChansOk(s.procs) && p < |s.procs| && s.procs[p].state == Running
    requires Kill(s, s', c, p, q) || ForkAlloc(s, s', c, p, q) || WaitReap(s, s', c, p, q)
    ensures ChansOk(s'.procs)
  {
  }

  lemma ChansOthers(s: Sys, s': Sys)
    requires Inv(s) && ChansOk(s.procs)
    requires || (exists c: nat :: SchedAcquire(s, s', c) || Back(s, s', c) || SchedRelease(s, s', c))
             || (exists c: nat, p: nat :: Pick(s, s', c, p))
             || (exists c: nat, p: nat, lk: nat :: TakeLock(s, s', c, p, lk) || DropLock(s, s', c, p, lk))
             || (exists c: nat, p: nat, chan, lk: nat :: SleepTable(s, s', c, p, chan, lk))
             || (exists c: nat, chan :: Wakeup(s, s', c, chan))
    ensures ChansOk(s'.procs)
  {
    forall i: nat | i < |s'.procs|
      ensures ChanOk(s'.procs[i], i)
    {
      assert ChanOk(s.procs[i], i);
    }
  }

  lemma ChansNext(s: Sys, s': Sys)
    requires Inv(s) && ChansOk(s.procs) && Next(s, s')
    ensures ChansOk(s'.procs)
  {
    if c: nat, p: nat :| ProcStep(s, s', c, p) {
      ChansStep(s, s', c, p);
    } else if c: nat, p: nat, q: nat :| Kill(s, s', c, p, q) || ForkAlloc(s, s', c, p, q) || WaitReap(s, s', c, p, q) {
      assert CpuOk(s.procs, s.cpus[c], s.lock == c);
      ChansPair(s, s', c, p, q);
    } else {
      ChansOthers(s, s');
    }
  }

  /** In every run. */
  lemma {:induction false} NoStaleChannel(run: seq<Sys>, i: nat)
    requires IsRun(run) && i < |run|
    ensures ChansOk(run[i].procs)
  {
    if i > 0 {
      var k := i - 1;
      NoStaleChannel(run, k);
      RunInv(run, k);
      assert Next(run[k], run[k + 1]);
      ChansNext(run[k], run[i]);
    }
  }

  // wait

  /** The first zombie among p's children. */
  predicate FirstZombie(t: Table, p: nat, z: nat) {
    && z < |t| && t[z].parent == p && t[z].state == Zombie
    && forall k | 0 <= k < z :: t[k].parent != p || t[k].state != Zombie
  }

  predicate HasChild(t: Table, p: nat) { exists k | 0 <= k < |t| :: t[k].parent == p }

  predicate OthersSame(t: Table, t': Table, p: nat) {
    |t'| == |t| && forall k | 0 <= k < |t| && k != p :: t'[k] == t[k]
  }

  /** Its first zombie child is gone, and no other process is touched. */
  ghost predicate Buried(t: Table, t': Table, p: nat) {
    exists z: nat :: FirstZombie(t, p, z) && z < |t'| && t'[z].state == Unused && OthersSame(t[z := t'[z]], t', p)
  }

  /** A process in wait on a CPU has the lock: the others do not touch it. */
  lemma WaitStep(s: Sys, s': Sys, c: nat, p: nat, d: nat, q: nat)
    requires Inv(s) && s.Runs(c, p) && s.procs[p].cont == InWait && s.lock == c && ProcStep(s, s', d, q)
    ensures |s'.procs| == |s.procs|
    ensures || s'.procs[p] == s.procs[p]
            || (q == p && (WaitFail(s, s', d, p) || WaitSleep(s, s', d, p)))
  {
    assert CpuOk(s.procs, s.cpus[c], true) && CpuOk(s.procs, s.cpus[d], d == c) && ChildOk(s.procs, q);
  }

  lemma WaitBuries(s: Sys, s': Sys, c: nat, p: nat, d: nat, q: nat, z: nat)
    requires Inv(s) && s.Runs(c, p) && s.procs[p].cont == InWait && s.lock == c
    requires Kill(s, s', d, q, z) || ForkAlloc(s, s', d, q, z) || WaitReap(s, s', d, q, z)
    ensures Buried(s.procs, s'.procs, p) && s'.procs[p].cont == User && s'.procs[p].state == Running
  {
    assert CpuOk(s.procs, s.cpus[c], true) && d == c && q == p;
    assert FirstZombie(s.procs, p, z) && OthersSame(s.procs[z := s'.procs[z]], s'.procs, p);
  }

  lemma WaitElse(s: Sys, s': Sys, c: nat, p: nat)
    requires Inv(s) && s.Runs(c, p) && s.procs[p].cont == InWait && s.lock == c
    requires || (exists c: nat :: SchedAcquire(s, s', c) || Back(s, s', c) || SchedRelease(s, s', c))
             || (exists c: nat, p: nat :: Pick(s, s', c, p))
             || (exists c: nat, p: nat, lk: nat :: TakeLock(s, s', c, p, lk) || DropLock(s, s', c, p, lk))
             || (exists c: nat, p: nat, chan, lk: nat :: SleepTable(s, s', c, p, chan, lk))
             || (exists c: nat, chan :: Wakeup(s, s', c, chan))
    ensures s'.procs == s.procs
  {
  }

  /** While p is in wait, on a CPU with the lock, it returns with its first zombie child if it has one; it returns with
      nothing just when it has no child or has been killed; it goes to sleep just when it has children, none dead. */
  lemma WaitTurn(s: Sys, s': Sys, c: nat, p: nat)
    requires Inv(s) && Next(s, s') && s.Runs(c, p) && s.procs[p].cont == InWait && p < |s'.procs|
    ensures s'.procs[p].cont == User ==>
              || Buried(s.procs, s'.procs, p)
              || (!HasZombie(s.procs, p) && (s.procs[p].killed || !HasChild(s.procs, p))
                  && OthersSame(s.procs, s'.procs, p))
    ensures s'.procs[p].state == Sleeping ==>
              && !HasZombie(s.procs, p) && !s.procs[p].killed && HasChild(s.procs, p)
              && s'.procs[p].chan == OfProc(p) && OthersSame(s.procs, s'.procs, p)
    ensures s'.procs[p].cont == User || s'.procs[p].state == Sleeping || s'.procs[p].cont == InWait
  {
    assert CpuOk(s.procs, s.cpus[c], s.lock == c);
    if d: nat, q: nat :| ProcStep(s, s', d, q) {
      WaitStep(s, s', c, p, d, q);
    } else if d: nat, q: nat, z: nat :| Kill(s, s', d, q, z) || ForkAlloc(s, s', d, q, z) || WaitReap(s, s', d, q, z) {
      WaitBuries(s, s', c, p, d, q, z);
    } else {
      WaitElse(s, s', c, p);
    }
  }
}
