/** What fork and sleep promise their callers, over every run. */
module ProcCalls {
  import opened ProcTable
  import opened ProcRuns

  // fork: no child is left half made

  /** Some process is in the fork that makes slot q. */
  ghost predicate Claimed(t: Table, q: nat) { exists i: nat :: i < |t| && Claims(t, i, q) }

  ghost predicate EmbryosClaimed(t: Table) {
    forall q: nat | q < |t| && t[q].state == Embryo :: Claimed(t, q)
  }

  /** A process in fork stays in it, and nothing becomes an embryo. */
  predicate Keeps(a: Proc, b: Proc) {
    && (InFork(a) ==> InFork(b) && Stage(b).child == Stage(a).child)
    && (b.state == Embryo ==> a.state == Embryo)
  }

  predicate AllKeep(t: Table, t': Table) { |t'| == |t| && forall i | 0 <= i < |t| :: Keeps(t[i], t'[i]) }

  lemma ClaimsKept(t: Table, t': Table)
    requires EmbryosClaimed(t) && AllKeep(t, t')
    ensures EmbryosClaimed(t')
  {
    forall q: nat | q < |t'| && t'[q].state == Embryo
      ensures Claimed(t', q)
    {
      assert Keeps(t[q], t'[q]) && Claimed(t, q);
      var i: nat :| i < |t| && Claims(t, i, q);
      assert Keeps(t[i], t'[i]) && Claims(t', i, q);
    }
  }

  lemma KeepsQuiet(s: Sys, s': Sys, c: nat, p: nat)
    requires p < |s.procs| && s.procs[p].state == Running
    requires || Resume(s, s', c, p) || SleepDrop(s, s', c, p) || SleepReturn(s, s', c, p) || Relock(s, s', c, p)
             || WaitEnter(s, s', c, p) || WaitFail(s, s', c, p)
    ensures AllKeep(s.procs, s'.procs)
  {
  }

  lemma KeepsOff(s: Sys, s': Sys, c: nat, p: nat)
    requires Yield(s, s', c, p) || SleepMark(s, s', c, p) || WaitSleep(s, s', c, p) || Exit(s, s', c, p)
    ensures AllKeep(s.procs, s'.procs)
  {
    if Exit(s, s', c, p) {
      forall i | 0 <= i < |s.procs|
        ensures Keeps(s.procs[i], s'.procs[i])
      {
      }
    }
  }

  lemma KeepsParent(s: Sys, s': Sys, c: nat, p: nat)
    requires p < |s.procs| && s.procs[p].state == Running && ForkParent(s, s', c, p)
    ensures AllKeep(s.procs, s'.procs)
  {
  }

  lemma KeepsPair(s: Sys, s': Sys, c: nat, p: nat, q: nat)
    requires Kill(s, s', c, p, q) || WaitReap(s, s', c, p, q)
    ensures AllKeep(s.procs, s'.procs)
  {
  }

  lemma KeepsOthers(s: Sys, s': Sys)
    requires || (exists c: nat :: SchedAcquire(s, s', c) || Back(s, s', c) || SchedRelease(s, s', c))
             || (exists c: nat, p: nat :: Pick(s, s', c, p))
             || (exists c: nat, p: nat, lk: nat :: TakeLock(s, s', c, p, lk) || DropLock(s, s', c, p, lk))
             || (exists c: nat, p: nat, chan, lk: nat :: SleepTable(s, s', c, p, chan, lk))
             || (exists c: nat, chan :: Wakeup(s, s', c, chan))
    ensures AllKeep(s.procs, s'.procs)
  {
  }

  /** The child gets its own life, or its slot is free again. */
  lemma ClaimEnds(s: Sys, s': Sys, c: nat, p: nat)
    requires Inv(s) && EmbryosClaimed(s.procs) && (ForkFail(s, s', c, p) || ForkReady(s, s', c, p))
    ensures EmbryosClaimed(s'.procs)
  {
    var t, t', q := s.procs, s'.procs, s.procs[p].cont.child;
    assert CpuOk(t, s.cpus[c], s.lock == c);
    forall x: nat | x < |t'| && t'[x].state == Embryo
      ensures Claimed(t', x)
    {
      assert x != q && Claimed(t, x);
      var i: nat :| i < |t| && Claims(t, i, x);
      assert ChildOk(t, p) && ChildOk(t, i) && i != p && i != q;
      assert Claims(t', i, x);
    }
  }

  lemma ClaimBegins(s: Sys, s': Sys, c: nat, p: nat, q: nat)
    requires Inv(s) && EmbryosClaimed(s.procs) && ForkAlloc(s, s', c, p, q)
    ensures EmbryosClaimed(s'.procs)
  {
    var t, t' := s.procs, s'.procs;
    assert CpuOk(t, s.cpus[c], s.lock == c);
    assert Claims(t', p, q);
    forall x: nat | x < |t'| && t'[x].state == Embryo
      ensures Claimed(t', x)
    {
      if x != q {
        assert Claimed(t, x);
        var i: nat :| i < |t| && Claims(t, i, x);
        assert Claims(t', i, x);
      }
    }
  }

  lemma ClaimStep(s: Sys, s': Sys, c: nat, p: nat)
    requires Inv(s) && EmbryosClaimed(s.procs) && ProcStep(s, s', c, p)
    ensures EmbryosClaimed(s'.procs)
  {
    assert p < |s.procs| && s.procs[p].state == Running by {
      assert CpuOk(s.procs, s.cpus[c], s.lock == c);
    }
    if ForkFail(s, s', c, p) || ForkReady(s, s', c, p) {
      ClaimEnds(s, s', c, p);
    } else {
      if ForkParent(s, s', c, p) {
        KeepsParent(s, s', c, p);
      } else if Yield(s, s', c, p) || SleepMark(s, s', c, p) || WaitSleep(s, s', c, p) || Exit(s, s', c, p) {
        KeepsOff(s, s', c, p);
      } else {
        KeepsQuiet(s, s', c, p);
      }
      ClaimsKept(s.procs, s'.procs);
    }
  }

  lemma ClaimNext(s: Sys, s': Sys)
    requires Inv(s) && EmbryosClaimed(s.procs) && Next(s, s')
    ensures EmbryosClaimed(s'.procs)
  {
    if c: nat, p: nat :| ProcStep(s, s', c, p) {
      ClaimStep(s, s', c, p);
    } else if c: nat, p: nat, q: nat :| ForkAlloc(s, s', c, p, q) {
      ClaimBegins(s, s', c, p, q);
    } else {
      if c: nat, p: nat, q: nat :| Kill(s, s', c, p, q) || WaitReap(s, s', c, p, q) {
        KeepsPair(s, s', c, p, q);
      } else {
        KeepsOthers(s, s');
      }
      ClaimsKept(s.procs, s'.procs);
    }
  }

  /** In every run a slot is being made only while some process is in the fork that makes it: when fork returns, the
      child is runnable or its slot is free. */
  lemma {:induction false} NoOrphanEmbryo(run: seq<Sys>, i: nat)
    requires IsRun(run) && i < |run|
    ensures EmbryosClaimed(run[i].procs)
  {
    if i > 0 {
      var k := i - 1;
      NoOrphanEmbryo(run, k);
      RunInv(run, k);
      assert Next(run[k], run[k + 1]);
      ClaimNext(run[k], run[i]);
    }
  }

  // sleep: it comes back with the lock it was called with

  /** Inside sleep(chan, lk), on a CPU or not. */
  predicate Inside(p: Proc, chan: Chan, lk: nat) {
    p.Alive() && var st := Stage(p);
    st == Dropping(chan, lk) || st == Marking(chan, lk) || st == Slept(chan, lk) || st == Relocking(lk)
  }

  /** Process p returns, holding lk. */
  ghost predicate Returns(s: Sys, s': Sys, p: nat, lk: nat) {
    (exists c: nat :: Relock(s, s', c, p)) && lk in s'.locks && s'.locks[lk] == p
  }

  lemma InsideProc(s: Sys, s': Sys, c: nat, q: nat, p: nat, chan: Chan, lk: nat)
    requires Inv(s) && ProcStep(s, s', c, q) && p < |s.procs| && Inside(s.procs[p], chan, lk)
    ensures |s'.procs| == |s.procs|
    ensures Inside(s'.procs[p], chan, lk) || (q == p && Relock(s, s', c, p))
  {
    assert CpuOk(s.procs, s.cpus[c], s.lock == c);
    if ForkFail(s, s', c, q) || ForkParent(s, s', c, q) || ForkReady(s, s', c, q) {
      assert ChildOk(s.procs, q);
    } else if Exit(s, s', c, q) {
      InsideExit(s, s', c, q, p, chan, lk);
    } else {
      InsideSelf(s, s', c, q, p, chan, lk);
    }
  }

  lemma InsideExit(s: Sys, s': Sys, c: nat, q: nat, p: nat, chan: Chan, lk: nat)
    requires Exit(s, s', c, q) && p < |s.procs| && Inside(s.procs[p], chan, lk)
    ensures |s'.procs| == |s.procs| && Inside(s'.procs[p], chan, lk)
  {
  }

  lemma InsideSelf(s: Sys, s': Sys, c: nat, q: nat, p: nat, chan: Chan, lk: nat)
    requires q < |s.procs| && s.procs[q].state == Running && p < |s.procs| && Inside(s.procs[p], chan, lk)
    requires || Resume(s, s', c, q) || SleepDrop(s, s', c, q) || SleepReturn(s, s', c, q) || Relock(s, s', c, q)
             || WaitEnter(s, s', c, q) || WaitFail(s, s', c, q) || Yield(s, s', c, q) || SleepMark(s, s', c, q)
             || WaitSleep(s, s', c, q)
    ensures |s'.procs| == |s.procs|
    ensures Inside(s'.procs[p], chan, lk) || (q == p && Relock(s, s', c, p))
  {
  }

  lemma InsideTwo(s: Sys, s': Sys, c: nat, q: nat, x: nat, p: nat, chan: Chan, lk: nat)
    requires Inv(s) && (Kill(s, s', c, q, x) || ForkAlloc(s, s', c, q, x) || WaitReap(s, s', c, q, x))
    requires p < |s.procs| && Inside(s.procs[p], chan, lk)
    ensures |s'.procs| == |s.procs| && Inside(s'.procs[p], chan, lk)
  {
    assert CpuOk(s.procs, s.cpus[c], s.lock == c);
  }

  lemma InsideSched(s: Sys, s': Sys, p: nat, chan: Chan, lk: nat)
    requires p < |s.procs| && Inside(s.procs[p], chan, lk)
    requires || (exists c: nat :: SchedAcquire(s, s', c) || Back(s, s', c) || SchedRelease(s, s', c))
             || (exists c: nat, q: nat :: Pick(s, s', c, q))
             || (exists c: nat, q: nat, l: nat :: TakeLock(s, s', c, q, l) || DropLock(s, s', c, q, l))
             || (exists c: nat, ch :: Wakeup(s, s', c, ch))
    ensures |s'.procs| == |s.procs| && Inside(s'.procs[p], chan, lk)
  {
  }

  lemma InsideNext(s: Sys, s': Sys, p: nat, chan: Chan, lk: nat)
    requires Inv(s) && Next(s, s') && p < |s.procs| && Inside(s.procs[p], chan, lk)
    ensures |s'.procs| == |s.procs|
    ensures Inside(s'.procs[p], chan, lk) || Returns(s, s', p, lk)
  {
    if c: nat, q: nat :| ProcStep(s, s', c, q) {
      InsideProc(s, s', c, q, p, chan, lk);
    } else if c: nat, q: nat, x: nat :| Kill(s, s', c, q, x) || ForkAlloc(s, s', c, q, x) || WaitReap(s, s', c, q, x) {
      InsideTwo(s, s', c, q, x, p, chan, lk);
    } else if c: nat, q: nat, ch, l: nat :| SleepTable(s, s', c, q, ch, l) {
      assert CpuOk(s.procs, s.cpus[c], s.lock == c);
      assert s.procs[p].cont == s'.procs[p].cont && Inside(s'.procs[p], chan, lk);
    } else {
      InsideSched(s, s', p, chan, lk);
    }
  }

  /** In step k process p calls sleep(chan, lk). */
  ghost predicate CallsAt(run: seq<Sys>, k: nat, p: nat, chan: Chan, lk: nat) {
    k < |run| - 1 && Calls(run[k], run[k + 1], p, chan, lk)
  }

  ghost predicate Calls(s: Sys, s': Sys, p: nat, chan: Chan, lk: nat) {
    exists c: nat :: SleepTable(s, s', c, p, chan, lk)
  }

  ghost predicate ReturnsAt(run: seq<Sys>, k: nat, p: nat, lk: nat) {
    k < |run| - 1 && Returns(run[k], run[k + 1], p, lk)
  }

  ghost predicate CameBack(run: seq<Sys>, k: nat, p: nat, lk: nat, i: nat) {
    exists m: nat :: k < m < i && ReturnsAt(run, m, p, lk)
  }

  lemma StaysBack(run: seq<Sys>, k: nat, p: nat, lk: nat, n: nat, i: nat)
    requires CameBack(run, k, p, lk, n) && n <= i
    ensures CameBack(run, k, p, lk, i)
  {
    var m: nat :| k < m < n && ReturnsAt(run, m, p, lk);
    assert k < m < i;
  }

  lemma SleepBegins(s: Sys, s': Sys, p: nat, chan: Chan, lk: nat)
    requires Inv(s) && Calls(s, s', p, chan, lk)
    ensures p < |s'.procs| && Inside(s'.procs[p], chan, lk)
  {
    var c: nat :| SleepTable(s, s', c, p, chan, lk);
    assert CpuOk(s.procs, s.cpus[c], s.lock == c);
  }

  lemma SleepStays(s: Sys, s': Sys, p: nat, chan: Chan, lk: nat)
    requires Inv(s) && Next(s, s') && p < |s.procs|
    ensures |s'.procs| == |s.procs|
    ensures Inside(s.procs[p], chan, lk) ==>
              Inside(s'.procs[p], chan, lk) || Returns(s, s', p, lk)
  {
    if Inside(s.procs[p], chan, lk) {
      InsideNext(s, s', p, chan, lk);
    } else {
      SameSize(s, s');
    }
  }

  lemma SameSize(s: Sys, s': Sys)
    requires Next(s, s')
    ensures |s'.procs| == |s.procs|
  {
    if c: nat, p: nat :| ProcStep(s, s', c, p) {
      ProcSize(s, s', c, p);
    }
  }

  lemma ProcSize(s: Sys, s': Sys, c: nat, p: nat)
    requires ProcStep(s, s', c, p)
    ensures |s'.procs| == |s.procs|
  {
  }

  lemma SleepStep(run: seq<Sys>, k: nat, p: nat, chan: Chan, lk: nat, n: nat, i: nat)
    requires IsRun(run) && k < n && i == n + 1 < |run| && p < |run[n].procs|
    ensures p < |run[i].procs|
    ensures Inside(run[n].procs[p], chan, lk) ==> Inside(run[i].procs[p], chan, lk) || CameBack(run, k, p, lk, i)
  {
    RunInv(run, n);
    assert Next(run[n], run[n + 1]);
    SleepStays(run[n], run[i], p, chan, lk);
    if Inside(run[n].procs[p], chan, lk) && !Inside(run[i].procs[p], chan, lk) {
      assert ReturnsAt(run, n, p, lk);
    }
  }

  /** In every run, a process that has called sleep is still inside, or has come back with the lock it gave up. */
  lemma {:induction false} SleepKeepsLock(run: seq<Sys>, k: nat, p: nat, chan: Chan, lk: nat, i: nat)
    requires IsRun(run) && CallsAt(run, k, p, chan, lk) && k < i < |run|
    ensures p < |run[i].procs|
    ensures Inside(run[i].procs[p], chan, lk) || CameBack(run, k, p, lk, i)
  {
    var n := i - 1;
    if n == k {
      RunInv(run, k);
      SleepBegins(run[k], run[i], p, chan, lk);
    } else {
      SleepKeepsLock(run, k, p, chan, lk, n);
      SleepStep(run, k, p, chan, lk, n, i);
      if CameBack(run, k, p, lk, n) {
        StaysBack(run, k, p, lk, n, i);
      }
    }
  }
}
