/** What a slot of the process table remembers: over every run, who set its killed mark and its pid. */
module ProcHistory {
  import opened ProcTable
  import opened ProcRuns

  ghost predicate Kills(s: Sys, s': Sys, q: nat) { exists c: nat, p: nat :: Kill(s, s', c, p, q) }

  ghost predicate Reaps(s: Sys, s': Sys, q: nat) { exists c: nat, p: nat :: WaitReap(s, s', c, p, q) }

  ghost predicate Forks(s: Sys, s': Sys, q: nat) { exists c: nat, p: nat :: ForkAlloc(s, s', c, p, q) }

  /** In step k somebody's kill names slot q. */
  ghost predicate KillsAt(run: seq<Sys>, k: nat, q: nat) { k < |run| - 1 && Kills(run[k], run[k + 1], q) }

  /** In step k a parent's wait gives slot q back. */
  ghost predicate ReapsAt(run: seq<Sys>, k: nat, q: nat) { k < |run| - 1 && Reaps(run[k], run[k + 1], q) }

  /** In step k fork takes slot q. */
  ghost predicate ForksAt(run: seq<Sys>, k: nat, q: nat) { k < |run| - 1 && Forks(run[k], run[k + 1], q) }

  // One step

  predicate Same(a: Proc, b: Proc) { b.killed == a.killed && b.pid == a.pid }

  /** Every mark and every pid is as it was. */
  predicate AllSame(t: Table, t': Table) { |t'| == |t| && forall i | 0 <= i < |t| :: Same(t[i], t'[i]) }

  predicate Kept(s: Sys, s': Sys) { AllSame(s.procs, s'.procs) && s'.nextpid == s.nextpid }

  lemma QuietSame(s: Sys, s': Sys, c: nat, p: nat)
    requires || Resume(s, s', c, p) || SleepDrop(s, s', c, p) || SleepReturn(s, s', c, p) || Relock(s, s', c, p)
             || WaitEnter(s, s', c, p) || WaitFail(s, s', c, p)
    ensures Kept(s, s')
  {
  }

  lemma OffSame(s: Sys, s': Sys, c: nat, p: nat)
    requires Yield(s, s', c, p) || SleepMark(s, s', c, p) || WaitSleep(s, s', c, p) || Exit(s, s', c, p)
    ensures Kept(s, s')
  {
  }

  lemma ForkSame(s: Sys, s': Sys, c: nat, p: nat)
    requires ForkFail(s, s', c, p) || ForkParent(s, s', c, p) || ForkReady(s, s', c, p)
    ensures Kept(s, s')
  {
  }

  lemma ProcStepSame(s: Sys, s': Sys, c: nat, p: nat)
    requires ProcStep(s, s', c, p)
    ensures Kept(s, s')
  {
    if ForkFail(s, s', c, p) || ForkParent(s, s', c, p) || ForkReady(s, s', c, p) {
      ForkSame(s, s', c, p);
    } else if Yield(s, s', c, p) || SleepMark(s, s', c, p) || WaitSleep(s, s', c, p) || Exit(s, s', c, p) {
      OffSame(s, s', c, p);
    } else {
      QuietSame(s, s', c, p);
    }
  }

  lemma OthersSame(s: Sys, s': Sys)
    requires || (exists c: nat :: SchedAcquire(s, s', c) || Back(s, s', c) || SchedRelease(s, s', c))
             || (exists c: nat, p: nat :: Pick(s, s', c, p))
             || (exists c: nat, p: nat, lk: nat :: TakeLock(s, s', c, p, lk) || DropLock(s, s', c, p, lk))
             || (exists c: nat, p: nat, chan, lk: nat :: SleepTable(s, s', c, p, chan, lk))
             || (exists c: nat, chan :: Wakeup(s, s', c, chan))
    ensures Kept(s, s')
  {
  }

  /** Only kill, fork and wait change marks or pids, and each those of one slot. */
  lemma WhoChanges(s: Sys, s': Sys) returns (q: nat)
    requires Next(s, s')
    ensures Kept(s, s')
            || (q < |s.procs| == |s'.procs| && AllSame(s.procs[q := s'.procs[q]], s'.procs)
                && (Kills(s, s', q) || Forks(s, s', q) || Reaps(s, s', q)))
  {
    q := 0;
    if c: nat, p: nat :| ProcStep(s, s', c, p) {
      ProcStepSame(s, s', c, p);
    } else if c: nat, p: nat, x: nat :| Kill(s, s', c, p, x) || ForkAlloc(s, s', c, p, x) || WaitReap(s, s', c, p, x) {
      q := x;
    } else {
      OthersSame(s, s');
    }
  }

  lemma KillEffect(s: Sys, s': Sys, q: nat)
    requires Kills(s, s', q)
    ensures q < |s.procs| == |s'.procs| && s'.procs[q].killed && s'.procs[q].pid == s.procs[q].pid
    ensures s'.procs[q].state != Sleeping && s'.nextpid == s.nextpid
  {
  }

  lemma ForkEffect(s: Sys, s': Sys, q: nat)
    requires Inv(s) && Forks(s, s', q)
    ensures q < |s.procs| == |s'.procs| && s'.procs[q].killed == s.procs[q].killed && s'.procs[q].pid == s.nextpid
    ensures s'.nextpid == s.nextpid + 1
  {
    var c: nat, p: nat :| ForkAlloc(s, s', c, p, q);
    assert CpuOk(s.procs, s.cpus[c], s.lock == c);
  }

  lemma ReapEffect(s: Sys, s': Sys, q: nat)
    requires Reaps(s, s', q)
    ensures q < |s.procs| == |s'.procs| && !s'.procs[q].killed && s'.procs[q].pid == 0
    ensures s'.nextpid == s.nextpid
  {
  }

  /** What a step does to the mark of slot q. */
  lemma MarkStep(s: Sys, s': Sys, q: nat)
    requires Inv(s) && Next(s, s') && q < |s.procs|
    ensures |s'.procs| == |s.procs|
    ensures s'.procs[q].killed && !s.procs[q].killed ==> Kills(s, s', q)
    ensures !s'.procs[q].killed && s.procs[q].killed ==> Reaps(s, s', q)
  {
    var x := WhoChanges(s, s');
    if !Kept(s, s') {
      if x != q {
        assert Same(s.procs[x := s'.procs[x]][q], s'.procs[q]);
      } else if Kills(s, s', x) {
        KillEffect(s, s', x);
      } else if Forks(s, s', x) {
        ForkEffect(s, s', x);
      }
    }
  }

  lemma {:induction false} RunLength(run: seq<Sys>, i: nat)
    requires IsRun(run) && i < |run|
    ensures |run[i].procs| == |run[0].procs|
  {
    if i > 0 {
      var k := i - 1;
      RunLength(run, k);
      assert Next(run[k], run[k + 1]);
      var _ := WhoChanges(run[k], run[i]);
    }
  }

  // The killed mark

  /** The last word on slot q before moment i was a kill, in step j. */
  ghost predicate KilledSince(run: seq<Sys>, i: nat, q: nat, j: nat) {
    j < i && KillsAt(run, j, q) && forall k: nat | j < k < i :: !ReapsAt(run, k, q)
  }

  /** In every run a slot is marked killed if and only if a kill has named it and no wait has given it back since. */
  lemma {:induction false} KilledExactly(run: seq<Sys>, i: nat, q: nat)
    requires IsRun(run) && i < |run| && q < |run[0].procs|
    ensures q < |run[i].procs|
    ensures run[i].procs[q].killed <==> exists j :: KilledSince(run, i, q, j)
  {
    RunLength(run, i);
    if i > 0 {
      var n := i - 1;
      KilledExactly(run, n, q);
      RunInv(run, n);
      assert Next(run[n], run[n + 1]);
      MarkStep(run[n], run[i], q);
      KilledNext(run, n, i, q);
    }
  }

  lemma KilledNext(run: seq<Sys>, n: nat, i: nat, q: nat)
    requires i == n + 1 < |run| && q < |run[n].procs| == |run[i].procs|
    requires run[n].procs[q].killed <==> exists j :: KilledSince(run, n, q, j)
    requires run[i].procs[q].killed && !run[n].procs[q].killed ==> KillsAt(run, n, q)
    requires !run[i].procs[q].killed && run[n].procs[q].killed ==> ReapsAt(run, n, q)
    ensures run[i].procs[q].killed <==> exists j :: KilledSince(run, i, q, j)
  {
    if KillsAt(run, n, q) {
      KillEffect(run[n], run[i], q);
      assert KilledSince(run, i, q, n);
    } else if ReapsAt(run, n, q) {
      ReapEffect(run[n], run[i], q);
      forall j: nat
        ensures !KilledSince(run, i, q, j)
      {
        assert j < i ==> j == n || j < n < i;
      }
    } else {
      forall j: nat
        ensures KilledSince(run, i, q, j) <==> KilledSince(run, n, q, j)
      {
        if KilledSince(run, n, q, j) {
          forall k: nat | j < k < i
            ensures !ReapsAt(run, k, q)
          {
            assert k < n || k == n;
          }
        }
      }
    }
  }

  /** So a child starts out killed if and only if a kill has named its slot since a wait last gave it back. */
  lemma ForkedKilled(run: seq<Sys>, k: nat, q: nat)
    requires IsRun(run) && ForksAt(run, k, q) && q < |run[0].procs|
    ensures q < |run[k + 1].procs|
    ensures run[k + 1].procs[q].killed <==> exists j :: KilledSince(run, k, q, j)
  {
    KilledExactly(run, k, q);
    RunInv(run, k);
    ForkEffect(run[k], run[k + 1], q);
  }

  /** kill(0) finds the first free slot, whose pid is 0, and marks it; the next child made there starts out killed. */
  lemma KillZero() returns (run: seq<Sys>)
    ensures IsRun(run) && |run| == 6 && |run[0].procs| == 2
    ensures KillsAt(run, 3, 1) && run[3].procs[1].state == Unused && run[3].procs[1].pid == 0 != run[3].procs[0].pid
    ensures ForksAt(run, 4, 1) && run[5].procs[1].state == Embryo && run[5].procs[1].killed
  {
    var init, free := Proc(Runnable, 1, -1, NoChan, false, NewBorn), Proc(Unused, 0, -1, NoChan, false, User);
    var s0 := Sys([init, free], [Cpu(-1, true)], -1, 2, map[]);
    var s1 := s0.(lock := 0);
    var s2 := s1.(cpus := s1.cpus[0 := Cpu(0, false)]).Put(0, init.(state := Running));
    var s3 := s2.(lock := -1).Put(0, s2.procs[0].(cont := User));
    var s4 := s3.Put(1, free.(killed := true));
    var s5 := s4.(nextpid := 3)
              .Put(1, s4.procs[1].(state := Embryo, pid := 2))
              .Put(0, s4.procs[0].(cont := Forking(1)));
    assert SchedAcquire(s0, s1, 0) && Pick(s1, s2, 0, 0) && ProcStep(s2, s3, 0, 0);
    assert Kill(s3, s4, 0, 0, 1) && ForkAlloc(s4, s5, 0, 0, 1);
    run := [s0, s1, s2, s3, s4, s5];
    forall k | 0 <= k < |run| - 1
      ensures Next(run[k], run[k + 1])
    {
    }
  }

  // kill ends a wait

  /** Nobody marked killed is asleep in wait. */
  predicate WaitersSpared(t: Table) {
    forall i | 0 <= i < |t| :: SparedAt(t[i])
  }

  predicate SparedAt(p: Proc) { p.state == Sleeping && p.cont == InWait ==> !p.killed }

  lemma SparedQuiet(s: Sys, s': Sys, c: nat, p: nat)
    requires WaitersSpared(s.procs)
    requires || Resume(s, s', c, p) || SleepDrop(s, s', c, p) || SleepReturn(s, s', c, p) || Relock(s, s', c, p)
             || WaitEnter(s, s', c, p) || WaitFail(s, s', c, p)
    requires p < |s.procs| && s.procs[p].state == Running
    ensures WaitersSpared(s'.procs)
  {
  }

  lemma SparedOff(s: Sys, s': Sys, c: nat, p: nat)
    requires WaitersSpared(s.procs)
    requires Yield(s, s', c, p) || SleepMark(s, s', c, p) || WaitSleep(s, s', c, p)
    ensures WaitersSpared(s'.procs)
  {
  }

  lemma SparedFork(s: Sys, s': Sys, c: nat, p: nat)
    requires WaitersSpared(s.procs) && (ForkFail(s, s', c, p) || ForkParent(s, s', c, p) || ForkReady(s, s', c, p))
    requires p < |s.procs| && s.procs[p].state == Running
    requires s.procs[p].cont.child < |s.procs| ==> s.procs[s.procs[p].cont.child].state == Embryo
    ensures WaitersSpared(s'.procs)
  {
  }

  lemma SparedExit(s: Sys, s': Sys, c: nat, p: nat)
    requires WaitersSpared(s.procs) && Exit(s, s', c, p)
    ensures WaitersSpared(s'.procs)
  {
    forall i | 0 <= i < |s'.procs|
      ensures SparedAt(s'.procs[i])
    {
      assert SparedAt(s.procs[i]);
    }
  }

  lemma SparedStep(s: Sys, s': Sys, c: nat, p: nat)
    requires Inv(s) && WaitersSpared(s.procs) && ProcStep(s, s', c, p)
    ensures WaitersSpared(s'.procs)
  {
    assert p < |s.procs| && s.procs[p].state == Running by {
      assert CpuOk(s.procs, s.cpus[c], s.lock == c);
    }
    if ForkFail(s, s', c, p) || ForkParent(s, s', c, p) || ForkReady(s, s', c, p) {
      assert ChildOk(s.procs, p);
      SparedFork(s, s', c, p);
    } else if Exit(s, s', c, p) {
      SparedExit(s, s', c, p);
    } else if Yield(s, s', c, p) || SleepMark(s, s', c, p) || WaitSleep(s, s', c, p) {
      SparedOff(s, s', c, p);
    } else {
      SparedQuiet(s, s', c, p);
    }
  }

  lemma SparedSlots(s: Sys, s': Sys, c: nat, p: nat, q: nat)
    requires WaitersSpared(s.procs) && p < |s.procs| && s.procs[p].state == Running
    requires Kill(s, s', c, p, q) || ForkAlloc(s, s', c, p, q) || WaitReap(s, s', c, p, q)
    ensures WaitersSpared(s'.procs)
  {
  }

  lemma SparedOthers(s: Sys, s': Sys)
    requires Inv(s) && WaitersSpared(s.procs)
    requires || (exists c: nat :: SchedAcquire(s, s', c) || Back(s, s', c) || SchedRelease(s, s', c))
             || (exists c: nat, p: nat :: Pick(s, s', c, p))
             || (exists c: nat, p: nat, lk: nat :: TakeLock(s, s', c, p, lk) || DropLock(s, s', c, p, lk))
             || (exists c: nat, p: nat, chan, lk: nat :: SleepTable(s, s', c, p, chan, lk))
             || (exists c: nat, chan :: Wakeup(s, s', c, chan))
    ensures WaitersSpared(s'.procs)
  {
    forall i | 0 <= i < |s'.procs|
      ensures SparedAt(s'.procs[i])
    {
      assert SparedAt(s.procs[i]);
    }
  }

  lemma SparedNext(s: Sys, s': Sys)
    requires Inv(s) && WaitersSpared(s.procs) && Next(s, s')
    ensures WaitersSpared(s'.procs)
  {
    if c: nat, p: nat :| ProcStep(s, s', c, p) {
      SparedStep(s, s', c, p);
    } else if c: nat, p: nat, q: nat :| Kill(s, s', c, p, q) || ForkAlloc(s, s', c, p, q) || WaitReap(s, s', c, p, q) {
      assert CpuOk(s.procs, s.cpus[c], s.lock == c);
      SparedSlots(s, s', c, p, q);
    } else {
      SparedOthers(s, s');
    }
  }

  /** In no state of any run is a process asleep in wait that somebody has killed: kill wakes it, and it does not go
      back to sleep there. */
  lemma {:induction false} NoKilledWaiter(run: seq<Sys>, i: nat)
    requires IsRun(run) && i < |run|
    ensures WaitersSpared(run[i].procs)
  {
    if i > 0 {
      var k := i - 1;
      NoKilledWaiter(run, k);
      RunInv(run, k);
      assert Next(run[k], run[k + 1]);
      SparedNext(run[k], run[i]);
    }
  }

  // Pids

  /** Every pid has been handed out, and no two slots have the same one, unless it is 0. */
  predicate PidsOk(t: Table, nextpid: nat) {
    && (forall i | 0 <= i < |t| :: t[i].pid < nextpid)
    && (forall i, j | 0 <= i < j < |t| && t[i].pid == t[j].pid :: t[i].pid == 0)
  }

  lemma PidsSame(t: Table, t': Table, nextpid: nat)
    requires PidsOk(t, nextpid) && AllSame(t, t')
    ensures PidsOk(t', nextpid)
  {
    forall i, j | 0 <= i < j < |t'| && t'[i].pid == t'[j].pid
      ensures t'[i].pid == 0
    {
      assert Same(t[i], t'[i]) && Same(t[j], t'[j]);
    }
  }

  lemma PidsPut(t: Table, nextpid: nat, q: nat, p: Proc, nextpid': nat)
    requires PidsOk(t, nextpid) && q < |t| && nextpid <= nextpid' && p.pid < nextpid'
    requires p.pid == 0 || p.pid == t[q].pid || p.pid == nextpid
    ensures PidsOk(t[q := p], nextpid')
  {
  }

  lemma PidsNext(s: Sys, s': Sys)
    requires Inv(s) && PidsOk(s.procs, s.nextpid) && Next(s, s')
    ensures PidsOk(s'.procs, s'.nextpid)
  {
    var q := WhoChanges(s, s');
    if Kept(s, s') {
      PidsSame(s.procs, s'.procs, s.nextpid);
    } else {
      if Kills(s, s', q) {
        KillEffect(s, s', q);
      } else if Forks(s, s', q) {
        ForkEffect(s, s', q);
      } else {
        ReapEffect(s, s', q);
      }
      PidsPut(s.procs, s.nextpid, q, s'.procs[q], s'.nextpid);
      PidsSame(s.procs[q := s'.procs[q]], s'.procs, s'.nextpid);
    }
  }

  /** In every run a pid names at most one slot, free or not. */
  lemma {:induction false} PidsUnique(run: seq<Sys>, i: nat)
    requires IsRun(run) && i < |run|
    ensures PidsOk(run[i].procs, run[i].nextpid)
  {
    if i > 0 {
      var k := i - 1;
      PidsUnique(run, k);
      RunInv(run, k);
      assert Next(run[k], run[k + 1]);
      PidsNext(run[k], run[i]);
    }
  }

  /** Nobody has this pid, and nobody will get it. */
  predicate Retired(s: Sys, pid: nat) {
    0 < pid < s.nextpid && forall i | 0 <= i < |s.procs| :: s.procs[i].pid != pid
  }

  lemma RetiredNext(s: Sys, s': Sys, pid: nat)
    requires Inv(s) && Retired(s, pid) && Next(s, s')
    ensures Retired(s', pid)
  {
    var q := WhoChanges(s, s');
    if !Kept(s, s') {
      if Kills(s, s', q) {
        KillEffect(s, s', q);
      } else if Forks(s, s', q) {
        ForkEffect(s, s', q);
      } else {
        ReapEffect(s, s', q);
      }
    }
    forall i | 0 <= i < |s'.procs|
      ensures s'.procs[i].pid != pid
    {
      assert Kept(s, s') ==> Same(s.procs[i], s'.procs[i]);
      assert !Kept(s, s') ==> Same(s.procs[q := s'.procs[q]][i], s'.procs[i]);
    }
  }

  /** Once wait has given a process's slot back, no slot ever has its pid again. */
  lemma {:induction false} ReapedForGood(run: seq<Sys>, k: nat, q: nat, i: nat)
    requires IsRun(run) && ReapsAt(run, k, q) && k < i < |run| && q < |run[k].procs|
    ensures Retired(run[i], run[k].procs[q].pid)
  {
    if i == k + 1 {
      PidsUnique(run, k);
      RunInv(run, k);
      ReapRetires(run[k], run[i], q);
    } else {
      var n := i - 1;
      ReapedForGood(run, k, q, n);
      RunInv(run, n);
      assert Next(run[n], run[n + 1]);
      RetiredNext(run[n], run[i], run[k].procs[q].pid);
    }
  }

  lemma ReapRetires(s: Sys, s': Sys, q: nat)
    requires Inv(s) && PidsOk(s.procs, s.nextpid) && Reaps(s, s', q) && q < |s.procs|
    ensures Retired(s', s.procs[q].pid)
  {
    var c: nat, p: nat :| WaitReap(s, s', c, p, q);
    ReapEffect(s, s', q);
    assert SlotOk(s.procs, q, s.nextpid);
    forall i | 0 <= i < |s'.procs|
      ensures s'.procs[i].pid != s.procs[q].pid
    {
      if i != q {
        assert s'.procs[i].pid == s.procs[i].pid;
        assert i < q ==> s.procs[i].pid != s.procs[q].pid;
        assert q < i ==> s.procs[q].pid != s.procs[i].pid;
      }
    }
  }
}
