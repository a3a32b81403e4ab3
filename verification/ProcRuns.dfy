/** Any number of CPUs running the scheduler and the processes of one table. Slot 0 is init, the first process made. */
module ProcRuns {
  import opened ProcTable

  /** A CPU runs its scheduler or, through it, the process it points at; proc is a slot, or -1. */
  datatype Cpu = Cpu(proc: int, scheduler: bool)

  /** lock is the CPU that has ptable.lock, or -1; locks[lk] is the slot of the process that has lock lk, or -1. */
  datatype Sys = Sys(procs: Table, cpus: seq<Cpu>, lock: int, nextpid: nat, locks: map<nat, int>)
  {
    predicate Runs(c: nat, p: nat) {
      c < |cpus| && p < |procs| && !cpus[c].scheduler && cpus[c].proc == p
    }
    predicate Schedules(c: nat) { c < |cpus| && cpus[c].scheduler }
    function Put(p: nat, q: Proc): Sys
      requires p < |procs|
    {
      this.(procs := procs[p := q])
    }
  }

  // The scheduler

  ghost predicate SchedAcquire(s: Sys, s': Sys, c: nat) {
    s.Schedules(c) && s.cpus[c].proc == -1 && s.lock == -1 && s' == s.(lock := c)
  }

  ghost predicate Pick(s: Sys, s': Sys, c: nat, p: nat) {
    && s.Schedules(c) && s.cpus[c].proc == -1 && s.lock == c && p < |s.procs| && s.procs[p].state == Runnable
    && s' == s.(cpus := s.cpus[c := Cpu(p, false)]).Put(p, s.procs[p].(state := Running))
  }

  /** Back from swtch: c->proc = 0. */
  ghost predicate Back(s: Sys, s': Sys, c: nat) {
    s.Schedules(c) && s.cpus[c].proc >= 0 && s.lock == c && s' == s.(cpus := s.cpus[c := Cpu(-1, true)])
  }

  ghost predicate SchedRelease(s: Sys, s': Sys, c: nat) {
    s.Schedules(c) && s.cpus[c].proc == -1 && s.lock == c && s' == s.(lock := -1)
  }

  /** sched(): the CPU goes back to its scheduler with the lock, the process having changed its state. */
  function Leave(s: Sys, c: nat, p: nat, q: Proc): Sys
    requires c < |s.cpus| && p < |s.procs|
  {
    s.(cpus := s.cpus[c := Cpu(p, true)], lock := c).Put(p, q)
  }

  // A running process

  /** The end of yield, or of forkret. */
  ghost predicate Resume(s: Sys, s': Sys, c: nat, p: nat) {
    && s.Runs(c, p) && s.lock == c && (s.procs[p].cont == NewBorn || s.procs[p].cont.Yielded?)
    && s' == s.(lock := -1).Put(p, s.procs[p].(cont := if s.procs[p].cont.Yielded? then s.procs[p].cont.back else User))
  }

  /** A timer tick, in user space or in the kernel: in fork, or before sleep takes its lock again. */
  ghost predicate Yield(s: Sys, s': Sys, c: nat, p: nat) {
    && s.Runs(c, p) && s.lock == -1 && Preemptible(s.procs[p].cont)
    && s' == Leave(s, c, p, s.procs[p].(state := Runnable, cont := Yielded(s.procs[p].cont)))
  }

  predicate Preemptible(cont: Cont) {
    cont == User || cont.Forking? || cont.Parented? || cont.Relocking?
  }

  ghost predicate TakeLock(s: Sys, s': Sys, c: nat, p: nat, lk: nat) {
    && s.Runs(c, p) && s.procs[p].cont == User && lk in s.locks && s.locks[lk] == -1
       && s' == s.(locks := s.locks[lk := p])
  }

  ghost predicate DropLock(s: Sys, s': Sys, c: nat, p: nat, lk: nat) {
    && s.Runs(c, p) && s.procs[p].cont == User && lk in s.locks && s.locks[lk] == p
       && s' == s.(locks := s.locks[lk := -1])
  }

  // sleep(chan, lk), for lk other than ptable.lock

  ghost predicate SleepTable(s: Sys, s': Sys, c: nat, p: nat, chan: Chan, lk: nat) {
    && s.Runs(c, p) && s.lock == -1 && s.procs[p].cont == User && chan.Other? && lk in s.locks && s.locks[lk] == p
    && s' == s.(lock := c).Put(p, s.procs[p].(cont := Dropping(chan, lk)))
  }

  ghost predicate SleepDrop(s: Sys, s': Sys, c: nat, p: nat) {
    && s.Runs(c, p) && s.procs[p].cont.Dropping?
    && s' == s.(locks := s.locks[s.procs[p].cont.lk := -1]).Put(p,
       s.procs[p].(cont := Marking(s.procs[p].cont.chan, s.procs[p].cont.lk)))
  }

  ghost predicate SleepMark(s: Sys, s': Sys, c: nat, p: nat) {
    && s.Runs(c, p) && s.lock == c && s.procs[p].cont.Marking?
    && var q := s.procs[p];
       s' == Leave(s, c, p, q.(state := Sleeping, chan := q.cont.chan, cont := Slept(q.cont.chan, q.cont.lk)))
  }

  ghost predicate SleepReturn(s: Sys, s': Sys, c: nat, p: nat) {
    && s.Runs(c, p) && s.lock == c && s.procs[p].cont.Slept?
    && s' == s.(lock := -1).Put(p, s.procs[p].(chan := NoChan, cont := Relocking(s.procs[p].cont.lk)))
  }

  ghost predicate Relock(s: Sys, s': Sys, c: nat, p: nat) {
    && s.Runs(c, p) && s.procs[p].cont.Relocking? && s.procs[p].cont.lk in s.locks && s.locks[s.procs[p].cont.lk] == -1
    && s' == s.(locks := s.locks[s.procs[p].cont.lk := p]).Put(p, s.procs[p].(cont := User))
  }

  /** By a process, or by an interrupt handler on whatever its CPU was doing. */
  ghost predicate Wakeup(s: Sys, s': Sys, c: nat, chan: Chan) {
    c < |s.cpus| && s.lock == -1 && s' == s.(procs := Wakeup1(s.procs, chan))
  }

  /** kill matches slots by their pid, free ones too. */
  ghost predicate Kill(s: Sys, s': Sys, c: nat, p: nat, q: nat) {
    && s.Runs(c, p) && s.lock == -1 && s.procs[p].cont == User && q < |s.procs|
    && s' == s.Put(q, s.procs[q].(killed := true, state := if s.procs[q].state == Sleeping then Runnable
       else s.procs[q].state))
  }

  // fork, wait, exit

  ghost predicate ForkAlloc(s: Sys, s': Sys, c: nat, p: nat, q: nat) {
    && s.Runs(c, p) && s.lock == -1 && s.procs[p].cont == User
    && q < |s.procs| && s.procs[q].state == Unused && (forall k | 0 <= k < q :: s.procs[k].state != Unused)
    && s' == s.(nextpid := s.nextpid + 1)
             .Put(q, s.procs[q].(state := Embryo, pid := s.nextpid))
             .Put(p, s.procs[p].(cont := Forking(q)))
  }

  /** No kernel stack or no page table: the slot is given back, without the lock. */
  ghost predicate ForkFail(s: Sys, s': Sys, c: nat, p: nat) {
    && s.Runs(c, p) && s.procs[p].cont.Forking? && s.procs[p].cont.child < |s.procs| && s.procs[p].cont.child != p
    && var q := s.procs[p].cont.child;
       s' == s.Put(q, s.procs[q].(state := Unused)).Put(p, s.procs[p].(cont := User))
  }

  ghost predicate ForkParent(s: Sys, s': Sys, c: nat, p: nat) {
    && s.Runs(c, p) && s.procs[p].cont.Forking? && s.procs[p].cont.child < |s.procs| && s.procs[p].cont.child != p
    && var q := s.procs[p].cont.child;
       s' == s.Put(q, s.procs[q].(parent := p)).Put(p, s.procs[p].(cont := Parented(q)))
  }

  ghost predicate ForkReady(s: Sys, s': Sys, c: nat, p: nat) {
    && s.Runs(c, p) && s.lock == -1
    && s.procs[p].cont.Parented? && s.procs[p].cont.child < |s.procs| && s.procs[p].cont.child != p
    && var q := s.procs[p].cont.child;
       s' == s.Put(q, s.procs[q].(state := Runnable, cont := NewBorn)).Put(p, s.procs[p].(cont := User))
  }

  ghost predicate WaitEnter(s: Sys, s': Sys, c: nat, p: nat) {
    && s.Runs(c, p) && s.lock == -1 && s.procs[p].cont == User
    && s' == s.(lock := c).Put(p, s.procs[p].(cont := InWait))
  }

  /** A turn of wait's loop: take the first zombie child, give up, or sleep until a child exits. */
  ghost predicate WaitReap(s: Sys, s': Sys, c: nat, p: nat, z: nat) {
    && s.Runs(c, p) && s.lock == c && s.procs[p].cont == InWait && z < |s.procs| && z != p && ZombieChild(s.procs[z], p)
    && (forall k | 0 <= k < z :: !ZombieChild(s.procs[k], p))
    && s' == s.(lock := -1).Put(z, Reaped(s.procs[z])).Put(p, s.procs[p].(chan := NoChan, cont := User))
  }

  ghost predicate WaitFail(s: Sys, s': Sys, c: nat, p: nat) {
    && s.Runs(c, p) && s.lock == c && s.procs[p].cont == InWait
    && (forall k | 0 <= k < |s.procs| :: !ZombieChild(s.procs[k], p))
    && (s.procs[p].killed || forall k | 0 <= k < |s.procs| :: s.procs[k].parent != p)
    && s' == s.(lock := -1).Put(p, s.procs[p].(chan := NoChan, cont := User))
  }

  ghost predicate WaitSleep(s: Sys, s': Sys, c: nat, p: nat) {
    && s.Runs(c, p) && s.lock == c && s.procs[p].cont == InWait
    && (forall k | 0 <= k < |s.procs| :: !ZombieChild(s.procs[k], p))
    && !s.procs[p].killed && (exists k | 0 <= k < |s.procs| :: s.procs[k].parent == p)
    && s' == Leave(s, c, p, s.procs[p].(state := Sleeping, chan := OfProc(p)))
  }

  /** init never exits. */
  ghost predicate Exit(s: Sys, s': Sys, c: nat, p: nat) {
    && s.Runs(c, p) && s.lock == -1 && s.procs[p].cont == User && p != 0
    && s' == s.(cpus := s.cpus[c := Cpu(p, true)], lock := c, procs := Exited(s.procs, p, 0))
  }

  // What holds

  /** The tree of processes: init is always alive, and every other live or dead process has a live parent, made before
      it. */
  ghost predicate Tree(t: Table, nextpid: nat) {
    && |t| > 0 && t[0].Alive() && t[0].pid == 1 && t[0].parent == -1
    && (forall i | 0 <= i < |t| :: SlotOk(t, i, nextpid))
  }

  predicate SlotOk(t: Table, i: nat, nextpid: nat)
    requires i < |t|
  {
    && (t[i].state == Unused ==> t[i].parent == -1)
    && (t[i].state != Unused ==> 0 < t[i].pid < nextpid)
    && (i != 0 && (t[i].Alive() || t[i].state == Zombie) ==> t[i].parent >= 0)
    && (t[i].parent >= 0 ==> t[i].parent < |t| && t[t[i].parent].Alive() && t[t[i].parent].pid < t[i].pid)
  }

  /** A stage at which a process on a CPU has ptable.lock. */
  predicate WithTable(cont: Cont) {
    cont == NewBorn || cont.Yielded? || cont == InWait || cont.Dropping? || cont.Marking? || cont.Slept?
  }

  /** A CPU runs a process that is Running, and has ptable.lock just when the process is at such a stage; a CPU that
      still points at a process it has stopped has the lock; no two point at the same process. */
  ghost predicate CpusOk(t: Table, cpus: seq<Cpu>, lock: int) {
    && -1 <= lock < |cpus|
    && (forall c | 0 <= c < |cpus| :: CpuOk(t, cpus[c], lock == c))
    && (forall c, d | 0 <= c < |cpus| && 0 <= d < |cpus| && cpus[c].proc == cpus[d].proc && cpus[c].proc >= 0 :: c == d)
    && (forall i | 0 <= i < |t| && t[i].state == Running :: Placed(cpus, i))
  }

  predicate CpuOk(t: Table, cpu: Cpu, locked: bool) {
    && -1 <= cpu.proc < |t|
    && (!cpu.scheduler ==> cpu.proc >= 0 && t[cpu.proc].state == Running && (locked <==> WithTable(t[cpu.proc].cont)))
    && (cpu.scheduler && cpu.proc >= 0 ==> locked && t[cpu.proc].state != Running)
  }

  ghost predicate Placed(cpus: seq<Cpu>, i: nat) { exists c ::
    0 <= c < |cpus| && !cpus[c].scheduler && cpus[c].proc == i }

  /** Where each process can be, given its state. */
  predicate ContOk(p: Proc, i: nat) {
    match p.state
    case Runnable =>
      p.cont == NewBorn || (p.cont.Yielded? && Preemptible(p.cont.back)) || p.cont == InWait
        || (p.cont.Slept? && p.cont.chan.Other?)
    case Sleeping => (p.cont == InWait && p.chan == OfProc(i))
      || (p.cont.Slept? && p.chan == p.cont.chan && p.chan.Other?)
    case Running =>
      && p.cont != Gone && (p.cont.Yielded? ==> Preemptible(p.cont.back))
      && (p.cont.Slept? || p.cont.Marking? || p.cont.Dropping? ==> p.cont.chan.Other?)
    case _ => true
  }

  /** Where a process is, or was when it was preempted. */
  function Stage(p: Proc): Cont {
    if p.cont.Yielded? then p.cont.back else p.cont
  }

  /** In fork, on a CPU or not. */
  predicate InFork(p: Proc) {
    p.Alive() && (Stage(p).Forking? || Stage(p).Parented?)
  }

  /** A process in fork has its child to itself. */
  predicate ChildOk(t: Table, i: nat)
    requires i < |t|
  {
    InFork(t[i]) ==>
      var q := Stage(t[i]).child;
      q < |t| && q != i && t[q].state == Embryo && t[i].pid < t[q].pid && t[q].parent ==
          if Stage(t[i]).Forking? then -1 else i
  }

  predicate Claims(t: Table, i: nat, q: nat)
    requires i < |t|
  {
    InFork(t[i]) && Stage(t[i]).child == q
  }

  ghost predicate Conts(t: Table) {
    && (forall i | 0 <= i < |t| :: ContOk(t[i], i) && ChildOk(t, i))
    && (forall i, j, q: nat | 0 <= i < |t| && 0 <= j < |t| && Claims(t, i, q) && Claims(t, j, q) :: i == j)
  }

  /** Nobody sleeps in wait with a dead child. */
  ghost predicate Waits(t: Table) {
    forall i, k | 0 <= i < |t| && 0 <= k < |t| && t[i].state == Sleeping && t[i].cont == InWait :: !ZombieChild(t[k], i)
  }

  /** A process about to release lk in sleep has it. */
  ghost predicate LocksOk(t: Table, locks: map<nat, int>) {
    forall i | 0 <= i < |t| && t[i].state == Running && t[i].cont.Dropping? ::
        t[i].cont.lk in locks && locks[t[i].cont.lk] == i
  }

  ghost predicate Inv(s: Sys) {
    && Tree(s.procs, s.nextpid) && CpusOk(s.procs, s.cpus, s.lock) && Conts(s.procs) && Waits(s.procs)
       && LocksOk(s.procs, s.locks)
  }

  // One process changes

  /** Of the same kind in the tree: free, being made, alive, or dead. */
  predicate SameKind(a: Proc, b: Proc) {
    && b.pid == a.pid && b.parent == a.parent && b.Alive() == a.Alive()
    && (b.state == Unused <==> a.state == Unused) && (b.state == Zombie <==> a.state == Zombie)
  }

  lemma TreeSame(t: Table, t': Table, nextpid: nat)
    requires Tree(t, nextpid) && |t'| == |t| && forall i | 0 <= i < |t| :: SameKind(t[i], t'[i])
    ensures Tree(t', nextpid)
  {
    forall i | 0 <= i < |t|
      ensures SlotOk(t', i, nextpid)
    {
      assert SlotOk(t, i, nextpid);
    }
  }

  lemma WaitsPut(t: Table, p: nat, q: Proc)
    requires Waits(t) && p < |t| && q.parent == t[p].parent && (q.state == Zombie ==> t[p].state == Zombie)
    requires q.state == Sleeping && q.cont == InWait ==> forall k | 0 <= k < |t| :: !ZombieChild(t[k], p)
    ensures Waits(t[p := q])
  {
    var t' := t[p := q];
    forall i, k | 0 <= i < |t'| && 0 <= k < |t'| && t'[i].state == Sleeping && t'[i].cont == InWait
      ensures !ZombieChild(t'[k], i)
    {
      assert !ZombieChild(t[k], i);
    }
  }

  /** The process is not a child being made, and begins no fork. */
  lemma ContsPut(t: Table, p: nat, q: Proc)
    requires Conts(t) && p < |t| && ContOk(q, p) && t[p].state != Embryo && q.pid == t[p].pid
    requires InFork(q) ==> InFork(t[p]) && Stage(q) == Stage(t[p])
    ensures Conts(t[p := q])
  {
    var t' := t[p := q];
    forall i | 0 <= i < |t'|
      ensures ContOk(t'[i], i) && ChildOk(t', i)
    {
      assert ContOk(t[i], i) && ChildOk(t, i);
    }
    forall i, j, r: nat | 0 <= i < |t'| && 0 <= j < |t'| && Claims(t', i, r) && Claims(t', j, r)
      ensures i == j
    {
      assert Claims(t, i, r) && Claims(t, j, r);
    }
  }

  lemma LocksPut(t: Table, locks: map<nat, int>, p: nat, q: Proc, locks': map<nat, int>)
    requires LocksOk(t, locks) && p < |t|
    requires forall lk | lk in locks :: lk in locks' && (locks'[lk] == locks[lk] || locks[lk] == p || locks[lk] == -1)
    requires q.state == Running && q.cont.Dropping? ==> q.cont.lk in locks' && locks'[q.cont.lk] == p
    ensures LocksOk(t[p := q], locks')
  {
  }

  predicate Passed(lock: int, c: nat, lock': int) {
    lock' == lock || (lock == -1 && lock' == c) || (lock == c && lock' == -1)
  }

  lemma PlacedSame(cpus: seq<Cpu>, i: nat, c: nat, cpu: Cpu)
    requires Placed(cpus, i) && c < |cpus| && cpus[c].proc != i
    ensures Placed(cpus[c := cpu], i)
  {
    var d :| 0 <= d < |cpus| && !cpus[d].scheduler && cpus[d].proc == i;
    assert cpus[c := cpu][d] == cpus[d];
  }

  /** A running process stays on its CPU. */
  lemma CpusStay(t: Table, cpus: seq<Cpu>, lock: int, c: nat, p: nat, q: Proc, lock': int)
    requires CpusOk(t, cpus, lock) && c < |cpus| && p < |t| && cpus[c] == Cpu(p, false)
    requires q.state == Running && Passed(lock, c, lock') && (lock' == c <==> WithTable(q.cont))
    ensures CpusOk(t[p := q], cpus, lock')
  {
    forall d | 0 <= d < |cpus|
      ensures CpuOk(t[p := q], cpus[d], lock' == d)
    {
      assert CpuOk(t, cpus[d], lock == d);
    }
  }

  /** A running process leaves its CPU for the scheduler. */
  lemma CpusLeave(t: Table, cpus: seq<Cpu>, lock: int, c: nat, p: nat, t': Table)
    requires CpusOk(t, cpus, lock) && c < |cpus| && p < |t| && cpus[c] == Cpu(p, false) && (lock == -1 || lock == c)
    requires |t'| == |t| && t'[p].state != Running
    requires forall i | 0 <= i < |t| && i != p :: (t'[i].state == Running <==> t[i].state == Running)
    requires forall i | 0 <= i < |t| && t[i].state == Running && i != p :: t'[i].cont == t[i].cont
    ensures CpusOk(t', cpus[c := Cpu(p, true)], c)
  {
    var cpus' := cpus[c := Cpu(p, true)];
    forall d | 0 <= d < |cpus'|
      ensures CpuOk(t', cpus'[d], c == d)
    {
      assert CpuOk(t, cpus[d], lock == d);
    }
    forall i | 0 <= i < |t'| && t'[i].state == Running
      ensures Placed(cpus', i)
    {
      PlacedSame(cpus, i, c, Cpu(p, true));
    }
  }

  /** Processes that are on no CPU change, and stay off. */
  lemma CpusOther(t: Table, cpus: seq<Cpu>, lock: int, t': Table)
    requires CpusOk(t, cpus, lock) && |t'| == |t|
    requires forall i | 0 <= i < |t| :: t'[i].state == Running <==> t[i].state == Running
    requires forall i | 0 <= i < |t| && t[i].state == Running :: WithTable(t'[i].cont) == WithTable(t[i].cont)
    ensures CpusOk(t', cpus, lock)
  {
    forall d | 0 <= d < |cpus|
      ensures CpuOk(t', cpus[d], lock == d)
    {
      assert CpuOk(t, cpus[d], lock == d);
    }
  }

  // Each step keeps the invariant

  lemma InvScheduler(s: Sys, s': Sys, c: nat)
    requires Inv(s) && (SchedAcquire(s, s', c) || Back(s, s', c) || SchedRelease(s, s', c))
    ensures Inv(s')
  {
    forall d | 0 <= d < |s.cpus|
      ensures CpuOk(s'.procs, s'.cpus[d], s'.lock == d)
    {
      assert CpuOk(s.procs, s.cpus[d], s.lock == d);
      assert CpuOk(s.procs, s.cpus[c], s.lock == c);
    }
    forall i | 0 <= i < |s.procs| && s.procs[i].state == Running
      ensures Placed(s'.cpus, i)
    {
      assert Placed(s.cpus, i);
      if s.cpus[c].proc != i {
        PlacedSame(s.cpus, i, c, s'.cpus[c]);
      }
    }
  }

  lemma InvPick(s: Sys, s': Sys, c: nat, p: nat)
    requires Inv(s) && Pick(s, s', c, p)
    ensures Inv(s')
  {
    var q := s'.procs[p];
    TreeSame(s.procs, s'.procs, s.nextpid);
    WaitsPut(s.procs, p, q);
    assert ContOk(s.procs[p], p);
    ContsPut(s.procs, p, q);
    LocksPut(s.procs, s.locks, p, q, s.locks);
    CpusPick(s.procs, s.cpus, c, p, q);
  }

  lemma CpusPick(t: Table, cpus: seq<Cpu>, c: nat, p: nat, q: Proc)
    requires CpusOk(t, cpus, c) && c < |cpus| && cpus[c] == Cpu(-1, true) && p < |t| && t[p].state == Runnable
    requires q.state == Running && WithTable(q.cont)
    ensures CpusOk(t[p := q], cpus[c := Cpu(p, false)], c)
  {
    var t', cpus' := t[p := q], cpus[c := Cpu(p, false)];
    forall d | 0 <= d < |cpus|
      ensures CpuOk(t', cpus'[d], c == d) && (d != c ==> cpus[d].proc != p)
    {
      assert CpuOk(t, cpus[d], c == d);
    }
    forall i | 0 <= i < |t'| && t'[i].state == Running
      ensures Placed(cpus', i)
    {
      if i == p {
        assert cpus'[c] == Cpu(p, false);
      } else {
        PlacedSame(cpus, i, c, Cpu(p, false));
      }
    }
  }

  /** A step in which the running process p changes itself and stays on its CPU. */
  lemma InvStay(s: Sys, s': Sys, c: nat, p: nat)
    requires Inv(s) && s.Runs(c, p) && |s'.procs| == |s.procs| && s'.procs == s.procs[p := s'.procs[p]]
    requires s'.cpus == s.cpus && s'.nextpid == s.nextpid && SameKind(s.procs[p], s'.procs[p])
    requires s'.procs[p].state == Running
    requires ContOk(s'.procs[p], p)
    requires (InFork(s'.procs[p]) ==> InFork(s.procs[p]) && Stage(s'.procs[p]) == Stage(s.procs[p]))
    requires Passed(s.lock, c, s'.lock) && (s'.lock == c <==> WithTable(s'.procs[p].cont))
    requires forall lk | lk in s.locks ::
               lk in s'.locks && (s'.locks[lk] == s.locks[lk] || s.locks[lk] == p || s.locks[lk] == -1)
    requires s'.procs[p].cont.Dropping? ==> s'.procs[p].cont.lk in s'.locks && s'.locks[s'.procs[p].cont.lk] == p
    ensures Inv(s')
  {
    assert CpuOk(s.procs, s.cpus[c], s.lock == c);
    TreeSame(s.procs, s'.procs, s.nextpid);
    WaitsPut(s.procs, p, s'.procs[p]);
    ContsPut(s.procs, p, s'.procs[p]);
    LocksPut(s.procs, s.locks, p, s'.procs[p], s'.locks);
    CpusStay(s.procs, s.cpus, s.lock, c, p, s'.procs[p], s'.lock);
  }

  lemma InvQuiet(s: Sys, s': Sys, c: nat, p: nat)
    requires Inv(s) && (Resume(s, s', c, p) || SleepDrop(s, s', c, p) || SleepReturn(s, s', c, p) || Relock(s, s', c, p)
                        || WaitEnter(s, s', c, p) || WaitFail(s, s', c, p))
    ensures Inv(s')
  {
    assert CpuOk(s.procs, s.cpus[c], s.lock == c) && ContOk(s.procs[p], p);
    InvStay(s, s', c, p);
  }

  lemma InvLocking(s: Sys, s': Sys, c: nat, p: nat, lk: nat)
    requires Inv(s) && (TakeLock(s, s', c, p, lk) || DropLock(s, s', c, p, lk))
    ensures Inv(s')
  {
    assert CpuOk(s.procs, s.cpus[c], s.lock == c) && ContOk(s.procs[p], p);
    assert s.procs[p := s.procs[p]] == s.procs;
    InvStay(s, s', c, p);
  }

  lemma InvSleepTable(s: Sys, s': Sys, c: nat, p: nat, chan: Chan, lk: nat)
    requires Inv(s) && SleepTable(s, s', c, p, chan, lk)
    ensures Inv(s')
  {
    assert CpuOk(s.procs, s.cpus[c], s.lock == c) && ContOk(s.procs[p], p);
    InvStay(s, s', c, p);
  }

  /** A step in which the running process p leaves its CPU, alive. */
  lemma InvLeave(s: Sys, s': Sys, c: nat, p: nat)
    requires Inv(s) && s.Runs(c, p) && (s.lock == -1 || s.lock == c) && |s'.procs| == |s.procs|
    requires s' == Leave(s, c, p, s'.procs[p])
    requires SameKind(s.procs[p], s'.procs[p]) && s'.procs[p].state != Running && ContOk(s'.procs[p], p)
    requires InFork(s'.procs[p]) ==> InFork(s.procs[p]) && Stage(s'.procs[p]) == Stage(s.procs[p])
    requires s'.procs[p].state == Sleeping && s'.procs[p].cont == InWait ==> forall k | 0 <= k < |s.procs| ::
               !ZombieChild(s.procs[k], p)
    ensures Inv(s')
  {
    assert CpuOk(s.procs, s.cpus[c], s.lock == c);
    TreeSame(s.procs, s'.procs, s.nextpid);
    WaitsPut(s.procs, p, s'.procs[p]);
    ContsPut(s.procs, p, s'.procs[p]);
    LocksPut(s.procs, s.locks, p, s'.procs[p], s.locks);
    CpusLeave(s.procs, s.cpus, s.lock, c, p, s'.procs);
  }

  lemma InvOff(s: Sys, s': Sys, c: nat, p: nat)
    requires Inv(s) && (Yield(s, s', c, p) || SleepMark(s, s', c, p) || WaitSleep(s, s', c, p))
    ensures Inv(s')
  {
    assert CpuOk(s.procs, s.cpus[c], s.lock == c) && ContOk(s.procs[p], p);
    InvLeave(s, s', c, p);
  }

  // Wakeups

  /** Unchanged but for the killed mark, or a sleeper made runnable. */
  predicate Eased(a: Proc, b: Proc) {
    b == a.(killed := b.killed) || (a.state == Sleeping && b == a.(state := Runnable, killed := b.killed))
  }

  lemma EasedConts(t: Table, t': Table)
    requires Conts(t) && |t'| == |t| && forall i | 0 <= i < |t| :: Eased(t[i], t'[i])
    ensures Conts(t')
  {
    forall i | 0 <= i < |t|
      ensures ContOk(t'[i], i) && ChildOk(t', i)
    {
      assert ContOk(t[i], i) && ChildOk(t, i) && Eased(t[i], t'[i]);
    }
    forall i, j, q: nat | 0 <= i < |t'| && 0 <= j < |t'| && Claims(t', i, q) && Claims(t', j, q)
      ensures i == j
    {
      assert Eased(t[i], t'[i]) && Eased(t[j], t'[j]);
      assert Claims(t, i, q) && Claims(t, j, q);
    }
  }

  lemma EasedRest(t: Table, t': Table, nextpid: nat, cpus: seq<Cpu>, lock: int, locks: map<nat, int>)
    requires |t'| == |t| && forall i | 0 <= i < |t| :: Eased(t[i], t'[i])
    requires Tree(t, nextpid) && CpusOk(t, cpus, lock) && Waits(t) && LocksOk(t, locks)
    ensures Tree(t', nextpid) && CpusOk(t', cpus, lock) && Waits(t') && LocksOk(t', locks)
  {
    forall i | 0 <= i < |t|
      ensures SameKind(t[i], t'[i]) && (t'[i].state == Running <==> t[i].state == Running) && t'[i].cont == t[i].cont
    {
      assert Eased(t[i], t'[i]);
    }
    TreeSame(t, t', nextpid);
    CpusOther(t, cpus, lock, t');
    forall i, k | 0 <= i < |t'| && 0 <= k < |t'| && t'[i].state == Sleeping && t'[i].cont == InWait
      ensures !ZombieChild(t'[k], i)
    {
      assert Eased(t[i], t'[i]) && Eased(t[k], t'[k]);
      assert !ZombieChild(t[k], i);
    }
    forall i | 0 <= i < |t'| && t'[i].state == Running && t'[i].cont.Dropping?
      ensures t'[i].cont.lk in locks && locks[t'[i].cont.lk] == i
    {
      assert Eased(t[i], t'[i]);
    }
  }

  lemma InvWakeup(s: Sys, s': Sys, c: nat, chan: Chan)
    requires Inv(s) && Wakeup(s, s', c, chan)
    ensures Inv(s')
  {
    EasedConts(s.procs, s'.procs);
    EasedRest(s.procs, s'.procs, s.nextpid, s.cpus, s.lock, s.locks);
  }

  lemma InvKill(s: Sys, s': Sys, c: nat, p: nat, q: nat)
    requires Inv(s) && Kill(s, s', c, p, q)
    ensures Inv(s')
  {
    EasedConts(s.procs, s'.procs);
    EasedRest(s.procs, s'.procs, s.nextpid, s.cpus, s.lock, s.locks);
  }

  // fork

  /** Processes p, running, and q, which is on no CPU, nobody's parent, and changes its place in the tree. */
  lemma ForkTree(t: Table, nextpid: nat, p: nat, q: nat, t': Table, nextpid': nat)
    requires Tree(t, nextpid) && p < |t| && q < |t| && p != q && q != 0 && !t[q].Alive() && nextpid <= nextpid'
    requires |t'| == |t| && SameKind(t[p], t'[p]) && forall i | 0 <= i < |t| && i != p && i != q :: t'[i] == t[i]
    requires t'[p].Alive() && SlotOk(t', q, nextpid')
    ensures Tree(t', nextpid')
  {
    forall i | 0 <= i < |t|
      ensures SlotOk(t', i, nextpid')
    {
      assert SlotOk(t, i, nextpid);
    }
  }

  /** Their stages: p may claim q, which is new or p's own already. */
  lemma ForkConts(t: Table, p: nat, q: nat, t': Table)
    requires Conts(t) && p < |t| && q < |t| && p != q && t[q].state != Running && |t'| == |t|
    requires t'[q := t[q]] == t[p := t'[p]]
    requires t'[q].state != Running && ContOk(t'[q], q) && ContOk(t'[p], p) && t'[p].pid == t[p].pid && ChildOk(t', p)
    requires forall i | 0 <= i < |t| && i != p :: !Claims(t, i, q)
    requires InFork(t'[p]) ==> Stage(t'[p]).child == q
    requires t[p].state == Running && !t[q].Alive() && (t'[q].Alive() ==> !InFork(t'[q]))
    ensures Conts(t')
  {
    forall i | 0 <= i < |t|
      ensures i != p && i != q ==> t'[i] == t[i]
    {
      assert i != p && i != q ==> t'[q := t[q]][i] == t'[i] && t[p := t'[p]][i] == t[i];
    }
    forall i | 0 <= i < |t|
      ensures ContOk(t'[i], i) && ChildOk(t', i)
    {
      assert ContOk(t[i], i) && ChildOk(t, i);
      if i != p && i != q && InFork(t[i]) {
        assert Claims(t, i, Stage(t[i]).child);
      }
    }
    forall i, j, r: nat | 0 <= i < |t'| && 0 <= j < |t'| && Claims(t', i, r) && Claims(t', j, r)
      ensures i == j
    {
      assert i != p && i != q ==> Claims(t, i, r);
      assert j != p && j != q ==> Claims(t, j, r);
    }
  }

  lemma ForkRest(s: Sys, s': Sys, c: nat, p: nat, q: nat)
    requires Inv(s) && s.Runs(c, p) && q < |s.procs| && p != q && s.procs[q].state != Running
    requires s.procs[q].state != Zombie
    requires |s'.procs| == |s.procs| && s'.procs == s.procs[q := s'.procs[q]][p := s'.procs[p]]
    requires s'.procs[q].state != Running && s'.procs[q].state != Zombie && s'.procs[q].state != Sleeping
    requires s'.procs[p].state == Running && s'.procs[p].parent == s.procs[p].parent && !s'.procs[p].cont.Dropping?
    requires s'.cpus == s.cpus && s'.lock == s.lock && s'.locks == s.locks && !WithTable(s'.procs[p].cont)
    requires !WithTable(s.procs[p].cont)
    ensures CpusOk(s'.procs, s'.cpus, s'.lock) && Waits(s'.procs) && LocksOk(s'.procs, s'.locks)
  {
    var t, t' := s.procs, s'.procs;
    assert CpuOk(t, s.cpus[c], s.lock == c);
    CpusOther(t, s.cpus, s.lock, t');
    forall i, k | 0 <= i < |t'| && 0 <= k < |t'| && t'[i].state == Sleeping && t'[i].cont == InWait
      ensures !ZombieChild(t'[k], i)
    {
      assert !ZombieChild(t[k], i);
    }
  }

  lemma InvForkAlloc(s: Sys, s': Sys, c: nat, p: nat, q: nat)
    requires Inv(s) && ForkAlloc(s, s', c, p, q)
    ensures Inv(s')
  {
    var t := s.procs;
    assert CpuOk(t, s.cpus[c], s.lock == c) && SlotOk(t, p, s.nextpid) && SlotOk(t, q, s.nextpid);
    forall i | 0 <= i < |t| && i != p
      ensures !Claims(t, i, q)
    {
      assert ChildOk(t, i);
    }
    ForkTree(t, s.nextpid, p, q, s'.procs, s'.nextpid);
    ForkConts(t, p, q, s'.procs);
    ForkRest(s, s', c, p, q);
  }

  lemma InvForkLater(s: Sys, s': Sys, c: nat, p: nat)
    requires Inv(s) && (ForkFail(s, s', c, p) || ForkParent(s, s', c, p) || ForkReady(s, s', c, p))
    ensures Inv(s')
  {
    var t, q := s.procs, s.procs[p].cont.child;
    assert CpuOk(t, s.cpus[c], s.lock == c) && SlotOk(t, p, s.nextpid) && SlotOk(t, q, s.nextpid);
    assert ChildOk(t, p) && ContOk(t[q], q);
    assert Claims(t, p, q);
    forall i | 0 <= i < |t| && i != p
      ensures !Claims(t, i, q)
    {
    }
    ForkTree(t, s.nextpid, p, q, s'.procs, s'.nextpid);
    ForkConts(t, p, q, s'.procs);
    ForkRest(s, s', c, p, q);
  }

  // wait and exit

  lemma InvWaitReap(s: Sys, s': Sys, c: nat, p: nat, z: nat)
    requires Inv(s) && WaitReap(s, s', c, p, z)
    ensures Inv(s')
  {
    var t, t1 := s.procs, s.procs[z := Reaped(s.procs[z])];
    assert CpuOk(t, s.cpus[c], s.lock == c) && ContOk(t[p], p) && SlotOk(t, z, s.nextpid);
    ReapTree(t, s.nextpid, z);
    ReapConts(t, z);
    var s1 := s.(procs := t1);
    CpusOther(t, s.cpus, s.lock, t1);
    forall i, k | 0 <= i < |t1| && 0 <= k < |t1| && t1[i].state == Sleeping && t1[i].cont == InWait
      ensures !ZombieChild(t1[k], i)
    {
      assert !ZombieChild(t[k], i);
    }
    assert Inv(s1);
    InvStay(s1, s', c, p);
  }

  /** A dead process is nobody's parent. */
  lemma ReapTree(t: Table, nextpid: nat, z: nat)
    requires Tree(t, nextpid) && z < |t| && t[z].state == Zombie
    ensures Tree(t[z := Reaped(t[z])], nextpid)
  {
    var t' := t[z := Reaped(t[z])];
    forall i | 0 <= i < |t|
      ensures SlotOk(t', i, nextpid)
    {
      assert SlotOk(t, i, nextpid);
    }
  }

  lemma ReapConts(t: Table, z: nat)
    requires Conts(t) && z < |t| && t[z].state == Zombie
    ensures Conts(t[z := Reaped(t[z])])
  {
    var t' := t[z := Reaped(t[z])];
    forall i | 0 <= i < |t|
      ensures ContOk(t'[i], i) && ChildOk(t', i)
    {
      assert ContOk(t[i], i) && ChildOk(t, i);
    }
    forall i, j, q: nat | 0 <= i < |t'| && 0 <= j < |t'| && Claims(t', i, q) && Claims(t', j, q)
      ensures i == j
    {
      assert Claims(t, i, q) && Claims(t, j, q);
    }
  }

  /** What exit does to each other process: its parent becomes init if it was the one that exits, and it may be
      woken. */
  lemma ExitedAt(t: Table, cur: nat, i: nat)
    requires cur < |t| && i < |t| && t[cur].state == Running && t[cur].parent != cur
    ensures var t' := Exited(t, cur, 0);
            && (i != cur ==> t'[i].parent == (if t[i].parent == cur then 0 else t[i].parent)
                             && var u := t'[i].(parent := t[i].parent);
                                u == t[i] || (t[i].state == Sleeping && u == t[i].(state := Runnable)))
            && (i == cur ==> t'[i] == t[i].(state := Zombie, cont := Gone))
  {
  }

  lemma ExitTree(t: Table, nextpid: nat, p: nat)
    requires Tree(t, nextpid) && p < |t| && p != 0 && t[p].state == Running
    ensures Tree(Exited(t, p, 0), nextpid)
  {
    var t' := Exited(t, p, 0);
    assert SlotOk(t, p, nextpid);
    forall i | 0 <= i < |t|
      ensures SlotOk(t', i, nextpid)
    {
      assert SlotOk(t, i, nextpid);
      ExitedAt(t, p, i);
      ExitedAt(t, p, 0);
      if t[i].parent >= 0 {
        ExitedAt(t, p, t[i].parent);
      }
    }
    ExitedAt(t, p, 0);
  }

  lemma ExitConts(t: Table, nextpid: nat, p: nat)
    requires Tree(t, nextpid) && Conts(t) && p < |t| && p != 0 && t[p].state == Running && t[p].cont == User
    ensures Conts(Exited(t, p, 0))
  {
    var t' := Exited(t, p, 0);
    assert SlotOk(t, p, nextpid);
    forall i | 0 <= i < |t|
      ensures ContOk(t'[i], i) && ChildOk(t', i)
    {
      assert ContOk(t[i], i) && ChildOk(t, i);
      ExitedAt(t, p, i);
      if InFork(t[i]) {
        ExitedAt(t, p, Stage(t[i]).child);
      }
    }
    forall i, j, q: nat | 0 <= i < |t'| && 0 <= j < |t'| && Claims(t', i, q) && Claims(t', j, q)
      ensures i == j
    {
      ExitedAt(t, p, i);
      ExitedAt(t, p, j);
      assert Claims(t, i, q) && Claims(t, j, q);
    }
  }

  /** The parent, and init if it inherits a dead child, do not stay asleep in wait. */
  lemma ExitWaits(t: Table, nextpid: nat, p: nat)
    requires Tree(t, nextpid) && Conts(t) && Waits(t) && p < |t| && p != 0 && t[p].state == Running
    ensures Waits(Exited(t, p, 0))
  {
    var t' := Exited(t, p, 0);
    assert SlotOk(t, p, nextpid);
    forall i, k | 0 <= i < |t'| && 0 <= k < |t'| && t'[i].state == Sleeping && t'[i].cont == InWait
      ensures !ZombieChild(t'[k], i)
    {
      ExitedAt(t, p, i);
      ExitedAt(t, p, k);
      assert ContOk(t[i], i) && t[i].chan == OfProc(i) && !ZombieChild(t[k], i);
      ExitWakes(t, p, i, k);
    }
  }

  lemma ExitWakes(t: Table, p: nat, i: nat, k: nat)
    requires p < |t| && i < |t| && k < |t| && t[p].parent >= 0 && t[p].state == Running && i != p && t[p].parent != p
    requires t[i].state == Sleeping && t[i].chan == OfProc(i)
    ensures i == t[p].parent || (i == 0 && ZombieChild(t[k], p)) ==> Exited(t, p, 0)[i].state == Runnable
  {
    var t1 := Wakeup1(t, OfProc(t[p].parent));
    if i == 0 && ZombieChild(t[k], p) {
      assert ZombieChild(t1[k], p);
    }
  }

  lemma InvExit(s: Sys, s': Sys, c: nat, p: nat)
    requires Inv(s) && Exit(s, s', c, p)
    ensures Inv(s')
  {
    var t, t' := s.procs, s'.procs;
    assert CpuOk(t, s.cpus[c], s.lock == c) && SlotOk(t, p, s.nextpid);
    ExitTree(t, s.nextpid, p);
    ExitConts(t, s.nextpid, p);
    ExitWaits(t, s.nextpid, p);
    forall i | 0 <= i < |t|
      ensures i != p ==> (t'[i].state == Running <==> t[i].state == Running) && t'[i].cont == t[i].cont
      ensures i == p ==> t'[i].state == Zombie
    {
      ExitedAt(t, p, i);
    }
    CpusLeave(t, s.cpus, s.lock, c, p, t');
  }

  // Runs

  ghost predicate Next(s: Sys, s': Sys) {
    || (exists c: nat :: SchedAcquire(s, s', c) || Back(s, s', c) || SchedRelease(s, s', c))
    || (exists c: nat, p: nat :: Pick(s, s', c, p))
    || (exists c: nat, p: nat :: ProcStep(s, s', c, p))
    || (exists c: nat, p: nat, lk: nat :: TakeLock(s, s', c, p, lk) || DropLock(s, s', c, p, lk))
    || (exists c: nat, p: nat, chan, lk: nat :: SleepTable(s, s', c, p, chan, lk))
    || (exists c: nat, chan :: Wakeup(s, s', c, chan))
    || (exists c: nat, p: nat, q: nat :: Kill(s, s', c, p, q) || ForkAlloc(s, s', c, p, q) || WaitReap(s, s', c, p, q))
  }

  ghost predicate ProcStep(s: Sys, s': Sys, c: nat, p: nat) {
    || Resume(s, s', c, p) || SleepDrop(s, s', c, p) || SleepReturn(s, s', c, p) || Relock(s, s', c, p)
    || WaitEnter(s, s', c, p) || WaitFail(s, s', c, p) || Yield(s, s', c, p) || SleepMark(s, s', c, p)
       || WaitSleep(s, s', c, p)
    || ForkFail(s, s', c, p) || ForkParent(s, s', c, p) || ForkReady(s, s', c, p) || Exit(s, s', c, p)
  }

  lemma InvNext(s: Sys, s': Sys)
    requires Inv(s) && Next(s, s')
    ensures Inv(s')
  {
    if c: nat :| SchedAcquire(s, s', c) || Back(s, s', c) || SchedRelease(s, s', c) {
      InvScheduler(s, s', c);
    } else if c: nat, p: nat :| Pick(s, s', c, p) {
      InvPick(s, s', c, p);
    } else if c: nat, p: nat :| ProcStep(s, s', c, p) {
      InvProcStep(s, s', c, p);
    } else if c: nat, p: nat, lk: nat :| TakeLock(s, s', c, p, lk) || DropLock(s, s', c, p, lk) {
      InvLocking(s, s', c, p, lk);
    } else if c: nat, p: nat, chan, lk: nat :| SleepTable(s, s', c, p, chan, lk) {
      InvSleepTable(s, s', c, p, chan, lk);
    } else if c: nat, chan :| Wakeup(s, s', c, chan) {
      InvWakeup(s, s', c, chan);
    } else {
      var c: nat, p: nat, q: nat :| Kill(s, s', c, p, q) || ForkAlloc(s, s', c, p, q) || WaitReap(s, s', c, p, q);
      if Kill(s, s', c, p, q) {
        InvKill(s, s', c, p, q);
      } else if ForkAlloc(s, s', c, p, q) {
        InvForkAlloc(s, s', c, p, q);
      } else {
        InvWaitReap(s, s', c, p, q);
      }
    }
  }

  lemma InvProcStep(s: Sys, s': Sys, c: nat, p: nat)
    requires Inv(s) && ProcStep(s, s', c, p)
    ensures Inv(s')
  {
    if Yield(s, s', c, p) || SleepMark(s, s', c, p) || WaitSleep(s, s', c, p) {
      InvOff(s, s', c, p);
    } else if ForkFail(s, s', c, p) || ForkParent(s, s', c, p) || ForkReady(s, s', c, p) {
      InvForkLater(s, s', c, p);
    } else if Exit(s, s', c, p) {
      InvExit(s, s', c, p);
    } else {
      InvQuiet(s, s', c, p);
    }
  }

  /** After userinit: init is runnable, every other slot is free, and every CPU enters its scheduler. */
  ghost predicate Init(s: Sys) {
    && |s.procs| > 0 && s.procs[0] == Proc(Runnable, 1, -1, NoChan, false, NewBorn) && s.nextpid == 2 && s.lock == -1
    && (forall i | 0 < i < |s.procs| ::
          && s.procs[i].state == Unused && s.procs[i].parent == -1 && s.procs[i].pid == 0 && !s.procs[i].killed
          && s.procs[i].chan == NoChan)
    && (forall c | 0 <= c < |s.cpus| :: s.cpus[c] == Cpu(-1, true))
  }

  ghost predicate IsRun(run: seq<Sys>) {
    run != [] && Init(run[0]) && forall k | 0 <= k < |run| - 1 :: Next(run[k], run[k + 1])
  }

  lemma {:induction false} RunInv(run: seq<Sys>, i: nat)
    requires IsRun(run) && i < |run|
    ensures Inv(run[i])
  {
    if i > 0 {
      var k := i - 1;
      RunInv(run, k);
      assert Next(run[k], run[k + 1]);
      InvNext(run[k], run[i]);
    }
  }

  // What every run promises

  /** A process is Running just when exactly one CPU points at it. */
  ghost predicate RunningOnce(s: Sys) {
    forall i | 0 <= i < |s.procs| :: s.procs[i].state == Running <==> OnOneCpu(s, i)
  }

  ghost predicate OnOneCpu(s: Sys, i: nat) {
    exists c :: 0 <= c < |s.cpus| && s.cpus[c].proc == i
                && forall d | 0 <= d < |s.cpus| && s.cpus[d].proc == i :: d == c
  }

  /** The CPU of a running process; it has no ptable.lock while that is free. */
  lemma CpuOf(s: Sys, i: nat) returns (c: nat)
    requires Inv(s) && i < |s.procs| && s.procs[i].state == Running
    ensures c < |s.cpus| && s.cpus[c] == Cpu(i, false) && (s.lock == -1 ==> !WithTable(s.procs[i].cont))
    ensures forall d | 0 <= d < |s.cpus| && s.cpus[d].proc == i :: d == c
  {
    assert Placed(s.cpus, i);
    c :| 0 <= c < |s.cpus| && !s.cpus[c].scheduler && s.cpus[c].proc == i;
    assert CpuOk(s.procs, s.cpus[c], s.lock == c);
  }

  lemma RunningIffOnCpu(s: Sys)
    requires Inv(s) && s.lock == -1
    ensures RunningOnce(s)
  {
    forall i | 0 <= i < |s.procs|
      ensures s.procs[i].state == Running <==> OnOneCpu(s, i)
    {
      if s.procs[i].state == Running {
        var c := CpuOf(s, i);
      } else {
        forall c | 0 <= c < |s.cpus|
          ensures s.cpus[c].proc != i
        {
          assert CpuOk(s.procs, s.cpus[c], s.lock == c);
        }
      }
    }
  }

  /** In every run: whenever ptable.lock is free a process is Running iff exactly one CPU points at it; nobody sleeps in
      wait with a dead child; and every process but init has a live parent with a smaller pid. */
  lemma Lifecycle(run: seq<Sys>)
    requires IsRun(run)
    ensures var s := run[|run| - 1];
            && (s.lock == -1 ==> RunningOnce(s))
            && (forall i, k | 0 <= i < |s.procs| && 0 <= k < |s.procs| && s.procs[i].state == Sleeping
               && s.procs[i].chan == OfProc(i) ::
                  !(s.procs[k].parent == i && s.procs[k].state == Zombie))
            && (forall i | 0 < i < |s.procs| && (s.procs[i].Alive() || s.procs[i].state == Zombie) ::
                  && 0 <= s.procs[i].parent < |s.procs| && s.procs[s.procs[i].parent].Alive()
                  && s.procs[s.procs[i].parent].pid < s.procs[i].pid)
  {
    var s := run[|run| - 1];
    RunInv(run, |run| - 1);
    if s.lock == -1 {
      RunningIffOnCpu(s);
    }
    forall i, k | 0 <= i < |s.procs| && 0 <= k < |s.procs| && s.procs[i].state == Sleeping
      && s.procs[i].chan == OfProc(i)
      ensures !(s.procs[k].parent == i && s.procs[k].state == Zombie)
    {
      assert ContOk(s.procs[i], i);
      assert !ZombieChild(s.procs[k], i);
    }
    forall i | 0 < i < |s.procs| && (s.procs[i].Alive() || s.procs[i].state == Zombie)
      ensures 0 <= s.procs[i].parent < |s.procs| && s.procs[s.procs[i].parent].Alive()
      ensures s.procs[s.procs[i].parent].pid < s.procs[i].pid
    {
      assert SlotOk(s.procs, i, s.nextpid);
    }
  }

  /** The n-th ancestor; init is its own. */
  function Ancestor(t: Table, i: nat, n: nat): nat
    requires i < |t|
    decreases n
  {
    if n == 0 || i == 0 || !(0 <= t[i].parent < |t|) then i else Ancestor(t, t[i].parent, n - 1)
  }

  /** Every line of ancestors ends at init. */
  lemma {:induction false} AncestorsEndAtInit(t: Table, nextpid: nat, i: nat)
    requires Tree(t, nextpid) && i < |t| && (t[i].Alive() || t[i].state == Zombie)
    ensures exists n: nat :: Ancestor(t, i, n) == 0
    decreases t[i].pid
  {
    assert SlotOk(t, i, nextpid);
    if i == 0 {
      assert Ancestor(t, i, 0) == 0;
    } else {
      AncestorsEndAtInit(t, nextpid, t[i].parent);
      var n: nat :| Ancestor(t, t[i].parent, n) == 0;
      assert Ancestor(t, i, n + 1) == 0;
    }
  }

  /** Somewhere in sleep(chan, lk), and not woken yet. */
  predicate InSleep(p: Proc, chan: Chan, lk: nat) {
    || (p.state == Running && (p.cont == Dropping(chan, lk) || p.cont == Marking(chan, lk)))
    || (p.state == Sleeping && p.cont == Slept(chan, lk))
  }

  /** A wakeup reaches everybody who has called sleep: a process that has given up lk and is not yet asleep still has
      ptable.lock, and the wakeup waits for that. So a waker that takes lk first misses nobody who slept with lk. */
  lemma WakeupNotMissed(s: Sys, s': Sys, c: nat, chan: Chan)
    requires Inv(s) && Wakeup(s, s', c, chan)
    ensures forall p, lk | 0 <= p < |s.procs| && InSleep(s.procs[p], chan, lk) :: s'.procs[p].state == Runnable
  {
    forall p, lk | 0 <= p < |s.procs| && InSleep(s.procs[p], chan, lk)
      ensures s'.procs[p].state == Runnable
    {
      assert ContOk(s.procs[p], p);
      assert s.procs[p].state != Running by {
        if s.procs[p].state == Running {
          var d := CpuOf(s, p);
        }
      }
    }
  }
}
