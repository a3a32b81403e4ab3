/** Group commit as a transition system: any interleaving of begin_op, log_write and end_op by any
    number of operations, the block writes of commit(), crashes and recoveries (log.c:114-228). */
module GroupCommit {
  import opened Disk
  import opened LogSpec
  import opened CrashSafety

  /** One block update by one operation: the bytes in the buffer when it calls log_write. */
  datatype OpWrite = OpWrite(op: nat, write: Write)

  /** The operations that finished and the updates logged between two commits, in order. */
  datatype Batch = Batch(ops: set<nat>, writes: seq<OpWrite>)

  const EMPTY_BATCH := Batch({}, [])

  datatype Phase =
    | Running
    | Committing(before: seq<Block>, done: nat)   // log.committing is set; `done` block writes are out
    | Recovering(before: seq<Block>, done: nat)

  datatype State = State(
    disk: seq<Block>,
    view: seq<Block>,              // contents as bread returns them
    lh: seq<int>,                  // in-memory log header
    ops: map<nat, nat>,            // operations between begin_op and end_op, with the blocks each added
    nextOp: nat,
    passed: set<nat>,              // operations inside log_write, past its size test, not yet holding log.lock
    phase: Phase,
    current: Batch,                // logged since the last commit
    committed: seq<Batch>,         // history: every batch whose header write reached the disk
    issued: map<nat, seq<Write>>)  // history: every update each operation ever logged

  ghost function Plain(ws: seq<OpWrite>): (r: seq<Write>)
    ensures |r| == |ws|
  {
    seq(|ws|, i requires 0 <= i < |ws| => ws[i].write)
  }

  ghost predicate BatchOk(L: Layout, b: Batch) {
    forall i | 0 <= i < |b.writes| :: L.Home(b.writes[i].write.blockno)
  }

  /** The specification: the home blocks after a batch's updates, one after another. */
  ghost function Effect(L: Layout, d: seq<Block>, b: Batch): (r: seq<Block>)
    requires L.Valid() && |d| == L.nblocks && BatchOk(L, b)
    ensures |r| == |d|
  {
    ApplyAll(d, Plain(b.writes))
  }

  ghost function Effects(L: Layout, d: seq<Block>, bs: seq<Batch>): (r: seq<Block>)
    requires L.Valid() && |d| == L.nblocks
    requires forall i | 0 <= i < |bs| :: BatchOk(L, bs[i])
    ensures |r| == |d|
  {
    if bs == [] then d else Effect(L, Effects(L, d, bs[..|bs| - 1]), bs[|bs| - 1])
  }

  /** The updates of one operation, in order. */
  ghost function WritesOf(ws: seq<OpWrite>, op: nat): seq<Write> {
    if ws == [] then []
    else
      var rest := WritesOf(ws[..|ws| - 1], op);
      var last := ws[|ws| - 1];
      if last.op == op then rest + [last.write] else rest
  }

  ghost predicate Init(L: Layout, d0: seq<Block>, s: State) {
    && L.HeaderOk(d0) && d0[L.start][0] == 0
    && s == State(d0, d0, [], map[], 0, {}, Running, EMPTY_BATCH, [], map[])
  }

  // Steps of the operations

  ghost predicate BeginOp(L: Layout, s: State, s': State) {
    && s.phase.Running? && RoomForOp(|s.lh|, |s.ops|)
    && s' == s.(ops := s.ops[s.nextOp := 0], nextOp := s.nextOp + 1, issued := s.issued[s.nextOp := []])
  }

  /** log_write tests the size of the log before it takes log.lock (log.c:216-219). */
  ghost predicate LogTest(L: Layout, s: State, s': State, op: nat) {
    && s.phase.Running? && op in s.ops && op !in s.passed && !FullLog(L, |s.lh|)
    && s' == s.(passed := s.passed + {op})
  }

  /** With the lock: absorb the block or append it, whatever the list's length is by now. */
  ghost predicate LogAppend(L: Layout, s: State, s': State, op: nat, w: Write) {
    && s.phase.Running? && op in s.passed && op in s.ops && op in s.issued
    && L.Home(w.blockno) && w.blockno < |s.view|
    && s' == s.(passed := s.passed - {op},
                view := s.view[w.blockno := w.data],
                lh := Absorb(s.lh, w.blockno),
                ops := s.ops[op := s.ops[op] + |Absorb(s.lh, w.blockno)| - |s.lh|],
                current := s.current.(writes := s.current.writes + [OpWrite(op, w)]),
                issued := s.issued[op := s.issued[op] + [w]])
  }

  ghost predicate EndOp(L: Layout, s: State, s': State, op: nat) {
    && s.phase.Running? && op in s.ops && op !in s.passed
    && var batch := s.current.(ops := s.current.ops + {op});
       var t := s.(ops := s.ops - {op}, current := batch);
       s' == if t.ops != map[] then t
             else if s.lh == [] then t.(current := EMPTY_BATCH, committed := s.committed + [batch])
             else t.(phase := Committing(s.disk, 0))
  }

  // Steps of commit(), one block write each

  ghost predicate CommitWrite(L: Layout, s: State, s': State) {
    && s.phase.Committing? && CommitShape(L, s) && s.phase.done < 2 * |s.lh| + 2
    && var w := CommitWrites(L, s.phase.before, s.view, s.lh)[s.phase.done];
       w.blockno < |s.disk| &&
       var t := s.(disk := s.disk[w.blockno := w.data], phase := Committing(s.phase.before, s.phase.done + 1));
       s' == if s.phase.done == |s.lh| then t.(committed := s.committed + [s.current], current := EMPTY_BATCH) else t
  }

  ghost predicate CommitDone(L: Layout, s: State, s': State) {
    && s.phase.Committing? && s.phase.done == 2 * |s.lh| + 2
    && s' == s.(phase := Running, lh := [], view := s.disk)
  }

  // Crash and recovery

  ghost predicate CommitShape(L: Layout, s: State) {
    && s.phase.Committing? && L.Fits(s.lh)
    && |s.phase.before| == |s.view| == L.nblocks
  }

  /** What a crash can leave on the disk, given the write in flight. */
  ghost predicate LeftOver(L: Layout, s: State, d': seq<Block>) {
    match s.phase
    case Running => d' == s.disk
    case Committing(before, done) =>
      CommitShape(L, s) && done <= 2 * |s.lh| + 2 && CrashAt(L, before, CommitWrites(L, before, s.view, s.lh), done, d')
    case Recovering(before, done) =>
      L.HeaderOk(before) && done <= |RecoverWrites(L, before)| && CrashAt(L, before, RecoverWrites(L, before), done, d')
  }

  /** A header write cut short counts as done when its sector did change. */
  ghost predicate HeaderLanded(L: Layout, s: State, d': seq<Block>) {
    && s.phase.Committing? && s.phase.done == |s.lh|
    && L.start < |d'| && L.start < |s.disk|
    && d'[L.start][..SECTOR_WORDS] != s.disk[L.start][..SECTOR_WORDS]
  }

  ghost predicate Crash(L: Layout, s: State, s': State, d': seq<Block>) {
    && LeftOver(L, s, d')
    && s' == State(d', d', [], map[], s.nextOp, {}, Recovering(d', 0), EMPTY_BATCH,
                   if HeaderLanded(L, s, d') then s.committed + [s.current] else s.committed, s.issued)
  }

  ghost predicate RecoverWrite(L: Layout, s: State, s': State) {
    && s.phase.Recovering? && L.HeaderOk(s.phase.before)
    && s.phase.done < |RecoverWrites(L, s.phase.before)|
    && var w := RecoverWrites(L, s.phase.before)[s.phase.done];
       w.blockno < |s.disk| &&
       s' == s.(disk := s.disk[w.blockno := w.data], phase := Recovering(s.phase.before, s.phase.done + 1))
  }

  ghost predicate RecoverDone(L: Layout, s: State, s': State) {
    && s.phase.Recovering? && L.HeaderOk(s.phase.before)
    && s.phase.done == |RecoverWrites(L, s.phase.before)|
    && s' == s.(phase := Running, view := s.disk)
  }

  ghost predicate OpStep(L: Layout, s: State, s': State) {
    || BeginOp(L, s, s')
    || (exists op :: LogTest(L, s, s', op))
    || (exists op, w :: LogAppend(L, s, s', op, w))
    || (exists op :: EndOp(L, s, s', op))
  }

  ghost predicate DiskStep(L: Layout, s: State, s': State) {
    || CommitWrite(L, s, s')
    || CommitDone(L, s, s')
    || (exists d' :: Crash(L, s, s', d'))
    || RecoverWrite(L, s, s')
    || RecoverDone(L, s, s')
  }

  ghost predicate Next(L: Layout, s: State, s': State) {
    OpStep(L, s, s') || DiskStep(L, s, s')
  }

  /** State number i follows from the one before it. */
  ghost predicate Follows(L: Layout, run: seq<State>, i: nat)
    requires 0 < i < |run|
  {
    Next(L, run[i - 1], run[i])
  }

  ghost predicate IsRun(L: Layout, d0: seq<Block>, run: seq<State>) {
    && run != [] && Init(L, d0, run[0])
    && forall i | 0 < i < |run| :: Follows(L, run, i)
  }

  lemma ExtendRun(L: Layout, d0: seq<Block>, run: seq<State>, s': State)
    requires IsRun(L, d0, run) && Next(L, run[|run| - 1], s')
    ensures IsRun(L, d0, run + [s'])
  {
    var run' := run + [s'];
    forall i | 0 < i < |run'|
      ensures Follows(L, run', i)
    {
      if i < |run| {
        assert Follows(L, run, i);
        assert run'[i - 1] == run[i - 1] && run'[i] == run[i];
      }
    }
  }

  /** What the disk's steps leave alone, or drop in a crash. */
  lemma DiskStepKeeps(L: Layout, s: State, s': State)
    requires DiskStep(L, s, s')
    ensures s'.issued == s.issued && s'.nextOp == s.nextOp
    ensures (s'.ops == s.ops && s'.passed == s.passed) || (s'.ops == map[] && s'.passed == {})
    ensures s'.lh == s.lh || s'.lh == []
    ensures || (s'.committed == s.committed && ((s'.current == s.current && s'.ops == s.ops)
            || (s'.current == EMPTY_BATCH && s'.ops == map[])))
            || (s.phase.Committing? && s'.committed == s.committed + [s.current] && s'.current == EMPTY_BATCH)
    ensures s'.phase.Running? || s'.ops == map[] || !s.phase.Running?
    ensures s'.phase.Running? ==> s'.passed == s.passed
  {
  }

  // The invariant

  /** The list fits lh.block and the log area. The size test alone does not see to that: several
      operations can pass it before one of them appends. */
  ghost predicate Room(L: Layout, s: State) {
    |s.lh| <= LOGSIZE && |s.lh| < L.size
  }

  /** What commit() needs: the list fits the log area by the time the first block is written. */
  ghost predicate RoomToCommit(L: Layout, s: State) {
    s.phase.Committing? && s.phase.done > 0 ==> |s.lh| < L.size
  }

  ghost predicate RoomUpTo(L: Layout, run: seq<State>, i: nat)
    requires i < |run|
  {
    forall j | 0 <= j <= i :: RoomToCommit(L, run[j])
  }

  ghost predicate History(L: Layout, s: State) {
    && (forall i | 0 <= i < |s.committed| :: BatchOk(L, s.committed[i]))
    && BatchOk(L, s.current)
  }

  ghost predicate RunningInv(L: Layout, d0: seq<Block>, s: State)
    requires L.Valid() && |d0| == L.nblocks && History(L, s)
  {
    var target := Effects(L, d0, s.committed);
    && L.HeaderOk(s.disk) && s.disk[L.start][0] == 0 && |s.view| == L.nblocks
    && L.Listable(s.lh) && (s.lh != [] || s.passed != {} ==> L.size > 1)
    && SameHome(L, s.disk, target)
    && SameHome(L, s.view, Effect(L, target, s.current))
    && (forall b | 0 <= b < L.nblocks && b !in s.lh :: s.view[b] == s.disk[b])
    && (s.ops == map[] ==> s.lh == [] && s.current == EMPTY_BATCH)
    && (s.lh == [] ==> s.current.writes == [])
  }

  /** The disk as it is after `done` of commit()'s writes. */
  ghost predicate CommitWritesDone(L: Layout, s: State) {
    && CommitShape(L, s) && s.phase.done <= 2 * |s.lh| + 2
    && s.disk == ApplyAll(s.phase.before, CommitWrites(L, s.phase.before, s.view, s.lh)[..s.phase.done])
  }

  /** Before its first write the list may still be too long for the log area. */
  ghost predicate CommittingInv(L: Layout, d0: seq<Block>, s: State)
    requires L.Valid() && |d0| == L.nblocks && History(L, s) && s.phase.Committing?
  {
    var target := Effects(L, d0, s.committed);
    var d := s.phase.before;
    && L.HeaderOk(d) && d[L.start][0] == 0 && |s.view| == L.nblocks
    && L.Listable(s.lh) && s.lh != [] && L.size > 1
    && (if s.phase.done == 0 then s.disk == d else L.ListOk(s.lh) && CommitWritesDone(L, s))
    && (forall b | 0 <= b < L.nblocks && b !in s.lh :: s.view[b] == d[b])
    && s.ops == map[]
    && if s.phase.done <= |s.lh| then SameHome(L, d, target) && SameHome(L, s.view, Effect(L, target, s.current))
       else s.current == EMPTY_BATCH && SameHome(L, s.view, target)
  }

  ghost predicate RecoveringInv(L: Layout, d0: seq<Block>, s: State)
    requires L.Valid() && |d0| == L.nblocks && History(L, s) && s.phase.Recovering?
  {
    && Holds(L, s.phase.before, Effects(L, d0, s.committed))
    && s.phase.done <= |RecoverWrites(L, s.phase.before)|
    && s.disk == ApplyAll(s.phase.before, RecoverWrites(L, s.phase.before)[..s.phase.done])
    && s.ops == map[] && s.passed == {} && s.lh == [] && s.current == EMPTY_BATCH
  }

  ghost predicate Inv(L: Layout, d0: seq<Block>, s: State) {
    && L.Valid() && |d0| == L.nblocks && History(L, s)
    && match s.phase
       case Running => RunningInv(L, d0, s)
       case Committing(_, _) => CommittingInv(L, d0, s)
       case Recovering(_, _) => RecoveringInv(L, d0, s)
  }

  lemma InvInit(L: Layout, d0: seq<Block>, s: State)
    requires Init(L, d0, s)
    ensures Inv(L, d0, s)
  {
  }

  lemma InvBeginOp(L: Layout, d0: seq<Block>, s: State, s': State)
    requires Inv(L, d0, s) && BeginOp(L, s, s')
    ensures Inv(L, d0, s')
  {
    assert s.nextOp in s'.ops;
  }

  lemma InvLogAppend(L: Layout, d0: seq<Block>, s: State, s': State, op: nat, w: Write)
    requires Inv(L, d0, s) && LogAppend(L, s, s', op, w)
    ensures Inv(L, d0, s')
  {
    assert op in s'.ops;
    assert Plain(s'.current.writes)[..|s.current.writes|] == Plain(s.current.writes);
  }

  lemma InvEndOp(L: Layout, d0: seq<Block>, s: State, s': State, op: nat)
    requires Inv(L, d0, s) && EndOp(L, s, s', op)
    ensures Inv(L, d0, s')
  {
    if s'.phase.Running? && s'.ops == map[] {
      assert s'.committed[..|s.committed|] == s.committed;
    }
  }

  lemma InvCommitWrite(L: Layout, d0: seq<Block>, s: State, s': State)
    requires Inv(L, d0, s) && CommitWrite(L, s, s') && RoomToCommit(L, s')
    ensures Inv(L, d0, s')
  {
    assert CommitWritesDone(L, s') by {
      assert CommitWrites(L, s.phase.before, s.view, s.lh)[..0] == [];
      WriteDone(L, s.phase.before, s.view, s.lh, s.phase.done, s.disk, s'.phase.done, s'.disk);
    }
    if s.phase.done == |s.lh| {
      HeaderWritten(L, d0, s, s');
    } else {
      SameBatches(L, d0, s, s');
    }
  }

  lemma WriteDone(L: Layout, d: seq<Block>, view: seq<Block>, lh: seq<int>, k: nat, e: seq<Block>, k': nat,
                  e': seq<Block>)
    requires L.Fits(lh) && |d| == |view| == L.nblocks && k < 2 * |lh| + 2 && k' == k + 1
    requires var ws := CommitWrites(L, d, view, lh);
             e == ApplyAll(d, ws[..k]) && e' == e[ws[k].blockno := ws[k].data]
    ensures e' == ApplyAll(d, CommitWrites(L, d, view, lh)[..k'])
  {
    ApplyAllStep(d, CommitWrites(L, d, view, lh), k);
  }

  lemma HeaderWritten(L: Layout, d0: seq<Block>, s: State, s': State)
    requires Inv(L, d0, s) && CommitWrite(L, s, s') && s.phase.done == |s.lh| && CommitWritesDone(L, s')
    requires L.ListOk(s.lh)
    ensures Inv(L, d0, s')
  {
    assert s'.committed[..|s.committed|] == s.committed;
  }

  lemma SameBatches(L: Layout, d0: seq<Block>, s: State, s': State)
    requires Inv(L, d0, s) && CommitWrite(L, s, s') && s.phase.done != |s.lh| && CommitWritesDone(L, s')
    requires L.ListOk(s.lh)
    ensures Inv(L, d0, s')
  {
  }

  lemma InvCommitDone(L: Layout, d0: seq<Block>, s: State, s': State)
    requires Inv(L, d0, s) && CommitDone(L, s, s')
    ensures Inv(L, d0, s')
  {
    AllWritten(L, s.phase.before, s.view, s.lh, s.phase.done, s.disk);
  }

  lemma AllWritten(L: Layout, d: seq<Block>, view: seq<Block>, lh: seq<int>, k: nat, e: seq<Block>)
    requires L.HeaderOk(d) && |view| == |d| && L.ListOk(lh) && k == 2 * |lh| + 2
    requires e == ApplyAll(d, CommitWrites(L, d, view, lh)[..k])
    ensures SameHome(L, e, Installed(L, d, view, lh)) && L.HeaderOk(e) && e[L.start][0] == 0
  {
    var ws := CommitWrites(L, d, view, lh);
    assert ws[..k] == ws;
    CommitFinished(L, d, view, lh);
  }

  /** Where a crash inside commit() leads: to the old contents while the header on disk is the old
      one, to the contents readers saw once it is the new one. */
  lemma CommitCrashTarget(L: Layout, s: State, d': seq<Block>, old': seq<Block>)
    requires s.phase.Committing? && CommitShape(L, s) && L.ListOk(s.lh) && LeftOver(L, s, d')
    requires var d := s.phase.before;
             && L.HeaderOk(d) && d[L.start][0] == 0
             && s.disk == ApplyAll(d, CommitWrites(L, d, s.view, s.lh)[..s.phase.done])
             && (forall b | 0 <= b < L.nblocks && b !in s.lh :: s.view[b] == d[b])
    ensures s.phase.done <= |s.lh| && !HeaderLanded(L, s, d') && SameHome(L, s.phase.before, old') ==>
              Holds(L, d', old')
    ensures s.phase.done > |s.lh| || HeaderLanded(L, s, d') ==> Holds(L, d', s.view)
  {
    var d, k := s.phase.before, s.phase.done;
    var new' := Installed(L, d, s.view, s.lh);
    if k > |s.lh| {
      CrashAfterHeader(L, d, s.view, s.lh, k, d');
      HoldsSameHome(L, d', new', s.view);
    } else {
      CrashUpToHeader(L, d, s.view, s.lh, k, d');
      BeforeCommitPoint(L, d, s.view, s.lh, k);
      if HeaderLanded(L, s, d') {
        HoldsSameHome(L, d', new', s.view);
      } else if k < |s.lh| || d'[L.start][..SECTOR_WORDS] == d[L.start][..SECTOR_WORDS] {
        if SameHome(L, d, old') {
          HoldsSameHome(L, d', d, old');
        }
      }
    }
  }

  /** A crash before commit()'s first write is over finds the old header, for that write goes to the
      log area however long the list is. */
  lemma FirstWriteTorn(L: Layout, s: State, d': seq<Block>, old': seq<Block>)
    requires s.phase.Committing? && s.phase.done == 0 && LeftOver(L, s, d') && s.lh != [] && L.size > 1
    requires var d := s.phase.before; L.HeaderOk(d) && d[L.start][0] == 0 && s.disk == d && SameHome(L, d, old')
    ensures !HeaderLanded(L, s, d') && Holds(L, d', old')
  {
    var d := s.phase.before;
    var ws := CommitWrites(L, d, s.view, s.lh);
    assert ws[..0] == [];
    assert ws[0].blockno == L.start + 1;
    OldHeader(L, d, d, ws[0].blockno, d');
    HoldsSameHome(L, d', d, old');
  }

  lemma InvCrash(L: Layout, d0: seq<Block>, s: State, s': State, d': seq<Block>)
    requires Inv(L, d0, s) && Crash(L, s, s', d')
    ensures Inv(L, d0, s')
  {
    var target := Effects(L, d0, s.committed);
    match s.phase
    case Running =>
      HoldsItself(L, d', target);
    case Recovering(before, done) =>
      RecoveryCrash(L, before, target, done, d');
    case Committing(before, done) =>
      if done == 0 {
        FirstWriteTorn(L, s, d', target);
      } else {
        CommitCrashTarget(L, s, d', target);
      }
      if s.phase.done > |s.lh| {
        HoldsSameHome(L, d', s.view, target);
      } else if HeaderLanded(L, s, d') {
        HoldsSameHome(L, d', s.view, Effect(L, target, s.current));
      }
      if HeaderLanded(L, s, d') {
        assert s'.committed[..|s.committed|] == s.committed;
      }
  }

  lemma InvRecoverWrite(L: Layout, d0: seq<Block>, s: State, s': State)
    requires Inv(L, d0, s) && RecoverWrite(L, s, s')
    ensures Inv(L, d0, s')
  {
    var ws := RecoverWrites(L, s.phase.before);
    ApplyAllStep(s.phase.before, ws, s.phase.done);
  }

  lemma InvRecoverDone(L: Layout, d0: seq<Block>, s: State, s': State)
    requires Inv(L, d0, s) && RecoverDone(L, s, s')
    ensures Inv(L, d0, s')
  {
    var d := s.phase.before;
    assert RecoverWrites(L, d)[..s.phase.done] == RecoverWrites(L, d);
    HoldsIffRecoversTo(L, d, Effects(L, d0, s.committed));
  }

  lemma InvNext(L: Layout, d0: seq<Block>, s: State, s': State)
    requires Inv(L, d0, s) && Next(L, s, s') && RoomToCommit(L, s')
    ensures Inv(L, d0, s')
  {
    if BeginOp(L, s, s') {
      InvBeginOp(L, d0, s, s');
    } else if op :| LogTest(L, s, s', op) {
    } else if op, w :| LogAppend(L, s, s', op, w) {
      InvLogAppend(L, d0, s, s', op, w);
    } else if op :| EndOp(L, s, s', op) {
      InvEndOp(L, d0, s, s', op);
    } else if CommitWrite(L, s, s') {
      InvCommitWrite(L, d0, s, s');
    } else if CommitDone(L, s, s') {
      InvCommitDone(L, d0, s, s');
    } else if d' :| Crash(L, s, s', d') {
      InvCrash(L, d0, s, s', d');
    } else if RecoverWrite(L, s, s') {
      InvRecoverWrite(L, d0, s, s');
    } else {
      InvRecoverDone(L, d0, s, s');
    }
  }

  // Which updates a batch holds

  /** A batch holds updates of its own finished operations only, and all of each one's updates. */
  ghost predicate Whole(s: State, b: Batch) {
    && (forall i | 0 <= i < |b.writes| :: b.writes[i].op in b.ops)
    && (forall op | op in b.ops :: op in s.issued && op < s.nextOp && WritesOf(b.writes, op) == s.issued[op])
  }

  ghost predicate AllWhole(s: State) {
    && (forall i | 0 <= i < |s.committed| :: Whole(s, s.committed[i]))
    && Whole(s, s.current.(ops := s.current.ops + s.ops.Keys))
  }

  /** No operation is in two batches, and none both finished and outstanding. */
  ghost predicate DisjointOps(s: State) {
    && s.current.ops !! s.ops.Keys
    && (forall i | 0 <= i < |s.committed| :: s.committed[i].ops !! s.current.ops + s.ops.Keys)
    && (forall i, j | 0 <= i < j < |s.committed| :: s.committed[i].ops !! s.committed[j].ops)
  }

  ghost predicate OpsInv(s: State) {
    AllWhole(s) && DisjointOps(s)
  }

  lemma {:induction false} WritesOfNone(ws: seq<OpWrite>, op: nat)
    requires forall i | 0 <= i < |ws| :: ws[i].op != op
    ensures WritesOf(ws, op) == []
  {
    if ws != [] {
      WritesOfNone(ws[..|ws| - 1], op);
    }
  }

  lemma WholeBeginOp(L: Layout, s: State, s': State, b: Batch)
    requires Whole(s, b) && BeginOp(L, s, s')
    ensures Whole(s', b) && s.nextOp !in b.ops
    ensures Whole(s', b.(ops := b.ops + {s.nextOp}))
  {
    WritesOfNone(b.writes, s.nextOp);
  }

  lemma OpsBeginOp(L: Layout, s: State, s': State)
    requires OpsInv(s) && BeginOp(L, s, s')
    ensures OpsInv(s')
  {
    var op := s.nextOp;
    assert s'.current.ops + s'.ops.Keys == s.current.ops + s.ops.Keys + {op};
    assert AllWhole(s') && forall i | 0 <= i < |s.committed| :: op !in s.committed[i].ops by {
      WholeBeginOp(L, s, s', s.current.(ops := s.current.ops + s.ops.Keys));
      forall i | 0 <= i < |s.committed|
        ensures Whole(s', s.committed[i]) && op !in s.committed[i].ops
      {
        WholeBeginOp(L, s, s', s.committed[i]);
      }
    }
    DisjointBegin(s, s', op);
  }

  lemma DisjointBegin(s: State, s': State, op: nat)
    requires DisjointOps(s) && op !in s.current.ops && forall i | 0 <= i < |s.committed| :: op !in s.committed[i].ops
    requires s'.current == s.current && s'.committed == s.committed && s'.ops == s.ops[op := 0]
    ensures DisjointOps(s')
  {
    forall i | 0 <= i < |s.committed|
      ensures s'.committed[i].ops !! s'.current.ops + s'.ops.Keys
    {
      assert s.committed[i].ops !! s.current.ops + s.ops.Keys;
    }
  }

  lemma OpsLogAppend(L: Layout, s: State, s': State, op: nat, w: Write)
    requires OpsInv(s) && LogAppend(L, s, s', op, w)
    ensures OpsInv(s')
  {
    assert s'.ops.Keys == s.ops.Keys;
    assert s'.current.writes[..|s.current.writes|] == s.current.writes;
    forall i | 0 <= i < |s.committed|
      ensures Whole(s', s.committed[i])
    {
      assert Whole(s, s.committed[i]) && op !in s.committed[i].ops;
    }
  }

  lemma OpsEndOp(L: Layout, s: State, s': State, op: nat)
    requires OpsInv(s) && EndOp(L, s, s', op)
    ensures OpsInv(s')
  {
    var batch := s.current.(ops := s.current.ops + {op});
    assert s.ops.Keys - {op} == (s.ops - {op}).Keys;
    assert batch.ops + (s.ops.Keys - {op}) == s.current.ops + s.ops.Keys;
    forall i | 0 <= i < |s.committed|
      ensures Whole(s', s.committed[i])
    {
      assert Whole(s, s.committed[i]);
    }
    if s'.ops == map[] {
      assert batch == batch.(ops := batch.ops + s'.ops.Keys);
      assert Whole(s', batch);
    }
  }

  lemma OpsNext(L: Layout, s: State, s': State)
    requires OpsInv(s) && Next(L, s, s') && (s.phase.Committing? ==> s.ops == map[])
    ensures OpsInv(s')
  {
    if BeginOp(L, s, s') {
      OpsBeginOp(L, s, s');
    } else if op, w :| LogAppend(L, s, s', op, w) {
      OpsLogAppend(L, s, s', op, w);
    } else if op :| EndOp(L, s, s', op) {
      OpsEndOp(L, s, s', op);
    } else if op :| LogTest(L, s, s', op) {
      OpsKept(s, s');
    } else {
      DiskStepKeeps(L, s, s');
      OpsKept(s, s');
    }
  }

  lemma OpsKept(s: State, s': State)
    requires OpsInv(s) && (s.phase.Committing? ==> s.ops == map[])
    requires s'.issued == s.issued && s'.nextOp == s.nextOp
    requires s'.ops == s.ops || s'.ops == map[]
    requires || (s'.committed == s.committed && ((s'.current == s.current && s'.ops == s.ops)
             || (s'.current == EMPTY_BATCH && s'.ops == map[])))
             || (s.phase.Committing? && s'.committed == s.committed + [s.current] && s'.current == EMPTY_BATCH)
    ensures OpsInv(s')
  {
    forall i | 0 <= i < |s.committed|
      ensures Whole(s', s.committed[i])
    {
      assert Whole(s, s.committed[i]);
    }
    assert s.ops == map[] ==> s.current.ops + s.ops.Keys == s.current.ops;
    assert s'.ops == map[] ==> s'.current.(ops := s'.current.ops + s'.ops.Keys) == s'.current;
    if s.phase.Committing? {
      assert Whole(s', s.current);
    }
  }

  // Every run

  lemma {:induction false} RunInv(L: Layout, d0: seq<Block>, run: seq<State>, i: nat)
    requires IsRun(L, d0, run) && i < |run| && RoomUpTo(L, run, i)
    ensures Inv(L, d0, run[i])
    decreases i
  {
    if i > 0 {
      var k := i - 1;
      RunInv(L, d0, run, k);
      assert Follows(L, run, i);
      InvNext(L, d0, run[k], run[i]);
    }
  }

  ghost predicate RunFacts(L: Layout, s: State) {
    OpsInv(s) && History(L, s) && (!s.phase.Running? ==> s.ops == map[])
  }

  lemma RunFactsNext(L: Layout, s: State, s': State)
    requires RunFacts(L, s) && Next(L, s, s')
    ensures RunFacts(L, s')
  {
    OpsNext(L, s, s');
    HistoryNext(L, s, s');
  }

  lemma HistoryNext(L: Layout, s: State, s': State)
    requires Next(L, s, s') && History(L, s) && (!s.phase.Running? ==> s.ops == map[])
    ensures History(L, s') && (!s'.phase.Running? ==> s'.ops == map[])
  {
    if DiskStep(L, s, s') {
      DiskStepKeeps(L, s, s');
    }
  }

  lemma {:induction false} RunOps(L: Layout, d0: seq<Block>, run: seq<State>, i: nat)
    requires IsRun(L, d0, run) && i < |run|
    ensures RunFacts(L, run[i])
    decreases i
  {
    if i > 0 {
      var k := i - 1;
      RunOps(L, d0, run, k);
      assert Follows(L, run, i);
      RunFactsNext(L, run[k], run[i]);
    }
  }

  /** Committed is committed: the history of committed batches only ever grows. */
  lemma {:induction false} CommittedGrows(L: Layout, d0: seq<Block>, run: seq<State>, i: nat, j: nat)
    requires IsRun(L, d0, run) && i <= j < |run|
    ensures run[i].committed <= run[j].committed
    decreases j
  {
    if i < j {
      CommittedGrows(L, d0, run, i, j - 1);
      assert Follows(L, run, j);
      GrowsFrom(L, run[i].committed, run[j - 1], run[j]);
    }
  }

  lemma GrowsFrom(L: Layout, bs: seq<Batch>, s: State, s': State)
    requires Next(L, s, s') && bs <= s.committed
    ensures bs <= s'.committed
  {
    StepGrows(L, s, s');
  }

  lemma StepGrows(L: Layout, s: State, s': State)
    requires Next(L, s, s')
    ensures s.committed <= s'.committed
  {
    if DiskStep(L, s, s') {
      DiskStepKeeps(L, s, s');
    }
  }

  /** Readers see the committed batches and then the current one; and whatever a crash at this
      moment leaves on the disk, recovery turns into exactly the committed batches, the current one
      being added only when a header write was in flight. */
  ghost predicate Safe(L: Layout, d0: seq<Block>, s: State) {
    && L.Valid() && |d0| == L.nblocks && History(L, s)
    && (s.phase.Running? ==> SameHome(L, s.view, Effects(L, d0, s.committed + [s.current])))
    && forall d' | LeftOver(L, s, d') ::
         RecoversTo(L, d', Effects(L, d0, if HeaderLanded(L, s, d') then s.committed + [s.current] else s.committed))
  }

  /** In every run, as long as the list has had room. */
  lemma SafeWithRoom(L: Layout, d0: seq<Block>, run: seq<State>, i: nat)
    requires IsRun(L, d0, run) && i < |run| && RoomUpTo(L, run, i)
    ensures Safe(L, d0, run[i])
  {
    RunInv(L, d0, run, i);
    var s := run[i];
    assert (s.committed + [s.current])[..|s.committed|] == s.committed;
    forall d' | LeftOver(L, s, d')
      ensures RecoversTo(L, d', Effects(L, d0, if HeaderLanded(L, s, d') then s.committed + [s.current]
              else s.committed))
    {
      var bs := if HeaderLanded(L, s, d') then s.committed + [s.current] else s.committed;
      var s' := State(d', d', [], map[], s.nextOp, {}, Recovering(d', 0), EMPTY_BATCH, bs, s.issued);
      InvCrash(L, d0, s, s', d');
      HoldsIffRecoversTo(L, d', Effects(L, d0, bs));
    }
  }

  /** Every operation is all or nothing: the committed history holds either all its updates, in
      their order and in one batch, or none. */
  lemma OperationAtomic(L: Layout, d0: seq<Block>, run: seq<State>, i: nat, op: nat)
    requires IsRun(L, d0, run) && i < |run| && op in run[i].issued
    ensures var bs := run[i].committed;
            || (forall j, k | 0 <= j < |bs| && 0 <= k < |bs[j].writes| :: bs[j].writes[k].op != op)
            || (exists j | 0 <= j < |bs| ::
                  && WritesOf(bs[j].writes, op) == run[i].issued[op]
                  && forall m, k | 0 <= m < |bs| && m != j && 0 <= k < |bs[m].writes| :: bs[m].writes[k].op != op)
  {
    RunOps(L, d0, run, i);
    var bs := run[i].committed;
    if j, k :| 0 <= j < |bs| && 0 <= k < |bs[j].writes| && bs[j].writes[k].op == op {
      assert Whole(run[i], bs[j]);
      forall m, n | 0 <= m < |bs| && m != j && 0 <= n < |bs[m].writes|
        ensures bs[m].writes[n].op != op
      {
        assert Whole(run[i], bs[m]);
        if m < j {
          assert bs[m].ops !! bs[j].ops;
        } else {
          assert bs[j].ops !! bs[m].ops;
        }
      }
    }
  }
}
