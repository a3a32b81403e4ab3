/** Log space (log.c:128-138, 216-225): what begin_op's reservation guarantees, what log_write's size
    test adds to it, made as it is before log.lock is taken, and for which logs the two are enough. */
module LogSpace {
  import opened Disk
  import opened LogSpec
  import opened CrashSafety
  import opened GroupCommit
  import opened Sets

  /** Blocks reserved by begin_op and not yet used. */
  ghost function Unused(ops: map<nat, nat>): int
    decreases |ops|
  {
    if ops == map[] then 0
    else
      var op :| op in ops;
      MAXOPBLOCKS - ops[op] + Unused(ops - {op})
  }

  /** The sum does not depend on the order it is taken in. */
  lemma {:induction false} UnusedRemove(ops: map<nat, nat>, op: nat)
    requires op in ops
    ensures Unused(ops) == MAXOPBLOCKS - ops[op] + Unused(ops - {op})
    decreases |ops|
  {
    var first :| first in ops && Unused(ops) == MAXOPBLOCKS - ops[first] + Unused(ops - {first});
    if first != op {
      UnusedRemove(ops - {first}, op);
      UnusedRemove(ops - {op}, first);
      assert ops - {first} - {op} == ops - {op} - {first};
    }
  }

  lemma UnusedUpdate(ops: map<nat, nat>, op: nat, used: nat)
    ensures Unused(ops[op := used]) == MAXOPBLOCKS - used + Unused(ops - {op})
  {
    UnusedRemove(ops[op := used], op);
    assert ops[op := used] - {op} == ops - {op};
  }

  /** What MAXOPBLOCKS asks of a file system operation: it adds at most that many blocks to the log. */
  ghost predicate Disciplined(s: State) {
    forall op | op in s.ops :: s.ops[op] <= MAXOPBLOCKS
  }

  lemma {:induction false} UnusedBound(ops: map<nat, nat>)
    requires forall op | op in ops :: ops[op] <= MAXOPBLOCKS
    ensures 0 <= Unused(ops) <= |ops| * MAXOPBLOCKS
    decreases |ops|
  {
    if ops != map[] {
      var op :| op in ops && Unused(ops) == MAXOPBLOCKS - ops[op] + Unused(ops - {op});
      UnusedBound(ops - {op});
    }
  }

  ghost predicate SpaceInv(s: State) {
    |s.lh| + Unused(s.ops) <= LOGSIZE
  }

  lemma SpaceNext(L: Layout, s: State, s': State)
    requires SpaceInv(s) && Disciplined(s) && Disciplined(s') && Next(L, s, s')
    ensures SpaceInv(s')
  {
    UnusedBound(s.ops);
    if BeginOp(L, s, s') {
      if s.nextOp in s.ops {
        UnusedRemove(s.ops, s.nextOp);
      } else {
        assert s.ops - {s.nextOp} == s.ops;
      }
      UnusedUpdate(s.ops, s.nextOp, 0);
    } else if op, w :| LogAppend(L, s, s', op, w) {
      UnusedUpdate(s.ops, op, s'.ops[op]);
      UnusedRemove(s.ops, op);
    } else if op :| EndOp(L, s, s', op) {
      UnusedRemove(s.ops, op);
    } else if DiskStep(L, s, s') {
      DiskStepKeeps(L, s, s');
    }
  }

  ghost predicate DisciplinedRun(L: Layout, d0: seq<Block>, run: seq<State>) {
    IsRun(L, d0, run) && forall i | 0 <= i < |run| :: Disciplined(run[i])
  }

  /** The logged blocks and all unused reservations fit the log together, in every run. */
  lemma {:induction false} SpaceReserved(L: Layout, d0: seq<Block>, run: seq<State>, i: nat)
    requires DisciplinedRun(L, d0, run) && i < |run|
    ensures SpaceInv(run[i])
    decreases i
  {
    if i > 0 {
      SpaceReserved(L, d0, run, i - 1);
      assert Follows(L, run, i);
      SpaceNext(L, run[i - 1], run[i]);
    }
  }

  /** log_write would panic although the calling operation is within its allowance. */
  ghost predicate UnfairPanic(L: Layout, s: State, op: nat) {
    s.phase.Running? && op in s.ops && s.ops[op] < MAXOPBLOCKS && FullLog(L, |s.lh|)
  }

  lemma NoUnfairPanic(L: Layout, d0: seq<Block>, run: seq<State>, i: nat, op: nat)
    requires DisciplinedRun(L, d0, run) && i < |run| && LOGSIZE < L.size
    ensures !UnfairPanic(L, run[i], op)
  {
    SpaceReserved(L, d0, run, i);
    var ops := run[i].ops;
    if op in ops && ops[op] < MAXOPBLOCKS {
      assert Disciplined(run[i]);
      UnusedRemove(ops, op);
      UnusedBound(ops - {op});
    }
  }

  // How far the list can outgrow the size test

  /** log_write's test passes below this length. */
  function Limit(L: Layout): int {
    if LOGSIZE < L.size then LOGSIZE else L.size - 1
  }

  /** At most three operations are outstanding, so at most three can be past the test together. */
  ghost predicate TestInv(L: Layout, s: State) {
    && s.passed <= s.ops.Keys && |s.ops| <= 3 && |s.passed| <= 3
    && (s.lh != [] || s.passed != {} ==> Limit(L) > 0)
    && (Limit(L) > 0 ==> |s.lh| + |s.passed| <= Limit(L) + 2)
  }

  lemma TestNext(L: Layout, s: State, s': State)
    requires TestInv(L, s) && Next(L, s, s')
    ensures TestInv(L, s')
  {
    if DiskStep(L, s, s') {
      DiskStepKeeps(L, s, s');
    } else {
      TestOpStep(L, s, s');
    }
  }

  lemma TestOpStep(L: Layout, s: State, s': State)
    requires TestInv(L, s) && OpStep(L, s, s')
    ensures TestInv(L, s')
  {
    if BeginOp(L, s, s') {
      OneMoreOp(s.ops, s.nextOp, 0);
    } else if op :| LogTest(L, s, s', op) {
      SubsetCount(s'.passed, s'.ops.Keys);
    } else if op, w :| LogAppend(L, s, s', op, w) {
      OneMoreOp(s.ops, op, s'.ops[op]);
    } else if op :| EndOp(L, s, s', op) {
      OneOpLess(s.ops, op);
    }
  }

  lemma OneMoreOp(ops: map<nat, nat>, op: nat, n: nat)
    ensures ops[op := n].Keys == ops.Keys + {op} && |ops[op := n]| == |ops| + if op in ops then 0 else 1
  {
  }

  lemma OneOpLess(ops: map<nat, nat>, op: nat)
    requires op in ops
    ensures (ops - {op}).Keys == ops.Keys - {op} && |ops - {op}| == |ops| - 1
  {
    assert (ops - {op}).Keys == ops.Keys - {op};
  }

  /** In every run, disciplined or not, the list has at most two entries more than the test allows,
      and a log without log blocks never gets an entry. */
  lemma {:induction false} OverrunAtMostTwo(L: Layout, d0: seq<Block>, run: seq<State>, i: nat)
    requires IsRun(L, d0, run) && i < |run|
    ensures |run[i].lh| <= if Limit(L) > 0 then Limit(L) + 2 else 0
    ensures TestInv(L, run[i])
    decreases i
  {
    if i > 0 {
      OverrunAtMostTwo(L, d0, run, i - 1);
      assert Follows(L, run, i);
      TestNext(L, run[i - 1], run[i]);
    }
  }

  /** No two operations are inside log_write, between test and append, at the same time. */
  ghost predicate Serial(run: seq<State>) {
    forall i | 0 <= i < |run| :: |run[i].passed| <= 1
  }

  ghost predicate SerialInv(L: Layout, s: State) {
    |s.lh| <= Limit(L) && (s.passed != {} ==> |s.lh| < Limit(L))
  }

  lemma SerialNext(L: Layout, s: State, s': State)
    requires L.Valid() && SerialInv(L, s) && Next(L, s, s') && |s.passed| <= 1
    ensures SerialInv(L, s')
  {
    if DiskStep(L, s, s') {
      DiskStepKeeps(L, s, s');
    } else if op, w :| LogAppend(L, s, s', op, w) {
      assert |s.passed - {op}| == |s.passed| - 1;
    } else if op :| LogTest(L, s, s', op) {
    } else {
      assert s'.lh == s.lh && s'.passed == s.passed;
    }
  }

  /** Then the test is enough, for any log and whatever the operations write. */
  lemma {:induction false} SerialRoom(L: Layout, d0: seq<Block>, run: seq<State>, i: nat)
    requires IsRun(L, d0, run) && Serial(run) && i < |run|
    ensures SerialInv(L, run[i]) && Room(L, run[i])
    decreases i
  {
    if i > 0 {
      var k := i - 1;
      SerialRoom(L, d0, run, k);
      assert Follows(L, run, i);
      SerialNext(L, run[k], run[i]);
    }
  }

  // Runs in which three operations fill the log

  /** The k-th block outside the log, leaving out the one right behind it. */
  function HomeBlock(L: Layout, k: nat): (b: nat)
    requires L.Valid() && k < L.nblocks - L.size - 1
    ensures L.Home(b) && b != L.start + L.size
  {
    if k < L.start then k else k + L.size + 1
  }

  ghost predicate TurnsTaken(ops: map<nat, nat>, m: nat) {
    && ops.Keys == {0, 1, 2}
    && ops[0] == (m + 2) / 3 && ops[1] == (m + 1) / 3 && ops[2] == m / 3
  }

  /** Three operations have begun and logged m distinct blocks between them, taking turns. */
  ghost predicate Filled(L: Layout, d0: seq<Block>, s: State, m: nat) {
    && s.phase.Running? && |s.view| == L.nblocks && s.disk == d0 && s.committed == []
    && s.issued.Keys == {0, 1, 2}
    && TurnsTaken(s.ops, m)
    && |s.lh| == m < L.nblocks - L.size && L.Valid()
    && forall k | 0 <= k < m :: s.lh[k] == HomeBlock(L, k)
  }

  ghost predicate FilledRun(L: Layout, d0: seq<Block>, run: seq<State>, m: nat, passed: set<nat>) {
    DisciplinedRun(L, d0, run) && Filled(L, d0, run[|run| - 1], m) && run[|run| - 1].passed == passed
  }

  lemma Extend(L: Layout, d0: seq<Block>, run: seq<State>, s': State)
    requires DisciplinedRun(L, d0, run) && Next(L, run[|run| - 1], s') && Disciplined(s')
    ensures DisciplinedRun(L, d0, run + [s'])
  {
    ExtendRun(L, d0, run, s');
  }

  lemma TakeTurn(ops: map<nat, nat>, m: nat)
    requires TurnsTaken(ops, m) && m < LOGSIZE
    ensures m % 3 in ops
    ensures var ops' := ops[m % 3 := ops[m % 3] + 1];
            TurnsTaken(ops', m + 1) && forall op | op in ops' :: ops'[op] <= MAXOPBLOCKS
  {
  }

  lemma BeginThree(L: Layout, d0: seq<Block>) returns (s0: State, s1: State, s2: State, s3: State)
    requires L.HeaderOk(d0) && d0[L.start][0] == 0 && L.size < L.nblocks
    ensures Init(L, d0, s0) && BeginOp(L, s0, s1) && BeginOp(L, s1, s2) && BeginOp(L, s2, s3)
    ensures Disciplined(s0) && Disciplined(s1) && Disciplined(s2) && Disciplined(s3)
    ensures Filled(L, d0, s3, 0) && s3.passed == {} && s3.view == d0
  {
    s0 := State(d0, d0, [], map[], 0, {}, Running, EMPTY_BATCH, [], map[]);
    s1 := s0.(ops := map[0 := 0], nextOp := 1, issued := map[0 := []]);
    s2 := s1.(ops := s1.ops[1 := 0], nextOp := 2, issued := s1.issued[1 := []]);
    s3 := s2.(ops := s2.ops[2 := 0], nextOp := 3, issued := s2.issued[2 := []]);
    assert s1.ops.Keys == {0} && |s1.ops| == 1;
    assert s2.ops.Keys == {0, 1} && |s2.ops| == 2;
  }

  lemma ThreeOps(L: Layout, d0: seq<Block>) returns (run: seq<State>)
    requires L.HeaderOk(d0) && d0[L.start][0] == 0 && L.size < L.nblocks
    ensures FilledRun(L, d0, run, 0, {})
  {
    var s0, s1, s2, s3 := BeginThree(L, d0);
    Extend(L, d0, [s0], s1);
    Extend(L, d0, [s0] + [s1], s2);
    Extend(L, d0, [s0] + [s1] + [s2], s3);
    run := [s0] + [s1] + [s2] + [s3];
  }

  /** One more operation passes the test. */
  lemma PassTest(L: Layout, d0: seq<Block>, run: seq<State>, m: nat, passed: set<nat>, op: nat, passed': set<nat>)
    returns (run': seq<State>)
    requires FilledRun(L, d0, run, m, passed) && m < Limit(L) && op < 3 && op !in passed && passed' == passed + {op}
    ensures FilledRun(L, d0, run', m, passed')
  {
    var s := run[|run| - 1];
    var s' := s.(passed := s.passed + {op});
    assert LogTest(L, s, s', op);
    Extend(L, d0, run, s');
    run' := run + [s'];
  }

  /** The operation whose turn it is appends the next block. */
  lemma AppendOne(L: Layout, d0: seq<Block>, s: State, m: nat, data: Block) returns (s': State)
    requires Filled(L, d0, s, m) && m < LOGSIZE && m + 1 < L.nblocks - L.size && m % 3 in s.passed
    ensures Filled(L, d0, s', m + 1) && Disciplined(s') && s'.passed == s.passed - {m % 3}
    ensures LogAppend(L, s, s', m % 3, Write(HomeBlock(L, m), data)) && s'.lh == s.lh + [HomeBlock(L, m)]
    ensures s'.view == s.view[s'.lh[m] := data]
  {
    var op := m % 3;
    var b := HomeBlock(L, m);
    var w := Write(b, data);
    assert b !in s.lh;
    TakeTurn(s.ops, m);
    s' := s.(passed := s.passed - {op}, view := s.view[b := data], lh := Absorb(s.lh, b),
             ops := s.ops[op := s.ops[op] + |Absorb(s.lh, b)| - |s.lh|],
             current := s.current.(writes := s.current.writes + [OpWrite(op, w)]),
             issued := s.issued[op := s.issued[op] + [w]]);
    assert LogAppend(L, s, s', op, w);
  }

  lemma Append(L: Layout, d0: seq<Block>, run: seq<State>, m: nat, passed: set<nat>, data: Block, passed': set<nat>)
    returns (run': seq<State>)
    requires FilledRun(L, d0, run, m, passed) && m < LOGSIZE && m + 1 < L.nblocks - L.size
    requires m % 3 in passed && passed' == passed - {m % 3}
    ensures FilledRun(L, d0, run', m + 1, passed')
    ensures var s := run'[|run'| - 1]; s.view[s.lh[m]] == data
  {
    var s' := AppendOne(L, d0, run[|run| - 1], m, data);
    Extend(L, d0, run, s');
    run' := run + [s'];
  }

  /** Up to the test's limit, one at a time. */
  lemma {:induction false} FillLog(L: Layout, d0: seq<Block>, m: nat) returns (run: seq<State>)
    requires L.HeaderOk(d0) && d0[L.start][0] == 0 && m < L.nblocks - L.size
    requires m == 0 || m <= Limit(L)
    ensures FilledRun(L, d0, run, m, {})
  {
    if m == 0 {
      run := ThreeOps(L, d0);
    } else {
      var op := (m - 1) % 3;
      run := FillLog(L, d0, m - 1);
      run := PassTest(L, d0, run, m - 1, {}, op, {op});
      run := Append(L, d0, run, m - 1, {op}, d0[0], {});
    }
  }

  /** Two operations pass the test before either appends. */
  lemma TwoPass(L: Layout, d0: seq<Block>, m: nat, a: nat, b: nat) returns (run: seq<State>)
    requires L.HeaderOk(d0) && d0[L.start][0] == 0 && m < L.nblocks - L.size && m < Limit(L)
    requires a < 3 && b < 3 && a != b
    ensures FilledRun(L, d0, run, m, {a, b})
  {
    run := FillLog(L, d0, m);
    run := PassTest(L, d0, run, m, {}, a, {a});
    run := PassTest(L, d0, run, m, {a}, b, {a, b});
  }

  /** So the list ends one entry longer than the test allows. */
  lemma Overrun(L: Layout, d0: seq<Block>, m: nat, data: Block) returns (run: seq<State>)
    requires L.HeaderOk(d0) && d0[L.start][0] == 0 && m + 2 < L.nblocks - L.size
    requires m < Limit(L) && m + 2 <= LOGSIZE
    ensures FilledRun(L, d0, run, m + 2, {})
    ensures var s := run[|run| - 1]; s.view[s.lh[m + 1]] == data
  {
    var a, b, next := m % 3, (m + 1) % 3, m + 1;
    run := TwoPass(L, d0, m, a, b);
    run := Append(L, d0, run, m, {a, b}, data, {b});
    run := Append(L, d0, run, next, {b}, data, {});
  }

  /** With three operations, two entries longer. */
  lemma ThreePass(L: Layout, d0: seq<Block>) returns (run: seq<State>)
    requires L.HeaderOk(d0) && d0[L.start][0] == 0 && LOGSIZE < L.nblocks - L.size && Limit(L) == 28
    ensures FilledRun(L, d0, run, 30, {})
  {
    run := TwoPass(L, d0, 27, 0, 1);
    run := PassTest(L, d0, run, 27, {0, 1}, 2, {0, 1, 2});
    run := Append(L, d0, run, 27, {0, 1, 2}, d0[0], {1, 2});
    run := Append(L, d0, run, 28, {1, 2}, d0[0], {2});
    run := Append(L, d0, run, 29, {2}, d0[0], {});
  }

  /** The exact condition: begin_op's reservation protects every operation that keeps to its
      allowance from the panic if and only if the on-disk log has more than LOGSIZE blocks. mkfs gives it LOGSIZE. */
  lemma ReservationSuffices(L: Layout, d0: seq<Block>)
    requires L.HeaderOk(d0) && d0[L.start][0] == 0 && LOGSIZE < L.nblocks - L.size
    ensures (forall run, i, op | DisciplinedRun(L, d0, run) && 0 <= i < |run| :: !UnfairPanic(L, run[i], op))
            <==> LOGSIZE < L.size
  {
    if LOGSIZE < L.size {
      forall run, i, op: nat | DisciplinedRun(L, d0, run) && 0 <= i < |run|
        ensures !UnfairPanic(L, run[i], op)
      {
        NoUnfairPanic(L, d0, run, i, op);
      }
    } else {
      var m := L.size - 1;
      var run := FillLog(L, d0, m);
      assert UnfairPanic(L, run[|run| - 1], m % 3);
    }
  }

  /** Operations that want more than MAXOPBLOCKS blocks, as a chunk of filewrite can: three of them can come to
      log_write's panic, whatever the log's size, with every one still short of a block. */
  lemma ThreeOversized(L: Layout, d0: seq<Block>, want: nat) returns (run: seq<State>)
    requires L.HeaderOk(d0) && d0[L.start][0] == 0 && LOGSIZE < L.nblocks - L.size && want > MAXOPBLOCKS
    ensures DisciplinedRun(L, d0, run)
    ensures var s := run[|run| - 1];
            s.ops.Keys == {0, 1, 2} && FullLog(L, |s.lh|) && forall op | op in s.ops :: s.ops[op] < want
  {
    run := FillLog(L, d0, Limit(L));
    assert Disciplined(run[|run| - 1]);
  }

  // Room

  /** The log has room for whatever disciplined operations list. */
  predicate BigEnough(L: Layout) {
    L.size == 1 || LOGSIZE < L.size
  }

  lemma DisciplinedRoom(L: Layout, d0: seq<Block>, run: seq<State>, i: nat)
    requires DisciplinedRun(L, d0, run) && i < |run| && BigEnough(L)
    ensures Room(L, run[i])
  {
    SpaceReserved(L, d0, run, i);
    OverrunAtMostTwo(L, d0, run, i);
    assert Disciplined(run[i]);
    UnusedBound(run[i].ops);
  }

  /** The exact condition for the list to stay inside the log: with mkfs's LOGSIZE blocks, header
      included, a disciplined run reaches L.size entries. */
  lemma RoomExactly(L: Layout, d0: seq<Block>)
    requires L.HeaderOk(d0) && d0[L.start][0] == 0 && LOGSIZE < L.nblocks - L.size
    ensures (forall run: seq<State>, i | DisciplinedRun(L, d0, run) && 0 <= i < |run| :: |run[i].lh| < L.size) <==>
              BigEnough(L)
  {
    if BigEnough(L) {
      forall run: seq<State>, i | DisciplinedRun(L, d0, run) && 0 <= i < |run|
        ensures |run[i].lh| < L.size
      {
        DisciplinedRoom(L, d0, run, i);
      }
    } else {
      var run := Overrun(L, d0, L.size - 2, d0[0]);
      assert |run[|run| - 1].lh| == L.size;
    }
  }

  /** All LOGSIZE entries, so as many pinned buffers as there are, for every log of at least 29 blocks. */
  lemma AllPinsExactly(L: Layout, d0: seq<Block>)
    requires L.HeaderOk(d0) && d0[L.start][0] == 0 && LOGSIZE < L.nblocks - L.size
    ensures (exists run: seq<State>, i :: DisciplinedRun(L, d0, run) && 0 <= i < |run| && |run[i].lh| == LOGSIZE)
            <==> LOGSIZE - 1 <= L.size
  {
    if L.size < LOGSIZE - 1 {
      forall run: seq<State>, i | DisciplinedRun(L, d0, run) && 0 <= i < |run|
        ensures |run[i].lh| < LOGSIZE
      {
        OverrunAtMostTwo(L, d0, run, i);
      }
    } else {
      var run;
      if LOGSIZE < L.size {
        run := FillLog(L, d0, LOGSIZE);
      } else if L.size == LOGSIZE {
        run := Overrun(L, d0, LOGSIZE - 2, d0[0]);
      } else {
        run := ThreePass(L, d0);
      }
      assert DisciplinedRun(L, d0, run) && |run[|run| - 1].lh| == LOGSIZE;
    }
  }

  // What an overrun does to the disk

  /** The operations end, and the last one starts to commit. */
  lemma EndThree(L: Layout, d0: seq<Block>, s0: State, m: nat) returns (s1: State, s2: State, s3: State)
    requires Filled(L, d0, s0, m) && s0.passed == {} && 0 < m && Disciplined(s0)
    ensures EndOp(L, s0, s1, 0) && EndOp(L, s1, s2, 1) && EndOp(L, s2, s3, 2)
    ensures Disciplined(s1) && Disciplined(s2) && Disciplined(s3)
    ensures s3.phase == Committing(d0, 0) && s3.ops == map[]
    ensures s3.view == s0.view && s3.lh == s0.lh && s3.disk == d0 && s3.committed == []
  {
    s1 := s0.(ops := s0.ops - {0}, current := s0.current.(ops := s0.current.ops + {0}));
    s2 := s1.(ops := s1.ops - {1}, current := s1.current.(ops := s1.current.ops + {1}));
    s3 := s2.(ops := s2.ops - {2}, current := s2.current.(ops := s2.current.ops + {2}),
              phase := Committing(s2.disk, 0));
    assert 2 in s1.ops && 2 in s2.ops;
    assert s2.ops - {2} == map[];
  }

  lemma EndAll(L: Layout, d0: seq<Block>, run: seq<State>, m: nat) returns (run': seq<State>)
    requires FilledRun(L, d0, run, m, {}) && 0 < m
    ensures DisciplinedRun(L, d0, run') && run'[|run'| - 1].phase == Committing(d0, 0)
    ensures var s, s' := run[|run| - 1], run'[|run'| - 1];
            s'.view == s.view && s'.lh == s.lh && s'.disk == d0 && s'.committed == [] && s'.ops == map[]
  {
    var s1, s2, s3 := EndThree(L, d0, run[|run| - 1], m);
    Extend(L, d0, run, s1);
    Extend(L, d0, run + [s1], s2);
    Extend(L, d0, run + [s1] + [s2], s3);
    run' := run + [s1] + [s2] + [s3];
  }

  /** k of write_log's writes. */
  lemma {:induction false} LogSome(L: Layout, d0: seq<Block>, run: seq<State>, k: nat) returns (run': seq<State>)
    requires DisciplinedRun(L, d0, run) && run[|run| - 1].phase == Committing(d0, 0) && run[|run| - 1].disk == d0
    requires CommitShape(L, run[|run| - 1]) && k <= |run[|run| - 1].lh|
    ensures DisciplinedRun(L, d0, run')
    ensures var s, s' := run[|run| - 1], run'[|run'| - 1];
            && s' == s.(phase := Committing(d0, k), disk := s'.disk)
            && s'.disk == ApplyAll(d0, CommitWrites(L, d0, s.view, s.lh)[..k])
  {
    if k == 0 {
      run' := run;
    } else {
      var before := LogSome(L, d0, run, k - 1);
      var s := before[|before| - 1];
      var ws := CommitWrites(L, d0, s.view, s.lh);
      var s' := s.(disk := s.disk[ws[k - 1].blockno := ws[k - 1].data], phase := Committing(d0, k));
      ApplyAllStep(d0, ws, k - 1);
      assert CommitWrite(L, s, s');
      Extend(L, d0, before, s');
      run' := before + [s'];
    }
  }

  /** Every disciplined run is safe at every moment if and only if the log is big enough: with a
      smaller one, write_log can overwrite the block behind the log before the header says so. */
  lemma GroupCommitSafe(L: Layout, d0: seq<Block>)
    requires L.HeaderOk(d0) && d0[L.start][0] == 0 && LOGSIZE < L.nblocks - L.size && L.start + L.size < L.nblocks
    ensures (forall run, i | DisciplinedRun(L, d0, run) && 0 <= i < |run| :: Safe(L, d0, run[i])) <==> BigEnough(L)
  {
    if BigEnough(L) {
      forall run, i: nat | DisciplinedRun(L, d0, run) && i < |run|
        ensures Safe(L, d0, run[i])
      {
        forall j: nat | j <= i
          ensures RoomToCommit(L, run[j])
        {
          DisciplinedRoom(L, d0, run, j);
        }
        SafeWithRoom(L, d0, run, i);
      }
    } else {
      var run := UnsafeRun(L, d0);
      assert !Safe(L, d0, run[|run| - 1]);
    }
  }

  /** The run that does it. */
  lemma UnsafeRun(L: Layout, d0: seq<Block>) returns (run: seq<State>)
    requires L.HeaderOk(d0) && d0[L.start][0] == 0 && LOGSIZE < L.nblocks - L.size && L.start + L.size < L.nblocks
    requires 1 < L.size <= LOGSIZE
    ensures DisciplinedRun(L, d0, run) && !Safe(L, d0, run[|run| - 1])
  {
    var after := L.start + L.size;
    var data: Block := d0[after][0 := d0[after][0] + 1];
    run := Overrun(L, d0, L.size - 2, data);
    run := EndAll(L, d0, run, L.size);
    run := LogSome(L, d0, run, L.size);
    Overwritten(L, d0, run[|run| - 1], data);
  }

  lemma Overwritten(L: Layout, d0: seq<Block>, s: State, data: Block)
    requires L.HeaderOk(d0) && d0[L.start][0] == 0 && L.start + L.size < L.nblocks && CommitShape(L, s)
    requires |s.lh| == L.size > 0 && s.phase == Committing(d0, |s.lh|) && s.committed == []
    requires s.view[s.lh[L.size - 1]] == data != d0[L.start + L.size]
    requires s.disk == ApplyAll(d0, CommitWrites(L, d0, s.view, s.lh)[..|s.lh|])
    ensures !Safe(L, d0, s)
  {
    var ws := CommitWrites(L, d0, s.view, s.lh)[..|s.lh|];
    assert ws == LogWrites(L, s.view, s.lh);
    ApplyAllRange(d0, ws, L.start + 1, L.size - 1, L.start + L.size);
    ApplyAllAt(d0, ws, L.start, -1);
    assert LeftOver(L, s, s.disk) && !HeaderLanded(L, s, s.disk);
    HoldsIffRecoversTo(L, s.disk, d0);
    assert L.Home(L.start + L.size);
  }

  /** Without the race any log is safe, whatever the operations write. */
  lemma SerialSafe(L: Layout, d0: seq<Block>, run: seq<State>, i: nat)
    requires IsRun(L, d0, run) && Serial(run) && i < |run|
    ensures Safe(L, d0, run[i])
  {
    forall j: nat | j <= i
      ensures RoomToCommit(L, run[j])
    {
      SerialRoom(L, d0, run, j);
    }
    SafeWithRoom(L, d0, run, i);
  }
}
