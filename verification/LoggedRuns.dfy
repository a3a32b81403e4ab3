/** Runs of the log over the cache that go to the limit, and the exact conditions they show: for which logs a crash
    is always survived, and for which commit() can find no buffer. */
module LoggedRuns {
  import opened Disk
  import opened LogSpec
  import opened CrashSafety
  import opened CacheSpec
  import opened Sets
  import C = CacheRuns
  import G = GroupCommit
  import H = HeldBuffers
  import LogSpace
  import opened CommitBuffers
  import opened LoggedCache

  ghost predicate EndsIn(L: Layout, d0: seq<Block>, run: seq<Both>, s: Both) {
    IsRun(L, d0, run) && KeptTo(run) && run[|run| - 1] == s
  }

  /** Some run whose operations keep to their allowance ends here. */
  ghost predicate Reached(L: Layout, d0: seq<Block>, s: Both) {
    exists run :: EndsIn(L, d0, run, s)
  }

  lemma ReachNext(L: Layout, d0: seq<Block>, s: Both, s': Both)
    requires Reached(L, d0, s) && Next(L, s, s') && LogSpace.Disciplined(s'.g)
    ensures Reached(L, d0, s')
  {
    var run :| EndsIn(L, d0, run, s);
    var run' := run + [s'];
    forall i | 0 < i < |run'|
      ensures LoggedCache.Follows(L, run', i)
    {
      if i < |run| {
        assert LoggedCache.Follows(L, run, i);
        assert run'[i - 1] == run[i - 1] && run'[i] == run[i];
      }
    }
    assert EndsIn(L, d0, run', s');
  }

  lemma ReachLog(L: Layout, d0: seq<Block>, s: Both, g': G.State)
    requires Reached(L, d0, s) && LogStep(L, s.g, g') && LogSpace.Disciplined(g')
    ensures Reached(L, d0, Both(g', s.c))
  {
    ReachNext(L, d0, s, Both(g', s.c));
  }

  lemma ReachBuffers(L: Layout, d0: seq<Block>, s: Both, c': C.State, pins: seq<int>)
    requires Reached(L, d0, s) && LogSpace.Disciplined(s.g)
    requires C.Inv(s.c) && Pins(s.c, pins) && BufferStep(s.c, c')
    ensures Reached(L, d0, Both(s.g, c')) && Pins(c', pins)
  {
    assert Next(L, s, Both(s.g, c'));
    ReachNext(L, d0, s, Both(s.g, c'));
    BufferStepPins(s.c, c', pins);
  }

  lemma PutAside(held: set<nat>, b: nat)
    requires b !in held
    ensures held + {b} - {b} == held && |held + {b}| == |held| + 1
  {
  }

  /** A process reads block n. */
  lemma Fetch(L: Layout, d0: seq<Block>, s: Both, pins: seq<int>, held: set<nat>, n: nat)
    returns (c': C.State, b: nat, held': set<nat>)
    requires Reached(L, d0, s) && LogSpace.Disciplined(s.g) && H.Calm(s.c, held) && Pins(s.c, pins)
    requires n < |s.c.c.disk| && !NoBuffers(s.c.c, ROOTDEV, n)
    requires forall i | i in held :: s.c.c.bufs[i].blockno != n
    ensures Reached(L, d0, Both(s.g, c')) && H.Calm(c', held') && Pins(c', pins)
    ensures b in held' && held == held' - {b} && |held'| == |held| + 1
    ensures H.OneLocked(s.c, c', b, n) && c'.c.bufs[b].valid
  {
    var c1, c2;
    c1, c2, b := H.Lock(s.c, held, n);
    assert BufferStep(s.c, c1) && BufferStep(c1, c2);
    ReachBuffers(L, d0, s, c1, pins);
    ReachBuffers(L, d0, Both(s.g, c1), c2, pins);
    PutAside(held, b);
    held' := held + {b};
    c' := H.ReadIn(c2, held', b, n);
    if c' != c2 {
      assert BufferStep(c2, c');
      ReachBuffers(L, d0, Both(s.g, c2), c', pins);
    }
  }

  /** ... and releases it. */
  lemma Release(L: Layout, d0: seq<Block>, s: Both, pins: seq<int>, held: set<nat>, b: nat) returns (c': C.State)
    requires Reached(L, d0, s) && LogSpace.Disciplined(s.g) && H.Calm(s.c, held) && Pins(s.c, pins)
    requires b in held && b !in s.c.touched
    ensures Reached(L, d0, Both(s.g, c')) && H.Calm(c', held - {b}) && Pins(c', pins)
    ensures c'.mem == s.c.mem && c'.c.disk == s.c.c.disk && c'.touched == s.c.touched
    ensures c'.c.bufs == s.c.c.bufs[b := s.c.c.bufs[b].(owner := 0, refcnt := 0)]
  {
    var c1;
    c1, c' := H.Release(s.c, held, b);
    assert BufferStep(s.c, c1) && BufferStep(c1, c');
    ReachBuffers(L, d0, s, c1, pins);
    ReachBuffers(L, d0, Both(s.g, c1), c', pins);
  }

  // Three operations fill the log

  /** They have logged m blocks; those in `passed` are past log_write's test; those in `held` are locked buffers. */
  ghost predicate Stage(L: Layout, d0: seq<Block>, s: Both, m: nat, passed: set<nat>, held: set<nat>) {
    && Reached(L, d0, s) && LogSpace.Filled(L, d0, s.g, m) && LogSpace.Disciplined(s.g) && s.g.passed == passed
    && H.Calm(s.c, held) && Pins(s.c, s.g.lh) && s.c.mem == s.g.view && s.c.c.disk == d0
  }

  /** Buffer b holds the k-th block that they log. */
  ghost predicate Has(L: Layout, c: C.State, b: nat, k: nat)
    requires L.Valid() && k < L.nblocks - L.size - 1
  {
    b < |c.c.bufs| && Matches(c.c.bufs[b], ROOTDEV, LogSpace.HomeBlock(L, k)) && c.c.bufs[b].valid
  }

  lemma StageStart(L: Layout, d0: seq<Block>) returns (s: Both)
    requires L.HeaderOk(d0) && d0[L.start][0] == 0 && L.size < L.nblocks
    ensures Stage(L, d0, s, 0, {}, {})
  {
    var g0, g1, g2, g3 := LogSpace.BeginThree(L, d0);
    var c := ColdCache(d0);
    assert EndsIn(L, d0, [Both(g0, c)], Both(g0, c));
    ReachLog(L, d0, Both(g0, c), g1);
    ReachLog(L, d0, Both(g1, c), g2);
    ReachLog(L, d0, Both(g2, c), g3);
    s := Both(g3, c);
    C.InvInit(c);
  }

  lemma ColdCache(d0: seq<Block>) returns (c: C.State)
    requires d0 != []
    ensures C.Init(c) && c.c.disk == d0
  {
    var bufs := seq(NBUF, i => Buf(0, 0, false, false, 0, 0, d0[0]));
    c := C.State(Cache(bufs, seq(NBUF, i requires 0 <= i < NBUF => i), d0), map[], multiset{}, {}, d0);
  }

  /** The list's blocks are all pinned, so their number and that of the locked buffers say if one is left. */
  lemma StagePins(L: Layout, d0: seq<Block>, s: Both, m: nat, passed: set<nat>, held: set<nat>)
    requires Stage(L, d0, s, m, passed, held)
    ensures |Pinned(s.c)| == m
  {
    PinCount(s.c, s.g.lh);
  }

  lemma StageFetch(L: Layout, d0: seq<Block>, s: Both, m: nat, passed: set<nat>, held: set<nat>, k: nat)
    returns (s': Both, b: nat, held': set<nat>)
    requires Stage(L, d0, s, m, passed, held) && m + |held| < NBUF && k < L.nblocks - L.size - 1
    requires forall i | i in held :: s.c.c.bufs[i].blockno != LogSpace.HomeBlock(L, k)
    ensures Stage(L, d0, s', m, passed, held') && s'.g == s.g && Has(L, s'.c, b, k)
    ensures b in held' && held == held' - {b} && |held'| == |held| + 1
    ensures forall i | i in held :: i < NBUF && s'.c.c.bufs[i] == s.c.c.bufs[i]
    ensures s'.c.touched == s.c.touched
  {
    StagePins(L, d0, s, m, passed, held);
    var n := LogSpace.HomeBlock(L, k);
    H.SomeUnused(s.c, held, n);
    var c';
    c', b, held' := Fetch(L, d0, s, s.g.lh, held, n);
    s' := Both(s.g, c');
  }

  lemma StageAlter(L: Layout, d0: seq<Block>, s: Both, m: nat, passed: set<nat>, held: set<nat>, b: nat, data: Block)
    returns (s': Both)
    requires Stage(L, d0, s, m, passed, held) && b in held && s.c.c.bufs[b].valid
    ensures Stage(L, d0, s', m, passed, held) && s'.g == s.g
    ensures s'.c.c.bufs == s.c.c.bufs[b := s.c.c.bufs[b].(data := data)] && s'.c.touched == s.c.touched + {b}
  {
    var c' := H.Change(s.c, held, b, data);
    assert BufferStep(s.c, c');
    ReachBuffers(L, d0, s, c', s.g.lh);
    s' := Both(s.g, c');
  }

  lemma TestPassed(L: Layout, d0: seq<Block>, g: G.State, m: nat, op: nat) returns (g': G.State)
    requires LogSpace.Filled(L, d0, g, m) && LogSpace.Disciplined(g) && m < LogSpace.Limit(L)
    requires op < 3 && op !in g.passed
    ensures LogStep(L, g, g') && LogSpace.Filled(L, d0, g', m) && LogSpace.Disciplined(g')
    ensures g'.passed == g.passed + {op} && g'.view == g.view && g'.lh == g.lh
  {
    g' := g.(passed := g.passed + {op});
    assert G.LogTest(L, g, g', op);
  }

  lemma StageTest(L: Layout, d0: seq<Block>, s: Both, m: nat, passed: set<nat>, held: set<nat>, op: nat,
                  passed': set<nat>)
    returns (s': Both)
    requires Stage(L, d0, s, m, passed, held) && m < LogSpace.Limit(L) && op < 3 && op !in passed
    requires passed' == passed + {op}
    ensures Stage(L, d0, s', m, passed', held) && s'.c == s.c
  {
    var g' := TestPassed(L, d0, s.g, m, op);
    ReachLog(L, d0, s, g');
    s' := Both(g', s.c);
  }

  lemma StageLog(L: Layout, d0: seq<Block>, s: Both, m: nat, passed: set<nat>, held: set<nat>, b: nat,
                 passed': set<nat>)
    returns (s': Both)
    requires Stage(L, d0, s, m, passed, held) && m < LOGSIZE && m + 1 < L.nblocks - L.size
    requires m % 3 in passed && passed' == passed - {m % 3} && b in held && Has(L, s.c, b, m)
    ensures Stage(L, d0, s', m + 1, passed', held)
    ensures s'.g.view[s'.g.lh[m]] == s.c.c.bufs[b].data
    ensures s'.c.c.bufs == s.c.c.bufs[b := s.c.c.bufs[b].(dirty := true)] && s'.c.touched == s.c.touched - {b}
  {
    var data := s.c.c.bufs[b].data;
    var g' := LogSpace.AppendOne(L, d0, s.g, m, data);
    var c' := H.Write(s.c, held, b, true);
    s' := Both(g', c');
    assert Append(L, s, s', m % 3, b);
    ReachNext(L, d0, s, s');
    AppendPins(s.c, c', b, s.g.lh);
  }

  lemma StageRelease(L: Layout, d0: seq<Block>, s: Both, m: nat, passed: set<nat>, held: set<nat>, b: nat,
                     held': set<nat>)
    returns (s': Both)
    requires Stage(L, d0, s, m, passed, held) && b in held && b !in s.c.touched && held' == held - {b}
    ensures Stage(L, d0, s', m, passed, held') && s'.g == s.g && s'.c.touched == s.c.touched
    ensures forall i | 0 <= i < NBUF && i != b :: s'.c.c.bufs[i] == s.c.c.bufs[i]
  {
    var c' := Release(L, d0, s, s.g.lh, held, b);
    s' := Both(s.g, c');
  }

  /** log_write and then brelse of the next block. */
  lemma LogAndRelease(L: Layout, d0: seq<Block>, s: Both, k: nat, m: nat, passed: set<nat>, passed': set<nat>,
                      held: set<nat>, held': set<nat>, b: nat)
    returns (s': Both)
    requires Stage(L, d0, s, k, passed, held) && k < LOGSIZE && m == k + 1 < L.nblocks - L.size
    requires k % 3 in passed && passed' == passed - {k % 3}
    requires b in held && held' == held - {b} && Has(L, s.c, b, k)
    ensures Stage(L, d0, s', m, passed', held')
    ensures s'.g.view[s'.g.lh[k]] == s.c.c.bufs[b].data
    ensures forall i | 0 <= i < NBUF && i != b :: s'.c.c.bufs[i] == s.c.c.bufs[i]
  {
    var t := StageLog(L, d0, s, k, passed, held, b, passed');
    s' := StageRelease(L, d0, t, m, passed', held, b, held');
  }

  lemma OneBlock(L: Layout, d0: seq<Block>, s: Both, k: nat, m: nat) returns (s': Both)
    requires Stage(L, d0, s, k, {}, {}) && m == k + 1 <= LogSpace.Limit(L) && m < L.nblocks - L.size
    ensures Stage(L, d0, s', m, {}, {})
  {
    var t, b, held := StageFetch(L, d0, s, k, {}, {}, k);
    s' := TestAndLog(L, d0, t, k, m, k % 3, held, {}, b);
  }

  lemma TestAndLog(L: Layout, d0: seq<Block>, s: Both, k: nat, m: nat, op: nat, held: set<nat>, held': set<nat>,
                   b: nat)
    returns (s': Both)
    requires Stage(L, d0, s, k, {}, held) && m == k + 1 <= LogSpace.Limit(L) && m < L.nblocks - L.size && op == k % 3
    requires b in held && held' == held - {b} && Has(L, s.c, b, k)
    ensures Stage(L, d0, s', m, {}, held')
  {
    var u := StageTest(L, d0, s, k, {}, held, op, {op});
    s' := LogAndRelease(L, d0, u, k, m, {op}, {}, held, held', b);
  }

  /** One block after another, up to the test's limit. */
  lemma {:induction false} FillTo(L: Layout, d0: seq<Block>, m: nat) returns (s: Both)
    requires L.HeaderOk(d0) && d0[L.start][0] == 0 && m < L.nblocks - L.size
    requires m == 0 || m <= LogSpace.Limit(L)
    ensures Stage(L, d0, s, m, {}, {})
  {
    if m == 0 {
      s := StageStart(L, d0);
    } else {
      var k := m - 1;
      s := FillTo(L, d0, k);
      s := OneBlock(L, d0, s, k, m);
    }
  }

  // Operations that pass the test together

  lemma FetchTwo(L: Layout, d0: seq<Block>, s: Both, m: nat, next: nat)
    returns (s': Both, h1: set<nat>, h2: set<nat>, b1: nat, b2: nat)
    requires Stage(L, d0, s, m, {}, {}) && next == m + 1 < NBUF && next < L.nblocks - L.size - 1
    ensures Stage(L, d0, s', m, {}, h2) && |h2| == 2
    ensures b2 in h2 && h1 == h2 - {b2} && b1 in h1 && {} == h1 - {b1}
    ensures Has(L, s'.c, b1, m) && Has(L, s'.c, b2, next)
  {
    var t;
    t, b1, h1 := StageFetch(L, d0, s, m, {}, {}, m);
    NotNext(L, t.c, m, next, h1, b1);
    s', b2, h2 := StageFetch(L, d0, t, m, {}, h1, next);
  }

  lemma NotNext(L: Layout, c: C.State, m: nat, next: nat, h1: set<nat>, b1: nat)
    requires L.Valid() && m < next < L.nblocks - L.size - 1 && {} == h1 - {b1} && Has(L, c, b1, m)
    ensures forall i | i in h1 :: i < |c.c.bufs| && c.c.bufs[i].blockno != LogSpace.HomeBlock(L, next)
  {
    forall i | i in h1
      ensures i < |c.c.bufs| && c.c.bufs[i].blockno != LogSpace.HomeBlock(L, next)
    {
      OnlyOne(h1, b1, i);
    }
  }

  lemma OnlyOne(h: set<nat>, b: nat, i: nat)
    requires {} == h - {b} && i in h
    ensures i == b
  {
    assert i == b || i in h - {b};
  }

  lemma Pair(x: nat, y: nat)
    requires x != y
    ensures {x, y} - {x} == {y} && {y} - {y} == {}
  {
  }

  /** Of two buffers, the first may go first. */
  lemma TakeFirst(h1: set<nat>, h2: set<nat>, b1: nat, b2: nat)
    requires b2 in h2 && h1 == h2 - {b2} && b1 in h1
    ensures b1 in h2 && b1 != b2 && b2 in h2 - {b1} && h2 - {b1} - {b2} == h1 - {b1}
  {
  }

  lemma TestTwo(L: Layout, d0: seq<Block>, s: Both, m: nat, held: set<nat>, x: nat, y: nat) returns (s': Both)
    requires Stage(L, d0, s, m, {}, held) && m < LogSpace.Limit(L) && x < 3 && y < 3 && x != y
    ensures Stage(L, d0, s', m, {x, y}, held) && s'.c == s.c
  {
    var t := StageTest(L, d0, s, m, {}, held, x, {x});
    s' := StageTest(L, d0, t, m, {x}, held, y, {x, y});
  }

  lemma LogTwo(L: Layout, d0: seq<Block>, s: Both, m: nat, m1: nat, m2: nat, h1: set<nat>, h2: set<nat>,
               b1: nat, b2: nat, x: nat, y: nat)
    returns (s': Both)
    requires m1 == m + 1 && m2 == m + 2 <= LOGSIZE && m2 < L.nblocks - L.size && x == m % 3 && y == m1 % 3 && x != y
    requires Stage(L, d0, s, m, {x, y}, h2) && b2 in h2 && h1 == h2 - {b2} && b1 in h1 && {} == h1 - {b1}
    requires Has(L, s.c, b1, m) && Has(L, s.c, b2, m1)
    ensures Stage(L, d0, s', m2, {}, {}) && s'.g.view[s'.g.lh[m1]] == s.c.c.bufs[b2].data
  {
    var rest := h2 - {b1};
    TakeFirst(h1, h2, b1, b2);
    Pair(x, y);
    var t := LogAndRelease(L, d0, s, m, m1, {x, y}, {y}, h2, rest, b1);
    s' := LogAndRelease(L, d0, t, m1, m2, {y}, {}, rest, {}, b2);
  }

  lemma NextTurn(m: nat)
    ensures m % 3 != (m + 1) % 3
  {
  }

  /** Two operations pass the test before either appends, each with its buffer in hand. */
  lemma Race(L: Layout, d0: seq<Block>, m: nat, m2: nat, data: Block) returns (s: Both)
    requires L.HeaderOk(d0) && d0[L.start][0] == 0 && m2 == m + 2 < L.nblocks - L.size
    requires m < LogSpace.Limit(L) && m2 <= LOGSIZE
    ensures Stage(L, d0, s, m2, {}, {}) && s.g.view[s.g.lh[m + 1]] == data
  {
    var m1, x, y := m + 1, m % 3, (m + 1) % 3;
    NextTurn(m);
    var t := FillTo(L, d0, m);
    var u, h1, h2, b1, b2 := FetchTwo(L, d0, t, m, m1);
    s := RaceOn(L, d0, u, m, m1, m2, data, h1, h2, b1, b2, x, y);
  }

  lemma RaceOn(L: Layout, d0: seq<Block>, s: Both, m: nat, m1: nat, m2: nat, data: Block, h1: set<nat>, h2: set<nat>,
               b1: nat, b2: nat, x: nat, y: nat)
    returns (s': Both)
    requires m1 == m + 1 && m2 == m + 2 <= LOGSIZE && m2 < L.nblocks - L.size && x == m % 3 && y == m1 % 3 && x != y
    requires Stage(L, d0, s, m, {}, h2) && b2 in h2 && h1 == h2 - {b2} && b1 in h1 && {} == h1 - {b1}
    requires Has(L, s.c, b1, m) && Has(L, s.c, b2, m1) && m < LogSpace.Limit(L)
    ensures Stage(L, d0, s', m2, {}, {}) && s'.g.view[s'.g.lh[m1]] == data
  {
    var t := StageAlter(L, d0, s, m, {}, h2, b2, data);
    var u := TestTwo(L, d0, t, m, h2, x, y);
    s' := LogTwo(L, d0, u, m, m1, m2, h1, h2, b1, b2, x, y);
  }

  /** Three of them, at 27 blocks. */
  lemma RaceOfThree(L: Layout, d0: seq<Block>) returns (s: Both)
    requires L.HeaderOk(d0) && d0[L.start][0] == 0 && LOGSIZE < L.nblocks - L.size && LogSpace.Limit(L) == 28
    ensures Stage(L, d0, s, 30, {}, {})
  {
    var m, m1, m2, m3 := 27, 28, 29, 30;
    var t := FillTo(L, d0, m);
    var u, h1, h2, b1, b2 := FetchTwo(L, d0, t, m, m1);
    ThreeTurns(m);
    s := FetchThird(L, d0, u, m, m1, m2, m3, h1, h2, b1, b2, m % 3, m1 % 3, m2 % 3);
  }

  lemma FetchThird(L: Layout, d0: seq<Block>, s: Both, m: nat, m1: nat, m2: nat, m3: nat, h1: set<nat>, h2: set<nat>,
                   b1: nat, b2: nat, x: nat, y: nat, z: nat)
    returns (s': Both)
    requires x == m % 3 && y == m1 % 3 && z == m2 % 3 && x != y && y != z && x != z
    requires m1 == m + 1 && m2 == m + 2 && m3 == m + 3 <= LOGSIZE && m3 < L.nblocks - L.size && m < LogSpace.Limit(L)
    requires Stage(L, d0, s, m, {}, h2) && |h2| == 2 && b2 in h2 && h1 == h2 - {b2} && b1 in h1 && {} == h1 - {b1}
    requires Has(L, s.c, b1, m) && Has(L, s.c, b2, m1)
    ensures Stage(L, d0, s', m3, {}, {})
  {
    NotYetHeld(L, s.c, m, m1, m2, h1, h2, b1, b2);
    var t, b3, h3 := StageFetch(L, d0, s, m, {}, h2, m2);
    s' := ThreeOn(L, d0, t, m, m1, m2, m3, h1, h2, h3, b1, b2, b3, x, y, z);
  }

  lemma NotYetHeld(L: Layout, c: C.State, m: nat, m1: nat, m2: nat, h1: set<nat>, h2: set<nat>, b1: nat, b2: nat)
    requires L.Valid() && m < m1 < m2 < L.nblocks - L.size - 1 && h1 == h2 - {b2} && {} == h1 - {b1}
    requires Has(L, c, b1, m) && Has(L, c, b2, m1)
    ensures forall i | i in h2 :: i < |c.c.bufs| && c.c.bufs[i].blockno != LogSpace.HomeBlock(L, m2)
  {
    forall i | i in h2
      ensures i < |c.c.bufs| && c.c.bufs[i].blockno != LogSpace.HomeBlock(L, m2)
    {
      OneOfTwo(h1, h2, b1, b2, i);
    }
  }

  lemma OneOfTwo(h1: set<nat>, h2: set<nat>, b1: nat, b2: nat, i: nat)
    requires h1 == h2 - {b2} && {} == h1 - {b1} && i in h2
    ensures i == b1 || i == b2
  {
    if i != b2 {
      assert i in h1;
      OnlyOne(h1, b1, i);
    }
  }

  lemma ThreeTurns(m: nat)
    ensures var x, y, z := m % 3, (m + 1) % 3, (m + 2) % 3; x != y && y != z && x != z
  {
  }

  lemma Triple(x: nat, y: nat, z: nat)
    requires x != y && y != z && x != z
    ensures {x, y, z} - {x} == {y, z} && {x, y} + {z} == {x, y, z} && z !in {x, y}
  {
  }

  /** Of three buffers, the first may go first. */
  lemma TakeFirstOfThree(h1: set<nat>, h2: set<nat>, h3: set<nat>, b1: nat, b2: nat, b3: nat, h: set<nat>)
    requires b3 in h3 && h2 == h3 - {b3} && b2 in h2 && h1 == h2 - {b2} && b1 in h1 && h == h3 - {b1}
    ensures b1 in h3 && b1 != b2 && b1 != b3 && b3 in h && b2 in h - {b3} && h - {b3} - {b2} == h1 - {b1}
  {
  }

  lemma ThreeOn(L: Layout, d0: seq<Block>, s: Both, m: nat, m1: nat, m2: nat, m3: nat, h1: set<nat>, h2: set<nat>,
                h3: set<nat>, b1: nat, b2: nat, b3: nat, x: nat, y: nat, z: nat)
    returns (s': Both)
    requires m1 == m + 1 && m2 == m + 2 && m3 == m + 3 <= LOGSIZE && m3 < L.nblocks - L.size && m < LogSpace.Limit(L)
    requires x == m % 3 && y == m1 % 3 && z == m2 % 3 && x != y && y != z && x != z && Stage(L, d0, s, m, {}, h3)
    requires b3 in h3 && h2 == h3 - {b3} && b2 in h2 && h1 == h2 - {b2} && b1 in h1 && {} == h1 - {b1}
    requires Has(L, s.c, b1, m) && Has(L, s.c, b2, m1) && Has(L, s.c, b3, m2)
    ensures Stage(L, d0, s', m3, {}, {})
  {
    var h := h3 - {b1};
    Triple(x, y, z);
    TakeFirstOfThree(h1, h2, h3, b1, b2, b3, h);
    var t := TestTwo(L, d0, s, m, h3, x, y);
    var u := StageTest(L, d0, t, m, {x, y}, h3, z, {x, y, z});
    var v := LogAndRelease(L, d0, u, m, m1, {x, y, z}, {y, z}, h3, h, b1);
    s' := LogTwo(L, d0, v, m1, m2, m3, h - {b3}, h, b2, b3, y, z);
  }

  // commit() without a buffer

  /** The operations end, and the last one starts to commit. */
  lemma EndAll(L: Layout, d0: seq<Block>, s: Both, m: nat) returns (s': Both)
    requires Stage(L, d0, s, m, {}, {}) && 0 < m
    ensures Reached(L, d0, s') && LogSpace.Disciplined(s'.g) && s'.c == s.c && s'.g.phase == G.Committing(d0, 0)
    ensures s'.g.view == s.g.view && s'.g.lh == s.g.lh && s'.g.disk == d0 && s'.g.committed == []
  {
    var g1, g2, g3 := LogSpace.EndThree(L, d0, s.g, m);
    ReachLog(L, d0, s, g1);
    ReachLog(L, d0, Both(g1, s.c), g2);
    ReachLog(L, d0, Both(g2, s.c), g3);
    s' := Both(g3, s.c);
  }

  /** "bget: no buffers" for write_log's first block, although nobody holds a buffer. */
  ghost predicate Stuck(L: Layout, s: Both) {
    && s.g.phase.Committing? && s.g.phase.done == 0
    && (forall i | 0 <= i < |s.c.c.bufs| :: s.c.c.bufs[i].refcnt == 0)
    && NoBuffers(s.c.c, ROOTDEV, L.start + 1)
  }

  lemma FullList(L: Layout, d0: seq<Block>) returns (s: Both)
    requires L.HeaderOk(d0) && d0[L.start][0] == 0 && LOGSIZE < L.nblocks - L.size && LOGSIZE - 1 <= L.size
    ensures Stage(L, d0, s, LOGSIZE, {}, {})
  {
    if LOGSIZE < L.size {
      s := FillTo(L, d0, LOGSIZE);
    } else if L.size == LOGSIZE {
      s := Race(L, d0, LOGSIZE - 2, LOGSIZE, d0[0]);
    } else {
      s := RaceOfThree(L, d0);
    }
  }

  /** A run of operations within their allowance that ends so, for a log of at least LOGSIZE - 1 blocks. */
  lemma StuckRun(L: Layout, d0: seq<Block>) returns (s: Both)
    requires L.HeaderOk(d0) && d0[L.start][0] == 0 && LOGSIZE < L.nblocks - L.size && LOGSIZE - 1 <= L.size
    ensures Reached(L, d0, s) && Stuck(L, s)
  {
    var t := FullList(L, d0);
    StagePins(L, d0, t, LOGSIZE, {}, {});
    s := EndAll(L, d0, t, LOGSIZE);
    NoneLeft(L, t.c, t.g.lh);
  }

  lemma NoneLeft(L: Layout, c: C.State, pins: seq<int>)
    requires H.Calm(c, {}) && Pins(c, pins) && |Pinned(c)| == NBUF && forall k | 0 <= k < |pins| :: L.Home(pins[k])
    requires L.size > 1
    ensures NoBuffers(c.c, ROOTDEV, L.start + 1)
  {
    forall i: nat | i < NBUF
      ensures !Matches(c.c.bufs[i], ROOTDEV, L.start + 1) && !Unused(c.c.bufs[i])
    {
      AllPinned(c, i);
    }
  }

  // What holds in every run, whether or not the list fits the log area

  /** Only listed blocks are pinned. */
  ghost predicate Listed(c: C.State, pins: seq<int>) {
    forall i | 0 <= i < |c.c.bufs| && c.c.bufs[i].dirty :: c.c.bufs[i].blockno in pins
  }

  ghost predicate PinnedListed(L: Layout, s: Both) {
    C.Inv(s.c) && LogSpace.TestInv(L, s.g) && Listed(s.c, Pending(s.g))
  }

  lemma DirtyKept(c: C.State, c': C.State, pins: seq<int>)
    requires C.Inv(c) && BufferStep(c, c') && Listed(c, pins)
    ensures Listed(c', pins)
  {
    if pid, blockno :| C.Get(c, c', pid, blockno) {
    } else if b :| C.Fill(c, c', b) {
      assert C.BufOk(c, b);
    } else {
      OtherKept(c, c', pins);
    }
  }

  lemma OtherKept(c: C.State, c': C.State, pins: seq<int>)
    requires Listed(c, pins)
    requires || (exists pid :: C.Acquire(c, c', pid)) || (exists b, data :: C.Modify(c, c', b, data))
             || (exists b :: C.Leave(c, c', b)) || (exists b :: C.Drop(c, c', b))
    ensures Listed(c', pins)
  {
  }

  /** commit()'s k-th write unpins the block it sends home. */
  lemma MoveListed(L: Layout, lh: seq<int>, k: nat, next: nat, c: C.State, c': C.State, b: nat, f: nat)
    requires C.Inv(c) && CommitMove(L, lh, k, c, c', b, f) && next == k + 1 && Listed(c, Left(lh, k))
    ensures C.BWrite(c, c', b) && Listed(c', Left(lh, next))
  {
    assert C.BufOk(c, b);
    forall i: nat | i < |c'.c.bufs| && c'.c.bufs[i].dirty
      ensures c'.c.bufs[i].blockno in Left(lh, next)
    {
      assert i != b && C.BufOk(c, i) && c'.c.bufs[i] == c.c.bufs[i];
      OtherBlock(c, b, i);
      if |lh| < k < 2 * |lh| + 1 {
        var j := k - |lh| - 1;
        assert lh[j..] == [lh[j]] + lh[j + 1..];
      }
    }
  }

  lemma CommitListed(L: Layout, s: Both, s': Both, b: nat, f: nat)
    requires PinnedListed(L, s) && CommitStep(L, s, s', b, f)
    ensures PinnedListed(L, s')
  {
    MoveListed(L, s.g.lh, s.g.phase.done, s'.g.phase.done, s.c, s'.c, b, f);
    C.InvLocked(s.c, s'.c, b);
  }

  lemma RecoverListed(L: Layout, s: Both, s': Both, b: nat, f: nat)
    requires PinnedListed(L, s) && RecoverStep(L, s, s', b, f)
    ensures PinnedListed(L, s')
  {
    assert C.BWrite(s.c, s'.c, b);
    C.InvLocked(s.c, s'.c, b);
  }

  lemma AppendListed(L: Layout, s: Both, s': Both, op: nat, b: nat)
    requires PinnedListed(L, s) && Append(L, s, s', op, b)
    ensures PinnedListed(L, s')
  {
    assert C.Inv(s'.c) by { C.InvLocked(s.c, s'.c, b); }
    assert LogSpace.TestInv(L, s'.g) by { LogSpace.TestNext(L, s.g, s'.g); }
    var n := s.c.c.bufs[b].blockno;
    forall m | m in s.g.lh
      ensures m in Absorb(s.g.lh, n)
    {
    }
  }

  lemma LogListed(L: Layout, s: Both, s': Both)
    requires PinnedListed(L, s) && s'.c == s.c && LogStep(L, s.g, s'.g)
    ensures PinnedListed(L, s')
  {
    assert LogSpace.TestInv(L, s'.g) by { LogSpace.TestNext(L, s.g, s'.g); }
    SamePending(L, s.g, s'.g);
  }

  lemma SamePending(L: Layout, g: G.State, g': G.State)
    requires LogStep(L, g, g')
    ensures Pending(g') == Pending(g)
  {
    if G.CommitDone(L, g, g') {
      assert Left(g.lh, g.phase.done) == [];
    } else if op :| G.EndOp(L, g, g', op) {
    } else {
      SamePhase(L, g, g');
    }
  }

  lemma SamePhase(L: Layout, g: G.State, g': G.State)
    requires G.BeginOp(L, g, g') || G.RecoverDone(L, g, g') || exists op :: G.LogTest(L, g, g', op)
    ensures g'.lh == g.lh && !g.phase.Committing? && !g'.phase.Committing?
  {
  }

  lemma CrashListed(L: Layout, s: Both, s': Both, d': seq<Block>)
    requires PinnedListed(L, s) && Crash(L, s, s', d')
    ensures PinnedListed(L, s')
  {
    assert LogSpace.TestInv(L, s'.g) by { LogSpace.TestNext(L, s.g, s'.g); }
    C.InvInit(s'.c);
  }

  lemma ListedNext(L: Layout, s: Both, s': Both)
    requires PinnedListed(L, s) && Next(L, s, s')
    ensures PinnedListed(L, s')
  {
    if op, b :| Append(L, s, s', op, b) {
      AppendListed(L, s, s', op, b);
    } else if b, f :| CommitStep(L, s, s', b, f) {
      CommitListed(L, s, s', b, f);
    } else if b, f :| RecoverStep(L, s, s', b, f) {
      RecoverListed(L, s, s', b, f);
    } else if d' :| Crash(L, s, s', d') {
      CrashListed(L, s, s', d');
    } else if s'.c == s.c && LogStep(L, s.g, s'.g) {
      LogListed(L, s, s');
    } else {
      assert C.Inv(s'.c) by { C.InvNext(s.c, s'.c); }
      DirtyKept(s.c, s'.c, Pending(s.g));
    }
  }

  lemma {:induction false} RunListed(L: Layout, d0: seq<Block>, run: seq<Both>, i: nat)
    requires IsRun(L, d0, run) && i < |run|
    ensures PinnedListed(L, run[i])
  {
    if i == 0 {
      C.InvInit(run[0].c);
    } else {
      var k := i - 1;
      RunListed(L, d0, run, k);
      assert LoggedCache.Follows(L, run, i);
      ListedNext(L, run[k], run[i]);
    }
  }

  /** Distinct blocks all in the list: no more of them than entries. */
  lemma {:induction false} DistinctIn(bs: seq<nat>, lh: seq<int>)
    requires (forall i | 0 <= i < |bs| :: bs[i] in lh) && forall i, j | 0 <= i < j < |bs| :: bs[i] != bs[j]
    ensures |bs| <= |lh|
  {
    if bs != [] {
      var last := |bs| - 1;
      var k :| 0 <= k < |lh| && lh[k] == bs[last];
      var rest := lh[..k] + lh[k + 1..];
      forall i | 0 <= i < last
        ensures bs[..last][i] in rest
      {
        var j :| 0 <= j < |lh| && lh[j] == bs[i];
        assert rest[if j < k then j else j - 1] == bs[i];
      }
      DistinctIn(bs[..last], rest);
    }
  }

  /** commit() stuck means as many entries as buffers. */
  lemma StuckIsFull(L: Layout, s: Both)
    requires PinnedListed(L, s) && Stuck(L, s)
    ensures NBUF <= |s.g.lh|
  {
    var bufs := s.c.c.bufs;
    var bs := seq(NBUF, i requires 0 <= i < |bufs| => bufs[i].blockno);
    forall i: nat | i < NBUF
      ensures bufs[i].dirty && bufs[i].dev == ROOTDEV && bs[i] in s.g.lh
    {
      assert !Unused(bufs[i]) && C.BufOk(s.c, i);
    }
    forall i, j: nat | 0 <= i < j < NBUF
      ensures bs[i] != bs[j]
    {
      OtherBlock(s.c, i, j);
    }
    DistinctIn(bs, s.g.lh);
  }

  /** The exact condition: some run ends with commit() stuck if and only if the log has at least LOGSIZE - 1 blocks;
      one within the operations' allowance will do. */
  lemma StuckExactly(L: Layout, d0: seq<Block>)
    requires L.HeaderOk(d0) && d0[L.start][0] == 0 && LOGSIZE < L.nblocks - L.size
    ensures (exists run, i :: IsRun(L, d0, run) && 0 <= i < |run| && Stuck(L, run[i])) <==> LOGSIZE - 1 <= L.size
    ensures (exists s :: Reached(L, d0, s) && Stuck(L, s)) <==> LOGSIZE - 1 <= L.size
  {
    if LOGSIZE - 1 <= L.size {
      var s := StuckRun(L, d0);
      var run :| EndsIn(L, d0, run, s);
      assert Stuck(L, run[|run| - 1]);
    } else {
      forall run, i: nat | IsRun(L, d0, run) && i < |run|
        ensures !Stuck(L, run[i])
      {
        RunListed(L, d0, run, i);
        if Stuck(L, run[i]) {
          StuckIsFull(L, run[i]);
        }
      }
      forall s | Reached(L, d0, s)
        ensures !Stuck(L, s)
      {
        var run :| EndsIn(L, d0, run, s);
        var last := |run| - 1;
        assert !Stuck(L, run[last]);
      }
    }
  }

  // write_log with a list longer than the log area

  /** Read log block n and the pinned block m, into b and f. */
  lemma CopyRead(L: Layout, d0: seq<Block>, s: Both, lh: seq<int>, n: nat, k: nat, m: nat)
    returns (c': C.State, b: nat, f: nat, h1: set<nat>, h2: set<nat>)
    requires Reached(L, d0, s) && LogSpace.Disciplined(s.g) && H.Calm(s.c, {}) && Pins(s.c, lh)
    requires |Pinned(s.c)| < NBUF && n < |s.c.c.disk| && k < |lh| && m == lh[k] < |s.c.c.disk| && n != m
    ensures Reached(L, d0, Both(s.g, c')) && H.Calm(c', h2) && Pins(c', lh)
    ensures f in h2 && h1 == h2 - {f} && b in h1 && {} == h1 - {b}
    ensures c'.mem == s.c.mem && c'.c.disk == s.c.c.disk && c'.touched == {}
    ensures Shows(c', b, n) && Shows(c', f, m)
  {
    H.SomeUnused(s.c, {}, n);
    var c1;
    c1, b, h1 := Fetch(L, d0, s, lh, {}, n);
    assert !NoBuffers(c1.c, ROOTDEV, m) by { PinnedCached(c1, lh, k); }
    forall i | i in h1
      ensures c1.c.bufs[i].blockno != m
    {
      OnlyOne(h1, b, i);
    }
    c', f, h2 := Fetch(L, d0, Both(s.g, c1), lh, h1, m);
  }

  lemma PinnedCached(c: C.State, pins: seq<int>, k: nat)
    requires Pins(c, pins) && k < |pins|
    ensures 0 <= pins[k] && Cached(c.c, ROOTDEV, pins[k])
  {
    assert IsPinned(c, pins[k]);
  }

  /** Copy f over b and write b out: commit()'s k-th write. */
  lemma CopyWrite(L: Layout, d0: seq<Block>, s: Both, lh: seq<int>, k: nat, next: nat, n: nat, b: nat, f: nat,
                  held: set<nat>)
    returns (s': Both)
    requires Reached(L, d0, s) && LogSpace.Disciplined(s.g) && s.g.phase == G.Committing(d0, k) && s.g.lh == lh
    requires k < |lh| && next == k + 1 && n == L.start + next && n !in lh && Pins(s.c, lh)
    requires H.Calm(s.c, held) && b in held && b != f && s.c.touched == {} && Shows(s.c, b, n) && Shows(s.c, f, lh[k])
    ensures Reached(L, d0, s') && H.Calm(s'.c, held) && s'.c.touched == {} && Pins(s'.c, lh)
    ensures s'.g == s.g.(disk := s'.c.c.disk, phase := G.Committing(d0, next)) && 0 <= lh[k] < |s.c.mem|
    ensures n < |s.c.mem| == |s.c.c.disk|
    ensures s'.c.c.disk == s.c.c.disk[n := s.c.mem[lh[k]]] && s'.c.mem == s.c.mem[n := s.c.mem[lh[k]]]
  {
    var c1 := H.Change(s.c, held, b, s.c.c.bufs[f].data);
    assert BufferStep(s.c, c1);
    ReachBuffers(L, d0, s, c1, lh);
    s' := CopyOutNow(L, d0, Both(s.g, c1), lh, k, next, n, b, f, held);
  }

  lemma CopyOutNow(L: Layout, d0: seq<Block>, s: Both, lh: seq<int>, k: nat, next: nat, n: nat, b: nat, f: nat,
                   held: set<nat>)
    returns (s': Both)
    requires Reached(L, d0, s) && LogSpace.Disciplined(s.g) && s.g.phase == G.Committing(d0, k) && s.g.lh == lh
    requires k < |lh| && next == k + 1 && n == L.start + next && n !in lh && Pins(s.c, lh) && H.Calm(s.c, held)
    requires b in held && Matches(s.c.c.bufs[b], ROOTDEV, n) && s.c.c.bufs[b].valid && s.c.touched <= {b}
    requires Shows(s.c, f, lh[k]) && s.c.c.bufs[b].data == s.c.c.bufs[f].data
    ensures Reached(L, d0, s') && H.Calm(s'.c, held) && s'.c.touched == {} && Pins(s'.c, lh)
    ensures s'.g == s.g.(disk := s'.c.c.disk, phase := G.Committing(d0, next)) && 0 <= lh[k] < |s.c.mem|
    ensures n < |s.c.mem| == |s.c.c.disk|
    ensures s'.c.c.disk == s.c.c.disk[n := s.c.mem[lh[k]]] && s'.c.mem == s.c.mem[n := s.c.mem[lh[k]]]
  {
    var c' := H.Write(s.c, held, b, false);
    NoneTouched(s.c.touched, b);
    assert CopyOut(s.c, c', b, n, f, lh[k]);
    OutEffect(s.c, c', b, n, f, lh[k], lh);
    s' := Both(s.g.(disk := c'.c.disk, phase := G.Committing(d0, next)), c');
    assert CommitMove(L, lh, k, s.c, c', b, f);
    CommitReach(L, d0, s, s', lh, k, next, b, f);
  }

  lemma OutEffect(c: C.State, c': C.State, b: nat, n: nat, f: nat, m: int, lh: seq<int>)
    requires C.Inv(c) && CopyOut(c, c', b, n, f, m) && Pins(c, lh) && n !in lh
    ensures n < |c.mem| == |c.c.disk| && 0 <= m < |c.mem| && Pins(c', lh)
    ensures c'.c.disk == c.c.disk[n := c.mem[m]] && c'.mem == c.mem[n := c.mem[m]]
  {
    CopyEffect(c, c', b, n, f, m);
    WritePins(c, c', b, lh, lh);
  }

  lemma NoneTouched(touched: set<nat>, b: nat)
    requires touched <= {b}
    ensures touched - {b} == {}
  {
  }

  lemma CommitReach(L: Layout, d0: seq<Block>, s: Both, s': Both, lh: seq<int>, k: nat, next: nat, b: nat, f: nat)
    requires Reached(L, d0, s) && LogSpace.Disciplined(s.g)
    requires s.g.phase == G.Committing(d0, k) && s.g.lh == lh && k < |lh| && next == k + 1
    requires CommitMove(L, lh, k, s.c, s'.c, b, f)
    requires s'.g == s.g.(disk := s'.c.c.disk, phase := G.Committing(d0, next))
    ensures Reached(L, d0, s')
  {
    assert CommitStep(L, s, s', b, f);
    ReachNext(L, d0, s, s');
  }

  /** k of write_log's writes are out. */
  ghost predicate Copying(L: Layout, d0: seq<Block>, s: Both, k: nat, lh: seq<int>, view: seq<Block>) {
    && Reached(L, d0, s) && LogSpace.Disciplined(s.g) && H.Calm(s.c, {}) && Pins(s.c, lh)
    && s.g.phase == G.Committing(d0, k) && s.g.lh == lh && s.g.view == view && s.g.committed == []
    && s.c.c.disk == s.g.disk && BytesCopied(L, d0, k, lh, view, s.g.disk, s.c.mem)
  }

  ghost predicate BytesCopied(L: Layout, d0: seq<Block>, k: nat, lh: seq<int>, view: seq<Block>, e: seq<Block>,
                              mem: seq<Block>)
  {
    && L.Fits(lh) && |d0| == |view| == L.nblocks == |mem| && k <= |lh|
    && e == ApplyAll(d0, CommitWrites(L, d0, view, lh)[..k])
    && forall j | 0 <= j < |lh| :: mem[lh[j]] == view[lh[j]]
  }

  lemma CopyBytes(L: Layout, d0: seq<Block>, k: nat, next: nat, lh: seq<int>, view: seq<Block>, e: seq<Block>,
                  mem: seq<Block>, n: nat, e': seq<Block>, mem': seq<Block>)
    requires BytesCopied(L, d0, k, lh, view, e, mem) && k < |lh| && next == k + 1 && n == L.start + next && n !in lh
    requires e' == e[n := mem[lh[k]]] && mem' == mem[n := mem[lh[k]]]
    ensures BytesCopied(L, d0, next, lh, view, e', mem')
  {
    CommitWriteAt(L, d0, view, lh, k);
    G.WriteDone(L, d0, view, lh, k, e, next, e');
  }

  /** One turn of write_log. */
  lemma CopyTurn(L: Layout, d0: seq<Block>, s: Both, lh: seq<int>, k: nat, next: nat, n: nat) returns (s': Both)
    requires Reached(L, d0, s) && LogSpace.Disciplined(s.g) && H.Calm(s.c, {}) && Pins(s.c, lh)
    requires s.g.phase == G.Committing(d0, k) && s.g.lh == lh && |Pinned(s.c)| < NBUF
    requires k < |lh| && next == k + 1 && n == L.start + next && n !in lh
    requires n < |s.c.c.disk| && 0 <= lh[k] < |s.c.c.disk|
    ensures Reached(L, d0, s') && H.Calm(s'.c, {}) && Pins(s'.c, lh)
    ensures s'.g == s.g.(disk := s'.c.c.disk, phase := G.Committing(d0, next)) && |s.c.mem| == |s.c.c.disk|
    ensures s'.c.c.disk == s.c.c.disk[n := s.c.mem[lh[k]]] && s'.c.mem == s.c.mem[n := s.c.mem[lh[k]]]
  {
    var c1, b, f, h1, h2 := CopyRead(L, d0, s, lh, n, k, lh[k]);
    TakeFirst(h1, h2, b, f);
    var t := CopyWrite(L, d0, Both(s.g, c1), lh, k, next, n, b, f, h2);
    s' := ReleaseTwo(L, d0, t, lh, h1, h2, b, f);
  }

  lemma ReleaseTwo(L: Layout, d0: seq<Block>, s: Both, lh: seq<int>, h1: set<nat>, h2: set<nat>, b: nat, f: nat)
    returns (s': Both)
    requires Reached(L, d0, s) && LogSpace.Disciplined(s.g) && H.Calm(s.c, h2) && Pins(s.c, lh) && s.c.touched == {}
    requires f in h2 && h1 == h2 - {f} && b in h1 && {} == h1 - {b}
    ensures Reached(L, d0, s') && H.Calm(s'.c, {}) && Pins(s'.c, lh)
    ensures s'.g == s.g && s'.c.mem == s.c.mem && s'.c.c.disk == s.c.c.disk
  {
    var c1 := Release(L, d0, s, lh, h2, f);
    var c2 := Release(L, d0, Both(s.g, c1), lh, h1, b);
    s' := Both(s.g, c2);
  }

  /** No listed block is a log block or the one behind the log. */
  predicate Clear(L: Layout, lh: seq<int>) {
    forall j | 0 <= j < |lh| :: !(L.start <= lh[j] <= L.start + L.size)
  }

  lemma CopyOne(L: Layout, d0: seq<Block>, s: Both, k: nat, next: nat, lh: seq<int>, view: seq<Block>)
    returns (s': Both)
    requires Copying(L, d0, s, k, lh, view) && |Pinned(s.c)| < NBUF && Clear(L, lh)
    requires k < |lh| && next == k + 1 <= L.size
    ensures Copying(L, d0, s', next, lh, view)
  {
    var n := L.start + next;
    assert n !in lh;
    s' := CopyTurn(L, d0, s, lh, k, next, n);
    CopyBytes(L, d0, k, next, lh, view, s.g.disk, s.c.mem, n, s'.g.disk, s'.c.mem);
  }

  lemma {:induction false} CopySome(L: Layout, d0: seq<Block>, s: Both, k: nat, lh: seq<int>, view: seq<Block>)
    returns (s': Both)
    requires Copying(L, d0, s, 0, lh, view) && |lh| < NBUF && L.Listable(lh) && k <= |lh| && k <= L.size && Clear(L, lh)
    ensures Copying(L, d0, s', k, lh, view)
  {
    if k == 0 {
      s' := s;
    } else {
      var j := k - 1;
      var t := CopySome(L, d0, s, j, lh, view);
      assert |Pinned(t.c)| < NBUF by { PinCount(t.c, lh); }
      s' := CopyOne(L, d0, t, j, k, lh, view);
    }
  }

  lemma CopyStart(L: Layout, d0: seq<Block>, s: Both, m: nat, lh: seq<int>, view: seq<Block>) returns (s': Both)
    requires Stage(L, d0, s, m, {}, {}) && 0 < m < NBUF && lh == s.g.lh && view == s.g.view
    requires |d0| == L.nblocks && L.start + m < L.nblocks
    ensures Copying(L, d0, s', 0, lh, view) && L.Listable(lh) && Clear(L, lh) && |lh| == m
  {
    FilledList(L, d0, s.g, m);
    NothingCopied(L, d0, lh, view, s.c.mem);
    s' := EndAll(L, d0, s, m);
  }

  lemma FilledList(L: Layout, d0: seq<Block>, g: G.State, m: nat)
    requires LogSpace.Filled(L, d0, g, m) && m < NBUF && |d0| == L.nblocks && L.start + m < L.nblocks
    ensures L.Fits(g.lh) && L.Listable(g.lh) && Clear(L, g.lh) && |g.lh| == m && |g.view| == L.nblocks
  {
  }

  lemma NothingCopied(L: Layout, d0: seq<Block>, lh: seq<int>, view: seq<Block>, mem: seq<Block>)
    requires L.Fits(lh) && |d0| == |view| == L.nblocks && mem == view
    ensures BytesCopied(L, d0, 0, lh, view, d0, mem)
  {
    assert CommitWrites(L, d0, view, lh)[..0] == [];
  }

  lemma OtherData(b: Block) returns (data: Block)
    ensures data != b
  {
    data := b[0 := b[0] + 1];
    assert data[0] != b[0];
  }

  lemma OneTooMany(L: Layout, d0: seq<Block>, data: Block) returns (s: Both, lh: seq<int>, view: seq<Block>)
    requires L.HeaderOk(d0) && d0[L.start][0] == 0 && LOGSIZE < L.nblocks - L.size && L.start + L.size < L.nblocks
    requires 1 < L.size < LOGSIZE
    ensures Copying(L, d0, s, 0, lh, view) && L.Listable(lh) && Clear(L, lh)
    ensures |lh| == L.size && view[lh[L.size - 1]] == data
  {
    var t := Race(L, d0, L.size - 2, L.size, data);
    lh, view := t.g.lh, t.g.view;
    s := CopyStart(L, d0, t, L.size, lh, view);
  }

  /** A run of operations within their allowance that writes over the block behind a log of fewer than LOGSIZE
      blocks before the header says anything. */
  lemma UnsafeRun(L: Layout, d0: seq<Block>) returns (s: Both)
    requires L.HeaderOk(d0) && d0[L.start][0] == 0 && LOGSIZE < L.nblocks - L.size && L.start + L.size < L.nblocks
    requires 1 < L.size < LOGSIZE
    ensures Reached(L, d0, s) && !G.Safe(L, d0, s.g)
  {
    var data := OtherData(d0[L.start + L.size]);
    var t, lh, view := OneTooMany(L, d0, data);
    s := CopyAll(L, d0, t, lh, view, data);
  }

  lemma CopyAll(L: Layout, d0: seq<Block>, s: Both, lh: seq<int>, view: seq<Block>, data: Block) returns (s': Both)
    requires L.HeaderOk(d0) && d0[L.start][0] == 0 && L.start + L.size < L.nblocks && L.size < LOGSIZE
    requires Copying(L, d0, s, 0, lh, view) && L.Listable(lh) && Clear(L, lh)
    requires |lh| == L.size && view[lh[L.size - 1]] == data != d0[L.start + L.size]
    ensures Reached(L, d0, s') && !G.Safe(L, d0, s'.g)
  {
    s' := CopySome(L, d0, s, L.size, lh, view);
    Behind(L, d0, s', lh, view, data);
  }

  lemma Behind(L: Layout, d0: seq<Block>, s: Both, lh: seq<int>, view: seq<Block>, data: Block)
    requires L.HeaderOk(d0) && d0[L.start][0] == 0 && L.start + L.size < L.nblocks
    requires |lh| == L.size && Copying(L, d0, s, L.size, lh, view)
    requires view[lh[L.size - 1]] == data != d0[L.start + L.size]
    ensures !G.Safe(L, d0, s.g)
  {
    LogSpace.Overwritten(L, d0, s.g, data);
  }

  /** Main result: over the cache, every run is safe at every moment if and only if the log has no log block at all
      or at least LOGSIZE blocks with the header, as mkfs gives it; and no more can be said of runs in which every
      operation keeps to its allowance. */
  lemma SafeExactly(L: Layout, d0: seq<Block>)
    requires L.HeaderOk(d0) && d0[L.start][0] == 0 && LOGSIZE < L.nblocks - L.size && L.start + L.size < L.nblocks
    ensures (forall run: seq<Both>, i | IsRun(L, d0, run) && 0 <= i < |run| :: G.Safe(L, d0, run[i].g)) <==>
              (L.size == 1 || LOGSIZE <= L.size)
    ensures (forall s | Reached(L, d0, s) :: G.Safe(L, d0, s.g)) <==> (L.size == 1 || LOGSIZE <= L.size)
  {
    if L.size == 1 || LOGSIZE <= L.size {
      forall run: seq<Both>, i: nat | IsRun(L, d0, run) && i < |run|
        ensures G.Safe(L, d0, run[i].g)
      {
        AlwaysRoom(L, d0, run, i);
        BuffersShowBatches(L, d0, run, i, 0, 0);
      }
      forall s | Reached(L, d0, s)
        ensures G.Safe(L, d0, s.g)
      {
        var run: seq<Both> :| EndsIn(L, d0, run, s);
        var last := |run| - 1;
        assert G.Safe(L, d0, run[last].g);
      }
    } else {
      var s := UnsafeRun(L, d0);
      var run: seq<Both> :| EndsIn(L, d0, run, s);
      assert !G.Safe(L, d0, run[|run| - 1].g);
    }
  }

  /** lh.block never overflows, whatever the operations write and whatever the log's size. */
  lemma ListNeverOverflows(L: Layout, d0: seq<Block>, run: seq<Both>, i: nat)
    requires IsRun(L, d0, run) && i < |run|
    ensures |run[i].g.lh| <= LOGSIZE
  {
    if L.size == 1 || LOGSIZE <= L.size {
      AlwaysRoom(L, d0, run, i);
      BuffersShowBatches(L, d0, run, i, 0, 0);
    } else {
      RunListed(L, d0, run, i);
    }
  }
}
