/** Every run of any number of processes over the buffer cache: the cache and the disk together are
    a plain map from block numbers to bytes. */
module CacheRuns {
  import opened Disk
  import opened CacheSpec
  import opened BufferCache

  /** A process past bget's critical section, waiting for the buffer's sleep lock. */
  datatype Want = Want(b: nat, blockno: nat)

  /** `leaving` are the buffers that processes have unlocked in brelse and still have a reference to;
      `touched` are those changed under their lock and not yet handed to bwrite or log_write; `mem` is the
      specification: the bytes last handed over, by block. */
  datatype State = State(c: Cache, want: map<nat, Want>, leaving: multiset<nat>, touched: set<nat>, mem: seq<Block>)

  ghost predicate Init(s: State) {
    && WellFormed(s.c) && s.want == map[] && s.leaving == multiset{} && s.touched == {} && s.mem == s.c.disk
    && forall i | 0 <= i < NBUF ::
         var b := s.c.bufs[i]; b.dev == 0 && !b.valid && !b.dirty && b.refcnt == 0 && b.owner == 0
  }

  // Steps

  /** bget's critical section, asking for an existing block. */
  ghost predicate Get(s: State, s': State, pid: nat, blockno: nat) {
    && pid > 0 && pid !in s.want && blockno < |s.c.disk| && WellFormed(s.c)
    && pid in s'.want && GetStep(s.c, ROOTDEV, blockno, s'.c, s'.want[pid].b)
    && s' == s.(c := s'.c, want := s.want[pid := Want(s'.want[pid].b, blockno)])
  }

  /** acquiresleep succeeds. */
  ghost predicate Acquire(s: State, s': State, pid: nat) {
    && pid in s.want && s.want[pid].b < |s.c.bufs|
    && var b := s.want[pid].b;
       && s.c.bufs[b].owner == 0
       && s' == s.(c := s.c.(bufs := s.c.bufs[b := s.c.bufs[b].(owner := pid)]), want := s.want - {pid})
  }

  ghost predicate Locked(s: State, b: nat) {
    b < |s.c.bufs| && s.c.bufs[b].owner > 0 && s.c.bufs[b].blockno < |s.c.disk| == |s.mem|
  }

  /** bread finishes: iderw reads an invalid buffer. */
  ghost predicate Fill(s: State, s': State, b: nat) {
    Locked(s, b) && !s.c.bufs[b].valid && s' == s.(c := DiskSync(s.c, b))
  }

  ghost predicate Modify(s: State, s': State, b: nat, data: Block) {
    && Locked(s, b) && s.c.bufs[b].valid
    && s' == s.(c := s.c.(bufs := s.c.bufs[b := s.c.bufs[b].(data := data)]), touched := s.touched + {b})
  }

  ghost predicate BWrite(s: State, s': State, b: nat) {
    && Locked(s, b) && s.c.bufs[b].valid
    && var buf := s.c.bufs[b];
       s' == s.(c := DiskSync(s.c.(bufs := s.c.bufs[b := buf.(dirty := true)]), b),
                touched := s.touched - {b}, mem := s.mem[buf.blockno := buf.data])
  }

  /** log_write's effect on the buffer: pinned, not written. */
  ghost predicate LogWrite(s: State, s': State, b: nat) {
    && Locked(s, b) && s.c.bufs[b].valid
    && var buf := s.c.bufs[b];
       s' == s.(c := s.c.(bufs := s.c.bufs[b := buf.(dirty := true)]),
                touched := s.touched - {b}, mem := s.mem[buf.blockno := buf.data])
  }

  // brelse: releasesleep, and later the section under bcache.lock

  function Unlocked(s: State, b: nat): State
    requires b < |s.c.bufs|
  {
    s.(c := Unlock(s.c, b), leaving := s.leaving + multiset{b})
  }

  ghost predicate Leave(s: State, s': State, b: nat) {
    Locked(s, b) && b !in s.touched && s' == Unlocked(s, b)
  }

  ghost predicate Drop(s: State, s': State, b: nat) {
    && b in s.leaving && WellFormed(s.c) && b < NBUF && s.c.bufs[b].refcnt > 0 && b in s.c.order
    && s' == s.(c := Unref(s.c, b), leaving := s.leaving - multiset{b})
  }

  /** All of brelse, when nothing comes between. */
  ghost predicate BRelse(s: State, s': State, b: nat) {
    Locked(s, b) && b !in s.touched && Drop(Unlocked(s, b), s', b)
  }

  ghost predicate Next(s: State, s': State) {
    || (exists pid, blockno :: Get(s, s', pid, blockno))
    || (exists pid :: Acquire(s, s', pid))
    || (exists b :: Fill(s, s', b))
    || (exists b, data :: Modify(s, s', b, data))
    || (exists b :: BWrite(s, s', b))
    || (exists b :: LogWrite(s, s', b))
    || (exists b :: Leave(s, s', b))
    || (exists b :: Drop(s, s', b))
  }

  // The invariant

  ghost function Waiters(want: map<nat, Want>, b: nat): set<nat> {
    set pid | pid in want && want[pid].b == b
  }

  /** What holds of one buffer, whoever uses it. */
  ghost predicate BufOk(s: State, i: nat)
    requires i < |s.c.bufs| && |s.c.disk| == |s.mem|
  {
    var b := s.c.bufs[i];
    && b.dev <= 1
    && b.refcnt == (if b.owner > 0 then 1 else 0) + |Waiters(s.want, i)| + s.leaving[i]
    && (b.dirty ==> b.valid)
    && (i in s.touched ==> b.valid && b.owner > 0)
    && (b.refcnt > 0 || b.valid ==> b.dev == ROOTDEV)
    && (b.dev == ROOTDEV ==>
          && b.blockno < |s.mem|
          && (b.valid && i !in s.touched ==> b.data == s.mem[b.blockno])
          && (!b.dirty ==> s.c.disk[b.blockno] == s.mem[b.blockno]))
  }

  ghost predicate Inv(s: State) {
    && WellFormed(s.c) && |s.mem| == |s.c.disk|
    && (forall i | 0 <= i < NBUF :: BufOk(s, i))
    // no block has two buffers
    && (forall i, j | 0 <= i < j < NBUF && s.c.bufs[i].dev == ROOTDEV ::
         !Matches(s.c.bufs[j], ROOTDEV, s.c.bufs[i].blockno))
    // a waiting process still finds the block it asked for
    && (forall pid | pid in s.want ::
          pid > 0 && s.want[pid].b < NBUF && Matches(s.c.bufs[s.want[pid].b], ROOTDEV, s.want[pid].blockno))
    // what is not cached is on the disk
    && (forall n | 0 <= n < |s.mem| && !Cached(s.c, ROOTDEV, n) :: s.c.disk[n] == s.mem[n])
  }

  lemma InvInit(s: State)
    requires Init(s)
    ensures Inv(s)
  {
    forall i | 0 <= i < NBUF
      ensures BufOk(s, i)
    {
      assert Waiters(s.want, i) == {};
    }
  }

  /** Steps on one locked buffer leave every buffer's block as it was. */
  ghost predicate SameBlocks(c: Cache, c': Cache) {
    && |c.bufs| == |c'.bufs|
    && forall i | 0 <= i < |c.bufs| :: c'.bufs[i].dev == c.bufs[i].dev && c'.bufs[i].blockno == c.bufs[i].blockno
  }

  lemma CachedSame(c: Cache, c': Cache, n: nat)
    requires SameBlocks(c, c')
    ensures Cached(c, ROOTDEV, n) <==> Cached(c', ROOTDEV, n)
  {
    if i :| 0 <= i < |c.bufs| && Matches(c.bufs[i], ROOTDEV, n) {
      assert Matches(c'.bufs[i], ROOTDEV, n);
    }
    if i :| 0 <= i < |c.bufs| && Matches(c'.bufs[i], ROOTDEV, n) {
      assert Matches(c.bufs[i], ROOTDEV, n);
    }
  }

  /** A step that changes only buffer `b`, not its block, and that block's bytes. */
  lemma InvOneBuffer(s: State, s': State, b: nat)
    requires Inv(s) && b < NBUF && s.c.bufs[b].dev == ROOTDEV
    requires s'.want == s.want && s'.leaving == s.leaving && s'.c.order == s.c.order && SameBlocks(s.c, s'.c)
    requires |s'.mem| == |s.mem| == |s'.c.disk|
    requires forall i | 0 <= i < NBUF && i != b :: s'.c.bufs[i] == s.c.bufs[i] && (i in s'.touched <==> i in s.touched)
    requires forall n | 0 <= n < |s.mem| && n != s.c.bufs[b].blockno ::
               s'.mem[n] == s.mem[n] && s'.c.disk[n] == s.c.disk[n]
    requires BufOk(s', b)
    ensures Inv(s')
  {
    forall i | 0 <= i < NBUF
      ensures BufOk(s', i)
    {
      assert BufOk(s, i);
      if i != b && s.c.bufs[i].dev == ROOTDEV {
        assert s.c.bufs[i].blockno != s.c.bufs[b].blockno by {
          if i < b {
            assert !Matches(s.c.bufs[b], ROOTDEV, s.c.bufs[i].blockno);
          } else {
            assert !Matches(s.c.bufs[i], ROOTDEV, s.c.bufs[b].blockno);
          }
        }
      }
    }
    forall n | 0 <= n < |s.mem| && !Cached(s'.c, ROOTDEV, n)
      ensures s'.c.disk[n] == s'.mem[n]
    {
      CachedSame(s.c, s'.c, n);
      assert !Matches(s.c.bufs[b], ROOTDEV, n);
    }
  }

  lemma InvLocked(s: State, s': State, b: nat)
    requires Inv(s)
    requires Fill(s, s', b) || BWrite(s, s', b) || LogWrite(s, s', b) || exists data :: Modify(s, s', b, data)
    ensures Inv(s')
  {
    assert BufOk(s, b);
    InvOneBuffer(s, s', b);
  }

  lemma InvAcquire(s: State, s': State, pid: nat)
    requires Inv(s) && Acquire(s, s', pid)
    ensures Inv(s')
  {
    var b := s.want[pid].b;
    forall i | 0 <= i < NBUF
      ensures BufOk(s', i)
    {
      assert BufOk(s, i);
      if i == b {
        assert Waiters(s'.want, i) == Waiters(s.want, i) - {pid};
        assert pid in Waiters(s.want, i);
      } else {
        assert Waiters(s'.want, i) == Waiters(s.want, i);
      }
    }
    forall n: nat | n < |s.mem| && !Cached(s'.c, ROOTDEV, n)
      ensures s'.c.disk[n] == s'.mem[n]
    {
      CachedSame(s.c, s'.c, n);
    }
  }

  lemma InvBRelse(s: State, s': State, b: nat)
    requires Inv(s) && BRelse(s, s', b)
    ensures Inv(s')
  {
    InvRelease(s, Unlocked(s, b), b);
    InvRelease(Unlocked(s, b), s', b);
  }

  /** What all of brelse changes. */
  lemma BRelseEffect(s: State, s': State, b: nat)
    requires BRelse(s, s', b)
    ensures b < |s.c.bufs| == |s'.c.bufs| && s.c.bufs[b].refcnt > 0
    ensures s'.want == s.want && s'.leaving == s.leaving && s'.touched == s.touched && s'.mem == s.mem
    ensures s'.c.disk == s.c.disk
    ensures s'.c.bufs == s.c.bufs[b := s.c.bufs[b].(owner := 0, refcnt := s.c.bufs[b].refcnt - 1)]
  {
  }

  lemma InvRelease(s: State, s': State, b: nat)
    requires Inv(s) && (Leave(s, s', b) || Drop(s, s', b))
    ensures Inv(s')
  {
    forall i | 0 <= i < NBUF
      ensures BufOk(s', i)
    {
      assert BufOk(s, i);
    }
    forall n: nat | n < |s.mem| && !Cached(s'.c, ROOTDEV, n)
      ensures s'.c.disk[n] == s'.mem[n]
    {
      CachedSame(s.c, s'.c, n);
    }
  }

  lemma WaitersGet(s: State, s': State, pid: nat, blockno: nat, i: nat)
    requires Get(s, s', pid, blockno)
    ensures |Waiters(s'.want, i)| == |Waiters(s.want, i)| + if i == s'.want[pid].b then 1 else 0
  {
    OneMore(s.want, pid, s'.want[pid], i);
  }

  lemma OneMore(want: map<nat, Want>, pid: nat, w: Want, i: nat)
    requires pid !in want
    ensures |Waiters(want[pid := w], i)| == |Waiters(want, i)| + if i == w.b then 1 else 0
  {
    if i == w.b {
      assert Waiters(want[pid := w], i) == Waiters(want, i) + {pid};
    } else {
      assert Waiters(want[pid := w], i) == Waiters(want, i);
    }
  }

  lemma InvGetHit(s: State, s': State, pid: nat, blockno: nat)
    requires Inv(s) && Get(s, s', pid, blockno) && Cached(s.c, ROOTDEV, blockno)
    ensures Inv(s')
  {
    forall i | 0 <= i < NBUF
      ensures BufOk(s', i)
    {
      assert BufOk(s, i);
      WaitersGet(s, s', pid, blockno, i);
    }
    forall n: nat | n < |s.mem| && !Cached(s'.c, ROOTDEV, n)
      ensures s'.c.disk[n] == s'.mem[n]
    {
      CachedSame(s.c, s'.c, n);
    }
  }

  /** Recycling: the victim's bytes are on the disk, so nothing is lost. */
  lemma InvGetMiss(s: State, s': State, pid: nat, blockno: nat)
    requires Inv(s) && Get(s, s', pid, blockno) && !Cached(s.c, ROOTDEV, blockno)
    ensures Inv(s')
  {
    var b := s'.want[pid].b;
    assert Unused(s.c.bufs[b]);
    forall i | 0 <= i < NBUF
      ensures BufOk(s', i)
      ensures i != b ==> !Matches(s'.c.bufs[i], ROOTDEV, blockno)
    {
      assert BufOk(s, i);
      assert !Matches(s.c.bufs[i], ROOTDEV, blockno);
      WaitersGet(s, s', pid, blockno, i);
    }
    assert BufOk(s, b) && |Waiters(s.want, b)| == 0;
    assert Waiters(s.want, b) == {};
    forall p | p in s.want
      ensures s.want[p].b != b
    {
      assert p in Waiters(s.want, s.want[p].b);
    }
    forall n | 0 <= n < |s.mem| && !Cached(s'.c, ROOTDEV, n)
      ensures s'.c.disk[n] == s'.mem[n]
    {
      forall i | 0 <= i < NBUF && i != b
        ensures !Matches(s.c.bufs[i], ROOTDEV, n)
      {
        assert !Matches(s'.c.bufs[i], ROOTDEV, n);
      }
      if Matches(s.c.bufs[b], ROOTDEV, n) {
        assert BufOk(s, b);
      }
    }
  }

  lemma InvNext(s: State, s': State)
    requires Inv(s) && Next(s, s')
    ensures Inv(s')
  {
    if pid, blockno :| Get(s, s', pid, blockno) {
      if Cached(s.c, ROOTDEV, blockno) {
        InvGetHit(s, s', pid, blockno);
      } else {
        InvGetMiss(s, s', pid, blockno);
      }
    } else if pid :| Acquire(s, s', pid) {
      InvAcquire(s, s', pid);
    } else if b: nat :| Leave(s, s', b) || Drop(s, s', b) {
      InvRelease(s, s', b);
    } else if b, data :| Modify(s, s', b, data) {
      InvLocked(s, s', b);
    } else {
      var b: nat :| Fill(s, s', b) || BWrite(s, s', b) || LogWrite(s, s', b);
      InvLocked(s, s', b);
    }
  }

  ghost predicate IsRun(run: seq<State>) {
    run != [] && Init(run[0]) && forall i | 0 < i < |run| :: Next(run[i - 1], run[i])
  }

  lemma {:induction false} RunInv(run: seq<State>, i: nat)
    requires IsRun(run) && i < |run|
    ensures Inv(run[i])
  {
    if i > 0 {
      RunInv(run, i - 1);
      InvNext(run[i - 1], run[i]);
    }
  }

  /** Main result: in every state of every run, a process that holds a filled buffer sees the bytes
      last handed over for its block, whatever was evicted or pinned in between; no other buffer
      caches that block; and the ring still holds every buffer once. */
  lemma ReadsLastWrite(run: seq<State>, i: nat, b: nat, other: nat)
    requires IsRun(run) && i < |run|
    requires b < NBUF && other < NBUF && b != other
    requires |run[i].c.bufs| == NBUF && run[i].c.bufs[b].valid
    ensures Permutation(run[i].c.order, NBUF)
    ensures var s := run[i];
            && s.c.bufs[b].blockno < |s.mem|
            && (b !in s.touched ==> s.c.bufs[b].data == s.mem[s.c.bufs[b].blockno])
            && !Matches(s.c.bufs[other], s.c.bufs[b].dev, s.c.bufs[b].blockno)
  {
    RunInv(run, i);
    var s := run[i];
    assert BufOk(s, b);
    if b < other {
      assert !Matches(s.c.bufs[other], ROOTDEV, s.c.bufs[b].blockno);
    } else if s.c.bufs[other].dev == ROOTDEV {
      assert !Matches(s.c.bufs[b], ROOTDEV, s.c.bufs[other].blockno);
    }
  }

  /** A block pinned by log_write stays cached and dirty until bwrite sends it home. */
  lemma PinnedStays(s: State, s': State, b: nat)
    requires Inv(s) && Next(s, s') && b < NBUF && s.c.bufs[b].dirty && !BWrite(s, s', b)
    ensures b < |s'.c.bufs| && s'.c.bufs[b].dirty
    ensures s'.c.bufs[b].dev == s.c.bufs[b].dev && s'.c.bufs[b].blockno == s.c.bufs[b].blockno
  {
    assert BufOk(s, b);
    if pid, blockno :| Get(s, s', pid, blockno) {
    } else if x: nat :| Leave(s, s', x) || Drop(s, s', x) {
    } else {
      PinnedLocked(s, s', b);
    }
  }

  lemma PinnedLocked(s: State, s': State, b: nat)
    requires Inv(s) && b < NBUF && s.c.bufs[b].dirty && !BWrite(s, s', b) && BufOk(s, b)
    requires || (exists pid :: Acquire(s, s', pid))
             || (exists x :: Fill(s, s', x) || BWrite(s, s', x) || LogWrite(s, s', x))
             || (exists x, data :: Modify(s, s', x, data))
    ensures b < |s'.c.bufs| && s'.c.bufs[b].dirty
    ensures s'.c.bufs[b].dev == s.c.bufs[b].dev && s'.c.bufs[b].blockno == s.c.bufs[b].blockno
  {
  }
}
