/** The log over the buffer cache: every run of the two together, in which commit() and recovery move bytes from
    buffer to buffer, is a run of GroupCommit, with the cache's contents for what readers see. */
module LoggedCache {
  import opened Disk
  import opened LogSpec
  import opened CrashSafety
  import opened CacheSpec
  import opened Sets
  import C = CacheRuns
  import G = GroupCommit
  import opened CommitBuffers
  import opened LogSpace

  datatype Both = Both(g: G.State, c: C.State)

  /** Buffer b caches block n and nobody is changing it. */
  ghost predicate Shows(c: C.State, b: nat, n: int) {
    b < |c.c.bufs| && 0 <= n && Matches(c.c.bufs[b], ROOTDEV, n) && c.c.bufs[b].valid && b !in c.touched
  }

  // Steps

  /** Work on buffers that hands nothing over. */
  ghost predicate BufferStep(c: C.State, c': C.State) {
    || (exists pid, blockno :: C.Get(c, c', pid, blockno))
    || (exists pid :: C.Acquire(c, c', pid))
    || (exists b :: C.Fill(c, c', b))
    || (exists b, data :: C.Modify(c, c', b, data))
    || (exists b :: C.Leave(c, c', b))
    || (exists b :: C.Drop(c, c', b))
  }

  /** log_write, under log.lock, on a buffer the operation has filled. */
  ghost predicate Append(L: Layout, s: Both, s': Both, op: nat, b: nat) {
    && C.LogWrite(s.c, s'.c, b)
    && G.LogAppend(L, s.g, s'.g, op, Write(s.c.c.bufs[b].blockno, s.c.c.bufs[b].data))
  }

  /** bwrite of block n from buffer b, into which the bytes of block m were copied from its buffer f. */
  ghost predicate CopyOut(c: C.State, c': C.State, b: nat, n: int, f: nat, m: int) {
    && C.BWrite(c, c', b) && 0 <= n && Matches(c.c.bufs[b], ROOTDEV, n)
    && Shows(c, f, m) && c.c.bufs[b].data == c.c.bufs[f].data
  }

  /** write_head: the list goes over the header block's first words. */
  ghost predicate HeadOut(L: Layout, c: C.State, c': C.State, b: nat, lh: seq<int>) {
    && C.BWrite(c, c', b) && Matches(c.c.bufs[b], ROOTDEV, L.start) && |lh| <= LOGSIZE
    && L.start < |c.mem| && c.c.bufs[b].data == Encode(c.mem[L.start], lh)
  }

  /** What commit() does next: write_log's copies, the header, install_trans' copies, the empty header. */
  ghost predicate CommitMove(L: Layout, lh: seq<int>, k: nat, c: C.State, c': C.State, b: nat, f: nat) {
    if k < |lh| then CopyOut(c, c', b, L.start + k + 1, f, lh[k])
    else if k == |lh| then HeadOut(L, c, c', b, lh)
    else if k < 2 * |lh| + 1 then
      var i := k - |lh| - 1;
      CopyOut(c, c', b, lh[i], f, L.start + i + 1)
    else k == 2 * |lh| + 1 && HeadOut(L, c, c', b, [])
  }

  ghost predicate CommitStep(L: Layout, s: Both, s': Both, b: nat, f: nat) {
    && s.g.phase.Committing? && CommitMove(L, s.g.lh, s.g.phase.done, s.c, s'.c, b, f)
    && var t := s.g.(disk := s'.c.c.disk, phase := G.Committing(s.g.phase.before, s.g.phase.done + 1));
       s'.g == if s.g.phase.done == |s.g.lh|
               then t.(committed := s.g.committed + [s.g.current], current := G.EMPTY_BATCH) else t
  }

  /** The same for recover_from_log(), whose list is the one it read from the header. */
  ghost predicate RecoverStep(L: Layout, s: Both, s': Both, b: nat, f: nat) {
    && s.g.phase.Recovering? && L.HeaderOk(s.g.phase.before)
    && var lh, k := Decode(s.g.phase.before[L.start]), s.g.phase.done;
       && (if k < |lh| then CopyOut(s.c, s'.c, b, lh[k], f, L.start + k + 1)
           else k == |lh| && HeadOut(L, s.c, s'.c, b, []))
       && s'.g == s.g.(disk := s'.c.c.disk, phase := G.Recovering(s.g.phase.before, k + 1))
  }

  /** A crash loses the cache. */
  ghost predicate Crash(L: Layout, s: Both, s': Both, d': seq<Block>) {
    G.Crash(L, s.g, s'.g, d') && C.Init(s'.c) && s'.c.c.disk == d'
  }

  /** Steps of the log that touch no buffer. */
  ghost predicate LogStep(L: Layout, g: G.State, g': G.State) {
    || G.BeginOp(L, g, g')
    || (exists op :: G.LogTest(L, g, g', op))
    || (exists op :: G.EndOp(L, g, g', op))
    || G.CommitDone(L, g, g')
    || G.RecoverDone(L, g, g')
  }

  ghost predicate Next(L: Layout, s: Both, s': Both) {
    || (s'.g == s.g && BufferStep(s.c, s'.c))
    || (s'.c == s.c && LogStep(L, s.g, s'.g))
    || (exists op, b :: Append(L, s, s', op, b))
    || (exists b, f :: CommitStep(L, s, s', b, f))
    || (exists b, f :: RecoverStep(L, s, s', b, f))
    || (exists d' :: Crash(L, s, s', d'))
  }

  // What ties the two together

  /** The disk is one; log blocks are written through; home blocks are cached as the log has them. */
  ghost predicate Agree(L: Layout, g: G.State, c: C.State) {
    && c.c.disk == g.disk && |c.mem| == |g.disk| == |g.view| == L.nblocks
    && (forall b | L.start <= b < L.start + L.size && b < L.nblocks :: c.mem[b] == g.disk[b])
    && (forall b | L.Home(b) :: c.mem[b] == if g.phase.Recovering? then g.disk[b] else g.view[b])
  }

  /** The listed blocks that commit() has not yet sent home. */
  function Pending(g: G.State): seq<int> {
    if g.phase.Committing? then Left(g.lh, g.phase.done) else g.lh
  }

  /** After `done` of commit()'s writes. */
  function Left(lh: seq<int>, done: nat): seq<int> {
    if done <= |lh| then lh else if done - |lh| - 1 <= |lh| then lh[done - |lh| - 1..] else []
  }

  /** Exactly these blocks are pinned. */
  ghost predicate Pins(c: C.State, pins: seq<int>) {
    && (forall i | 0 <= i < |c.c.bufs| && c.c.bufs[i].dirty :: c.c.bufs[i].blockno in pins)
    && (forall k | 0 <= k < |pins| :: 0 <= pins[k] && IsPinned(c, pins[k]))
  }

  ghost predicate Inv(L: Layout, d0: seq<Block>, s: Both) {
    G.Inv(L, d0, s.g) && C.Inv(s.c) && Agree(L, s.g, s.c) && Pins(s.c, Pending(s.g))
  }

  // Buffers and blocks

  lemma ShownBytes(c: C.State, b: nat, n: int)
    requires C.Inv(c) && Shows(c, b, n)
    ensures n < |c.mem| && c.c.bufs[b].data == c.mem[n]
  {
    assert C.BufOk(c, b);
  }

  lemma CopyEffect(c: C.State, c': C.State, b: nat, n: int, f: nat, m: int)
    requires C.Inv(c) && CopyOut(c, c', b, n, f, m)
    ensures n < |c.mem| == |c.c.disk| && 0 <= m < |c.mem|
    ensures c'.c.disk == c.c.disk[n := c.mem[m]] && c'.mem == c.mem[n := c.mem[m]]
  {
    ShownBytes(c, f, m);
    assert C.BufOk(c, b);
  }

  lemma HeadEffect(L: Layout, c: C.State, c': C.State, b: nat, lh: seq<int>)
    requires C.Inv(c) && HeadOut(L, c, c', b, lh)
    ensures L.start < |c.mem| == |c.c.disk|
    ensures c'.c.disk == c.c.disk[L.start := Encode(c.mem[L.start], lh)]
    ensures c'.mem == c.mem[L.start := Encode(c.mem[L.start], lh)]
  {
    assert C.BufOk(c, b);
  }

  // Pins

  lemma SamePins(c: C.State, c': C.State, pins: seq<int>)
    requires Pins(c, pins) && |c'.c.bufs| == |c.c.bufs|
    requires forall i | 0 <= i < |c.c.bufs| :: c'.c.bufs[i].dirty == c.c.bufs[i].dirty
    requires forall i | 0 <= i < |c.c.bufs| && c.c.bufs[i].dirty ::
               c'.c.bufs[i].dev == c.c.bufs[i].dev && c'.c.bufs[i].blockno == c.c.bufs[i].blockno
    ensures Pins(c', pins)
  {
    forall k | 0 <= k < |pins|
      ensures IsPinned(c', pins[k])
    {
      assert IsPinned(c, pins[k]);
      var i :| 0 <= i < |c.c.bufs| && c.c.bufs[i].dirty && Matches(c.c.bufs[i], ROOTDEV, pins[k]);
      assert c'.c.bufs[i].dirty && Matches(c'.c.bufs[i], ROOTDEV, pins[k]);
    }
  }

  lemma BufferStepPins(c: C.State, c': C.State, pins: seq<int>)
    requires C.Inv(c) && BufferStep(c, c') && Pins(c, pins)
    ensures Pins(c', pins)
  {
    if pid, blockno :| C.Get(c, c', pid, blockno) {
      GetPins(c, c', pid, blockno, pins);
    } else if b: nat :| C.Leave(c, c', b) || C.Drop(c, c', b) {
      SamePins(c, c', pins);
    } else {
      LockedPins(c, c', pins);
    }
  }

  /** bget recycles no dirty buffer. */
  lemma GetPins(c: C.State, c': C.State, pid: nat, blockno: nat, pins: seq<int>)
    requires C.Inv(c) && C.Get(c, c', pid, blockno) && Pins(c, pins)
    ensures Pins(c', pins)
  {
    SamePins(c, c', pins);
  }

  lemma LockedPins(c: C.State, c': C.State, pins: seq<int>)
    requires C.Inv(c) && Pins(c, pins)
    requires || (exists pid :: C.Acquire(c, c', pid)) || (exists b :: C.Fill(c, c', b))
             || (exists b, data :: C.Modify(c, c', b, data))
    ensures Pins(c', pins)
  {
    if b :| C.Fill(c, c', b) {
      assert C.BufOk(c, b);
    }
    SamePins(c, c', pins);
  }

  /** log_write pins its block. */
  lemma AppendPins(c: C.State, c': C.State, b: nat, pins: seq<int>)
    requires C.Inv(c) && C.LogWrite(c, c', b) && Pins(c, pins)
    ensures Pins(c', Absorb(pins, c.c.bufs[b].blockno))
  {
    var n := c.c.bufs[b].blockno;
    var pins' := Absorb(pins, n);
    assert C.BufOk(c, b);
    forall k | 0 <= k < |pins'|
      ensures 0 <= pins'[k] && IsPinned(c', pins'[k])
    {
      if pins'[k] == n {
        assert c'.c.bufs[b].dirty && Matches(c'.c.bufs[b], ROOTDEV, n);
      } else {
        assert pins'[k] == pins[k] && IsPinned(c, pins[k]);
        var i :| 0 <= i < |c.c.bufs| && c.c.bufs[i].dirty && Matches(c.c.bufs[i], ROOTDEV, pins[k]);
        assert c'.c.bufs[i].dirty && Matches(c'.c.bufs[i], ROOTDEV, pins[k]);
      }
    }
  }

  /** bwrite unpins its block. */
  lemma WritePins(c: C.State, c': C.State, b: nat, pins: seq<int>, pins': seq<int>)
    requires C.Inv(c) && C.BWrite(c, c', b) && Pins(c, pins)
    requires forall n | n in pins' :: n in pins && n != c.c.bufs[b].blockno
    requires forall n | n in pins && n != c.c.bufs[b].blockno :: n in pins'
    ensures Pins(c', pins')
  {
    var n := c.c.bufs[b].blockno;
    assert C.BufOk(c, b);
    forall i | 0 <= i < |c'.c.bufs| && c'.c.bufs[i].dirty
      ensures c'.c.bufs[i].blockno in pins'
    {
      assert i != b && C.BufOk(c, i);
      OtherBlock(c, b, i);
    }
    forall k | 0 <= k < |pins'|
      ensures 0 <= pins'[k] && IsPinned(c', pins'[k])
    {
      assert pins'[k] in pins';
      var j :| 0 <= j < |pins| && pins[j] == pins'[k];
      assert IsPinned(c, pins[j]);
      var i :| 0 <= i < |c.c.bufs| && c.c.bufs[i].dirty && Matches(c.c.bufs[i], ROOTDEV, pins[j]);
      assert i != b;
      assert c'.c.bufs[i].dirty && Matches(c'.c.bufs[i], ROOTDEV, pins[j]);
    }
  }

  lemma OtherBlock(c: C.State, b: nat, i: nat)
    requires C.Inv(c) && b < NBUF && i < NBUF && i != b && c.c.bufs[b].dev == ROOTDEV && c.c.bufs[i].dev == ROOTDEV
    ensures c.c.bufs[i].blockno != c.c.bufs[b].blockno
  {
    if i < b {
      assert !Matches(c.c.bufs[b], ROOTDEV, c.c.bufs[i].blockno);
    } else {
      assert !Matches(c.c.bufs[i], ROOTDEV, c.c.bufs[b].blockno);
    }
  }

  /** As many buffers are pinned as blocks are listed. */
  lemma PinCount(c: C.State, pins: seq<int>)
    requires C.Inv(c) && Pins(c, pins) && forall j, k | 0 <= j < k < |pins| :: pins[j] != pins[k]
    ensures |Pinned(c)| == |pins|
  {
    PinCountTo(c, pins, |pins|);
    assert pins[..|pins|] == pins;
    assert Pinned(c) == PinnedIn(c, pins, |pins|);
  }

  ghost function PinnedIn(c: C.State, pins: seq<int>, n: nat): set<nat>
    requires n <= |pins|
  {
    set i: nat | i < |c.c.bufs| && c.c.bufs[i].dirty && c.c.bufs[i].blockno in pins[..n]
  }

  lemma {:induction false} PinCountTo(c: C.State, pins: seq<int>, n: nat)
    requires C.Inv(c) && Pins(c, pins) && n <= |pins| && forall j, k | 0 <= j < k < |pins| :: pins[j] != pins[k]
    ensures |PinnedIn(c, pins, n)| == n
  {
    if n == 0 {
      assert PinnedIn(c, pins, 0) == {};
    } else {
      var k := n - 1;
      PinCountTo(c, pins, k);
      assert IsPinned(c, pins[k]);
      var x: nat :| x < |c.c.bufs| && c.c.bufs[x].dirty && Matches(c.c.bufs[x], ROOTDEV, pins[k]);
      assert PinnedIn(c, pins, n) == PinnedIn(c, pins, k) + {x} by {
        PinnedOne(c, pins, k, n, x);
      }
      assert x !in PinnedIn(c, pins, k);
    }
  }

  lemma PinnedOne(c: C.State, pins: seq<int>, k: nat, n: nat, x: nat)
    requires C.Inv(c) && n == k + 1 <= |pins| && x < |c.c.bufs| && c.c.bufs[x].dirty
    requires 0 <= pins[k] && Matches(c.c.bufs[x], ROOTDEV, pins[k])
    ensures PinnedIn(c, pins, n) == PinnedIn(c, pins, k) + {x}
  {
    assert pins[..n] == pins[..k] + [pins[k]];
    forall i: nat | i < |c.c.bufs| && c.c.bufs[i].dirty && c.c.bufs[i].blockno == pins[k]
      ensures i == x
    {
      assert C.BufOk(c, i) && C.BufOk(c, x);
      if i != x {
        OtherBlock(c, x, i);
      }
    }
  }

  // commit()

  /** The k-th write of commit(). */
  lemma CommitWriteAt(L: Layout, d: seq<Block>, view: seq<Block>, lh: seq<int>, k: nat)
    requires L.Fits(lh) && |d| == |view| == L.nblocks && k < 2 * |lh| + 2
    ensures CommitWrites(L, d, view, lh)[k]
         == if k < |lh| then Write(L.start + k + 1, view[lh[k]])
            else if k == |lh| then Write(L.start, Encode(d[L.start], lh))
            else if k < 2 * |lh| + 1 then
              var i := k - |lh| - 1;
              Write(lh[i], view[lh[i]])
            else Write(L.start, Encode(Encode(d[L.start], lh), []))
  {
  }

  // What commit() reads: the header as it is by then, and after the header write the log blocks

  lemma HeaderSoFar(L: Layout, d: seq<Block>, view: seq<Block>, lh: seq<int>, k: nat, ws: seq<Write>)
    requires L.HeaderOk(d) && |view| == |d| && L.ListOk(lh) && k < 2 * |lh| + 2
    requires ws == CommitWrites(L, d, view, lh)[..k]
    ensures ApplyAll(d, ws)[L.start] == if k <= |lh| then d[L.start] else Encode(d[L.start], lh)
  {
    forall j | 0 <= j < k && j != |lh|
      ensures ws[j].blockno != L.start
    {
      CommitWriteAt(L, d, view, lh, j);
    }
    if k <= |lh| {
      ApplyAllAt(d, ws, L.start, -1);
    } else {
      CommitWriteAt(L, d, view, lh, |lh|);
      ApplyAllAt(d, ws, L.start, |lh|);
    }
  }

  lemma LogBlockSoFar(L: Layout, d: seq<Block>, view: seq<Block>, lh: seq<int>, k: nat, ws: seq<Write>, i: nat, b: nat)
    requires L.HeaderOk(d) && |view| == |d| && L.ListOk(lh) && |lh| < k < 2 * |lh| + 2
    requires i < |lh| && b == L.start + i + 1
    requires ws == CommitWrites(L, d, view, lh)[..k]
    ensures ApplyAll(d, ws)[b] == view[lh[i]]
  {
    forall j | i < j < k
      ensures ws[j].blockno != b
    {
      CommitWriteAt(L, d, view, lh, j);
    }
    CommitWriteAt(L, d, view, lh, i);
    ApplyAllAt(d, ws, b, i);
  }

  /** The k-th write of commit(), from what is cached and on the disk by then. */
  function NextMove(L: Layout, view: seq<Block>, lh: seq<int>, k: nat, e: seq<Block>): Write
    requires L.Valid() && L.ListOk(lh) && |e| == |view| == L.nblocks && k < 2 * |lh| + 2
  {
    if k < |lh| then Write(L.start + k + 1, view[lh[k]])
    else if k == |lh| then Write(L.start, Encode(e[L.start], lh))
    else if k < 2 * |lh| + 1 then
      var i := k - |lh| - 1;
      Write(lh[i], e[L.start + i + 1])
    else Write(L.start, Encode(e[L.start], []))
  }

  lemma NextMoveIs(L: Layout, d: seq<Block>, view: seq<Block>, lh: seq<int>, k: nat, e: seq<Block>)
    requires L.HeaderOk(d) && |view| == |d| && L.ListOk(lh) && k < 2 * |lh| + 2
    requires e == ApplyAll(d, CommitWrites(L, d, view, lh)[..k])
    ensures CommitWrites(L, d, view, lh)[k] == NextMove(L, view, lh, k, e)
  {
    CommitWriteAt(L, d, view, lh, k);
    if |lh| < k < 2 * |lh| + 1 {
      var i := k - |lh| - 1;
      LogBlockSoFar(L, d, view, lh, k, CommitWrites(L, d, view, lh)[..k], i, L.start + i + 1);
    } else if k >= |lh| {
      HeaderSoFar(L, d, view, lh, k, CommitWrites(L, d, view, lh)[..k]);
    }
  }

  /** With every buffer pinned, none can hold the first log block, and commit() cannot begin. */
  lemma NoFirstMove(L: Layout, lh: seq<int>, c: C.State, c': C.State, b: nat, f: nat)
    requires C.Inv(c) && Pins(c, lh) && L.Listable(lh) && |lh| == NBUF && L.size > 1
    ensures !CommitMove(L, lh, 0, c, c', b, f)
  {
    PinCount(c, lh);
    if b < NBUF {
      AllPinned(c, b);
      assert c.c.bufs[b].blockno in lh && L.Home(c.c.bufs[b].blockno);
    }
  }

  lemma AllPinned(c: C.State, b: nat)
    requires |c.c.bufs| == NBUF == |Pinned(c)| && b < NBUF
    ensures c.c.bufs[b].dirty
  {
    if !c.c.bufs[b].dirty {
      NotAllPinned(c, b);
    }
  }

  lemma MoveEffect(L: Layout, s: Both, s': Both, b: nat, f: nat)
    requires C.Inv(s.c) && Agree(L, s.g, s.c) && L.ListOk(s.g.lh) && L.Valid() && s.g.phase.Committing?
    requires s.g.phase.done < 2 * |s.g.lh| + 2 && CommitMove(L, s.g.lh, s.g.phase.done, s.c, s'.c, b, f)
    ensures C.BWrite(s.c, s'.c, b)
    ensures Wrote(s, s', b, NextMove(L, s.g.view, s.g.lh, s.g.phase.done, s.g.disk))
  {
    var lh, k := s.g.lh, s.g.phase.done;
    if k < |lh| {
      assert L.Home(lh[k]);
      CopyEffect(s.c, s'.c, b, L.start + k + 1, f, lh[k]);
    } else if k == |lh| {
      HeadEffect(L, s.c, s'.c, b, lh);
    } else if k < 2 * |lh| + 1 {
      var i := k - |lh| - 1;
      assert L.Home(lh[i]);
      CopyEffect(s.c, s'.c, b, lh[i], f, L.start + i + 1);
    } else {
      HeadEffect(L, s.c, s'.c, b, []);
    }
  }

  /** Buffer b has carried out the write w. */
  ghost predicate Wrote(s: Both, s': Both, b: nat, w: Write) {
    && b < |s.c.c.bufs| && s.c.c.bufs[b].blockno == w.blockno < |s.c.mem| == |s.g.disk|
    && s'.c.c.disk == s.g.disk[w.blockno := w.data] && s'.c.mem == s.c.mem[w.blockno := w.data]
  }

  /** A pin for every entry, so no more entries than buffers: lh.block never overflows. */
  lemma ListFits(L: Layout, d0: seq<Block>, s: Both)
    requires Inv(L, d0, s)
    ensures |s.g.lh| <= NBUF && |Pinned(s.c)| == |Pending(s.g)|
  {
    var lh, pins := s.g.lh, Pending(s.g);
    assert L.Listable(lh) && (pins == lh || |lh| <= LOGSIZE);
    assert forall j, k | 0 <= j < k < |pins| :: pins[j] != pins[k] by {
      if s.g.phase.Committing? {
        LeftDistinct(L, lh, s.g.phase.done);
      }
    }
    PinBound(s.c, pins);
  }

  lemma LeftDistinct(L: Layout, lh: seq<int>, done: nat)
    requires L.Listable(lh)
    ensures forall j, k | 0 <= j < k < |Left(lh, done)| :: Left(lh, done)[j] != Left(lh, done)[k]
  {
  }

  lemma PinBound(c: C.State, pins: seq<int>)
    requires C.Inv(c) && Pins(c, pins) && forall j, k | 0 <= j < k < |pins| :: pins[j] != pins[k]
    ensures |Pinned(c)| == |pins| <= NBUF
  {
    PinCount(c, pins);
    SubsetCount(Pinned(c), Below(NBUF));
  }

  /** What commit() moves from buffer to buffer is what CommitWrites says. */
  lemma CommitMoves(L: Layout, d0: seq<Block>, s: Both, s': Both, b: nat, f: nat)
    requires Inv(L, d0, s) && CommitStep(L, s, s', b, f) && G.RoomToCommit(L, s'.g)
    ensures s.g.phase.done < 2 * |s.g.lh| + 2 && L.ListOk(s.g.lh)
    ensures G.CommitWrite(L, s.g, s'.g) && C.BWrite(s.c, s'.c, b)
    ensures Wrote(s, s', b, CommitWrites(L, s.g.phase.before, s.g.view, s.g.lh)[s.g.phase.done])
  {
    ListFits(L, d0, s);
    assert s.g.phase.done == 0 ==> CommitWrites(L, s.g.phase.before, s.g.view, s.g.lh)[..0] == [];
    MoveEffect(L, s, s', b, f);
    NextMoveIs(L, s.g.phase.before, s.g.view, s.g.lh, s.g.phase.done, s.g.disk);
  }

  /** One block less to send home, if that is what was written. */
  lemma LeftNext(L: Layout, lh: seq<int>, k: nat, next: nat, n: int)
    requires L.ListOk(lh) && k < 2 * |lh| + 2 && next == k + 1
    requires n == if k < |lh| then L.start + k + 1
                  else if |lh| < k < 2 * |lh| + 1 then lh[k - |lh| - 1] else L.start
    ensures forall m | m in Left(lh, next) :: m in Left(lh, k) && m != n
    ensures forall m | m in Left(lh, k) && m != n :: m in Left(lh, next)
  {
    forall m | m in lh
      ensures L.Home(m)
    {
    }
    if |lh| < k < 2 * |lh| + 1 {
      var i := k - |lh| - 1;
      assert Left(lh, k) == [lh[i]] + lh[i + 1..] && Left(lh, next) == lh[i + 1..];
    }
  }

  lemma AgreeWrite(L: Layout, g: G.State, c: C.State, g': G.State, c': C.State, w: Write)
    requires Agree(L, g, c) && w.blockno < L.nblocks && g'.view == g.view && g'.phase.Recovering? == g.phase.Recovering?
    requires c'.c.disk == g'.disk == g.disk[w.blockno := w.data] && c'.mem == c.mem[w.blockno := w.data]
    requires L.Home(w.blockno) && !g.phase.Recovering? ==> w.data == g.view[w.blockno]
    ensures Agree(L, g', c')
  {
  }

  lemma InvCommit(L: Layout, d0: seq<Block>, s: Both, s': Both, b: nat, f: nat)
    requires Inv(L, d0, s) && CommitStep(L, s, s', b, f) && G.RoomToCommit(L, s'.g)
    ensures Inv(L, d0, s') && G.CommitWrite(L, s.g, s'.g)
  {
    CommitMoves(L, d0, s, s', b, f);
    assert G.Inv(L, d0, s'.g) by { G.InvCommitWrite(L, d0, s.g, s'.g); }
    assert C.Inv(s'.c) by { C.InvLocked(s.c, s'.c, b); }
    CommitAgrees(L, s, s', b);
  }

  lemma CommitAgrees(L: Layout, s: Both, s': Both, b: nat)
    requires C.Inv(s.c) && Agree(L, s.g, s.c) && Pins(s.c, Pending(s.g)) && C.BWrite(s.c, s'.c, b)
    requires L.Valid() && L.ListOk(s.g.lh) && G.CommitWrite(L, s.g, s'.g) && s'.c.c.disk == s'.g.disk
    requires Wrote(s, s', b, CommitWrites(L, s.g.phase.before, s.g.view, s.g.lh)[s.g.phase.done])
    ensures Agree(L, s'.g, s'.c) && Pins(s'.c, Pending(s'.g))
  {
    var lh, k, w := s.g.lh, s.g.phase.done, CommitWrites(L, s.g.phase.before, s.g.view, s.g.lh)[s.g.phase.done];
    CommitWriteAt(L, s.g.phase.before, s.g.view, lh, k);
    assert Agree(L, s'.g, s'.c) by { AgreeWrite(L, s.g, s.c, s'.g, s'.c, w); }
    assert Pins(s'.c, Left(lh, s'.g.phase.done)) by { CommitPins(L, s, s', b, w, lh, k, s'.g.phase.done); }
  }

  lemma CommitPins(L: Layout, s: Both, s': Both, b: nat, w: Write, lh: seq<int>, k: nat, next: nat)
    requires C.Inv(s.c) && C.BWrite(s.c, s'.c, b) && Pins(s.c, Left(lh, k)) && Wrote(s, s', b, w)
    requires L.ListOk(lh) && k < 2 * |lh| + 2 && next == k + 1
    requires w.blockno == if k < |lh| then L.start + k + 1
                          else if |lh| < k < 2 * |lh| + 1 then lh[k - |lh| - 1] else L.start
    ensures Pins(s'.c, Left(lh, next))
  {
    LeftNext(L, lh, k, next, w.blockno);
    WritePins(s.c, s'.c, b, Left(lh, k), Left(lh, next));
  }

  // recover_from_log()

  /** Recovery writes no log block before the header. */
  lemma LogAreaKept(L: Layout, d: seq<Block>, k: nat, b: nat)
    requires L.HeaderOk(d) && k < |RecoverWrites(L, d)| && L.start <= b < L.start + L.size
    ensures ApplyAll(d, RecoverWrites(L, d)[..k])[b] == d[b]
  {
    var lh, ws := Decode(d[L.start]), RecoverWrites(L, d)[..k];
    forall j | 0 <= j < k
      ensures ws[j].blockno != b
    {
      assert ws[j].blockno == lh[j] && L.Home(lh[j]);
    }
    ApplyAllAt(d, ws, b, -1);
  }

  lemma RecoverMoves(L: Layout, d0: seq<Block>, s: Both, s': Both, b: nat, f: nat)
    requires Inv(L, d0, s) && RecoverStep(L, s, s', b, f)
    ensures s.g.phase.done < |RecoverWrites(L, s.g.phase.before)|
    ensures G.RecoverWrite(L, s.g, s'.g) && C.BWrite(s.c, s'.c, b)
    ensures Wrote(s, s', b, RecoverWrites(L, s.g.phase.before)[s.g.phase.done])
  {
    var d, k := s.g.phase.before, s.g.phase.done;
    var lh := Decode(d[L.start]);
    RecoverWriteAt(L, d, k, s.g.disk);
    assert L.ListOk(lh) && k <= |lh|;
    RecoverEffect(L, s, s', b, f, lh, k);
  }

  lemma RecoverEffect(L: Layout, s: Both, s': Both, b: nat, f: nat, lh: seq<int>, k: nat)
    requires C.Inv(s.c) && Agree(L, s.g, s.c) && L.Valid() && L.ListOk(lh) && k <= |lh|
    requires if k < |lh| then CopyOut(s.c, s'.c, b, lh[k], f, L.start + k + 1) else HeadOut(L, s.c, s'.c, b, [])
    ensures C.BWrite(s.c, s'.c, b) && (k < |lh| ==> 0 <= lh[k])
    ensures Wrote(s, s', b, if k < |lh| then Write(lh[k], s.g.disk[L.start + k + 1])
                            else Write(L.start, Encode(s.g.disk[L.start], [])))
  {
    if k < |lh| {
      RecoverCopy(L, s, s', b, f, lh, k);
    } else {
      HeadEffect(L, s.c, s'.c, b, []);
    }
  }

  /** The k-th write of a recovery, from what is on the disk by then. */
  lemma RecoverWriteAt(L: Layout, d: seq<Block>, k: nat, e: seq<Block>)
    requires L.HeaderOk(d) && k < |RecoverWrites(L, d)| && e == ApplyAll(d, RecoverWrites(L, d)[..k])
    ensures var lh := Decode(d[L.start]);
            RecoverWrites(L, d)[k] == if k < |lh| then Write(lh[k], e[L.start + k + 1])
                                      else Write(L.start, Encode(e[L.start], []))
  {
    LogAreaKept(L, d, k, if k < |Decode(d[L.start])| then L.start + k + 1 else L.start);
  }

  lemma RecoverCopy(L: Layout, s: Both, s': Both, b: nat, f: nat, lh: seq<int>, k: nat)
    requires C.Inv(s.c) && Agree(L, s.g, s.c) && L.Valid() && L.ListOk(lh) && k < |lh|
    requires CopyOut(s.c, s'.c, b, lh[k], f, L.start + k + 1)
    ensures 0 <= lh[k] && Wrote(s, s', b, Write(lh[k], s.g.disk[L.start + k + 1]))
  {
    assert L.Home(lh[k]);
    CopyEffect(s.c, s'.c, b, lh[k], f, L.start + k + 1);
  }

  lemma InvRecover(L: Layout, d0: seq<Block>, s: Both, s': Both, b: nat, f: nat)
    requires Inv(L, d0, s) && RecoverStep(L, s, s', b, f)
    ensures Inv(L, d0, s') && G.RecoverWrite(L, s.g, s'.g)
  {
    RecoverMoves(L, d0, s, s', b, f);
    var w := RecoverWrites(L, s.g.phase.before)[s.g.phase.done];
    assert G.Inv(L, d0, s'.g) by { G.InvRecoverWrite(L, d0, s.g, s'.g); }
    assert C.Inv(s'.c) by { C.InvLocked(s.c, s'.c, b); }
    assert Agree(L, s'.g, s'.c) by { AgreeWrite(L, s.g, s.c, s'.g, s'.c, w); }
    assert Pins(s'.c, []) by { WritePins(s.c, s'.c, b, [], []); }
  }

  // The other steps

  lemma InvBuffers(L: Layout, d0: seq<Block>, s: Both, s': Both)
    requires Inv(L, d0, s) && s'.g == s.g && BufferStep(s.c, s'.c)
    ensures Inv(L, d0, s')
  {
    assert C.Inv(s'.c) by { C.InvNext(s.c, s'.c); }
    assert Pins(s'.c, Pending(s'.g)) by { BufferStepPins(s.c, s'.c, Pending(s.g)); }
    assert s'.c.mem == s.c.mem && s'.c.c.disk == s.c.c.disk by { BufferStepKeeps(s.c, s'.c); }
  }

  lemma BufferStepKeeps(c: C.State, c': C.State)
    requires C.Inv(c) && BufferStep(c, c')
    ensures c'.mem == c.mem && c'.c.disk == c.c.disk
  {
    if b :| C.Fill(c, c', b) {
      assert C.BufOk(c, b);
    }
  }

  lemma InvAppend(L: Layout, d0: seq<Block>, s: Both, s': Both, op: nat, b: nat)
    requires Inv(L, d0, s) && Append(L, s, s', op, b)
    ensures Inv(L, d0, s')
  {
    var w := Write(s.c.c.bufs[b].blockno, s.c.c.bufs[b].data);
    assert G.Inv(L, d0, s'.g) by { G.InvLogAppend(L, d0, s.g, s'.g, op, w); }
    assert C.Inv(s'.c) by { C.InvLocked(s.c, s'.c, b); }
    assert Agree(L, s'.g, s'.c);
    assert Pins(s'.c, Pending(s'.g)) by { AppendPins(s.c, s'.c, b, s.g.lh); }
  }

  lemma InvLog(L: Layout, d0: seq<Block>, s: Both, s': Both)
    requires Inv(L, d0, s) && s'.c == s.c && LogStep(L, s.g, s'.g) && G.RoomToCommit(L, s'.g)
    ensures Inv(L, d0, s')
  {
    assert G.Inv(L, d0, s'.g) by { G.InvNext(L, d0, s.g, s'.g); }
    assert Agree(L, s'.g, s'.c) && Pending(s'.g) == Pending(s.g) by {
      if G.CommitDone(L, s.g, s'.g) {
        DoneAgrees(L, d0, s.g, s'.g, s.c);
      } else {
        LogStepAgrees(L, d0, s.g, s'.g, s.c);
      }
    }
  }

  /** By the end of commit() the home blocks are on the disk as they are cached. */
  lemma DoneAgrees(L: Layout, d0: seq<Block>, g: G.State, g': G.State, c: C.State)
    requires G.Inv(L, d0, g) && Agree(L, g, c) && G.CommitDone(L, g, g')
    ensures Agree(L, g', c) && Pending(g') == Pending(g)
  {
    G.AllWritten(L, g.phase.before, g.view, g.lh, g.phase.done, g.disk);
    var target := Installed(L, g.phase.before, g.view, g.lh);
    forall b | L.Home(b)
      ensures g.disk[b] == g.view[b]
    {
      assert g.disk[b] == target[b];
    }
  }

  lemma LogStepAgrees(L: Layout, d0: seq<Block>, g: G.State, g': G.State, c: C.State)
    requires G.Inv(L, d0, g) && Agree(L, g, c)
    requires || G.BeginOp(L, g, g') || G.RecoverDone(L, g, g')
             || (exists op :: G.LogTest(L, g, g', op)) || (exists op :: G.EndOp(L, g, g', op))
    ensures Agree(L, g', c) && Pending(g') == Pending(g)
  {
    if !G.RecoverDone(L, g, g') {
      assert g'.lh == g.lh && g'.view == g.view && g'.disk == g.disk && !g.phase.Recovering? && !g'.phase.Recovering?;
    }
  }

  lemma InvCrash(L: Layout, d0: seq<Block>, s: Both, s': Both, d': seq<Block>)
    requires Inv(L, d0, s) && Crash(L, s, s', d')
    ensures Inv(L, d0, s')
  {
    assert G.Inv(L, d0, s'.g) by { G.InvCrash(L, d0, s.g, s'.g, d'); }
    assert C.Inv(s'.c) by { C.InvInit(s'.c); }
  }

  // Every run

  lemma InvNext(L: Layout, d0: seq<Block>, s: Both, s': Both)
    requires Inv(L, d0, s) && Next(L, s, s') && G.RoomToCommit(L, s'.g)
    ensures Inv(L, d0, s')
  {
    if op, b :| Append(L, s, s', op, b) {
      InvAppend(L, d0, s, s', op, b);
    } else if b, f :| CommitStep(L, s, s', b, f) {
      InvCommit(L, d0, s, s', b, f);
    } else if b, f :| RecoverStep(L, s, s', b, f) {
      InvRecover(L, d0, s, s', b, f);
    } else if d' :| Crash(L, s, s', d') {
      InvCrash(L, d0, s, s', d');
    } else if s'.g == s.g && BufferStep(s.c, s'.c) {
      InvBuffers(L, d0, s, s');
    } else {
      InvLog(L, d0, s, s');
    }
  }

  /** The log's part of a step is one of its own, or none. */
  lemma StepsOfLog(L: Layout, d0: seq<Block>, s: Both, s': Both)
    requires Inv(L, d0, s) && Next(L, s, s') && G.RoomToCommit(L, s'.g)
    ensures s'.g == s.g || G.Next(L, s.g, s'.g)
  {
    if b, f :| CommitStep(L, s, s', b, f) {
      CommitMoves(L, d0, s, s', b, f);
    } else if b, f :| RecoverStep(L, s, s', b, f) {
      RecoverMoves(L, d0, s, s', b, f);
    }
  }

  ghost predicate Follows(L: Layout, run: seq<Both>, i: nat)
    requires 0 < i < |run|
  {
    Next(L, run[i - 1], run[i])
  }

  /** A run from an empty log and a cold cache. */
  ghost predicate IsRun(L: Layout, d0: seq<Block>, run: seq<Both>) {
    && run != [] && G.Init(L, d0, run[0].g) && C.Init(run[0].c) && run[0].c.c.disk == d0
    && forall i | 0 < i < |run| :: Follows(L, run, i)
  }

  /** ... whose operations keep to their allowance. */
  ghost predicate KeptTo(run: seq<Both>) {
    forall i | 0 <= i < |run| :: Disciplined(run[i].g)
  }

  ghost predicate RoomUpTo(L: Layout, run: seq<Both>, i: nat)
    requires i < |run|
  {
    forall j | 0 <= j <= i :: G.RoomToCommit(L, run[j].g)
  }

  /** The log's part of such a run, without the steps on buffers alone, is a run of GroupCommit. */
  lemma {:induction false} LogRun(L: Layout, d0: seq<Block>, run: seq<Both>, i: nat) returns (gs: seq<G.State>)
    requires IsRun(L, d0, run) && i < |run| && RoomUpTo(L, run, i)
    ensures G.IsRun(L, d0, gs) && gs[|gs| - 1] == run[i].g && G.RoomUpTo(L, gs, |gs| - 1) && Inv(L, d0, run[i])
  {
    if i == 0 {
      gs := FirstState(L, d0, run);
    } else {
      var k := i - 1;
      var before := LogRun(L, d0, run, k);
      assert Follows(L, run, i) && G.RoomToCommit(L, run[i].g);
      gs := OneStep(L, d0, before, run[k], run[i]);
    }
  }

  lemma FirstState(L: Layout, d0: seq<Block>, run: seq<Both>) returns (gs: seq<G.State>)
    requires IsRun(L, d0, run)
    ensures G.IsRun(L, d0, gs) && gs[|gs| - 1] == run[0].g && G.RoomUpTo(L, gs, |gs| - 1) && Inv(L, d0, run[0])
  {
    gs := [run[0].g];
    C.InvInit(run[0].c);
    G.InvInit(L, d0, run[0].g);
  }

  lemma OneStep(L: Layout, d0: seq<Block>, before: seq<G.State>, s: Both, s': Both) returns (gs: seq<G.State>)
    requires G.IsRun(L, d0, before) && before[|before| - 1] == s.g && G.RoomUpTo(L, before, |before| - 1)
    requires Inv(L, d0, s) && Next(L, s, s') && G.RoomToCommit(L, s'.g)
    ensures G.IsRun(L, d0, gs) && gs[|gs| - 1] == s'.g && G.RoomUpTo(L, gs, |gs| - 1) && Inv(L, d0, s')
  {
    StepsOfLog(L, d0, s, s');
    gs := if s'.g == s.g then before else before + [s'.g];
    if s'.g != s.g {
      G.ExtendRun(L, d0, before, s'.g);
    }
    InvNext(L, d0, s, s');
  }

  lemma RunInv(L: Layout, d0: seq<Block>, run: seq<Both>, i: nat)
    requires IsRun(L, d0, run) && i < |run| && RoomUpTo(L, run, i)
    ensures Inv(L, d0, run[i])
  {
    var _ := LogRun(L, d0, run, i);
  }

  /** Main result: outside recovery, a filled buffer that nobody is changing holds its block's bytes after all
      committed batches and the current one; as many buffers are pinned as blocks are waiting to be sent home; and
      whatever a crash leaves, recovery brings back the committed batches. */
  lemma BuffersShowBatches(L: Layout, d0: seq<Block>, run: seq<Both>, i: nat, b: nat, n: nat)
    requires IsRun(L, d0, run) && i < |run| && RoomUpTo(L, run, i)
    ensures G.Safe(L, d0, run[i].g)
    ensures !run[i].g.phase.Recovering? && Shows(run[i].c, b, n) && L.Home(n) ==>
              run[i].c.c.bufs[b].data == G.Effects(L, d0, run[i].g.committed + [run[i].g.current])[n]
    ensures |Pinned(run[i].c)| == |Pending(run[i].g)| && |run[i].g.lh| <= LOGSIZE
  {
    var gs := LogRun(L, d0, run, i);
    var last := |gs| - 1;
    assert G.Safe(L, d0, run[i].g) by { G.SafeWithRoom(L, d0, gs, last); }
    if !run[i].g.phase.Recovering? {
      StateShows(L, d0, run[i], b, n);
    }
    ListFits(L, d0, run[i]);
  }

  lemma StateShows(L: Layout, d0: seq<Block>, s: Both, b: nat, n: nat)
    requires Inv(L, d0, s) && !s.g.phase.Recovering?
    ensures Shows(s.c, b, n) && L.Home(n) ==>
              s.c.c.bufs[b].data == G.Effects(L, d0, s.g.committed + [s.g.current])[n]
  {
    if Shows(s.c, b, n) && L.Home(n) {
      ShownBytes(s.c, b, n);
      assert (s.g.committed + [s.g.current])[..|s.g.committed|] == s.g.committed;
    }
  }

  // When the log area has room

  /** Only commit()'s first write can find it missing. */
  lemma OnlyFirstWrite(L: Layout, s: Both, s': Both)
    requires G.RoomToCommit(L, s.g) && Next(L, s, s')
    requires forall b, f | CommitStep(L, s, s', b, f) && s.g.phase.done == 0 :: |s.g.lh| < L.size
    ensures G.RoomToCommit(L, s'.g)
  {
    if s'.g != s.g {
      if op, b :| Append(L, s, s', op, b) {
      } else if s'.c == s.c && LogStep(L, s.g, s'.g) {
        assert s'.g.phase.Committing? ==> s'.g.phase.done == 0 || (s'.g.phase == s.g.phase && s'.g.lh == s.g.lh);
      }
    }
  }

  /** A log of at least LOGSIZE blocks has it: an entry too many would be a pin on the last buffer. */
  lemma BigLogRoom(L: Layout, d0: seq<Block>, s: Both, s': Both)
    requires Inv(L, d0, s) && Next(L, s, s') && (L.size == 1 || LOGSIZE <= L.size)
    ensures G.RoomToCommit(L, s'.g)
  {
    forall b, f | CommitStep(L, s, s', b, f) && s.g.phase.done == 0
      ensures |s.g.lh| < L.size
    {
      ListFits(L, d0, s);
      if |s.g.lh| == NBUF {
        NoFirstMove(L, s.g.lh, s.c, s'.c, b, f);
      }
    }
    OnlyFirstWrite(L, s, s');
  }

  lemma {:induction false} AlwaysRoom(L: Layout, d0: seq<Block>, run: seq<Both>, i: nat)
    requires IsRun(L, d0, run) && i < |run| && (L.size == 1 || LOGSIZE <= L.size)
    ensures RoomUpTo(L, run, i)
  {
    if i > 0 {
      var k := i - 1;
      AlwaysRoom(L, d0, run, k);
      RoomNext(L, d0, run, k, i);
    }
  }

  lemma RoomNext(L: Layout, d0: seq<Block>, run: seq<Both>, k: nat, i: nat)
    requires IsRun(L, d0, run) && i == k + 1 < |run| && RoomUpTo(L, run, k) && (L.size == 1 || LOGSIZE <= L.size)
    ensures G.RoomToCommit(L, run[i].g)
  {
    RunInv(L, d0, run, k);
    assert Follows(L, run, i);
    BigLogRoom(L, d0, run[k], run[i]);
  }

  /** Any log has it when no two operations are between log_write's test and its append at once. */
  lemma {:induction false} SerialRoom(L: Layout, d0: seq<Block>, run: seq<Both>, i: nat)
    requires IsRun(L, d0, run) && i < |run| && forall j | 0 <= j < |run| :: |run[j].g.passed| <= 1
    ensures RoomUpTo(L, run, i) && SerialInv(L, run[i].g)
  {
    if i > 0 {
      var k := i - 1;
      SerialRoom(L, d0, run, k);
      SerialRunStep(L, d0, run, k, i);
    }
  }

  lemma SerialRunStep(L: Layout, d0: seq<Block>, run: seq<Both>, k: nat, i: nat)
    requires IsRun(L, d0, run) && i == k + 1 < |run| && RoomUpTo(L, run, k)
    requires SerialInv(L, run[k].g) && |run[k].g.passed| <= 1
    ensures G.RoomToCommit(L, run[i].g) && SerialInv(L, run[i].g)
  {
    RunInv(L, d0, run, k);
    assert Follows(L, run, i);
    SerialStep(L, d0, run[k], run[i]);
  }

  lemma SerialStep(L: Layout, d0: seq<Block>, s: Both, s': Both)
    requires Inv(L, d0, s) && Next(L, s, s') && SerialInv(L, s.g) && |s.g.passed| <= 1
    ensures G.RoomToCommit(L, s'.g) && SerialInv(L, s'.g)
  {
    OnlyFirstWrite(L, s, s');
    StepsOfLog(L, d0, s, s');
    if s'.g != s.g {
      SerialNext(L, s.g, s'.g);
    }
  }
}
