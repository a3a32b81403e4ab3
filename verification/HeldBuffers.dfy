/** What processes can do with the cache while nobody has to wait: read a block, change its buffer, release it. */
module HeldBuffers {
  import opened Disk
  import opened CacheSpec
  import opened Sets
  import BufferCache
  import opened CacheRuns
  import opened CommitBuffers

  /** Nobody waits for a buffer or is halfway through brelse; those in `held` are locked, once each. */
  ghost predicate Calm(c: State, held: set<nat>) {
    && Inv(c) && c.want == map[] && c.leaving == multiset{} && c.touched <= held && held <= Below(NBUF)
    && forall i | 0 <= i < NBUF :: RefsOf(c.c.bufs[i], i in held)
  }

  predicate RefsOf(b: Buf, isHeld: bool) {
    if isHeld then b.refcnt == 1 && b.owner > 0 else b.refcnt == 0 && b.owner == 0
  }

  // bread

  lemma {:induction false} LastUnused(c: Cache, p: nat, top: nat) returns (k: nat)
    requires WellFormed(c) && p < top <= NBUF && Unused(c.bufs[c.order[p]])
    requires forall j | top <= j < NBUF :: !Unused(c.bufs[c.order[j]])
    ensures VictimAt(c, k)
  {
    if Unused(c.bufs[c.order[top - 1]]) {
      k := top - 1;
    } else {
      k := LastUnused(c, p, top - 1);
    }
  }

  lemma FindBuffer(c: Cache, n: nat) returns (b: nat, c': Cache)
    requires WellFormed(c) && !NoBuffers(c, ROOTDEV, n)
    ensures GetStep(c, ROOTDEV, n, c', b) && (Matches(c.bufs[b], ROOTDEV, n) || Unused(c.bufs[b]))
  {
    if Cached(c, ROOTDEV, n) {
      b :| 0 <= b < NBUF && Matches(c.bufs[b], ROOTDEV, n);
      c' := c.(bufs := c.bufs[b := c.bufs[b].(refcnt := c.bufs[b].refcnt + 1)]);
    } else {
      var i :| 0 <= i < NBUF && Unused(c.bufs[i]);
      BufferCache.Reaches(c.order, NBUF, i);
      var p :| 0 <= p < NBUF && c.order[p] == i;
      var k := LastUnused(c, p, NBUF);
      b := c.order[k];
      c' := c.(bufs := c.bufs[b := c.bufs[b].(dev := ROOTDEV, blockno := n, valid := false, dirty := false,
               refcnt := 1)]);
    }
  }

  /** Fewer pins and locks than buffers leave one to recycle. */
  lemma SomeUnused(c: State, held: set<nat>, n: nat)
    requires Calm(c, held) && |Pinned(c)| + |held| < NBUF
    ensures !NoBuffers(c.c, ROOTDEV, n)
  {
    var taken := Pinned(c) + held;
    assert |taken| <= |Pinned(c)| + |held|;
    if forall i | 0 <= i < NBUF :: !Unused(c.c.bufs[i]) {
      assert Below(NBUF) <= taken;
      SubsetCount(Below(NBUF), taken);
      assert false;
    }
  }

  /** Buffer b has been locked for block n; the other buffers, the disk and the bytes handed over are as they were. */
  ghost predicate OneLocked(c: State, c': State, b: nat, n: nat) {
    && b < NBUF == |c.c.bufs| == |c'.c.bufs| && c'.mem == c.mem && c'.c.disk == c.c.disk && c'.touched == c.touched
    && Matches(c'.c.bufs[b], ROOTDEV, n)
    && (forall i | 0 <= i < NBUF && i != b :: c'.c.bufs[i] == c.c.bufs[i])
  }

  /** bget, by process 1. */
  lemma Lock(c: State, held: set<nat>, n: nat) returns (c1: State, c': State, b: nat)
    requires Calm(c, held) && n < |c.c.disk| && !NoBuffers(c.c, ROOTDEV, n)
    requires forall i | i in held :: c.c.bufs[i].blockno != n
    ensures Get(c, c1, 1, n) && Acquire(c1, c', 1) && Inv(c1)
    ensures b !in held && Calm(c', held + {b}) && OneLocked(c, c', b, n)
  {
    var found;
    b, found := FindBuffer(c.c, n);
    assert b !in held by { assert RefsOf(c.c.bufs[b], b in held); }
    assert RefsOf(c.c.bufs[b], false);
    c1 := c.(c := found, want := map[1 := Want(b, n)]);
    assert Get(c, c1, 1, n);
    c' := c1.(c := c1.c.(bufs := c1.c.bufs[b := c1.c.bufs[b].(owner := 1)]), want := map[]);
    assert c1.want - {1} == map[];
    assert Acquire(c1, c', 1);
    assert Inv(c1) by { InvNext(c, c1); }
    assert Inv(c') by { InvNext(c1, c'); }
    LockRefs(c, c', held, b);
  }

  lemma LockRefs(c: State, c': State, held: set<nat>, b: nat)
    requires b < NBUF == |c.c.bufs| == |c'.c.bufs|
    requires forall i | 0 <= i < NBUF :: RefsOf(c.c.bufs[i], i in held)
    requires forall i | 0 <= i < NBUF && i != b :: c'.c.bufs[i] == c.c.bufs[i]
    requires RefsOf(c'.c.bufs[b], true)
    ensures forall i | 0 <= i < NBUF :: RefsOf(c'.c.bufs[i], i in held + {b})
  {
    forall i | 0 <= i < NBUF
      ensures RefsOf(c'.c.bufs[i], i in held + {b})
    {
      assert RefsOf(c.c.bufs[i], i in held);
    }
  }

  /** bread's other half: iderw, if the buffer is not valid yet. */
  lemma ReadIn(c: State, held: set<nat>, b: nat, n: nat) returns (c': State)
    requires Calm(c, held) && b in held && Matches(c.c.bufs[b], ROOTDEV, n)
    ensures c' == c || Fill(c, c', b)
    ensures Calm(c', held) && OneLocked(c, c', b, n) && c'.c.bufs[b].valid
  {
    assert RefsOf(c.c.bufs[b], true) && BufOk(c, b);
    if c.c.bufs[b].valid {
      c' := c;
    } else {
      c' := c.(c := DiskSync(c.c, b));
      assert Fill(c, c', b);
      assert Inv(c') by { InvNext(c, c'); }
    }
  }

  // Changing and releasing

  lemma Change(c: State, held: set<nat>, b: nat, data: Block) returns (c': State)
    requires Calm(c, held) && b in held && c.c.bufs[b].valid
    ensures Modify(c, c', b, data) && Calm(c', held)
  {
    assert RefsOf(c.c.bufs[b], true) && BufOk(c, b);
    c' := c.(c := c.c.(bufs := c.c.bufs[b := c.c.bufs[b].(data := data)]), touched := c.touched + {b});
    assert Modify(c, c', b, data);
    InvNext(c, c');
  }

  lemma Write(c: State, held: set<nat>, b: nat, log: bool) returns (c': State)
    requires Calm(c, held) && b in held && c.c.bufs[b].valid
    ensures if log then LogWrite(c, c', b) else BWrite(c, c', b)
    ensures Calm(c', held)
  {
    assert RefsOf(c.c.bufs[b], true) && BufOk(c, b);
    var buf := c.c.bufs[b];
    var marked := c.c.(bufs := c.c.bufs[b := buf.(dirty := true)]);
    c' := c.(c := if log then marked else DiskSync(marked, b),
             touched := c.touched - {b}, mem := c.mem[buf.blockno := buf.data]);
    assert if log then LogWrite(c, c', b) else BWrite(c, c', b);
    InvNext(c, c');
  }

  /** brelse, with nothing in between. */
  lemma Release(c: State, held: set<nat>, b: nat) returns (c1: State, c': State)
    requires Calm(c, held) && b in held && b !in c.touched
    ensures Leave(c, c1, b) && Drop(c1, c', b) && Inv(c1)
    ensures Calm(c', held - {b}) && c'.mem == c.mem && c'.c.disk == c.c.disk && c'.touched == c.touched
    ensures c'.c.bufs == c.c.bufs[b := c.c.bufs[b].(owner := 0, refcnt := 0)]
  {
    assert RefsOf(c.c.bufs[b], true) && BufOk(c, b);
    c1 := Unlocked(c, b);
    assert Leave(c, c1, b);
    assert Inv(c1) by { InvRelease(c, c1, b); }
    BufferCache.Reaches(c1.c.order, NBUF, b);
    c' := c1.(c := Unref(c1.c, b), leaving := c1.leaving - multiset{b});
    assert Drop(c1, c', b);
    assert Inv(c') by { InvRelease(c1, c', b); }
    assert c'.leaving == multiset{};
  }
}
