/** Which buffer bget recycles: over every run, the list's order is the order in which the buffers were last let go. */
module CacheRecency {
  import BufferCache
  import opened CacheSpec
  import opened CacheRuns

  /** In this step the last reference to buffer b is dropped. */
  predicate Released(s: State, s': State, b: nat) {
    b < |s.c.bufs| && b < |s'.c.bufs| && s.c.bufs[b].refcnt > 0 && s'.c.bufs[b].refcnt == 0
  }

  /** The step in which buffer b was last let go before moment i; -1 if it never was. */
  ghost function LastRelease(run: seq<State>, i: nat, b: nat): (k: int)
    requires i < |run|
    ensures -1 <= k < i
  {
    if i == 0 then -1 else if Released(run[i - 1], run[i], b) then i - 1 else LastRelease(run, i - 1, b)
  }

  /** The order stays as it is and nothing is let go, or one buffer is, and goes to the front. */
  ghost predicate OrderKept(s: State, s': State) {
    s'.c.order == s.c.order && forall b | 0 <= b < NBUF :: !Released(s, s', b)
  }

  ghost predicate MovedFirst(s: State, s': State, k: nat) {
    && k < |s.c.order| && s'.c.order == [s.c.order[k]] + s.c.order[..k] + s.c.order[k + 1..]
    && forall b | 0 <= b < NBUF :: Released(s, s', b) <==> b == s.c.order[k]
  }

  lemma DropOrder(s: State, s': State, b: nat)
    requires WellFormed(s.c) && Drop(s, s', b)
    ensures OrderKept(s, s') || exists k :: MovedFirst(s, s', k)
  {
    if s'.c.bufs[b].refcnt == 0 {
      assert MovedFirst(s, s', Place(s.c.order, b));
    }
  }

  lemma OtherOrder(s: State, s': State)
    requires Inv(s)
    requires || (exists pid :: Acquire(s, s', pid)) || (exists b :: Fill(s, s', b)) || (exists b :: Leave(s, s', b))
             || (exists b, data :: Modify(s, s', b, data)) || (exists b :: BWrite(s, s', b))
             || (exists b :: LogWrite(s, s', b))
    ensures OrderKept(s, s')
  {
  }

  lemma OrderStep(s: State, s': State)
    requires Inv(s) && Next(s, s')
    ensures OrderKept(s, s') || exists k :: MovedFirst(s, s', k)
  {
    if b :| Drop(s, s', b) {
      DropOrder(s, s', b);
    } else if pid, blockno :| Get(s, s', pid, blockno) {
    } else {
      OtherOrder(s, s');
    }
  }

  /** Whoever stands further back was let go earlier, or never. */
  ghost predicate Recency(run: seq<State>, i: nat)
    requires i < |run|
  {
    WellFormed(run[i].c) && forall j, k | 0 <= j < k < NBUF :: Later(run, i, run[i].c.order[j], run[i].c.order[k])
  }

  ghost predicate Later(run: seq<State>, i: nat, a: nat, b: nat)
    requires i < |run|
  {
    LastRelease(run, i, b) == -1 || LastRelease(run, i, a) > LastRelease(run, i, b)
  }

  lemma RecencyKept(run: seq<State>, n: nat, i: nat)
    requires i == n + 1 < |run| && Recency(run, n) && WellFormed(run[i].c) && OrderKept(run[n], run[i])
    ensures Recency(run, i)
  {
    forall j, k | 0 <= j < k < NBUF
      ensures Later(run, i, run[i].c.order[j], run[i].c.order[k])
    {
      assert Later(run, n, run[n].c.order[j], run[n].c.order[k]);
    }
  }

  lemma RecencyMoved(run: seq<State>, n: nat, i: nat, x: nat)
    requires i == n + 1 < |run| && Recency(run, n) && WellFormed(run[i].c) && MovedFirst(run[n], run[i], x)
    ensures Recency(run, i)
  {
    var old', new' := run[n].c.order, run[i].c.order;
    forall j, k | 0 <= j < k < NBUF
      ensures Later(run, i, new'[j], new'[k])
    {
      var a := if j == 0 then x else if j <= x then j - 1 else j;
      var b := if k <= x then k - 1 else k;
      assert new'[k] == old'[b] && new'[j] == old'[a] && b != x;
      if j > 0 {
        assert a != x && a < b && Later(run, n, old'[a], old'[b]);
      }
    }
  }

  lemma {:induction false} RunRecency(run: seq<State>, i: nat)
    requires IsRun(run) && i < |run|
    ensures Recency(run, i)
  {
    RunInv(run, i);
    if i > 0 {
      var n := i - 1;
      RunRecency(run, n);
      RunInv(run, n);
      OrderStep(run[n], run[i]);
      if OrderKept(run[n], run[i]) {
        RecencyKept(run, n, i);
      } else {
        var x :| MovedFirst(run[n], run[i], x);
        RecencyMoved(run, n, i, x);
      }
    }
  }

  /** Main result: when bget recycles a buffer, no other it could have taken was let go earlier. */
  lemma RecyclesOldest(run: seq<State>, i: nat, s': State, pid: nat, blockno: nat, x: nat)
    requires IsRun(run) && i < |run| && Get(run[i], s', pid, blockno) && !Cached(run[i].c, ROOTDEV, blockno)
    requires x < NBUF && Unused(run[i].c.bufs[x])
    ensures LastRelease(run, i, s'.want[pid].b) <= LastRelease(run, i, x)
  {
    RunRecency(run, i);
    var c, b := run[i].c, s'.want[pid].b;
    var k: nat :| VictimAt(c, k) && c.order[k] == b;
    BufferCache.Reaches(c.order, NBUF, x);
    var j :| 0 <= j < NBUF && c.order[j] == x;
    if j != k {
      assert j < k;
      assert Later(run, i, c.order[j], c.order[k]);
    }
  }
}
