/** The buffer cache of bio.c and the disk step of memide.c. */
module CacheSpec {
  import opened Disk

  const NBUF := 30
  const ROOTDEV := 1

  /** A buffer. `owner` is the process holding the sleep lock; 0 means it is free (pids start at 1). */
  datatype Buf = Buf(dev: nat, blockno: nat, valid: bool, dirty: bool, refcnt: nat, owner: nat, data: Block)

  /** The buffers, their order from most to least recently used, and the disk. */
  datatype Cache = Cache(bufs: seq<Buf>, order: seq<nat>, disk: seq<Block>)

  predicate Matches(b: Buf, dev: nat, blockno: nat) {
    b.dev == dev && b.blockno == blockno
  }

  /** bget may recycle it: nobody refers to it and it is not pinned by the log. */
  predicate Unused(b: Buf) {
    b.refcnt == 0 && !b.dirty
  }

  predicate Permutation(order: seq<nat>, n: nat) {
    && |order| == n
    && (forall i | 0 <= i < n :: order[i] < n)
    && (forall i, j | 0 <= i < j < n :: order[i] != order[j])
  }

  predicate WellFormed(c: Cache) {
    |c.bufs| == NBUF && Permutation(c.order, NBUF)
  }

  ghost predicate Cached(c: Cache, dev: nat, blockno: nat) {
    exists i | 0 <= i < |c.bufs| :: Matches(c.bufs[i], dev, blockno)
  }

  /** The least recently used of the unused buffers sits at place k of the order. */
  ghost predicate VictimAt(c: Cache, k: nat)
    requires WellFormed(c)
  {
    k < NBUF && Unused(c.bufs[c.order[k]])
    && forall j | k < j < NBUF :: !Unused(c.bufs[c.order[j]])
  }

  /** bget's critical section hands out buffer `b`. */
  ghost predicate GetStep(c: Cache, dev: nat, blockno: nat, c': Cache, b: nat)
    requires WellFormed(c)
  {
    b < NBUF &&
    if Cached(c, dev, blockno) then
      Matches(c.bufs[b], dev, blockno)
      && c' == c.(bufs := c.bufs[b := c.bufs[b].(refcnt := c.bufs[b].refcnt + 1)])
    else
      && (exists k: nat :: VictimAt(c, k) && c.order[k] == b)
      && c' == c.(bufs := c.bufs[b := c.bufs[b].(dev := dev, blockno := blockno, valid := false, dirty := false,
         refcnt := 1)])
  }

  /** "bget: no buffers". */
  ghost predicate NoBuffers(c: Cache, dev: nat, blockno: nat) {
    !Cached(c, dev, blockno) && forall i | 0 <= i < |c.bufs| :: !Unused(c.bufs[i])
  }

  function MoveToFront(order: seq<nat>, k: nat): (r: seq<nat>)
    requires k < |order|
    ensures |r| == |order|
    ensures Permutation(order, |order|) ==> Permutation(r, |order|)
  {
    [order[k]] + order[..k] + order[k + 1..]
  }

  /** Where buffer `b` stands in the order. */
  ghost function Place(order: seq<nat>, b: nat): (k: nat)
    requires b in order
    ensures k < |order| && order[k] == b
  {
    var k :| 0 <= k < |order| && order[k] == b;
    k
  }

  /** releasesleep */
  function Unlock(c: Cache, b: nat): Cache
    requires b < |c.bufs|
  {
    c.(bufs := c.bufs[b := c.bufs[b].(owner := 0)])
  }

  /** brelse's section under bcache.lock. */
  ghost function Unref(c: Cache, b: nat): Cache
    requires WellFormed(c) && b < NBUF && b in c.order && c.bufs[b].refcnt > 0
  {
    var buf := c.bufs[b].(refcnt := c.bufs[b].refcnt - 1);
    c.(bufs := c.bufs[b := buf],
       order := if buf.refcnt == 0 then MoveToFront(c.order, Place(c.order, b)) else c.order)
  }

  datatype DiskError = DiskOk | NotLocked | NothingToDo | WrongDisk | OutOfRange

  /** iderw's tests, in its order. holdingsleep sees that the buffer is locked, not by whom. */
  function DiskCheck(c: Cache, b: nat): DiskError
    requires b < |c.bufs|
  {
    var buf := c.bufs[b];
    if buf.owner == 0 then NotLocked
    else if buf.valid && !buf.dirty then NothingToDo
    else if buf.dev != ROOTDEV then WrongDisk
    else if buf.blockno >= |c.disk| then OutOfRange
    else DiskOk
  }

  /** iderw: a dirty buffer is written out, an invalid one is read in. */
  function DiskSync(c: Cache, b: nat): Cache
    requires b < |c.bufs| && c.bufs[b].blockno < |c.disk|
  {
    var buf := c.bufs[b];
    if buf.dirty then
      c.(bufs := c.bufs[b := buf.(dirty := false, valid := true)], disk := c.disk[buf.blockno := buf.data])
    else
      c.(bufs := c.bufs[b := buf.(data := c.disk[buf.blockno], valid := true)])
  }
}

/** bio.c working in place: the buffers and the prev/next ring through them. */
module BufferCache {
  import opened Disk
  import opened CacheSpec
  import opened Sets

  const HEAD := NBUF   // the list head's index in prev and next

  /** The ring's members, from the head round to the head. */
  function At(order: seq<nat>, i: int): nat
    requires -1 <= i <= |order|
  {
    if i == -1 || i == |order| then HEAD else order[i]
  }

  /** The i-th member and its successor point at each other. */
  ghost predicate Linked(next: seq<nat>, prev: seq<nat>, order: seq<nat>, i: int)
    requires |next| == |prev| == NBUF + 1 && -1 <= i < |order|
    requires forall i | 0 <= i < |order| :: order[i] < NBUF
  {
    next[At(order, i)] == At(order, i + 1) && prev[At(order, i + 1)] == At(order, i)
  }

  /** prev and next thread one ring, head first, through exactly the members of `order`. */
  ghost predicate Ring(next: seq<nat>, prev: seq<nat>, order: seq<nat>) {
    && |next| == |prev| == NBUF + 1
    && (forall i | 0 <= i < |order| :: order[i] < NBUF)
    && (forall i | -1 <= i < |order| :: Linked(next, prev, order, i))
  }

  /** Inserting after the head. */
  lemma RingInsert(next: seq<nat>, prev: seq<nat>, order: seq<nat>, b: nat, next': seq<nat>, prev': seq<nat>)
    requires Ring(next, prev, order) && b < NBUF && b !in order
    requires forall i, j | 0 <= i < j < |order| :: order[i] != order[j]
    requires var first := next[HEAD];
             && next' == next[b := first][HEAD := b]
             && first <= NBUF && prev' == prev[b := HEAD][first := b]
    ensures Ring(next', prev', [b] + order)
  {
    var o := [b] + order;
    assert Linked(next, prev, order, -1);
    forall i | -1 <= i < |o|
      ensures Linked(next', prev', o, i)
    {
      if i >= 0 {
        assert At(o, i + 1) == At(order, i);
        if i >= 1 {
          assert At(o, i) == At(order, i - 1);
          assert Linked(next, prev, order, i - 1);
        }
      }
    }
  }

  /** Unlinking the member at place k. */
  lemma RingRemove(next: seq<nat>, prev: seq<nat>, order: seq<nat>, k: nat, next': seq<nat>, prev': seq<nat>)
    requires Ring(next, prev, order) && k < |order|
    requires forall i, j | 0 <= i < j < |order| :: order[i] != order[j]
    requires var b := order[k];
             && next[b] <= NBUF && prev[b] <= NBUF
             && prev' == prev[next[b] := prev[b]] && next' == next[prev[b] := next[b]]
    ensures Ring(next', prev', order[..k] + order[k + 1..])
  {
    var o := order[..k] + order[k + 1..];
    assert Linked(next, prev, order, k) && Linked(next, prev, order, k - 1);
    forall i | -1 <= i < |o|
      ensures Linked(next', prev', o, i)
    {
      var j := if i < k then i else i + 1;
      assert At(o, i) == At(order, j);
      assert At(o, i + 1) == if i + 1 < k then At(order, i + 1) else At(order, i + 2);
      assert Linked(next, prev, order, j);
    }
  }

  datatype GetResult = Got(b: nat) | OutOfBuffers

  class BCache {
    var bufs: array<Buf>
    var next: array<nat>
    var prev: array<nat>
    var disk: seq<Block>
    ghost var order: seq<nat>

    ghost predicate Valid()
      reads this, bufs, next, prev
    {
      && bufs.Length == NBUF && next.Length == prev.Length == NBUF + 1 && next != prev
      && Permutation(order, NBUF) && Ring(next[..], prev[..], order)
    }

    /** The value the specification speaks about. */
    ghost function Contents(): (c: Cache)
      reads this, bufs, next, prev
      requires Valid()
      ensures WellFormed(c)
    {
      Cache(bufs[..], order, disk)
    }

    /** binit: each buffer in turn goes to the front of the list. */
    constructor (disk: seq<Block>, blank: Block)
      ensures Valid() && fresh(bufs) && fresh(next) && fresh(prev)
      ensures this.disk == disk
      ensures forall i | 0 <= i < NBUF :: bufs[i] == Buf(0, 0, false, false, 0, 0, blank)
    {
      this.disk := disk;
      bufs := new Buf[NBUF](_ => Buf(0, 0, false, false, 0, 0, blank));
      next := new nat[NBUF + 1](_ => HEAD);
      prev := new nat[NBUF + 1](_ => HEAD);
      order := [];
      new;
      var b := 0;
      while b < NBUF
        invariant 0 <= b <= NBUF && |order| == b
        invariant bufs.Length == NBUF && next.Length == prev.Length == NBUF + 1 && next != prev
        invariant fresh(bufs) && fresh(next) && fresh(prev)
        invariant this.disk == disk
        invariant forall i | 0 <= i < NBUF :: bufs[i] == Buf(0, 0, false, false, 0, 0, blank)
        invariant forall i | 0 <= i < b :: order[i] < b
        invariant forall i, j | 0 <= i < j < b :: order[i] != order[j]
        invariant Ring(next[..], prev[..], order)
      {
        ghost var n0, p0 := next[..], prev[..];
        assert Linked(next[..], prev[..], order, -1);
        next[b] := next[HEAD];
        prev[b] := HEAD;
        prev[next[HEAD]] := b;
        next[HEAD] := b;
        RingInsert(n0, p0, order, b, next[..], prev[..]);
        order := [b] + order;
        b := b + 1;
      }
    }

    /** bget's first walk, from the most recently used end. HEAD means not cached. */
    method Lookup(dev: nat, blockno: nat) returns (b: nat)
      requires Valid()
      ensures b == HEAD ==> !Cached(Contents(), dev, blockno)
      ensures b != HEAD ==> b < NBUF && Matches(bufs[b], dev, blockno)
    {
      b := next[HEAD];
      ghost var k := 0;
      assert Linked(next[..], prev[..], order, -1);
      while b != HEAD
        invariant 0 <= k <= NBUF && b == At(order, k)
        invariant forall j | 0 <= j < k :: !Matches(bufs[order[j]], dev, blockno)
        decreases NBUF - k
      {
        if bufs[b].dev == dev && bufs[b].blockno == blockno {
          return;
        }
        assert Linked(next[..], prev[..], order, k);
        b := next[b];
        k := k + 1;
      }
      EveryBuffer(Contents(), dev, blockno);
    }

    /** bget's second walk, from the least recently used end. HEAD means all are in use. */
    method FindUnused() returns (b: nat)
      requires Valid()
      ensures b == HEAD ==> forall i | 0 <= i < NBUF :: !Unused(bufs[i])
      ensures b != HEAD ==> exists k: nat :: VictimAt(Contents(), k) && order[k] == b
    {
      b := prev[HEAD];
      ghost var k := NBUF - 1;
      assert Linked(next[..], prev[..], order, k);
      while b != HEAD
        invariant -1 <= k < NBUF && b == At(order, k)
        invariant forall j | k < j < NBUF :: !Unused(bufs[order[j]])
        decreases k
      {
        if bufs[b].refcnt == 0 && !bufs[b].dirty {
          assert VictimAt(Contents(), k);
          return;
        }
        assert Linked(next[..], prev[..], order, k - 1);
        b := prev[b];
        k := k - 1;
      }
      EveryUnused(Contents());
    }

    /** bget's critical section: the cached buffer, or the least recently used one that is unused. */
    method BGet(dev: nat, blockno: nat) returns (r: GetResult)
      requires Valid()
      modifies bufs
      ensures Valid()
      ensures r.Got? ==> GetStep(old(Contents()), dev, blockno, Contents(), r.b)
      ensures r.OutOfBuffers? ==> NoBuffers(old(Contents()), dev, blockno) && Contents() == old(Contents())
    {
      ghost var c := Contents();
      var b := Lookup(dev, blockno);
      if b != HEAD {
        assert Matches(c.bufs[b], dev, blockno);
        bufs[b] := bufs[b].(refcnt := bufs[b].refcnt + 1);
        return Got(b);
      }
      b := FindUnused();
      if b != HEAD {
        bufs[b] := bufs[b].(dev := dev, blockno := blockno, valid := false, dirty := false, refcnt := 1);
        return Got(b);
      }
      return OutOfBuffers;
    }

    /** acquiresleep, once nobody else holds the lock. */
    method AcquireSleep(b: nat, pid: nat)
      requires Valid() && b < NBUF && bufs[b].owner == 0
      modifies bufs
      ensures Valid() && Contents() == old(Contents()).(bufs := old(bufs[..])[b := old(bufs[b]).(owner := pid)])
    {
      bufs[b] := bufs[b].(owner := pid);
    }

    /** iderw on the memory disk; an error stands for its panic. */
    method IdeRw(b: nat) returns (e: DiskError)
      requires Valid() && b < NBUF
      modifies this`disk, bufs
      ensures Valid() && e == DiskCheck(old(Contents()), b)
      ensures Contents() == if e == DiskOk then DiskSync(old(Contents()), b) else old(Contents())
      ensures var buf := old(bufs[b]);
              e == if buf.owner == 0 then NotLocked
                   else if buf.valid && !buf.dirty then NothingToDo
                   else if buf.dev != 1 then WrongDisk
                   else if buf.blockno >= |disk| then OutOfRange else DiskOk
      ensures e == DiskOk ==>
                && bufs[b].valid && !bufs[b].dirty && disk[bufs[b].blockno] == bufs[b].data
                && (old(bufs[b]).dirty ==> bufs[b] == old(bufs[b]).(valid := true, dirty := false))
                && (!old(bufs[b]).dirty ==> disk == old(disk))
    {
      var buf := bufs[b];
      if buf.owner == 0 { return NotLocked; }
      if buf.valid && !buf.dirty { return NothingToDo; }
      if buf.dev != ROOTDEV { return WrongDisk; }
      if buf.blockno >= |disk| { return OutOfRange; }
      if buf.dirty {
        bufs[b] := buf.(dirty := false, valid := true);
        disk := disk[buf.blockno := buf.data];
      } else {
        bufs[b] := buf.(data := disk[buf.blockno], valid := true);
      }
      return DiskOk;
    }

    /** bread's second half: the locked buffer is filled from the disk if need be. */
    method Fill(b: nat) returns (e: DiskError)
      requires Valid() && b < NBUF && bufs[b].owner > 0
      modifies this`disk, bufs
      ensures Valid()
      ensures e == if old(bufs[b]).valid then DiskOk else DiskCheck(old(Contents()), b)
      ensures Contents() == if !old(bufs[b]).valid && e == DiskOk then DiskSync(old(Contents()), b) else old(Contents())
    {
      e := DiskOk;
      if !bufs[b].valid {
        e := IdeRw(b);
      }
    }

    /** bread, when nobody has the buffer locked: bget, acquiresleep, and iderw if it is not valid. */
    method BRead(dev: nat, blockno: nat, pid: nat) returns (r: GetResult, e: DiskError)
      requires Valid() && pid > 0 && forall i | 0 <= i < NBUF :: bufs[i].dirty ==> bufs[i].valid
      requires forall i | 0 <= i < NBUF && (Matches(bufs[i], dev, blockno) || Unused(bufs[i])) :: bufs[i].owner == 0
      modifies this`disk, bufs
      ensures Valid() && disk == old(disk)
      ensures r.OutOfBuffers? <==> NoBuffers(old(Contents()), dev, blockno)
      ensures r.OutOfBuffers? ==> Contents() == old(Contents())
      ensures r.Got? ==>
                && r.b < NBUF && Matches(bufs[r.b], dev, blockno) && bufs[r.b].owner == pid && bufs[r.b].refcnt > 0
                && (forall i | 0 <= i < NBUF && i != r.b :: bufs[i] == old(bufs[i]))
                && var hit := Matches(old(bufs[r.b]), dev, blockno) && old(bufs[r.b]).valid;
                   && (e == DiskOk <==> hit || (dev == ROOTDEV && blockno < |disk|))
                   && (e == DiskOk ==>
                         && bufs[r.b].valid
                         && bufs[r.b].data == if hit then old(bufs[r.b]).data else disk[blockno])
    {
      e := DiskOk;
      r := BGet(dev, blockno);
      if r.Got? {
        AcquireSleep(r.b, pid);
        e := Fill(r.b);
      }
    }

    /** bwrite. The caller's changes to the data are already in the buffer. It panics if nobody holds the
        buffer, and goes ahead if somebody else does. */
    method BWrite(b: nat) returns (e: DiskError)
      requires Valid() && b < NBUF
      modifies this`disk, bufs
      ensures Valid() && order == old(order) && |disk| == |old(disk)|
      ensures e == NotLocked <==> old(bufs[b]).owner == 0
      ensures e == WrongDisk <==> old(bufs[b]).owner > 0 && old(bufs[b]).dev != ROOTDEV
      ensures e == OutOfRange <==>
                old(bufs[b]).owner > 0 && old(bufs[b]).dev == ROOTDEV && old(bufs[b]).blockno >= |disk|
      ensures e == DiskOk <==>
                old(bufs[b]).owner > 0 && old(bufs[b]).dev == ROOTDEV && old(bufs[b]).blockno < |disk|
      ensures e != DiskOk ==> disk == old(disk)
      ensures e == DiskOk ==>
                && disk[old(bufs[b]).blockno] == old(bufs[b]).data
                && (forall n | 0 <= n < |disk| && n != old(bufs[b]).blockno :: disk[n] == old(disk)[n])
                && bufs[b] == old(bufs[b]).(valid := true, dirty := false)
      ensures forall i | 0 <= i < NBUF && i != b :: bufs[i] == old(bufs[i])
    {
      if bufs[b].owner == 0 { return NotLocked; }
      bufs[b] := bufs[b].(dirty := true);
      e := IdeRw(b);
    }

    /** The relinking in brelse: take `b`, at place k, out of the ring and put it after the head. */
    method MoveFirst(b: nat, ghost k: int)
      requires Valid() && 0 <= k < NBUF && order[k] == b
      modifies this`order, next, prev
      ensures Valid() && order == MoveToFront(old(order), k)
    {
      ghost var n0, p0 := next[..], prev[..];
      assert Linked(n0, p0, order, k) && Linked(n0, p0, order, k - 1);
      prev[next[b]] := prev[b];
      next[prev[b]] := next[b];
      ghost var rest := order[..k] + order[k + 1..];
      ghost var n1, p1 := next[..], prev[..];
      assert Ring(n1, p1, rest) by { RingRemove(n0, p0, order, k, n1, p1); }
      assert Linked(n1, p1, rest, -1);
      next[b] := next[HEAD];
      prev[b] := HEAD;
      prev[next[HEAD]] := b;
      next[HEAD] := b;
      assert Ring(next[..], prev[..], [b] + rest) by { RingInsert(n1, p1, rest, b, next[..], prev[..]); }
      order := MoveToFront(order, k);
      assert order == [b] + rest;
    }

    /** releasesleep */
    method ReleaseSleep(b: nat)
      requires Valid() && b < NBUF
      modifies bufs
      ensures Valid() && Contents() == Unlock(old(Contents()), b)
    {
      bufs[b] := bufs[b].(owner := 0);
    }

    /** brelse's section under bcache.lock: drop the reference, and move an unreferenced buffer to the front. */
    method DropRef(b: nat)
      requires Valid() && b < NBUF && bufs[b].refcnt > 0
      modifies this`order, bufs, next, prev
      ensures Valid() && b in old(order) && Contents() == Unref(old(Contents()), b)
    {
      Reaches(order, NBUF, b);
      bufs[b] := bufs[b].(refcnt := bufs[b].refcnt - 1);
      if bufs[b].refcnt == 0 {
        MoveFirst(b, Place(order, b));
      }
    }

    /** brelse. False is its panic: nobody holds the buffer. */
    method BRelse(b: nat) returns (locked: bool)
      requires Valid() && b < NBUF && bufs[b].refcnt > 0
      modifies this`order, bufs, next, prev
      ensures Valid() && b in old(order)
      ensures locked <==> old(bufs[b]).owner > 0
      ensures Contents() == if locked then Unref(Unlock(old(Contents()), b), b) else old(Contents())
    {
      Reaches(order, NBUF, b);
      if bufs[b].owner == 0 { return false; }
      ReleaseSleep(b);
      DropRef(b);
      return true;
    }
  }

  lemma {:induction false} DistinctCount(order: seq<nat>, n: nat)
    requires n <= |order|
    requires forall i, j | 0 <= i < j < n :: order[i] != order[j]
    ensures |(set i | 0 <= i < n :: order[i])| == n
  {
    if n > 0 {
      DistinctCount(order, n - 1);
      assert (set i | 0 <= i < n :: order[i]) == (set i | 0 <= i < n - 1 :: order[i]) + {order[n - 1]};
    }
  }

  /** A permutation reaches every buffer. */
  lemma Reaches(order: seq<nat>, n: nat, b: nat)
    requires Permutation(order, n) && b < n
    ensures b in order
  {
    var seen := set i | 0 <= i < n :: order[i];
    DistinctCount(order, n);
    if b !in order {
      SubsetCount(seen, Below(n) - {b});
      assert false;
    }
  }

  lemma EveryBuffer(c: Cache, dev: nat, blockno: nat)
    requires WellFormed(c)
    requires forall j | 0 <= j < NBUF :: !Matches(c.bufs[c.order[j]], dev, blockno)
    ensures !Cached(c, dev, blockno)
  {
    forall i | 0 <= i < NBUF
      ensures !Matches(c.bufs[i], dev, blockno)
    {
      Reaches(c.order, NBUF, i);
    }
  }

  lemma EveryUnused(c: Cache)
    requires WellFormed(c)
    requires forall j | 0 <= j < NBUF :: !Unused(c.bufs[c.order[j]])
    ensures forall i | 0 <= i < NBUF :: !Unused(c.bufs[i])
  {
    forall i | 0 <= i < NBUF
      ensures !Unused(c.bufs[i])
    {
      Reaches(c.order, NBUF, i);
    }
  }
}
