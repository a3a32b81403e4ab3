/** The functions of log.c, working on the disk, the cached blocks and the in-memory header in place.
    `trace` records the block writes, so that CrashSafety can speak about every moment of a run. */
module LogDriver {
  import opened Disk
  import opened LogSpec
  import opened CrashSafety

  datatype LogError = NoError | TooBig | OutsideTransaction

  class Log {
    const L: Layout
    var disk: seq<Block>
    var view: seq<Block>        // what bread returns: the cached copy if there is one, else the disk
    var n: int                  // lh.n
    var block: array<int>       // lh.block
    var outstanding: int
    var committing: bool
    ghost var trace: seq<Write>

    ghost predicate Shape()
      reads this, block
    {
      && L.Valid() && |disk| == |view| == L.nblocks
      && block.Length == LOGSIZE && 0 <= n <= LOGSIZE && L.ListOk(block[..n])
    }

    /** Only pinned blocks, those in the list, may differ from the disk. */
    ghost predicate Valid()
      reads this, block
    {
      && Shape()
      && forall b | 0 <= b < L.nblocks && b !in block[..n] :: view[b] == disk[b]
    }

    /** bwrite of a buffer for block `b` that holds `data`. */
    method BWrite(b: nat, data: Block)
      requires Shape() && b < L.nblocks
      modifies this`disk, this`view, this`trace
      ensures disk == old(disk)[b := data] && view == old(view)[b := data]
      ensures trace == old(trace) + [Write(b, data)]
    {
      view := view[b := data];
      disk := disk[b := data];
      trace := trace + [Write(b, data)];
    }

    method WriteLog()
      requires Shape()
      modifies this`disk, this`view, this`trace
      ensures trace == old(trace) + LogWrites(L, old(view), block[..n])
      ensures disk == ApplyAll(old(disk), LogWrites(L, old(view), block[..n]))
      ensures view == ApplyAll(old(view), LogWrites(L, old(view), block[..n]))
    {
      ghost var ws := LogWrites(L, view, block[..n]);
      var tail := 0;
      while tail < n
        invariant 0 <= tail <= n && Shape()
        invariant trace == old(trace) + ws[..tail]
        invariant disk == ApplyAll(old(disk), ws[..tail])
        invariant view == ApplyAll(old(view), ws[..tail])
        invariant forall b | 0 <= b < L.nblocks && !(L.start < b < L.start + L.size) :: view[b] == old(view[b])
      {
        assert L.Home(block[..n][tail]);
        var data := view[block[tail]];
        BWrite(L.start + tail + 1, data);
        assert ws[..tail + 1][..tail] == ws[..tail];
        tail := tail + 1;
      }
      assert ws[..tail] == ws;
    }
  
    method WriteHead()
      requires Shape()
      modifies this`disk, this`view, this`trace
      ensures trace == old(trace) + [Write(L.start, Encode(old(view[L.start]), block[..n]))]
      ensures disk == old(disk)[L.start := Encode(old(view[L.start]), block[..n])]
      ensures view == old(view)[L.start := Encode(old(view[L.start]), block[..n])]
    {
      var hb: Block := view[L.start][0 := n];
      var i := 0;
      while i < n
        invariant 0 <= i <= n
        invariant hb == [n] + block[..i] + view[L.start][1 + i..]
      {
        hb := hb[1 + i := block[i]];
        i := i + 1;
      }
      BWrite(L.start, hb);
    }

    method InstallTrans()
      requires Shape()
      modifies this`disk, this`view, this`trace
      ensures trace == old(trace) + InstallWrites(L, old(view), block[..n])
      ensures disk == ApplyAll(old(disk), InstallWrites(L, old(view), block[..n]))
      ensures view == ApplyAll(old(view), InstallWrites(L, old(view), block[..n]))
    {
      ghost var lh := block[..n];
      ghost var ws := InstallWrites(L, view, lh);
      var tail := 0;
      while tail < n
        invariant 0 <= tail <= n && Shape()
        invariant trace == old(trace) + ws[..tail]
        invariant disk == ApplyAll(old(disk), ws[..tail])
        invariant view == ApplyAll(old(view), ws[..tail])
        invariant forall b | L.start <= b < L.start + L.size :: view[b] == old(view[b])
      {
        assert L.Home(lh[tail]);
        var data := view[L.start + tail + 1];
        BWrite(block[tail], data);
        assert ws[..tail + 1][..tail] == ws[..tail];
        tail := tail + 1;
      }
      assert ws[..tail] == ws;
    }

    method ReadHead()
      requires L.HeaderOk(view) && block.Length == LOGSIZE
      modifies this`n, block
      ensures n == view[L.start][0] && block[..n] == Decode(view[L.start])
    {
      var hb := view[L.start];
      n := hb[0];
      var i := 0;
      while i < n
        invariant 0 <= i <= n == hb[0] && block[..i] == hb[1..1 + i]
      {
        block[i] := hb[1 + i];
        i := i + 1;
      }
    }

    /** Run at boot, when nothing is cached yet. */
    method RecoverFromLog()
      requires L.HeaderOk(disk) && view == disk && block.Length == LOGSIZE
      modifies this`disk, this`view, this`trace, this`n, block
      ensures Valid() && n == 0 && view == disk
      ensures trace == old(trace) + RecoverWrites(L, old(disk))
      ensures disk == Recovered(L, old(disk))
    {
      ReadHead();
      ghost var ws := InstallWrites(L, disk, block[..n]);
      InstallTrans();
      ApplyAllAt(old(disk), ws, L.start, -1);
      assert disk == view;
      n := 0;
      assert block[..n] == [];
      ghost var w := Write(L.start, Encode(view[L.start], []));
      WriteHead();
      ApplyAllAppend(old(disk), ws, [w]);
    }
  
    /** The four phases of commit(). */
    method CommitBlocks()
      requires Valid() && disk[L.start][0] == 0 && n > 0
      modifies this`disk, this`view, this`trace, this`n
      ensures n == 0 && trace == old(trace) + CommitWrites(L, old(disk), old(view), old(block[..n]))
      ensures var lh, head := old(block[..n]), Encode(old(disk)[L.start], old(block[..n]));
              var logged, homes, clear := LogWrites(L, old(view), lh), HomeWrites(L, old(view), lh), Encode(head, []);
              && disk == ApplyAll(ApplyAll(old(disk), logged)[L.start := head], homes)[L.start := clear]
              && view == ApplyAll(ApplyAll(old(view), logged)[L.start := head], homes)[L.start := clear]
    {
      ghost var lh, d0, v0 := block[..n], disk, view;
      assert L.start !in lh by { HeaderNotListed(L, lh); }
      LogBlocks(L, v0, lh, d0[L.start]);
      WriteLog();
      WriteHead();
      HeadKept(L, view, v0, lh);
      InstallTrans();
      n := 0;
      assert block[..n] == [];
      WriteHead();
      Regroup(old(trace), LogWrites(L, v0, lh), [Write(L.start, Encode(d0[L.start], lh))],
              HomeWrites(L, v0, lh), [Write(L.start, Encode(Encode(d0[L.start], lh), []))]);
    }

    /** commit(): the writes sent to the disk are CommitWrites, in that order; the transaction ends
        up at home; and a reader sees no change. */
    method Commit()
      requires Valid() && disk[L.start][0] == 0
      modifies this`disk, this`view, this`trace, this`n
      ensures Valid() && n == 0 && view == disk && L.HeaderOk(disk) && disk[L.start][0] == 0
      ensures SameHome(L, view, old(view))
      ensures old(n) == 0 ==> trace == old(trace)
      ensures old(n) > 0 ==>
                && trace == old(trace) + CommitWrites(L, old(disk), old(view), old(block[..n]))
                && disk == ApplyAll(old(disk), CommitWrites(L, old(disk), old(view), old(block[..n])))
    {
      ghost var lh := block[..n];
      if n > 0 {
        ghost var d0, v0 := disk, view;
        CommitBlocks();
        CommitTrace(L, d0, v0, lh, disk, view);
      } else {
        assert lh == [];
      }
    }

    /** log_write's two tests, made before log.lock is taken. */
    method LogTest() returns (r: LogError)
      ensures r == if FullLog(L, n) then TooBig else if outstanding < 1 then OutsideTransaction else NoError
    {
      if n >= LOGSIZE || n >= L.size - 1 {
        return TooBig;
      }
      if outstanding < 1 {
        return OutsideTransaction;
      }
      return NoError;
    }

    /** The rest of log_write, under the lock, for block `b` whose buffer the caller has filled with
        `data`: whatever the tests saw, the list may have grown since. It stays inside the log exactly
        when there is still room. */
    method LogAppend(b: nat, data: Block)
      requires Valid() && L.Home(b) && (n < LOGSIZE || b in block[..n])
      modifies this`view, this`n, block
      ensures view == old(view)[b := data] && 0 <= n <= LOGSIZE && block[..n] == Absorb(old(block[..n]), b)
      ensures Valid() <==> b in old(block[..n]) || old(n) + 1 < L.size
    {
      view := view[b := data];
      ghost var lh := block[..n];
      var i := 0;
      while i < n && block[i] != b
        invariant 0 <= i <= n && b !in block[..i]
      {
        i := i + 1;
      }
      block[i] := b;
      if i == n {
        n := n + 1;
        assert block[..n] == lh + [b];
      } else {
        assert block[..n] == lh && lh[i] == b;
      }
      assert b in block[..n];
    }

    /** log_write when no other operation appends between test and lock. */
    method LogWrite(b: nat, data: Block) returns (r: LogError)
      requires Valid() && L.Home(b)
      modifies this`view, this`n, block
      ensures r == if FullLog(L, old(n)) then TooBig
                   else if outstanding < 1 then OutsideTransaction else NoError
      ensures r == NoError ==>
                && Valid() && view == old(view)[b := data]
                && block[..n] == Absorb(old(block[..n]), b)
    {
      r := LogTest();
      if r == NoError {
        LogAppend(b, data);
      }
    }

    /** One turn of begin_op's loop; false means the caller sleeps and tries again. */
    method TryBeginOp() returns (begun: bool)
      requires Valid() && 0 <= outstanding
      modifies this`outstanding
      ensures begun <==> !committing && RoomForOp(n, old(outstanding))
      ensures outstanding == if begun then old(outstanding) + 1 else old(outstanding)
    {
      if committing {
        begun := false;
      } else if n + (outstanding + 1) * MAXOPBLOCKS > LOGSIZE {
        begun := false;
      } else {
        outstanding := outstanding + 1;
        begun := true;
      }
    }

    /** end_op: the last operation out commits everybody's blocks. */
    method EndOp()
      requires Valid() && 1 <= outstanding && !committing && disk[L.start][0] == 0
      modifies this`disk, this`view, this`trace, this`n, this`outstanding, this`committing
      ensures Valid() && !committing && outstanding == old(outstanding) - 1 && disk[L.start][0] == 0
      ensures SameHome(L, view, old(view))
      ensures old(outstanding) > 1 ==> disk == old(disk) && trace == old(trace) && n == old(n)
      ensures old(outstanding) == 1 ==> n == 0 && view == disk
      ensures old(outstanding) == 1 && old(n) > 0 ==>
                && trace == old(trace) + CommitWrites(L, old(disk), old(view), old(block[..n]))
                && disk == ApplyAll(old(disk), CommitWrites(L, old(disk), old(view), old(block[..n])))
    {
      outstanding := outstanding - 1;
      if outstanding == 0 {
        committing := true;
        Commit();
        committing := false;
      }
    }
  }

  /** After write_log and write_head, install_trans copies the cached contents home. */
  lemma LogBlocks(L: Layout, view: seq<Block>, lh: seq<int>, h: Block)
    requires L.Valid() && |view| == L.nblocks && L.ListOk(lh)
    ensures var logged := ApplyAll(view, LogWrites(L, view, lh));
            && logged[L.start] == view[L.start]
            && InstallWrites(L, logged[L.start := Encode(h, lh)], lh) == HomeWrites(L, view, lh)
  {
    var logged := ApplyAll(view, LogWrites(L, view, lh));
    ApplyAllAt(view, LogWrites(L, view, lh), L.start, -1);
    AllLogBlocks(L, view, lh, logged);
    HeaderApart(L, logged, view, lh, Encode(h, lh));
  }

  lemma AllLogBlocks(L: Layout, view: seq<Block>, lh: seq<int>, logged: seq<Block>)
    requires L.Valid() && |view| == L.nblocks && L.ListOk(lh) && logged == ApplyAll(view, LogWrites(L, view, lh))
    ensures forall i | 0 <= i < |lh| :: logged[L.start + i + 1] == view[lh[i]]
  {
    forall i | 0 <= i < |lh|
      ensures logged[L.start + i + 1] == view[lh[i]]
    {
      var b := L.start + i + 1;
      LogBlock(L, view, lh, logged, i, b);
    }
  }

  lemma HeaderApart(L: Layout, logged: seq<Block>, view: seq<Block>, lh: seq<int>, head: Block)
    requires L.Valid() && |logged| == |view| == L.nblocks && L.ListOk(lh)
    requires forall i | 0 <= i < |lh| :: logged[L.start + i + 1] == view[lh[i]]
    ensures InstallWrites(L, logged[L.start := head], lh) == HomeWrites(L, view, lh)
  {
    InstallsView(L, logged[L.start := head], view, lh);
  }

  lemma LogBlock(L: Layout, view: seq<Block>, lh: seq<int>, logged: seq<Block>, i: nat, b: nat)
    requires L.Valid() && |view| == L.nblocks && L.ListOk(lh) && logged == ApplyAll(view, LogWrites(L, view, lh))
    requires i < |lh| && b == L.start + i + 1
    ensures logged[b] == view[lh[i]]
  {
    ApplyAllRange(view, LogWrites(L, view, lh), L.start + 1, i, b);
  }

  lemma Regroup(t: seq<Write>, a: seq<Write>, b: seq<Write>, c: seq<Write>, d: seq<Write>)
    ensures t + a + b + c + d == t + ((a + b) + (c + d))
  {
  }

  /** Installing leaves the header alone. */
  lemma HeadKept(L: Layout, d: seq<Block>, view: seq<Block>, lh: seq<int>)
    requires L.Valid() && |d| == |view| == L.nblocks && L.ListOk(lh)
    ensures ApplyAll(d, HomeWrites(L, view, lh))[L.start] == d[L.start]
  {
    ApplyAllAt(d, HomeWrites(L, view, lh), L.start, -1);
  }

  /** The four phases of commit(), on the disk and on the cached blocks alike, add up. */
  lemma CommitTrace(L: Layout, d: seq<Block>, view: seq<Block>, lh: seq<int>, d': seq<Block>, v': seq<Block>)
    requires L.HeaderOk(d) && |view| == |d| && L.ListOk(lh)
    requires forall b | 0 <= b < |d| && b !in lh :: view[b] == d[b]
    requires var head := Encode(d[L.start], lh);
             var clear := Encode(head, []);
             && d' == ApplyAll(ApplyAll(d, LogWrites(L, view, lh))[L.start := head],
                HomeWrites(L, view, lh))[L.start := clear]
             && v' == ApplyAll(ApplyAll(view, LogWrites(L, view, lh))[L.start := head],
                HomeWrites(L, view, lh))[L.start := clear]
    ensures d' == ApplyAll(d, CommitWrites(L, d, view, lh)) && v' == d'
    ensures SameHome(L, d', view) && L.HeaderOk(d') && d'[L.start][0] == 0
  {
    var ws := CommitWrites(L, d, view, lh);
    Phases(L, d, view, lh, d[L.start]);
    Phases(L, view, view, lh, d[L.start]);
    SameOutcome(L, d, view, lh, ws);
    CommitFinished(L, d, view, lh);
  }

  /** On the disk and on the cached blocks alike: where they differ, commit() writes. */
  lemma SameOutcome(L: Layout, d: seq<Block>, view: seq<Block>, lh: seq<int>, ws: seq<Write>)
    requires L.HeaderOk(d) && |view| == |d| && L.ListOk(lh) && ws == CommitWrites(L, d, view, lh)
    requires forall b | 0 <= b < |d| && b !in lh :: view[b] == d[b]
    ensures ApplyAll(view, ws) == ApplyAll(d, ws)
  {
    forall b: nat | b < |d|
      ensures ApplyAll(view, ws)[b] == ApplyAll(d, ws)[b]
    {
      SameBlock(L, d, view, lh, ws, b);
    }
  }

  lemma SameBlock(L: Layout, d: seq<Block>, view: seq<Block>, lh: seq<int>, ws: seq<Write>, b: nat)
    requires L.HeaderOk(d) && b < |d| == |view| && L.ListOk(lh) && ws == CommitWrites(L, d, view, lh)
    requires b !in lh ==> view[b] == d[b]
    ensures ApplyAll(view, ws)[b] == ApplyAll(d, ws)[b]
  {
    if b in lh {
      var i :| 0 <= i < |lh| && lh[i] == b;
      assert ws[|lh| + 1 + i].blockno == b;
    }
    SameWrites(d, view, ws, b);
  }

  lemma Phases(L: Layout, e: seq<Block>, view: seq<Block>, lh: seq<int>, h: Block)
    requires L.Valid() && |e| == |view| == L.nblocks && L.ListOk(lh)
    ensures var head := Encode(h, lh);
            var clear := Encode(head, []);
            ApplyAll(e, (LogWrites(L, view, lh) + [Write(L.start, head)])
                     + (HomeWrites(L, view, lh) + [Write(L.start, clear)]))
            == ApplyAll(ApplyAll(e, LogWrites(L, view, lh))[L.start := head], HomeWrites(L, view, lh))[L.start := clear]
  {
    TwoPhases(e, LogWrites(L, view, lh), Write(L.start, Encode(h, lh)),
              HomeWrites(L, view, lh), Write(L.start, Encode(Encode(h, lh), [])));
  }

  lemma TwoPhases(e: seq<Block>, a: seq<Write>, v: Write, b: seq<Write>, w: Write)
    requires InRange(a, |e|) && InRange(b, |e|) && v.blockno < |e| && w.blockno < |e|
    ensures InRange((a + [v]) + (b + [w]), |e|)
    ensures ApplyAll(e, (a + [v]) + (b + [w]))
         == ApplyAll(ApplyAll(e, a)[v.blockno := v.data], b)[w.blockno := w.data]
  {
    ApplyAllPush(e, a, v);
    ApplyAllPush(ApplyAll(e, a + [v]), b, w);
    ApplyAllAppend(e, a + [v], b + [w]);
  }
}
