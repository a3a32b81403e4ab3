/** What a write costs: the free blocks it takes and the blocks it hands to log_write. */
module FsSpace {
  import opened FsBytes
  import opened FsState
  import opened FsFile

  // Free blocks

  ghost function Free(g: Geometry, st: St): set<nat>
    requires g.Valid() && |st.blocks| == g.size
  {
    set b: nat | b < g.size && !BitSet(g, st.blocks, b)
  }

  /** An allocation takes one. */
  lemma AllocTakes(g: Geometry, st: St, owner: map<nat, Slot>, s: Slot, b: nat)
    requires Owned(g, st, owner) && IsSlot(st, s)
    requires s.idx > 12 ==> st.inodes[s.inum].addrs[12] != 0
    requires b < g.size && !BitSet(g, st.blocks, b)
    ensures |AllocInto(g, st, s, b).blocks| == g.size && |Free(g, AllocInto(g, st, s, b))| == |Free(g, st)| - 1
  {
    var st' := AllocInto(g, st, s, b);
    forall c: nat | c < g.size
      ensures BitSet(g, st'.blocks, c) <==> c == b || BitSet(g, st.blocks, c)
    {
      AllocIntoBits(g, st, owner, s, b, c);
    }
    assert Free(g, st') == Free(g, st) - {b};
  }

  lemma NoneFree(g: Geometry, st: St)
    requires g.Valid() && |st.blocks| == g.size && forall c: nat | c < g.size :: BitSet(g, st.blocks, c)
    ensures Free(g, st) == {}
  {
  }

  lemma SomeFree(g: Geometry, st: St, b: nat)
    requires g.Valid() && |st.blocks| == g.size && b < g.size && !BitSet(g, st.blocks, b)
    ensures |Free(g, st)| > 0
  {
    assert b in Free(g, st);
  }

  /** Data blocks hold no bitmap. */
  lemma PatchTakesNone(g: Geometry, st: St, addr: nat, o: nat, data: seq<byte>)
    requires Shape(g, st) && g.data <= addr < g.size && o + |data| <= 1024
    ensures Free(g, PatchBlock(g, st, addr, o, data)) == Free(g, st)
  {
    var st' := PatchBlock(g, st, addr, o, data);
    forall c: nat | c < g.size
      ensures BitSet(g, st'.blocks, c) <==> BitSet(g, st.blocks, c)
    {
      SameBits(g, st.blocks, st'.blocks, c);
    }
  }

  /** The blocks bmap must allocate to get a file's block: none, it, or it and the indirect block. */
  function MapCost(g: Geometry, st: St, inum: nat, bn: nat): nat
    requires Shape(g, st) && inum in st.inodes && bn < 268
  {
    if SlotVal(g, st, DataSlot(inum, bn)) != 0 then 0
    else if bn >= 12 && st.inodes[inum].addrs[12] == 0 then 2
    else 1
  }

  /** The blocks a file of nb0 blocks needs to become one of nb, the indirect block included. */
  function Need(nb0: nat, nb: nat): nat
    requires nb0 <= nb
  {
    nb - nb0 + if nb0 <= 12 < nb then 1 else 0
  }

  lemma NeedGrows(nb0: nat, a: nat, b: nat)
    requires nb0 <= a <= b
    ensures Need(nb0, a) <= Need(nb0, b)
  {
  }

  /** The blocks that writing n bytes at `off` must add to a file of this size. */
  function Added(size: nat, off: nat, n: nat): nat {
    Need(Blocks(size), Max(Blocks(size), Blocks(off + n)))
  }

  /** What a turn of writei's loop costs: the next block of the file, if it has to be made. */
  lemma TurnCost(g: Geometry, st: St, inum: nat, nb0: nat, nb: nat, cb: nat, nb': nat)
    requires Shape(g, st) && inum in st.inodes && Prefix(g, st, inum, nb) && nb0 <= nb && cb <= nb && cb < 268
    requires nb' == if cb < nb then nb else nb + 1
    ensures Need(nb0, nb') == Need(nb0, nb) + MapCost(g, st, inum, cb)
  {
  }

  // Logged blocks, on a disk with one bitmap block

  /** What bmap logs: the bitmap, the new block, which it zeroes, and the indirect block it is entered in. */
  function MapLog(g: Geometry, st: St, st': St, inum: nat, bn: nat, addr: nat): set<nat>
    requires Shape(g, st) && Shape(g, st') && inum in st.inodes && inum in st'.inodes && bn < 268
  {
    if SlotVal(g, st, DataSlot(inum, bn)) != 0 then {}
    else {g.bmapstart, addr} + if bn >= 12 then {st'.inodes[inum].addrs[12]} else {}
  }

  /** bmap(inum, bn) has led from st to st' and found the file's block at `addr`. */
  ghost predicate Maps(g: Geometry, st: St, l: set<nat>, st': St, owner': map<nat, Slot>, l': set<nat>, inum: nat,
                       bn: nat, addr: nat) {
    && Owned(g, st', owner') && MapEffect(g, st, st', inum, bn, addr)
    && |Free(g, st')| == |Free(g, st)| - MapCost(g, st, inum, bn)
    && (g.size <= 8192 ==> l' == l + MapLog(g, st, st', inum, bn, addr))
  }

  /** Both ways through bmap's second half. */
  lemma IndirectMaps(g: Geometry, st: St, owner: map<nat, Slot>, l: set<nat>, st1: St, l1: set<nat>,
                     st2: St, owner2: map<nat, Slot>, l2: set<nat>, inum: nat, bn: nat, x: nat, b: nat)
    requires Owned(g, st, owner) && inum in st.inodes && 12 <= bn < 268
    requires if st.inodes[inum].addrs[12] != 0 then st1 == st && l1 == l
             else
               && x < g.size && !BitSet(g, st.blocks, x) && st1 == AllocInto(g, st, Slot(inum, 12), x)
               && |Free(g, st1)| == |Free(g, st)| - 1 && (g.size <= 8192 ==> l1 == l + {g.bmapstart, x})
    requires Shape(g, st1) && IsSlot(st1, DataSlot(inum, bn)) && x == st1.inodes[inum].addrs[12] != 0
    requires Owned(g, st2, owner2) && st2.inodes == st1.inodes
    requires if SlotVal(g, st1, DataSlot(inum, bn)) != 0
             then st2 == st1 && l2 == l1 && b == SlotVal(g, st1, DataSlot(inum, bn))
             else
               && b < g.size && !BitSet(g, st1.blocks, b) && st2 == AllocInto(g, st1, DataSlot(inum, bn), b)
               && |Free(g, st2)| == |Free(g, st1)| - 1 && (g.size <= 8192 ==> l2 == l1 + {g.bmapstart, b, x})
    ensures Maps(g, st, l, st2, owner2, l2, inum, bn, b)
  {
    IndirectEffect(g, st, owner, st1, st2, inum, bn, x, b);
    if st.inodes[inum].addrs[12] == 0 {
      AllocIntoAt(g, st, owner, Slot(inum, 12), x, DataSlot(inum, bn));
    }
    IndirectSum(st.inodes[inum].addrs[12] == 0, SlotVal(g, st, DataSlot(inum, bn)) == 0, g.bmapstart, x, b,
                |Free(g, st)|, |Free(g, st1)|, |Free(g, st2)|, l, l1, l2, g.size <= 8192);
  }

  /** The numbers and sets behind it: two allocations, one, or none. */
  lemma IndirectSum(newTable: bool, newBlock: bool, bm: nat, x: nat, b: nat, f: int, f1: int, f2: int,
                    l: set<nat>, l1: set<nat>, l2: set<nat>, small: bool)
    requires newTable ==> newBlock
    requires if newTable then f1 == f - 1 && (small ==> l1 == l + {bm, x}) else f1 == f && l1 == l
    requires if newBlock then f2 == f1 - 1 && (small ==> l2 == l1 + {bm, b, x}) else f2 == f1 && l2 == l1
    ensures f2 == f - if !newBlock then 0 else if newTable then 2 else 1
    ensures small ==> l2 == l + if newBlock then {bm, b} + {x} else {}
  {
  }

  /** The disk blocks of `count` of a file's blocks, from block `first` on. */
  ghost function DataBlocks(g: Geometry, st: St, inum: nat, first: nat, count: nat): set<nat>
    requires Shape(g, st) && inum in st.inodes && first + count <= 268
  {
    set bn: nat | first <= bn < first + count :: SlotVal(g, st, DataSlot(inum, bn))
  }

  /** What writei's loop logs on the way from nb0 to nb blocks. */
  ghost function LoopLog(g: Geometry, st: St, inum: nat, first: nat, count: nat, nb0: nat, nb: nat): set<nat>
    requires Shape(g, st) && inum in st.inodes && first + count <= 268
  {
    DataBlocks(g, st, inum, first, count)
    + (if nb > nb0 then {g.bmapstart} else {})
    + (if nb > Max(nb0, 12) then {st.inodes[inum].addrs[12]} else {})
  }

  /** One more block, on a state in which the others' slots are as they were. */
  lemma DataBlocksStep(g: Geometry, st: St, st': St, inum: nat, first: nat, count: nat, cb: nat, addr: nat, count': nat)
    requires Shape(g, st) && Shape(g, st') && inum in st.inodes && inum in st'.inodes
    requires cb == first + count < 268 && count' == count + 1
    requires forall bn: nat | bn < 268 && bn != cb ::
               SlotVal(g, st', DataSlot(inum, bn)) == SlotVal(g, st, DataSlot(inum, bn))
    requires SlotVal(g, st', DataSlot(inum, cb)) == addr
    ensures DataBlocks(g, st', inum, first, count') == DataBlocks(g, st, inum, first, count) + {addr}
  {
    var a, b := DataBlocks(g, st, inum, first, count), DataBlocks(g, st', inum, first, count');
    forall v | v in a
      ensures v in b
    {
      var bn: nat :| first <= bn < first + count && SlotVal(g, st, DataSlot(inum, bn)) == v;
      assert SlotVal(g, st', DataSlot(inum, bn)) == v;
    }
    forall v | v in b
      ensures v in a + {addr}
    {
      var bn: nat :| first <= bn < first + count' && SlotVal(g, st', DataSlot(inum, bn)) == v;
      if bn != cb {
        assert SlotVal(g, st, DataSlot(inum, bn)) == v;
      }
    }
  }

  /** bmap and memmove leave the file's other slots alone. */
  lemma TurnSlots(g: Geometry, st: St, st1: St, owner1: map<nat, Slot>, inum: nat, cb: nat, addr: nat, co: nat,
                  data: seq<byte>, st2: St)
    requires Owned(g, st1, owner1) && MapEffect(g, st, st1, inum, cb, addr) && addr in owner1 && owner1[addr].idx != 12
    requires co + |data| <= 1024 && st2 == PatchBlock(g, st1, addr, co, data)
    ensures Shape(g, st2)
    ensures forall bn: nat | bn < 268 ::
              SlotVal(g, st2, DataSlot(inum, bn)) == if bn == cb then addr else SlotVal(g, st, DataSlot(inum, bn))
  {
    PatchKeeps(g, st1, owner1, addr, co, data);
    forall bn: nat | bn < 268
      ensures SlotVal(g, st2, DataSlot(inum, bn)) == if bn == cb then addr else SlotVal(g, st, DataSlot(inum, bn))
    {
      assert IsSlot(st1, DataSlot(inum, bn)) && IsSlot(st, DataSlot(inum, bn));
    }
  }

  /** The sets behind one turn: `d` and `d'` are the data blocks before and after. */
  lemma LogSets(l0: set<nat>, l: set<nat>, l1: set<nat>, d: set<nat>, d': set<nat>, bm: nat, x: nat, x': nat, addr: nat,
                nb0: nat, nb: nat, cb: nat, nb': nat)
    requires nb0 <= nb && cb <= nb && nb' == (if cb < nb then nb else nb + 1) && d' == d + {addr}
    requires l == l0 + (d + (if nb > nb0 then {bm} else {}) + (if nb > Max(nb0, 12) then {x} else {}))
    requires l1 == l + if cb < nb then {} else {bm, addr} + if cb >= 12 then {x'} else {}
    requires nb > 12 ==> x' == x
    ensures l1 + {addr} == l0 + (d' + (if nb' > nb0 then {bm} else {}) + (if nb' > Max(nb0, 12) then {x'} else {}))
  {
  }

  lemma LoopLogStep(g: Geometry, l0: set<nat>, l: set<nat>, l1: set<nat>, st: St, st1: St, owner1: map<nat, Slot>,
                    inum: nat, first: nat, count: nat, count': nat, nb0: nat, nb: nat, cb: nat, nb': nat, addr: nat,
                    co: nat, data: seq<byte>)
    requires Shape(g, st) && inum in st.inodes && Prefix(g, st, inum, nb) && nb0 <= nb && cb <= nb && cb < 268
    requires nb' == (if cb < nb then nb else nb + 1) && cb == first + count && count' == count + 1
    requires Owned(g, st1, owner1) && MapEffect(g, st, st1, inum, cb, addr) && addr in owner1 && owner1[addr].idx != 12
    requires co + |data| <= 1024
    requires l == l0 + LoopLog(g, st, inum, first, count, nb0, nb) && l1 == l + MapLog(g, st, st1, inum, cb, addr)
    ensures var st2 := PatchBlock(g, st1, addr, co, data);
            Shape(g, st2) && l1 + {addr} == l0 + LoopLog(g, st2, inum, first, count', nb0, nb')
  {
    var st2 := PatchBlock(g, st1, addr, co, data);
    assert Shape(g, st2) && DataBlocks(g, st2, inum, first, count') == DataBlocks(g, st, inum, first, count)
           + {addr} by {
      TurnSlots(g, st, st1, owner1, inum, cb, addr, co, data, st2);
      DataBlocksStep(g, st, st2, inum, first, count, cb, addr, count');
    }
    LogSets(l0, l, l1, DataBlocks(g, st, inum, first, count), DataBlocks(g, st2, inum, first, count'), g.bmapstart,
            st.inodes[inum].addrs[12], st2.inodes[inum].addrs[12], addr, nb0, nb, cb, nb');
  }

  // A whole write

  /** How many of a file's blocks the bytes [off, off + n) lie in. */
  function Touched(off: nat, n: nat): nat {
    if n == 0 then 0 else (off + n - 1) / 1024 - off / 1024 + 1
  }

  lemma TouchedFits(off: nat, n: nat)
    requires off + n <= 274432
    ensures n == 0 || off / 1024 + Touched(off, n) == Blocks(off + n) <= 268
    ensures off / 1024 + Touched(off, n) <= 268
  {
  }

  /** writei's loop has made nb blocks of nb0 and touched `count` of them from block `first` on. */
  ghost predicate Accounts(g: Geometry, free0: int, l0: set<nat>, l: set<nat>, st: St, inum: nat,
                           first: nat, count: nat, nb0: nat, nb: nat)
  {
    && Shape(g, st) && inum in st.inodes && first + count <= 268 && nb0 <= nb
    && |Free(g, st)| + Need(nb0, nb) == free0
    && (g.size <= 8192 ==> l == l0 + LoopLog(g, st, inum, first, count, nb0, nb))
  }

  lemma AccountsStart(g: Geometry, l: set<nat>, st: St, inum: nat, first: nat, nb0: nat)
    requires Shape(g, st) && inum in st.inodes && first <= 268
    ensures Accounts(g, |Free(g, st)|, l, l, st, inum, first, 0, nb0, nb0)
  {
    assert DataBlocks(g, st, inum, first, 0) == {};
  }

  lemma AccountsStep(g: Geometry, free0: int, l0: set<nat>, l: set<nat>, l1: set<nat>, st: St, st1: St,
                     owner1: map<nat, Slot>, inum: nat,
                     first: nat, count: nat, count': nat, nb0: nat, nb: nat, cb: nat, nb': nat, addr: nat, co: nat,
                     data: seq<byte>)
    requires Accounts(g, free0, l0, l, st, inum, first, count, nb0, nb) && Prefix(g, st, inum, nb) && cb <= nb
    requires cb < 268
    requires nb' == (if cb < nb then nb else nb + 1) && cb == first + count && count' == count + 1
    requires Owned(g, st1, owner1) && MapEffect(g, st, st1, inum, cb, addr) && co + |data| <= 1024
    requires |Free(g, st1)| == |Free(g, st)| - MapCost(g, st, inum, cb)
    requires g.size <= 8192 ==> l1 == l + MapLog(g, st, st1, inum, cb, addr)
    ensures addr < g.size
    ensures Accounts(g, free0, l0, l1 + {addr}, PatchBlock(g, st1, addr, co, data), inum, first, count', nb0, nb')
  {
    MappedBlock(g, st, st1, owner1, inum, nb, cb, addr);
    PatchKeeps(g, st1, owner1, addr, co, data);
    PatchTakesNone(g, st1, addr, co, data);
    TurnCost(g, st, inum, nb0, nb, cb, nb');
    if g.size <= 8192 {
      LoopLogStep(g, l0, l, l1, st, st1, owner1, inum, first, count, count', nb0, nb, cb, nb', addr, co, data);
    }
  }

  /** A block that is still to be written into lies below the file's end to be. */
  lemma BlockBelow(off: nat, tot: nat, n: nat, cb: nat, co: nat, nb0: nat, nb: nat)
    requires off + tot == 1024 * cb + co && tot < n && Covers(nb0, nb, off + tot)
    ensures cb <= nb && (cb < nb ==> nb <= Max(nb0, Blocks(off + n)))
    ensures (cb == nb ==> nb + 1 <= Max(nb0, Blocks(off + n)))
  {
  }

  /** The blocks a write of n bytes at `off` logs, seen in the state it leaves. */
  ghost function WriteLog(g: Geometry, iblock: nat, st: St, inum: nat, size: nat, off: nat, n: nat): set<nat>
    requires Shape(g, st) && inum in st.inodes && off + n <= 274432
  {
    TouchedFits(off, n);
    LoopLog(g, st, inum, off / 1024, Touched(off, n), Blocks(size), Max(Blocks(size), Blocks(off + n)))
    + if off + n > size then {iblock} else {}
  }

  /** No two slots hold the same block. */
  lemma {:induction false} DataBlocksCount(g: Geometry, st: St, owner: map<nat, Slot>, inum: nat, first: nat,
                                           count: nat)
    requires Owned(g, st, owner) && inum in st.inodes && first + count <= 268
    requires forall bn: nat | first <= bn < first + count :: SlotVal(g, st, DataSlot(inum, bn)) != 0
    ensures |DataBlocks(g, st, inum, first, count)| == count
    ensures forall v | v in DataBlocks(g, st, inum, first, count) ::
              v in owner && owner[v].inum == inum && owner[v].idx != 12
  {
    if count > 0 {
      var c := count - 1;
      DataBlocksCount(g, st, owner, inum, first, c);
      var cb := first + c;
      var v := SlotVal(g, st, DataSlot(inum, cb));
      DataBlocksStep(g, st, st, inum, first, c, cb, v, count);
      assert IsSlot(st, DataSlot(inum, cb));
      forall bn: nat | first <= bn < cb
        ensures SlotVal(g, st, DataSlot(inum, bn)) != v
      {
        assert IsSlot(st, DataSlot(inum, bn));
      }
      assert v !in DataBlocks(g, st, inum, first, c);
    }
  }

  /** How many blocks a write of n bytes at `off` logs: data, bitmap, indirect block, inode. */
  function LogSize(size: nat, off: nat, n: nat): nat {
    var nb0, nb := Blocks(size), Max(Blocks(size), Blocks(off + n));
    Touched(off, n)
    + (if nb > nb0 then 1 else 0) + (if nb > Max(nb0, 12) then 1 else 0) + (if off + n > size then 1 else 0)
  }

  /** The four kinds of block are different ones. */
  lemma LogSizeExact(g: Geometry, st: St, owner: map<nat, Slot>, inum: nat, first: nat, count: nat, nb0: nat, nb: nat,
                     grown: bool, iblock: nat)
    requires Owned(g, st, owner) && inum in st.inodes && Prefix(g, st, inum, nb) && iblock < g.bmapstart
    requires first + count <= 268 && (count == 0 || first + count <= nb)
    ensures |LoopLog(g, st, inum, first, count, nb0, nb) + if grown then {iblock} else {}|
         == count + (if nb > nb0 then 1 else 0) + (if nb > Max(nb0, 12) then 1 else 0) + if grown then 1 else 0
  {
    DataApart(g, st, owner, inum, first, count, nb, iblock);
    CountApart(DataBlocks(g, st, inum, first, count), g.bmapstart, st.inodes[inum].addrs[12], iblock,
               nb > nb0, nb > Max(nb0, 12), grown);
  }

  lemma WriteLogSize(g: Geometry, iblock: nat, st0: St, st: St, owner: map<nat, Slot>, inum: nat, off: nat,
                     src: seq<byte>)
    requires WriteResult(g, st0, st, owner, inum, off, src) && off + |src| <= 274432 && iblock < g.bmapstart
    ensures |WriteLog(g, iblock, st, inum, st0.inodes[inum].size, off, |src|)|
            == LogSize(st0.inodes[inum].size, off, |src|)
  {
    ReadsBack(g, st0, st, owner, inum, off, src);
    assert NoHoles(g, st, inum);
    PrefixLogSize(g, iblock, st, owner, inum, st0.inodes[inum].size, off, |src|);
  }

  lemma PrefixLogSize(g: Geometry, iblock: nat, st: St, owner: map<nat, Slot>, inum: nat, size: nat, off: nat, n: nat)
    requires Owned(g, st, owner) && inum in st.inodes && off + n <= 274432 && iblock < g.bmapstart
    requires Prefix(g, st, inum, Blocks(Max(size, off + n)))
    ensures |WriteLog(g, iblock, st, inum, size, off, n)| == LogSize(size, off, n)
  {
    BlocksMax(size, off + n);
    TouchedFits(off, n);
    LogSizeExact(g, st, owner, inum, off / 1024, Touched(off, n), Blocks(size), Max(Blocks(size), Blocks(off + n)),
                 off + n > size, iblock);
  }

  lemma LoopLogSame(g: Geometry, st: St, inum: nat, cur: nat, first: nat, count: nat, nb0: nat, nb: nat)
    requires Shape(g, st) && inum in st.inodes && first + count <= 268
    ensures Shape(g, Resize(st, inum, cur))
    ensures LoopLog(g, Resize(st, inum, cur), inum, first, count, nb0, nb)
            == LoopLog(g, st, inum, first, count, nb0, nb)
  {
    var st' := Resize(st, inum, cur);
    assert Shape(g, st');
    forall bn: nat | bn < 268
      ensures SlotVal(g, st', DataSlot(inum, bn)) == SlotVal(g, st, DataSlot(inum, bn))
    {
    }
    assert DataBlocks(g, st', inum, first, count) == DataBlocks(g, st, inum, first, count);
  }

  /** A write of n bytes at `off` to a file of this size has taken the free blocks it must add and, on a
      disk with one bitmap block, has logged exactly WriteLog. */
  ghost predicate Cost(g: Geometry, iblock: nat, free0: int, l0: set<nat>, l: set<nat>, st: St, inum: nat, size: nat,
                       off: nat, n: nat) {
    && Shape(g, st) && inum in st.inodes && off + n <= 274432
    && |Free(g, st)| == free0 - Added(size, off, n)
    && (g.size <= 8192 ==> l == l0 + WriteLog(g, iblock, st, inum, size, off, n))
  }

  /** writei's end: with the inode block, the accounts give the whole write's cost. */
  lemma AccountsEnd(g: Geometry, free0: int, l0: set<nat>, l: set<nat>, l': set<nat>, st: St, st': St, inum: nat,
                    size: nat, off: nat, n: nat, cur: nat, nb: nat, iblock: nat)
    requires cur == off + n <= 274432 && nb == Max(Blocks(size), Blocks(cur))
    requires Accounts(g, free0, l0, l, st, inum, off / 1024, Touched(off, n), Blocks(size), nb)
    requires Prefix(g, st, inum, nb)
    requires if cur > size then l' == l + {iblock} && st' == Resize(st, inum, cur) else l' == l && st' == st
    ensures Cost(g, iblock, free0, l0, l', st', inum, size, off, n)
  {
    if cur > size {
      AccountsResize(g, free0, l0, l, st, inum, cur, off / 1024, Touched(off, n), Blocks(size), nb);
    }
    WriteLogIs(g, iblock, st', inum, size, off, n, cur, nb);
  }

  lemma WriteLogIs(g: Geometry, iblock: nat, st: St, inum: nat, size: nat, off: nat, n: nat, cur: nat, nb: nat)
    requires Shape(g, st) && inum in st.inodes && cur == off + n <= 274432 && nb == Max(Blocks(size), Blocks(cur))
    requires off / 1024 + Touched(off, n) <= 268
    ensures WriteLog(g, iblock, st, inum, size, off, n)
         == LoopLog(g, st, inum, off / 1024, Touched(off, n), Blocks(size), nb) + if cur > size then {iblock} else {}
  {
  }

  lemma AccountsResize(g: Geometry, free0: int, l0: set<nat>, l: set<nat>, st: St, inum: nat, cur: nat,
                       first: nat, count: nat, nb0: nat, nb: nat)
    requires Accounts(g, free0, l0, l, st, inum, first, count, nb0, nb) && Prefix(g, st, inum, nb)
    ensures var st' := Resize(st, inum, cur);
            Accounts(g, free0, l0, l, st', inum, first, count, nb0, nb) && Prefix(g, st', inum, nb)
  {
    LoopLogSame(g, st, inum, cur, first, count, nb0, nb);
    ResizePrefix(g, st, inum, cur, nb);
  }

  lemma ResizePrefix(g: Geometry, st: St, inum: nat, cur: nat, nb: nat)
    requires Shape(g, st) && inum in st.inodes && Prefix(g, st, inum, nb)
    ensures var st' := Resize(st, inum, cur); Shape(g, st') && Prefix(g, st', inum, nb) && Free(g, st') == Free(g, st)
  {
    var st' := Resize(st, inum, cur);
    assert Shape(g, st');
    forall bn: nat | bn < 268
      ensures SlotVal(g, st', DataSlot(inum, bn)) == SlotVal(g, st, DataSlot(inum, bn))
    {
    }
  }

  lemma DataApart(g: Geometry, st: St, owner: map<nat, Slot>, inum: nat, first: nat, count: nat, nb: nat, iblock: nat)
    requires Owned(g, st, owner) && inum in st.inodes && Prefix(g, st, inum, nb) && iblock < g.bmapstart
    requires first + count <= 268 && (count == 0 || first + count <= nb)
    ensures var d, x := DataBlocks(g, st, inum, first, count), st.inodes[inum].addrs[12];
            && |d| == count && g.bmapstart !in d && iblock !in d
            && (nb > 12 ==> x !in d && x >= g.data)
  {
    DataBlocksCount(g, st, owner, inum, first, count);
    if nb > 12 {
      IndirectOwned(g, st, owner, inum);
    }
  }

  lemma CountApart(d: set<nat>, bm: nat, x: nat, i: nat, p: bool, q: bool, r: bool)
    requires bm !in d && i !in d && i != bm && (q ==> x !in d && x != bm && x != i)
    ensures |d + (if p then {bm} else {}) + (if q then {x} else {}) + (if r then {i} else {})|
         == |d| + (if p then 1 else 0) + (if q then 1 else 0) + if r then 1 else 0
  {
  }

  /** A filewrite chunk of 6656 bytes lies in 8 blocks at most, and does in 8 from offset 513 on in a block. */
  lemma ChunkTouches(off: nat, n: nat)
    requires n <= 6656
    ensures Touched(off, n) <= 8
    ensures Touched(off, 6656) == 8 <==> off % 1024 > 512
  {
  }

  /** A chunk logs more than MAXOPBLOCKS = 10 blocks, then 11, exactly when it lies in 8 blocks and
      extends the file by a block that the indirect block lists. */
  lemma ChunkTooBig(size: nat, off: nat, n: nat)
    requires off <= size && n <= 6656
    ensures LogSize(size, off, n) <= 11
    ensures LogSize(size, off, n) > 10 <==> Touched(off, n) == 8 && Blocks(off + n) > Max(Blocks(size), 12)
  {
    ChunkTouches(off, n);
  }

  /** Appending 6656 bytes to a file of 12801. */
  lemma ElevenBlocks()
    ensures Touched(12801, 6656) == 8 && Blocks(12801) == 13 && Blocks(12801 + 6656) == 20
    ensures LogSize(12801, 12801, 6656) == 11
  {
  }

  // filewrite

  lemma Slices(c: seq<byte>, i: nat, j: nat, k: nat)
    requires i <= j <= k <= |c|
    ensures c[i..j] + c[j..k] == c[i..k]
    ensures i == 0 ==> c[..j] + c[j..k] == c[..k]
  {
  }

  lemma BlocksMax(a: nat, b: nat)
    ensures Blocks(Max(a, b)) == Max(Blocks(a), Blocks(b))
  {
  }

  /** Two writes end to end add what one would. */
  lemma AddedSplit(size: nat, off: nat, a: nat, size1: nat, off1: nat, b: nat)
    requires off <= size && size1 == Max(size, off + a) && off1 == off + a
    ensures Added(size, off, a) + Added(size1, off1, b) == Added(size, off, a + b)
  {
    BlocksMax(size, off + a);
  }

  lemma AddedGrows(size: nat, off: nat, a: nat, b: nat)
    requires a <= b
    ensures Added(size, off, a) <= Added(size, off, b)
  {
  }

  /** How much of n bytes filewrite's chunks of 6656 write before one of them is refused. */
  function Accepted(size: nat, off: nat, n: nat): nat {
    if off > size || off > 274432 then 0 else if off + n <= 274432 then n else (274432 - off) / 6656 * 6656
  }

  /** A chunk that is not refused is part of that. */
  lemma ChunkAccepted(size: nat, off: nat, n: nat, i: nat, n1: nat)
    requires off <= size && i % 6656 == 0 && i < n && n1 == (if n - i > 6656 then 6656 else n - i)
    requires off + i + n1 <= 274432
    ensures i + n1 <= Accepted(size, off, n) && (i + n1 == n || (i + n1) % 6656 == 0)
  {
    if off + n > 274432 {
      var k, q := i / 6656, (274432 - off) / 6656;
      assert i == 6656 * k && n1 == 6656;
      assert (i + n1) % 6656 == 0 && k + 1 <= q;
    }
  }

  /** A refused chunk is the first byte beyond it. */
  lemma ChunkRefused(size: nat, off: nat, n: nat, i: nat, n1: nat)
    requires off <= size <= 274432 && i % 6656 == 0 && i < n && n1 == (if n - i > 6656 then 6656 else n - i)
    requires off + i + n1 > 274432 && off + i <= 274432
    ensures i == Accepted(size, off, n)
  {
    var k, q := i / 6656, (274432 - off) / 6656;
    assert i == 6656 * k && k == q;
  }

  /** filewrite's loop, i of n bytes on, in numbers: `free` of `free0` blocks are left. */
  ghost predicate ChunkCount(size: nat, off: nat, n: nat, i: nat, free0: int, free: int) {
    && off <= size <= 274432 && i <= n && off + i <= 274432
    && (i == n || i % 6656 == 0) && i <= Accepted(size, off, n)
    && free + Added(size, off, i) == free0
  }

  lemma ChunkCountStep(size: nat, off: nat, n: nat, i: nat, free0: int, free: int, size1: nat, off1: nat, n1: nat,
                       next: nat, free': int)
    requires ChunkCount(size, off, n, i, free0, free) && i < n && size1 == Max(size, off + i) && off1 == off + i
    requires n1 == (if n - i > 6656 then 6656 else n - i) && next == i + n1 && off1 + n1 <= 274432
    requires free' == free - Added(size1, off1, n1)
    ensures ChunkCount(size, off, n, next, free0, free')
  {
    ChunkAccepted(size, off, n, i, n1);
    AddedSplit(size, off, i, size1, off1, n1);
  }

  /** A chunk finds the disk full only if the accepted bytes do not all fit. */
  lemma ChunkPanics(size: nat, off: nat, n: nat, i: nat, free0: int, free: int, size1: nat, off1: nat, n1: nat)
    requires ChunkCount(size, off, n, i, free0, free) && i < n && size1 == Max(size, off + i) && off1 == off + i
    requires n1 == (if n - i > 6656 then 6656 else n - i) && off1 + n1 <= 274432 && free < Added(size1, off1, n1)
    ensures free0 < Added(size, off, Accepted(size, off, n))
  {
    ChunkAccepted(size, off, n, i, n1);
    AddedSplit(size, off, i, size1, off1, n1);
    AddedGrows(size, off, i + n1, Accepted(size, off, n));
  }

  /** filewrite's loop has written the first i of n bytes, in whole chunks. */
  ghost predicate ChunksDone(g: Geometry, st0: St, st: St, owner: map<nat, Slot>, inum: nat, size: nat, off: nat,
                             buf: seq<byte>, i: nat, n: nat) {
    && Shape(g, st0) && inum in st0.inodes && size == st0.inodes[inum].size && n <= |buf|
    && Shape(g, st) && inum in st.inodes && st.inodes[inum].size == Max(size, off + i)
    && ChunkCount(size, off, n, i, |Free(g, st0)|, |Free(g, st)|)
    && Chunks(g, st0, st, owner, inum, off, buf[..i])
  }

  lemma ChunksStart(g: Geometry, st: St, owner: map<nat, Slot>, inum: nat, size: nat, off: nat, buf: seq<byte>, n: nat)
    requires FsOk(g, st, owner) && inum in st.inodes && n <= |buf| && off <= st.inodes[inum].size == size
    ensures ChunksDone(g, st, st, owner, inum, size, off, buf, 0, n)
  {
    assert NoHoles(g, st, inum);
    BlocksMax(off, size);
    assert Added(size, off, 0) == 0;
  }

  lemma ChunksStep(g: Geometry, st0: St, st1: St, own1: map<nat, Slot>, st2: St, own2: map<nat, Slot>, inum: nat,
                   size: nat, off: nat, off1: nat,
                   buf: seq<byte>, i: nat, n: nat, n1: nat, next: nat, data: seq<byte>)
    requires ChunksDone(g, st0, st1, own1, inum, size, off, buf, i, n) && i < n
    requires n1 == (if n - i > 6656 then 6656 else n - i) && next == i + n1 && data == buf[i..next] && off1 == off + i
    requires WriteResult(g, st1, st2, own2, inum, off1, data) && off1 + n1 <= 274432
    requires |Free(g, st2)| == |Free(g, st1)| - Added(st1.inodes[inum].size, off1, n1)
    ensures ChunksDone(g, st0, st2, own2, inum, size, off, buf, next, n)
  {
    assert ChunkCount(size, off, n, next, |Free(g, st0)|, |Free(g, st2)|) by {
      ChunkCountStep(size, off, n, i, |Free(g, st0)|, |Free(g, st1)|, st1.inodes[inum].size, off1, n1, next,
                     |Free(g, st2)|);
    }
    assert Chunks(g, st0, st2, own2, inum, off, buf[..next]) by {
      Slices(buf, 0, i, next);
      NextChunk(g, st0, st1, own1, st2, own2, inum, off, off1, buf[..i], data, buf[..next]);
    }
    assert st2.inodes[inum].size == Max(size, off + next) by {
      ReadsBack(g, st1, st2, own2, inum, off1, data);
    }
  }
}
