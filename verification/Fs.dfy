/** fs.c working in place: the block allocator, the block map, reading and writing files. */
module Fs {
  import opened FsBytes
  import opened FsState
  import opened FsFile
  import opened FsSpace
  import opened FsTrunc

  datatype Found = Found(b: nat) | OutOfBlocks
  datatype Mapped = Block(addr: nat) | MapFull | OutOfRange

  /** readi's and writei's results: a byte count, -1, or the kernel's "balloc: out of blocks". */
  datatype Io = Count(n: nat) | Refused | Panic

  function Min(a: nat, b: nat): nat { if a < b then a else b }

  class FileSystem {
    const g: Geometry
    const inodestart: nat
    var fs: St                      // disk blocks as the running transaction sees them, and in-memory inodes
    var dinodes: map<nat, Inode>    // their copies in the inode blocks
    ghost var owner: map<nat, Slot>
    ghost var logged: set<nat>      // blocks handed to log_write in this operation

    /** balloc's search: the first block whose bit is clear. */
    method FindFree() returns (r: Found)
      requires g.Valid() && |fs.blocks| == g.size
      ensures r.Found? ==> r.b < g.size && !BitSet(g, fs.blocks, r.b) && forall c: nat | c < r.b ::
                BitSet(g, fs.blocks, c)
      ensures r.OutOfBlocks? ==> forall c: nat | c < g.size :: BitSet(g, fs.blocks, c)
    {
      var b := 0;
      while b < g.size
        invariant b % 8192 == 0
        invariant forall c: nat | c < b && c < g.size :: BitSet(g, fs.blocks, c)
      {
        var bp := fs.blocks[g.BBlock(b)];
        var bi := 0;
        while bi < 8192 && b + bi < g.size
          invariant 0 <= bi <= 8192
          invariant forall c: nat | c < b + bi && c < g.size :: BitSet(g, fs.blocks, c)
        {
          BitAt(g, fs.blocks, b, bi);
          if bp[bi / 8] & Mask(bi % 8) == 0 {
            return Found(b + bi);
          }
          bi := bi + 1;
        }
        b := b + 8192;
      }
      return OutOfBlocks;
    }

    /** balloc: mark the first free block in the bitmap and zero it. */
    method BAlloc() returns (r: Found)
      requires Shape(g, fs)
      modifies this`fs, this`logged
      ensures r.OutOfBlocks? ==> fs == old(fs) && logged == old(logged)
      ensures r.OutOfBlocks? ==> forall c: nat | c < g.size :: BitSet(g, fs.blocks, c)
      ensures r.Found? ==>
                && r.b < g.size && !BitSet(g, old(fs.blocks), r.b)
                && (forall c: nat | c < r.b :: BitSet(g, old(fs.blocks), c))
                && fs == Balloc(g, old(fs), r.b)
                && logged == old(logged) + {g.BBlock(r.b), r.b}
    {
      r := FindFree();
      if r.Found? {
        var n := g.BBlock(r.b);
        var i := r.b % 8192;
        var x := fs.blocks[n][i / 8];
        fs := St(fs.blocks[n := fs.blocks[n][i / 8 := x | Mask(i % 8)]], fs.inodes);
        logged := logged + {n};
        fs := St(fs.blocks[r.b := Zero()], fs.inodes);
        logged := logged + {r.b};
      }
    }
  
    /** `slot = balloc()`: in the inode, or in the indirect block, which is then logged. */
    method AllocSlot(s: Slot) returns (r: Found)
      requires Owned(g, fs, owner) && IsSlot(fs, s) && SlotVal(g, fs, s) == 0
      requires s.idx > 12 ==> fs.inodes[s.inum].addrs[12] != 0
      modifies this`fs, this`owner, this`logged
      ensures r.OutOfBlocks? ==> fs == old(fs) && owner == old(owner) && logged == old(logged)
      ensures r.OutOfBlocks? <==> |Free(g, old(fs))| == 0
      ensures s.idx > 12 ==> fs.inodes == old(fs.inodes)
      ensures r.Found? ==>
                && r.b < g.size && !BitSet(g, old(fs.blocks), r.b)
                && fs == AllocInto(g, old(fs), s, r.b) && owner == old(owner)[r.b := s]
                && Owned(g, fs, owner) && |Free(g, fs)| == |Free(g, old(fs))| - 1
                && logged == old(logged) + {g.BBlock(r.b), r.b}
                             + if s.idx > 12 then {old(fs.inodes)[s.inum].addrs[12]} else {}
    {
      ghost var st := fs;
      r := BAlloc();
      if r.Found? {
        ghost var st1 := fs;
        AllocOwned(g, st, owner, s, r.b);
        AllocTakes(g, st, owner, s, r.b);
        SomeFree(g, st, r.b);
        Store(s, r.b);
        assert fs == Put(g, st1, s, r.b);
        owner := owner[r.b := s];
      } else {
        NoneFree(g, fs);
      }
    }

    /** Store a block number in a slot. */
    method Store(s: Slot, v: nat)
      requires Shape(g, fs) && IsSlot(fs, s) && v < g.size
      requires s.idx > 12 ==> fs.inodes[s.inum].addrs[12] != 0
      modifies this`fs, this`logged
      ensures fs == Put(g, old(fs), s, v)
      ensures logged == old(logged) + if s.idx > 12 then {old(fs.inodes)[s.inum].addrs[12]} else {}
    {
      var ino := fs.inodes[s.inum];
      if s.idx <= 12 {
        fs := St(fs.blocks, fs.inodes[s.inum := Inode(ino.addrs[s.idx := v], ino.size)]);
      } else {
        var x := ino.addrs[12];
        fs := St(fs.blocks[x := SetWord(fs.blocks[x], s.idx - 13, v)], fs.inodes);
        logged := logged + {x};
      }
    }

    /** What bmap promises about the block it returns. */
    twostate predicate MapsTo(inum: nat, bn: nat, addr: nat)
      reads this
    {
      Maps(g, old(fs), old(logged), fs, owner, logged, inum, bn, addr)
    }

    method BMapDirect(inum: nat, bn: nat) returns (r: Mapped)
      requires Owned(g, fs, owner) && inum in fs.inodes && bn < 12
      modifies this`fs, this`owner, this`logged
      ensures !r.OutOfRange? && (r.MapFull? <==> |Free(g, old(fs))| < MapCost(g, old(fs), inum, bn))
      ensures r.Block? ==> MapsTo(inum, bn, r.addr)
      ensures SlotVal(g, old(fs), DataSlot(inum, bn)) != 0 ==>
                r.Block? && fs == old(fs) && owner == old(owner) && logged == old(logged)
    {
      var addr := fs.inodes[inum].addrs[bn];
      if addr == 0 {
        var f := AllocSlot(Slot(inum, bn));
        if f.OutOfBlocks? { return MapFull; }
        FillEffect(g, old(fs), old(owner), inum, bn, f.b);
        addr := f.b;
      } else {
        SameEffect(g, fs, owner, inum, bn);
      }
      return Block(addr);
    }

    /** The indirect block, allocated if necessary. */
    method Indirect(inum: nat) returns (f: Found)
      requires Owned(g, fs, owner) && inum in fs.inodes
      modifies this`fs, this`owner, this`logged
      ensures old(fs.inodes)[inum].addrs[12] != 0 ==>
                f.Found? && fs == old(fs) && owner == old(owner) && logged == old(logged)
      ensures f.Found? && old(fs.inodes)[inum].addrs[12] == 0 ==>
                && f.b < g.size && !BitSet(g, old(fs.blocks), f.b)
                && fs == AllocInto(g, old(fs), Slot(inum, 12), f.b)
      ensures f.Found? ==> f.b == fs.inodes[inum].addrs[12] != 0 && Owned(g, fs, owner)
      ensures f.OutOfBlocks? <==> old(fs.inodes)[inum].addrs[12] == 0 && |Free(g, old(fs))| == 0
      ensures f.Found? ==> |Free(g, fs)| == |Free(g, old(fs))| - if old(fs.inodes)[inum].addrs[12] == 0 then 1 else 0
      ensures f.Found? && g.size <= 8192 ==>
                logged == old(logged) + if old(fs.inodes)[inum].addrs[12] == 0 then {g.bmapstart, f.b} else {}
    {
      var x := fs.inodes[inum].addrs[12];
      if x == 0 {
        f := AllocSlot(Slot(inum, 12));
      } else {
        f := Found(x);
      }
    }

    /** Entry bn - 12 of the indirect block, filled if necessary. */
    method Entry(inum: nat, bn: nat) returns (f: Found)
      requires Owned(g, fs, owner) && inum in fs.inodes && 12 <= bn < 268 && fs.inodes[inum].addrs[12] != 0
      modifies this`fs, this`owner, this`logged
      ensures fs.inodes == old(fs.inodes)
      ensures SlotVal(g, old(fs), DataSlot(inum, bn)) != 0 ==>
                && f == Found(SlotVal(g, old(fs), DataSlot(inum, bn)))
                && fs == old(fs) && owner == old(owner) && logged == old(logged)
      ensures f.Found? && SlotVal(g, old(fs), DataSlot(inum, bn)) == 0 ==>
                && f.b < g.size && !BitSet(g, old(fs.blocks), f.b)
                && fs == AllocInto(g, old(fs), DataSlot(inum, bn), f.b)
      ensures f.Found? ==> Owned(g, fs, owner)
      ensures f.OutOfBlocks? <==> SlotVal(g, old(fs), DataSlot(inum, bn)) == 0 && |Free(g, old(fs))| == 0
      ensures f.Found? ==>
                |Free(g, fs)| == |Free(g, old(fs))| - if SlotVal(g, old(fs), DataSlot(inum, bn)) == 0 then 1 else 0
      ensures f.Found? && g.size <= 8192 && SlotVal(g, old(fs), DataSlot(inum, bn)) == 0 ==>
                logged == old(logged) + {g.bmapstart, f.b, fs.inodes[inum].addrs[12]}
    {
      var addr := Word(fs.blocks[fs.inodes[inum].addrs[12]], bn - 12);
      if addr == 0 {
        f := AllocSlot(DataSlot(inum, bn));
      } else {
        f := Found(addr);
      }
    }

    method BMapIndirect(inum: nat, bn: nat) returns (r: Mapped)
      requires Owned(g, fs, owner) && inum in fs.inodes && 12 <= bn < 268
      modifies this`fs, this`owner, this`logged
      ensures !r.OutOfRange? && (r.MapFull? <==> |Free(g, old(fs))| < MapCost(g, old(fs), inum, bn))
      ensures r.Block? ==> MapsTo(inum, bn, r.addr)
      ensures SlotVal(g, old(fs), DataSlot(inum, bn)) != 0 ==>
                r.Block? && fs == old(fs) && owner == old(owner) && logged == old(logged)
    {
      ghost var st, own, l := fs, owner, logged;
      var x := Indirect(inum);
      if x.OutOfBlocks? { return MapFull; }
      ghost var st1, l1 := fs, logged;
      if st.inodes[inum].addrs[12] == 0 {
        AllocIntoAt(g, st, own, Slot(inum, 12), x.b, DataSlot(inum, bn));
      }
      var f := Entry(inum, bn);
      if f.OutOfBlocks? { return MapFull; }
      IndirectMaps(g, st, own, l, st1, l1, fs, owner, logged, inum, bn, x.b, f.b);
      return Block(f.b);
    }

    /** bmap: the address of the file's bn-th block, allocating it, and an indirect block, if missing. */
    method BMap(inum: nat, bn: nat) returns (r: Mapped)
      requires Owned(g, fs, owner) && inum in fs.inodes
      modifies this`fs, this`owner, this`logged
      ensures r.OutOfRange? <==> bn >= 268
      ensures r.MapFull? <==> bn < 268 && |Free(g, old(fs))| < MapCost(g, old(fs), inum, bn)
      ensures r.Block? ==> MapsTo(inum, bn, r.addr)
      // the first twelve addresses are in the inode, the others in the block the thirteenth names
      ensures r.Block? ==>
                && inum in fs.inodes && |fs.inodes[inum].addrs| == 13
                && (bn < 12 ==> fs.inodes[inum].addrs[bn] == r.addr)
                && (bn >= 12 ==>
                      && 0 < fs.inodes[inum].addrs[12] < |fs.blocks|
                      && Word(fs.blocks[fs.inodes[inum].addrs[12]], bn - 12) == r.addr)
      ensures bn < 268 && SlotVal(g, old(fs), DataSlot(inum, bn)) != 0 ==>
                r.Block? && fs == old(fs) && owner == old(owner) && logged == old(logged)
    {
      if bn < 12 {
        r := BMapDirect(inum, bn);
      } else if bn - 12 < 256 {
        r := BMapIndirect(inum, bn);
      } else {
        r := OutOfRange;
      }
    }

    /** Between operations: the file system is in order, the inode blocks agree with the cache, and they
        come before the bitmap. */
    ghost predicate Valid()
      reads this
    {
      && FsOk(g, fs, owner) && dinodes == fs.inodes
      && forall i | i in fs.inodes :: i / 16 + inodestart < g.bmapstart
    }

    /** memmove into a buffer, then log_write. */
    method MoveInto(addr: nat, o: nat, data: seq<byte>)
      requires Shape(g, fs) && addr < g.size && o + |data| <= 1024
      modifies this`fs, this`logged
      ensures fs == PatchBlock(g, old(fs), addr, o, data) && logged == old(logged) + {addr}
    {
      fs := St(fs.blocks[addr := Patch(fs.blocks[addr], o, data)], fs.inodes);
      logged := logged + {addr};
    }

    /** One turn of writei's loop: bmap, then memmove of the next m bytes to offset co of block cb. */
    method WriteTurn(inum: nat, cb: nat, co: nat, src: seq<byte>, tot: nat, m: nat, tot': nat,
                     ghost st0: St, ghost off: nat, ghost nb0: nat, ghost nb: nat, ghost nb': nat,
                     ghost free0: int, ghost l0: set<nat>, ghost first: nat, ghost count: nat, ghost count': nat)
      returns (r: Mapped)
      requires Progress(g, st0, fs, owner, inum, off, tot, src, nb0, nb) && nb' == (if cb < nb then nb else nb + 1)
      requires Accounts(g, free0, l0, logged, fs, inum, first, count, nb0, nb) && cb == first + count
      requires count' == count + 1
      requires off + tot == 1024 * cb + co && cb <= nb && cb < 268 && 0 < m && tot' == tot + m <= |src|
      requires co + m <= 1024
      modifies this`fs, this`owner, this`logged
      ensures r.Block? ==> Progress(g, st0, fs, owner, inum, off, tot', src, nb0, nb')
      ensures r.Block? ==> Accounts(g, free0, l0, logged, fs, inum, first, count', nb0, nb')
      ensures !r.Block? <==> free0 < Need(nb0, nb')
    {
      TurnCost(g, fs, inum, nb0, nb, cb, nb');
      r := BMap(inum, cb);
      if r.Block? {
        ghost var data := src[tot..tot'];
        ProgressStep(g, st0, old(fs), old(owner), fs, owner, inum, off, tot, src, nb0, nb, nb', m, tot', cb, co, r.addr,
                     data);
        AccountsStep(g, free0, l0, old(logged), logged, old(fs), fs, owner, inum, first, count, count', nb0, nb, cb,
                     nb', r.addr, co, data);
        MoveInto(r.addr, co, src[tot..tot']);
      }
    }

    /** writei's loop. False means the disk is full and the kernel panics. */
    method WriteLoop(inum: nat, off: nat, src: seq<byte>, ghost size: nat) returns (ok: bool, ghost nb: nat)
      requires FsOk(g, fs, owner) && inum in fs.inodes && off <= fs.inodes[inum].size == size && off + |src| <= 274432
      modifies this`fs, this`owner, this`logged
      ensures ok <==> Added(size, off, |src|) <= |Free(g, old(fs))|
      ensures ok ==> Progress(g, old(fs), fs, owner, inum, off, |src|, src, Blocks(size), nb)
      ensures ok ==>
                Accounts(g, |Free(g, old(fs))|, old(logged), logged, fs, inum, off / 1024, Touched(off, |src|),
                         Blocks(size), nb)
    {
      ghost var st0, free0, l0, first := fs, |Free(g, fs)|, logged, off / 1024;
      ghost var nb0 := Blocks(size);
      ghost var nb1 := Max(nb0, Blocks(off + |src|));
      ProgressStart(g, st0, owner, inum, off, src);
      AccountsStart(g, l0, st0, inum, first, nb0);
      nb := nb0;
      ghost var count := 0;
      var tot := 0;
      while tot < |src|
        invariant 0 <= tot <= |src| && AtBoundary(off, tot, |src|) && count == Touched(off, tot)
        invariant Progress(g, st0, fs, owner, inum, off, tot, src, nb0, nb)
        invariant Accounts(g, free0, l0, logged, fs, inum, first, count, nb0, nb)
      {
        var cb, co := (off + tot) / 1024, (off + tot) % 1024;
        var m := Min(|src| - tot, 1024 - co);
        var next := tot + m;
        TurnEnd(off, tot, |src|, cb, co, m, next);
        BlockBelow(off, tot, |src|, cb, co, nb0, nb);
        ghost var nb' := if cb < nb then nb else nb + 1;
        ghost var count' := count + 1;
        var r := WriteTurn(inum, cb, co, src, tot, m, next, st0, off, nb0, nb, nb', free0, l0, first, count, count');
        if !r.Block? {
          NeedGrows(nb0, nb', nb1);
          return false, nb;
        }
        nb, count := nb', count';
        tot := next;
      }
      CoversBlocks(size, nb, off + |src|);
      return true, nb;
    }

    /** `ip->size = off; iupdate(ip)`: the new size goes into the inode, and the inode to its block. */
    method SetSize(inum: nat, cur: nat, ghost st0: St, ghost off: nat, ghost src: seq<byte>)
      requires inum in fs.inodes && inum in st0.inodes && dinodes == st0.inodes
      requires WriteResult(g, st0, Resize(fs, inum, cur), owner, inum, off, src)
      requires st0.inodes[inum := Resize(fs, inum, cur).inodes[inum]] == Resize(fs, inum, cur).inodes
      modifies this`fs, this`dinodes, this`logged
      ensures WriteResult(g, st0, fs, owner, inum, off, src) && dinodes == fs.inodes
      ensures logged == old(logged) + {inum / 16 + inodestart} && fs == Resize(old(fs), inum, cur)
    {
      fs := Resize(fs, inum, cur);
      dinodes := dinodes[inum := fs.inodes[inum]];
      logged := logged + {inum / 16 + inodestart};
    }

    /** writei's end: if the file has grown, its inode gets the new size and goes to the inode block. */
    method EndWrite(inum: nat, off: nat, src: seq<byte>, cur: nat,
                    ghost st0: St, ghost owner0: map<nat, Slot>, ghost size: nat, ghost nb: nat)
      requires FsOk(g, st0, owner0) && inum in st0.inodes && off <= st0.inodes[inum].size == size
      requires cur == off + |src| <= 274432
      requires Progress(g, st0, fs, owner, inum, off, |src|, src, Blocks(size), nb) && dinodes == st0.inodes
      modifies this`fs, this`dinodes, this`logged
      ensures WriteResult(g, st0, fs, owner, inum, off, src) && dinodes == fs.inodes
      ensures inum in old(fs.inodes)
      ensures if cur > size
              then logged == old(logged) + {inum / 16 + inodestart} && fs == Resize(old(fs), inum, cur)
              else logged == old(logged) && fs == old(fs)
    {
      if cur > fs.inodes[inum].size {
        GrownFinished(g, st0, owner0, fs, owner, inum, off, src, nb, cur);
        SetSize(inum, cur, st0, off, src);
      } else {
        SameSizeFinished(g, st0, owner0, fs, owner, inum, off, src, nb);
      }
    }

    /** The work of writei, past its tests. */
    method WriteAll(inum: nat, off: nat, src: seq<byte>) returns (ok: bool)
      requires Valid() && inum in fs.inodes && off <= fs.inodes[inum].size && off + |src| <= 274432
      modifies this
      ensures ok <==> Added(old(fs.inodes)[inum].size, off, |src|) <= |Free(g, old(fs))|
      ensures ok ==> WriteResult(g, old(fs), fs, owner, inum, off, src) && dinodes == fs.inodes
      ensures ok ==> WriteCost(inum, off, |src|)
    {
      ghost var nb, size := 0, fs.inodes[inum].size;
      ok, nb := WriteLoop(inum, off, src, size);
      if ok {
        ghost var st, l := fs, logged;
        var cur := off + |src|;
        EndWrite(inum, off, src, cur, old(fs), old(owner), size, nb);
        CoversBlocks(size, nb, cur);
        AccountsEnd(g, |Free(g, old(fs))|, old(logged), l, logged, st, fs, inum, size, off, |src|, cur, nb,
                    inum / 16 + inodestart);
      }
    }

    /** writei on a file. It writes everything or refuses, or the disk has fewer free blocks than the
        file must get; it never writes less. */
    method WriteI(inum: nat, off: nat, src: seq<byte>) returns (r: Io)
      requires Valid() && inum in fs.inodes && off < 0x1_0000_0000 && |src| < 0x1_0000_0000
      modifies this
      ensures r.Refused? <==> off > old(fs.inodes)[inum].size || off + |src| > 274432
      ensures r.Panic? <==> !r.Refused? && |Free(g, old(fs))| < Added(old(fs.inodes)[inum].size, off, |src|)
      ensures r.Refused? ==> fs == old(fs) && Valid()
      ensures r.Count? ==> r.n == |src| && Valid() && WriteResult(g, old(fs), fs, owner, inum, off, src)
      ensures r.Count? ==> WriteCost(inum, off, |src|)
    {
      assert NoHoles(g, fs, inum);
      if off > fs.inodes[inum].size || (off + |src|) % 0x1_0000_0000 < off {
        return Refused;
      }
      if off + |src| > 274432 {
        return Refused;
      }
      var ok := WriteAll(inum, off, src);
      return if ok then Count(|src|) else Panic;
    }

    /** What a write of n bytes at `off` took: so many free blocks, and on a disk with one bitmap block
        exactly these entries in the log. */
    twostate predicate WriteCost(inum: nat, off: nat, n: nat)
      reads this
    {
      && Shape(g, old(fs)) && inum in old(fs.inodes)
      && Cost(g, inum / 16 + inodestart, |Free(g, old(fs))|, old(logged), logged, fs, inum, old(fs.inodes)[inum].size,
         off, n)
    }

    /** One turn of readi's loop: m bytes from offset co of the file's block cb, which is there. */
    method ReadTurn(inum: nat, cb: nat, co: nat, m: nat, ghost cur: nat, ghost cur': nat) returns (piece: seq<byte>)
      requires Owned(g, fs, owner) && inum in fs.inodes && NoHoles(g, fs, inum)
      requires cur == 1024 * cb + co && cur' == cur + m && 0 < m && co + m <= 1024 && cur' <= fs.inodes[inum].size
      modifies this`fs, this`owner, this`logged
      ensures fs == old(fs) && owner == old(owner) && logged == old(logged)
      ensures piece == Content(g, old(fs), inum)[cur..cur']
    {
      assert cb < Blocks(fs.inodes[inum].size) <= 268;
      assert IsSlot(fs, DataSlot(inum, cb)) && SlotVal(g, fs, DataSlot(inum, cb)) != 0;
      var a := BMap(inum, cb);
      piece := fs.blocks[a.addr][co..co + m];
      ReadStep(g, fs, inum, cur, cur', m, cb, co, a.addr, piece);
    }

    /** readi's loop: the n bytes of the file from offset off on. */
    method ReadLoop(inum: nat, off: nat, n: nat) returns (dst: seq<byte>)
      requires Owned(g, fs, owner) && inum in fs.inodes && NoHoles(g, fs, inum) && off + n <= fs.inodes[inum].size
      modifies this`fs, this`owner, this`logged
      ensures fs == old(fs) && owner == old(owner) && logged == old(logged)
      ensures dst == Content(g, fs, inum)[off..off + n]
    {
      ghost var st, c := fs, Content(g, fs, inum);
      dst := [];
      var cur, end := off, off + n;
      while cur < end
        invariant off <= cur <= end
        invariant fs == st && owner == old(owner) && logged == old(logged)
        invariant dst == c[off..cur]
      {
        var cb, co := cur / 1024, cur % 1024;
        var m := Min(end - cur, 1024 - co);
        var next := cur + m;
        ReadEnd(cur, cb, co);
        var piece := ReadTurn(inum, cb, co, m, cur, next);
        Slices(c, off, cur, next);
        dst := dst + piece;
        cur := next;
      }
    }

    /** readi on a file. The file has no holes, so bmap finds every block and nothing changes. */
    method ReadI(inum: nat, off: nat, n: nat) returns (r: Io, dst: seq<byte>)
      requires Valid() && inum in fs.inodes && off < 0x1_0000_0000 && n < 0x1_0000_0000
      modifies this
      ensures fs == old(fs) && owner == old(owner) && dinodes == old(dinodes) && logged == old(logged)
      ensures r.Refused? <==> off > fs.inodes[inum].size || off + n >= 0x1_0000_0000
      ensures !r.Refused? ==>
                && NoHoles(g, fs, inum) && r == Count(|dst|)
                && dst == Content(g, fs, inum)[off..Min(off + n, fs.inodes[inum].size)]
    {
      if off > fs.inodes[inum].size || (off + n) % 0x1_0000_0000 < off {
        return Refused, [];
      }
      assert NoHoles(g, fs, inum);
      var n1 := if off + n > fs.inodes[inum].size then fs.inodes[inum].size - off else n;
      dst := ReadLoop(inum, off, n1);
      r := Count(n1);
    }

    /** `data[bi / 8] &= ~m` */
    method ClearBit(b: nat)
      requires g.Valid() && |fs.blocks| == g.size && b < g.size
      modifies this`fs, this`logged
      ensures fs == St(MarkBit(g, old(fs).blocks, b, false), old(fs).inodes) && logged == old(logged) + {g.BBlock(b)}
    {
      var n, bi := g.BBlock(b), b % 8192;
      var x := fs.blocks[n][bi / 8];
      fs := St(fs.blocks[n := fs.blocks[n][bi / 8 := x & !Mask(bi % 8)]], fs.inodes);
      logged := logged + {n};
    }

    /** bfree. False means the kernel panics with "freeing free block". */
    method BFree(b: nat) returns (ok: bool)
      requires g.Valid() && |fs.blocks| == g.size && b < g.size
      modifies this`fs, this`logged
      ensures ok <==> BitSet(g, old(fs).blocks, b)
      ensures ok ==> fs == St(MarkBit(g, old(fs).blocks, b, false), old(fs).inodes)
      ensures ok ==> logged == old(logged) + {g.BBlock(b)}
      ensures !ok ==> fs == old(fs) && logged == old(logged)
    {
      var bp, bi := fs.blocks[g.BBlock(b)], b % 8192;
      ok := bp[bi / 8] & Mask(bi % 8) != 0;
      if ok {
        ClearBit(b);
      }
    }

    /** Free the block in a direct slot, or the indirect block, and clear the slot. */
    method FreeSlot(inum: nat, i: nat) returns (ok: bool)
      requires Shape(g, fs) && inum in fs.inodes && i <= 12
      modifies this`fs, this`logged
      ensures ok <==> BitSet(g, old(fs).blocks, old(fs).inodes[inum].addrs[i])
      ensures ok ==> fs == FreedSlot(g, old(fs), inum, i)
      ensures ok ==> logged == old(logged) + {g.BBlock(old(fs).inodes[inum].addrs[i])}
    {
      ok := BFree(fs.inodes[inum].addrs[i]);
      if ok {
        var ino := fs.inodes[inum];
        fs := St(fs.blocks, fs.inodes[inum := Inode(ino.addrs[i := 0], ino.size)]);
      }
    }

    /** One turn of itrunc's first loop. */
    method FreeDirect(inum: nat, i: nat, next: nat, ghost st0: St, ghost owner0: map<nat, Slot>, ghost l0: set<nat>)
      returns (ok: bool)
      requires Owned(g, st0, owner0) && DirectsFreed(g, st0, owner0, fs, owner, inum, i) && next == i + 1 <= 12
      requires forall k | i <= k <= 12 :: fs.inodes[inum].addrs[k] == st0.inodes[inum].addrs[k]
      requires logged == l0 + BitmapOf(g, owner0, inum, 0, i)
      modifies this`fs, this`owner, this`logged
      ensures ok && DirectsFreed(g, st0, owner0, fs, owner, inum, next)
      ensures forall k | next <= k <= 12 :: fs.inodes[inum].addrs[k] == st0.inodes[inum].addrs[k]
      ensures logged == l0 + BitmapOf(g, owner0, inum, 0, next)
    {
      BitmapNext(g, st0, owner0, inum, 0, i, next, fs.inodes[inum].addrs[i]);
      ok := true;
      if fs.inodes[inum].addrs[i] != 0 {
        FreeNext(g, st0, owner0, fs, owner, inum, i, next);
        ok := FreeSlot(inum, i);
        owner := Without(owner, inum, i, next);
      } else {
        SkipNext(g, st0, owner0, fs, owner, inum, i, next);
      }
    }

    /** itrunc's first loop. */
    method FreeDirects(inum: nat) returns (ok: bool)
      requires Owned(g, fs, owner) && inum in fs.inodes
      modifies this`fs, this`owner, this`logged
      ensures ok && DirectsFreed(g, old(fs), old(owner), fs, owner, inum, 12)
      ensures fs.inodes[inum].addrs[12] == old(fs).inodes[inum].addrs[12]
      ensures logged == old(logged) + BitmapOf(g, old(owner), inum, 0, 12)
    {
      ghost var st0, owner0, l0 := fs, owner, logged;
      NoBitmapYet(g, owner, inum, 0);
      var i := 0;
      while i < 12
        invariant 0 <= i <= 12 && DirectsFreed(g, st0, owner0, fs, owner, inum, i)
        invariant forall k | i <= k <= 12 :: fs.inodes[inum].addrs[k] == st0.inodes[inum].addrs[k]
        invariant logged == l0 + BitmapOf(g, owner0, inum, 0, i)
      {
        var next := i + 1;
        ok := FreeDirect(inum, i, next, st0, owner0, l0);
        i := next;
      }
      return true;
    }

    /** One turn of itrunc's second loop: entry j of the indirect block `a`. */
    method FreeListed(inum: nat, a: Block, j: nat, next: nat, ghost st: St, ghost l0: set<nat>) returns (ok: bool)
      requires Owned(g, st, owner) && inum in st.inodes && st.inodes[inum].addrs[12] != 0 && next == j + 1 <= 256
      requires a == st.blocks[st.inodes[inum].addrs[12]]
      requires EntriesFreed(g, st, owner, fs.blocks, inum, j) && fs.inodes == st.inodes
      requires logged == l0 + BitmapOf(g, owner, inum, 13, 13 + j)
      modifies this`fs, this`logged
      ensures ok && EntriesFreed(g, st, owner, fs.blocks, inum, next) && fs.inodes == st.inodes
      ensures logged == l0 + BitmapOf(g, owner, inum, 13, 13 + next)
    {
      var b := Word(a, j);
      BitmapNext(g, st, owner, inum, 13, 13 + j, 13 + next, b);
      FreeEntry(g, st, owner, fs.blocks, inum, j, b);
      ok := true;
      if b != 0 {
        ok := BFree(b);
      }
    }

    /** itrunc's second loop, over the indirect block. The entries themselves stay. */
    method FreeEntries(inum: nat) returns (ok: bool)
      requires Owned(g, fs, owner) && inum in fs.inodes && fs.inodes[inum].addrs[12] != 0
      modifies this`fs, this`logged
      ensures ok && EntriesFreed(g, old(fs), owner, fs.blocks, inum, 256) && fs.inodes == old(fs).inodes
      ensures logged == old(logged) + BitmapOf(g, owner, inum, 13, 269)
    {
      ghost var st, l0 := fs, logged;
      NoBitmapYet(g, owner, inum, 13);
      var a := fs.blocks[fs.inodes[inum].addrs[12]];
      var j := 0;
      while j < 256
        invariant 0 <= j <= 256 && EntriesFreed(g, st, owner, fs.blocks, inum, j) && fs.inodes == st.inodes
        invariant logged == l0 + BitmapOf(g, owner, inum, 13, 13 + j)
      {
        var next := j + 1;
        ok := FreeListed(inum, a, j, next, st, l0);
        j := next;
      }
      return true;
    }

    /** itrunc's second half: the indirect block, if there is one, with what it lists. */
    method FreeIndirect(inum: nat, ghost st0: St, ghost owner0: map<nat, Slot>) returns (ok: bool)
      requires Owned(g, st0, owner0) && inum in fs.inodes && DirectsFreed(g, st0, owner0, fs, owner, inum, 12)
      modifies this`fs, this`owner, this`logged
      ensures ok && inum in fs.inodes && Truncated(g, st0, owner0, Resize(fs, inum, 0), owner, inum)
      ensures logged == old(logged) + BitmapOf(g, old(owner), inum, 12, 269)
    {
      ok := true;
      if fs.inodes[inum].addrs[12] != 0 {
        ghost var st := fs;
        IndirectBitmap(g, st, owner, inum);
        ok := FreeEntries(inum);
        IndirectDone(g, st0, owner0, st, owner, fs, inum);
        ok := FreeSlot(inum, 12);
        owner := Without(owner, inum, 12, 269);
      } else {
        NoIndirect(g, fs, owner, inum);
        TruncDone(g, st0, owner0, fs, owner, inum);
      }
    }

    /** `ip->size = 0; iupdate(ip)` */
    method SetEmpty(inum: nat, ghost st0: St, ghost owner0: map<nat, Slot>)
      requires inum in fs.inodes && dinodes == st0.inodes && Truncated(g, st0, owner0, Resize(fs, inum, 0), owner, inum)
      modifies this`fs, this`dinodes, this`logged
      ensures Truncated(g, st0, owner0, fs, owner, inum) && dinodes == fs.inodes
      ensures logged == old(logged) + {inum / 16 + inodestart}
    {
      SameInodes(g, st0, Resize(fs, inum, 0), inum);
      fs := Resize(fs, inum, 0);
      dinodes := dinodes[inum := fs.inodes[inum]];
      logged := logged + {inum / 16 + inodestart};
    }

    /** itrunc. Every block it frees is marked at that moment, so bfree never panics. */
    method ITrunc(inum: nat) returns (ok: bool)
      requires Owned(g, fs, owner) && inum in fs.inodes && dinodes == fs.inodes
      modifies this
      ensures ok && Truncated(g, old(fs), old(owner), fs, owner, inum) && dinodes == fs.inodes
      ensures FsOk(g, old(fs), old(owner)) ==> FsOk(g, fs, owner)
      ensures fs.inodes.Keys == old(fs.inodes).Keys
      ensures logged == old(logged) + BitmapOf(g, old(owner), inum, 0, 269) + {inum / 16 + inodestart}
    {
      ghost var st0, owner0 := fs, owner;
      BitmapRest(g, owner0, Without(owner0, inum, 0, 12), inum, 0, 12, 269);
      ok := FreeDirects(inum);
      ok := FreeIndirect(inum, st0, owner0);
      SetEmpty(inum, st0, owner0);
      if FsOk(g, st0, owner0) {
        TruncatedOk(g, st0, owner0, fs, owner, inum);
      }
    }
  }

  /** struct file, for an inode. */
  class File {
    const ip: nat
    const readable: bool
    const writable: bool
    var off: nat

    /** fileread. readi takes its int for a uint, so a negative count asks for the rest of the file, unless the offset
        is large enough for the sum to wrap. */
    method FileRead(sys: FileSystem, n: int) returns (r: Io, dst: seq<byte>)
      requires sys.Valid() && ip in sys.fs.inodes && off < 0x1_0000_0000 && -0x8000_0000 <= n < 0x8000_0000
      modifies this`off, sys
      ensures sys.fs == old(sys.fs) && sys.owner == old(sys.owner) && sys.dinodes == old(sys.dinodes)
      ensures r.Refused? <==>
                || !readable || old(off) > sys.fs.inodes[ip].size
                || (if n < 0 then old(off) + n >= 0 else old(off) + n >= 0x1_0000_0000)
      ensures r.Refused? ==> off == old(off)
      ensures !r.Refused? ==>
                && NoHoles(sys.g, sys.fs, ip) && r == Count(|dst|) && off == old(off) + |dst|
                && var size := sys.fs.inodes[ip].size;
                   dst == Content(sys.g, sys.fs, ip)[old(off)..if n < 0 then size else Min(old(off) + n, size)]
    {
      if !readable {
        return Refused, [];
      }
      var count := n % 0x1_0000_0000;
      assert count == if n < 0 then n + 0x1_0000_0000 else n;
      r, dst := sys.ReadI(ip, off, count);
      if r.Count? && r.n > 0 {
        off := off + r.n;
      }
    }

    /** One transaction of filewrite: begin_op, writei, end_op. */
    method WriteChunk(sys: FileSystem, data: seq<byte>) returns (r: Io)
      requires sys.Valid() && ip in sys.fs.inodes && off < 0x1_0000_0000 && |data| <= 6656
      modifies this`off, sys
      ensures r.Refused? <==> old(off) > old(sys.fs.inodes)[ip].size || old(off) + |data| > 274432
      ensures r.Refused? ==> off == old(off) && sys.fs == old(sys.fs) && sys.Valid()
      ensures r.Count? ==> r.n == |data| && off == old(off) + |data| && sys.Valid()
      ensures r.Count? ==> WriteResult(sys.g, old(sys.fs), sys.fs, sys.owner, ip, old(off), data)
      ensures r.Panic? <==>
                !r.Refused? && |Free(sys.g, old(sys.fs))| < Added(old(sys.fs.inodes)[ip].size, old(off), |data|)
      ensures r.Count? ==>
                |Free(sys.g, sys.fs)| == |Free(sys.g, old(sys.fs))| - Added(old(sys.fs.inodes)[ip].size, old(off),
                  |data|)
      ensures r.Count? && sys.g.size <= 8192 ==> |sys.logged| == LogSize(old(sys.fs.inodes)[ip].size, old(off), |data|)
    {
      sys.logged := {};
      r := sys.WriteI(ip, off, data);
      if r.Count? && sys.g.size <= 8192 {
        ghost var size, iblock := old(sys.fs.inodes)[ip].size, ip / 16 + sys.inodestart;
        assert |sys.logged| == LogSize(size, off, |data|) by {
          WriteLogSize(sys.g, iblock, old(sys.fs), sys.fs, sys.owner, ip, off, data);
          Nothing(WriteLog(sys.g, iblock, sys.fs, ip, size, off, |data|));
        }
      }
      if r.Count? && r.n > 0 {
        off := off + r.n;
      }
    }

    /** One turn of filewrite's loop. */
    method WriteNext(sys: FileSystem, buf: seq<byte>, i: nat, n: nat, n1: nat, next: nat,
                     ghost st0: St, ghost off0: nat, ghost size: nat) returns (r: Io)
      requires sys.Valid() && ip in sys.fs.inodes && off == off0 + i < 0x1_0000_0000 && i < n <= |buf|
      requires n1 == (if n - i > 6656 then 6656 else n - i) && next == i + n1
      requires if off0 <= size then ChunksDone(sys.g, st0, sys.fs, sys.owner, ip, size, off0, buf, i, n)
               else i == 0 && sys.fs == st0 && size == st0.inodes[ip].size
      modifies this`off, sys
      ensures !r.Panic? ==> sys.Valid() && ip in sys.fs.inodes
      ensures r.Count? ==> r.n == n1 && off == off0 + next && off0 <= size
      ensures r.Count? ==> ChunksDone(sys.g, st0, sys.fs, sys.owner, ip, size, off0, buf, next, n)
      ensures r.Refused? ==>
                off == old(off) && sys.fs == old(sys.fs) && (off0 > size || i == Accepted(size, off0, n) < n)
      ensures r.Refused? && off0 <= size ==> ChunksDone(sys.g, st0, sys.fs, sys.owner, ip, size, off0, buf, i, n)
      ensures r.Panic? ==> off0 <= size && |Free(sys.g, st0)| < Added(size, off0, Accepted(size, off0, n))
    {
      ghost var st1, own1, off1 := sys.fs, sys.owner, off;
      var data := buf[i..next];
      r := WriteChunk(sys, data);
      if r.Panic? {
        ChunkPanics(size, off0, n, i, |Free(sys.g, st0)|, |Free(sys.g, st1)|, st1.inodes[ip].size, off1, n1);
      } else if r.Count? {
        ChunksStep(sys.g, st0, st1, own1, sys.fs, sys.owner, ip, size, off0, off1, buf, i, n, n1, next, data);
      } else if off0 <= size {
        ChunkRefused(size, off0, n, i, n1);
      }
    }

    /** filewrite: n bytes from buf in chunks of at most ((LOGSIZE-1-1-2)/2)*512 = 6656. It writes
        everything, as one writei would, or stops with -1 before the first chunk that does not fit the
        file, or panics exactly if the disk has not the free blocks for the chunks before that. */
    method FileWrite(sys: FileSystem, buf: seq<byte>, n: int) returns (r: Io, ghost done: seq<byte>)
      requires sys.Valid() && ip in sys.fs.inodes && off < 0x1_0000_0000 && n <= |buf| && n < 0x8000_0000
      modifies this`off, sys
      ensures r.Panic? <==> writable && n > 0 && var size := old(sys.fs.inodes)[ip].size;
                            |Free(sys.g, old(sys.fs))| < Added(size, old(off), Accepted(size, old(off), n))
                              && old(off) <= size
      ensures r.Refused? <==>
                !r.Panic? && (!writable || n < 0
                  || (n > 0 && (old(off) > old(sys.fs.inodes)[ip].size || old(off) + n > 274432)))
      ensures !r.Panic? ==>
                && sys.Valid() && done <= buf && |done| == off - old(off)
                && Chunks(sys.g, old(sys.fs), sys.fs, sys.owner, ip, old(off), done)
      ensures r.Count? ==> r.n == n == |done|
      ensures r.Refused? && writable && n > 0 ==> |done| == Accepted(old(sys.fs.inodes)[ip].size, old(off), n)
    {
      done := [];
      if !writable {
        return Refused, done;
      }
      ghost var off0, st0, size := off, sys.fs, sys.fs.inodes[ip].size;
      if n >= 0 && off0 <= size {
        ChunksStart(sys.g, st0, sys.owner, ip, size, off0, buf, n);
      }
      var i := 0;
      while i < n
        invariant 0 <= i && (i <= n || i == 0) && off == off0 + i && sys.Valid() && ip in sys.fs.inodes
        invariant if n >= 0 && off0 <= size then ChunksDone(sys.g, st0, sys.fs, sys.owner, ip, size, off0, buf, i, n)
                  else i == 0 && sys.fs == st0
      {
        var n1 := if n - i > 6656 then 6656 else n - i;
        var next := i + n1;
        r := WriteNext(sys, buf, i, n, n1, next, st0, off0, size);
        if r.Panic? {
          return;
        }
        if r.Refused? {
          break;
        }
        if r.n != n1 {
          assert false;     // panic("short filewrite")
        }
        i := next;
      }
      done := buf[..i];
      r := if i == n then Count(n) else Refused;
    }
  }

  /** writei's loop stands at the start of a block, save at its own start and end. */
  predicate AtBoundary(off: nat, tot: nat, n: nat) {
    tot == 0 || tot == n || (off + tot) % 1024 == 0
  }

  /** A turn that does not finish the source stops at a block boundary. */
  lemma TurnEnd(off: nat, tot: nat, n: nat, cb: nat, co: nat, m: nat, next: nat)
    requires tot < n && off + n <= 274432 && AtBoundary(off, tot, n)
    requires cb == (off + tot) / 1024 && co == (off + tot) % 1024 && m == Min(n - tot, 1024 - co) && next == tot + m
    ensures 0 < m && next <= n && co + m <= 1024 && AtBoundary(off, next, n)
    ensures off + tot == 1024 * cb + co && cb < 268
    ensures cb == off / 1024 + Touched(off, tot) && Touched(off, next) == Touched(off, tot) + 1
  {
  }

  lemma Nothing(l: set<nat>)
    ensures {} + l == l
  {
  }

  lemma ReadEnd(cur: nat, cb: nat, co: nat)
    requires cb == cur / 1024 && co == cur % 1024
    ensures cur == 1024 * cb + co && co < 1024
  {
  }
}
