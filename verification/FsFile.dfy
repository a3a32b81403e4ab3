/** Files as byte sequences, through the direct and indirect blocks. */
module FsFile {
  import opened FsBytes
  import opened FsState

  /** Byte i of a file's bn-th block; 0 where there is no block. */
  function FileByte(g: Geometry, st: St, inum: nat, bn: nat, i: nat): byte
    requires Shape(g, st) && inum in st.inodes && bn < 268 && i < 1024
  {
    var v := SlotVal(g, st, DataSlot(inum, bn));
    if v == 0 || v >= g.size then 0 else st.blocks[v][i]
  }

  /** The file has exactly its first nb blocks, and an indirect block just when they need one. */
  ghost predicate Prefix(g: Geometry, st: St, inum: nat, nb: nat)
    requires Shape(g, st) && inum in st.inodes
  {
    && nb <= 268
    && (forall bn: nat | bn < 268 :: SlotVal(g, st, DataSlot(inum, bn)) != 0 <==> bn < nb)
    && (st.inodes[inum].addrs[12] != 0 <==> nb > 12)
  }

  /** memmove into a block. */
  function Patch(b: Block, o: nat, data: seq<byte>): (r: Block)
    requires o + |data| <= 1024
    ensures forall i | 0 <= i < 1024 :: r[i] == if o <= i < o + |data| then data[i - o] else b[i]
  {
    b[..o] + data + b[o + |data|..]
  }

  function PatchBlock(g: Geometry, st: St, addr: nat, o: nat, data: seq<byte>): St
    requires Shape(g, st) && addr < g.size && o + |data| <= 1024
  {
    St(st.blocks[addr := Patch(st.blocks[addr], o, data)], st.inodes)
  }

  /** Writing into a file's block moves no slot, changes no bit, and no other file block. */
  lemma PatchKeeps(g: Geometry, st: St, owner: map<nat, Slot>, addr: nat, o: nat, data: seq<byte>)
    requires Owned(g, st, owner) && addr in owner && owner[addr].idx != 12 && o + |data| <= 1024
    ensures var st' := PatchBlock(g, st, addr, o, data);
            && Owned(g, st', owner)
            && (forall t: Slot | IsSlot(st, t) :: SlotVal(g, st', t) == SlotVal(g, st, t))
  {
    var st' := PatchBlock(g, st, addr, o, data);
    forall t: Slot | IsSlot(st, t)
      ensures SlotVal(g, st', t) == SlotVal(g, st, t)
    {
      if t.idx > 12 && st.inodes[t.inum].addrs[12] != 0 {
        IndirectOwned(g, st, owner, t.inum);
      }
    }
    forall c: nat | c < g.size
      ensures BitSet(g, st'.blocks, c) <==> BitSet(g, st.blocks, c)
    {
      SameBits(g, st.blocks, st'.blocks, c);
    }
  }

  /** The block bmap returned is this file's block cb, and the prefix has grown at most by it. */
  lemma MappedBlock(g: Geometry, st: St, st1: St, owner1: map<nat, Slot>, inum: nat, nb: nat, cb: nat, addr: nat)
    requires Shape(g, st) && Owned(g, st1, owner1) && inum in st.inodes && Prefix(g, st, inum, nb) && cb <= nb
    requires MapEffect(g, st, st1, inum, cb, addr)
    ensures addr in owner1 && owner1[addr] == DataSlot(inum, cb) && addr < g.size
    ensures Prefix(g, st1, inum, if cb < nb then nb else nb + 1)
    ensures cb < nb ==> st1 == st
  {
    assert IsSlot(st1, DataSlot(inum, cb));
    forall bn: nat | bn < 268 && bn != cb
      ensures SlotVal(g, st1, DataSlot(inum, bn)) == SlotVal(g, st, DataSlot(inum, bn))
    {
      assert IsSlot(st, DataSlot(inum, bn));
    }
  }

  /** bmap shows in no byte: an existing block keeps its bytes, a new one is zero. */
  lemma MappedByte(g: Geometry, st: St, st1: St, owner1: map<nat, Slot>, inum: nat, cb: nat, addr: nat, bn: nat, i: nat)
    requires Owned(g, st1, owner1) && MapEffect(g, st, st1, inum, cb, addr) && bn < 268 && i < 1024
    ensures FileByte(g, st1, inum, bn, i) == FileByte(g, st, inum, bn, i)
  {
    assert IsSlot(st, DataSlot(inum, bn)) && IsSlot(st1, DataSlot(inum, bn));
    if bn == cb {
      assert SlotVal(g, st1, DataSlot(inum, cb)) == addr;
    } else if SlotVal(g, st, DataSlot(inum, bn)) != 0 {
      assert SlotVal(g, st1, DataSlot(inum, bn)) == SlotVal(g, st, DataSlot(inum, bn));
    }
  }

  /** A memmove into block cb shows in that block's bytes and nowhere else. */
  lemma PatchedByte(g: Geometry, st: St, owner: map<nat, Slot>, inum: nat, cb: nat, addr: nat, co: nat, data: seq<byte>,
                    bn: nat, i: nat)
    requires Owned(g, st, owner) && inum in st.inodes && cb < 268 && bn < 268 && i < 1024 && co + |data| <= 1024
    requires addr in owner && owner[addr] == DataSlot(inum, cb)
    ensures var st' := PatchBlock(g, st, addr, co, data);
            Shape(g, st') && FileByte(g, st', inum, bn, i)
            == if bn == cb && co <= i < co + |data| then data[i - co] else FileByte(g, st, inum, bn, i)
  {
    PatchKeeps(g, st, owner, addr, co, data);
    var t := DataSlot(inum, bn);
    assert IsSlot(st, t) && IsSlot(st, DataSlot(inum, cb));
    assert SlotVal(g, st, DataSlot(inum, cb)) == addr;
    if bn != cb && SlotVal(g, st, t) != 0 {
      assert owner[SlotVal(g, st, t)] == t;
    }
  }

  /** Other files: same inode, same slots, same bytes. */
  ghost predicate KeepsOthers(g: Geometry, st: St, st': St, inum: nat)
    requires Shape(g, st) && Shape(g, st')
  {
    && st'.inodes.Keys == st.inodes.Keys
    && (forall j | j in st.inodes && j != inum :: st'.inodes[j] == st.inodes[j])
    && (forall t: Slot | IsSlot(st, t) && t.inum != inum :: SlotVal(g, st', t) == SlotVal(g, st, t))
    && (forall j, bn: nat, i: nat | j in st.inodes && j != inum && bn < 268 && i < 1024 ::
          FileByte(g, st', j, bn, i) == FileByte(g, st, j, bn, i))
  }

  lemma KeepsOthersTrans(g: Geometry, a: St, b: St, c: St, inum: nat)
    requires Shape(g, a) && Shape(g, b) && Shape(g, c) && KeepsOthers(g, a, b, inum) && KeepsOthers(g, b, c, inum)
    ensures KeepsOthers(g, a, c, inum)
  {
  }

  lemma MapKeepsOthers(g: Geometry, st: St, st1: St, owner1: map<nat, Slot>, inum: nat, cb: nat, addr: nat)
    requires Owned(g, st1, owner1) && MapEffect(g, st, st1, inum, cb, addr)
    ensures KeepsOthers(g, st, st1, inum)
  {
    forall j, bn: nat, i: nat | j in st.inodes && j != inum && bn < 268 && i < 1024
      ensures FileByte(g, st1, j, bn, i) == FileByte(g, st, j, bn, i)
    {
      assert IsSlot(st, DataSlot(j, bn));
    }
  }

  lemma PatchKeepsOthers(g: Geometry, st: St, owner: map<nat, Slot>, inum: nat, cb: nat, addr: nat, co: nat,
                         data: seq<byte>)
    requires Owned(g, st, owner) && inum in st.inodes && cb < 268 && co + |data| <= 1024
    requires addr in owner && owner[addr] == DataSlot(inum, cb)
    ensures Shape(g, PatchBlock(g, st, addr, co, data)) && KeepsOthers(g, st, PatchBlock(g, st, addr, co, data), inum)
  {
    PatchKeeps(g, st, owner, addr, co, data);
    var st' := PatchBlock(g, st, addr, co, data);
    forall j, bn: nat, i: nat | j in st.inodes && j != inum && bn < 268 && i < 1024
      ensures FileByte(g, st', j, bn, i) == FileByte(g, st, j, bn, i)
    {
      assert IsSlot(st, DataSlot(j, bn));
    }
  }

  /** What byte i of block bn should be once `tot` bytes of src are written from offset off on. */
  ghost function Expected(g: Geometry, st0: St, inum: nat, off: nat, tot: nat, src: seq<byte>, bn: nat, i: nat): byte
    requires Shape(g, st0) && inum in st0.inodes && bn < 268 && i < 1024 && tot <= |src|
  {
    if off <= 1024 * bn + i < off + tot then src[1024 * bn + i - off] else FileByte(g, st0, inum, bn, i)
  }

  /** writei's progress from st0: `tot` bytes are in place, other files and all sizes are as they were. */
  ghost predicate Written(g: Geometry, st0: St, st: St, inum: nat, off: nat, tot: nat, src: seq<byte>)
    requires Shape(g, st0) && Shape(g, st) && inum in st0.inodes && tot <= |src|
  {
    && KeepsOthers(g, st0, st, inum)
    && inum in st.inodes && st.inodes[inum].size == st0.inodes[inum].size
    && forall bn: nat, i: nat | bn < 268 && i < 1024 ::
         FileByte(g, st, inum, bn, i) == Expected(g, st0, inum, off, tot, src, bn, i)
  }

  /** One turn of writei's loop: bmap, memmove of the next m bytes into block cb at offset co. */
  lemma WrittenStep(g: Geometry, st0: St, st: St, st1: St, owner1: map<nat, Slot>, inum: nat, off: nat, tot: nat,
                    src: seq<byte>, m: nat, tot': nat, cb: nat, co: nat, addr: nat)
    requires Shape(g, st0) && Shape(g, st) && inum in st0.inodes && tot' == tot + m <= |src|
    requires Written(g, st0, st, inum, off, tot, src)
    requires off + tot == 1024 * cb + co && co + m <= 1024 && cb < 268
    requires Owned(g, st1, owner1) && MapEffect(g, st, st1, inum, cb, addr)
    requires addr in owner1 && owner1[addr] == DataSlot(inum, cb)
    ensures var st2 := PatchBlock(g, st1, addr, co, src[tot..tot']);
            Shape(g, st2) && Written(g, st0, st2, inum, off, tot', src)
  {
    var data := src[tot..tot'];
    var st2 := PatchBlock(g, st1, addr, co, data);
    TurnKeepsOthers(g, st0, st, st1, owner1, inum, cb, co, data, addr);
    forall bn: nat, i: nat | bn < 268 && i < 1024
      ensures FileByte(g, st2, inum, bn, i) == Expected(g, st0, inum, off, tot', src, bn, i)
    {
      StepByte(g, st0, st, st1, owner1, inum, off, tot, src, m, tot', cb, co, addr, bn, i);
    }
  }

  /** The bytes of one more turn, over what the turns before should have left. */
  lemma ExpectedStep(g: Geometry, st0: St, inum: nat, off: nat, tot: nat, src: seq<byte>, m: nat, tot': nat, cb: nat,
                     co: nat, bn: nat, i: nat)
    requires Shape(g, st0) && inum in st0.inodes && tot' == tot + m <= |src| && bn < 268 && i < 1024
    requires off + tot == 1024 * cb + co && co + m <= 1024 && cb < 268
    ensures Expected(g, st0, inum, off, tot', src, bn, i)
         == if bn == cb && co <= i < co + m then src[tot..tot'][i - co]
           else Expected(g, st0, inum, off, tot, src, bn, i)
  {
    SameByte(cb, co, m, bn, i);
  }

  lemma StepByte(g: Geometry, st0: St, st: St, st1: St, owner1: map<nat, Slot>, inum: nat, off: nat, tot: nat,
                 src: seq<byte>, m: nat, tot': nat, cb: nat, co: nat, addr: nat, bn: nat, i: nat)
    requires Shape(g, st0) && Shape(g, st) && inum in st0.inodes && tot' == tot + m <= |src| && bn < 268 && i < 1024
    requires off + tot == 1024 * cb + co && co + m <= 1024 && cb < 268
    requires Owned(g, st1, owner1) && MapEffect(g, st, st1, inum, cb, addr)
    requires addr in owner1 && owner1[addr] == DataSlot(inum, cb)
    requires FileByte(g, st, inum, bn, i) == Expected(g, st0, inum, off, tot, src, bn, i)
    ensures var st2 := PatchBlock(g, st1, addr, co, src[tot..tot']);
            Shape(g, st2) && FileByte(g, st2, inum, bn, i) == Expected(g, st0, inum, off, tot', src, bn, i)
  {
    MappedByte(g, st, st1, owner1, inum, cb, addr, bn, i);
    PatchedByte(g, st1, owner1, inum, cb, addr, co, src[tot..tot'], bn, i);
    ExpectedStep(g, st0, inum, off, tot, src, m, tot', cb, co, bn, i);
  }

  lemma TurnKeepsOthers(g: Geometry, st0: St, st: St, st1: St, owner1: map<nat, Slot>, inum: nat, cb: nat, co: nat,
                        data: seq<byte>, addr: nat)
    requires Shape(g, st0) && Shape(g, st) && KeepsOthers(g, st0, st, inum) && co + |data| <= 1024 && cb < 268
    requires Owned(g, st1, owner1) && MapEffect(g, st, st1, inum, cb, addr)
    requires addr in owner1 && owner1[addr] == DataSlot(inum, cb)
    ensures var st2 := PatchBlock(g, st1, addr, co, data); Shape(g, st2) && KeepsOthers(g, st0, st2, inum)
  {
    MapKeepsOthers(g, st, st1, owner1, inum, cb, addr);
    PatchKeepsOthers(g, st1, owner1, inum, cb, addr, co, data);
    KeepsOthersTrans(g, st0, st, st1, inum);
    KeepsOthersTrans(g, st0, st1, PatchBlock(g, st1, addr, co, data), inum);
  }

  lemma SameByte(cb: nat, co: nat, m: nat, bn: nat, i: nat)
    requires co + m <= 1024 && i < 1024
    ensures 1024 * cb + co <= 1024 * bn + i < 1024 * cb + co + m <==> bn == cb && co <= i < co + m
  {
  }

  /** How many blocks a file of this size has. */
  function Blocks(size: nat): nat {
    (size + 1023) / 1024
  }

  function Max(a: nat, b: nat): nat { if a > b then a else b }

  /** A file without holes: it has the blocks its size calls for and no others. */
  ghost predicate NoHoles(g: Geometry, st: St, inum: nat)
    requires Shape(g, st) && inum in st.inodes
  {
    st.inodes[inum].size <= 274432 && Prefix(g, st, inum, Blocks(st.inodes[inum].size))
  }

  /** The file system is in order: blocks owned once, bitmap exact, no file with holes. */
  ghost predicate FsOk(g: Geometry, st: St, owner: map<nat, Slot>) {
    Owned(g, st, owner) && forall i | i in st.inodes :: NoHoles(g, st, i)
  }

  /** The file as a byte sequence. */
  ghost function Content(g: Geometry, st: St, inum: nat): (c: seq<byte>)
    requires Shape(g, st) && inum in st.inodes && st.inodes[inum].size <= 274432
    ensures |c| == st.inodes[inum].size
  {
    seq(st.inodes[inum].size, k requires 0 <= k < st.inodes[inum].size => FileByte(g, st, inum, k / 1024, k % 1024))
  }

  /** The specification of a write: overwrite and, past the end, extend. */
  function Overwrite(c: seq<byte>, off: nat, src: seq<byte>): (r: seq<byte>)
    requires off <= |c|
  {
    c[..off] + src + if off + |src| < |c| then c[off + |src|..] else []
  }

  /** The inode with its new size. */
  function Resize(st: St, inum: nat, size: nat): St
    requires inum in st.inodes
  {
    St(st.blocks, st.inodes[inum := Inode(st.inodes[inum].addrs, size)])
  }

  lemma ResizeKeeps(g: Geometry, st: St, owner: map<nat, Slot>, inum: nat, size: nat)
    requires Owned(g, st, owner) && inum in st.inodes
    ensures Owned(g, Resize(st, inum, size), owner)
    ensures Resize(st, inum, size).inodes.Keys == st.inodes.Keys
    ensures forall t: Slot | IsSlot(st, t) :: SlotVal(g, Resize(st, inum, size), t) == SlotVal(g, st, t)
    ensures forall j, bn: nat, i: nat | j in st.inodes && bn < 268 && i < 1024 ::
              FileByte(g, Resize(st, inum, size), j, bn, i) == FileByte(g, st, j, bn, i)
  {
    var st' := Resize(st, inum, size);
    forall t: Slot | IsSlot(st, t)
      ensures SlotVal(g, st', t) == SlotVal(g, st, t)
    {
    }
    forall c: nat | c < g.size
      ensures BitSet(g, st'.blocks, c) <==> BitSet(g, st.blocks, c)
    {
    }
  }

  /** What writei leaves behind: a file system in order, the file overwritten, other files as they were. */
  ghost predicate WriteResult(g: Geometry, st0: St, st: St, owner: map<nat, Slot>, inum: nat, off: nat,
                              src: seq<byte>) {
    && FsOk(g, st, owner) && Shape(g, st0) && inum in st0.inodes && inum in st.inodes
    && off <= st0.inodes[inum].size <= 274432 && st.inodes[inum].size <= 274432
    && Content(g, st, inum) == Overwrite(Content(g, st0, inum), off, src)
    && KeepsOthers(g, st0, st, inum)
  }

  /** writei's loop is done and the size is set. */
  ghost predicate WriteDone(g: Geometry, st0: St, st: St, owner: map<nat, Slot>, inum: nat, off: nat, src: seq<byte>) {
    && Shape(g, st0) && Owned(g, st, owner) && inum in st0.inodes
    && off <= st0.inodes[inum].size <= 274432 && off + |src| <= 274432
    && Written(g, st0, st, inum, off, |src|, src)
    && Prefix(g, st, inum, Max(Blocks(st0.inodes[inum].size), Blocks(off + |src|)))
  }

  /** The file is the old one overwritten. */
  lemma FinishedContent(g: Geometry, st0: St, st: St, inum: nat, off: nat, src: seq<byte>, size': nat, st': St)
    requires Shape(g, st0) && Shape(g, st) && Shape(g, st') && inum in st0.inodes && inum in st.inodes
    requires inum in st'.inodes
    requires off <= st0.inodes[inum].size <= 274432 && size' <= 274432 && st'.inodes[inum].size == size'
    requires size' == Max(st0.inodes[inum].size, off + |src|)
    requires forall bn: nat, i: nat | bn < 268 && i < 1024 ::
               FileByte(g, st, inum, bn, i) == Expected(g, st0, inum, off, |src|, src, bn, i)
    requires forall bn: nat, i: nat | bn < 268 && i < 1024 ::
               FileByte(g, st', inum, bn, i) == FileByte(g, st, inum, bn, i)
    ensures Content(g, st', inum) == Overwrite(Content(g, st0, inum), off, src)
  {
    var c, c0 := Content(g, st', inum), Content(g, st0, inum);
    var r := Overwrite(c0, off, src);
    assert |r| == |c|;
    forall k | 0 <= k < size'
      ensures c[k] == r[k]
    {
      OverwriteAt(c0, off, src, k);
      Split(k);
      assert c[k] == FileByte(g, st', inum, k / 1024, k % 1024);
      assert FileByte(g, st, inum, k / 1024, k % 1024) == Expected(g, st0, inum, off, |src|, src, k / 1024, k % 1024);
    }
  }

  lemma Split(k: nat)
    requires k < 274432
    ensures k / 1024 < 268 && k % 1024 < 1024 && k == 1024 * (k / 1024) + k % 1024
  {
  }

  lemma OverwriteAt(c: seq<byte>, off: nat, src: seq<byte>, k: nat)
    requires off <= |c| && k < Max(|c|, off + |src|)
    ensures k < |Overwrite(c, off, src)|
    ensures Overwrite(c, off, src)[k] == if off <= k < off + |src| then src[k - off] else c[k]
  {
  }

  lemma FinishedOthers(g: Geometry, st0: St, st: St, owner: map<nat, Slot>, inum: nat, size': nat)
    requires Shape(g, st0) && Owned(g, st, owner) && inum in st0.inodes && KeepsOthers(g, st0, st, inum)
    ensures Shape(g, Resize(st, inum, size')) && KeepsOthers(g, st0, Resize(st, inum, size'), inum)
  {
    ResizeKeeps(g, st, owner, inum, size');
    assert KeepsOthers(g, st, Resize(st, inum, size'), inum);
    KeepsOthersTrans(g, st0, st, Resize(st, inum, size'), inum);
  }

  lemma FinishedOk(g: Geometry, st0: St, owner0: map<nat, Slot>, st: St, owner: map<nat, Slot>, inum: nat, off: nat,
                   src: seq<byte>, size': nat)
    requires FsOk(g, st0, owner0) && WriteDone(g, st0, st, owner, inum, off, src)
    requires size' == Max(st0.inodes[inum].size, off + |src|)
    ensures FsOk(g, Resize(st, inum, size'), owner)
  {
    var st' := Resize(st, inum, size');
    ResizeKeeps(g, st, owner, inum, size');
    FinishedOthers(g, st0, st, owner, inum, size');
    forall j | j in st'.inodes
      ensures NoHoles(g, st', j)
    {
      if j != inum {
        OtherNoHoles(g, st0, st', inum, j);
      } else {
        SamePrefix(g, st, st', inum, Blocks(size'));
      }
    }
  }

  /** The end of writei: the file is the old one overwritten, the rest of the system is as it was. */
  lemma WriteFinished(g: Geometry, st0: St, owner0: map<nat, Slot>, st: St, owner: map<nat, Slot>, inum: nat, off: nat,
                      src: seq<byte>, size': nat)
    requires FsOk(g, st0, owner0) && WriteDone(g, st0, st, owner, inum, off, src)
    requires size' == Max(st0.inodes[inum].size, off + |src|)
    ensures WriteResult(g, st0, Resize(st, inum, size'), owner, inum, off, src)
  {
    FinishedOk(g, st0, owner0, st, owner, inum, off, src, size');
    FinishedOthers(g, st0, st, owner, inum, size');
    ResizeKeeps(g, st, owner, inum, size');
    FinishedContent(g, st0, st, inum, off, src, size', Resize(st, inum, size'));
  }

  lemma OtherNoHoles(g: Geometry, st: St, st': St, inum: nat, j: nat)
    requires Shape(g, st) && Shape(g, st') && KeepsOthers(g, st, st', inum) && j in st.inodes && j != inum
    requires NoHoles(g, st, j)
    ensures NoHoles(g, st', j)
  {
    forall bn: nat | bn < 268
      ensures SlotVal(g, st', DataSlot(j, bn)) == SlotVal(g, st, DataSlot(j, bn))
    {
      assert IsSlot(st, DataSlot(j, bn));
    }
  }

  lemma SamePrefix(g: Geometry, st: St, st': St, inum: nat, nb: nat)
    requires Shape(g, st) && Shape(g, st') && inum in st.inodes && st'.inodes.Keys == st.inodes.Keys
    requires st'.inodes[inum].addrs == st.inodes[inum].addrs && Prefix(g, st, inum, nb)
    requires forall t: Slot | IsSlot(st, t) :: SlotVal(g, st', t) == SlotVal(g, st, t)
    ensures Prefix(g, st', inum, nb)
  {
    forall bn: nat | bn < 268
      ensures SlotVal(g, st', DataSlot(inum, bn)) == SlotVal(g, st, DataSlot(inum, bn))
    {
      assert IsSlot(st, DataSlot(inum, bn));
    }
  }

  /** One whole turn of writei's loop, by value. */
  lemma TurnDone(g: Geometry, st0: St, st: St, st1: St, owner1: map<nat, Slot>, inum: nat, off: nat, tot: nat,
                 src: seq<byte>, m: nat, tot': nat, nb: nat, cb: nat, co: nat, addr: nat)
    requires Shape(g, st0) && Shape(g, st) && inum in st0.inodes && tot' == tot + m <= |src|
    requires Written(g, st0, st, inum, off, tot, src) && Prefix(g, st, inum, nb)
    requires off + tot == 1024 * cb + co && co + m <= 1024 && cb < 268 && cb <= nb
    requires Owned(g, st1, owner1) && MapEffect(g, st, st1, inum, cb, addr)
    ensures addr < g.size
    ensures var st2 := PatchBlock(g, st1, addr, co, src[tot..tot']);
            && Owned(g, st2, owner1) && inum in st2.inodes && Written(g, st0, st2, inum, off, tot', src)
            && Prefix(g, st2, inum, if cb < nb then nb else nb + 1)
            && (cb < nb ==> st2.inodes == st.inodes)
  {
    var data := src[tot..tot'];
    MappedBlock(g, st, st1, owner1, inum, nb, cb, addr);
    WrittenStep(g, st0, st, st1, owner1, inum, off, tot, src, m, tot', cb, co, addr);
    PatchKeeps(g, st1, owner1, addr, co, data);
    SamePrefix(g, st1, PatchBlock(g, st1, addr, co, data), inum, if cb < nb then nb else nb + 1);
  }

  /** nb blocks cover the first `cur` bytes, and no more than the nb0 there were unless needed. */
  predicate Covers(nb0: nat, nb: nat, cur: nat) {
    nb0 <= nb && cur <= 1024 * nb && (nb == nb0 || cur > 1024 * (nb - 1))
  }

  /** writei's loop invariant: `tot` bytes of src are written, into a file that now has nb blocks. */
  ghost predicate Progress(g: Geometry, st0: St, st: St, owner: map<nat, Slot>, inum: nat, off: nat, tot: nat,
                           src: seq<byte>, nb0: nat, nb: nat) {
    && Shape(g, st0) && inum in st0.inodes && inum in st.inodes && Owned(g, st, owner) && tot <= |src|
    && Written(g, st0, st, inum, off, tot, src)
    && Prefix(g, st, inum, nb) && Covers(nb0, nb, off + tot)
    && (nb == nb0 ==> st.inodes[inum] == st0.inodes[inum])
  }

  lemma ProgressStart(g: Geometry, st: St, owner: map<nat, Slot>, inum: nat, off: nat, src: seq<byte>)
    requires FsOk(g, st, owner) && inum in st.inodes && off <= st.inodes[inum].size
    ensures var nb0 := Blocks(st.inodes[inum].size); Progress(g, st, st, owner, inum, off, 0, src, nb0, nb0)
  {
    assert NoHoles(g, st, inum);
  }

  /** An indirect block, once there, stays the same; block 12 and up need one. */
  ghost predicate SameIndirect(ino: Inode, ino': Inode, cb: nat) {
    && |ino.addrs| == 13 && |ino'.addrs| == 13
    && (ino.addrs[12] != 0 ==> ino'.addrs[12] == ino.addrs[12]) && (cb >= 12 ==> ino'.addrs[12] != 0)
  }

  lemma ProgressStep(g: Geometry, st0: St, st: St, owner: map<nat, Slot>, st1: St, owner1: map<nat, Slot>, inum: nat,
                     off: nat, tot: nat,
                     src: seq<byte>, nb0: nat, nb: nat, nb': nat, m: nat, tot': nat, cb: nat, co: nat, addr: nat,
                     data: seq<byte>)
    requires Progress(g, st0, st, owner, inum, off, tot, src, nb0, nb)
    requires off + tot == 1024 * cb + co && cb < 268 && 0 < m && tot' == tot + m <= |src| && co + m <= 1024
    requires Owned(g, st1, owner1) && MapEffect(g, st, st1, inum, cb, addr)
    requires data == src[tot..tot'] && nb' == if cb < nb then nb else nb + 1
    ensures addr < g.size
    ensures Progress(g, st0, PatchBlock(g, st1, addr, co, data), owner1, inum, off, tot', src, nb0, nb')
    ensures SameIndirect(st.inodes[inum], st1.inodes[inum], cb)
  {
    TurnDone(g, st0, st, st1, owner1, inum, off, tot, src, m, tot', nb, cb, co, addr);
  }

  lemma CoversBlocks(size: nat, nb: nat, cur: nat)
    requires Covers(Blocks(size), nb, cur)
    ensures nb == Max(Blocks(size), Blocks(cur)) && Blocks(Max(size, cur)) == nb
  {
  }

  /** writei's end when the file has not grown: neither has the inode changed. */
  lemma SameSizeFinished(g: Geometry, st0: St, owner0: map<nat, Slot>, st: St, owner: map<nat, Slot>, inum: nat,
                         off: nat, src: seq<byte>, nb: nat)
    requires FsOk(g, st0, owner0) && inum in st0.inodes && off <= st0.inodes[inum].size && off + |src| <= 274432
    requires Progress(g, st0, st, owner, inum, off, |src|, src, Blocks(st0.inodes[inum].size), nb)
    requires off + |src| <= st.inodes[inum].size
    ensures WriteResult(g, st0, st, owner, inum, off, src) && st.inodes == st0.inodes
  {
    var size := st0.inodes[inum].size;
    assert NoHoles(g, st0, inum);
    CoversBlocks(size, nb, off + |src|);
    WriteFinished(g, st0, owner0, st, owner, inum, off, src, st.inodes[inum].size);
    SameResize(st, inum);
    SameInodes(g, st0, st, inum);
  }

  /** writei's end when the file has grown: the new size goes into the inode and its inode block. */
  lemma GrownFinished(g: Geometry, st0: St, owner0: map<nat, Slot>, st: St, owner: map<nat, Slot>, inum: nat, off: nat,
                      src: seq<byte>, nb: nat, cur: nat)
    requires FsOk(g, st0, owner0) && inum in st0.inodes && off <= st0.inodes[inum].size && off + |src| <= 274432
    requires Progress(g, st0, st, owner, inum, off, |src|, src, Blocks(st0.inodes[inum].size), nb)
    requires cur == off + |src| > st.inodes[inum].size
    ensures WriteResult(g, st0, Resize(st, inum, cur), owner, inum, off, src)
    ensures st0.inodes[inum := Resize(st, inum, cur).inodes[inum]] == Resize(st, inum, cur).inodes
  {
    var size := st0.inodes[inum].size;
    assert NoHoles(g, st0, inum);
    CoversBlocks(size, nb, off + |src|);
    WriteFinished(g, st0, owner0, st, owner, inum, off, src, cur);
    SameInodes(g, st0, Resize(st, inum, cur), inum);
  }

  lemma SameResize(st: St, inum: nat)
    requires inum in st.inodes
    ensures Resize(st, inum, st.inodes[inum].size) == st
  {
    assert st.inodes[inum := st.inodes[inum]] == st.inodes;
  }

  lemma SameInodes(g: Geometry, st: St, st': St, inum: nat)
    requires Shape(g, st) && Shape(g, st') && KeepsOthers(g, st, st', inum) && inum in st.inodes
    ensures st.inodes[inum := st'.inodes[inum]] == st'.inodes
    ensures st'.inodes[inum] == st.inodes[inum] ==> st.inodes == st'.inodes
  {
  }

  // Reading

  /** What readi copies out of block cb is the file from offset cur on. */
  lemma ReadStep(g: Geometry, st: St, inum: nat, cur: nat, cur': nat, m: nat, cb: nat, co: nat, addr: nat,
                 piece: seq<byte>)
    requires Shape(g, st) && inum in st.inodes && cur' == cur + m <= st.inodes[inum].size <= 274432
    requires cur == 1024 * cb + co && co + m <= 1024 && cb < 268
    requires SlotVal(g, st, DataSlot(inum, cb)) == addr && 0 < addr < g.size
    requires piece == st.blocks[addr][co..co + m]
    ensures piece == Content(g, st, inum)[cur..cur']
  {
    var c := Content(g, st, inum);
    forall k | 0 <= k < m
      ensures c[cur + k] == piece[k]
    {
      Split(cur + k);
      SameByte(cb, co, m, (cur + k) / 1024, (cur + k) % 1024);
      assert c[cur + k] == FileByte(g, st, inum, (cur + k) / 1024, (cur + k) % 1024);
    }
  }

  // Several writes in a row

  lemma OverwriteTwice(c: seq<byte>, off: nat, a: seq<byte>, b: seq<byte>)
    requires off <= |c|
    ensures off + |a| <= |Overwrite(c, off, a)|
    ensures Overwrite(Overwrite(c, off, a), off + |a|, b) == Overwrite(c, off, a + b)
  {
    var d := Overwrite(c, off, a);
    assert d[..off + |a|] == c[..off] + a;
    if off + |a| + |b| < |c| {
      assert d[off + |a| + |b|..] == c[off + |a| + |b|..];
    }
  }

  lemma ContentTwice(g: Geometry, st0: St, st1: St, st2: St, inum: nat, off: nat, off': nat, a: seq<byte>, b: seq<byte>,
                     ab: seq<byte>)
    requires Shape(g, st0) && Shape(g, st1) && Shape(g, st2) && inum in st0.inodes && inum in st1.inodes
    requires inum in st2.inodes
    requires off <= st0.inodes[inum].size <= 274432 && off' <= st1.inodes[inum].size <= 274432
    requires st2.inodes[inum].size <= 274432
    requires Content(g, st1, inum) == Overwrite(Content(g, st0, inum), off, a)
    requires Content(g, st2, inum) == Overwrite(Content(g, st1, inum), off', b)
    requires off' == off + |a| && ab == a + b
    ensures Content(g, st2, inum) == Overwrite(Content(g, st0, inum), off, ab)
  {
    OverwriteTwice(Content(g, st0, inum), off, a, b);
  }

  /** A read after a write returns the bytes written, and the old bytes around them. */
  lemma ReadsBack(g: Geometry, st0: St, st: St, owner: map<nat, Slot>, inum: nat, off: nat, src: seq<byte>)
    requires WriteResult(g, st0, st, owner, inum, off, src)
    ensures st.inodes[inum].size == Max(st0.inodes[inum].size, off + |src|)
    ensures Content(g, st, inum)[off..off + |src|] == src
    ensures Content(g, st, inum)[..off] == Content(g, st0, inum)[..off]
    ensures off + |src| <= st0.inodes[inum].size ==>
              Content(g, st, inum)[off + |src|..] == Content(g, st0, inum)[off + |src|..]
  {
    var c, c0 := Content(g, st, inum), Content(g, st0, inum);
    assert |c| == |Overwrite(c0, off, src)| == Max(|c0|, off + |src|);
  }

  /** Two writes end to end are one write. */
  lemma WriteTwice(g: Geometry, st0: St, st1: St, own1: map<nat, Slot>, st2: St, own2: map<nat, Slot>, inum: nat,
                   off: nat, off': nat, a: seq<byte>, b: seq<byte>, ab: seq<byte>)
    requires WriteResult(g, st0, st1, own1, inum, off, a) && WriteResult(g, st1, st2, own2, inum, off', b)
    requires off' == off + |a| && ab == a + b
    ensures WriteResult(g, st0, st2, own2, inum, off, ab)
  {
    ContentTwice(g, st0, st1, st2, inum, off, off', a, b, ab);
    KeepsOthersTrans(g, st0, st1, st2, inum);
  }

  /** filewrite so far: `done` is written from offset off on; nothing has changed before the first chunk. */
  ghost predicate Chunks(g: Geometry, st0: St, st: St, owner: map<nat, Slot>, inum: nat, off: nat, done: seq<byte>) {
    if done == [] then st == st0 else WriteResult(g, st0, st, owner, inum, off, done)
  }

  lemma NextChunk(g: Geometry, st0: St, st1: St, own1: map<nat, Slot>, st2: St, own2: map<nat, Slot>, inum: nat,
                  off: nat, off': nat, a: seq<byte>, b: seq<byte>, ab: seq<byte>)
    requires Chunks(g, st0, st1, own1, inum, off, a) && WriteResult(g, st1, st2, own2, inum, off', b)
    requires off' == off + |a| && ab == a + b && b != []
    ensures Chunks(g, st0, st2, own2, inum, off, ab)
  {
    if a == [] {
      assert ab == b && off' == off;
    } else {
      WriteTwice(g, st0, st1, own1, st2, own2, inum, off, off', a, b, ab);
    }
  }
}
