/** The file system state and who owns which block. */
module FsState {
  import opened FsBytes

  /** An inode's disk-resident fields that matter here: addrs[12] is the indirect block. There are NDIRECT = 12
      direct blocks and NINDIRECT = 256 entries in the indirect one, so a file has at most MAXFILE = 268 blocks
      or 274432 bytes. */
  datatype Inode = Inode(addrs: seq<nat>, size: nat)

  /** A place that can hold a block number: 0..11 direct, 12 the indirect pointer, 13+j entry j of it. */
  datatype Slot = Slot(inum: nat, idx: nat)

  datatype St = St(blocks: seq<Block>, inodes: map<nat, Inode>)

  /** sb.size, sb.bmapstart, and the first data block. Everything below `data` is boot block,
      superblock, log, inodes and bitmap. */
  datatype Geometry = Geometry(size: nat, bmapstart: nat, data: nat) {
    predicate Valid() {
      && 0 < data <= size < 0x1_0000_0000
      && bmapstart + (size - 1) / 8192 < data
    }

    function BBlock(b: nat): (r: nat)
      requires Valid() && b < size
      ensures r < data && (size <= 8192 ==> r == bmapstart)
    {
      b / 8192 + bmapstart
    }
  }

  predicate Shape(g: Geometry, st: St) {
    && g.Valid() && |st.blocks| == g.size
    && forall i | i in st.inodes ::
         |st.inodes[i].addrs| == 13 && forall k | 0 <= k < 13 :: st.inodes[i].addrs[k] < g.size
  }

  /** The bitmap bit of block b. */
  predicate BitSet(g: Geometry, blocks: seq<Block>, b: nat)
    requires g.Valid() && |blocks| == g.size && b < g.size
  {
    Bit(blocks[g.BBlock(b)][b % 8192 / 8], b % 8192 % 8)
  }

  /** The bit of block b + bi, for b at the start of a bitmap block, as balloc and bfree address it. */
  lemma BitAt(g: Geometry, blocks: seq<Block>, b: nat, bi: nat)
    requires g.Valid() && |blocks| == g.size && b % 8192 == 0 && bi < 8192 && b + bi < g.size
    ensures g.BBlock(b + bi) == g.BBlock(b) && (b + bi) % 8192 == bi
    ensures BitSet(g, blocks, b + bi) <==> Bit(blocks[g.BBlock(b)][bi / 8], bi % 8)
  {
  }

  predicate IsSlot(st: St, s: Slot) {
    s.inum in st.inodes && s.idx < 269
  }

  function SlotVal(g: Geometry, st: St, s: Slot): nat
    requires Shape(g, st) && IsSlot(st, s)
  {
    var a := st.inodes[s.inum].addrs;
    if s.idx <= 12 then a[s.idx] else if a[12] == 0 then 0 else Word(st.blocks[a[12]], s.idx - 13)
  }

  /** Every block number in use is owned by exactly one slot, owned blocks are data blocks, and the
      bitmap marks exactly the metadata and the owned blocks. */
  ghost predicate Owned(g: Geometry, st: St, owner: map<nat, Slot>) {
    && Shape(g, st)
    && (forall s: Slot | IsSlot(st, s) && SlotVal(g, st, s) != 0 ::
          SlotVal(g, st, s) in owner && owner[SlotVal(g, st, s)] == s)
    && (forall b | b in owner :: g.data <= b < g.size && IsSlot(st, owner[b]) && SlotVal(g, st, owner[b]) == b)
    && (forall b: nat {:trigger BitSet(g, st.blocks, b)} | b < g.size :: BitSet(g, st.blocks, b) <==>
         b < g.data || b in owner)
  }

  // Single updates

  /** bp->data[bi / 8] |= m, or &= ~m. */
  function MarkBit(g: Geometry, blocks: seq<Block>, b: nat, on: bool): (r: seq<Block>)
    requires g.Valid() && |blocks| == g.size && b < g.size
    ensures |r| == |blocks|
  {
    var n := g.BBlock(b);
    var x := blocks[n][b % 8192 / 8];
    blocks[n := blocks[n][b % 8192 / 8 := if on then x | Mask(b % 8192 % 8) else x & !Mask(b % 8192 % 8)]]
  }

  /** Changing bit k of byte i of block n, seen at bit k1 of byte i1 of block n1. */
  lemma BitChange(blocks: seq<Block>, n: nat, i: nat, k: nat, on: bool, n1: nat, i1: nat, k1: nat)
    requires n < |blocks| && n1 < |blocks| && i < 1024 && i1 < 1024 && k < 8 && k1 < 8
    ensures var x := blocks[n][i];
            Bit(blocks[n := blocks[n][i := if on then x | Mask(k) else x & !Mask(k)]][n1][i1], k1)
            <==> if n1 == n && i1 == i && k1 == k then on else Bit(blocks[n1][i1], k1)
  {
    var x := blocks[n][i];
    ByteSet(blocks, n, i, if on then x | Mask(k) else x & !Mask(k), n1, i1);
    ByteChange(x, k, on, k1);
  }

  lemma ByteSet(blocks: seq<Block>, n: nat, i: nat, y: byte, n1: nat, i1: nat)
    requires n < |blocks| && n1 < |blocks| && i < 1024 && i1 < 1024
    ensures blocks[n := blocks[n][i := y]][n1][i1] == if n1 == n && i1 == i then y else blocks[n1][i1]
  {
  }

  lemma ByteChange(x: byte, k: nat, on: bool, k1: nat)
    requires k < 8 && k1 < 8
    ensures Bit(if on then x | Mask(k) else x & !Mask(k), k1) <==> if k1 == k then on else Bit(x, k1)
  {
    MaskBits(x, k, k1);
  }

  lemma MarkBitAt(g: Geometry, blocks: seq<Block>, b: nat, on: bool, c: nat)
    requires g.Valid() && |blocks| == g.size && b < g.size && c < g.size
    ensures BitSet(g, MarkBit(g, blocks, b, on), c) <==> if c == b then on else BitSet(g, blocks, c)
    ensures c >= g.data ==> MarkBit(g, blocks, b, on)[c] == blocks[c]
  {
    var n, i, k := g.BBlock(b), b % 8192 / 8, b % 8192 % 8;
    var n1, i1, k1 := g.BBlock(c), c % 8192 / 8, c % 8192 % 8;
    SamePlace(g, b, c, n, i, k, n1, i1, k1);
    BitChange(blocks, n, i, k, on, n1, i1, k1);
    MarkKeeps(g, blocks, b, on, c);
    var r := MarkBit(g, blocks, b, on);
    assert BitSet(g, r, c) <==> Bit(r[n1][i1], k1);
    assert BitSet(g, blocks, c) <==> Bit(blocks[n1][i1], k1);
  }

  lemma MarkKeeps(g: Geometry, blocks: seq<Block>, b: nat, on: bool, c: nat)
    requires g.Valid() && |blocks| == g.size && b < g.size && c < g.size
    ensures c >= g.data ==> MarkBit(g, blocks, b, on)[c] == blocks[c]
  {
    assert g.BBlock(b) < g.data;
  }

  lemma SamePlace(g: Geometry, b: nat, c: nat, n: nat, i: nat, k: nat, n1: nat, i1: nat, k1: nat)
    requires g.Valid() && b < g.size && c < g.size
    requires n == g.BBlock(b) && i == b % 8192 / 8 && k == b % 8192 % 8
    requires n1 == g.BBlock(c) && i1 == c % 8192 / 8 && k1 == c % 8192 % 8
    ensures n1 == n && i1 == i && k1 == k <==> c == b
  {
    SameBit(b, c);
  }

  lemma SameBit(b: nat, c: nat)
    ensures b / 8192 == c / 8192 && b % 8192 / 8 == c % 8192 / 8 && b % 8192 % 8 == c % 8192 % 8 ==> b == c
  {
    var r, t := b % 8192, c % 8192;
    assert r == 8 * (r / 8) + r % 8 && t == 8 * (t / 8) + t % 8;
    assert b == 8192 * (b / 8192) + r && c == 8192 * (c / 8192) + t;
  }

  /** balloc: mark block b in use and zero it. */
  function Balloc(g: Geometry, st: St, b: nat): St
    requires Shape(g, st) && b < g.size
  {
    St(MarkBit(g, st.blocks, b, true)[b := Zero()], st.inodes)
  }

  /** Store a block number in a slot: in the inode, or in the indirect block. */
  function Put(g: Geometry, st: St, s: Slot, v: nat): St
    requires Shape(g, st) && IsSlot(st, s) && v < g.size
    requires s.idx > 12 ==> st.inodes[s.inum].addrs[12] != 0
  {
    var ino := st.inodes[s.inum];
    if s.idx <= 12 then
      St(st.blocks, st.inodes[s.inum := Inode(ino.addrs[s.idx := v], ino.size)])
    else
      var x := ino.addrs[12];
      St(st.blocks[x := SetWord(st.blocks[x], s.idx - 13, v)], st.inodes)
  }

  /** A block in use as an indirect block is owned by that pointer alone. */
  lemma IndirectOwned(g: Geometry, st: St, owner: map<nat, Slot>, inum: nat)
    requires Owned(g, st, owner) && inum in st.inodes && st.inodes[inum].addrs[12] != 0
    ensures var x := st.inodes[inum].addrs[12]; x in owner && owner[x] == Slot(inum, 12) && g.data <= x
  {
    assert SlotVal(g, st, Slot(inum, 12)) == st.inodes[inum].addrs[12];
  }

  /** Changing bitmap blocks and a block nobody owns moves no slot. */
  lemma UnownedKeepsSlots(g: Geometry, st: St, owner: map<nat, Slot>, st': St, s: Slot)
    requires Owned(g, st, owner) && IsSlot(st, s) && st'.inodes == st.inodes && |st'.blocks| == |st.blocks|
    requires forall c | c in owner :: st'.blocks[c] == st.blocks[c]
    ensures Shape(g, st') && SlotVal(g, st', s) == SlotVal(g, st, s)
  {
    if s.idx > 12 && st.inodes[s.inum].addrs[12] != 0 {
      IndirectOwned(g, st, owner, s.inum);
    }
  }

  lemma BallocKeeps(g: Geometry, st: St, owner: map<nat, Slot>, b: nat, s: Slot)
    requires Owned(g, st, owner) && b < g.size && !BitSet(g, st.blocks, b) && IsSlot(st, s)
    ensures b !in owner && g.data <= b
    ensures Shape(g, Balloc(g, st, b)) && SlotVal(g, Balloc(g, st, b), s) == SlotVal(g, st, s)
    ensures forall c | c in owner :: Balloc(g, st, b).blocks[c] == st.blocks[c]
  {
    forall c | c in owner
      ensures Balloc(g, st, b).blocks[c] == st.blocks[c]
    {
      MarkBitAt(g, st.blocks, b, true, c);
    }
    UnownedKeepsSlots(g, st, owner, Balloc(g, st, b), s);
  }

  /** Storing v in the empty slot s changes that slot only. A new indirect block must be all zero. */
  lemma PutAt(g: Geometry, st: St, s: Slot, v: nat, t: Slot)
    requires Shape(g, st) && IsSlot(st, s) && IsSlot(st, t) && v < g.size
    requires s.idx > 12 ==> st.inodes[s.inum].addrs[12] != 0
    requires s.idx == 12 ==> st.inodes[s.inum].addrs[12] == 0 && (v != 0 ==> st.blocks[v] == Zero())
    requires s.idx > 12 && t.idx > 12 && t.inum != s.inum ==> st.inodes[t.inum].addrs[12] != st.inodes[s.inum].addrs[12]
    ensures Shape(g, Put(g, st, s, v)) && IsSlot(Put(g, st, s, v), t)
    ensures SlotVal(g, Put(g, st, s, v), t) == if t == s then v else SlotVal(g, st, t)
  {
    if s.idx > 12 && t.idx > 12 {
      var x := st.inodes[s.inum].addrs[12];
      WordSet(st.blocks[x], s.idx - 13, v, t.idx - 13);
    } else if s.idx == 12 && t.idx > 12 {
      WordZero(t.idx - 13);
    }
  }

  /** bmap's allocation: the block balloc found goes into the empty slot. */
  function AllocInto(g: Geometry, st: St, s: Slot, b: nat): St
    requires Shape(g, st) && IsSlot(st, s) && b < g.size
    requires s.idx > 12 ==> st.inodes[s.inum].addrs[12] != 0
  {
    Put(g, Balloc(g, st, b), s, b)
  }

  lemma AllocIntoAt(g: Geometry, st: St, owner: map<nat, Slot>, s: Slot, b: nat, t: Slot)
    requires Owned(g, st, owner) && IsSlot(st, s) && IsSlot(st, t) && SlotVal(g, st, s) == 0
    requires s.idx > 12 ==> st.inodes[s.inum].addrs[12] != 0
    requires b < g.size && !BitSet(g, st.blocks, b)
    ensures Shape(g, AllocInto(g, st, s, b)) && IsSlot(AllocInto(g, st, s, b), t)
    ensures SlotVal(g, AllocInto(g, st, s, b), t) == if t == s then b else SlotVal(g, st, t)
  {
    BallocKeeps(g, st, owner, b, s);
    BallocKeeps(g, st, owner, b, t);
    if s.idx > 12 && t.idx > 12 && t.inum != s.inum {
      IndirectOwned(g, st, owner, s.inum);
      if st.inodes[t.inum].addrs[12] != 0 {
        IndirectOwned(g, st, owner, t.inum);
      }
    }
    PutAt(g, Balloc(g, st, b), s, b, t);
  }

  /** Bits live below the data blocks. */
  lemma SameBits(g: Geometry, blocks: seq<Block>, blocks': seq<Block>, c: nat)
    requires g.Valid() && |blocks| == |blocks'| == g.size && c < g.size
    requires forall n | 0 <= n < g.data :: blocks'[n] == blocks[n]
    ensures BitSet(g, blocks', c) <==> BitSet(g, blocks, c)
  {
  }

  /** The bitmap after an allocation. */
  lemma AllocIntoBits(g: Geometry, st: St, owner: map<nat, Slot>, s: Slot, b: nat, c: nat)
    requires Owned(g, st, owner) && IsSlot(st, s)
    requires s.idx > 12 ==> st.inodes[s.inum].addrs[12] != 0
    requires b < g.size && !BitSet(g, st.blocks, b) && c < g.size
    ensures BitSet(g, AllocInto(g, st, s, b).blocks, c) <==> c == b || BitSet(g, st.blocks, c)
  {
    assert g.data <= b;
    MarkBitAt(g, st.blocks, b, true, c);
    if s.idx > 12 {
      IndirectOwned(g, st, owner, s.inum);
    }
    SameBits(g, MarkBit(g, st.blocks, b, true), AllocInto(g, st, s, b).blocks, c);
  }

  /** Allocation keeps every block owned once and the bitmap exact. */
  lemma AllocOwned(g: Geometry, st: St, owner: map<nat, Slot>, s: Slot, b: nat)
    requires Owned(g, st, owner) && IsSlot(st, s) && SlotVal(g, st, s) == 0
    requires s.idx > 12 ==> st.inodes[s.inum].addrs[12] != 0
    requires b < g.size && !BitSet(g, st.blocks, b)
    ensures Owned(g, AllocInto(g, st, s, b), owner[b := s]) && b !in owner && g.data <= b
  {
    var st' := AllocInto(g, st, s, b);
    BallocKeeps(g, st, owner, b, s);
    AllocIntoAt(g, st, owner, s, b, s);
    forall t: Slot | IsSlot(st, t)
      ensures IsSlot(st', t) && SlotVal(g, st', t) == if t == s then b else SlotVal(g, st, t)
    {
      AllocIntoAt(g, st, owner, s, b, t);
    }
    forall c: nat | c < g.size
      ensures BitSet(g, st'.blocks, c) <==> c == b || BitSet(g, st.blocks, c)
    {
      AllocIntoBits(g, st, owner, s, b, c);
    }
    OwnedAfter(g, st, owner, s, b, st');
  }

  lemma OwnedAfter(g: Geometry, st: St, owner: map<nat, Slot>, s: Slot, b: nat, st': St)
    requires Owned(g, st, owner) && Shape(g, st') && st'.inodes.Keys == st.inodes.Keys
    requires IsSlot(st, s) && SlotVal(g, st, s) == 0 && b !in owner && g.data <= b < g.size
    requires forall t: Slot | IsSlot(st, t) :: SlotVal(g, st', t) == if t == s then b else SlotVal(g, st, t)
    requires forall c: nat | c < g.size :: BitSet(g, st'.blocks, c) <==> c == b || BitSet(g, st.blocks, c)
    ensures Owned(g, st', owner[b := s])
  {
  }

  // File contents

  /** The slot of a file's bn-th block. */
  function DataSlot(inum: nat, bn: nat): Slot {
    Slot(inum, if bn < 12 then bn else bn + 1)
  }

  /** Every file block keeps its number and its bytes. */
  ghost predicate KeepsData(g: Geometry, st: St, st': St)
    requires Shape(g, st) && Shape(g, st')
  {
    && st'.inodes.Keys == st.inodes.Keys
    && forall t: Slot | IsSlot(st, t) && t.idx != 12 && SlotVal(g, st, t) != 0 ::
         SlotVal(g, st', t) == SlotVal(g, st, t)
         && SlotVal(g, st, t) < g.size && st'.blocks[SlotVal(g, st, t)] == st.blocks[SlotVal(g, st, t)]
  }

  lemma AllocKeepsData(g: Geometry, st: St, owner: map<nat, Slot>, s: Slot, b: nat)
    requires Owned(g, st, owner) && IsSlot(st, s) && SlotVal(g, st, s) == 0
    requires s.idx > 12 ==> st.inodes[s.inum].addrs[12] != 0
    requires b < g.size && !BitSet(g, st.blocks, b)
    ensures Shape(g, AllocInto(g, st, s, b)) && KeepsData(g, st, AllocInto(g, st, s, b))
  {
    AllocIntoAt(g, st, owner, s, b, s);
    forall t: Slot | IsSlot(st, t) && t.idx != 12 && SlotVal(g, st, t) != 0
      ensures SlotVal(g, AllocInto(g, st, s, b), t) == SlotVal(g, st, t) && SlotVal(g, st, t) < g.size
      ensures AllocInto(g, st, s, b).blocks[SlotVal(g, st, t)] == st.blocks[SlotVal(g, st, t)]
    {
      AllocKeepsBlock(g, st, owner, s, b, t);
    }
  }

  /** The new block is zero, and of the inodes only this one's pointers change. */
  lemma AllocFresh(g: Geometry, st: St, owner: map<nat, Slot>, s: Slot, b: nat)
    requires Owned(g, st, owner) && IsSlot(st, s)
    requires s.idx > 12 ==> st.inodes[s.inum].addrs[12] != 0
    requires b < g.size && !BitSet(g, st.blocks, b)
    ensures AllocInto(g, st, s, b).blocks[b] == Zero()
    ensures AllocInto(g, st, s, b).inodes.Keys == st.inodes.Keys
    ensures forall i | i in st.inodes :: AllocInto(g, st, s, b).inodes[i].size == st.inodes[i].size
                                         && (i != s.inum ==> AllocInto(g, st, s, b).inodes[i] == st.inodes[i])
  {
    if s.idx > 12 {
      IndirectOwned(g, st, owner, s.inum);
    }
  }

  lemma AllocKeepsBlock(g: Geometry, st: St, owner: map<nat, Slot>, s: Slot, b: nat, t: Slot)
    requires Owned(g, st, owner) && IsSlot(st, s) && SlotVal(g, st, s) == 0
    requires s.idx > 12 ==> st.inodes[s.inum].addrs[12] != 0
    requires b < g.size && !BitSet(g, st.blocks, b)
    requires IsSlot(st, t) && t.idx != 12 && SlotVal(g, st, t) != 0
    ensures Shape(g, AllocInto(g, st, s, b)) && IsSlot(AllocInto(g, st, s, b), t)
    ensures SlotVal(g, AllocInto(g, st, s, b), t) == SlotVal(g, st, t) && SlotVal(g, st, t) < g.size
    ensures AllocInto(g, st, s, b).blocks[SlotVal(g, st, t)] == st.blocks[SlotVal(g, st, t)]
  {
    AllocIntoAt(g, st, owner, s, b, t);
    var v := SlotVal(g, st, t);
    assert v in owner && owner[v] == t;
    assert b !in owner;
    if s.idx > 12 {
      IndirectOwned(g, st, owner, s.inum);
    }
    AllocBlocks(g, st, s, b, v);
  }

  /** A block other than the new one and the indirect block keeps its bytes. */
  lemma AllocBlocks(g: Geometry, st: St, s: Slot, b: nat, c: nat)
    requires Shape(g, st) && IsSlot(st, s) && b < g.size && g.data <= c < g.size && c != b
    requires s.idx > 12 ==> st.inodes[s.inum].addrs[12] != 0 && st.inodes[s.inum].addrs[12] != c
    ensures AllocInto(g, st, s, b).blocks[c] == st.blocks[c]
  {
  }

  /** What bmap(inum, bn) may do to get the file's bn-th block, `addr`. */
  ghost predicate MapEffect(g: Geometry, st: St, st': St, inum: nat, bn: nat, addr: nat) {
    && Shape(g, st) && Shape(g, st') && KeepsData(g, st, st') && inum in st.inodes && bn < 268
    && addr != 0 && SlotVal(g, st', DataSlot(inum, bn)) == addr
    // nothing changes when the block exists; a new one is all zero
    && (SlotVal(g, st, DataSlot(inum, bn)) != 0 ==> st' == st)
    && (SlotVal(g, st, DataSlot(inum, bn)) == 0 ==> addr < g.size && st'.blocks[addr] == Zero())
    // no other slot is filled, save the indirect pointer when it is needed
    && (forall t: Slot | IsSlot(st, t) && t != DataSlot(inum, bn) && t != Slot(inum, 12) ::
          SlotVal(g, st', t) == SlotVal(g, st, t))
    && (st'.inodes[inum].addrs[12] != 0 <==> st.inodes[inum].addrs[12] != 0 || bn >= 12)
    && (st.inodes[inum].addrs[12] != 0 ==> st'.inodes[inum].addrs[12] == st.inodes[inum].addrs[12])
    && (forall i | i in st.inodes ::
         st'.inodes[i].size == st.inodes[i].size && (i != inum ==> st'.inodes[i] == st.inodes[i]))
  }

  lemma SameEffect(g: Geometry, st: St, owner: map<nat, Slot>, inum: nat, bn: nat)
    requires Owned(g, st, owner) && inum in st.inodes && bn < 268 && SlotVal(g, st, DataSlot(inum, bn)) != 0
    ensures MapEffect(g, st, st, inum, bn, SlotVal(g, st, DataSlot(inum, bn)))
  {
    forall t: Slot | IsSlot(st, t) && SlotVal(g, st, t) != 0
      ensures SlotVal(g, st, t) < g.size
    {
      assert SlotVal(g, st, t) in owner;
    }
  }

  /** Filling the data slot itself, its indirect block being there. */
  lemma FillEffect(g: Geometry, st: St, owner: map<nat, Slot>, inum: nat, bn: nat, b: nat)
    requires Owned(g, st, owner) && inum in st.inodes && bn < 268
    requires SlotVal(g, st, DataSlot(inum, bn)) == 0
    requires bn >= 12 ==> st.inodes[inum].addrs[12] != 0
    requires b < g.size && !BitSet(g, st.blocks, b)
    ensures MapEffect(g, st, AllocInto(g, st, DataSlot(inum, bn), b), inum, bn, b)
  {
    var s := DataSlot(inum, bn);
    var st' := AllocInto(g, st, s, b);
    AllocKeepsData(g, st, owner, s, b);
    AllocFresh(g, st, owner, s, b);
    BallocKeeps(g, st, owner, b, s);
    forall t: Slot | IsSlot(st, t)
      ensures SlotVal(g, st', t) == if t == s then b else SlotVal(g, st, t)
    {
      AllocIntoAt(g, st, owner, s, b, t);
    }
  }

  /** A new indirect block first, then the data slot. */
  lemma FillIndirectEffect(g: Geometry, st: St, owner: map<nat, Slot>, inum: nat, bn: nat, x: nat, b: nat)
    requires Owned(g, st, owner) && inum in st.inodes && 12 <= bn < 268 && st.inodes[inum].addrs[12] == 0
    requires x < g.size && !BitSet(g, st.blocks, x)
    requires b < g.size && !BitSet(g, AllocInto(g, st, Slot(inum, 12), x).blocks, b)
    ensures var st1 := AllocInto(g, st, Slot(inum, 12), x);
            && Owned(g, st1, owner[x := Slot(inum, 12)]) && st1.inodes[inum].addrs[12] == x != 0
            && MapEffect(g, st, AllocInto(g, st1, DataSlot(inum, bn), b), inum, bn, b)
  {
    var p := Slot(inum, 12);
    var st1 := AllocInto(g, st, p, x);
    AllocOwned(g, st, owner, p, x);
    AllocKeepsData(g, st, owner, p, x);
    AllocFresh(g, st, owner, p, x);
    forall t: Slot | IsSlot(st, t)
      ensures SlotVal(g, st1, t) == if t == p then x else SlotVal(g, st, t)
    {
      AllocIntoAt(g, st, owner, p, x, t);
    }
    FillEffect(g, st1, owner[x := p], inum, bn, b);
    KeepsDataTrans(g, st, st1, AllocInto(g, st1, DataSlot(inum, bn), b));
  }

  /** Both ways through bmap's second half: `st1` once the indirect block is there, `st2` at the end. */
  lemma IndirectEffect(g: Geometry, st: St, owner: map<nat, Slot>, st1: St, st2: St, inum: nat, bn: nat, x: nat, b: nat)
    requires Owned(g, st, owner) && inum in st.inodes && 12 <= bn < 268
    requires if st.inodes[inum].addrs[12] != 0 then st1 == st
             else x < g.size && !BitSet(g, st.blocks, x) && st1 == AllocInto(g, st, Slot(inum, 12), x)
    requires Shape(g, st1) && IsSlot(st1, DataSlot(inum, bn)) && st1.inodes[inum].addrs[12] != 0
    requires if SlotVal(g, st1, DataSlot(inum, bn)) != 0 then st2 == st1 && b == SlotVal(g, st1, DataSlot(inum, bn))
             else b < g.size && !BitSet(g, st1.blocks, b) && st2 == AllocInto(g, st1, DataSlot(inum, bn), b)
    ensures MapEffect(g, st, st2, inum, bn, b)
  {
    if st.inodes[inum].addrs[12] == 0 {
      AllocIntoAt(g, st, owner, Slot(inum, 12), x, DataSlot(inum, bn));
      FillIndirectEffect(g, st, owner, inum, bn, x, b);
    } else if SlotVal(g, st, DataSlot(inum, bn)) == 0 {
      FillEffect(g, st, owner, inum, bn, b);
    } else {
      SameEffect(g, st, owner, inum, bn);
    }
  }

  lemma KeepsDataTrans(g: Geometry, a: St, b: St, c: St)
    requires Shape(g, a) && Shape(g, b) && Shape(g, c) && KeepsData(g, a, b) && KeepsData(g, b, c)
    ensures KeepsData(g, a, c)
  {
  }
}
