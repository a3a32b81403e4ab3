/** Truncation: what itrunc frees, by value. */
module FsTrunc {
  import opened FsBytes
  import opened FsState
  import opened FsFile

  /** The owner map without the slots lo..hi-1 of one inode. */
  ghost function Without(owner: map<nat, Slot>, inum: nat, lo: nat, hi: nat): map<nat, Slot> {
    map b | b in owner && !(owner[b].inum == inum && lo <= owner[b].idx < hi) :: owner[b]
  }

  /** bfree of a direct or indirect block, and its slot set to 0. */
  function FreedSlot(g: Geometry, st: St, inum: nat, i: nat): St
    requires Shape(g, st) && inum in st.inodes && i <= 12
  {
    var ino := st.inodes[inum];
    St(MarkBit(g, st.blocks, ino.addrs[i], false), st.inodes[inum := Inode(ino.addrs[i := 0], ino.size)])
  }

  lemma FreeDirectSlot(g: Geometry, st: St, owner: map<nat, Slot>, inum: nat, i: nat, t: Slot)
    requires Owned(g, st, owner) && inum in st.inodes && i < 12 && IsSlot(st, t)
    ensures Shape(g, FreedSlot(g, st, inum, i)) && IsSlot(FreedSlot(g, st, inum, i), t)
    ensures SlotVal(g, FreedSlot(g, st, inum, i), t) == if t == Slot(inum, i) then 0 else SlotVal(g, st, t)
  {
    if t.idx > 12 && st.inodes[t.inum].addrs[12] != 0 {
      IndirectOwned(g, st, owner, t.inum);
      MarkBitAt(g, st.blocks, st.inodes[inum].addrs[i], false, st.inodes[t.inum].addrs[12]);
    }
  }

  /** Freeing one direct block keeps every block owned once and the bitmap exact. */
  lemma FreeDirectOwned(g: Geometry, st: St, owner: map<nat, Slot>, inum: nat, i: nat)
    requires Owned(g, st, owner) && inum in st.inodes && i < 12 && st.inodes[inum].addrs[i] != 0
    ensures BitSet(g, st.blocks, st.inodes[inum].addrs[i])
    ensures Owned(g, FreedSlot(g, st, inum, i), Without(owner, inum, i, i + 1))
  {
    var st', s, b := FreedSlot(g, st, inum, i), Slot(inum, i), st.inodes[inum].addrs[i];
    assert IsSlot(st, s) && SlotVal(g, st, s) == b;
    FreeDirectSlot(g, st, owner, inum, i, s);
    forall t: Slot | IsSlot(st, t)
      ensures IsSlot(st', t) && SlotVal(g, st', t) == if t == s then 0 else SlotVal(g, st, t)
    {
      FreeDirectSlot(g, st, owner, inum, i, t);
    }
    forall c: nat | c < g.size
      ensures BitSet(g, st'.blocks, c) <==> c != b && BitSet(g, st.blocks, c)
    {
      MarkBitAt(g, st.blocks, b, false, c);
    }
    FreedOwned(g, st, owner, st', Without(owner, inum, i, i + 1), s, b);
  }

  lemma FreedOwned(g: Geometry, st: St, owner: map<nat, Slot>, st': St, owner': map<nat, Slot>, s: Slot, b: nat)
    requires Owned(g, st, owner) && Shape(g, st') && st'.inodes.Keys == st.inodes.Keys
    requires IsSlot(st, s) && SlotVal(g, st, s) == b != 0
    requires forall t: Slot | IsSlot(st, t) :: SlotVal(g, st', t) == if t == s then 0 else SlotVal(g, st, t)
    requires forall c: nat | c < g.size :: BitSet(g, st'.blocks, c) <==> c != b && BitSet(g, st.blocks, c)
    requires owner' == map c | c in owner && owner[c] != s :: owner[c]
    ensures Owned(g, st', owner')
  {
  }

  /** While itrunc walks the indirect block: the blocks of its first j entries are free, nothing else has changed. */
  ghost predicate EntriesFreed(g: Geometry, st: St, owner: map<nat, Slot>, blocks: seq<Block>, inum: nat, j: nat)
    requires Owned(g, st, owner)
  {
    && |blocks| == g.size
    && (forall c: nat | g.data <= c < g.size :: blocks[c] == st.blocks[c])
    && (forall c: nat | c < g.size :: BitSet(g, blocks, c) <==> c < g.data || c in Without(owner, inum, 13, 13 + j))
  }

  /** The j-th entry: its block is still marked, and bfree clears just its bit. */
  lemma FreeEntry(g: Geometry, st: St, owner: map<nat, Slot>, blocks: seq<Block>, inum: nat, j: nat, a: nat)
    requires Owned(g, st, owner) && inum in st.inodes && j < 256 && st.inodes[inum].addrs[12] != 0
    requires EntriesFreed(g, st, owner, blocks, inum, j) && a == Word(st.blocks[st.inodes[inum].addrs[12]], j)
    ensures a != 0 ==>
              a < g.size && BitSet(g, blocks, a) && EntriesFreed(g, st, owner, MarkBit(g, blocks, a, false), inum,
                j + 1)
    ensures a == 0 ==> EntriesFreed(g, st, owner, blocks, inum, j + 1)
  {
    var s := Slot(inum, 13 + j);
    assert IsSlot(st, s) && SlotVal(g, st, s) == a;
    if a != 0 {
      assert a in owner && owner[a] == s;
      forall c: nat | c < g.size
        ensures BitSet(g, MarkBit(g, blocks, a, false), c) <==> c < g.data || c in Without(owner, inum, 13, 13 + j + 1)
        ensures c >= g.data ==> MarkBit(g, blocks, a, false)[c] == blocks[c]
      {
        MarkBitAt(g, blocks, a, false, c);
        OneMore(g, st, owner, inum, 13, 13 + j, s, c);
      }
    } else {
      forall c: nat | c < g.size
        ensures BitSet(g, blocks, c) <==> c < g.data || c in Without(owner, inum, 13, 13 + j + 1)
      {
        OneMore(g, st, owner, inum, 13, 13 + j, s, c);
      }
    }
  }

  lemma OneMore(g: Geometry, st: St, owner: map<nat, Slot>, inum: nat, lo: nat, hi: nat, s: Slot, c: nat)
    requires Owned(g, st, owner) && s == Slot(inum, hi) && IsSlot(st, s) && lo <= hi
    ensures c in Without(owner, inum, lo, hi + 1) <==> c in Without(owner, inum, lo, hi) && c != SlotVal(g, st, s)
  {
  }

  // At last the indirect block goes too. Its entries need no clearing: without the pointer they are gone.

  lemma DropIndirectSlot(g: Geometry, st: St, owner: map<nat, Slot>, st1: St, inum: nat, t: Slot)
    requires Owned(g, st, owner) && inum in st.inodes && st.inodes[inum].addrs[12] != 0 && IsSlot(st, t)
    requires EntriesFreed(g, st, owner, st1.blocks, inum, 256) && st1.inodes == st.inodes
    ensures Shape(g, st1)
    ensures var st' := FreedSlot(g, st1, inum, 12);
            && Shape(g, st') && IsSlot(st', t)
            && SlotVal(g, st', t) == if t.inum == inum && t.idx >= 12 then 0 else SlotVal(g, st, t)
  {
    if t.idx > 12 && st.inodes[t.inum].addrs[12] != 0 {
      IndirectOwned(g, st, owner, t.inum);
      IndirectOwned(g, st, owner, inum);
      MarkBitAt(g, st1.blocks, st.inodes[inum].addrs[12], false, st.inodes[t.inum].addrs[12]);
    }
  }

  lemma DropIndirectOwned(g: Geometry, st: St, owner: map<nat, Slot>, st1: St, inum: nat)
    requires Owned(g, st, owner) && inum in st.inodes && st.inodes[inum].addrs[12] != 0
    requires EntriesFreed(g, st, owner, st1.blocks, inum, 256) && st1.inodes == st.inodes
    ensures Shape(g, st1) && BitSet(g, st1.blocks, st.inodes[inum].addrs[12])
    ensures Owned(g, FreedSlot(g, st1, inum, 12), Without(owner, inum, 12, 269))
  {
    var st', x, s := FreedSlot(g, st1, inum, 12), st.inodes[inum].addrs[12], Slot(inum, 12);
    IndirectOwned(g, st, owner, inum);
    DropIndirectSlot(g, st, owner, st1, inum, s);
    forall t: Slot | IsSlot(st, t)
      ensures IsSlot(st', t) && SlotVal(g, st', t) == if t.inum == inum && t.idx >= 12 then 0 else SlotVal(g, st, t)
    {
      DropIndirectSlot(g, st, owner, st1, inum, t);
    }
    forall c: nat | c < g.size
      ensures BitSet(g, st'.blocks, c) <==> c < g.data || c in Without(owner, inum, 12, 269)
    {
      MarkBitAt(g, st1.blocks, x, false, c);
      Extend(g, st, owner, inum, c);
    }
    DroppedOwned(g, st, owner, st', Without(owner, inum, 12, 269), inum);
  }

  lemma Extend(g: Geometry, st: St, owner: map<nat, Slot>, inum: nat, c: nat)
    requires Owned(g, st, owner) && inum in st.inodes && st.inodes[inum].addrs[12] != 0
    ensures c in Without(owner, inum, 12, 269) <==> c in Without(owner, inum, 13, 269) && c != st.inodes[inum].addrs[12]
  {
    IndirectOwned(g, st, owner, inum);
    if c in owner && owner[c] == Slot(inum, 12) {
      assert SlotVal(g, st, owner[c]) == c;
    }
  }

  lemma DroppedOwned(g: Geometry, st: St, owner: map<nat, Slot>, st': St, owner': map<nat, Slot>, inum: nat)
    requires Owned(g, st, owner) && Shape(g, st') && st'.inodes.Keys == st.inodes.Keys
    requires forall t: Slot | IsSlot(st, t) ::
               SlotVal(g, st', t) == if t.inum == inum && t.idx >= 12 then 0 else SlotVal(g, st, t)
    requires owner' == Without(owner, inum, 12, 269)
    requires forall c: nat | c < g.size :: BitSet(g, st'.blocks, c) <==> c < g.data || c in owner'
    ensures Owned(g, st', owner')
  {
  }

  // The whole of itrunc

  /** itrunc's loop over the direct slots: the first i are freed and 0, data blocks are untouched. */
  ghost predicate DirectsFreed(g: Geometry, st0: St, owner0: map<nat, Slot>, st: St, owner: map<nat, Slot>, inum: nat,
                               i: nat) {
    && Shape(g, st0) && inum in st0.inodes && Owned(g, st, owner) && i <= 12
    && owner == Without(owner0, inum, 0, i)
    && st.inodes.Keys == st0.inodes.Keys
    && (forall j | j in st0.inodes && j != inum :: st.inodes[j] == st0.inodes[j])
    && (forall k | 0 <= k < i :: st.inodes[inum].addrs[k] == 0)
    && (forall c: nat | g.data <= c < g.size :: st.blocks[c] == st0.blocks[c])
  }

  lemma FreeNext(g: Geometry, st0: St, owner0: map<nat, Slot>, st: St, owner: map<nat, Slot>, inum: nat, i: nat,
                 next: nat)
    requires DirectsFreed(g, st0, owner0, st, owner, inum, i) && next == i + 1 <= 12 && st.inodes[inum].addrs[i] != 0
    ensures BitSet(g, st.blocks, st.inodes[inum].addrs[i])
    ensures DirectsFreed(g, st0, owner0, FreedSlot(g, st, inum, i), Without(owner, inum, i, next), inum, next)
  {
    FreeDirectOwned(g, st, owner, inum, i);
    forall c: nat | g.data <= c < g.size
      ensures FreedSlot(g, st, inum, i).blocks[c] == st.blocks[c]
    {
      MarkBitAt(g, st.blocks, st.inodes[inum].addrs[i], false, c);
    }
    assert Without(owner, inum, i, next) == Without(owner0, inum, 0, next);
  }

  lemma SkipNext(g: Geometry, st0: St, owner0: map<nat, Slot>, st: St, owner: map<nat, Slot>, inum: nat, i: nat,
                 next: nat)
    requires DirectsFreed(g, st0, owner0, st, owner, inum, i) && next == i + 1 <= 12 && st.inodes[inum].addrs[i] == 0
    ensures DirectsFreed(g, st0, owner0, st, owner, inum, next)
  {
    forall b | b in owner
      ensures owner[b] != Slot(inum, i)
    {
      assert SlotVal(g, st, owner[b]) == b != 0;
    }
    assert Without(owner0, inum, 0, i) == Without(owner0, inum, 0, next);
  }

  /** The empty file: no blocks, no bytes. */
  function Empty(): Inode {
    Inode([0, 0, 0, 0, 0, 0, 0, 0, 0, 0, 0, 0, 0], 0)
  }

  /** What itrunc leaves: this inode's blocks, and no others, have lost their owner and their bit;
      the inode is empty; every other file is as it was. */
  ghost predicate Truncated(g: Geometry, st0: St, owner0: map<nat, Slot>, st: St, owner: map<nat, Slot>, inum: nat) {
    && Shape(g, st0) && inum in st0.inodes && inum in st.inodes && Owned(g, st, owner)
    && owner == (map b | b in owner0 && owner0[b].inum != inum :: owner0[b])
    && st.inodes[inum] == Empty()
    && KeepsOthers(g, st0, st, inum)
  }

  lemma SameDataKeepsOthers(g: Geometry, st0: St, owner0: map<nat, Slot>, st: St, inum: nat)
    requires Owned(g, st0, owner0) && Shape(g, st) && st.inodes.Keys == st0.inodes.Keys
    requires forall j | j in st0.inodes && j != inum :: st.inodes[j] == st0.inodes[j]
    requires forall c: nat | g.data <= c < g.size :: st.blocks[c] == st0.blocks[c]
    ensures KeepsOthers(g, st0, st, inum)
  {
    forall t: Slot | IsSlot(st0, t) && t.inum != inum
      ensures SlotVal(g, st, t) == SlotVal(g, st0, t)
    {
      if t.idx > 12 && st0.inodes[t.inum].addrs[12] != 0 {
        IndirectOwned(g, st0, owner0, t.inum);
      }
    }
    forall j, bn: nat, i: nat | j in st0.inodes && j != inum && bn < 268 && i < 1024
      ensures FileByte(g, st, j, bn, i) == FileByte(g, st0, j, bn, i)
    {
      assert IsSlot(st0, DataSlot(j, bn));
    }
  }

  /** Once all its slots are 0, an inode owns nothing. */
  lemma NothingOwned(g: Geometry, st: St, owner: map<nat, Slot>, owner0: map<nat, Slot>, inum: nat)
    requires Owned(g, st, owner) && inum in st.inodes && st.inodes[inum].addrs == Empty().addrs
    requires forall b | b in owner :: b in owner0 && owner[b] == owner0[b]
    requires forall b | b in owner0 && owner0[b].inum != inum :: b in owner
    ensures owner == map b | b in owner0 && owner0[b].inum != inum :: owner0[b]
  {
    forall b | b in owner
      ensures owner[b].inum != inum
    {
      assert SlotVal(g, st, owner[b]) == b != 0;
    }
  }

  /** The size goes last. */
  lemma Emptied(g: Geometry, st0: St, owner0: map<nat, Slot>, st: St, owner: map<nat, Slot>, inum: nat)
    requires Owned(g, st0, owner0) && Owned(g, st, owner) && inum in st.inodes && st.inodes[inum].addrs == Empty().addrs
    requires owner == map b | b in owner0 && owner0[b].inum != inum :: owner0[b]
    requires st.inodes.Keys == st0.inodes.Keys
    requires forall j | j in st0.inodes && j != inum :: st.inodes[j] == st0.inodes[j]
    requires forall c: nat | g.data <= c < g.size :: st.blocks[c] == st0.blocks[c]
    ensures Truncated(g, st0, owner0, Resize(st, inum, 0), owner, inum)
  {
    ResizeKeeps(g, st, owner, inum, 0);
    SameDataKeepsOthers(g, st0, owner0, Resize(st, inum, 0), inum);
  }

  lemma TruncDone(g: Geometry, st0: St, owner0: map<nat, Slot>, st: St, owner: map<nat, Slot>, inum: nat)
    requires Owned(g, st0, owner0) && DirectsFreed(g, st0, owner0, st, owner, inum, 12)
    requires st.inodes[inum].addrs[12] == 0
    ensures Truncated(g, st0, owner0, Resize(st, inum, 0), owner, inum)
  {
    assert st.inodes[inum].addrs == Empty().addrs;
    NothingOwned(g, st, owner, owner0, inum);
    Emptied(g, st0, owner0, st, owner, inum);
  }

  /** The indirect block and its entries freed. */
  lemma IndirectDone(g: Geometry, st0: St, owner0: map<nat, Slot>, st: St, owner: map<nat, Slot>, st1: St, inum: nat)
    requires Owned(g, st0, owner0) && DirectsFreed(g, st0, owner0, st, owner, inum, 12)
    requires st.inodes[inum].addrs[12] != 0
    requires EntriesFreed(g, st, owner, st1.blocks, inum, 256) && st1.inodes == st.inodes
    ensures Shape(g, st1) && BitSet(g, st1.blocks, st.inodes[inum].addrs[12])
    ensures Truncated(g, st0, owner0, Resize(FreedSlot(g, st1, inum, 12), inum, 0), Without(owner, inum, 12, 269), inum)
  {
    var st', owner' := FreedSlot(g, st1, inum, 12), Without(owner, inum, 12, 269);
    DropIndirectOwned(g, st, owner, st1, inum);
    forall c: nat | g.data <= c < g.size
      ensures st'.blocks[c] == st0.blocks[c]
    {
      MarkBitAt(g, st1.blocks, st.inodes[inum].addrs[12], false, c);
    }
    assert st'.inodes[inum].addrs == Empty().addrs;
    NothingOwned(g, st', owner', owner0, inum);
    Emptied(g, st0, owner0, st', owner', inum);
  }

  /** Truncation keeps the file system in order: an empty file has no holes. */
  lemma TruncatedOk(g: Geometry, st0: St, owner0: map<nat, Slot>, st: St, owner: map<nat, Slot>, inum: nat)
    requires FsOk(g, st0, owner0) && Truncated(g, st0, owner0, st, owner, inum)
    ensures FsOk(g, st, owner)
  {
    forall j | j in st.inodes
      ensures NoHoles(g, st, j)
    {
      if j != inum {
        OtherNoHoles(g, st0, st, inum, j);
      }
    }
  }

  // What is logged

  /** The bitmap blocks of the blocks in slots lo..hi-1 of one inode. */
  ghost function BitmapOf(g: Geometry, owner: map<nat, Slot>, inum: nat, lo: nat, hi: nat): set<nat>
    requires g.Valid()
  {
    set b | b in owner && b < g.size && owner[b].inum == inum && lo <= owner[b].idx < hi :: g.BBlock(b)
  }

  lemma BitmapNext(g: Geometry, st: St, owner: map<nat, Slot>, inum: nat, lo: nat, i: nat, next: nat, b: nat)
    requires Owned(g, st, owner) && IsSlot(st, Slot(inum, i)) && lo <= i && next == i + 1
    requires b == SlotVal(g, st, Slot(inum, i))
    ensures BitmapOf(g, owner, inum, lo, next) ==
              BitmapOf(g, owner, inum, lo, i) + if b == 0 then {} else {g.BBlock(b)}
  {
    var s, x := Slot(inum, i), BitmapOf(g, owner, inum, lo, i) + if b == 0 then {} else {g.BBlock(b)};
    forall c | c in owner && owner[c] == s
      ensures c == b
    {
      assert SlotVal(g, st, owner[c]) == c;
    }
    forall n | n in BitmapOf(g, owner, inum, lo, next)
      ensures n in x
    {
      var c :| c in owner && c < g.size && owner[c].inum == inum && lo <= owner[c].idx < next && g.BBlock(c) == n;
      assert owner[c].idx == i ==> owner[c] == s;
    }
  }

  lemma NoBitmapYet(g: Geometry, owner: map<nat, Slot>, inum: nat, lo: nat)
    requires g.Valid()
    ensures BitmapOf(g, owner, inum, lo, lo) == {}
  {
  }

  /** The slots behind those freed first. */
  lemma BitmapRest(g: Geometry, owner0: map<nat, Slot>, owner: map<nat, Slot>, inum: nat, lo: nat, mid: nat, hi: nat)
    requires g.Valid() && owner == Without(owner0, inum, lo, mid) && lo <= mid <= hi
    ensures BitmapOf(g, owner0, inum, lo, hi) == BitmapOf(g, owner0, inum, lo, mid) + BitmapOf(g, owner, inum, mid, hi)
  {
    var x := BitmapOf(g, owner0, inum, lo, mid) + BitmapOf(g, owner, inum, mid, hi);
    forall n | n in BitmapOf(g, owner0, inum, lo, hi)
      ensures n in x
    {
      var c :| c in owner0 && c < g.size && owner0[c].inum == inum && lo <= owner0[c].idx < hi && g.BBlock(c) == n;
      assert owner0[c].idx >= mid ==> c in owner && owner[c] == owner0[c];
    }
  }

  /** The indirect block, and what it lists. */
  lemma IndirectBitmap(g: Geometry, st: St, owner: map<nat, Slot>, inum: nat)
    requires Owned(g, st, owner) && inum in st.inodes && st.inodes[inum].addrs[12] != 0
    ensures BitmapOf(g, owner, inum, 12, 269) ==
              BitmapOf(g, owner, inum, 13, 269) + {g.BBlock(st.inodes[inum].addrs[12])}
  {
    BitmapNext(g, st, owner, inum, 12, 12, 13, st.inodes[inum].addrs[12]);
    NoBitmapYet(g, owner, inum, 12);
    assert BitmapOf(g, owner, inum, 12, 269) == BitmapOf(g, owner, inum, 12, 13) + BitmapOf(g, owner, inum, 13, 269);
  }

  /** Without an indirect block there is nothing from slot 12 on. */
  lemma NoIndirect(g: Geometry, st: St, owner: map<nat, Slot>, inum: nat)
    requires Owned(g, st, owner) && inum in st.inodes && st.inodes[inum].addrs[12] == 0
    ensures BitmapOf(g, owner, inum, 12, 269) == {}
  {
    forall b | b in owner && owner[b].inum == inum
      ensures owner[b].idx < 12
    {
      assert SlotVal(g, st, owner[b]) == b != 0;
    }
  }
}
