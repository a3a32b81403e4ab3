/** Physical pages, the free pool, and two-level page tables as values. */
module PageTable {

  /** A page as 1024 words. */
  type Page = p: seq<nat> | |p| == 1024 witness seq(1024, _ => 0)

  function ZeroPage(): (p: Page)
    ensures forall j | 0 <= j < 1024 :: p[j] == 0
  {
    seq(1024, _ => 0)
  }

  /** What kfree fills a page with. */
  function Junk(): Page { seq(1024, _ => 0x01010101) }

  // A page-table entry: a physical page number and twelve flag bits, bit 0 being PTE_P.

  predicate Present(w: nat) { w % 2 == 1 }

  function PAddr(w: nat): nat { w / 4096 }

  function Flags(w: nat): nat { w % 4096 }

  /** pa | perm | PTE_P */
  function Pte(ppn: nat, perm: nat): nat {
    4096 * ppn + if perm % 2 == 1 then perm else perm + 1
  }

  lemma PteParts(ppn: nat, perm: nat)
    requires perm < 4096
    ensures Present(Pte(ppn, perm)) && PAddr(Pte(ppn, perm)) == ppn
    ensures Flags(Pte(ppn, perm)) == if perm % 2 == 1 then perm else perm + 1
  {
  }

  lemma PteOpen(ppn: nat)
    ensures Open(Pte(ppn, 6))
  {
    assert 4096 * ppn + 7 == 8 * (512 * ppn) + 7;
  }

  /** The free list of kalloc.c, head first, and the contents of the pages it manages. */
  datatype Mem = Mem(free: seq<nat>, pages: map<nat, Page>)

  /** The word for page (i, j) of the address space: entry j of the table in entry i of the directory, 0 if none. */
  function Entry(m: Mem, dir: nat, i: nat, j: nat): nat
    requires dir in m.pages && i < 1024 && j < 1024
  {
    var pde := m.pages[dir][i];
    if Present(pde) && PAddr(pde) in m.pages then m.pages[PAddr(pde)][j] else 0
  }

  /** mappages: 0, -1, or panic("remap"). */
  datatype MapResult = Done | NoMemory | Remap

  /** copyuvm: the child's directory; 0 because kalloc failed, or because mappages did; or a panic. */
  datatype CopyResult = Child(dir: nat) | NoPage | NoTable | NotMapped

  /** What a page of an address space is for: the directory, table i, or the user page (i, j). */
  datatype Use = Dir | Table(i: nat) | User(ui: nat, uj: nat)

  /** The free list holds pages of the pool, each once. */
  ghost predicate PoolOk(m: Mem) {
    && (forall k | 0 <= k < |m.free| :: m.free[k] in m.pages)
    && (forall k, l | 0 <= k < l < |m.free| :: m.free[k] != m.free[l])
  }

  /** A directory entry that leaves the decision to the table: P, W and U are set. */
  predicate Open(w: nat) { w % 8 == 7 }

  /** An address space: every page it refers to below KERNBASE, and its tables and directory, are its own,
      each in one role; its pages are not free; its directory entries restrict nothing. */
  ghost predicate Space(m: Mem, dir: nat, owner: map<nat, Use>) {
    && PoolOk(m)
    && dir in owner && owner[dir] == Dir
    && (forall p | p in owner :: p in m.pages && p !in m.free && (owner[p].Dir? ==> p == dir))
    && (forall i: nat | i < 1024 && Present(m.pages[dir][i]) ::
          PAddr(m.pages[dir][i]) in owner && owner[PAddr(m.pages[dir][i])] == Table(i) && Open(m.pages[dir][i]))
    && (forall p | p in owner && owner[p].Table? ::
          owner[p].i < 1024 && Present(m.pages[dir][owner[p].i]) && PAddr(m.pages[dir][owner[p].i]) == p)
    && (forall i: nat, j: nat | i < 512 && j < 1024 && Present(Entry(m, dir, i, j)) ::
          PAddr(Entry(m, dir, i, j)) in owner && owner[PAddr(Entry(m, dir, i, j))] == User(i, j))
    && (forall p | p in owner && owner[p].User? ::
          owner[p].ui < 512 && owner[p].uj < 1024
          && Present(Entry(m, dir, owner[p].ui, owner[p].uj)) && PAddr(Entry(m, dir, owner[p].ui, owner[p].uj)) == p)
  }

  /** What any work on one address space may do to memory: its own and the free pages together stay the same set,
      and pages that are neither keep their contents. */
  ghost predicate PoolKept(m: Mem, owner: map<nat, Use>, m': Mem, owner': map<nat, Use>) {
    && m'.pages.Keys == m.pages.Keys
    && (forall p | p in m.pages :: p in m'.free || p in owner' <==> p in m.free || p in owner)
    && (forall p | p in m.pages && p !in m.free && p !in owner :: m'.pages[p] == m.pages[p])
  }

  /** PoolKept, and its user pages that stay keep their place and their contents. */
  ghost predicate Conserves(m: Mem, owner: map<nat, Use>, m': Mem, owner': map<nat, Use>) {
    && PoolKept(m, owner, m', owner')
    && (forall p | p in owner && p in owner' && p in m.pages && owner[p].User? ::
          owner'[p] == owner[p] && m'.pages[p] == m.pages[p])
  }

  // One step at a time

  /** walkpgdir gives directory entry i a fresh table: kalloc, memset, and the entry, with P, W and U set. */
  function NewTable(m: Mem, dir: nat, i: nat): Mem
    requires m.free != [] && dir in m.pages && i < 1024
  {
    var t := m.free[0];
    var pages := m.pages[t := ZeroPage()];
    Mem(m.free[1..], pages[dir := pages[dir][i := Pte(t, 6)]])
  }

  lemma NewTableSpace(m: Mem, dir: nat, owner: map<nat, Use>, i: nat)
    requires Space(m, dir, owner) && m.free != [] && i < 1024 && !Present(m.pages[dir][i])
    ensures var t, m' := m.free[0], NewTable(m, dir, i);
            && t !in owner && Space(m', dir, owner[t := Table(i)]) && Conserves(m, owner, m', owner[t := Table(i)])
            && Present(m'.pages[dir][i]) && PAddr(m'.pages[dir][i]) == t
    ensures forall k: nat, l: nat | k < 1024 && l < 1024 :: Entry(NewTable(m, dir, i), dir, k, l) == Entry(m, dir, k, l)
  {
    var t, m' := m.free[0], NewTable(m, dir, i);
    PteParts(t, 6);
    PteOpen(t);
    assert m.free[0] in m.free;
    forall k: nat, l: nat | k < 1024 && l < 1024
      ensures Entry(m', dir, k, l) == Entry(m, dir, k, l)
    {
      if k != i && Present(m.pages[dir][k]) {
        assert PAddr(m.pages[dir][k]) in owner;
      }
    }
  }

  /** Write a page-table entry. */
  function SetEntry(m: Mem, dir: nat, i: nat, j: nat, w: nat): Mem
    requires dir in m.pages && i < 1024 && j < 1024 && PAddr(m.pages[dir][i]) in m.pages
  {
    var t := PAddr(m.pages[dir][i]);
    Mem(m.free, m.pages[t := m.pages[t][j := w]])
  }

  lemma SetEntryAt(m: Mem, dir: nat, owner: map<nat, Use>, i: nat, j: nat, w: nat, k: nat, l: nat)
    requires Space(m, dir, owner) && i < 1024 && j < 1024 && k < 1024 && l < 1024 && Present(m.pages[dir][i])
    ensures PAddr(m.pages[dir][i]) in m.pages && SetEntry(m, dir, i, j, w).pages[dir] == m.pages[dir]
    ensures Entry(SetEntry(m, dir, i, j, w), dir, k, l) == if k == i && l == j then w else Entry(m, dir, k, l)
  {
    var t := PAddr(m.pages[dir][i]);
    assert t in owner && owner[t] == Table(i);
    if Present(m.pages[dir][k]) {
      assert owner[PAddr(m.pages[dir][k])] == Table(k);
    }
  }

  /** Mapping a kernel page: no page changes hands. */
  lemma MapKernel(m: Mem, dir: nat, owner: map<nat, Use>, i: nat, j: nat, w: nat)
    requires Space(m, dir, owner) && 512 <= i < 1024 && j < 1024 && Present(m.pages[dir][i])
    ensures PAddr(m.pages[dir][i]) in m.pages
    ensures Space(SetEntry(m, dir, i, j, w), dir, owner) && Conserves(m, owner, SetEntry(m, dir, i, j, w), owner)
  {
    var t := PAddr(m.pages[dir][i]);
    assert t in owner && owner[t] == Table(i);
    SetEntryAt(m, dir, owner, i, j, w, i, j);
    forall k: nat, l: nat | k < 512 && l < 1024
      ensures Entry(SetEntry(m, dir, i, j, w), dir, k, l) == Entry(m, dir, k, l)
    {
      SetEntryAt(m, dir, owner, i, j, w, k, l);
    }
  }

  /** Pages taken from the pool for the space, but not yet in it. */
  ghost predicate InHand(m: Mem, owner: map<nat, Use>, p: nat) {
    p in m.pages && p !in m.free && p !in owner
  }

  /** Mapping a user page: the page in hand becomes the space's own. */
  lemma MapUser(m: Mem, dir: nat, owner: map<nat, Use>, i: nat, j: nat, p: nat, perm: nat)
    requires Space(m, dir, owner) && i < 512 && j < 1024 && Present(m.pages[dir][i]) && !Present(Entry(m, dir, i, j))
    requires InHand(m, owner, p) && perm < 4096
    ensures PAddr(m.pages[dir][i]) in m.pages
    ensures var m' := SetEntry(m, dir, i, j, Pte(p, perm));
            Space(m', dir, owner[p := User(i, j)]) && m'.pages[p] == m.pages[p]
  {
    PteParts(p, perm);
    var w := Pte(p, perm);
    var m' := SetEntry(m, dir, i, j, w);
    var t := PAddr(m.pages[dir][i]);
    assert t in owner && owner[t] == Table(i);
    SetEntryAt(m, dir, owner, i, j, w, i, j);
    forall k: nat, l: nat | k < 512 && l < 1024
      ensures Entry(m', dir, k, l) == if k == i && l == j then w else Entry(m, dir, k, l)
    {
      SetEntryAt(m, dir, owner, i, j, w, k, l);
    }
    MappedSpace(m, dir, owner, m', i, j, p, w);
  }

  lemma MappedSpace(m: Mem, dir: nat, owner: map<nat, Use>, m': Mem, i: nat, j: nat, p: nat, w: nat)
    requires Space(m, dir, owner) && i < 512 && j < 1024 && !Present(Entry(m, dir, i, j)) && InHand(m, owner, p)
    requires m'.pages.Keys == m.pages.Keys && m'.free == m.free && m'.pages[dir] == m.pages[dir]
    requires Present(w) && PAddr(w) == p
    requires forall k: nat, l: nat | k < 512 && l < 1024 ::
               Entry(m', dir, k, l) == if k == i && l == j then w else Entry(m, dir, k, l)
    ensures Space(m', dir, owner[p := User(i, j)])
  {
  }

  /** deallocuvm's step: kfree the page of entry (i, j) and clear the entry. */
  function FreeEntry(m: Mem, dir: nat, i: nat, j: nat): Mem
    requires dir in m.pages && i < 1024 && j < 1024 && PAddr(m.pages[dir][i]) in m.pages
  {
    var p, t := PAddr(Entry(m, dir, i, j)), PAddr(m.pages[dir][i]);
    var pages := m.pages[p := Junk()];
    Mem([p] + m.free, pages[t := pages[t][j := 0]])
  }

  lemma FreeEntryAt(m: Mem, dir: nat, owner: map<nat, Use>, i: nat, j: nat, k: nat, l: nat)
    requires Space(m, dir, owner) && i < 512 && j < 1024 && k < 1024 && l < 1024
    requires Present(m.pages[dir][i]) && Present(Entry(m, dir, i, j))
    ensures PAddr(m.pages[dir][i]) in m.pages && FreeEntry(m, dir, i, j).pages[dir] == m.pages[dir]
    ensures Entry(FreeEntry(m, dir, i, j), dir, k, l) == if k == i && l == j then 0 else Entry(m, dir, k, l)
  {
    var p, t := PAddr(Entry(m, dir, i, j)), PAddr(m.pages[dir][i]);
    assert t in owner && owner[t] == Table(i) && p in owner && owner[p] == User(i, j);
    if Present(m.pages[dir][k]) {
      assert owner[PAddr(m.pages[dir][k])] == Table(k);
    }
  }

  lemma FreeEntrySpace(m: Mem, dir: nat, owner: map<nat, Use>, i: nat, j: nat)
    requires Space(m, dir, owner) && i < 512 && j < 1024 && Present(m.pages[dir][i]) && Present(Entry(m, dir, i, j))
    ensures PAddr(m.pages[dir][i]) in m.pages
    ensures var p, m' := PAddr(Entry(m, dir, i, j)), FreeEntry(m, dir, i, j);
            && p in owner && owner[p] == User(i, j) && p in m.pages && p !in m.free
            && Space(m', dir, owner - {p}) && Conserves(m, owner, m', owner - {p})
  {
    var p, t, m' := PAddr(Entry(m, dir, i, j)), PAddr(m.pages[dir][i]), FreeEntry(m, dir, i, j);
    assert t in owner && owner[t] == Table(i) && p in owner && owner[p] == User(i, j);
    FreeEntryAt(m, dir, owner, i, j, i, j);
    forall k: nat, l: nat | k < 512 && l < 1024
      ensures Entry(m', dir, k, l) == if k == i && l == j then 0 else Entry(m, dir, k, l)
    {
      FreeEntryAt(m, dir, owner, i, j, k, l);
    }
    FreedSpace(m, dir, owner, m', i, j, p);
  }

  lemma FreedSpace(m: Mem, dir: nat, owner: map<nat, Use>, m': Mem, i: nat, j: nat, p: nat)
    requires Space(m, dir, owner) && i < 512 && j < 1024 && p in owner && owner[p] == User(i, j)
    requires m'.pages.Keys == m.pages.Keys && m'.free == [p] + m.free && m'.pages[dir] == m.pages[dir]
    requires forall k: nat, l: nat | k < 512 && l < 1024 ::
               Entry(m', dir, k, l) == if k == i && l == j then 0 else Entry(m, dir, k, l)
    ensures Space(m', dir, owner - {p})
  {
  }

  lemma ConservesTrans(a: Mem, oa: map<nat, Use>, b: Mem, ob: map<nat, Use>, c: Mem, oc: map<nat, Use>)
    requires Conserves(a, oa, b, ob) && Conserves(b, ob, c, oc)
    requires forall p | p in oa && p in oc && oa[p].User? :: p in ob
    requires forall p | p in oa :: p in a.pages
    ensures Conserves(a, oa, c, oc)
  {
  }

  // mappages

  /** Entries after mapping virtual pages first..cur-1 to physical pages from ppn on. */
  ghost predicate Mapped(m: Mem, dir: nat, m': Mem, first: nat, cur: nat, ppn: nat, perm: nat)
    requires dir in m.pages && dir in m'.pages
  {
    forall k: nat, l: nat | k < 1024 && l < 1024 ::
      Entry(m', dir, k, l) ==
            if first <= 1024 * k + l < cur then Pte(ppn + 1024 * k + l - first, perm) else Entry(m, dir, k, l)
  }

  ghost predicate SameEntries(m: Mem, dir: nat, m': Mem)
    requires dir in m.pages && dir in m'.pages
  {
    forall k: nat, l: nat | k < 1024 && l < 1024 :: Entry(m', dir, k, l) == Entry(m, dir, k, l)
  }

  /** The owner map has only gained tables. */
  ghost predicate MoreTables(owner: map<nat, Use>, owner': map<nat, Use>) {
    && (forall p | p in owner :: p in owner' && owner'[p] == owner[p])
    && (forall p | p in owner' && p !in owner :: owner'[p].Table?)
  }

  /** Only entry (i, j) has changed. */
  ghost predicate OneEntry(m: Mem, dir: nat, m': Mem, i: nat, j: nat, w: nat)
    requires dir in m.pages && dir in m'.pages
  {
    forall k: nat, l: nat | k < 1024 && l < 1024 ::
        Entry(m', dir, k, l) == if k == i && l == j then w else Entry(m, dir, k, l)
  }

  lemma SetOneEntry(m: Mem, dir: nat, owner: map<nat, Use>, i: nat, j: nat, w: nat)
    requires Space(m, dir, owner) && i < 1024 && j < 1024 && Present(m.pages[dir][i])
    ensures PAddr(m.pages[dir][i]) in m.pages && OneEntry(m, dir, SetEntry(m, dir, i, j, w), i, j, w)
  {
    SetEntryAt(m, dir, owner, i, j, w, i, j);
    forall k: nat, l: nat | k < 1024 && l < 1024
      ensures Entry(SetEntry(m, dir, i, j, w), dir, k, l) == if k == i && l == j then w else Entry(m, dir, k, l)
    {
      SetEntryAt(m, dir, owner, i, j, w, k, l);
    }
  }

  /** walkpgdir, then the entry of a kernel page. */
  lemma MapKernelStep(m: Mem, owner: map<nat, Use>, m1: Mem, own1: map<nat, Use>, dir: nat, i: nat, j: nat, w: nat)
    requires Space(m, dir, owner) && Space(m1, dir, own1) && 512 <= i < 1024 && j < 1024 && Present(m1.pages[dir][i])
    requires Conserves(m, owner, m1, own1) && MoreTables(owner, own1) && SameEntries(m, dir, m1)
    ensures PAddr(m1.pages[dir][i]) in m1.pages
    ensures var m' := SetEntry(m1, dir, i, j, w);
            Space(m', dir, own1) && Conserves(m, owner, m', own1) && OneEntry(m, dir, m', i, j, w)
  {
    MapKernel(m1, dir, own1, i, j, w);
    SetOneEntry(m1, dir, own1, i, j, w);
    ConservesTrans(m, owner, m1, own1, SetEntry(m1, dir, i, j, w), own1);
  }

  /** walkpgdir, then the entry of a user page, which was in hand. */
  lemma MapUserStep(m: Mem, owner: map<nat, Use>, m1: Mem, own1: map<nat, Use>, dir: nat, i: nat, j: nat, p: nat,
                    perm: nat)
    requires Space(m, dir, owner) && Space(m1, dir, own1) && i < 512 && j < 1024 && Present(m1.pages[dir][i])
    requires Conserves(m, owner, m1, own1) && MoreTables(owner, own1) && SameEntries(m, dir, m1)
    requires InHand(m, owner, p) && !Present(Entry(m1, dir, i, j)) && perm < 4096
    ensures PAddr(m1.pages[dir][i]) in m1.pages
    ensures var m', u := SetEntry(m1, dir, i, j, Pte(p, perm)), User(i, j);
            && Space(m', dir, own1[p := u]) && Conserves(m, owner[p := u], m', own1[p := u])
            && MoreTables(owner[p := u], own1[p := u]) && OneEntry(m, dir, m', i, j, Pte(p, perm))
  {
    assert InHand(m1, own1, p);
    MapUser(m1, dir, own1, i, j, p, perm);
    SetOneEntry(m1, dir, own1, i, j, Pte(p, perm));
    SetUserConserves(m1, dir, own1, i, j, Pte(p, perm));
    HandedOver(m, owner, m1, own1, SetEntry(m1, dir, i, j, Pte(p, perm)), p, User(i, j));
  }

  /** Counting a page in hand as the space's own. */
  lemma HandedOver(m: Mem, owner: map<nat, Use>, m1: Mem, own1: map<nat, Use>, m': Mem, p: nat, u: Use)
    requires Conserves(m, owner, m1, own1) && MoreTables(owner, own1) && InHand(m, owner, p) && InHand(m1, own1, p)
    requires Conserves(m1, own1, m', own1) && m'.free == m1.free && forall q | q in owner :: q in m.pages
    ensures Conserves(m, owner[p := u], m', own1[p := u]) && MoreTables(owner[p := u], own1[p := u])
  {
  }

  lemma SetUserConserves(m: Mem, dir: nat, owner: map<nat, Use>, i: nat, j: nat, w: nat)
    requires Space(m, dir, owner) && i < 512 && j < 1024 && Present(m.pages[dir][i])
    ensures PAddr(m.pages[dir][i]) in m.pages && Conserves(m, owner, SetEntry(m, dir, i, j, w), owner)
  {
  }

  /** No page among first..end-1 is mapped. */
  ghost predicate Unmapped(m: Mem, dir: nat, first: nat, end: nat)
    requires dir in m.pages
  {
    forall k: nat, l: nat | k < 1024 && l < 1024 && first <= 1024 * k + l < end :: !Present(Entry(m, dir, k, l))
  }

  /** The user half is unchanged. */
  ghost predicate KernelOnly(m: Mem, dir: nat, m': Mem)
    requires dir in m.pages && dir in m'.pages
  {
    forall k: nat, l: nat | k < 512 && l < 1024 :: Entry(m', dir, k, l) == Entry(m, dir, k, l)
  }

  /** mappages' loop, one page further. */
  lemma NextMapped(m: Mem, dir: nat, m1: Mem, m2: Mem, first: nat, v: nat, next: nat, ppn: nat, perm: nat, i: nat,
                   j: nat, pa: nat, r: MapResult)
    requires dir in m.pages && dir in m1.pages && dir in m2.pages && first <= v && next == v + 1 <= 0x10_0000
    requires i == v / 1024 && j == v % 1024 && pa == ppn + v - first
    requires Mapped(m, dir, m1, first, v, ppn, perm) && Unmapped(m, dir, first, v)
    requires r.Remap? <==> Present(Entry(m1, dir, i, j))
    requires if r.Done? then OneEntry(m1, dir, m2, i, j, Pte(pa, perm)) else m2 == m1
    ensures r.Done? ==> Mapped(m, dir, m2, first, next, ppn, perm) && Unmapped(m, dir, first, next)
    ensures r.Remap? ==> forall end | end > v :: !Unmapped(m, dir, first, end)
    ensures !r.Done? && first >= 0x8_0000 ==> KernelOnly(m, dir, m2)
  {
    assert v == 1024 * i + j;
    assert Entry(m1, dir, i, j) == Entry(m, dir, i, j);
  }

  // deallocuvm

  /** How many pages hold sz bytes: PGROUNDUP(sz) / PGSIZE. */
  function PagesUp(sz: nat): nat { (sz + 4095) / 4096 }

  /** The mapped pages among lo..hi-1 are gone, every other entry is as it was. */
  ghost predicate Cleared(m: Mem, dir: nat, m': Mem, lo: nat, hi: nat)
    requires dir in m.pages && dir in m'.pages
  {
    forall k: nat, l: nat | k < 1024 && l < 1024 ::
      Entry(m', dir, k, l) == if lo <= 1024 * k + l < hi && Present(Entry(m, dir, k, l)) then 0 else Entry(m, dir, k, l)
  }

  /** The space has given up its user pages among lo..hi-1, and nothing else. */
  ghost predicate GaveUp(owner: map<nat, Use>, owner': map<nat, Use>, lo: nat, hi: nat) {
    && (forall p | p in owner' :: p in owner && owner'[p] == owner[p])
    && (forall p | p in owner :: p in owner' <==> !(owner[p].User? && lo <= 1024 * owner[p].ui + owner[p].uj < hi))
  }

  /** deallocuvm so far: everything below v is done. */
  ghost predicate Shrunk(m: Mem, owner: map<nat, Use>, dir: nat, m': Mem, owner': map<nat, Use>, lo: nat, v: nat) {
    && dir in m.pages && Space(m', dir, owner') && Conserves(m, owner, m', owner')
    && Cleared(m, dir, m', lo, v) && GaveUp(owner, owner', lo, v)
  }

  /** A present page: freed and its entry cleared. */
  lemma ShrinkPage(m: Mem, owner: map<nat, Use>, dir: nat, m1: Mem, own1: map<nat, Use>, lo: nat, v: nat, next: nat,
                   i: nat, j: nat)
    requires Space(m, dir, owner) && Shrunk(m, owner, dir, m1, own1, lo, v) && v == 1024 * i + j && i < 512
    requires j < 1024 && lo <= v
    requires next == v + 1 && Present(m1.pages[dir][i]) && Present(Entry(m1, dir, i, j))
    ensures PAddr(m1.pages[dir][i]) in m1.pages && PAddr(Entry(m1, dir, i, j)) in m1.pages
    ensures Shrunk(m, owner, dir, FreeEntry(m1, dir, i, j), own1 - {PAddr(Entry(m1, dir, i, j))}, lo, next)
  {
    var p, m2 := PAddr(Entry(m1, dir, i, j)), FreeEntry(m1, dir, i, j);
    FreeEntrySpace(m1, dir, own1, i, j);
    forall k: nat, l: nat | k < 1024 && l < 1024
      ensures Entry(m2, dir, k, l) == if k == i && l == j then 0 else Entry(m1, dir, k, l)
    {
      FreeEntryAt(m1, dir, own1, i, j, k, l);
    }
    ConservesTrans(m, owner, m1, own1, m2, own1 - {p});
    GaveUpPage(m, dir, owner, own1, lo, v, next, i, j, p);
  }

  lemma GaveUpPage(m: Mem, dir: nat, owner: map<nat, Use>, own1: map<nat, Use>, lo: nat, v: nat, next: nat, i: nat,
                   j: nat, p: nat)
    requires Space(m, dir, owner) && GaveUp(owner, own1, lo, v) && v == 1024 * i + j && j < 1024 && lo <= v
    requires next == v + 1
    requires p in own1 && own1[p] == User(i, j)
    ensures GaveUp(owner, own1 - {p}, lo, next)
  {
    forall q | q in owner && owner[q].User? && 1024 * owner[q].ui + owner[q].uj == v
      ensures q == p
    {
      assert owner[q].ui == i && owner[q].uj == j;
      assert PAddr(Entry(m, dir, i, j)) == q && PAddr(Entry(m, dir, i, j)) == p;
    }
  }

  /** Absent pages v..next-1 need no work: going page by page would change nothing. */
  lemma SkipAbsent(m: Mem, owner: map<nat, Use>, dir: nat, m1: Mem, own1: map<nat, Use>, lo: nat, v: nat, next: nat)
    requires Space(m, dir, owner) && Shrunk(m, owner, dir, m1, own1, lo, v) && v <= next
    requires forall k: nat, l: nat | k < 1024 && l < 1024 && v <= 1024 * k + l < next :: !Present(Entry(m1, dir, k, l))
    ensures Shrunk(m, owner, dir, m1, own1, lo, next)
  {
    forall p | p in owner && owner[p].User? && v <= 1024 * owner[p].ui + owner[p].uj < next
      ensures p !in own1
    {
    }
  }

  /** A directory slot without a table maps none of its 1024 pages. */
  lemma AbsentTable(m: Mem, dir: nat, i: nat, v: nat, next: nat)
    requires dir in m.pages && i < 1024 && !Present(m.pages[dir][i]) && 1024 * i <= v && next <= 1024 * (i + 1)
    ensures forall k: nat, l: nat | k < 1024 && l < 1024 && v <= 1024 * k + l < next :: !Present(Entry(m, dir, k, l))
  {
  }

  lemma AbsentPage(m: Mem, dir: nat, i: nat, j: nat, v: nat, next: nat)
    requires dir in m.pages && i < 1024 && j < 1024 && !Present(Entry(m, dir, i, j)) && v == 1024 * i + j
    requires next == v + 1
    ensures forall k: nat, l: nat | k < 1024 && l < 1024 && v <= 1024 * k + l < next :: !Present(Entry(m, dir, k, l))
  {
  }

  // freevm

  /** freevm's loop: the tables of the first n directory slots are back in the pool. */
  ghost predicate TablesFreed(m: Mem, dir: nat, owner: map<nat, Use>, m': Mem, n: nat)
    requires dir in m.pages
  {
    && PoolOk(m') && m'.pages.Keys == m.pages.Keys && m'.pages[dir] == m.pages[dir]
    && (forall p | p in m.pages :: p in m'.free <==> p in m.free || (p in owner && owner[p].Table? && owner[p].i < n))
    && (forall p | p in m.pages && p !in m.free && p !in owner :: m'.pages[p] == m.pages[p])
  }

  lemma FreeTable(m: Mem, dir: nat, owner: map<nat, Use>, m1: Mem, n: nat, next: nat)
    requires Space(m, dir, owner) && TablesFreed(m, dir, owner, m1, n) && n < 1024 && next == n + 1
    ensures !Present(m1.pages[dir][n]) ==> TablesFreed(m, dir, owner, m1, next)
    ensures Present(m1.pages[dir][n]) ==>
              var t := PAddr(m1.pages[dir][n]);
              t in m1.pages && TablesFreed(m, dir, owner, Mem([t] + m1.free, m1.pages[t := Junk()]), next)
  {
    if Present(m1.pages[dir][n]) {
      var t := PAddr(m1.pages[dir][n]);
      assert t in owner && owner[t] == Table(n);
      assert forall p | p in owner && owner[p] == Table(n) :: p == t;
    } else {
      NoTable(m, dir, owner, n);
    }
  }

  lemma NoTable(m: Mem, dir: nat, owner: map<nat, Use>, n: nat)
    requires Space(m, dir, owner) && n < 1024 && !Present(m.pages[dir][n])
    ensures forall p | p in owner :: owner[p] != Table(n)
  {
  }

  /** The directory goes last: now the space has nothing, and the pool has all of it back, each page once. */
  lemma AllFreed(m: Mem, dir: nat, owner: map<nat, Use>, m1: Mem)
    requires Space(m, dir, owner) && TablesFreed(m, dir, owner, m1, 1024) && forall p | p in owner :: !owner[p].User?
    ensures dir in m1.pages
    ensures var m' := Mem([dir] + m1.free, m1.pages[dir := Junk()]); PoolOk(m') && Conserves(m, owner, m', map[])
  {
  }

  // setupkvm

  /** A fresh directory: a space with no tables. */
  lemma NewDirectory(m: Mem, dir: nat, m': Mem)
    requires PoolOk(m) && m.free != [] && dir == m.free[0] && m' == Mem(m.free[1..], m.pages[dir := ZeroPage()])
    ensures Space(m', dir, map[dir := Dir]) && Conserves(m, map[], m', map[dir := Dir])
    ensures forall k: nat, l: nat | k < 1024 && l < 1024 :: Entry(m', dir, k, l) == 0
  {
  }

  /** A row of kmap, in pages. */
  datatype Kmap = Kmap(virt: nat, phys: nat, n: nat, perm: nat)

  /** The kernel's mappings; `data` is the page of the linker's symbol. The last row's length is
      0 - DEVSPACE in 32 bits. */
  function KernelMap(data: nat): (t: seq<Kmap>)
    requires 256 < data < 57344
  {
    [Kmap(0x8_0000, 0, 256, 2), Kmap(0x8_0100, 256, data - 256, 0),
     Kmap(0x8_0000 + data, data, 57344 - data, 2), Kmap(0xFE000, 0xFE000, 8192, 2)]
  }

  /** The entry of virtual page v according to the first k rows. */
  function Covered(t: seq<Kmap>, k: nat, v: nat): nat
    requires k <= |t|
  {
    if k == 0 then 0
    else if t[k - 1].virt <= v < t[k - 1].virt + t[k - 1].n then Pte(t[k - 1].phys + v - t[k - 1].virt, t[k - 1].perm)
    else Covered(t, k - 1, v)
  }

  lemma RowsDisjoint(data: nat, k: nat, v: nat)
    requires 256 < data < 57344 && k < 4
    ensures var t := KernelMap(data);
            && 0x8_0000 <= t[k].virt && t[k].virt + t[k].n <= 0x10_0000 && 0 < t[k].n && t[k].perm < 4096
            && (t[k].virt <= v < t[k].virt + t[k].n ==> Covered(t, k, v) == 0)
            && (v < 0x8_0000 ==> Covered(t, k + 1, v) == 0)
  {
    var t := KernelMap(data);
    if v < 0x8_0000 {
      NoneCovers(t, k + 1, v);
    }
    if t[k].virt <= v < t[k].virt + t[k].n {
      NoneCovers(t, k, v);
    }
  }

  lemma {:induction false} NoneCovers(t: seq<Kmap>, k: nat, v: nat)
    requires k <= |t| && forall r | 0 <= r < k :: !(t[r].virt <= v < t[r].virt + t[r].n)
    ensures Covered(t, k, v) == 0
  {
    if k > 0 {
      NoneCovers(t, k - 1, v);
    }
  }

  /** The space maps just what the first k rows say. */
  ghost predicate KernelRows(m: Mem, dir: nat, t: seq<Kmap>, k: nat)
    requires dir in m.pages && k <= |t|
  {
    forall i: nat, j: nat | i < 1024 && j < 1024 :: Entry(m, dir, i, j) == Covered(t, k, 1024 * i + j)
  }

  lemma RowUnmapped(m: Mem, dir: nat, data: nat, k: nat, first: nat, end: nat)
    requires dir in m.pages && 256 < data < 57344 && k < 4 && KernelRows(m, dir, KernelMap(data), k)
    requires first == KernelMap(data)[k].virt && end == first + KernelMap(data)[k].n
    ensures Unmapped(m, dir, first, end) && 0x8_0000 <= first < end <= 0x10_0000 && KernelMap(data)[k].perm < 4096
  {
    RowsDisjoint(data, k, 0);
    forall i: nat, j: nat | i < 1024 && j < 1024 && first <= 1024 * i + j < end
      ensures !Present(Entry(m, dir, i, j))
    {
      RowsDisjoint(data, k, 1024 * i + j);
    }
  }

  lemma RowMapped(m: Mem, dir: nat, m': Mem, data: nat, k: nat, next: nat, first: nat, end: nat, ppn: nat, perm: nat)
    requires dir in m.pages && dir in m'.pages && 256 < data < 57344 && k < 4 && KernelRows(m, dir, KernelMap(data), k)
    requires first == KernelMap(data)[k].virt && end == first + KernelMap(data)[k].n && next == k + 1
    requires ppn == KernelMap(data)[k].phys && perm == KernelMap(data)[k].perm
    requires Mapped(m, dir, m', first, end, ppn, perm)
    ensures KernelRows(m', dir, KernelMap(data), next)
  {
  }

  /** A new address space: the kernel's mappings and no user page. */
  ghost predicate KernelSpace(m: Mem, dir: nat, owner: map<nat, Use>, data: nat)
    requires 256 < data < 57344
  {
    Space(m, dir, owner) && KernelRows(m, dir, KernelMap(data), 4)
  }

  lemma NoUserPages(m: Mem, dir: nat, owner: map<nat, Use>, data: nat)
    requires 256 < data < 57344 && KernelSpace(m, dir, owner, data)
    ensures Unmapped(m, dir, 0, 0x8_0000)
  {
    forall i: nat, j: nat | i < 1024 && j < 1024 && 0 <= 1024 * i + j < 0x8_0000
      ensures !Present(Entry(m, dir, i, j))
    {
      RowsDisjoint(data, 3, 1024 * i + j);
    }
  }

  // allocuvm

  /** kalloc and memset: a zero page in hand. */
  lemma TakePage(m: Mem, dir: nat, owner: map<nat, Use>, p: nat, m': Mem, u: Use)
    requires Space(m, dir, owner) && m.free != [] && p == m.free[0] && m'.free == m.free[1..]
    requires m'.pages.Keys == m.pages.Keys && forall q | q in m.pages && q != p :: m'.pages[q] == m.pages[q]
    requires !u.Dir?
    ensures Space(m', dir, owner) && InHand(m', owner, p) && SameEntries(m, dir, m')
    ensures Conserves(m, owner, m', owner[p := u])
  {
    assert p in m.free;
    forall k: nat, l: nat | k < 1024 && l < 1024
      ensures Entry(m', dir, k, l) == Entry(m, dir, k, l)
    {
      if Present(m.pages[dir][k]) {
        assert PAddr(m.pages[dir][k]) in owner;
      }
    }
  }

  /** A page from the pool, filled and mapped. */
  lemma TakeAndMap(m1: Mem, dir: nat, own1: map<nat, Use>, p: nat, m2: Mem, m3: Mem, own3: map<nat, Use>, u: Use)
    requires Space(m1, dir, own1) && m1.free != [] && p == m1.free[0] && m2.free == m1.free[1..] && u.User?
    requires m2.pages.Keys == m1.pages.Keys && forall q | q in m1.pages && q != p :: m2.pages[q] == m1.pages[q]
    requires Conserves(m2, own1[p := u], m3, own3) && MoreTables(own1[p := u], own3)
    ensures Conserves(m1, own1, m3, own3) && SameEntries(m1, dir, m2)
    ensures p !in own1 && p in m1.pages && p in m3.pages && m3.pages[p] == m2.pages[p]
  {
    TakePage(m1, dir, own1, p, m2, u);
    assert p in own3;
    ConservesTrans(m1, own1, m2, own1[p := u], m3, own3);
  }

  /** allocuvm so far: pages lo..v-1 are mapped, writable by the user and zero; nothing else has changed. */
  ghost predicate Grown(m: Mem, owner: map<nat, Use>, dir: nat, m': Mem, owner': map<nat, Use>, lo: nat, v: nat) {
    && dir in m.pages && Space(m', dir, owner') && Conserves(m, owner, m', owner') && Unmapped(m, dir, lo, v)
    && (forall k: nat, l: nat | k < 1024 && l < 1024 && !(lo <= 1024 * k + l < v) ::
         Entry(m', dir, k, l) == Entry(m, dir, k, l))
    && (forall k: nat, l: nat | k < 1024 && l < 1024 && lo <= 1024 * k + l < v ::
          FreshPage(m', Entry(m', dir, k, l)))
    && (forall p | p in owner :: p in owner' && owner'[p] == owner[p])
    && (forall p | p in owner' && p !in owner ::
         owner'[p].Table? || (owner'[p].User? && lo <= 1024 * owner'[p].ui + owner'[p].uj < v))
  }

  /** An entry for a zero page with P, W and U set. */
  predicate FreshPage(m: Mem, w: nat) {
    Present(w) && Flags(w) == 7 && PAddr(w) in m.pages && m.pages[PAddr(w)] == ZeroPage()
  }

  /** One more page, all zero, at (i, j). */
  ghost predicate PageAdded(m1: Mem, dir: nat, own1: map<nat, Use>, m3: Mem, own3: map<nat, Use>, i: nat, j: nat,
                            p: nat) {
    && dir in m1.pages && i < 512 && j < 1024
    && Space(m3, dir, own3) && Conserves(m1, own1, m3, own3) && p !in own1 && MoreTables(own1[p := User(i, j)], own3)
    && OneEntry(m1, dir, m3, i, j, Pte(p, 6)) && !Present(Entry(m1, dir, i, j)) && FreshPage(m3, Pte(p, 6))
  }

  /** kalloc, memset, mappages. */
  lemma AddPage(dir: nat, m1: Mem, own1: map<nat, Use>, m2: Mem, p: nat, m3: Mem, own3: map<nat, Use>, v: nat,
                next: nat, i: nat, j: nat)
    requires Space(m1, dir, own1) && v == 1024 * i + j && i < 512 && j < 1024 && next == v + 1
    requires m1.free != [] && p == m1.free[0] && m2 == Mem(m1.free[1..], m1.pages[p := ZeroPage()])
    requires Space(m3, dir, own3) && Mapped(m2, dir, m3, v, next, p, 6) && Unmapped(m2, dir, v, next)
    requires Conserves(m2, own1[p := User(i, j)], m3, own3) && MoreTables(own1[p := User(i, j)], own3)
    ensures PageAdded(m1, dir, own1, m3, own3, i, j, p)
  {
    TakeAndMap(m1, dir, own1, p, m2, m3, own3, User(i, j));
    MappedOne(m1, dir, m2, m3, v, next, p, i, j);
    FreshAt(m3, p);
  }

  lemma FreshAt(m: Mem, p: nat)
    requires p in m.pages && m.pages[p] == ZeroPage()
    ensures FreshPage(m, Pte(p, 6))
  {
    PteParts(p, 6);
  }

  lemma GrowStep(m: Mem, owner: map<nat, Use>, dir: nat, m1: Mem, own1: map<nat, Use>, m3: Mem, own3: map<nat, Use>,
                 lo: nat, v: nat, next: nat, i: nat, j: nat, p: nat)
    requires Space(m, dir, owner) && Grown(m, owner, dir, m1, own1, lo, v) && lo <= v == 1024 * i + j && i < 512
    requires j < 1024 && next == v + 1
    requires PageAdded(m1, dir, own1, m3, own3, i, j, p)
    ensures Grown(m, owner, dir, m3, own3, lo, next)
  {
    ConservesTrans(m, owner, m1, own1, m3, own3);
    GrownEntries(m, dir, m1, own1, m3, lo, v, next, i, j, Pte(p, 6));
  }

  lemma MappedOne(m1: Mem, dir: nat, m2: Mem, m3: Mem, v: nat, next: nat, p: nat, i: nat, j: nat)
    requires dir in m1.pages && dir in m2.pages && dir in m3.pages && v == 1024 * i + j && i < 1024 && j < 1024
    requires next == v + 1
    requires SameEntries(m1, dir, m2) && Mapped(m2, dir, m3, v, next, p, 6) && Unmapped(m2, dir, v, next)
    ensures OneEntry(m1, dir, m3, i, j, Pte(p, 6)) && !Present(Entry(m1, dir, i, j))
  {
    assert Entry(m2, dir, i, j) == Entry(m1, dir, i, j);
  }

  lemma GrownEntries(m: Mem, dir: nat, m1: Mem, own1: map<nat, Use>, m3: Mem, lo: nat, v: nat, next: nat, i: nat,
                     j: nat, w: nat)
    requires dir in m.pages && Space(m1, dir, own1) && dir in m3.pages && Unmapped(m, dir, lo, v)
    requires forall k: nat, l: nat | k < 1024 && l < 1024 && !(lo <= 1024 * k + l < v) ::
               Entry(m1, dir, k, l) == Entry(m, dir, k, l)
    requires forall k: nat, l: nat | k < 1024 && l < 1024 && lo <= 1024 * k + l < v ::
               FreshPage(m1, Entry(m1, dir, k, l))
    requires lo <= v == 1024 * i + j < next == v + 1 <= 0x8_0000 && i < 512 && j < 1024
    requires OneEntry(m1, dir, m3, i, j, w) && !Present(Entry(m1, dir, i, j)) && FreshPage(m3, w)
    requires forall q | q in own1 && own1[q].User? :: q in m3.pages && m3.pages[q] == m1.pages[q]
    ensures Unmapped(m, dir, lo, next)
    ensures forall k: nat, l: nat | k < 1024 && l < 1024 && !(lo <= 1024 * k + l < next) ::
              Entry(m3, dir, k, l) == Entry(m, dir, k, l)
    ensures forall k: nat, l: nat | k < 1024 && l < 1024 && lo <= 1024 * k + l < next ::
              FreshPage(m3, Entry(m3, dir, k, l))
  {
    forall k: nat, l: nat | k < 1024 && l < 1024 && lo <= 1024 * k + l < next
      ensures FreshPage(m3, Entry(m3, dir, k, l))
    {
      if 1024 * k + l < v {
        assert FreshPage(m1, Entry(m1, dir, k, l));
        assert own1[PAddr(Entry(m1, dir, k, l))] == User(k, l);
      } else {
        assert k == i && l == j;
      }
    }
    assert Entry(m1, dir, i, j) == Entry(m, dir, i, j);
  }

  /** After a failed allocuvm: no page among lo..hi-1 is mapped, every other entry is as it was, the space has
      given up the user pages it had there, and gained nothing but tables. */
  ghost predicate Undone(m: Mem, owner: map<nat, Use>, dir: nat, m': Mem, owner': map<nat, Use>, lo: nat, hi: nat) {
    && dir in m.pages && Space(m', dir, owner') && Conserves(m, owner, m', owner') && Unmapped(m', dir, lo, hi)
    && (forall k: nat, l: nat | k < 1024 && l < 1024 && !(lo <= 1024 * k + l < hi) ::
         Entry(m', dir, k, l) == Entry(m, dir, k, l))
    && (forall p | p in owner' && p !in owner :: owner'[p].Table?)
    && (forall p | p in owner && p in owner' :: owner'[p] == owner[p])
    && (forall p | p in owner :: p in owner' <==> !(owner[p].User? && lo <= 1024 * owner[p].ui + owner[p].uj < hi))
  }

  /** deallocuvm undoes what allocuvm had done so far. */
  lemma UndoGrown(m: Mem, owner: map<nat, Use>, dir: nat, m1: Mem, own1: map<nat, Use>, m2: Mem, own2: map<nat, Use>,
                  lo: nat, v: nat, hi: nat)
    requires Space(m, dir, owner) && Grown(m, owner, dir, m1, own1, lo, v)
    requires Shrunk(m1, own1, dir, m2, own2, lo, hi) && lo <= v <= hi
    ensures Undone(m, owner, dir, m2, own2, lo, hi)
  {
    ConservesTrans(m, owner, m1, own1, m2, own2);
    UndoOwners(m, dir, owner, own1, own2, lo, v, hi);
    ClearedUnmapped(m1, dir, m2, lo, hi);
  }

  lemma ClearedUnmapped(m: Mem, dir: nat, m': Mem, lo: nat, hi: nat)
    requires dir in m.pages && dir in m'.pages && Cleared(m, dir, m', lo, hi)
    ensures Unmapped(m', dir, lo, hi)
  {
  }

  lemma UndoOwners(m: Mem, dir: nat, owner: map<nat, Use>, own1: map<nat, Use>, own2: map<nat, Use>, lo: nat, v: nat,
                   hi: nat)
    requires forall p | p in owner :: p in own1 && own1[p] == owner[p]
    requires forall p | p in own1 && p !in owner ::
               own1[p].Table? || (own1[p].User? && lo <= 1024 * own1[p].ui + own1[p].uj < v)
    requires GaveUp(own1, own2, lo, hi) && v <= hi
    ensures forall p | p in own2 && p !in owner :: own2[p].Table?
    ensures forall p | p in owner && p in own2 :: own2[p] == owner[p]
    ensures forall p | p in owner :: p in own2 <==> !(owner[p].User? && lo <= 1024 * owner[p].ui + owner[p].uj < hi)
  {
  }

  /** A page in hand goes back to the pool. */
  lemma ReturnPage(m: Mem, dir: nat, owner: map<nat, Use>, p: nat, m': Mem)
    requires Space(m, dir, owner) && InHand(m, owner, p) && m' == Mem([p] + m.free, m.pages[p := Junk()])
    ensures Space(m', dir, owner) && SameEntries(m, dir, m')
  {
    forall k: nat, l: nat | k < 1024 && l < 1024
      ensures Entry(m', dir, k, l) == Entry(m, dir, k, l)
    {
      if Present(m.pages[dir][k]) {
        assert PAddr(m.pages[dir][k]) in owner;
      }
    }
  }

  /** The page mappages could not map was taken from the pool, survived deallocuvm, and goes back. */
  lemma ReturnedConserves(m1: Mem, own1: map<nat, Use>, p: nat, m2: Mem, m3: Mem, own3: map<nat, Use>, m4: Mem)
    requires PoolOk(m1) && m1.free != [] && p == m1.free[0] && p !in own1
    requires m2 == Mem(m1.free[1..], m1.pages[p := ZeroPage()])
    requires Conserves(m2, own1, m3, own3) && m4 == Mem([p] + m3.free, m3.pages[p := Junk()]) && p !in own3
    requires forall q | q in own1 :: q in m1.pages
    ensures Conserves(m1, own1, m4, own3)
  {
  }

  lemma UndoInHand(m: Mem, owner: map<nat, Use>, dir: nat, m1: Mem, own1: map<nat, Use>, p: nat, m2: Mem, m3: Mem,
                   own3: map<nat, Use>,
                   m4: Mem, lo: nat, v: nat, hi: nat)
    requires Space(m, dir, owner) && Grown(m, owner, dir, m1, own1, lo, v) && lo <= v <= hi
    requires m1.free != [] && p == m1.free[0] && m2 == Mem(m1.free[1..], m1.pages[p := ZeroPage()])
    requires Shrunk(m2, own1, dir, m3, own3, lo, hi) && m4 == Mem([p] + m3.free, m3.pages[p := Junk()])
    ensures Undone(m, owner, dir, m4, own3, lo, hi)
  {
    TakePage(m1, dir, own1, p, m2, Table(0));
    assert InHand(m3, own3, p);
    ReturnPage(m3, dir, own3, p, m4);
    ReturnedConserves(m1, own1, p, m2, m3, own3, m4);
    ShrunkInHand(m1, own1, dir, m2, m3, own3, m4, lo, hi);
    UndoGrown(m, owner, dir, m1, own1, m4, own3, lo, v, hi);
  }

  lemma ShrunkInHand(m1: Mem, own1: map<nat, Use>, dir: nat, m2: Mem, m3: Mem, own3: map<nat, Use>, m4: Mem, lo: nat,
                     hi: nat)
    requires dir in m1.pages && dir in m2.pages && SameEntries(m1, dir, m2) && Shrunk(m2, own1, dir, m3, own3, lo, hi)
    requires Space(m4, dir, own3) && SameEntries(m3, dir, m4) && Conserves(m1, own1, m4, own3)
    ensures Shrunk(m1, own1, dir, m4, own3, lo, hi)
  {
  }

  /** A failed allocuvm leaves every mapping as it was if and only if nothing was mapped in the new range. */
  lemma UndoneRestores(m: Mem, owner: map<nat, Use>, dir: nat, m': Mem, owner': map<nat, Use>, lo: nat, hi: nat)
    requires Space(m, dir, owner) && Undone(m, owner, dir, m', owner', lo, hi) && hi <= 0x8_0000
    ensures SamePages(m, dir, m') <==> Unmapped(m, dir, lo, hi)
    ensures Unmapped(m, dir, lo, hi) ==> MoreTables(owner, owner')
  {
    if SamePages(m, dir, m') {
      forall k: nat, l: nat | k < 1024 && l < 1024 && lo <= 1024 * k + l < hi
        ensures !Present(Entry(m, dir, k, l))
      {
        assert !Present(Entry(m', dir, k, l));
      }
    }
  }

  /** The same pages are mapped, to the same physical pages with the same flags. */
  ghost predicate SamePages(m: Mem, dir: nat, m': Mem)
    requires dir in m.pages && dir in m'.pages
  {
    forall k: nat, l: nat | k < 1024 && l < 1024 ::
      && (Present(Entry(m', dir, k, l)) <==> Present(Entry(m, dir, k, l)))
      && (Present(Entry(m, dir, k, l)) ==> Entry(m', dir, k, l) == Entry(m, dir, k, l))
  }

  // Several address spaces

  /** Work on one space leaves another alone. */
  lemma OtherSpace(m: Mem, dir: nat, own: map<nat, Use>, owner: map<nat, Use>, m': Mem, owner': map<nat, Use>)
    requires Space(m, dir, own) && own.Keys !! owner.Keys && Conserves(m, owner, m', owner') && PoolOk(m')
    ensures Space(m', dir, own) && SameEntries(m, dir, m') && own.Keys !! owner'.Keys
    ensures forall p | p in own :: m'.pages[p] == m.pages[p]
  {
    forall p | p in own
      ensures p in m'.pages && m'.pages[p] == m.pages[p] && p !in m'.free && p !in owner'
    {
    }
    forall k: nat, l: nat | k < 1024 && l < 1024
      ensures Entry(m', dir, k, l) == Entry(m, dir, k, l)
    {
      if Present(m.pages[dir][k]) {
        assert PAddr(m.pages[dir][k]) in own;
      }
    }
  }

  /** Entry w' maps a page with the contents and the flags of the page w maps. */
  predicate CopyOf(m: Mem, w: nat, w': nat) {
    && Present(w) && Present(w') && Flags(w') == Flags(w)
    && PAddr(w) in m.pages && PAddr(w') in m.pages && m.pages[PAddr(w')] == m.pages[PAddr(w)]
  }

  /** copyuvm so far: pages 0..v-1 of the parent d0 are copied to the child d, the rest of its user half is empty. */
  ghost predicate Copies(m0: Mem, d0: nat, m: Mem, d: nat, owner: map<nat, Use>, v: nat, t: seq<Kmap>) {
    && d0 in m0.pages && m0.pages.Keys == m.pages.Keys && Space(m, d, owner) && Conserves(m0, map[], m, owner)
       && |t| == 4
    && (forall k: nat, l: nat | k < 512 && l < 1024 && 1024 * k + l < v ::
         CopyOf(m, Entry(m0, d0, k, l), Entry(m, d, k, l)))
    && (forall k: nat, l: nat | k < 512 && l < 1024 && 1024 * k + l >= v :: !Present(Entry(m, d, k, l)))
    && (forall k: nat, l: nat | 512 <= k < 1024 && l < 1024 :: Entry(m, d, k, l) == Covered(t, 4, 1024 * k + l))
  }

  /** Copies made so far stay copies: neither the parent's pages nor the child's change. */
  lemma CopiesStay(m0: Mem, d0: nat, own0: map<nat, Use>, m1: Mem, d: nat, own1: map<nat, Use>, m3: Mem, v: nat)
    requires Space(m0, d0, own0) && Space(m1, d, own1)
    requires forall k: nat, l: nat | k < 512 && l < 1024 && 1024 * k + l < v ::
               CopyOf(m1, Entry(m0, d0, k, l), Entry(m1, d, k, l))
    requires m3.pages.Keys == m1.pages.Keys && forall q | q in own0 && q in m1.pages :: m3.pages[q] == m1.pages[q]
    requires forall q | q in own1 && own1[q].User? :: m3.pages[q] == m1.pages[q]
    ensures forall k: nat, l: nat | k < 512 && l < 1024 && 1024 * k + l < v ::
              CopyOf(m3, Entry(m0, d0, k, l), Entry(m1, d, k, l))
  {
    forall k: nat, l: nat | k < 512 && l < 1024 && 1024 * k + l < v
      ensures CopyOf(m3, Entry(m0, d0, k, l), Entry(m1, d, k, l))
    {
      assert CopyOf(m1, Entry(m0, d0, k, l), Entry(m1, d, k, l));
      assert own1[PAddr(Entry(m1, d, k, l))] == User(k, l) && own0[PAddr(Entry(m0, d0, k, l))] == User(k, l);
    }
  }

  lemma CopyEntries(m0: Mem, d0: nat, m1: Mem, d: nat, m3: Mem, v: nat, next: nat, i: nat, j: nat, w: nat, w': nat,
                    t: seq<Kmap>)
    requires d0 in m0.pages && d in m1.pages && d in m3.pages && v == 1024 * i + j && i < 512 && j < 1024
    requires next == v + 1 && |t| == 4
    requires forall k: nat, l: nat | k < 512 && l < 1024 && 1024 * k + l < v ::
               CopyOf(m3, Entry(m0, d0, k, l), Entry(m1, d, k, l))
    requires forall k: nat, l: nat | k < 512 && l < 1024 && 1024 * k + l >= v :: !Present(Entry(m1, d, k, l))
    requires forall k: nat, l: nat | 512 <= k < 1024 && l < 1024 :: Entry(m1, d, k, l) == Covered(t, 4, 1024 * k + l)
    requires OneEntry(m1, d, m3, i, j, w') && w == Entry(m0, d0, i, j) && CopyOf(m3, w, w')
    ensures forall k: nat, l: nat | k < 512 && l < 1024 && 1024 * k + l < next ::
              CopyOf(m3, Entry(m0, d0, k, l), Entry(m3, d, k, l))
    ensures forall k: nat, l: nat | k < 512 && l < 1024 && 1024 * k + l >= next :: !Present(Entry(m3, d, k, l))
    ensures forall k: nat, l: nat | 512 <= k < 1024 && l < 1024 :: Entry(m3, d, k, l) == Covered(t, 4, 1024 * k + l)
  {
    forall k: nat, l: nat | k < 512 && l < 1024 && 1024 * k + l < next
      ensures CopyOf(m3, Entry(m0, d0, k, l), Entry(m3, d, k, l))
    {
      if 1024 * k + l >= v {
        assert k == i && l == j;
      }
    }
  }

  /** Between the turns of copyuvm, from kalloc to mappages. */
  ghost predicate CopyTurn(m1: Mem, own1: map<nat, Use>, d: nat, m2: Mem, p: nat, m3: Mem, own3: map<nat, Use>,
                           v: nat, next: nat, i: nat, j: nat, w: nat) {
    && PAddr(w) in m1.pages && m1.free != [] && p == m1.free[0] && v == 1024 * i + j && i < 512 && j < 1024
       && next == v + 1
    && m2 == Mem(m1.free[1..], m1.pages[p := m1.pages[PAddr(w)]]) && d in m2.pages
    && Space(m3, d, own3) && Mapped(m2, d, m3, v, next, p, Flags(w))
    && Conserves(m2, own1[p := User(i, j)], m3, own3) && MoreTables(own1[p := User(i, j)], own3)
  }

  lemma CopyTurnConserves(m1: Mem, d: nat, own1: map<nat, Use>, m2: Mem, p: nat, m3: Mem, own3: map<nat, Use>,
                          v: nat, next: nat, i: nat, j: nat, w: nat)
    requires Space(m1, d, own1) && CopyTurn(m1, own1, d, m2, p, m3, own3, v, next, i, j, w)
    ensures Conserves(m1, own1, m3, own3) && p !in own1 && p in m1.pages
    ensures SameEntries(m1, d, m2) && m3.pages[p] == m2.pages[p]
  {
    TakeAndMap(m1, d, own1, p, m2, m3, own3, User(i, j));
  }

  /** One more page copied. */
  lemma CopyPage(m0: Mem, d0: nat, own0: map<nat, Use>, m1: Mem, d: nat, own1: map<nat, Use>, m2: Mem, p: nat, m3: Mem,
                 own3: map<nat, Use>,
                 v: nat, next: nat, i: nat, j: nat, t: seq<Kmap>, w: nat)
    requires Space(m0, d0, own0) && Copies(m0, d0, m1, d, own1, v, t)
    requires CopyTurn(m1, own1, d, m2, p, m3, own3, v, next, i, j, w)
    requires w == Entry(m0, d0, i, j) && Present(w)
    ensures Copies(m0, d0, m3, d, own3, next, t)
  {
    CopyTurnConserves(m1, d, own1, m2, p, m3, own3, v, next, i, j, w);
    ConservesTrans(m0, map[], m1, own1, m3, own3);
    MappedEntry(m1, d, m2, m3, v, next, p, i, j, Flags(w));
    OtherSpace(m0, d0, own0, map[], m1, own1);
    OtherSpace(m0, d0, own0, map[], m3, own3);
    assert PAddr(w) in own0;
    CopiedPage(m1, m3, w, p);
    CopiesStay(m0, d0, own0, m1, d, own1, m3, v);
    CopyEntries(m0, d0, m1, d, m3, v, next, i, j, w, Pte(p, Flags(w)), t);
  }

  lemma MappedEntry(m1: Mem, dir: nat, m2: Mem, m3: Mem, v: nat, next: nat, p: nat, i: nat, j: nat, perm: nat)
    requires dir in m1.pages && dir in m2.pages && dir in m3.pages && v == 1024 * i + j && i < 1024 && j < 1024
    requires next == v + 1
    requires SameEntries(m1, dir, m2) && Mapped(m2, dir, m3, v, next, p, perm)
    ensures OneEntry(m1, dir, m3, i, j, Pte(p, perm))
  {
  }

  lemma CopiedPage(m1: Mem, m3: Mem, w: nat, p: nat)
    requires Present(w) && PAddr(w) in m1.pages && PAddr(w) in m3.pages && p in m3.pages
    requires m3.pages[PAddr(w)] == m1.pages[PAddr(w)] == m3.pages[p]
    ensures CopyOf(m3, w, Pte(p, Flags(w)))
  {
    PteParts(p, Flags(w));
  }

  /** The next page is free for mappages in the child. */
  lemma NextUnmapped(m0: Mem, d0: nat, m1: Mem, d: nat, owner: map<nat, Use>, v: nat, next: nat, t: seq<Kmap>, m2: Mem)
    requires Copies(m0, d0, m1, d, owner, v, t) && next == v + 1 <= 0x8_0000 && d in m2.pages && SameEntries(m1, d, m2)
    ensures Unmapped(m2, d, v, next)
  {
  }

  /** Like Conserves, but for the pages in `lost`, which were free or the space's and are now neither. */
  ghost predicate Lost(m: Mem, owner: map<nat, Use>, m': Mem, owner': map<nat, Use>, lost: set<nat>) {
    && m'.pages.Keys == m.pages.Keys && lost <= m.pages.Keys
    && (forall p | p in lost :: p !in m'.free && p !in owner' && (p in m.free || p in owner))
    && (forall p | p in m.pages && p !in lost :: p in m'.free || p in owner' <==> p in m.free || p in owner)
    && (forall p | p in m.pages && p !in m.free && p !in owner :: m'.pages[p] == m.pages[p])
  }

  lemma NothingCopied(m0: Mem, d0: nat, m: Mem, d: nat, owner: map<nat, Use>, data: nat)
    requires d0 in m0.pages && 256 < data < 57344 && KernelSpace(m, d, owner, data) && Conserves(m0, map[], m, owner)
    ensures Copies(m0, d0, m, d, owner, 0, KernelMap(data))
  {
    NoUserPages(m, d, owner, data);
  }

  /** The first n pages are all mapped. */
  ghost predicate AllMapped(m: Mem, dir: nat, n: nat)
    requires dir in m.pages
  {
    forall k: nat, l: nat | k < 512 && l < 1024 && 1024 * k + l < n :: Present(Entry(m, dir, k, l))
  }

  lemma MappedUpTo(m: Mem, dir: nat, v: nat, next: nat, hi: nat)
    requires dir in m.pages && AllMapped(m, dir, v) && next == v + 1 <= hi <= 0x8_0000
    ensures AllMapped(m, dir, next) <==> Present(Entry(m, dir, v / 1024, v % 1024))
    ensures !Present(Entry(m, dir, v / 1024, v % 1024)) ==> !AllMapped(m, dir, hi)
  {
    var i, j := v / 1024, v % 1024;
    assert v == 1024 * i + j;
  }

  /** freevm of the child gives back all but what a failed turn lost. */
  lemma LostPage(m0: Mem, m1: Mem, own1: map<nat, Use>, m2: Mem, m3: Mem, lost: set<nat>)
    requires Conserves(m0, map[], m1, own1) && Lost(m1, own1, m2, own1, lost) && Conserves(m2, own1, m3, map[])
    requires forall p | p in lost :: p !in own1
    ensures Lost(m0, map[], m3, map[], lost)
  {
  }

  lemma OtherSpaceLost(m: Mem, dir: nat, own: map<nat, Use>, m': Mem, lost: set<nat>)
    requires Space(m, dir, own) && Lost(m, map[], m', map[], lost) && PoolOk(m')
    ensures Space(m', dir, own) && SameEntries(m, dir, m')
    ensures forall p | p in own :: m'.pages[p] == m.pages[p]
  {
    forall p | p in own
      ensures p in m'.pages && m'.pages[p] == m.pages[p] && p !in m'.free
    {
    }
    forall k: nat, l: nat | k < 1024 && l < 1024
      ensures Entry(m', dir, k, l) == Entry(m, dir, k, l)
    {
      if Present(m.pages[dir][k]) {
        assert PAddr(m.pages[dir][k]) in own;
      }
    }
  }

  // A process's address space over its life

  /** No user page lies at or above sz. */
  ghost predicate ProcSpace(m: Mem, dir: nat, owner: map<nat, Use>, sz: nat) {
    Space(m, dir, owner) && sz < 0x8000_0000 && Unmapped(m, dir, PagesUp(sz), 0x8_0000)
  }

  lemma GrownProc(m: Mem, dir: nat, owner: map<nat, Use>, sz: nat, m': Mem, owner': map<nat, Use>, newsz: nat, lo: nat,
                  hi: nat)
    requires ProcSpace(m, dir, owner, sz) && lo == PagesUp(sz) && hi == PagesUp(newsz) && sz <= newsz < 0x8000_0000
    requires Grown(m, owner, dir, m', owner', lo, hi)
    ensures ProcSpace(m', dir, owner', newsz)
    ensures AllMapped(m, dir, lo) <==> AllMapped(m', dir, hi)
  {
    if AllMapped(m', dir, hi) {
      forall k: nat, l: nat | k < 512 && l < 1024 && 1024 * k + l < lo
        ensures Present(Entry(m, dir, k, l))
      {
        assert Present(Entry(m', dir, k, l));
      }
    }
  }

  lemma UndoneProc(m: Mem, dir: nat, owner: map<nat, Use>, sz: nat, m': Mem, owner': map<nat, Use>, lo: nat, hi: nat)
    requires ProcSpace(m, dir, owner, sz) && lo == PagesUp(sz) <= hi <= 0x8_0000
    requires Undone(m, owner, dir, m', owner', lo, hi)
    ensures ProcSpace(m', dir, owner', sz) && SamePages(m, dir, m')
    ensures (AllMapped(m, dir, lo) <==> AllMapped(m', dir, lo))
  {
    UndoneRestores(m, owner, dir, m', owner', lo, hi);
  }

  lemma ShrunkProc(m: Mem, dir: nat, owner: map<nat, Use>, sz: nat, m': Mem, owner': map<nat, Use>, newsz: nat, lo: nat,
                   hi: nat)
    requires ProcSpace(m, dir, owner, sz) && lo == PagesUp(newsz) && hi == PagesUp(sz) && newsz < sz
    requires Shrunk(m, owner, dir, m', owner', lo, hi)
    ensures ProcSpace(m', dir, owner', newsz)
    ensures AllMapped(m, dir, hi) ==> AllMapped(m', dir, lo)
  {
  }

  /** Shrunk to nothing: no page is mapped, whatever size the process is said to have. */
  lemma EmptyProc(m: Mem, dir: nat, owner: map<nat, Use>, sz: nat, n: nat)
    requires ProcSpace(m, dir, owner, 0) && 0 < sz < 0x8000_0000 && n == PagesUp(sz)
    ensures ProcSpace(m, dir, owner, sz) && !AllMapped(m, dir, n)
  {
    assert !Present(Entry(m, dir, 0, 0)) && 1024 * 0 + 0 < n;
  }

  lemma PoolKeptTrans(a: Mem, oa: map<nat, Use>, b: Mem, ob: map<nat, Use>, c: Mem, oc: map<nat, Use>)
    requires PoolKept(a, oa, b, ob) && PoolKept(b, ob, c, oc)
    ensures PoolKept(a, oa, c, oc)
  {
  }

  /** sz + n in 32 bits, for n < 0. */
  lemma SizeBelow(sz: nat, n: int, newsz: nat)
    requires sz < 0x8000_0000 && -0x8000_0000 <= n < 0 && newsz == (sz + n) % 0x1_0000_0000
    ensures if sz + n >= 0 then newsz == sz + n else newsz > sz
  {
  }

  /** A page taken from the pool and not handed over is lost. */
  lemma TakenLost(m: Mem, owner: map<nat, Use>, p: nat, m': Mem)
    requires PoolOk(m) && m.free != [] && p == m.free[0] && p !in owner && m'.free == m.free[1..]
    requires m'.pages.Keys == m.pages.Keys
    requires forall q | q in m.pages && q != p :: m'.pages[q] == m.pages[q]
    ensures Lost(m, owner, m', owner, {p})
  {
    assert p in m.free;
  }

  /** The parent's entries while its child is made. */
  lemma ParentEntry(m0: Mem, d0: nat, own0: map<nat, Use>, m: Mem, owner: map<nat, Use>, i: nat, j: nat)
    requires Space(m0, d0, own0) && Conserves(m0, map[], m, owner) && PoolOk(m) && i < 512 && j < 1024
    ensures Space(m, d0, own0) && Entry(m, d0, i, j) == Entry(m0, d0, i, j)
    ensures Present(Entry(m0, d0, i, j)) ==> PAddr(Entry(m0, d0, i, j)) in m.pages
  {
    OtherSpace(m0, d0, own0, map[], m, owner);
  }
}
