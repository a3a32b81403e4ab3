/** How many pages the work on an address space takes from the pool. */
module PageCount {
  import opened PageTable

  /** Directory slot i has a table now, the other slots are as they were. */
  ghost predicate OneTable(m: Mem, dir: nat, m': Mem, i: nat)
    requires dir in m.pages && dir in m'.pages
  {
    forall k: nat | k < 1024 :: Present(m'.pages[dir][k]) <==> Present(m.pages[dir][k]) || k == i
  }

  /** Slot k is the slot of a page among first..v-1. */
  predicate SlotOf(k: nat, first: nat, v: nat) {
    first < v && first / 1024 <= k <= (v - 1) / 1024
  }

  /** The slots of pages first..v-1 have tables now, the others are as they were. */
  ghost predicate NewTables(m: Mem, dir: nat, m': Mem, first: nat, v: nat)
    requires dir in m.pages && dir in m'.pages
  {
    forall k: nat | k < 1024 :: Present(m'.pages[dir][k]) <==> Present(m.pages[dir][k]) || SlotOf(k, first, v)
  }

  /** How many tables pages first..v-1 still need: one at the first page of each slot without one. */
  function TableCost(m: Mem, dir: nat, first: nat, v: nat): nat
    requires dir in m.pages && v <= 0x10_0000
  {
    if v <= first then 0
    else
      var u := v - 1;
      TableCost(m, dir, first, u) + if (u == first || u % 1024 == 0) && !Present(m.pages[dir][u / 1024]) then 1 else 0
  }

  lemma {:induction false} CostGrows(m: Mem, dir: nat, first: nat, a: nat, b: nat)
    requires dir in m.pages && a <= b <= 0x10_0000
    ensures TableCost(m, dir, first, a) <= TableCost(m, dir, first, b)
    decreases b
  {
    if a < b && first < b {
      CostGrows(m, dir, first, a, b - 1);
    }
  }

  /** Writing an entry changes no directory. */
  lemma EntryTables(m: Mem, m1: Mem, m2: Mem, dir: nat, i: nat)
    requires dir in m.pages && dir in m1.pages && dir in m2.pages && OneTable(m, dir, m1, i)
    requires m2.pages[dir] == m1.pages[dir]
    ensures OneTable(m, dir, m2, i)
  {
  }

  lemma TableAdded(m: Mem, dir: nat, owner: map<nat, Use>, i: nat)
    requires Space(m, dir, owner) && m.free != [] && i < 1024
    ensures OneTable(m, dir, NewTable(m, dir, i), i)
  {
    PteParts(m.free[0], 6);
    assert m.free[0] in m.free && m.free[0] != dir;
  }

  lemma TableThere(m: Mem, dir: nat, i: nat)
    requires dir in m.pages && i < 1024 && Present(m.pages[dir][i])
    ensures OneTable(m, dir, m, i)
  {
  }

  lemma NoTablesYet(m: Mem, dir: nat, first: nat)
    requires dir in m.pages
    ensures NewTables(m, dir, m, first, first)
  {
  }

  /** One page further: the slot has a table already, unless this is the first page in it. */
  lemma SlotSeen(m: Mem, dir: nat, m1: Mem, first: nat, v: nat, next: nat, i: nat)
    requires dir in m.pages && dir in m1.pages && NewTables(m, dir, m1, first, v) && first <= v < 0x10_0000
    requires i == v / 1024 && next == v + 1
    ensures TableCost(m, dir, first, next) == TableCost(m, dir, first, v) + if Present(m1.pages[dir][i]) then 0 else 1
  {
    assert SlotOf(i, first, v) <==> v != first && v % 1024 != 0;
  }

  lemma TablesStep(m: Mem, dir: nat, m1: Mem, m2: Mem, first: nat, v: nat, next: nat, i: nat)
    requires dir in m.pages && dir in m1.pages && dir in m2.pages && NewTables(m, dir, m1, first, v)
    requires OneTable(m1, dir, m2, i)
    requires first <= v && i == v / 1024 && next == v + 1
    ensures NewTables(m, dir, m2, first, next)
  {
    forall k: nat | k < 1024
      ensures SlotOf(k, first, next) <==> SlotOf(k, first, v) || k == i
    {
    }
  }

  /** The space has taken `pages` user pages and the tables for pages first..v-1. */
  ghost predicate Took(m: Mem, dir: nat, m': Mem, pages: int, first: nat, v: nat) {
    && dir in m.pages && dir in m'.pages && v <= 0x10_0000
    && NewTables(m, dir, m', first, v) && |m'.free| + pages + TableCost(m, dir, first, v) == |m.free|
  }

  lemma TookStep(m: Mem, dir: nat, m1: Mem, m2: Mem, pages: int, more: int, first: nat, v: nat, next: nat, i: nat)
    requires Took(m, dir, m1, pages, first, v) && dir in m2.pages && OneTable(m1, dir, m2, i)
    requires first <= v < 0x10_0000 && i == v / 1024 && next == v + 1
    requires |m2.free| + more == |m1.free| - if Present(m1.pages[dir][i]) then 0 else 1
    ensures Took(m, dir, m2, pages + more, first, next)
  {
    SlotSeen(m, dir, m1, first, v, next, i);
    TablesStep(m, dir, m1, m2, first, v, next, i);
  }

  /** Out of memory at page v: the pool was too small for the range. */
  lemma TooFew(m: Mem, dir: nat, m1: Mem, pages: int, more: int, first: nat, v: nat, next: nat, end: nat, i: nat)
    requires Took(m, dir, m1, pages, first, v) && first <= v && i == v / 1024 && next == v + 1 <= end <= 0x10_0000
    requires |m1.free| < more + if Present(m1.pages[dir][i]) then 0 else 1
    ensures |m.free| < pages + more + TableCost(m, dir, first, end)
  {
    SlotSeen(m, dir, m1, first, v, next, i);
    CostGrows(m, dir, first, next, end);
  }

  /** A page from the pool, then mappages for it. */
  lemma PageCost(m1: Mem, m2: Mem, m3: Mem, dir: nat, v: nat, next: nat, i: nat)
    requires dir in m1.pages && dir in m2.pages && dir in m3.pages && m2.pages[dir] == m1.pages[dir]
    requires |m2.free| == |m1.free| - 1
    requires v < 0x10_0000 && next == v + 1 && i == v / 1024
    ensures TableCost(m2, dir, v, next) == if Present(m1.pages[dir][i]) then 0 else 1
    ensures Took(m2, dir, m3, 0, v, next) ==>
              OneTable(m1, dir, m3, i) && |m3.free| + 1 == |m1.free| - if Present(m1.pages[dir][i]) then 0 else 1
  {
    assert TableCost(m2, dir, v, v) == 0;
    if Took(m2, dir, m3, 0, v, next) {
      forall k: nat | k < 1024
        ensures SlotOf(k, v, next) <==> k == i
      {
      }
    }
  }

  // setupkvm

  function SlotsUp(v: nat): nat { (v + 1023) / 1024 }

  /** With tables in just the slots below c, the rest of the range's slots need one each. */
  lemma {:induction false} CostFrom(m: Mem, dir: nat, first: nat, v: nat, c: nat)
    requires dir in m.pages && first < v <= 0x10_0000 && first / 1024 <= c <= SlotsUp(v)
    requires forall k: nat | SlotOf(k, first, v) && k < 1024 :: Present(m.pages[dir][k]) <==> k < c
    ensures TableCost(m, dir, first, v) == SlotsUp(v) - c
  {
    var u := v - 1;
    assert SlotOf(u / 1024, first, v);
    if u == first {
      assert TableCost(m, dir, first, u) == 0;
    } else if c <= SlotsUp(u) {
      CostFrom(m, dir, first, u, c);
      assert SlotsUp(v) == SlotsUp(u) + if u % 1024 == 0 then 1 else 0;
    } else {
      CostFrom(m, dir, first, u, SlotsUp(u));
    }
  }

  /** How many tables the first k rows of kmap take: 56 for memory up to PHYSTOP and 8 for devices. */
  function RowTables(data: nat, k: nat): nat
    requires 256 < data < 57344 && k <= 4
  {
    match k case 0 => 0 case 1 => 1 case 2 => SlotsUp(data) case 3 => 56 case 4 => 64
  }

  /** Which slots have one. */
  predicate RowSlot(data: nat, k: nat, s: nat)
    requires 256 < data < 57344 && k <= 4
  {
    512 <= s < 512 + RowTables(data, if k < 3 then k else 3) || (k == 4 && 1016 <= s < 1024)
  }

  ghost predicate RowsDone(m: Mem, dir: nat, m': Mem, data: nat, k: nat) {
    && 256 < data < 57344 && k <= 4 && dir in m'.pages && |m'.free| + RowTables(data, k) == |m.free|
    && forall s: nat | s < 1024 :: Present(m'.pages[dir][s]) <==> RowSlot(data, k, s)
  }

  lemma RowTablesCost(m: Mem, dir: nat, m1: Mem, data: nat, k: nat, first: nat, end: nat)
    requires RowsDone(m, dir, m1, data, k) && k < 4 && first == KernelMap(data)[k].virt
    requires end == first + KernelMap(data)[k].n
    ensures end <= 0x10_0000 && TableCost(m1, dir, first, end) == RowTables(data, k + 1) - RowTables(data, k)
  {
    match k
    case 0 => CostFrom(m1, dir, first, end, 512);
    case 1 => CostFrom(m1, dir, first, end, 513);
    case 2 =>
      assert first == 0x8_0000 + data && SlotsUp(first) == 512 + SlotsUp(data);
      CostFrom(m1, dir, first, end, 512 + SlotsUp(data));
    case 3 => CostFrom(m1, dir, first, end, 1016);
  }

  lemma RowTablesDone(m: Mem, dir: nat, m1: Mem, m2: Mem, data: nat, k: nat, first: nat, end: nat)
    requires RowsDone(m, dir, m1, data, k) && k < 4 && first == KernelMap(data)[k].virt
    requires end == first + KernelMap(data)[k].n
    requires Took(m1, dir, m2, 0, first, end)
    ensures RowsDone(m, dir, m2, data, k + 1)
  {
    RowTablesCost(m, dir, m1, data, k, first, end);
    forall s: nat | s < 1024
      ensures RowSlot(data, k + 1, s) <==> RowSlot(data, k, s) || SlotOf(s, first, end)
    {
    }
  }

  lemma RowOutcome(m: Mem, dir: nat, m1: Mem, m2: Mem, data: nat, k: nat, first: nat, end: nat, r: MapResult)
    requires RowsDone(m, dir, m1, data, k) && k < 4 && first == KernelMap(data)[k].virt
    requires end == first + KernelMap(data)[k].n <= 0x10_0000
    requires if r.Done? then Took(m1, dir, m2, 0, first, end) else |m1.free| < TableCost(m1, dir, first, end)
    ensures if r.Done? then RowsDone(m, dir, m2, data, k + 1) else |m.free| < 64
  {
    RowTablesCost(m, dir, m1, data, k, first, end);
    if r.Done? {
      RowTablesDone(m, dir, m1, m2, data, k, first, end);
    }
  }

  /** A directory with exactly the kernel's tables. */
  ghost predicate KernelTables(m: Mem, dir: nat) {
    dir in m.pages && forall s: nat | s < 1024 :: Present(m.pages[dir][s]) <==> 512 <= s < 568 || 1016 <= s
  }

  // copyuvm

  /** The child's user pages and their tables, and whether the next page's slot has a table: all but the
      first page of each slot find one. */
  lemma FreeLeft(m: Mem, d: nat, m': Mem, v: nat)
    requires KernelTables(m, d) && Took(m, d, m', v, 0, v) && v <= 0x8_0000
    ensures |m'.free| == |m.free| - v - SlotsUp(v)
    ensures v < 0x8_0000 ==> (Present(m'.pages[d][v / 1024]) <==> v % 1024 != 0)
  {
    if v > 0 {
      CostFrom(m, d, 0, v, 0);
    }
    if v < 0x8_0000 {
      assert SlotOf(v / 1024, 0, v) <==> v % 1024 != 0;
    }
  }

  /** copyuvm runs out of memory right after it has taken a page for the first page of slot q. */
  ghost predicate LosesPageAt(m: Mem, d0: nat, n: nat, q: nat)
    requires d0 in m.pages
  {
    1024 * q < n && |m.free| == 66 + 1025 * q && AllMapped(m, d0, 1024 * q + 1)
  }

  ghost predicate LosesPage(m: Mem, d0: nat, n: nat)
    requires d0 in m.pages
  {
    exists q: nat :: LosesPageAt(m, d0, n, q)
  }

  lemma LostAt(m: Mem, d0: nat, n: nat, v: nat)
    requires d0 in m.pages && v < n && v % 1024 == 0 && AllMapped(m, d0, v + 1) && |m.free| == 66 + v + SlotsUp(v)
    ensures LosesPage(m, d0, n)
  {
    var q := v / 1024;
    assert v == 1024 * q && SlotsUp(v) == q;
    assert LosesPageAt(m, d0, n, q);
  }

  /** Without a page for the next one, or with all n copied, none was lost. */
  lemma NotLost(m: Mem, d0: nat, n: nat, v: nat)
    requires d0 in m.pages && v <= n
    requires || |m.free| < 65 || |m.free| == 65 + v + SlotsUp(v)
             || (v < n && !AllMapped(m, d0, v + 1) && |m.free| >= 65 + v + SlotsUp(v))
             || (v == n && |m.free| >= 65 + v + SlotsUp(v))
    ensures !LosesPage(m, d0, n)
  {
    forall q: nat
      ensures !LosesPageAt(m, d0, n, q)
    {
      if v > 1024 * q {
        assert SlotsUp(v) >= q + 1;
      } else {
        assert SlotsUp(v) <= q;
        if AllMapped(m, d0, 1024 * q + 1) {
          MappedBelow(m, d0, v + 1, 1024 * q + 1);
        }
      }
    }
  }

  /** What a turn of copyuvm's loop takes for a page of slot i. */
  ghost predicate CopyCost(m1: Mem, d: nat, m2: Mem, i: nat, r: CopyResult) {
    && d in m1.pages && d in m2.pages && i < 1024
    && var table := if Present(m1.pages[d][i]) then 0 else 1;
       && (r.Child? ==> OneTable(m1, d, m2, i) && |m2.free| + 1 == |m1.free| - table)
       && (r.NoPage? ==> |m1.free| == 0)
       && (r.NoTable? ==> |m1.free| == table == 1)
  }

  /** What one turn of copyuvm's loop decides. */
  lemma CopyOutcome(m0: Mem, d0: nat, ms: Mem, d: nat, m1: Mem, m2: Mem, v: nat, next: nat, i: nat, n: nat,
                    r: CopyResult)
    requires KernelTables(ms, d) && |ms.free| == |m0.free| - 65 && Took(ms, d, m1, v, 0, v)
    requires v < n <= 0x8_0000 && next == v + 1 && i == v / 1024 && d0 in m0.pages && CopyCost(m1, d, m2, i, r)
    requires AllMapped(m0, d0, next) <==> !r.NotMapped?
    ensures r.Child? ==> Took(ms, d, m2, next, 0, next)
    ensures !r.Child? ==> (r.NoTable? <==> LosesPage(m0, d0, n))
    ensures !r.Child? ==> !AllMapped(m0, d0, n) || |m0.free| < 65 + n + SlotsUp(n)
  {
    FreeLeft(ms, d, m1, v);
    match r
    case Child(_) => TookStep(ms, d, m1, m2, v, 1, 0, v, next, i);
    case NoPage => NotLost(m0, d0, n, v);
    case NoTable => LostAt(m0, d0, n, v);
    case NotMapped =>
      NotLost(m0, d0, n, v);
      if AllMapped(m0, d0, n) {
        MappedBelow(m0, d0, next, n);
        assert false;
      }
  }

  lemma MappedBelow(m: Mem, d0: nat, a: nat, b: nat)
    requires d0 in m.pages && AllMapped(m, d0, b) && a <= b
    ensures AllMapped(m, d0, a)
  {
  }

  lemma CopiedAll(m0: Mem, d0: nat, ms: Mem, d: nat, m: Mem, v: nat, n: nat)
    requires KernelTables(ms, d) && |ms.free| == |m0.free| - 65 && Took(ms, d, m, v, 0, v) && v == n <= 0x8_0000
    requires d0 in m0.pages
    ensures !LosesPage(m0, d0, n) && 65 + n + SlotsUp(n) <= |m0.free|
  {
    FreeLeft(ms, d, m, v);
    NotLost(m0, d0, n, v);
  }

  lemma GrownAll(m: Mem, dir: nat, m': Mem, lo: nat, v: nat, hi: nat)
    requires Took(m, dir, m', v - lo, lo, v) && v == hi
    ensures |m'.free| == |m.free| - GrowCost(m, dir, lo, hi)
  {
  }

  /** The pages growing from page lo to page hi takes. */
  function GrowCost(m: Mem, dir: nat, lo: nat, hi: nat): int
    requires dir in m.pages && hi <= 0x10_0000
  {
    hi - lo + TableCost(m, dir, lo, hi)
  }

  /** A parent with one page, and 66 free ones. */
  function SmallPool(): Mem {
    Mem(seq(66, k => k + 3), map p: nat | p < 69 :: SmallPage(p))
  }

  function SmallPage(p: nat): Page {
    if p == 0 then ZeroPage()[0 := Pte(1, 6)] else if p == 1 then ZeroPage()[0 := Pte(2, 6)] else ZeroPage()
  }

  lemma SmallPoolLoses()
    ensures Space(SmallPool(), 0, map[0 := Dir, 1 := Table(0), 2 := User(0, 0)])
    ensures AllMapped(SmallPool(), 0, 1) && LosesPage(SmallPool(), 0, 1)
  {
    var m, owner := SmallPool(), map[0 := Dir, 1 := Table(0), 2 := User(0, 0)];
    PteParts(1, 6);
    PteOpen(1);
    PteParts(2, 6);
    forall k: nat, l: nat | k < 1024 && l < 1024
      ensures Entry(m, 0, k, l) == if k == 0 && l == 0 then Pte(2, 6) else 0
    {
      assert m.pages[0][k] == if k == 0 then Pte(1, 6) else 0;
    }
    assert LosesPageAt(m, 0, 1, 0);
  }
}
