/** kalloc.c and vm.c working in place, on page numbers instead of byte addresses. */
module Vm {
  import opened PageTable
  import opened PageCount
  import opened PageAccess

  datatype Option<T> = None | Some(value: T)

  /** allocuvm: newsz; 0 because newsz is in the kernel's half; oldsz; 0 for want of memory; panic("remap"). */
  datatype GrowResult = Size | TooBig | Kept | OutOfMemory | Panic

  /** A page that mappages finds mapped was so before allocuvm began. */
  lemma StillMapped(m0: Mem, own0: map<nat, Use>, dir: nat, m1: Mem, own1: map<nat, Use>, m2: Mem, lo: nat, v: nat,
                    next: nat, hi: nat)
    requires Grown(m0, own0, dir, m1, own1, lo, v) && dir in m2.pages && SameEntries(m1, dir, m2)
    requires !Unmapped(m2, dir, v, next) && lo <= v < next <= hi
    ensures !Unmapped(m0, dir, lo, hi)
  {
    var k: nat, l: nat :| k < 1024 && l < 1024 && v <= 1024 * k + l < next && Present(Entry(m2, dir, k, l));
    assert Present(Entry(m0, dir, k, l));
  }

  class Kernel {
    var m: Mem

    /** kalloc */
    method KAlloc() returns (r: Option<nat>)
      modifies this
      ensures r.None? <==> old(m).free == []
      ensures r.None? ==> m == old(m)
      ensures r.Some? ==> r.value == old(m).free[0] && m == Mem(old(m).free[1..], old(m).pages)
    {
      if m.free == [] {
        return None;
      }
      r := Some(m.free[0]);
      m := Mem(m.free[1..], m.pages);
    }

    /** kfree. False means the page is not one of the pool's, and the kernel panics. */
    method KFree(p: nat) returns (ok: bool)
      modifies this
      ensures ok <==> p in old(m).pages
      ensures m == if ok then Mem([p] + old(m).free, old(m).pages[p := Junk()]) else old(m)
      ensures ok ==> forall b | 0 <= b < 1024 :: m.pages[p][b] == 0x01010101
    {
      ok := p in m.pages;
      if ok {
        m := Mem(m.free, m.pages[p := Junk()]);
        m := Mem([p] + m.free, m.pages);
      }
    }

    /** walkpgdir: the table that holds the entries of directory slot i. */
    method Walk(dir: nat, i: nat, alloc: bool, ghost owner: map<nat, Use>)
      returns (t: Option<nat>, ghost owner': map<nat, Use>)
      requires Space(m, dir, owner) && i < 1024
      modifies this
      ensures Space(m, dir, owner') && Conserves(old(m), owner, m, owner') && MoreTables(owner, owner')
      ensures SameEntries(old(m), dir, m)
      ensures t.None? ==> m == old(m) && owner' == owner && !Present(m.pages[dir][i]) && (alloc ==> m.free == [])
      ensures t.Some? ==> Present(m.pages[dir][i]) && PAddr(m.pages[dir][i]) == t.value && t.value in m.pages
      ensures Present(old(m).pages[dir][i]) || !alloc ==> m == old(m) && owner' == owner
      ensures t.Some? ==> OneTable(old(m), dir, m, i)
      ensures t.Some? ==> |m.free| == |old(m).free| - if Present(old(m).pages[dir][i]) then 0 else 1
    {
      owner' := owner;
      if Present(m.pages[dir][i]) {
        TableThere(m, dir, i);
        return Some(PAddr(m.pages[dir][i])), owner;
      }
      if !alloc {
        return None, owner;
      }
      if m.free != [] {
        NewTableSpace(m, dir, owner, i);
        TableAdded(m, dir, owner, i);
      }
      t := KAlloc();
      if t.None? {
        return None, owner;
      }
      owner' := owner[t.value := Table(i)];
      m := Mem(m.free, m.pages[t.value := ZeroPage()]);
      m := Mem(m.free, m.pages[dir := m.pages[dir][i := Pte(t.value, 6)]]);
    }

    /** One turn of mappages. A user page must be in hand: taken from the pool, and nobody's yet. */
    method MapPage(dir: nat, i: nat, j: nat, p: nat, perm: nat, ghost owner: map<nat, Use>)
      returns (r: MapResult, ghost owner': map<nat, Use>)
      requires Space(m, dir, owner) && i < 1024 && j < 1024 && perm < 4096
      requires i < 512 ==> InHand(m, owner, p)
      modifies this
      ensures Space(m, dir, owner')
      ensures r.Remap? <==> Present(Entry(old(m), dir, i, j))
      ensures !r.Done? ==> m == old(m) && owner' == owner
      ensures r.NoMemory? ==> m.free == [] && !Present(m.pages[dir][i])
      ensures r.Done? ==> OneTable(old(m), dir, m, i)
      ensures r.Done? ==> |m.free| == |old(m).free| - if Present(old(m).pages[dir][i]) then 0 else 1
      ensures r.Done? ==> OneEntry(old(m), dir, m, i, j, Pte(p, perm))
      ensures r.Done? && i >= 512 ==> Conserves(old(m), owner, m, owner') && MoreTables(owner, owner')
      ensures r.Done? && i < 512 ==>
                Conserves(old(m), owner[p := User(i, j)], m, owner') && MoreTables(owner[p := User(i, j)], owner')
    {
      var t;
      t, owner' := Walk(dir, i, true, owner);
      if t.None? {
        return NoMemory, owner';
      }
      if Present(m.pages[t.value][j]) {
        return Remap, owner';
      }
      ghost var m1 := m;
      SetEntryAt(m, dir, owner', i, j, Pte(p, perm), i, j);
      if i < 512 {
        MapUserStep(old(m), owner, m, owner', dir, i, j, p, perm);
        owner' := owner'[p := User(i, j)];
      } else {
        MapKernelStep(old(m), owner, m, owner', dir, i, j, Pte(p, perm));
      }
      m := Mem(m.free, m.pages[t.value := m.pages[t.value][j := Pte(p, perm)]]);
      EntryTables(old(m), m1, m, dir, i);
      return Done, owner';
    }

    /** mappages, for pages first..end-1 of the kernel half, or for one user page, which is in hand. */
    method MapPages(dir: nat, first: nat, end: nat, ppn: nat, perm: nat, ghost owner: map<nat, Use>,
                    ghost base: map<nat, Use>)
      returns (r: MapResult, ghost owner': map<nat, Use>)
      requires Space(m, dir, owner) && first < end <= 0x10_0000 && perm < 4096
      requires first < 0x8_0000 ==> end == first + 1 && InHand(m, owner, ppn)
      requires base == if first < 0x8_0000 then owner[ppn := User(first / 1024, first % 1024)] else owner
      modifies this
      ensures Space(m, dir, owner')
      ensures r.Done? ==>
                Mapped(old(m), dir, m, first, end, ppn, perm) && Conserves(old(m), base, m, owner')
                && MoreTables(base, owner')
      ensures r.Done? ==> Unmapped(old(m), dir, first, end)
      ensures r.Remap? ==> !Unmapped(old(m), dir, first, end)
      ensures !r.Done? && first < 0x8_0000 ==> m == old(m) && owner' == owner
      ensures r.Done? ==> Took(old(m), dir, m, 0, first, end)
      ensures r.NoMemory? ==> |old(m).free| < TableCost(old(m), dir, first, end)
      ensures r.NoMemory? && first >= 0x8_0000 ==> Conserves(old(m), owner, m, owner') && KernelOnly(old(m), dir, m)
    {
      var v, pa := first, ppn;
      owner' := owner;
      NoTablesYet(m, dir, first);
      while true
        invariant first <= v < end && pa == ppn + v - first && Space(m, dir, owner')
        invariant v == first ==> m == old(m) && owner' == owner
        invariant v > first ==> Conserves(old(m), base, m, owner') && MoreTables(base, owner')
        invariant Mapped(old(m), dir, m, first, v, ppn, perm) && Unmapped(old(m), dir, first, v)
        invariant Took(old(m), dir, m, 0, first, v)
        decreases end - v
      {
        var i, j, next := v / 1024, v % 1024, v + 1;
        ghost var m1, own1 := m, owner';
        r, owner' := MapPage(dir, i, j, pa, perm, owner');
        NextMapped(old(m), dir, m1, m, first, v, next, ppn, perm, i, j, pa, r);
        if !r.Done? {
          if r.NoMemory? {
            TooFew(old(m), dir, m1, 0, 0, first, v, next, end, i);
          }
          return;
        }
        TookStep(old(m), dir, m1, m, 0, 0, first, v, next, i);
        if v > first {
          ConservesTrans(old(m), base, m1, own1, m, owner');
        }
        if next == end {
          return;
        }
        v, pa := next, pa + 1;
      }
    }

    /** The body of deallocuvm's loop: the next page to look at. False means kfree panics. */
    method DeallocTurn(dir: nat, v: nat, ghost m0: Mem, ghost own0: map<nat, Use>, ghost owner: map<nat, Use>,
                       ghost lo: nat, ghost hi: nat)
      returns (ok: bool, next: nat, ghost owner': map<nat, Use>, ghost done: nat)
      requires Space(m0, dir, own0) && Shrunk(m0, own0, dir, m, owner, lo, v) && lo <= v < hi <= 0x8_0000
      modifies this
      ensures ok && v < next && done == (if next < hi then next else hi) && Shrunk(m0, own0, dir, m, owner', lo, done)
    {
      var i, j := v / 1024, v % 1024;
      var t;
      t, owner' := Walk(dir, i, false, owner);
      if t.None? {
        next := 1024 * (i + 1);
        done := if next < hi then next else hi;
        AbsentTable(m, dir, i, v, done);
        SkipAbsent(m0, own0, dir, m, owner, lo, v, done);
        return true, next, owner, done;
      }
      next := v + 1;
      done := next;
      var pte := m.pages[t.value][j];
      if Present(pte) {
        ShrinkPage(m0, own0, dir, m, owner, lo, v, next, i, j);
        owner' := owner - {PAddr(pte)};
        ok := KFree(PAddr(pte));
        m := Mem(m.free, m.pages[t.value := m.pages[t.value][j := 0]]);
      } else {
        AbsentPage(m, dir, i, j, v, next);
        SkipAbsent(m0, own0, dir, m, owner, lo, v, next);
        ok := true;
      }
    }

    /** deallocuvm: gives up the user pages in [newsz, oldsz), skipping directory slots without a table. */
    method DeallocUvm(dir: nat, oldsz: nat, newsz: nat, ghost owner: map<nat, Use>)
      returns (ok: bool, r: nat, ghost owner': map<nat, Use>)
      requires Space(m, dir, owner) && oldsz <= 0x8000_0000
      modifies this
      ensures ok && r == if newsz >= oldsz then oldsz else newsz
      ensures newsz >= oldsz ==> m == old(m) && owner' == owner
      ensures newsz < oldsz ==> Shrunk(old(m), owner, dir, m, owner', PagesUp(newsz), PagesUp(oldsz))
    {
      owner' := owner;
      if newsz >= oldsz {
        return true, oldsz, owner;
      }
      ghost var lo, hi := PagesUp(newsz), PagesUp(oldsz);
      var v := PagesUp(newsz);
      ghost var done := v;
      ok := true;
      while 4096 * v < oldsz
        invariant ok && lo <= v && done == (if v < hi then v else hi) && Shrunk(old(m), owner, dir, m, owner', lo, done)
        decreases hi - v
      {
        ok, v, owner', done := DeallocTurn(dir, v, old(m), owner, owner', lo, hi);
      }
      r := newsz;
    }

    /** freevm, without shared pages: the pool gets back every page of the space, each once. */
    method FreeVm(dir: nat, ghost owner: map<nat, Use>) returns (ok: bool)
      requires Space(m, dir, owner)
      modifies this
      ensures ok && PoolOk(m) && Conserves(old(m), owner, m, map[])
    {
      var sz;
      ghost var own1;
      ok, sz, own1 := DeallocUvm(dir, 0x8000_0000, 0, owner);
      ghost var m1 := m;
      var i := 0;
      while i < 1024
        invariant 0 <= i <= 1024 && ok && TablesFreed(m1, dir, own1, m, i)
      {
        var next := i + 1;
        FreeTable(m1, dir, own1, m, i, next);
        if Present(m.pages[dir][i]) {
          ok := KFree(PAddr(m.pages[dir][i]));
        }
        i := next;
      }
      AllFreed(m1, dir, own1, m);
      ok := KFree(dir);
      ConservesTrans(old(m), owner, m1, own1, m, map[]);
    }

    /** One row of kmap. */
    method MapRow(dir: nat, data: nat, k: nat, ghost owner: map<nat, Use>, ghost empty: Mem)
      returns (r: MapResult, ghost owner': map<nat, Use>)
      requires 256 < data < 57344 && k < 4 && Space(m, dir, owner) && KernelRows(m, dir, KernelMap(data), k)
      modifies this
      ensures !r.Remap? && Space(m, dir, owner') && Conserves(old(m), owner, m, owner')
      ensures r.Done? ==> KernelRows(m, dir, KernelMap(data), k + 1)
      ensures RowsDone(empty, dir, old(m), data, k) ==>
                if r.Done? then RowsDone(empty, dir, m, data, k + 1) else |empty.free| < 64
    {
      var row := KernelMap(data)[k];
      var first, end := row.virt, row.virt + row.n;
      RowUnmapped(m, dir, data, k, first, end);
      r, owner' := MapPages(dir, first, end, row.phys, row.perm, owner, owner);
      if r.Done? {
        RowMapped(old(m), dir, m, data, k, k + 1, first, end, row.phys, row.perm);
      }
      if RowsDone(empty, dir, old(m), data, k) {
        RowOutcome(empty, dir, old(m), m, data, k, first, end, r);
      }
    }

    /** setupkvm: a directory with the kernel's mappings, or nothing and the pool as it was. */
    method SetupKvm(data: nat) returns (r: Option<nat>, ghost owner: map<nat, Use>)
      requires PoolOk(m) && 256 < data < 57344
      modifies this
      ensures r.Some? ==> KernelSpace(m, r.value, owner, data) && Conserves(old(m), map[], m, owner)
      ensures r.None? ==> PoolOk(m) && Conserves(old(m), map[], m, map[])
      ensures r.None? <==> |old(m).free| < 65
      ensures r.Some? ==> KernelTables(m, r.value) && |m.free| == |old(m).free| - 65
      ensures r.Some? ==> KernelHalf(m, r.value, data)
    {
      owner := map[];
      r := KAlloc();
      if r.None? {
        return;
      }
      var dir := r.value;
      m := Mem(m.free, m.pages[dir := ZeroPage()]);
      NewDirectory(old(m), dir, m);
      ghost var empty := m;
      owner := map[dir := Dir];
      var k := 0;
      while k < 4
        invariant 0 <= k <= 4 && Space(m, dir, owner) && KernelRows(m, dir, KernelMap(data), k)
        invariant Conserves(old(m), map[], m, owner)
        invariant RowsDone(empty, dir, m, data, k)
      {
        ghost var m1, own1 := m, owner;
        var done;
        done, owner := MapRow(dir, data, k, owner, empty);
        ConservesTrans(old(m), map[], m1, own1, m, owner);
        if done.NoMemory? {
          ghost var m2 := m;
          var ok := FreeVm(dir, owner);
          ConservesTrans(old(m), map[], m2, owner, m, map[]);
          return None, map[];
        }
        k := k + 1;
      }
      AllKernel(m, dir, owner, data);
    }

    /** allocuvm. Growing maps zero pages for all of [oldsz, newsz); a failure takes every page back. */
    method AllocUvm(dir: nat, oldsz: nat, newsz: nat, ghost owner: map<nat, Use>)
      returns (r: GrowResult, ghost owner': map<nat, Use>)
      requires Space(m, dir, owner) && oldsz < 0x8000_0000
      modifies this
      ensures r.TooBig? <==> newsz >= 0x8000_0000
      ensures r.Kept? <==> newsz < oldsz
      ensures r.TooBig? || r.Kept? ==> m == old(m) && owner' == owner
      ensures r.Size? ==> Grown(old(m), owner, dir, m, owner', PagesUp(oldsz), PagesUp(newsz))
      ensures r.OutOfMemory? ==> Undone(old(m), owner, dir, m, owner', PagesUp(oldsz), PagesUp(newsz))
      ensures r.Panic? ==> !Unmapped(old(m), dir, PagesUp(oldsz), PagesUp(newsz))
      ensures r.Size? ==> |m.free| == |old(m).free| - GrowCost(old(m), dir, PagesUp(oldsz), PagesUp(newsz))
      ensures r.OutOfMemory? ==> |old(m).free| < GrowCost(old(m), dir, PagesUp(oldsz), PagesUp(newsz))
      ensures r.Size? ==> UserZeros(m, dir, PagesUp(oldsz), PagesUp(newsz))
    {
      owner' := owner;
      if newsz >= 0x8000_0000 {
        return TooBig, owner;
      }
      if newsz < oldsz {
        return Kept, owner;
      }
      ghost var lo, hi := PagesUp(oldsz), PagesUp(newsz);
      var v := PagesUp(oldsz);
      NoTablesYet(m, dir, lo);
      while 4096 * v < newsz
        invariant lo <= v <= hi && Grown(old(m), owner, dir, m, owner', lo, v)
        invariant Took(old(m), dir, m, v - lo, lo, v)
      {
        var next := v + 1;
        r, owner' := GrowTurn(dir, v, next, oldsz, newsz, old(m), owner, owner', lo, hi);
        if !r.Size? {
          return;
        }
        v := next;
      }
      GrownAll(old(m), dir, m, lo, v, hi);
      AllGrown(old(m), owner, dir, m, owner', lo, hi);
      return Size, owner';
    }

    /** One turn of allocuvm's loop. */
    method GrowTurn(dir: nat, v: nat, next: nat, oldsz: nat, newsz: nat, ghost m0: Mem, ghost own0: map<nat, Use>,
                    ghost owner: map<nat, Use>, ghost lo: nat, ghost hi: nat)
                      returns (r: GrowResult, ghost owner': map<nat, Use>)
      requires Space(m0, dir, own0) && Grown(m0, own0, dir, m, owner, lo, v) && lo <= v < hi <= 0x8_0000
      requires next == v + 1
      requires lo == PagesUp(oldsz) && hi == PagesUp(newsz) && oldsz < newsz < 0x8000_0000
      requires Took(m0, dir, m, v - lo, lo, v)
      modifies this
      ensures !r.TooBig? && !r.Kept?
      ensures r.Size? ==> Grown(m0, own0, dir, m, owner', lo, next)
      ensures r.OutOfMemory? ==> Undone(m0, own0, dir, m, owner', lo, hi)
      ensures r.Panic? ==> !Unmapped(m0, dir, lo, hi)
      ensures r.Size? ==> Took(m0, dir, m, next - lo, lo, next)
      ensures r.OutOfMemory? ==> |m0.free| < GrowCost(m0, dir, lo, hi)
    {
      ghost var m1 := m;
      var mem := KAlloc();
      var ok, sz;
      if mem.None? {
        TooFew(m0, dir, m1, v - lo, 1, lo, v, next, hi, v / 1024);
        ok, sz, owner' := DeallocUvm(dir, newsz, oldsz, owner);
        UndoGrown(m0, own0, dir, m1, owner, m, owner', lo, v, hi);
        return OutOfMemory, owner';
      }
      var p := mem.value;
      m := Mem(m.free, m.pages[p := ZeroPage()]);
      ghost var m2, i, j := m, v / 1024, v % 1024;
      TakePage(m1, dir, owner, p, m2, User(i, j));
      var done;
      done, owner' := MapPages(dir, v, next, p, 6, owner, owner[p := User(i, j)]);
      match done {
        case Remap =>
          StillMapped(m0, own0, dir, m1, owner, m2, lo, v, next, hi);
          r := Panic;
        case NoMemory =>
          PageCost(m1, m2, m, dir, v, next, i);
          TooFew(m0, dir, m1, v - lo, 1, lo, v, next, hi, i);
          ok, sz, owner' := DeallocUvm(dir, newsz, oldsz, owner);
          ghost var m3 := m;
          ok := KFree(p);
          UndoInHand(m0, own0, dir, m1, owner, p, m2, m3, owner', m, lo, v, hi);
          r := OutOfMemory;
        case Done =>
          AddPage(dir, m1, owner, m2, p, m, owner', v, next, i, j);
          GrowStep(m0, own0, dir, m1, owner, m, owner', lo, v, next, i, j, p);
          PageCost(m1, m2, m, dir, v, next, i);
          TookStep(m0, dir, m1, m, v - lo, 1, lo, v, next, i);
          r := Size;
      }
    }

    /** One turn of copyuvm's loop, once a page has been allocated. The page is lost when mappages fails. */
    method CopyTo(d: nat, v: nat, next: nat, w: nat, p: nat, ghost m0: Mem, ghost d0: nat, ghost own0: map<nat, Use>,
                  ghost m1: Mem, ghost owner: map<nat, Use>, ghost i: nat, ghost j: nat, ghost t: seq<Kmap>)
      returns (done: bool, ghost owner': map<nat, Use>)
      requires Space(m0, d0, own0) && Copies(m0, d0, m1, d, owner, v, t) && v < 0x8_0000 && i == v / 1024
      requires j == v % 1024 && next == v + 1
      requires w == Entry(m0, d0, i, j) && Present(w) && PAddr(w) in m1.pages
      requires m1.free != [] && p == m1.free[0] && m == Mem(m1.free[1..], m1.pages)
      modifies this
      ensures done ==> Copies(m0, d0, m, d, owner', next, t)
      ensures !done ==> owner' == owner && Space(m, d, owner) && Lost(m1, owner, m, owner, {p})
      ensures CopyCost(m1, d, m, i, if done then Child(d) else NoTable)
    {
      m := Mem(m.free, m.pages[p := m.pages[PAddr(w)]]);
      ghost var m2, base := m, owner[p := User(i, j)];
      TakePage(m1, d, owner, p, m2, User(i, j));
      TakenLost(m1, owner, p, m2);
      NextUnmapped(m0, d0, m1, d, owner, v, next, t, m2);
      var r;
      r, owner' := MapPages(d, v, next, p, Flags(w), owner, base);
      if r.Remap? {
        assert false;     // panic("remap")
      }
      done := r.Done?;
      PageCost(m1, m2, m, d, v, next, i);
      if done {
        CopyPage(m0, d0, own0, m1, d, owner, m2, p, m, owner', v, next, i, j, t, w);
      }
    }

    /** The entry of page (i, j), if it is mapped. */
    method FindPage(dir: nat, i: nat, j: nat, ghost owner: map<nat, Use>) returns (w: Option<nat>)
      requires Space(m, dir, owner) && i < 1024 && j < 1024
      modifies this
      ensures m == old(m)
      ensures w == if Present(Entry(m, dir, i, j)) then Some(Entry(m, dir, i, j)) else None
    {
      var t;
      ghost var own1;
      t, own1 := Walk(dir, i, false, owner);
      if t.None? {
        return None;         // "copyuvm: pte should exist"
      }
      var pte := m.pages[t.value][j];
      return if Present(pte) then Some(pte) else None;         // "copyuvm: page not present"
    }

    /** The body of copyuvm's loop. */
    method CopyStep(d0: nat, d: nat, v: nat, next: nat, i: nat, j: nat, ghost m0: Mem, ghost own0: map<nat, Use>,
                    ghost owner: map<nat, Use>, ghost t: seq<Kmap>)
      returns (r: CopyResult, ghost owner': map<nat, Use>, ghost lost: set<nat>)
      requires Space(m0, d0, own0) && Copies(m0, d0, m, d, owner, v, t) && v < 0x8_0000 && next == v + 1
      requires i == v / 1024 && j == v % 1024
      modifies this
      ensures r.NotMapped? <==> !Present(Entry(m0, d0, i, j))
      ensures r.Child? ==> r.dir == d && Copies(m0, d0, m, d, owner', next, t)
      ensures r.NoPage? ==> m == old(m) && owner' == owner && lost == {}
      ensures r.NoTable? ==> owner' == owner && Space(m, d, owner) && |lost| == 1 && Lost(old(m), owner, m, owner, lost)
      ensures CopyCost(old(m), d, m, i, r)
    {
      owner', lost := owner, {};
      ghost var m1 := m;
      ParentEntry(m0, d0, own0, m, owner, i, j);
      var w := FindPage(d0, i, j, own0);
      if w.None? {
        return NotMapped, owner, {};
      }
      var mem := KAlloc();
      if mem.None? {
        return NoPage, owner, {};
      }
      var done;
      done, owner' := CopyTo(d, v, next, w.value, mem.value, m0, d0, own0, m1, owner, i, j, t);
      if !done {
        return NoTable, owner, {mem.value};
      }
      return Child(d), owner', {};
    }

    /** The same, with what it decides about the whole copy of n pages. */
    method CopyNext(d0: nat, d: nat, v: nat, next: nat, ghost m0: Mem, ghost own0: map<nat, Use>,
                    ghost owner: map<nat, Use>,
                    ghost t: seq<Kmap>, ghost ms: Mem, ghost n: nat)
      returns (r: CopyResult, ghost owner': map<nat, Use>, ghost lost: set<nat>)
      requires Space(m0, d0, own0) && Copies(m0, d0, m, d, owner, v, t) && AllMapped(m0, d0, v)
      requires v < n <= 0x8_0000 && next == v + 1
      requires KernelTables(ms, d) && |ms.free| == |m0.free| - 65 && Took(ms, d, m, v, 0, v)
      modifies this
      ensures r.Child? ==>
                r.dir == d && Copies(m0, d0, m, d, owner', next, t) && AllMapped(m0, d0, next)
                  && Took(ms, d, m, next, 0, next)
      ensures r.NoPage? ==> m == old(m) && owner' == owner && lost == {}
      ensures r.NoTable? ==> owner' == owner && Space(m, d, owner) && |lost| == 1 && Lost(old(m), owner, m, owner, lost)
      ensures r.NotMapped? ==> !AllMapped(m0, d0, n)
      ensures !r.Child? ==> (r.NoTable? <==> LosesPage(m0, d0, n))
      ensures !r.Child? ==> !AllMapped(m0, d0, n) || |m0.free| < 65 + n + SlotsUp(n)
    {
      ghost var m1 := m;
      var i, j := v / 1024, v % 1024;
      r, owner', lost := CopyStep(d0, d, v, next, i, j, m0, own0, owner, t);
      MappedUpTo(m0, d0, v, next, n);
      CopyOutcome(m0, d0, ms, d, m1, m, v, next, i, n, r);
    }

    /** copyuvm: a child with a page of its own for each of the parent's pages below sz, with the same contents
        and flags. The parent keeps its pages in every case. */
    method CopyUvm(d0: nat, sz: nat, data: nat, ghost own0: map<nat, Use>)
      returns (r: CopyResult, ghost owner: map<nat, Use>, ghost lost: set<nat>)
      requires Space(m, d0, own0) && sz <= 0x8000_0000 && 256 < data < 57344
      modifies this
      ensures r.Child? ==> Copies(old(m), d0, m, r.dir, owner, PagesUp(sz), KernelMap(data))
      ensures r.Child? ==> SameUse(old(m), d0, m, r.dir, owner, PagesUp(sz)) && KernelHalf(m, r.dir, data)
      ensures !r.NotMapped? ==>
                && Space(m, d0, own0) && SameEntries(old(m), d0, m) && own0.Keys !! owner.Keys
                && forall p | p in own0 :: m.pages[p] == old(m).pages[p]
      ensures r.NoPage? || r.NoTable? ==> owner == map[] && PoolOk(m) && Lost(old(m), map[], m, map[], lost)
      ensures r.NoPage? ==> lost == {}
      ensures r.NoTable? ==> |lost| == 1
      ensures r.NoTable? <==> LosesPage(old(m), d0, PagesUp(sz))
      ensures r.Child? <==>
                AllMapped(old(m), d0, PagesUp(sz)) && 65 + PagesUp(sz) + SlotsUp(PagesUp(sz)) <= |old(m).free|
      ensures r.NotMapped? <==> !r.NoPage? && !r.NoTable? && !AllMapped(old(m), d0, PagesUp(sz))
    {
      lost := {};
      var kv;
      kv, owner := SetupKvm(data);
      if kv.None? {
        OtherSpace(old(m), d0, own0, map[], m, map[]);
        NotLost(old(m), d0, PagesUp(sz), 0);
        return NoPage, map[], {};
      }
      var d := kv.value;
      ghost var t, hi := KernelMap(data), PagesUp(sz);
      NothingCopied(old(m), d0, m, d, owner, data);
      ghost var ms := m;
      NoTablesYet(ms, d, 0);
      var v := 0;
      while 4096 * v < sz
        invariant 0 <= v <= hi && Copies(old(m), d0, m, d, owner, v, t) && AllMapped(old(m), d0, v)
        invariant Took(ms, d, m, v, 0, v)
      {
        var next := v + 1;
        ghost var m1, own1 := m, owner;
        r, owner, lost := CopyNext(d0, d, v, next, old(m), own0, owner, t, ms, hi);
        if r.NotMapped? {
          return;
        }
        if !r.Child? {
          ghost var m2 := m;
          var ok := FreeVm(d, owner);
          LostPage(old(m), m1, own1, m2, m, lost);
          owner := map[];
          OtherSpaceLost(old(m), d0, own0, m, lost);
          return;
        }
        v := next;
      }
      OtherSpace(old(m), d0, own0, map[], m, owner);
      CopiedAll(old(m), d0, ms, d, m, v, hi);
      AllCopied(old(m), d0, own0, m, d, owner, hi, t);
      AllKernel(m, d, owner, data);
      return Child(d), owner, {};
    }

    /** freerange: kfree each page that lies wholly in [vstart, vend). */
    method FreeRange(vstart: nat, vend: nat) returns (ok: bool)
      requires PoolOk(m)
      requires forall p | PagesUp(vstart) <= p && 4096 * (p + 1) <= vend :: p in m.pages && p !in m.free
      modifies this
      ensures ok && PoolOk(m) && m.pages.Keys == old(m).pages.Keys
      ensures forall p :: p in m.free <==> p in old(m).free || (PagesUp(vstart) <= p && 4096 * (p + 1) <= vend)
    {
      var p := PagesUp(vstart);
      ok := true;
      while 4096 * (p + 1) <= vend
        invariant PagesUp(vstart) <= p && ok && PoolOk(m) && m.pages.Keys == old(m).pages.Keys
        invariant forall q :: q in m.free <==> q in old(m).free || (PagesUp(vstart) <= q < p && 4096 * (q + 1) <= vend)
      {
        ok := KFree(p);
        p := p + 1;
      }
    }

    /** growproc, for n > 0. */
    method Grow(dir: nat, sz: nat, n: nat, ghost owner: map<nat, Use>)
      returns (ok: bool, sz': nat, ghost owner': map<nat, Use>)
      requires ProcSpace(m, dir, owner, sz) && 0 < n < 0x8000_0000
      modifies this
      ensures ProcSpace(m, dir, owner', sz') && PoolKept(old(m), owner, m, owner')
      ensures sz' == if ok then sz + n else sz
      ensures !ok ==> SamePages(old(m), dir, m)
      ensures ok <==> sz + n < 0x8000_0000 && GrowCost(old(m), dir, PagesUp(sz), PagesUp(sz + n)) <= |old(m).free|
      ensures AllMapped(old(m), dir, PagesUp(sz)) <==> AllMapped(m, dir, PagesUp(sz'))
    {
      var newsz := sz + n;
      ghost var lo, hi := PagesUp(sz), PagesUp(newsz);
      var r;
      r, owner' := AllocUvm(dir, sz, newsz, owner);
      match r {
        case Panic => assert false;       // panic("remap")
        case Size =>
          GrownProc(old(m), dir, owner, sz, m, owner', newsz, lo, hi);
          return true, newsz, owner';
        case OutOfMemory =>
          UndoneProc(old(m), dir, owner, sz, m, owner', lo, hi);
          return false, sz, owner';
        case TooBig => return false, sz, owner';
      }
    }

    /** growproc, for n < 0. A process that shrinks to nothing gets -1 and keeps its size, although its pages
        are gone. */
    method Shrink(dir: nat, sz: nat, n: int, ghost owner: map<nat, Use>)
      returns (ok: bool, sz': nat, ghost owner': map<nat, Use>)
      requires ProcSpace(m, dir, owner, sz) && -0x8000_0000 <= n < 0
      modifies this
      ensures ProcSpace(m, dir, owner', sz') && PoolKept(old(m), owner, m, owner')
      ensures ok <==> sz != 0 && sz + n != 0
      ensures !ok ==> sz' == sz
      ensures ok ==> sz' == if 0 <= sz + n then sz + n else sz
      ensures AllMapped(old(m), dir, PagesUp(sz)) ==> (AllMapped(m, dir, PagesUp(sz')) <==> sz + n != 0)
    {
      var newsz := (sz + n) % 0x1_0000_0000;
      SizeBelow(sz, n, newsz);
      ok, sz', owner' := DeallocUvm(dir, sz, newsz, owner);
      if newsz < sz {
        ShrunkProc(old(m), dir, owner, sz, m, owner', newsz, PagesUp(newsz), PagesUp(sz));
      }
      if sz' == 0 {
        if sz > 0 {
          EmptyProc(m, dir, owner', sz, PagesUp(sz));
        }
        return false, sz, owner';
      }
    }

    /** An address space from setupkvm through any growing and shrinking to freevm. */
    method Lifecycle(data: nat, steps: seq<int>) returns (ok: bool)
      requires PoolOk(m) && 256 < data < 57344 && forall k | 0 <= k < |steps| :: -0x8000_0000 <= steps[k] < 0x8000_0000
      modifies this
      ensures ok && PoolOk(m) && PoolKept(old(m), map[], m, map[])
    {
      var d;
      ghost var owner;
      d, owner := SetupKvm(data);
      if d.None? {
        return true;
      }
      NoUserPages(m, d.value, owner, data);
      var sz, k := 0, 0;
      while k < |steps|
        invariant 0 <= k <= |steps| && ProcSpace(m, d.value, owner, sz) && PoolKept(old(m), map[], m, owner)
      {
        ghost var m1, own1 := m, owner;
        if steps[k] > 0 {
          ok, sz, owner := Grow(d.value, sz, steps[k], owner);
          PoolKeptTrans(old(m), map[], m1, own1, m, owner);
        } else if steps[k] < 0 {
          ok, sz, owner := Shrink(d.value, sz, steps[k], owner);
          PoolKeptTrans(old(m), map[], m1, own1, m, owner);
        }
        k := k + 1;
      }
      ghost var m2 := m;
      ok := FreeVm(d.value, owner);
      PoolKeptTrans(old(m), map[], m2, owner, m, map[]);
    }
  }
}
