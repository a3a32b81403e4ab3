/** What the processor lets a program do with an address space: it takes the present, writable and user bits of both
    levels together (section 4.6 of the Intel manual's volume 3A). */
module PageAccess {
  import opened PageTable

  // PTE_P is bit 0, PTE_W bit 1 and PTE_U bit 2 of an entry.

  predicate HasP(w: nat) { w % 2 == 1 }
  predicate HasW(w: nat) { w / 2 % 2 == 1 }
  predicate HasU(w: nat) { w / 4 % 2 == 1 }

  /** Page v has an entry in both levels. */
  ghost predicate Walks(m: Mem, dir: nat, v: nat) {
    && dir in m.pages && v < 0x10_0000
    && var pde := m.pages[dir][v / 1024];
       HasP(pde) && pde / 4096 in m.pages && HasP(m.pages[pde / 4096][v % 1024])
  }

  /** The entry in the table. */
  ghost function Last(m: Mem, dir: nat, v: nat): nat
    requires Walks(m, dir, v)
  {
    m.pages[m.pages[dir][v / 1024] / 4096][v % 1024]
  }

  ghost predicate UserReads(m: Mem, dir: nat, v: nat) {
    Walks(m, dir, v) && HasU(m.pages[dir][v / 1024]) && HasU(Last(m, dir, v))
  }

  ghost predicate UserWrites(m: Mem, dir: nat, v: nat) {
    UserReads(m, dir, v) && HasW(m.pages[dir][v / 1024]) && HasW(Last(m, dir, v))
  }

  /** The kernel's writes obey PTE_W too, since entry.S sets CR0_WP. */
  ghost predicate KernelWrites(m: Mem, dir: nat, v: nat) {
    Walks(m, dir, v) && HasW(m.pages[dir][v / 1024]) && HasW(Last(m, dir, v))
  }

  lemma OpenBits(w: nat)
    requires Open(w)
    ensures HasP(w) && HasW(w) && HasU(w)
  {
    var k := w / 8;
    Halves(w, 4 * k + 3);
    Halves(4 * k + 3, 2 * k + 1);
    Halves(2 * k + 1, k);
  }

  lemma Halves(a: nat, b: nat)
    requires a == 2 * b + 1
    ensures a % 2 == 1 && a / 2 == b && a / 4 == b / 2
  {
  }

  lemma FlagBits(w: nat)
    ensures HasP(w) == HasP(Flags(w)) && HasW(w) == HasW(Flags(w)) && HasU(w) == HasU(Flags(w))
  {
    var k, f := w / 4096, Flags(w);
    assert w == 4096 * k + f;
    assert w / 2 == 2048 * k + f / 2 && w / 4 == 1024 * k + f / 4;
  }

  /** In an address space the table's entry alone decides. */
  lemma Decides(m: Mem, dir: nat, owner: map<nat, Use>, v: nat, i: nat, j: nat)
    requires Space(m, dir, owner) && v == 1024 * i + j && i < 1024 && j < 1024
    ensures Walks(m, dir, v) <==> HasP(Entry(m, dir, i, j))
    ensures Walks(m, dir, v) ==> Last(m, dir, v) == Entry(m, dir, i, j)
    ensures UserReads(m, dir, v) <==> HasP(Entry(m, dir, i, j)) && HasU(Entry(m, dir, i, j))
    ensures KernelWrites(m, dir, v) <==> HasP(Entry(m, dir, i, j)) && HasW(Entry(m, dir, i, j))
    ensures UserWrites(m, dir, v) <==> UserReads(m, dir, v) && KernelWrites(m, dir, v)
  {
    assert v / 1024 == i && v % 1024 == j;
    if Present(m.pages[dir][i]) {
      assert PAddr(m.pages[dir][i]) in owner;
      OpenBits(m.pages[dir][i]);
    }
  }

  /** A page that allocuvm grew can be read and written by the user, and is zero. */
  lemma GrownAccess(m: Mem, owner: map<nat, Use>, dir: nat, m': Mem, owner': map<nat, Use>, lo: nat, hi: nat, v: nat)
    requires Grown(m, owner, dir, m', owner', lo, hi) && lo <= v < hi <= 0x10_0000
    ensures UserWrites(m', dir, v) && Last(m', dir, v) / 4096 in m'.pages
    ensures forall b | 0 <= b < 1024 :: m'.pages[Last(m', dir, v) / 4096][b] == 0
  {
    var i, j := v / 1024, v % 1024;
    assert v == 1024 * i + j;
    Decides(m', dir, owner', v, i, j);
    var w := Entry(m', dir, i, j);
    assert FreshPage(m', w);
    FlagBits(w);
  }

  /** Zero pages that the user may read and write. */
  ghost predicate UserZeros(m: Mem, dir: nat, lo: nat, hi: nat) {
    forall v | lo <= v < hi :: UserZero(m, dir, v)
  }

  ghost predicate UserZero(m: Mem, dir: nat, v: nat) {
    && UserWrites(m, dir, v) && Last(m, dir, v) / 4096 in m.pages
    && forall b | 0 <= b < 1024 :: m.pages[Last(m, dir, v) / 4096][b] == 0
  }

  lemma AllGrown(m: Mem, owner: map<nat, Use>, dir: nat, m': Mem, owner': map<nat, Use>, lo: nat, hi: nat)
    requires Grown(m, owner, dir, m', owner', lo, hi) && hi <= 0x10_0000
    ensures UserZeros(m', dir, lo, hi)
  {
    forall v | lo <= v < hi
      ensures UserZero(m', dir, v)
    {
      GrownAccess(m, owner, dir, m', owner', lo, hi, v);
    }
  }

  /** The other pages are as they were, for the user and the kernel. */
  lemma GrownElsewhere(m: Mem, owner: map<nat, Use>, dir: nat, m': Mem, owner': map<nat, Use>, lo: nat, hi: nat, v: nat)
    requires Space(m, dir, owner) && Grown(m, owner, dir, m', owner', lo, hi) && v < 0x10_0000 && !(lo <= v < hi)
    ensures UserReads(m', dir, v) == UserReads(m, dir, v) && UserWrites(m', dir, v) == UserWrites(m, dir, v)
    ensures Walks(m, dir, v) ==> Walks(m', dir, v) && Last(m', dir, v) == Last(m, dir, v)
  {
    var i, j := v / 1024, v % 1024;
    assert v == 1024 * i + j;
    Decides(m, dir, owner, v, i, j);
    Decides(m', dir, owner', v, i, j);
  }

  /** A page that copyuvm copied is the child's own, holds the parent's words and can be used as the parent's can. */
  lemma CopiedAccess(m0: Mem, d0: nat, own0: map<nat, Use>, m: Mem, d: nat, owner: map<nat, Use>, n: nat, t: seq<Kmap>,
                     v: nat)
    requires Space(m0, d0, own0) && Copies(m0, d0, m, d, owner, n, t) && v < n <= 0x8_0000
    ensures UserReads(m, d, v) == UserReads(m0, d0, v) && UserWrites(m, d, v) == UserWrites(m0, d0, v)
    ensures Walks(m, d, v) && Walks(m0, d0, v)
    ensures var p, q := Last(m, d, v) / 4096, Last(m0, d0, v) / 4096;
            p in owner && q in own0 && q in m0.pages && m.pages[p] == m0.pages[q]
  {
    var i, j := v / 1024, v % 1024;
    assert v == 1024 * i + j;
    Decides(m0, d0, own0, v, i, j);
    Decides(m, d, owner, v, i, j);
    var w, w' := Entry(m0, d0, i, j), Entry(m, d, i, j);
    assert CopyOf(m, w, w');
    FlagBits(w);
    FlagBits(w');
  }

  /** Pages 0..n-1 of the child: its own, with the parent's words and permissions. */
  ghost predicate SameUse(m0: Mem, d0: nat, m: Mem, d: nat, owner: map<nat, Use>, n: nat) {
    forall v | 0 <= v < n :: SameUseAt(m0, d0, m, d, owner, v)
  }

  ghost predicate SameUseAt(m0: Mem, d0: nat, m: Mem, d: nat, owner: map<nat, Use>, v: nat) {
    && Walks(m, d, v) && Walks(m0, d0, v)
    && UserReads(m, d, v) == UserReads(m0, d0, v) && UserWrites(m, d, v) == UserWrites(m0, d0, v)
    && var p, q := Last(m, d, v) / 4096, Last(m0, d0, v) / 4096;
       p in owner && p in m.pages && q in m0.pages && m.pages[p] == m0.pages[q]
  }

  lemma AllCopied(m0: Mem, d0: nat, own0: map<nat, Use>, m: Mem, d: nat, owner: map<nat, Use>, n: nat, t: seq<Kmap>)
    requires Space(m0, d0, own0) && Copies(m0, d0, m, d, owner, n, t) && n <= 0x8_0000
    ensures SameUse(m0, d0, m, d, owner, n)
  {
    forall v | 0 <= v < n
      ensures SameUseAt(m0, d0, m, d, owner, v)
    {
      CopiedAccess(m0, d0, own0, m, d, owner, n, t, v);
    }
  }

  // The kernel's half

  /** Page v of the kernel's half is as kmap says. */
  ghost predicate KernelEntry(m: Mem, dir: nat, data: nat, v: nat)
    requires 256 < data < 57344
  {
    dir in m.pages && 0x8_0000 <= v < 0x10_0000 && Entry(m, dir, v / 1024, v % 1024) == Covered(KernelMap(data), 4, v)
  }

  lemma PermBits(ppn: nat, perm: nat)
    requires perm == 0 || perm == 2
    ensures HasP(Pte(ppn, perm)) && !HasU(Pte(ppn, perm)) && (HasW(Pte(ppn, perm)) <==> perm == 2)
    ensures Pte(ppn, perm) / 4096 == ppn
  {
    PteParts(ppn, perm);
    FlagBits(Pte(ppn, perm));
  }

  /** What kmap says: memory up to PHYSTOP from KERNBASE on, read-only from EXTMEM to the kernel's data, and the
      devices where they are. */
  lemma KmapRows(data: nat, v: nat)
    requires 256 < data < 57344 && 0x8_0000 <= v < 0x10_0000
    ensures Covered(KernelMap(data), 4, v) ==
              if v >= 0xF_E000 then Pte(v, 2)
              else if v < 0x8_E000 then Pte(v - 0x8_0000, if 0x8_0100 <= v < 0x8_0000 + data then 0 else 2)
              else 0
  {
    var t := KernelMap(data);
    assert Covered(t, 4, v) == if v >= 0xF_E000 then Pte(v, 2) else Covered(t, 3, v);
    assert Covered(t, 3, v) == if 0x8_0000 + data <= v < 0x8_E000 then Pte(v - 0x8_0000, 2) else Covered(t, 2, v);
    assert Covered(t, 2, v) == if 0x8_0100 <= v < 0x8_0000 + data then Pte(v - 0x8_0000, 0) else Covered(t, 1, v);
    assert Covered(t, 1, v) == if 0x8_0000 <= v < 0x8_0100 then Pte(v - 0x8_0000, 2) else 0;
  }

  /** No user program reads the kernel's half; the kernel sees there physical memory up to PHYSTOP, 0xE000000, and the
      devices from 0xFE000000 on, and writes all of it but its own text and read-only data. */
  lemma KernelView(m: Mem, dir: nat, owner: map<nat, Use>, data: nat, v: nat)
    requires 256 < data < 57344 && Space(m, dir, owner) && KernelEntry(m, dir, data, v)
    ensures !UserReads(m, dir, v)
    ensures Walks(m, dir, v) <==> v < 0x8_E000 || v >= 0xF_E000
    ensures Walks(m, dir, v) ==> Last(m, dir, v) / 4096 == if v < 0x8_E000 then v - 0x8_0000 else v
    ensures KernelWrites(m, dir, v) <==> Walks(m, dir, v) && !(0x8_0100 <= v < 0x8_0000 + data)
  {
    var i, j := v / 1024, v % 1024;
    assert v == 1024 * i + j;
    Decides(m, dir, owner, v, i, j);
    KmapRows(data, v);
    if v >= 0xF_E000 {
      PermBits(v, 2);
    } else if v < 0x8_E000 {
      PermBits(v - 0x8_0000, if 0x8_0100 <= v < 0x8_0000 + data then 0 else 2);
    }
  }

  /** The same for all of it. */
  ghost predicate KernelHalf(m: Mem, dir: nat, data: nat) {
    forall v | 0x8_0000 <= v < 0x10_0000 ::
      && !UserReads(m, dir, v)
      && (Walks(m, dir, v) <==> v < 0x8_E000 || v >= 0xF_E000)
      && (Walks(m, dir, v) ==> Last(m, dir, v) / 4096 == if v < 0x8_E000 then v - 0x8_0000 else v)
      && (KernelWrites(m, dir, v) <==> Walks(m, dir, v) && !(0x8_0100 <= v < 0x8_0000 + data))
  }

  lemma AllKernel(m: Mem, dir: nat, owner: map<nat, Use>, data: nat)
    requires 256 < data < 57344 && Space(m, dir, owner)
    requires forall k: nat, l: nat | 512 <= k < 1024 && l < 1024 ::
               Entry(m, dir, k, l) == Covered(KernelMap(data), 4, 1024 * k + l)
    ensures KernelHalf(m, dir, data)
  {
    forall v | 0x8_0000 <= v < 0x10_0000
      ensures KernelEntry(m, dir, data, v)
    {
      var i, j := v / 1024, v % 1024;
      assert 512 <= i < 1024 && j < 1024 && v == 1024 * i + j;
    }
    forall v | 0x8_0000 <= v < 0x10_0000
      ensures && !UserReads(m, dir, v)
              && (Walks(m, dir, v) <==> v < 0x8_E000 || v >= 0xF_E000)
              && (Walks(m, dir, v) ==> Last(m, dir, v) / 4096 == if v < 0x8_E000 then v - 0x8_0000 else v)
              && (KernelWrites(m, dir, v) <==> Walks(m, dir, v) && !(0x8_0100 <= v < 0x8_0000 + data))
    {
      KernelView(m, dir, owner, data, v);
    }
  }
}
