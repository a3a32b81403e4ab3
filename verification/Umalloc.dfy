/** The free list of umalloc.c as a value: blocks in address order, none touching the next.
    Addresses and sizes count Header units (8 bytes). */
module FreeList {

  datatype Blk = Blk(addr: nat, size: nat) {
    function End(): nat { addr + size }
    predicate Has(x: nat) { addr <= x < addr + size }
  }

  /** In address order, non-empty, all above `base`, with a gap between any two neighbours. */
  predicate Ordered(fl: seq<Blk>, base: nat) {
    && (forall i | 0 <= i < |fl| :: fl[i].size > 0 && base < fl[i].addr)
    && (forall i, j | 0 <= i < j < |fl| :: fl[i].End() < fl[j].addr)
  }

  /** Unit x is free. */
  ghost predicate IsFree(fl: seq<Blk>, x: nat) {
    exists i | 0 <= i < |fl| :: fl[i].Has(x)
  }

  /** bp belongs between block k-1 and block k. */
  predicate Between(fl: seq<Blk>, k: nat, b: Blk) {
    && k <= |fl|
    && (forall i | 0 <= i < k :: fl[i].End() <= b.addr)
    && (forall i | k <= i < |fl| :: b.End() <= fl[i].addr)
  }

  predicate JoinsNext(fl: seq<Blk>, k: nat, b: Blk) {
    k < |fl| && b.End() == fl[k].addr
  }

  predicate JoinsPrev(fl: seq<Blk>, k: nat, b: Blk) {
    0 < k <= |fl| && fl[k - 1].End() == b.addr
  }

  /** The blocks from lo up to hi replaced by the one block mid. */
  function Splice(fl: seq<Blk>, lo: nat, mid: Blk, hi: nat): (r: seq<Blk>)
    requires lo <= hi <= |fl|
  {
    fl[..lo] + [mid] + fl[hi..]
  }

  lemma SpliceAt(fl: seq<Blk>, lo: nat, mid: Blk, hi: nat, i: nat)
    requires lo <= hi <= |fl| && i < |Splice(fl, lo, mid, hi)|
    ensures Splice(fl, lo, mid, hi)[i] == if i < lo then fl[i] else if i == lo then mid else fl[i - lo - 1 + hi]
  {
  }

  lemma SpliceOrdered(fl: seq<Blk>, lo: nat, mid: Blk, hi: nat, base: nat)
    requires Ordered(fl, base) && lo <= hi <= |fl| && mid.size > 0 && base < mid.addr
    requires lo > 0 ==> fl[lo - 1].End() < mid.addr
    requires hi < |fl| ==> mid.End() < fl[hi].addr
    ensures Ordered(Splice(fl, lo, mid, hi), base)
  {
    var r := Splice(fl, lo, mid, hi);
    forall i | 0 <= i < |r|
      ensures r[i].size > 0 && base < r[i].addr
    {
      SpliceAt(fl, lo, mid, hi, i);
    }
    forall i, j | 0 <= i < j < |r|
      ensures r[i].End() < r[j].addr
    {
      SpliceAt(fl, lo, mid, hi, i);
      SpliceAt(fl, lo, mid, hi, j);
      assert i < lo - 1 ==> fl[i].End() < fl[lo - 1].addr;
      assert j > lo + 1 ==> fl[hi].End() < fl[j - lo - 1 + hi].addr;
    }
  }

  lemma SpliceFree(fl: seq<Blk>, lo: nat, mid: Blk, hi: nat, x: nat)
    requires lo <= hi <= |fl|
    requires forall i | lo <= i < hi :: fl[i].Has(x) ==> mid.Has(x)
    ensures IsFree(Splice(fl, lo, mid, hi), x) <==> mid.Has(x) || exists i | 0 <= i < |fl| && !(lo <= i < hi) ::
              fl[i].Has(x)
  {
    var r := Splice(fl, lo, mid, hi);
    assert r[lo] == mid;
    if i :| 0 <= i < |r| && r[i].Has(x) {
      SpliceAt(fl, lo, mid, hi, i);
    }
    if i :| 0 <= i < |fl| && !(lo <= i < hi) && fl[i].Has(x) {
      var j := if i < lo then i else i - hi + lo + 1;
      SpliceAt(fl, lo, mid, hi, j);
      assert r[j].Has(x);
    }
  }

  // free(): b goes in at place k, merged with the neighbours it touches

  function InsertLo(fl: seq<Blk>, k: nat, b: Blk): nat { if JoinsPrev(fl, k, b) then k - 1 else k }

  function InsertHi(fl: seq<Blk>, k: nat, b: Blk): nat { if JoinsNext(fl, k, b) then k + 1 else k }

  function InsertMid(fl: seq<Blk>, k: nat, b: Blk): Blk {
    Blk(if JoinsPrev(fl, k, b) then fl[k - 1].addr else b.addr,
        (if JoinsPrev(fl, k, b) then fl[k - 1].size else 0) + b.size + (if JoinsNext(fl, k, b) then fl[k].size else 0))
  }

  function Insert(fl: seq<Blk>, k: nat, b: Blk): (r: seq<Blk>)
    requires k <= |fl|
  {
    Splice(fl, InsertLo(fl, k, b), InsertMid(fl, k, b), InsertHi(fl, k, b))
  }

  lemma InsertOrdered(fl: seq<Blk>, k: nat, b: Blk, base: nat)
    requires Ordered(fl, base) && Between(fl, k, b) && b.size > 0 && base < b.addr
    ensures Ordered(Insert(fl, k, b), base)
  {
    SpliceOrdered(fl, InsertLo(fl, k, b), InsertMid(fl, k, b), InsertHi(fl, k, b), base);
  }

  /** Freeing b frees exactly b's units. */
  lemma InsertFree(fl: seq<Blk>, k: nat, b: Blk, x: nat)
    requires k <= |fl|
    ensures IsFree(Insert(fl, k, b), x) <==> IsFree(fl, x) || b.Has(x)
  {
    var lo, hi := InsertLo(fl, k, b), InsertHi(fl, k, b);
    SpliceFree(fl, lo, InsertMid(fl, k, b), hi, x);
    assert InsertMid(fl, k, b).Has(x) <==>
      b.Has(x) || (JoinsPrev(fl, k, b) && fl[k - 1].Has(x)) || (JoinsNext(fl, k, b) && fl[k].Has(x));
  }

  /** malloc(): take the last n units of block k. */
  function Take(fl: seq<Blk>, k: nat, n: nat): (r: seq<Blk>)
    requires k < |fl| && n <= fl[k].size
  {
    if fl[k].size == n then fl[..k] + fl[k + 1..]
    else fl[k := Blk(fl[k].addr, fl[k].size - n)]
  }

  function Taken(fl: seq<Blk>, k: nat, n: nat): Blk
    requires k < |fl| && n <= fl[k].size
  {
    Blk(fl[k].End() - n, n)
  }

  lemma TakeOrdered(fl: seq<Blk>, k: nat, n: nat, base: nat)
    requires Ordered(fl, base) && k < |fl| && n <= fl[k].size
    ensures Ordered(Take(fl, k, n), base)
  {
  }

  lemma TakeFree(fl: seq<Blk>, k: nat, n: nat, base: nat, x: nat)
    requires Ordered(fl, base) && k < |fl| && n <= fl[k].size
    ensures IsFree(Take(fl, k, n), x) <==> IsFree(fl, x) && !Taken(fl, k, n).Has(x)
  {
    var r := Take(fl, k, n);
    if i :| 0 <= i < |r| && r[i].Has(x) {
      var j := if fl[k].size == n && i >= k then i + 1 else i;
      assert fl[j].Has(x);
    }
    if i :| 0 <= i < |fl| && fl[i].Has(x) {
      if !Taken(fl, k, n).Has(x) {
        var j := if fl[k].size == n && i > k then i - 1 else i;
        assert r[j].Has(x);
      }
    }
  }

  /** The list is determined by the set of free units: two lists with the same units are equal. */
  lemma {:induction false} Canonical(fl: seq<Blk>, gl: seq<Blk>, base: nat)
    requires Ordered(fl, base) && Ordered(gl, base)
    requires forall x: nat :: IsFree(fl, x) <==> IsFree(gl, x)
    ensures fl == gl
  {
    if fl == [] {
      if gl != [] {
        assert gl[0].Has(gl[0].addr);
        assert IsFree(gl, gl[0].addr);
      }
    } else {
      assert fl[0].Has(fl[0].addr);
      assert IsFree(fl, fl[0].addr);
      FirstAgrees(fl, gl, base);
      forall x: nat
        ensures IsFree(fl[1..], x) <==> IsFree(gl[1..], x)
      {
        TailFree(fl, base, x);
        TailFree(gl, base, x);
      }
      Canonical(fl[1..], gl[1..], base);
    }
  }

  lemma TailFree(fl: seq<Blk>, base: nat, x: nat)
    requires Ordered(fl, base) && fl != []
    ensures IsFree(fl[1..], x) <==> IsFree(fl, x) && !fl[0].Has(x)
  {
    if i :| 0 <= i < |fl[1..]| && fl[1..][i].Has(x) {
      assert fl[i + 1].Has(x);
    }
    if i :| 0 <= i < |fl| && fl[i].Has(x) {
      if !fl[0].Has(x) {
        assert fl[1..][i - 1].Has(x);
      }
    }
  }

  /** The lowest free unit starts the first block, and the first unit after it that is not free ends it. */
  lemma FirstAgrees(fl: seq<Blk>, gl: seq<Blk>, base: nat)
    requires Ordered(fl, base) && Ordered(gl, base) && fl != [] && gl != []
    requires forall x: nat :: IsFree(fl, x) <==> IsFree(gl, x)
    ensures fl[0] == gl[0]
  {
    assert fl[0].Has(fl[0].addr) && gl[0].Has(gl[0].addr);
    assert IsFree(fl, fl[0].addr) && IsFree(gl, gl[0].addr);
    var i :| 0 <= i < |gl| && gl[i].Has(fl[0].addr);
    var j :| 0 <= j < |fl| && fl[j].Has(gl[0].addr);
    assert fl[0].addr == gl[0].addr;
    assert !IsFree(fl, fl[0].End()) && !IsFree(gl, gl[0].End());
    assert !gl[0].Has(fl[0].End()) && !fl[0].Has(gl[0].End());
  }
}

/** malloc, free and morecore of umalloc.c, relinking the free list in place. */
module Umalloc {
  import opened FreeList

  /** The i-th member of the circular list: `base` first, then the free blocks in address order. */
  function Node(fl: seq<Blk>, base: nat, i: nat): nat
    requires i <= |fl|
  {
    if i == 0 then base else fl[i - 1].addr
  }

  function After(fl: seq<Blk>, i: nat): nat
    requires i <= |fl|
  {
    if i == |fl| then 0 else i + 1
  }

  ghost predicate Link(ptr: map<nat, nat>, fl: seq<Blk>, base: nat, i: nat)
    requires i <= |fl|
  {
    Node(fl, base, i) in ptr && ptr[Node(fl, base, i)] == Node(fl, base, After(fl, i))
  }

  /** One circular list, in address order with a single wrap from the last block to `base`,
      whose headers carry the sizes. */
  ghost predicate Ring(ptr: map<nat, nat>, size: map<nat, nat>, fl: seq<Blk>, base: nat) {
    && (forall i | 0 <= i <= |fl| :: Link(ptr, fl, base, i))
    && base in size && size[base] == 0
    && (forall i | 0 <= i < |fl| :: fl[i].addr in size && size[fl[i].addr] == fl[i].size)
  }

  ghost predicate Live(live: map<nat, nat>, x: nat) {
    exists a :: a in live && Blk(a, live[a]).Has(x)
  }

  lemma LiveRemove(live: map<nat, nat>, bp: nat, x: nat)
    requires bp in live
    ensures Live(live, x) <==> Live(live - {bp}, x) || Blk(bp, live[bp]).Has(x)
  {
    if a :| a in live && Blk(a, live[a]).Has(x) {
      if a != bp {
        assert a in live - {bp};
      }
    }
    if a :| a in live - {bp} && Blk(a, (live - {bp})[a]).Has(x) {
      assert a in live;
    }
  }

  lemma LiveAdd(live: map<nat, nat>, a: nat, n: nat, x: nat)
    requires a !in live
    ensures Live(live[a := n], x) <==> Live(live, x) || Blk(a, n).Has(x)
  {
    LiveRemove(live[a := n], a, x);
    assert live[a := n] - {a} == live;
  }

  /** Block `a` keeps clear of every block in the list. */
  ghost predicate Clear(fl: seq<Blk>, a: Blk) {
    forall i | 0 <= i < |fl| :: fl[i].End() <= a.addr || a.End() <= fl[i].addr
  }

  lemma ClearOfInsert(fl: seq<Blk>, k: nat, b: Blk, a: Blk)
    requires k <= |fl| && b.size > 0 && a.size > 0
    requires Clear(fl, a) && (b.End() <= a.addr || a.End() <= b.addr)
    ensures Clear(Insert(fl, k, b), a)
  {
    var r := Insert(fl, k, b);
    forall i | 0 <= i < |r|
      ensures r[i].End() <= a.addr || a.End() <= r[i].addr
    {
      SpliceAt(fl, InsertLo(fl, k, b), InsertMid(fl, k, b), InsertHi(fl, k, b), i);
    }
  }

  /** Free and allocated blocks are pairwise disjoint, no two free blocks touch, and together they
      are exactly the units that sbrk returned. */
  ghost predicate Accounts(fl: seq<Blk>, live: map<nat, nat>, core: iset<nat>, base: nat) {
    && Ordered(fl, base)
    && (forall a | a in live :: base < a && live[a] > 0 && Clear(fl, Blk(a, live[a])))
    && (forall a, b | a in live && b in live && a < b :: a + live[a] <= b)
    && (forall x: nat :: x in core <==> IsFree(fl, x) || Live(live, x))
  }

  /** Every allocated block's header still holds its size. */
  ghost predicate Headers(live: map<nat, nat>, size: map<nat, nat>) {
    forall a | a in live :: a in size && size[a] == live[a]
  }

  ghost function Range(a: nat, n: nat): iset<nat> {
    iset x: nat | Blk(a, n).Has(x)
  }

  /** morecore asks sbrk for 4096 units at least. */
  function CoreUnits(nu: nat): (n: nat)
    ensures n >= nu && n >= 4096 && (n == nu || n == 4096)
  {
    if nu < 4096 then 4096 else nu
  }

  /** Some free block has n units or more. */
  ghost predicate Fits(fl: seq<Blk>, n: nat) {
    exists i | 0 <= i < |fl| :: fl[i].size >= n
  }

  /** A fresh region above everything, counted as allocated. */
  lemma GrownAccounts(fl: seq<Blk>, live: map<nat, nat>, core: iset<nat>, base: nat, brk: nat, n: nat)
    requires Accounts(fl, live, core, base) && n > 0 && base < brk
    requires forall x: nat :: x in core ==> x < brk
    ensures brk !in live && Accounts(fl, live[brk := n], core + Range(brk, n), base)
    ensures forall i | 0 <= i < |fl| :: fl[i].addr != brk
  {
    forall i | 0 <= i < |fl|
      ensures fl[i].End() <= brk
    {
      assert fl[i].Has(fl[i].End() - 1);
      assert IsFree(fl, fl[i].End() - 1);
    }
    forall a | a in live
      ensures a + live[a] <= brk
    {
      assert Blk(a, live[a]).Has(a + live[a] - 1);
      assert Live(live, a + live[a] - 1);
    }
    forall x: nat
      ensures x in core + Range(brk, n) <==> IsFree(fl, x) || Live(live[brk := n], x)
    {
      LiveAdd(live, brk, n, x);
    }
  }

  /** How many free blocks lie below address x. */
  ghost function Position(fl: seq<Blk>, x: nat): (k: nat)
    ensures k <= |fl|
    ensures forall i | 0 <= i < k :: fl[i].addr < x
    ensures k < |fl| ==> x <= fl[k].addr
  {
    if fl == [] || x <= fl[0].addr then 0 else 1 + Position(fl[1..], x)
  }

  /** The rest of the list is linked as before: the members below lo, and those from hi on. */
  ghost predicate RestLinked(ptr: map<nat, nat>, size: map<nat, nat>, fl: seq<Blk>, base: nat, lo: nat, hi: nat)
    requires lo <= hi <= |fl|
  {
    && base in size && size[base] == 0
    && (forall i: nat | i < lo :: Link(ptr, fl, base, i))
    && (forall i: nat | hi < i <= |fl| :: Link(ptr, fl, base, i))
    && (forall i | 0 <= i < |fl| && !(lo <= i < hi) :: fl[i].addr in size && size[fl[i].addr] == fl[i].size)
  }

  /** Replacing members lo..hi by one member needs two pointers: into it and out of it. */
  lemma SpliceRing(ptr: map<nat, nat>, size: map<nat, nat>, fl: seq<Blk>, base: nat, lo: nat, mid: Blk, hi: nat)
    requires lo <= hi <= |fl| && RestLinked(ptr, size, fl, base, lo, hi)
    requires Node(fl, base, lo) in ptr && ptr[Node(fl, base, lo)] == mid.addr
    requires mid.addr in ptr && ptr[mid.addr] == Node(fl, base, After(fl, hi))
    requires mid.addr in size && size[mid.addr] == mid.size
    ensures Ring(ptr, size, Splice(fl, lo, mid, hi), base)
  {
    var r := Splice(fl, lo, mid, hi);
    forall i: nat | i <= |r|
      ensures Link(ptr, r, base, i)
    {
      if i > 0 { SpliceAt(fl, lo, mid, hi, i - 1); }
      if i < |r| { SpliceAt(fl, lo, mid, hi, i); }
      if i < lo {
        assert Link(ptr, fl, base, i);
      } else if i > lo + 1 {
        assert Link(ptr, fl, base, i - lo - 1 + hi);
      }
    }
    forall i | 0 <= i < |r|
      ensures r[i].addr in size && size[r[i].addr] == r[i].size
    {
      SpliceAt(fl, lo, mid, hi, i);
    }
  }

  /** Around place k: p is the list member below b and q the one above; free()'s two tests ask
      whether b touches them. */
  ghost predicate Around(ptr: map<nat, nat>, size: map<nat, nat>, fl: seq<Blk>, base: nat, k: nat, b: Blk, p: nat,
                         q: nat) {
    && Ring(ptr, size, fl, base) && Ordered(fl, base) && Between(fl, k, b) && b.size > 0 && base < b.addr
    && p == Node(fl, base, k) && q == Node(fl, base, After(fl, k))
    && p in ptr && ptr[p] == q && q in ptr && p in size && q in size
    && (b.End() == q <==> JoinsNext(fl, k, b)) && (p + size[p] == b.addr <==> JoinsPrev(fl, k, b))
    && p < b.addr
  }

  lemma LooksAround(ptr: map<nat, nat>, size: map<nat, nat>, fl: seq<Blk>, base: nat, k: nat, b: Blk)
    requires Ring(ptr, size, fl, base) && Ordered(fl, base) && Between(fl, k, b) && b.size > 0 && base < b.addr
    ensures Around(ptr, size, fl, base, k, b, Node(fl, base, k), Node(fl, base, After(fl, k)))
  {
    assert Link(ptr, fl, base, k) && Link(ptr, fl, base, After(fl, k));
  }

  /** Members other than p and those absorbed keep their links. */
  lemma RestKept(ptr: map<nat, nat>, size: map<nat, nat>, fl: seq<Blk>, base: nat, k: nat, b: Blk, p: nat, q: nat,
                 ptr': map<nat, nat>, size': map<nat, nat>)
    requires Around(ptr, size, fl, base, k, b, p, q)
    requires ptr.Keys <= ptr'.Keys && size.Keys <= size'.Keys
    requires forall a | a in ptr && a != p && a != b.addr :: ptr'[a] == ptr[a]
    requires forall a | a in size && a != b.addr && (a != p || !JoinsPrev(fl, k, b)) :: size'[a] == size[a]
    ensures RestLinked(ptr', size', fl, base, InsertLo(fl, k, b), InsertHi(fl, k, b))
  {
    forall i: nat | i < InsertLo(fl, k, b) || InsertHi(fl, k, b) < i <= |fl|
      ensures Link(ptr', fl, base, i)
    {
      assert Link(ptr, fl, base, i);
      assert Node(fl, base, i) != p && Node(fl, base, i) != b.addr;
    }
  }

  /** The pointer surgery of free() yields the list with b inserted and merged. */
  lemma FreeRing(ptr: map<nat, nat>, size: map<nat, nat>, fl: seq<Blk>, base: nat, k: nat, b: Blk, p: nat, q: nat,
                 ptr': map<nat, nat>, size': map<nat, nat>)
    requires Around(ptr, size, fl, base, k, b, p, q)
    requires var jn, jp := JoinsNext(fl, k, b), JoinsPrev(fl, k, b);
             var next := if jn then ptr[q] else q;
             var units := if jn then b.size + size[q] else b.size;
             && ptr' == ptr[b.addr := next][p := if jp then next else b.addr]
             && size' == if jp then size[b.addr := units][p := size[p] + units] else size[b.addr := units]
    ensures Ring(ptr', size', Insert(fl, k, b), base)
  {
    RestKept(ptr, size, fl, base, k, b, p, q, ptr', size');
    var lo, mid, hi := InsertLo(fl, k, b), InsertMid(fl, k, b), InsertHi(fl, k, b);
    assert Link(ptr, fl, base, hi) && Link(ptr, fl, base, lo);
    SpliceRing(ptr', size', fl, base, lo, mid, hi);
  }

  class Heap {
    const base: nat            // &base, below everything sbrk returns
    var ptr: map<nat, nat>     // the s.ptr words in memory, by unit address
    var size: map<nat, nat>    // the s.size words
    var freep: nat             // 0 before the first malloc
    ghost var fl: seq<Blk>     // the free blocks
    ghost var at: nat          // freep's place in the list
    ghost var live: map<nat, nat>  // allocated blocks: header address and units
    ghost var core: iset<nat>   // every unit sbrk ever returned

    ghost predicate Valid()
      reads this
    {
      && base > 0 && Accounts(fl, live, core, base)
      && (freep == 0 ==> fl == [] && live == map[])
      && (freep != 0 ==> Ring(ptr, size, fl, base) && at <= |fl| && freep == Node(fl, base, at))
      && Headers(live, size)
    }

    /** Before the first malloc. */
    constructor (base: nat)
      requires base > 0
      ensures Valid() && fl == [] && live == map[] && core == iset{}
    {
      this.base := base;
      ptr, size, freep := map[], map[], 0;
      fl, at, live, core := [], 0, map[], iset{};
    }

    /** The search loop of free(): the last list member below bp. It stops after at most one round. */
    method FindPlace(bp: nat, ghost k: nat) returns (p: nat)
      requires freep != 0 && Ordered(fl, base) && Ring(ptr, size, fl, base)
      requires at <= |fl| && freep == Node(fl, base, at)
      requires base < bp && k <= |fl|
      requires forall i | 0 <= i < |fl| :: if i < k then fl[i].addr < bp else bp < fl[i].addr
      ensures p == Node(fl, base, k)
    {
      p := freep;
      ghost var i: nat := at;
      assert Link(ptr, fl, base, i);
      assert forall j: nat | j <= |fl| :: Node(fl, base, j) < bp <==> j <= k;
      while !(bp > p && bp < ptr[p])
        invariant i <= |fl| && p == Node(fl, base, i) && Link(ptr, fl, base, i)
        decreases if i <= k then k - i else |fl| + 1 - i + k
      {
        if p >= ptr[p] && (bp > p || bp < ptr[p]) {
          break;
        }
        p := ptr[p];
        i := After(fl, i);
        assert Link(ptr, fl, base, i);
      }
    }
  
    /** The second half of free(): link bp in after p, joining what touches. */
    method LinkIn(bp: nat, p: nat, ghost k: nat, ghost b: Blk)
      requires b.addr == bp && bp in size && size[bp] == b.size && p in ptr
      requires Around(ptr, size, fl, base, k, b, p, ptr[p])
      modifies this`ptr, this`size
      ensures Ring(ptr, size, Insert(fl, k, b), base)
      ensures forall a | a in old(size) && a != bp && a != p :: a in size && size[a] == old(size)[a]
    {
      ghost var q := ptr[p];
      if bp + size[bp] == ptr[p] {
        size := size[bp := size[bp] + size[ptr[p]]];
        ptr := ptr[bp := ptr[ptr[p]]];
      } else {
        ptr := ptr[bp := ptr[p]];
      }
      if p + size[p] == bp {
        size := size[p := size[p] + size[bp]];
        ptr := ptr[p := ptr[bp]];
      } else {
        ptr := ptr[p := bp];
      }
      FreeRing(old(ptr), old(size), fl, base, k, b, p, q, ptr, size);
    }

    /** The work of free(): search, link in, remember where. */
    method Insertion(bp: nat, ghost b: Blk, ghost k: nat)
      requires freep != 0 && Ring(ptr, size, fl, base) && at <= |fl| && freep == Node(fl, base, at)
      requires b.addr == bp && bp in size && size[bp] == b.size > 0 && base < bp
      requires Ordered(fl, base) && Clear(fl, b) && k == Position(fl, bp)
      modifies this`ptr, this`size, this`freep
      ensures Ring(ptr, size, Insert(fl, k, b), base) && freep == Node(fl, base, k)
      ensures forall a | a in old(size) && a > base && (forall i | 0 <= i < |fl| :: fl[i].addr != a) && a != bp ::
                a in size && size[a] == old(size)[a]
    {
      PositionBetween(fl, b, base);
      var p := FindPlace(bp, k);
      LooksAround(ptr, size, fl, base, k, b);
      LinkIn(bp, p, k, b);
      freep := p;
    }

    method Free(ap: nat)
      requires Valid() && ap >= 1 && ap - 1 in live
      modifies this`ptr, this`size, this`freep, this`fl, this`at, this`live
      ensures Valid() && freep != 0
      ensures live == old(live) - {ap - 1}
      ensures at <= |old(fl)| && fl == Insert(old(fl), at, Blk(ap - 1, old(live)[ap - 1]))
    {
      ghost var b := Blk(ap - 1, live[ap - 1]);
      ghost var k := Position(fl, ap - 1);
      FreedAccounts(fl, live, core, base, b);
      InsertNode(fl, k, b, base);
      Insertion(ap - 1, b, k);
      fl, live, at := Insert(fl, k, b), live - {ap - 1}, k;
      assert Accounts(fl, live, core, base);
    }

    /** The region sbrk returned, given a header, is a block like one malloc returned. */
    method Adopt(brk: nat, n: nat)
      requires Valid() && freep != 0 && n > 0
      requires base < brk && forall x: nat :: x in core ==> x < brk
      modifies this`size, this`live, this`core
      ensures Valid() && brk !in old(live) && live == old(live)[brk := n]
      ensures core == old(core) + Range(brk, n)
    {
      GrownAccounts(fl, live, core, base, brk, n);
      RingKept(ptr, size, fl, base, brk, 0, n);
      size := size[brk := n];
      live, core := live[brk := n], core + Range(brk, n);
      assert Accounts(fl, live, core, base);
    }

    /** morecore: `brk` is the unit address sbrk returns, 0 when it fails. */
    method MoreCore(nu: nat, brk: nat) returns (ok: bool)
      requires Valid() && freep != 0
      requires brk != 0 ==> base < brk && forall x: nat :: x in core ==> x < brk
      modifies this
      ensures Valid() && freep != 0 && live == old(live)
      ensures ok <==> brk != 0
      ensures !ok ==> fl == old(fl) && core == old(core)
      ensures ok ==> core == old(core) + Range(brk, CoreUnits(nu)) && Fits(fl, nu)
    {
      if brk == 0 {
        return false;
      }
      var n := CoreUnits(nu);
      Adopt(brk, n);
      assert live - {brk} == old(live);
      Free(brk + 1);
      InsertFits(old(fl), at, Blk(brk, n), nu);
      return true;
    }

    /** malloc's success branch: take all of block w, or its tail. */
    method CutOut(prevp: nat, p: nat, nunits: nat, ghost w: nat) returns (h: nat)
      requires Ring(ptr, size, fl, base) && Ordered(fl, base) && w < |fl| && 0 < nunits <= fl[w].size
      requires prevp == Node(fl, base, w) && p == fl[w].addr && Headers(live, size)
      requires forall a | a in live :: live[a] > 0 && Clear(fl, Blk(a, live[a]))
      modifies this`ptr, this`size, this`freep
      ensures Ring(ptr, size, Take(fl, w, nunits), base) && freep == prevp
      ensures h == Taken(fl, w, nunits).addr && Headers(live[h := nunits], size)
    {
      assert Link(ptr, fl, base, w + 1);
      h := p;
      if size[p] == nunits {
        RemoveRing(ptr, size, fl, base, w);
        ptr := ptr[prevp := ptr[p]];
      } else {
        ShrinkRing(ptr, size, fl, base, w, nunits);
        size := size[p := size[p] - nunits];
        h := p + size[p];
        size := size[h := nunits];
      }
      freep := prevp;
      HeadersKept(fl, live, old(size), w, nunits, size);
    }

    method Carve(prevp: nat, p: nat, nunits: nat, ghost w: nat) returns (h: nat)
      requires Valid() && freep != 0 && w < |fl| && 0 < nunits <= fl[w].size
      requires prevp == Node(fl, base, w) && p == fl[w].addr
      modifies this
      ensures Valid() && freep != 0 && core == old(core)
      ensures h == Taken(old(fl), w, nunits).addr && h !in old(live)
      ensures fl == Take(old(fl), w, nunits) && live == old(live)[h := nunits]
    {
      TakenAccounts(fl, live, core, base, w, nunits);
      TakeNode(fl, base, w, nunits);
      h := CutOut(prevp, p, nunits, w);
      fl, live, at := Take(fl, w, nunits), live[h := nunits], w;
      assert Accounts(fl, live, core, base);
    }

    /** One turn of malloc's loop round the ring, from behind freep back to freep: the first block with
        nunits units or more, and the member before it. */
    method Search(nunits: nat) returns (found: bool, prevp: nat, p: nat, ghost w: nat)
      requires freep != 0 && Ring(ptr, size, fl, base) && Ordered(fl, base) && nunits > 0
      requires at <= |fl| && freep == Node(fl, base, at)
      ensures found <==> Fits(fl, nunits)
      ensures found ==> FirstFit(fl, at, w, nunits) && p == fl[w].addr && prevp == Node(fl, base, w)
    {
      assert Link(ptr, fl, base, at);
      prevp, p := freep, ptr[freep];
      ghost var h: nat, i: nat := at, After(fl, at);
      w := 0;
      while true
        invariant h <= |fl| && i == After(fl, h)
        invariant prevp == Node(fl, base, h) && p == Node(fl, base, i)
        invariant Passed(fl, at, i, nunits)
        decreases if i > at then |fl| + 1 - i + at else at - i
      {
        assert Link(ptr, fl, base, i);
        if size[p] >= nunits {
          assert i == h + 1 && fl[h].size >= nunits;
          return true, prevp, p, h;
        }
        if p == freep {
          SameNode(fl, base, i, at);
          WentRound(fl, at, nunits);
          return false, prevp, p, w;
        }
        PassedStep(fl, at, i, nunits);
        prevp, p := p, ptr[p];
        h, i := i, After(fl, i);
      }
    }

    /** malloc's first call makes the one-member ring. */
    method Start()
      requires Valid()
      modifies this`ptr, this`size, this`freep, this`at
      ensures Valid() && freep != 0 && (old(freep) != 0 ==> at == old(at))
    {
      if freep == 0 {
        ptr, size, freep := ptr[base := base], size[base := 0], base;
        at := 0;
        assert Link(ptr, fl, base, 0);
      }
    }

    /** malloc's loop: back at freep it calls morecore and goes round again, and then it must succeed. */
    method Obtain(nunits: nat, brk: nat) returns (found: bool, prevp: nat, p: nat, ghost w: nat)
      requires Valid() && freep != 0 && nunits > 0
      requires brk != 0 ==> base < brk && forall x: nat :: x in core ==> x < brk
      modifies this
      ensures Valid() && freep != 0 && live == old(live)
      ensures found <==> Fits(old(fl), nunits) || brk != 0
      ensures found ==> FirstFit(fl, at, w, nunits) && p == fl[w].addr && prevp == Node(fl, base, w)
      ensures !found ==> fl == old(fl)
      ensures Fits(old(fl), nunits) ==> fl == old(fl) && at == old(at)
      ensures core == if Fits(old(fl), nunits) || brk == 0 then old(core) else old(core) + Range(brk, CoreUnits(nunits))
    {
      found, prevp, p, w := Search(nunits);
      if !found {
        var ok := MoreCore(nunits, brk);
        if ok {
          found, prevp, p, w := Search(nunits);
        }
      }
    }

    /** malloc's loop and its success branch. */
    method Allot(nunits: nat, brk: nat) returns (ap: nat)
      requires Valid() && freep != 0 && nunits > 0
      requires brk != 0 ==> base < brk && forall x: nat :: x in core ==> x < brk
      modifies this
      ensures Valid() && freep != 0
      ensures ap == 0 <==> !Fits(old(fl), nunits) && brk == 0
      ensures ap == 0 ==> fl == old(fl) && live == old(live)
      ensures ap != 0 ==> ap - 1 !in old(live) && live == old(live)[ap - 1 := nunits]
      ensures Fits(old(fl), nunits) ==> EndsFirstFit(old(fl), old(at), ap - 1, nunits)
      ensures core == if Fits(old(fl), nunits) || brk == 0 then old(core) else old(core) + Range(brk, CoreUnits(nunits))
    {
      var found, prevp, p, w := Obtain(nunits, brk);
      if !found {
        return 0;
      }
      ghost var f, a := fl, at;
      var h := Carve(prevp, p, nunits, w);
      TakenEnds(f, a, w, nunits, h);
      return h + 1;
    }

    /** malloc. `brk` is what sbrk returns if morecore asks it; the result 0 is the null pointer. */
    method Malloc(nbytes: nat, brk: nat) returns (ap: nat)
      requires Valid() && nbytes < 0x1_0000_0000
      requires brk != 0 ==> base < brk && forall x: nat :: x in core ==> x < brk
      modifies this
      ensures Valid()
      ensures ap == 0 <==> !Fits(old(fl), Units(nbytes)) && brk == 0
      ensures ap == 0 ==> fl == old(fl) && live == old(live)
      ensures ap != 0 ==> ap - 1 !in old(live) && live == old(live)[ap - 1 := Units(nbytes)]
      // the last units of the first block that fits, going round from freep
      ensures Fits(old(fl), Units(nbytes)) ==> EndsFirstFit(old(fl), old(at), ap - 1, Units(nbytes))
      ensures core == if Fits(old(fl), Units(nbytes)) || brk == 0 then old(core)
                      else old(core) + Range(brk, CoreUnits(Units(nbytes)))
    {
      var nunits := Units(nbytes);
      Start();
      ap := Allot(nunits, brk);
    }

    /** A program may overwrite what malloc gave it, all units behind the header, without harm. */
    method UserWrite(a: nat, x: nat, word0: nat, word1: nat)
      requires Valid() && a in live && a < x < a + live[a]
      modifies this`ptr, this`size
      ensures Valid()
    {
      NotAHeader(fl, live, core, base, a, x);
      if freep != 0 {
        RingKept(ptr, size, fl, base, x, word0, word1);
      }
      ptr, size := ptr[x := word0], size[x := word1];
    }
  }

  /** Words outside the list's headers do not matter to it. */
  lemma RingKept(ptr: map<nat, nat>, size: map<nat, nat>, fl: seq<Blk>, base: nat, x: nat, word0: nat, word1: nat)
    requires Ring(ptr, size, fl, base) && x != base && forall i | 0 <= i < |fl| :: fl[i].addr != x
    ensures Ring(ptr[x := word0], size[x := word1], fl, base) && Ring(ptr, size[x := word1], fl, base)
  {
    var ptr' := ptr[x := word0];
    forall i: nat | i <= |fl|
      ensures Link(ptr', fl, base, i)
    {
      assert Link(ptr, fl, base, i);
    }
  }

  lemma NotAHeader(fl: seq<Blk>, live: map<nat, nat>, core: iset<nat>, base: nat, a: nat, x: nat)
    requires Accounts(fl, live, core, base) && a in live && a < x < a + live[a]
    ensures x > base && x !in live && forall i | 0 <= i < |fl| :: fl[i].addr != x
  {
    assert Clear(fl, Blk(a, live[a]));
  }

  lemma SameNode(fl: seq<Blk>, base: nat, i: nat, j: nat)
    requires Ordered(fl, base) && i <= |fl| && j <= |fl| && Node(fl, base, i) == Node(fl, base, j)
    ensures i == j
  {
  }

  lemma TakeNode(fl: seq<Blk>, base: nat, w: nat, n: nat)
    requires w < |fl| && n <= fl[w].size
    ensures w <= |Take(fl, w, n)| && Node(Take(fl, w, n), base, w) == Node(fl, base, w)
  {
  }

  /** malloc's unit count: unsigned 32-bit addition, then division by the header size. */
  function Units(nbytes: nat): (n: nat)
    requires nbytes < 0x1_0000_0000
    ensures n >= 1
  {
    (nbytes + 7) % 0x1_0000_0000 / 8 + 1
  }

  /** The block has room for what was asked if and only if the addition did not wrap around. */
  lemma RoomForRequest(nbytes: nat)
    requires nbytes < 0x1_0000_0000
    ensures nbytes <= 8 * (Units(nbytes) - 1) <==> nbytes <= 0xFFFF_FFF8
    ensures nbytes <= 0xFFFF_FFF8 ==> 8 * (Units(nbytes) - 1) < nbytes + 8
  {
  }

  /** sbrk's argument: nu headers in unsigned 32-bit bytes, taken as an int. */
  function SbrkBytes(nu: nat): int {
    var n := 8 * nu % 0x1_0000_0000;
    if n < 0x8000_0000 then n else n - 0x1_0000_0000
  }

  /** morecore asks sbrk for as many bytes as it will count if and only if the request is below 2 GB, or wrapped. */
  lemma SbrkArgument(nbytes: nat)
    requires nbytes < 0x1_0000_0000
    ensures SbrkBytes(CoreUnits(Units(nbytes))) == 8 * CoreUnits(Units(nbytes)) <==>
              nbytes <= 0x7FFF_FFF0 || nbytes > 0xFFFF_FFF8
  {
    var nu := CoreUnits(Units(nbytes));
    if nbytes <= 0xFFFF_FFF8 {
      assert nu <= 0x2000_0000;
    } else {
      assert nu == 4096;
    }
  }

  function SizeAt(fl: seq<Blk>, i: nat): nat
    requires i <= |fl|
  {
    if i == 0 then 0 else fl[i - 1].size
  }

  /** The members strictly between `at` and i, going round, have fewer than n units. */
  ghost predicate Passed(fl: seq<Blk>, at: nat, i: nat, n: nat) {
    forall j: nat | j <= |fl| && (if i > at then at < j < i else j > at || j < i) :: SizeAt(fl, j) < n
  }

  /** The first block with n units or more, going round from member `at`. */
  ghost predicate FirstFit(fl: seq<Blk>, at: nat, w: nat, n: nat) {
    w < |fl| && fl[w].size >= n && Passed(fl, at, w + 1, n)
  }

  /** Units h to h + n - 1 are the last ones of that block. */
  ghost predicate EndsFirstFit(fl: seq<Blk>, at: nat, h: int, n: nat) {
    exists w: nat :: FirstFit(fl, at, w, n) && h + n == fl[w].addr + fl[w].size
  }

  lemma TakenEnds(fl: seq<Blk>, at: nat, w: nat, n: nat, h: nat)
    requires FirstFit(fl, at, w, n) && h == Taken(fl, w, n).addr
    ensures EndsFirstFit(fl, at, h, n)
  {
  }

  lemma PassedStep(fl: seq<Blk>, at: nat, i: nat, n: nat)
    requires at <= |fl| && i <= |fl| && i != at && Passed(fl, at, i, n) && SizeAt(fl, i) < n
    ensures Passed(fl, at, After(fl, i), n)
  {
  }

  /** Having gone round once without success, no block fits. */
  lemma WentRound(fl: seq<Blk>, at: nat, n: nat)
    requires at <= |fl| && Passed(fl, at, at, n) && SizeAt(fl, at) < n
    ensures !Fits(fl, n)
  {
    forall i | 0 <= i < |fl|
      ensures fl[i].size < n
    {
      assert SizeAt(fl, i + 1) < n;
    }
  }

  /** Unlinking block w: its predecessor points past it. */
  lemma RemoveRing(ptr: map<nat, nat>, size: map<nat, nat>, fl: seq<Blk>, base: nat, w: nat)
    requires Ring(ptr, size, fl, base) && Ordered(fl, base) && w < |fl|
    requires fl[w].addr in ptr
    ensures Ring(ptr[Node(fl, base, w) := ptr[fl[w].addr]], size, fl[..w] + fl[w + 1..], base)
  {
    var r := fl[..w] + fl[w + 1..];
    var ptr' := ptr[Node(fl, base, w) := ptr[fl[w].addr]];
    assert forall i | 0 <= i < |r| :: r[i] == if i < w then fl[i] else fl[i + 1];
    forall i: nat | i <= |r|
      ensures Link(ptr', r, base, i)
    {
      RemovedLink(ptr, fl, base, w, i, r, ptr');
    }
  }

  lemma RemovedLink(ptr: map<nat, nat>, fl: seq<Blk>, base: nat, w: nat, i: nat, r: seq<Blk>, ptr': map<nat, nat>)
    requires (forall i: nat | i <= |fl| :: Link(ptr, fl, base, i)) && Ordered(fl, base) && w < |fl|
    requires |r| == |fl| - 1 && i <= |r| && fl[w].addr in ptr
    requires forall i | 0 <= i < |r| :: r[i] == if i < w then fl[i] else fl[i + 1]
    requires ptr' == ptr[Node(fl, base, w) := ptr[fl[w].addr]]
    ensures Link(ptr', r, base, i)
  {
    if i < w {
      assert Link(ptr, fl, base, i);
    } else if i == w {
      assert Link(ptr, fl, base, w + 1);
    } else {
      assert Link(ptr, fl, base, i + 1);
      assert r[i - 1] == fl[i];
    }
  }

  /** Shrinking block w and writing a header for its tail. */
  lemma ShrinkRing(ptr: map<nat, nat>, size: map<nat, nat>, fl: seq<Blk>, base: nat, w: nat, n: nat)
    requires Ring(ptr, size, fl, base) && Ordered(fl, base) && w < |fl| && 0 < n < fl[w].size
    ensures Ring(ptr, size[fl[w].addr := fl[w].size - n][fl[w].End() - n := n], Take(fl, w, n), base)
  {
    var r := Take(fl, w, n);
    var size' := size[fl[w].addr := fl[w].size - n][fl[w].End() - n := n];
    forall i: nat | i <= |r|
      ensures Link(ptr, r, base, i)
    {
      assert Link(ptr, fl, base, i);
    }
    forall i | 0 <= i < |r|
      ensures r[i].addr in size' && size'[r[i].addr] == r[i].size
    {
      if i < w {
        assert fl[i].End() < fl[w].addr;
      } else if i > w {
        assert fl[w].End() < fl[i].addr;
      }
    }
  }

  lemma TakenAccounts(fl: seq<Blk>, live: map<nat, nat>, core: iset<nat>, base: nat, w: nat, n: nat)
    requires Accounts(fl, live, core, base) && w < |fl| && 0 < n <= fl[w].size
    ensures var t := Taken(fl, w, n);
            t.addr !in live && Accounts(Take(fl, w, n), live[t.addr := n], core, base)
  {
    var t := Taken(fl, w, n);
    var r := Take(fl, w, n);
    TakeOrdered(fl, w, n, base);
    forall a | a in live
      ensures Clear(r, Blk(a, live[a])) && (a + live[a] <= t.addr || t.End() <= a)
    {
      ClearOfTake(fl, w, n, Blk(a, live[a]));
    }
    assert Clear(r, t) by { ClearTaken(fl, w, n, base); }
    forall x: nat
      ensures x in core <==> IsFree(r, x) || Live(live[t.addr := n], x)
    {
      TakeFree(fl, w, n, base, x);
      LiveAdd(live, t.addr, n, x);
      if t.Has(x) { assert fl[w].Has(x); }
    }
  }

  lemma HeadersKept(fl: seq<Blk>, live: map<nat, nat>, size: map<nat, nat>, w: nat, n: nat, size': map<nat, nat>)
    requires w < |fl| && 0 < n <= fl[w].size && Headers(live, size)
    requires fl[w].addr in size && size[fl[w].addr] == fl[w].size
    requires forall a | a in live :: live[a] > 0 && Clear(fl, Blk(a, live[a]))
    requires size' == if fl[w].size == n then size else size[fl[w].addr := fl[w].size - n][fl[w].End() - n := n]
    ensures Headers(live[fl[w].End() - n := n], size')
  {
    forall a | a in live
      ensures fl[w].End() <= a || a + live[a] <= fl[w].addr
    {
      assert Clear(fl, Blk(a, live[a]));
    }
  }

  /** The free list is determined by what sbrk returned and what is allocated, however it came about. */
  lemma SameAccounts(fl: seq<Blk>, gl: seq<Blk>, live: map<nat, nat>, core: iset<nat>, base: nat)
    requires Accounts(fl, live, core, base) && Accounts(gl, live, core, base)
    ensures fl == gl
  {
    forall x: nat
      ensures IsFree(fl, x) <==> IsFree(gl, x)
    {
      FreeNotLive(fl, live, core, base, x);
      FreeNotLive(gl, live, core, base, x);
    }
    Canonical(fl, gl, base);
  }

  lemma FreeNotLive(fl: seq<Blk>, live: map<nat, nat>, core: iset<nat>, base: nat, x: nat)
    requires Accounts(fl, live, core, base)
    ensures IsFree(fl, x) <==> x in core && !Live(live, x)
  {
    if i :| 0 <= i < |fl| && fl[i].Has(x) {
      forall a | a in live
        ensures !Blk(a, live[a]).Has(x)
      {
        assert Clear(fl, Blk(a, live[a]));
      }
    }
  }

  /** Freeing what malloc just cut out of the list restores the list. */
  lemma FreeUndoesMalloc(fl: seq<Blk>, live: map<nat, nat>, core: iset<nat>, base: nat, w: nat, n: nat)
    requires Accounts(fl, live, core, base) && w < |fl| && 0 < n <= fl[w].size
    ensures var t := Taken(fl, w, n);
            var r := Take(fl, w, n);
            Insert(r, Position(r, t.addr), t) == fl
  {
    var t := Taken(fl, w, n);
    var r := Take(fl, w, n);
    TakenAccounts(fl, live, core, base, w, n);
    FreedAccounts(r, live[t.addr := n], core, base, t);
    assert live[t.addr := n] - {t.addr} == live;
    SameAccounts(Insert(r, Position(r, t.addr), t), fl, live, core, base);
  }

  /** Take, place by place. */
  lemma TakeAt(fl: seq<Blk>, w: nat, n: nat, i: nat)
    requires w < |fl| && n <= fl[w].size && i < |Take(fl, w, n)|
    ensures var r := Take(fl, w, n);
            if fl[w].size == n then r[i] == (if i < w then fl[i] else fl[i + 1])
            else r[i] == (if i == w then Blk(fl[w].addr, fl[w].size - n) else fl[i])
  {
  }

  lemma ClearOfTake(fl: seq<Blk>, w: nat, n: nat, a: Blk)
    requires w < |fl| && n <= fl[w].size && Clear(fl, a)
    ensures Clear(Take(fl, w, n), a) && (a.End() <= Taken(fl, w, n).addr || Taken(fl, w, n).End() <= a.addr)
  {
    var r := Take(fl, w, n);
    forall i | 0 <= i < |r|
      ensures r[i].End() <= a.addr || a.End() <= r[i].addr
    {
      TakeAt(fl, w, n, i);
    }
  }

  lemma ClearTaken(fl: seq<Blk>, w: nat, n: nat, base: nat)
    requires w < |fl| && n <= fl[w].size && Ordered(fl, base)
    ensures Clear(Take(fl, w, n), Taken(fl, w, n))
  {
    var r := Take(fl, w, n);
    forall i | 0 <= i < |r|
      ensures r[i].End() <= Taken(fl, w, n).addr || Taken(fl, w, n).End() <= r[i].addr
    {
      TakeAt(fl, w, n, i);
    }
  }

  /** The block that took b in is at least as large. */
  lemma InsertFits(fl: seq<Blk>, k: nat, b: Blk, m: nat)
    requires k <= |fl| && m <= b.size
    ensures Fits(Insert(fl, k, b), m)
  {
    var lo := InsertLo(fl, k, b);
    SpliceAt(fl, lo, InsertMid(fl, k, b), InsertHi(fl, k, b), lo);
    assert Insert(fl, k, b)[lo].size >= m;
  }

  lemma InsertNode(fl: seq<Blk>, k: nat, b: Blk, base: nat)
    requires k <= |fl|
    ensures k <= |Insert(fl, k, b)| && Node(Insert(fl, k, b), base, k) == Node(fl, base, k)
  {
    if k > 0 {
      SpliceAt(fl, InsertLo(fl, k, b), InsertMid(fl, k, b), InsertHi(fl, k, b), k - 1);
    }
  }

  lemma FreedAccounts(fl: seq<Blk>, live: map<nat, nat>, core: iset<nat>, base: nat, b: Blk)
    requires Accounts(fl, live, core, base) && b.addr in live && live[b.addr] == b.size
    ensures Accounts(Insert(fl, Position(fl, b.addr), b), live - {b.addr}, core, base)
  {
    var k := Position(fl, b.addr);
    PositionBetween(fl, b, base);
    InsertOrdered(fl, k, b, base);
    forall a | a in live - {b.addr}
      ensures Clear(Insert(fl, k, b), Blk(a, live[a]))
    {
      ClearOfInsert(fl, k, b, Blk(a, live[a]));
    }
    forall x: nat
      ensures x in core <==> IsFree(Insert(fl, k, b), x) || Live(live - {b.addr}, x)
    {
      InsertFree(fl, k, b, x);
      LiveRemove(live, b.addr, x);
    }
  }

  lemma PositionBetween(fl: seq<Blk>, b: Blk, base: nat)
    requires Ordered(fl, base) && Clear(fl, b) && b.size > 0
    ensures Between(fl, Position(fl, b.addr), b)
    ensures forall i | 0 <= i < |fl| :: if i < Position(fl, b.addr) then fl[i].addr < b.addr else b.addr < fl[i].addr
  {
  }
}
