/** kernel/kalloc.c and the page-table code of kernel/vm.c, on physical memory. Addresses are byte
    addresses; pages [lo, hi) are the ones kinit hands to the allocator. */
module VmCode {
  import opened Options
  import opened VmSpec

  const JUNK_FREE := 0x0101_0101_0101_0101   // memset(pa, 1, PGSIZE)
  const JUNK_ALLOC := 0x0505_0505_0505_0505  // memset(r, 5, PGSIZE)

  datatype Result = Ok | Fail | Panic

  /** How many pages uvmunmap(va, npages) goes over, with the end address computed in 64 bits. */
  function Span(va: nat, npages: nat): nat {
    var end := (va + npages * PGSIZE) % U64 / PGSIZE;
    if va / PGSIZE < end then end - va / PGSIZE else 0
  }

  /** PGROUNDUP in 64 bits. */
  function RoundUp64(x: nat): nat { (x + PGSIZE - 1) % U64 / PGSIZE * PGSIZE }

  /** The value of n, below 2^64, assigned to an int and made 64 bits again. */
  function ToInt(n: nat): nat {
    if n % 0x1_0000_0000 < 0x8000_0000 then n % 0x1_0000_0000 else U64 - 0x1_0000_0000 + n % 0x1_0000_0000
  }

  /** How many pages uvmdealloc goes over. */
  function Cut(oldsz: nat, newsz: nat): nat {
    var a, b := RoundUp64(newsz), RoundUp64(oldsz);
    if a < b then Span(a, ToInt((b - a) / PGSIZE)) else 0
  }

  /** For sizes that a process can have it is the pages between the rounded sizes. */
  lemma {:induction false} CutExact(oldsz: nat, newsz: nat)
    requires newsz <= oldsz <= MAXVA
    ensures RoundUp64(newsz) == PgRoundUp(newsz) && RoundUp64(oldsz) == PgRoundUp(oldsz) >= PgRoundUp(newsz)
    ensures Cut(oldsz, newsz) == (PgRoundUp(oldsz) - PgRoundUp(newsz)) / PGSIZE
  {
    hide RoundUp64, PgRoundUp, ToInt, Span;
    var m := RoundExact(newsz);
    var n := RoundExact(oldsz);
    IntExact(n - m);
    SpanExact(m, n - m);
  }

  lemma {:induction false} RoundExact(x: nat) returns (n: nat)
    requires x <= MAXVA
    ensures n == (x + PGSIZE - 1) / PGSIZE <= MAXPAGE && RoundUp64(x) == PgRoundUp(x) == n * PGSIZE
  {
    n := (x + PGSIZE - 1) / PGSIZE;
    assert (x + PGSIZE - 1) % U64 == x + PGSIZE - 1;
  }

  lemma {:induction false} IntExact(n: nat)
    requires n < 0x8000_0000
    ensures ToInt(n) == n
  {
  }

  lemma {:induction false} SpanExact(m: nat, k: nat)
    requires m + k <= MAXPAGE
    ensures Span(m * PGSIZE, k) == k && (m + k) * PGSIZE - m * PGSIZE == k * PGSIZE
  {
    assert m * PGSIZE + k * PGSIZE == (m + k) * PGSIZE;
  }

  /** How many pages uvmalloc adds from `base` on to reach newsz. */
  function PagesUp(base: nat, newsz: nat): (n: nat)
    ensures newsz <= base + n * PGSIZE && (n > 0 ==> base + (n - 1) * PGSIZE < newsz)
  {
    if base < newsz then (newsz - base + PGSIZE - 1) / PGSIZE else 0
  }

  /** The last page mappages(va, size) maps, with the last address computed in 64 bits. */
  function LastPage(va: nat, size: nat): (p: nat)
    requires size > 0
    ensures va + size <= U64 ==> p * PGSIZE < va + size <= (p + 1) * PGSIZE
  {
    (va + size - 1) % U64 / PGSIZE
  }

  ghost function KernelPages(lo: nat, hi: nat): (m: map<nat, Use>)
    ensures (forall p :: p in m <==> lo <= p < hi) && forall p | p in m :: m[p] == Kernel
  {
    if lo >= hi then map[] else KernelPages(lo, hi - 1)[hi - 1 := Kernel]
  }

  function Zeros(k: nat, j: nat): nat { 0 }

  class Machine {
    const lo: nat
    const hi: nat
    var mem: Mem
    var freelist: nat                   // kmem.freelist, the address of its first page
    ghost var free: seq<nat>            // the pages of the free list, first freed first
    ghost var owner: map<nat, Use>      // what each page is used for
    ghost var page: map<Node, nat>      // where each table page is

    /** Every page has exactly one use, and the free list holds the free ones. */
    ghost predicate Pages()
      reads this
    {
      0 < lo && (forall p :: p in owner <==> lo <= p < hi) && FreeOk(mem, freelist, free, owner)
    }

    ghost predicate Valid()
      reads this
    {
      Pages() && TreeOk(mem, owner, page, None)
    }

    /** The flat map of the tree r. */
    ghost function Map(r: nat, v: nat): Option<nat>
      reads this
    {
      Lookup(mem, page, r, v)
    }

    twostate predicate Same()
      reads this
    {
      mem == old(mem) && freelist == old(freelist) && free == old(free) && owner == old(owner) && page == old(page)
    }

    /** Before kinit: no tree, and every page in the kernel's hands. */
    constructor (lo: nat, hi: nat, mem: Mem)
      requires 0 < lo
      ensures Valid() && this.lo == lo && this.hi == hi && free == [] && page == map[]
      ensures forall p | p in owner :: owner[p] == Kernel
    {
      this.lo, this.hi, this.mem, freelist, free, page := lo, hi, mem, 0, [], map[];
      owner := KernelPages(lo, hi);
    }

    /** freerange, as kinit calls it from `end` to PHYSTOP: every whole page in between becomes free. */
    method FreeRange(start: nat, stop: nat) returns (panic: bool)
      requires Valid() && (start + PGSIZE - 1) / PGSIZE == lo && stop / PGSIZE == hi && free == [] && page == map[]
      requires forall p | p in owner :: owner[p] == Kernel
      modifies this`mem, this`freelist, this`free, this`owner
      ensures !panic && Valid() && (forall p | p in owner :: owner[p].Free?)
      ensures |free| == (if lo < hi then hi - lo else 0)
    {
      hide TreeOk, FreeOk;
      var p := PgRoundUp(start);
      while p + PGSIZE <= stop
        invariant p == (lo + |free|) * PGSIZE && Valid() && page == map[] && (p <= hi * PGSIZE || free == [])
        invariant forall q | q in owner :: if q < lo + |free| then owner[q].Free? else owner[q] == Kernel
        decreases stop + PGSIZE - p
      {
        ghost var m0, o0, k := mem, owner, |free|;
        panic := KFree(p);
        if panic { return; }
        Reuse(m0, o0, page, None, p / PGSIZE, Free(k), mem);
        p := p + PGSIZE;
      }
      panic := false;
    }

    /** Returns 0 exactly when no page is free. */
    method KAlloc() returns (pa: nat)
      requires Pages()
      modifies this`mem, this`freelist, this`free, this`owner
      ensures Pages()
      ensures pa == 0 <==> old(free) == []
      ensures pa == 0 ==> Same()
      ensures pa != 0 ==>
        && pa % PGSIZE == 0 && pa / PGSIZE in old(owner) && old(owner)[pa / PGSIZE].Free?
        && owner == old(owner)[pa / PGSIZE := Kernel]
        && free == old(free)[..|old(free)| - 1]
        && forall q: nat, j: nat :: mem(q, j) == if q == pa / PGSIZE then JUNK_ALLOC else old(mem)(q, j)
    {
      hide FreeOk;
      FreeHead(mem, freelist, free, owner);
      var r := freelist;
      if r != 0 {
        ghost var p := free[|free| - 1];
        freelist := mem(r / PGSIZE, 0);
        mem := Fill(mem, r / PGSIZE, JUNK_ALLOC);
        Popped(old(mem), old(freelist), free, owner, mem);
        owner := owner[p := Kernel];
        free := free[..|free| - 1];
      }
      pa := r;
    }

    /** `panic` is "kfree". Freeing a page that is free already leaves no free list. */
    method KFree(pa: nat) returns (panic: bool)
      requires Pages()
      modifies this`mem, this`freelist, this`free, this`owner
      ensures panic <==> pa % PGSIZE != 0 || pa / PGSIZE < lo || pa / PGSIZE >= hi
      ensures panic ==> Same()
      ensures !panic ==> freelist == pa && mem(pa / PGSIZE, 0) == old(freelist)
      ensures !panic ==> forall q: nat, j: nat | q != pa / PGSIZE || j > 0 ::
        mem(q, j) == if q == pa / PGSIZE then JUNK_FREE else old(mem)(q, j)
      ensures !panic && !old(owner)[pa / PGSIZE].Free? ==>
        Pages() && owner == old(owner)[pa / PGSIZE := Free(|old(free)|)] && free == old(free) + [pa / PGSIZE]
      ensures !panic && old(owner)[pa / PGSIZE].Free? ==>
        forall free': seq<nat>, owner': map<nat, Use> :: !FreeOk(mem, freelist, free', owner')
    {
      hide FreeOk;
      if pa % PGSIZE != 0 || pa < lo * PGSIZE || pa >= hi * PGSIZE { return true; }
      var p := pa / PGSIZE;
      mem := Put(Fill(mem, p, JUNK_FREE), p, 0, freelist);
      freelist := pa;
      if owner[p].Free? {
        assert pa == p * PGSIZE;
        FreedTwice(old(mem), old(freelist), free, owner, p, mem);
      } else {
        Pushed(old(mem), old(freelist), free, owner, p, mem);
        owner := owner[p := Free(|free|)];
        free := free + [p];
      }
      return false;
    }

    /** The entry for va in the tree r, as a page and an index. With alloc it makes missing tables.
        `panic` is "walk". */
    method Walk(r: nat, va: nat, alloc: bool) returns (at: Option<(nat, nat)>, panic: bool)
      requires Valid() && Node(r, 2, 0) in page
      modifies this`mem, this`freelist, this`free, this`owner, this`page
      ensures Valid() && Grow(old(mem), old(owner), old(page), mem, owner, page, r)
      ensures panic <==> va >= MAXVA
      ensures panic || !alloc ==> Same()
      ensures forall r': nat, v: nat :: Pte(mem, page, r', v) == old(Pte(mem, page, r', v))
      ensures at.Some? ==>
                !panic && Low(r, va / PGSIZE) in page && at.value == (page[Low(r, va / PGSIZE)], va / PGSIZE % 512)
      ensures at.None? && !panic ==> Low(r, va / PGSIZE) !in page && (alloc ==> free == [])
      ensures at.Some? ==> Took(old(page.Keys), |old(free)|, page.Keys, |free|, PathTo(r, va / PGSIZE, 0), 0)
      ensures at.None? && !panic && alloc ==> Short(old(page.Keys), |old(free)|, PathTo(r, va / PGSIZE, 0), 0)
    {
      hide TreeOk, FreeOk, Grow, Pte, Low, OnPath, PX, Child, IsValid, TablePte, Took, Short, PathTo;
      GrowRefl(mem, owner, page, r);
      assert Took(page.Keys, |free|, page.Keys, |free|, PathTo(r, va / PGSIZE, 2), 0) by {
        TookNone(page.Keys, |free|);
        assert PathTo(r, va / PGSIZE, 2) == {} by { PathNone(r, va / PGSIZE); }
      }
      if va >= MAXVA { return None, true; }
      ghost var v := va / PGSIZE;
      var level, p := 2, r;
      PathRoot(mem, owner, page, r, v);
      while level > 0
        invariant 0 <= level <= 2 && Valid() && Grow(old(mem), old(owner), old(page), mem, owner, page, r)
        invariant !alloc ==> Same()
        invariant forall r': nat, v': nat :: Pte(mem, page, r', v') == old(Pte(mem, page, r', v'))
        invariant OnPath(r, v, level) in page && page[OnPath(r, v, level)] == p
        invariant Took(old(page.Keys), |old(free)|, page.Keys, |free|, PathTo(r, v, level), 0)
      {
        var e := mem(p, PX(level, va));
        PathStep(r, va, level);
        PathEntry(mem, owner, page, OnPath(r, v, level), PX(level, va));
        if IsValid(e) {
          p := PageOf(e);
          TookFound(old(page.Keys), |old(free)|, page.Keys, |free|, r, v, level);
        } else {
          PathMissing(mem, owner, page, r, v, level);
          if !alloc { return None, false; }
          ghost var m0, o0, g0 := mem, owner, page;
          if free == [] {
            TookFailed(old(page.Keys), |old(free)|, page.Keys, r, v, level);
          } else {
            TookMade(old(page.Keys), |old(free)|, page.Keys, |free|, r, v, level);
          }
          var pa := KAlloc();
          if pa == 0 { return None, false; }
          ghost var m1 := mem;
          mem := Put(Fill(mem, pa / PGSIZE, 0), p, PX(level, va), TablePte(pa / PGSIZE));
          TableAdded(m0, o0, g0, m1, freelist, free, owner, OnPath(r, v, level), PX(level, va), pa / PGSIZE, mem);
          owner := owner[pa / PGSIZE := Tab(OnPath(r, v, level - 1))];
          page := page[OnPath(r, v, level - 1) := pa / PGSIZE];
          assert page.Keys == g0.Keys + {OnPath(r, v, level - 1)};
          GrowTrans(old(mem), old(owner), old(page), m0, o0, g0, mem, owner, page, r);
          p := pa / PGSIZE;
        }
        level := level - 1;
      }
      PathLow(r, v, va);
      return Some((p, PX(0, va))), false;
    }

    /** One round of mappages: virtual page a / PGSIZE is mapped to page pg. */
    method MapOne(r: nat, a: nat, pg: nat, perm: nat) returns (res: Result)
      requires Valid() && Node(r, 2, 0) in page && a % PGSIZE == 0 && perm < 1024 && perm / 2 % 8 != 0
      modifies this`mem, this`freelist, this`free, this`owner, this`page
      ensures Valid() && Node(r, 2, 0) in page && Grow(old(mem), old(owner), old(page), mem, owner, page, r)
      ensures MapsTo(old(mem), old(page), mem, page, r, a / PGSIZE, if res == Ok then 1 else 0, pg, perm)
      ensures res == Panic <==> a / PGSIZE >= MAXPAGE || old(Map(r, a / PGSIZE)).Some?
      ensures res == Fail ==> free == [] && Short(old(page.Keys), |old(free)|, PathTo(r, a / PGSIZE, 0), 0)
      ensures res == Ok ==> Took(old(page.Keys), |old(free)|, page.Keys, |free|, PathTo(r, a / PGSIZE, 0), 0)
    {
      hide TreeOk, FreeOk, Grow, Low, IsValid, IsLeaf, MkPte, PageOf, Flags, MapsTo, Pte, Took, Short, PathTo;
      ghost var v := a / PGSIZE;
      MapsToNone(mem, page, r, v, pg, perm);
      var at, panic := Walk(r, a, true);
      GrowRoot(old(mem), old(owner), old(page), mem, owner, page, r);
      MapsToSame(old(mem), old(page), old(mem), old(page), mem, page, r, v, 0, pg, perm);
      MapsToAt(old(mem), old(page), mem, page, r, v, 0, pg, perm);
      PteNone(mem, page, r, v);
      if panic { return Panic; }
      if at == None { return Fail; }
      var (p, i) := at.value;
      PteAt(mem, page, r, v);
      if IsValid(mem(p, i)) { return Panic; }
      ghost var m1 := mem;
      mem := Put(mem, p, i, MkPte(pg, perm));
      LeafSet(m1, owner, page, freelist, free, r, v, MkPte(pg, perm), mem);
      MapsToStep(old(mem), old(page), m1, mem, page, r, v, 0, pg, perm);
      GrowTrans(old(mem), old(owner), old(page), m1, owner, page, mem, owner, page, r);
      res := Ok;
    }

    /** Maps the pages from PGROUNDDOWN(va) to PGROUNDDOWN(va + size - 1); `done` of them when it fails or panics. */
    method MapPages(r: nat, va: nat, size: nat, pa: nat, perm: nat) returns (res: Result, ghost done: nat)
      requires Valid() && Node(r, 2, 0) in page && va < U64 && size < U64 && perm < 1024 && perm / 2 % 8 != 0
      modifies this`mem, this`freelist, this`free, this`owner, this`page
      ensures Valid() && Grow(old(mem), old(owner), old(page), mem, owner, page, r)
      ensures MapsTo(old(mem), old(page), mem, page, r, va / PGSIZE, done, pa / PGSIZE, perm)
      ensures Open(old(mem), old(page), r, va / PGSIZE, done)
      ensures res == Ok ==> size > 0 && done > 0 && va / PGSIZE + done - 1 == LastPage(va, size)
      ensures res == Ok ==> Took(old(page.Keys), |old(free)|, page.Keys, |free|, Tables(r, va / PGSIZE, done), 0)
      ensures res == Fail ==> free == [] && Short(old(page.Keys), |old(free)|, Tables(r, va / PGSIZE, done + 1), 0)
      ensures res != Ok && size > 0 ==> (res == Panic <==> Bad(old(mem), old(page), r, va / PGSIZE + done))
      ensures res != Ok && size > 0 && LastPage(va, size) >= va / PGSIZE ==> va / PGSIZE + done <= LastPage(va, size)
      ensures res == Ok <==> size > 0 && CanMap(old(mem), old(page), |old(free)|, r, va / PGSIZE, LastPage(va, size))
      ensures res == Panic <==>
          size == 0 || CannotMap(old(mem), old(page), |old(free)|, r, va / PGSIZE, LastPage(va, size))
    {
      hide TreeOk, FreeOk, Grow, MkPte, MapsTo, Lookup, Took, Short, Tables, PathTo, Open, Bad, CanMap, CannotMap;
      ghost var first := va / PGSIZE;
      GrowRefl(mem, owner, page, r);
      TablesNone(page.Keys, |free|, r, first);
      MapsToNone(mem, page, r, first, pa / PGSIZE, perm);
      assert Open(mem, page, r, first, 0) by { OpenNone(mem, page, r, first); }
      done := 0;
      if size == 0 { return Panic, done; }
      var a := va / PGSIZE * PGSIZE;
      var last := (va + size - 1) % U64 / PGSIZE * PGSIZE;
      var pg := pa / PGSIZE;
      while true
        invariant Valid() && Grow(old(mem), old(owner), old(page), mem, owner, page, r) && Node(r, 2, 0) in page
        invariant a == (first + done) * PGSIZE && pg == pa / PGSIZE + done && (first + done <= MAXPAGE || done == 0)
        invariant last >= va / PGSIZE * PGSIZE ==> a <= last
        invariant MapsTo(old(mem), old(page), mem, page, r, first, done, pa / PGSIZE, perm)
        invariant Open(old(mem), old(page), r, first, done)
        invariant Took(old(page.Keys), |old(free)|, page.Keys, |free|, Tables(r, first, done), 0)
        decreases MAXVA + PGSIZE - a
      {
        ghost var m0, o0, g0, f0 := mem, owner, page, |free|;
        TookEnough(old(page.Keys), |old(free)|, page.Keys, |free|, Tables(r, first, done), 0);
        MapsToAt(old(mem), old(page), mem, page, r, first, done, pa / PGSIZE, perm);
        res := MapOne(r, a, pg, perm);
        GrowTrans(old(mem), old(owner), old(page), m0, o0, g0, mem, owner, page, r);
        MapsToMore(old(mem), old(page), m0, g0, mem, page, r, first, done, if res == Ok then 1 else 0,
                   pa / PGSIZE, perm);
        PageTook(old(page.Keys), |old(free)|, g0.Keys, f0, page.Keys, |free|, r, first, done, 0, 0);
        assert res == Panic <==>
          Bad(old(mem), old(page), r, first + done) by { BadIs(old(mem), old(page), r, first + done); }
        if res == Panic { MapPanics(old(mem), old(page), |old(free)|, r, first, done, LastPage(va, size)); return; }
        if res == Fail { MapFails(old(mem), old(page), |old(free)|, r, first, done, LastPage(va, size)); return; }
        OpenNext(old(mem), old(page), r, first, done);
        done := done + 1;
        if a == last { break; }
        a := a + PGSIZE;
        pg := pg + 1;
      }
      TookEnough(old(page.Keys), |old(free)|, page.Keys, |free|, Tables(r, first, done), 0);
      MapDone(old(mem), old(page), |old(free)|, r, first, done, LastPage(va, size));
      res := Ok;
    }

    /** The end of one round of uvmunmap: the page is freed and its entry, number i of table page p, cleared. */
    method UnmapOne(r: nat, p: nat, i: nat, dofree: bool, ghost mo: Mem, ghost oo: map<nat, Use>, ghost first: nat,
                    ghost done: nat, ghost all: nat)
      requires Valid() && Unmapped(mo, oo, page, mem, owner, r, first, done) && done < all
      requires Low(r, first + done) in page && page[Low(r, first + done)] == p && i == (first + done) % 512
      requires IsValid(mem(p, i))
      requires if dofree then Owns(mo, oo, page, r, first, all) else OwnsNone(oo, r, first, all)
      modifies this`mem, this`freelist, this`free, this`owner
      ensures Valid() && Unmapped(mo, oo, page, mem, owner, r, first, done + 1)
      ensures |free| == |old(free)| + if dofree then 1 else 0
    {
      hide TreeOk, FreeOk, Unmapped, Low, IsValid, IsLeaf, PageOf, Owns, OwnsNone, Pte, Lookup;
      ghost var m0, o0, f0 := mem, owner, free;
      var e := mem(p, i);
      if dofree {
        EntryOwned(mo, oo, page, mem, owner, r, first, done, all, e);
        var panic := KFree(PageOf(e) * PGSIZE);
        ghost var m1 := mem;
        mem := Put(mem, p, i, 0);
        UnmapFreed(mo, oo, page, m0, o0, r, first, done, PageOf(e), |f0|, m1, freelist, free, mem);
      } else {
        UnmapEntry(mo, oo, page, mem, owner, r, first, done, all);
        mem := Put(mem, p, i, 0);
        UnmapKept(mo, oo, page, m0, o0, r, first, done, freelist, free, mem);
      }
    }

    /** Unmaps npages pages from va on and, with dofree, frees them. `panic` stands for "not aligned",
        "walk" and "not mapped"; "not a leaf" and "kfree" cannot happen. */
    method UvmUnmap(r: nat, va: nat, npages: nat, dofree: bool) returns (panic: bool, ghost done: nat)
      requires Valid() && Node(r, 2, 0) in page && va < U64
      requires va % PGSIZE == 0 ==>
                 if dofree then Owns(mem, owner, page, r, va / PGSIZE, Span(va, npages))
                   else OwnsNone(owner, r, va / PGSIZE, Span(va, npages))
      modifies this`mem, this`freelist, this`free, this`owner, this`page
      ensures page == old(page)
      ensures !panic <==> va % PGSIZE == 0 && AllMapped(old(mem), old(page), r, va / PGSIZE, Span(va, npages))
      ensures va % PGSIZE == 0 ==> Valid() && Unmapped(old(mem), old(owner), page, mem, owner, r, va / PGSIZE, done)
      ensures !panic ==> done == Span(va, npages)
      ensures |free| == |old(free)| + if dofree then done else 0
    {
      hide TreeOk, FreeOk, Unmapped, Low, IsValid, IsLeaf, PageOf, Flags, Owns, OwnsNone, Pte, AllMapped, Lookup;
      done := 0;
      if va % PGSIZE != 0 { return true, done; }
      UnmappedNone(mem, owner, page, r, va / PGSIZE);
      MappedNone(mem, page, r, va / PGSIZE);
      var a, end := va, (va + npages * PGSIZE) % U64;
      ghost var first, all := va / PGSIZE, Span(va, npages);
      while a < end
        invariant a == (first + done) * PGSIZE && done <= all && (a < end <==> done < all)
        invariant Valid() && Node(r, 2, 0) in page && page == old(page)
        invariant Unmapped(old(mem), old(owner), page, mem, owner, r, first, done)
        invariant |free| == |old(free)| + if dofree then done else 0
        invariant AllMapped(old(mem), old(page), r, first, done)
        decreases all - done
      {
        ghost var v := first + done;
        assert a / PGSIZE == v;
        var at, p0 := Walk(r, a, false);
        UnmapEntry(old(mem), old(owner), page, mem, owner, r, first, done, all);
        PteNone(mem, page, r, v);
        if p0 || at == None { NotMapped(old(mem), old(page), r, first, all, v); return true, done; }
        var (p, i) := at.value;
        var e := mem(p, i);
        if !IsValid(e) { NotMapped(old(mem), old(page), r, first, all, v); return true, done; }
        PteSome(mem, page, r, v);
        MappedNext(old(mem), old(page), r, first, done);
        if Flags(e) == PTE_V { assert false; }
        UnmapOne(r, p, i, dofree, old(mem), old(owner), first, done, all);
        a := a + PGSIZE;
        done := done + 1;
      }
      panic := false;
    }

    /** Shrinks the memory of tree r from oldsz to newsz bytes. */
    method UvmDealloc(r: nat, oldsz: nat, newsz: nat) returns (sz: nat, panic: bool)
      requires Valid() && Node(r, 2, 0) in page && oldsz < U64 && newsz < U64
      requires newsz < oldsz ==> Owns(mem, owner, page, r, RoundUp64(newsz) / PGSIZE, Cut(oldsz, newsz))
      modifies this`mem, this`freelist, this`free, this`owner, this`page
      ensures page == old(page) && (!panic ==> sz == if newsz >= oldsz then oldsz else newsz)
      ensures newsz >= oldsz ==> !panic && Same()
      ensures newsz < oldsz ==>
        Valid() && (!panic <==> AllMapped(old(mem), page, r, RoundUp64(newsz) / PGSIZE, Cut(oldsz, newsz)))
      ensures newsz < oldsz && !panic ==>
        Unmapped(old(mem), old(owner), page, mem, owner, r, RoundUp64(newsz) / PGSIZE, Cut(oldsz, newsz))
    {
      hide TreeOk, FreeOk, Unmapped, Owns, Lookup, AllMapped;
      if newsz >= oldsz { return oldsz, false; }
      ghost var done;
      UnmappedNone(mem, owner, page, r, RoundUp64(newsz) / PGSIZE);
      MappedNone(mem, page, r, RoundUp64(newsz) / PGSIZE);
      panic := false;
      if RoundUp64(newsz) < RoundUp64(oldsz) {
        var npages := ToInt((RoundUp64(oldsz) - RoundUp64(newsz)) / PGSIZE);
        panic, done := UvmUnmap(r, RoundUp64(newsz), npages, true);
        if panic { return 0, true; }
      }
      sz := newsz;
    }

    /** uvmdealloc as the failure path of uvmalloc calls it: the new pages go back. */
    method Rollback(r: nat, a: nat, base: nat, ghost m0: Mem, ghost o0: map<nat, Use>, ghost g0: map<Node, nat>,
                    ghost got: seq<nat>, ghost perms: seq<nat>, ghost c: (nat, nat) -> nat)
      requires Valid() && Node(r, 2, 0) in page && base % PGSIZE == 0 && a == base + |got| * PGSIZE <= MAXVA
      requires Grew(m0, o0, g0, mem, owner, page, r, base / PGSIZE, got, perms, c) && TreeOk(m0, o0, g0, None)
      requires forall v: nat | base / PGSIZE <= v < base / PGSIZE + |got| :: Lookup(m0, g0, r, v) == None
      modifies this`mem, this`freelist, this`free, this`owner, this`page
      ensures Valid() && Grew(m0, o0, g0, mem, owner, page, r, base / PGSIZE, [], [], c)
    {
      hide TreeOk, FreeOk, Grew, Unmapped, Owns, Lookup;
      GrewOwns(m0, o0, g0, mem, owner, page, r, base / PGSIZE, got, perms, c);
      ghost var m1, o1 := mem, owner;
      assert PgRoundUp(base) == base && PgRoundUp(a) == a;
      CutExact(a, base);
      var sz, panic := UvmDealloc(r, a, base);
      Undone(m0, o0, g0, m1, o1, page, r, base / PGSIZE, got, perms, c, mem, owner);
    }

    /** One more page for tree r at address a: kalloc, fill, mappages; nothing is gained on failure. */
    method Extend(r: nat, a: nat, perm: nat, from: Option<nat>, ghost m0: Mem, ghost o0: map<nat, Use>,
                  ghost g0: map<Node, nat>, ghost first: nat, ghost got: seq<nat>, ghost perms: seq<nat>,
                  ghost c: (nat, nat) -> nat) returns (res: Result, ghost p: nat)
      requires Valid() && Node(r, 2, 0) in page && a == (first + |got|) * PGSIZE < U64 - PGSIZE && perm < 1024
      requires perm / 2 % 8 != 0
      requires Grew(m0, o0, g0, mem, owner, page, r, first, got, perms, c)
      requires from.Some? ==>
                 from.value in owner && !owner[from.value].Free? && forall j: nat :: c(|got|, j) == mem(from.value, j)
      requires from.None? ==> forall j: nat :: c(|got|, j) == 0
      modifies this`mem, this`freelist, this`free, this`owner, this`page
      ensures res == Panic <==> old(free) != [] && Bad(m0, g0, r, first + |got|)
      ensures res == Fail ==> Short(old(page.Keys), |old(free)|, PathTo(r, first + |got|, 0), 1)
      ensures res == Ok ==> Took(old(page.Keys), |old(free)|, page.Keys, |free|, PathTo(r, first + |got|, 0), 1)
      ensures res != Panic ==> Valid() && Node(r, 2, 0) in page
      ensures res == Fail ==> Grew(m0, o0, g0, mem, owner, page, r, first, got, perms, c)
      ensures res == Ok ==>
                Grew(m0, o0, g0, mem, owner, page, r, first, got + [p], perms + [perm], c)
    {
      hide TreeOk, FreeOk, Grew, Grow, Lookup, MapsTo, Mounted, Took, Short, Open, CanMap, CannotMap, PathTo, Tables;
      ghost var mb, ob, gb := mem, owner, page;
      GrewAt(m0, o0, g0, mem, owner, page, r, first, got, perms, c, r, first + |got|);
      var pa := KAlloc();
      p := pa / PGSIZE;
      if pa == 0 { NoPage(gb.Keys, PathTo(r, first + |got|, 0)); return Fail, p; }
      ghost var m1 := mem;
      if from.Some? {
        mem := CopyPage(mem, pa / PGSIZE, from.value);
      } else {
        mem := Fill(mem, pa / PGSIZE, 0);
      }
      ghost var m2 := mem;
      KernelPage(mb, ob, gb, m1, freelist, free, p, m2);
      ghost var n;
      ghost var f1 := |free|;
      BadSame(m0, g0, mem, page, r, first + |got|);
      res, n := MapPages(r, a, PGSIZE, pa, perm);
      OneTook(gb.Keys, f1, page.Keys, |free|, r, first + |got|);
      OpenOne(m2, gb, r, first + |got|, n);
      if res == Panic { return; }
      MountedUse(mb, ob, gb, p, m2, mem, owner, page, r);
      ghost var m3, o3, g3, k := mem, owner, page, |free|;
      if res == Fail {
        var panic := KFree(pa);
        GrewUndo(m0, o0, g0, mb, ob, gb, r, first, got, perms, c, p, perm, m2, ob[p := Kernel], m3, o3, g3, k, mem);
        return;
      }
      GrewStep(m0, o0, g0, mb, ob, gb, r, first, got, perms, c, p, perm, m2, ob[p := Kernel], m3, o3, g3);
      FreeKept(m3, freelist, free, o3, p, Leaf(r, first + |got|), m3);
      owner := owner[p := Leaf(r, first + |got|)];
    }

    /** The loop of uvmalloc: pages from base on until newsz is reached; on failure they all go back. */
    method GrowLoop(r: nat, base: nat, newsz: nat, perm: nat) returns (res: Result, ghost got: seq<nat>)
      requires Valid() && Node(r, 2, 0) in page && base % PGSIZE == 0 && base <= MAXVA && perm < 1024
      requires perm / 2 % 8 != 0
      modifies this`mem, this`freelist, this`free, this`owner, this`page
      ensures res == Panic <==> CannotGrow(old(mem), old(page), |old(free)|, r, base / PGSIZE, PagesUp(base, newsz))
      ensures res == Ok <==> CanGrow(old(mem), old(page), |old(free)|, r, base / PGSIZE, PagesUp(base, newsz))
      ensures res != Panic ==>
                Valid() && Grew(old(mem), old(owner), old(page), mem, owner, page, r, base / PGSIZE, got,
                  Rep(perm, |got|), Zeros)
      ensures res == Ok ==> |got| == PagesUp(base, newsz)
      ensures res == Fail ==> got == [] && base < newsz
    {
      hide TreeOk, FreeOk, Grew, Lookup, Rep, Took, Short, Tables, PathTo, Bad, Open, CanGrow, CannotGrow;
      ghost var first, n := base / PGSIZE, PagesUp(base, newsz);
      got := [];
      GrewNone(mem, owner, page, r, first, Zeros);
      TablesNone(page.Keys, |free|, r, first);
      OpenNone(mem, page, r, first);
      assert Rep(perm, 0) == [];
      var a := base;
      while a < newsz
        invariant a == base + |got| * PGSIZE && a <= MAXVA && |got| <= n
        invariant Valid() && Node(r, 2, 0) in page
        invariant Grew(old(mem), old(owner), old(page), mem, owner, page, r, first, got, Rep(perm, |got|), Zeros)
        invariant Open(old(mem), old(page), r, first, |got|)
        invariant Took(old(page.Keys), |old(free)|, page.Keys, |free|, Tables(r, first, |got|), |got|)
        decreases n - |got|
      {
        ghost var p;
        ghost var g1, f1 := page.Keys, |free|;
        TookEnough(old(page.Keys), |old(free)|, g1, f1, Tables(r, first, |got|), |got|);
        res, p := Extend(r, a, perm, None, old(mem), old(owner), old(page), first, got, Rep(perm, |got|), Zeros);
        PageTook(old(page.Keys), |old(free)|, g1, f1, page.Keys, |free|, r, first, |got|, |got|, 1);
        if res == Panic { GrowPanics(old(mem), old(page), |old(free)|, r, first, |got|, n); return; }
        if res == Fail {
          GrowFails(old(mem), old(page), |old(free)|, g1, f1, r, first, |got|, n);
          OpenLookup(old(mem), old(page), r, first, |got|);
          Rollback(r, a, base, old(mem), old(owner), old(page), got, Rep(perm, |got|), Zeros);
          return Fail, [];
        }
        assert !Bad(old(mem), old(page), r, first + |got|) by { NotBad(g1, f1, page.Keys, |free|, r, first + |got|); }
        BadIs(old(mem), old(page), r, first + |got|);
        OpenNext(old(mem), old(page), r, first, |got|);
        RepNext(perm, |got|);
        got := got + [p];
        a := a + PGSIZE;
      }
      TookEnough(old(page.Keys), |old(free)|, page.Keys, |free|, Tables(r, first, |got|), |got|);
      GrowDone(old(mem), old(page), |old(free)|, r, first, n);
      res := Ok;
    }

    /** Grows the memory of tree r from oldsz to newsz bytes with zeroed pages `got`; 0 if it cannot. */
    method UvmAlloc(r: nat, oldsz: nat, newsz: nat, xperm: nat) returns (sz: nat, panic: bool, ghost got: seq<nat>)
      requires Valid() && Node(r, 2, 0) in page && oldsz <= MAXVA && newsz < U64
      requires xperm in {0, PTE_W, PTE_X, PTE_W + PTE_X}
      modifies this`mem, this`freelist, this`free, this`owner, this`page
      ensures newsz < oldsz ==> !panic && Same() && sz == oldsz && got == []
      ensures panic <==>
        newsz >= oldsz
        && CannotGrow(old(mem), old(page), |old(free)|, r, PgRoundUp(oldsz) / PGSIZE, PagesUp(PgRoundUp(oldsz), newsz))
      ensures newsz >= oldsz ==>
        (!panic && sz == newsz <==>
         CanGrow(old(mem), old(page), |old(free)|, r, PgRoundUp(oldsz) / PGSIZE, PagesUp(PgRoundUp(oldsz), newsz)))
      ensures !panic ==>
                && Valid()
                && Grew(old(mem), old(owner), old(page), mem, owner, page, r, PgRoundUp(oldsz) / PGSIZE, got,
                        Rep(PTE_R + PTE_U + xperm, |got|), Zeros)
      ensures !panic ==> forall k: nat, j: nat | k < |got| :: mem(got[k], j) == 0
      ensures !panic && sz == newsz >= oldsz ==> |got| == PagesUp(PgRoundUp(oldsz), newsz)
      ensures !panic && sz != newsz >= oldsz ==> sz == 0 && got == []
    {
      hide TreeOk, FreeOk, Grew, Lookup, Rep, PgRoundUp, CanGrow, CannotGrow;
      RoundUp(oldsz);
      RoundUp(newsz);
      got := [];
      GrewNone(mem, owner, page, r, PgRoundUp(oldsz) / PGSIZE, Zeros);
      assert Rep(PTE_R + PTE_U + xperm, 0) == [];
      if newsz < oldsz { return oldsz, false, got; }
      var res;
      res, got := GrowLoop(r, PgRoundUp(oldsz), newsz, PTE_R + PTE_U + xperm);
      if res == Panic { return 0, true, got; }
      GrewData(old(mem), old(owner), old(page), mem, owner, page, r, PgRoundUp(oldsz) / PGSIZE, got,
               Rep(PTE_R + PTE_U + xperm, |got|), Zeros);
      if res == Fail { return 0, false, got; }
      sz, panic := newsz, false;
    }

    /** The failure path of uvmcopy: the pages copied so far go back. */
    method CopyUndo(dst: nat, i: nat, ghost m0: Mem, ghost o0: map<nat, Use>, ghost g0: map<Node, nat>,
                    ghost got: seq<nat>, ghost perms: seq<nat>, ghost c: (nat, nat) -> nat)
      requires Valid() && Node(dst, 2, 0) in page && i == |got| * PGSIZE <= MAXVA
      requires Grew(m0, o0, g0, mem, owner, page, dst, 0, got, perms, c) && TreeOk(m0, o0, g0, None)
      requires forall v: nat | v < |got| :: Lookup(m0, g0, dst, v) == None
      modifies this`mem, this`freelist, this`free, this`owner, this`page
      ensures Valid() && Grew(m0, o0, g0, mem, owner, page, dst, 0, [], [], c)
    {
      hide TreeOk, FreeOk, Grew, Lookup, Owns, Unmapped;
      ghost var m1, o1 := mem, owner;
      GrewOwns(m0, o0, g0, mem, owner, page, dst, 0, got, perms, c);
      UnmappedNone(mem, owner, page, dst, 0);
      var panic, done := UvmUnmap(dst, 0, i / PGSIZE, true);
      Undone(m0, o0, g0, m1, o1, page, dst, 0, got, perms, c, mem, owner);
    }

    /** Copies the first sz bytes' pages of tree `src` into tree `dst`; on failure `dst` loses what it got. */
    method UvmCopy(src: nat, dst: nat, sz: nat) returns (res: Result, ghost got: seq<nat>, ghost perms: seq<nat>)
      requires Valid() && Node(src, 2, 0) in page && Node(dst, 2, 0) in page && src != dst && sz < U64
      requires Owns(mem, owner, page, src, 0, PgRoundUp(sz) / PGSIZE)
      modifies this`mem, this`freelist, this`free, this`owner, this`page
      ensures res == Panic <==> CannotCopy(old(mem), old(page), |old(free)|, src, dst, PgRoundUp(sz) / PGSIZE)
      ensures res == Ok <==> CanCopy(old(mem), old(page), |old(free)|, src, dst, PgRoundUp(sz) / PGSIZE)
      ensures res != Panic ==>
                Valid() && Grew(old(mem), old(owner), old(page), mem, owner, page, dst, 0, got, perms,
                  CopyOf(old(mem), old(page), src))
      ensures res == Ok ==>
                |got| == PgRoundUp(sz) / PGSIZE && forall v: nat | v < |got| ::
                  old(Map(src, v)).Some? && perms[v] == Flags(old(Map(src, v)).value)
      ensures res == Fail ==> got == []
    {
      hide TreeOk, FreeOk, Grew, Lookup, Owns, IsValid, PageOf, Flags, Low, Unmapped, Pte, Grow, CopyOf;
      hide Took, Short, Tables, PathTo, Bad, NoSource, Copyable, CanCopy, CannotCopy;
      ghost var n := PgRoundUp(sz) / PGSIZE;
      TablesNone(page.Keys, |free|, dst, 0);
      CopyableNone(mem, page, src, dst);
      ghost var c := CopyOf(mem, page, src);
      got, perms := [], [];
      GrewNone(mem, owner, page, dst, 0, c);
      var i := 0;
      while i < sz
        invariant i == |got| * PGSIZE && |got| <= PgRoundUp(sz) / PGSIZE && i <= MAXVA && |perms| == |got|
        invariant Valid() && Node(src, 2, 0) in page && Node(dst, 2, 0) in page
        invariant Grew(old(mem), old(owner), old(page), mem, owner, page, dst, 0, got, perms, c)
        invariant Copyable(old(mem), old(page), src, dst, |got|)
        invariant Took(old(page.Keys), |old(free)|, page.Keys, |free|, Tables(dst, 0, |got|), |got|)
        invariant forall v: nat | v < |got| :: old(Map(src, v)).Some? && perms[v] == Flags(old(Map(src, v)).value)
        decreases PgRoundUp(sz) / PGSIZE - |got|
      {
        ghost var v := |got|;
        ghost var g1, f1 := page.Keys, |free|;
        TookEnough(old(page.Keys), |old(free)|, g1, f1, Tables(dst, 0, v), v);
        var at, panic := Walk(src, i, false);
        PteNone(mem, page, src, v);
        GrewAt(old(mem), old(owner), old(page), mem, owner, page, dst, 0, got, perms, c, src, v);
        assert Lookup(old(mem), old(page), src, v) == old(Map(src, v));
        SourceIs(old(mem), old(page), src, v);
        if panic || at == None {
          CopyStops(old(mem), old(page), |old(free)|, src, dst, v, n);
          return Panic, got, perms;
        }
        var (p, k) := at.value;
        var e := mem(p, k);
        if !IsValid(e) { CopyStops(old(mem), old(page), |old(free)|, src, dst, v, n); return Panic, got, perms; }
        CopySource(old(mem), old(owner), old(page), mem, owner, page, src, dst, got, perms, n, e);
        ghost var q;
        res, q := Extend(dst, i, Flags(e), Some(PageOf(e)), old(mem), old(owner), old(page), 0, got, perms, c);
        PageTook(old(page.Keys), |old(free)|, g1, f1, page.Keys, |free|, dst, 0, v, v, 1);
        if res == Panic { CopyStops(old(mem), old(page), |old(free)|, src, dst, v, n); return; }
        if res == Fail {
          CopyFails(old(mem), old(page), |old(free)|, g1, f1, src, dst, v, n);
          CopyableDst(old(mem), old(page), src, dst, v);
          CopyUndo(dst, i, old(mem), old(owner), old(page), got, perms, c);
          return Fail, [], [];
        }
        assert !Bad(old(mem), old(page), dst, v) by { NotBad(g1, f1, page.Keys, |free|, dst, v); }
        BadIs(old(mem), old(page), dst, v);
        CopyableNext(old(mem), old(page), src, dst, v);
        got, perms := got + [q], perms + [Flags(e)];
        GrewRoot(old(mem), old(owner), old(page), mem, owner, page, dst, 0, got, perms, c);
        i := i + PGSIZE;
      }
      TookEnough(old(page.Keys), |old(free)|, page.Keys, |free|, Tables(dst, 0, |got|), |got|);
      CopyDone(old(mem), old(page), |old(free)|, src, dst, n);
      res := Ok;
    }

    /** The end of freewalk: kfree of a table whose entries are all clear. */
    method FreeTable(t: nat, ghost u: Node, ghost mo: Mem, ghost oo: map<nat, Use>, ghost go: map<Node, nat>)
      returns (panic: bool)
      requires Valid() && u in page && page[u] == t && Pruned(mo, oo, go, mem, owner, page, u)
      requires forall i: nat | i < 512 :: !IsValid(mem(t, i))
      modifies this`mem, this`freelist, this`free, this`owner, this`page
      ensures !panic && Pages() && TreeOk(mem, owner, page, Some(u)) && Pruned(mo, oo, go, mem, owner, page, u)
      ensures u !in page
      ensures NoLeaf(mo, go, u)
    {
      hide TreeOk, FreeOk, Pruned, Lookup, Above, IsValid, NoLeaf;
      ghost var m0, o0, k := mem, owner, |free|;
      TableOwner(mem, owner, page, u);
      panic := KFree(t * PGSIZE);
      SelfPruned(mo, oo, go, m0, o0, page, u, k, mem);
      page := page - {u};
      NoneAbove(mo, oo, go, mem, owner, page, u);
    }

    /** freewalk at an entry that leads to a lower table. */
    method FreeChild(t: nat, i: nat, ghost u: Node, ghost mo: Mem, ghost oo: map<nat, Use>, ghost go: map<Node, nat>)
      returns (panic: bool)
      requires Valid() && u in page && page[u] == t && 0 < u.l <= 2 && i < 512
      requires Pruned(mo, oo, go, mem, owner, page, u)
      requires Child(u, i) in page && page[Child(u, i)] == PageOf(mem(t, i))
      requires forall j: nat | j < i :: !IsValid(mem(t, j))
      modifies this`mem, this`freelist, this`free, this`owner, this`page
      ensures panic ==> !NoLeaf(mo, go, u)
      ensures !panic ==>
                Valid() && u in page && page[u] == t && Pruned(mo, oo, go, mem, owner, page, u)
                && forall j: nat | j <= i :: !IsValid(mem(t, j))
      decreases u.l, 0
    {
      hide TreeOk, FreeOk, Pruned, Lookup, Above, IsValid, IsLeaf, PageOf, NoLeaf;
      ZeroInvalid();
      ghost var m0, o0, g0 := mem, owner, page;
      ghost var c := Child(u, i);
      panic := FreeWalk(PageOf(mem(t, i)), c);
      if panic { LeafInChild(mo, oo, go, m0, o0, g0, u, i); return; }
      ghost var m1 := mem;
      mem := Put(mem, t, i, 0);
      ChildPruned(mo, oo, go, m0, o0, g0, m1, owner, page, u, i, freelist, free, mem);
    }

    /** Frees the table page t and all tables under it. `panic` is "freewalk: leaf". */
    method FreeWalk(t: nat, ghost u: Node) returns (panic: bool)
      requires Valid() && u in page && page[u] == t
      modifies this`mem, this`freelist, this`free, this`owner, this`page
      ensures !panic <==> NoLeaf(old(mem), old(page), u)
      ensures !panic ==>
                Pages() && TreeOk(mem, owner, page, Some(u))
                && Pruned(old(mem), old(owner), old(page), mem, owner, page, u) && u !in page
      decreases u.l, 1
    {
      hide TreeOk, FreeOk, Pruned, Lookup, Above, IsValid, IsLeaf, PageOf, NoLeaf;
      ZeroInvalid();
      TableOwner(mem, owner, page, u);
      PrunedNone(mem, owner, page, u);
      var i := 0;
      while i < 512
        invariant 0 <= i <= 512 && Valid() && u in page && page[u] == t
        invariant Pruned(old(mem), old(owner), old(page), mem, owner, page, u)
        invariant forall j: nat | j < i :: !IsValid(mem(t, j))
      {
        var pte := mem(t, i);
        WalkEntry(mem, owner, page, u, i);
        if IsValid(pte) && !IsLeaf(pte) {
          panic := FreeChild(t, i, u, old(mem), old(owner), old(page));
          if panic { return; }
        } else if IsValid(pte) {
          ghost var v := u.pre * 512 + i;
          PrunedLookup(old(mem), old(owner), old(page), mem, owner, page, u, u.r, v);
          LeafFound(old(mem), old(page), u, v);
          return true;
        }
        i := i + 1;
      }
      panic := FreeTable(t, u, old(mem), old(owner), old(page));
    }

    /** An empty page table; 0 if there is no memory for it. */
    method UvmCreate() returns (r: nat)
      requires Valid()
      modifies this`mem, this`freelist, this`free, this`owner, this`page
      ensures Valid() && (r == 0 <==> old(free) == [])
      ensures r == 0 ==> Same()
      ensures r != 0 ==> free == old(free)[..|old(free)| - 1]
      ensures r != 0 ==> r in old(owner) && old(owner)[r].Free? && Node(r, 2, 0) !in old(page)
      ensures r != 0 ==> owner == old(owner)[r := Tab(Node(r, 2, 0))] && page == old(page)[Node(r, 2, 0) := r]
      ensures forall r': nat, v: nat :: Map(r', v) == old(Map(r', v)) && (r' == r != 0 ==> Map(r', v) == None)
      ensures forall p, j: nat | p in old(owner) && (old(owner)[p].Leaf? || old(owner)[p] == Kernel) ::
                mem(p, j) == old(mem)(p, j)
    {
      hide TreeOk, FreeOk, Lookup;
      var pa := KAlloc();
      if pa == 0 { return 0; }
      r := pa / PGSIZE;
      ghost var m1 := mem;
      mem := Fill(mem, r, 0);
      NewRoot(old(mem), old(owner), page, m1, freelist, free, r, mem);
      owner := owner[r := Tab(Node(r, 2, 0))];
      assert owner == old(owner)[r := Tab(Node(r, 2, 0))];
      page := page[Node(r, 2, 0) := r];
    }

    /** Frees the user memory below sz and the whole tree; panics exactly when the mapped pages are not those below sz.
        */
    method UvmFree(r: nat, sz: nat) returns (panic: bool)
      requires Valid() && Node(r, 2, 0) in page && sz <= MAXVA && Owns(mem, owner, page, r, 0, PgRoundUp(sz) / PGSIZE)
      modifies this`mem, this`freelist, this`free, this`owner, this`page
      ensures !panic <==> MappedBelow(old(mem), old(page), r, PgRoundUp(sz) / PGSIZE)
      ensures !panic ==> Valid() && Gone(old(mem), old(owner), old(page), mem, owner, page, r)
    {
      hide TreeOk, FreeOk, Unmapped, Pruned, Gone, Owns, Lookup, Above, AllMapped, NoLeaf, MappedBelow;
      ghost var n, done := PgRoundUp(sz) / PGSIZE, 0;
      UnmappedNone(mem, owner, page, r, 0);
      MappedNone(mem, page, r, 0);
      if MappedBelow(mem, page, r, n) { BelowAllMapped(mem, page, r, n); }
      if sz > 0 {
        assert Span(0, PgRoundUp(sz) / PGSIZE) == n;
        panic, done := UvmUnmap(r, 0, PgRoundUp(sz) / PGSIZE, true);
        if panic { return; }
      }
      ghost var m1, o1 := mem, owner;
      RootPage(mem, owner, page, r);
      LeftMapped(old(mem), old(owner), page, mem, owner, r, n);
      panic := FreeWalk(r, Node(r, 2, 0));
      if panic { return; }
      TreeGone(old(mem), old(owner), old(page), m1, o1, r, n, mem, owner, page);
    }

    /** Unmaps the trampoline and the trap frame and frees everything else. */
    method ProcFreePagetable(r: nat, sz: nat) returns (panic: bool)
      requires Valid() && Node(r, 2, 0) in page && sz <= TRAPFRAME
      requires Owns(mem, owner, page, r, 0, PgRoundUp(sz) / PGSIZE) && OwnsNone(owner, r, TRAPFRAME / PGSIZE, 2)
      modifies this`mem, this`freelist, this`free, this`owner, this`page
      ensures !panic <==> ProcMapped(old(mem), old(page), r, PgRoundUp(sz) / PGSIZE)
      ensures !panic ==> Valid() && Gone(old(mem), old(owner), old(page), mem, owner, page, r)
    {
      hide TreeOk, FreeOk, Unmapped, Gone, Owns, OwnsNone, Lookup, MappedBelow, ProcMapped;
      ghost var d1, d2;
      ghost var n := PgRoundUp(sz) / PGSIZE;
      assert Span(TRAMPOLINE, 1) == Span(TRAPFRAME, 1) == 1;
      OwnsNoneParts(owner, r, TRAPFRAME / PGSIZE);
      panic, d1 := UvmUnmap(r, TRAMPOLINE, 1, false);
      if panic { NotProcMapped(old(mem), old(page), r, n, TRAMPOLINE / PGSIZE); return; }
      assert Lookup(old(mem), page, r, TRAMPOLINE / PGSIZE).Some?;
      ghost var m1, o1 := mem, owner;
      UnmappedRest(old(mem), old(owner), page, m1, o1, r, TRAMPOLINE / PGSIZE);
      panic, d2 := UvmUnmap(r, TRAPFRAME, 1, false);
      if panic {
        assert Lookup(m1, page, r, TRAPFRAME / PGSIZE) == Lookup(old(mem), page, r, TRAPFRAME / PGSIZE);
        NotProcMapped(old(mem), old(page), r, n, TRAPFRAME / PGSIZE);
        return;
      }
      assert Lookup(m1, page, r, TRAPFRAME / PGSIZE).Some?;
      ghost var m2, o2 := mem, owner;
      UnmappedRest(m1, o1, page, m2, o2, r, TRAPFRAME / PGSIZE);
      BelowFrames(old(mem), old(owner), page, m1, o1, m2, o2, r, n);
      panic := UvmFree(r, sz);
      if !panic { GoneFrom(old(mem), old(owner), old(page), m1, o1, m2, o2, mem, owner, page, r); }
    }

    /** One fixed page of a new process's table. */
    method MapFrame(r: nat, va: nat, pa: nat, perm: nat, ghost o0: map<nat, Use>) returns (ok: bool)
      requires Valid() && Node(r, 2, 0) in page && va % PGSIZE == 0 && va < MAXVA && perm < 1024 && perm / 2 % 8 != 0
      requires Map(r, va / PGSIZE) == None && Lent(o0, owner, r)
      modifies this`mem, this`freelist, this`free, this`owner, this`page
      ensures Valid() && Node(r, 2, 0) in page && Lent(o0, owner, r)
      ensures forall r': nat, v: nat ::
                Map(r', v) == if ok && r' == r && v == va / PGSIZE then Some(MkPte(pa / PGSIZE, perm))
                  else old(Map(r', v))
      ensures ok <==> !Short(old(page.Keys), |old(free)|, PathTo(r, va / PGSIZE, 0), 0)
      ensures ok ==> Took(old(page.Keys), |old(free)|, page.Keys, |free|, PathTo(r, va / PGSIZE, 0), 0)
      ensures !ok ==> free == []
    {
      hide TreeOk, FreeOk, Lookup, Grow, Lent, MkPte, Took, Short, PathTo, Tables, Bad, Open, CanMap, CannotMap;
      BadIs(mem, page, r, va / PGSIZE);
      ghost var g1, f1 := page.Keys, |free|;
      var res, done := MapPages(r, va, PGSIZE, pa, perm);
      FrameTook(g1, f1, page.Keys, |free|, r, va / PGSIZE);
      LentGrow(o0, old(mem), old(owner), old(page), mem, owner, page, r);
      ok := res == Ok;
    }

    /** uvmfree of a table with nothing mapped. */
    method FreeEmpty(r: nat, ghost o0: map<nat, Use>)
      requires Valid() && Node(r, 2, 0) in page && Lent(o0, owner, r) && forall p | p in o0 :: !Of(o0[p], r)
      requires forall v: nat :: Map(r, v) == None
      modifies this`mem, this`freelist, this`free, this`owner, this`page
      ensures Valid() && Returned(o0, owner) && forall r': nat, v: nat :: Map(r', v) == old(Map(r', v))
    {
      hide TreeOk, FreeOk, Lookup, Lent, Returned;
      assert Owns(mem, owner, page, r, 0, 0);
      assert MappedBelow(mem, page, r, 0) by { assert forall v: nat :: Lookup(mem, page, r, v) == Map(r, v); }
      var panic := UvmFree(r, 0);
      LentGone(o0, old(mem), old(owner), old(page), mem, owner, page, r);
    }

    /** uvmunmap of the trampoline and uvmfree, when nothing else is mapped. */
    method FreeTrampoline(r: nat, ghost o0: map<nat, Use>)
      requires Valid() && Node(r, 2, 0) in page && Lent(o0, owner, r) && forall p | p in o0 :: !Of(o0[p], r)
      requires forall v: nat :: Map(r, v).Some? <==> v == TRAMPOLINE / PGSIZE
      modifies this`mem, this`freelist, this`free, this`owner, this`page
      ensures Valid() && Returned(o0, owner)
      ensures forall r': nat, v: nat ::
                Map(r', v) == if r' == r && v == TRAMPOLINE / PGSIZE then None else old(Map(r', v))
    {
      hide TreeOk, FreeOk, Lookup, Lent, Returned, AllMapped, Unmapped, OwnsNone;
      ghost var m1, o1 := mem, owner;
      forall v: nat | v != TRAMPOLINE / PGSIZE ensures Lookup(m1, page, r, v) == None { assert Map(r, v) == None; }
      LentOwnsNone(o0, owner, r, TRAMPOLINE / PGSIZE, 1);
      assert Span(TRAMPOLINE, 1) == 1;
      assert AllMapped(mem, page, r, TRAMPOLINE / PGSIZE, 1) by {
        assert Map(r, TRAMPOLINE / PGSIZE).Some?;
        OneMapped(mem, page, r, TRAMPOLINE / PGSIZE);
      }
      var panic, done := UvmUnmap(r, TRAMPOLINE, 1, false);
      UnmappedRest(m1, o1, page, mem, owner, r, TRAMPOLINE / PGSIZE);
      assert forall r': nat, v: nat :: Map(r', v) == Lookup(mem, page, r', v);
      FreeEmpty(r, o0);
    }

    /** A page table with only the trampoline and the trap frame; on failure 0, and no page is lost. */
    method ProcPagetable(trampoline: nat, trapframe: nat) returns (r: nat)
      requires Valid()
      modifies this`mem, this`freelist, this`free, this`owner, this`page
      ensures Valid() && (r == 0 <==> |old(free)| < 3)
      ensures r == 0 ==> Returned(old(owner), owner) && forall r': nat, v: nat :: Map(r', v) == old(Map(r', v))
      ensures r != 0 ==> Node(r, 2, 0) !in old(page) && Node(r, 2, 0) in page && Lent(old(owner), owner, r)
      ensures r != 0 ==> forall r': nat, v: nat | r' != r :: Map(r', v) == old(Map(r', v))
      ensures r != 0 ==> Map(r, TRAMPOLINE / PGSIZE) == Some(MkPte(trampoline / PGSIZE, PTE_R + PTE_X))
      ensures r != 0 ==> Map(r, TRAPFRAME / PGSIZE) == Some(MkPte(trapframe / PGSIZE, PTE_R + PTE_W))
      ensures r != 0 ==> forall v: nat | v != TRAMPOLINE / PGSIZE && v != TRAPFRAME / PGSIZE :: Map(r, v) == None
    {
      hide TreeOk, FreeOk, Lookup, MkPte, AllMapped, Unmapped, OwnsNone, Took, Short, PathTo;
      r := UvmCreate();
      if r == 0 { return; }
      NotOf(old(mem), old(owner), old(page), r);
      ghost var page1, f1 := page, |free|;
      var ok := MapFrame(r, TRAMPOLINE, trampoline, PTE_R + PTE_X, old(owner));
      if !ok {
        FirstFrame(old(mem), old(owner), old(page), page1, f1, r);
        FreeEmpty(r, old(owner));
        return 0;
      }
      SecondFrame(page1.Keys, f1, page.Keys, |free|, r);
      ok := MapFrame(r, TRAPFRAME, trapframe, PTE_R + PTE_W, old(owner));
      if !ok {
        FreeTrampoline(r, old(owner));
        return 0;
      }
      FirstFrame(old(mem), old(owner), old(page), page1, f1, r);
    }
  }
}
