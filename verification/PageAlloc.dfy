/** The two sources of page-table frames (mmu/src/mmap.rs:14-122). */
module PageAllocs {
  import opened Powers
  import opened Wrappers
  import opened Buddy
  import opened FramePool
  import opened FrameAllocators
  import opened Sv48
  import opened PageTree

  const PAGE_CLASS: nat := 12

  // A fill-once run of frames.
  class PageTableVec {
    const startAddr: nat
    const maxPages: nat
    var currentPage: nat

    constructor (startAddr: nat, maxSize: nat)
      ensures this.startAddr == startAddr && maxPages == maxSize / PAGE && currentPage == 0
    {
      this.startAddr, maxPages, currentPage := startAddr, maxSize / PAGE, 0;
    }

    ghost predicate Valid()
      reads this
    {
      startAddr % PAGE == 0 && startAddr + maxPages * PAGE <= PA_LIMIT && currentPage <= maxPages
    }

    // Frames below the fill mark; the next one is the mark itself.
    ghost function Taken(): (s: set<nat>)
      reads this
    {
      set k | 0 <= k < currentPage :: startAddr + k * PAGE
    }

    method AllocatePageTable() returns (r: Result<nat>)
      requires Valid()
      modifies this
      ensures Valid()
      ensures r.Err? <==> old(currentPage) == maxPages
      ensures r.Err? ==> currentPage == old(currentPage)
      ensures r.Ok? ==> r.value == startAddr + old(currentPage) * PAGE && currentPage == old(currentPage) + 1
      ensures r.Ok? ==> FrameOk(r.value) && r.value !in old(Taken()) && Taken() == old(Taken()) + {r.value}
    {
      if currentPage >= maxPages {
        return Err;
      }
      var addr := startAddr + currentPage * PAGE;
      currentPage := currentPage + 1;
      return Ok(addr);
    }
  }

  datatype PageAlloc = PTV(vec: PageTableVec) | FA(frames: FrameAllocator) {

    ghost function Repr(): (s: set<object>) {
      match this
      case PTV(v) => {v}
      case FA(f) => {f}
    }

    ghost predicate Valid()
      reads Repr()
    {
      match this
      case PTV(v) => v.Valid()
      case FA(f) => f.Valid() && |f.held| > PAGE_CLASS && forall b :: b in f.added ==> b < PA_LIMIT
    }

    // Byte address b may still be handed out.
    ghost predicate Spare(b: nat)
      reads Repr()
    {
      match this
      case PTV(v) => v.startAddr + v.currentPage * PAGE <= b < v.startAddr + v.maxPages * PAGE
      case FA(f) => Covers(f.freeList, b)
    }

    // The vector is used up, or every free list from the page class up is empty.
    ghost predicate Dry()
      reads Repr()
    {
      match this
      case PTV(v) => v.currentPage >= v.maxPages
      case FA(f) => forall k :: PAGE_CLASS <= k < |f.freeList| ==> f.freeList[k] == {}
    }

    // The 4 KiB frames handed out and not given back.
    ghost function Taken(): (s: set<nat>)
      reads Repr()
    {
      match this
      case PTV(v) => v.Taken()
      case FA(f) => if |f.held| > PAGE_CLASS then f.held[PAGE_CLASS] else {}
    }

    // Everything else the allocator accounts for.
    ghost function Books(): (r: (FreeList, set<nat>))
      reads Repr()
    {
      match this
      case PTV(v) => ([], {})
      case FA(f) => (if |f.held| > PAGE_CLASS then f.held[PAGE_CLASS := {}] else [], f.added)
    }

    method AllocatePageTable() returns (r: Result<nat>)
      requires Valid()
      modifies Repr()
      ensures Valid() && Books() == old(Books())
      ensures r.Err? <==> old(Dry())
      ensures r.Err? ==> Dry() && Taken() == old(Taken()) && forall b: nat :: Spare(b) <==> old(Spare(b))
      ensures r.Ok? ==> FrameOk(r.value) && r.value !in old(Taken()) && Taken() == old(Taken()) + {r.value}
      ensures r.Ok? ==> old(Spare(r.value)) && forall b: nat :: Spare(b) ==> old(Spare(b))
    {
      match this
      case PTV(v) =>
        r := v.AllocatePageTable();
      case FA(f) =>
        r := AllocateFrame(f);
    }

    static method AllocateFrame(f: FrameAllocator) returns (r: Result<nat>)
      requires FA(f).Valid()
      modifies f
      ensures FA(f).Valid() && FA(f).Books() == old(FA(f).Books())
      ensures r.Err? <==> old(FA(f).Dry())
      ensures r.Err? ==> f.State() == old(f.State())
      ensures r.Ok? ==> FrameOk(r.value) && r.value !in old(f.held[PAGE_CLASS])
      ensures r.Ok? ==> f.held[PAGE_CLASS] == old(f.held[PAGE_CLASS]) + {r.value}
      ensures r.Ok? ==> Covers(old(f.freeList), r.value)
      ensures forall b: nat :: Covers(f.freeList, b) ==> Covers(old(f.freeList), b)
    {
      hide Inv, Covers, SplitTake, First, FirstClass;
      PageLayout();
      ghost var w := f.State();
      DryIff(w.pool, PAGE_CLASS);
      var a := f.AllocAligned(PAGE, PAGE, PAGE_CLASS);
      if a.None? { return Err; }
      PageTaken(w, a.value);
      assert f.held[PAGE_CLASS := {}] == old(f.held)[PAGE_CLASS := {}];
      return Ok(a.value);
    }

    // Ok and the frame is free again; a PageTableVec never takes a frame back.
    method FreePage(pa: nat) returns (r: Result<()>)
      requires Valid() && (FA? ==> pa in Taken())
      modifies Repr()
      ensures Valid() && Books() == old(Books())
      ensures r.Ok? <==> FA?
      ensures FA? ==> Taken() == old(Taken()) - {pa}
      ensures PTV? ==> Taken() == old(Taken()) && forall b: nat :: Spare(b) <==> old(Spare(b))
    {
      hide Inv, Merge;
      match this
      case PTV(_) => return Err;
      case FA(f) =>
        PageLayout();
        f.DeallocAligned(pa, PAGE, PAGE, PAGE_CLASS);
        assert f.held[PAGE_CLASS := {}] == old(f.held)[PAGE_CLASS := {}];
        return Ok(());
    }
  }

  // PAGE_LAYOUT is size and alignment 4096.
  lemma PageLayout()
    ensures Pow2(PAGE_CLASS) == PAGE && LayoutClass(PAGE, PAGE) == PAGE_CLASS
  {
    assert Pow2(5) == 32;
    assert Pow2(10) == 1024;
    assert Pow2(12) == 4096;
    var n := NextPow2IsLeast(PAGE);
    assert n <= PAGE_CLASS;
    Pow2Monotone(n, PAGE_CLASS);
    TrailingZerosPow2(PAGE_CLASS);
  }

  lemma PageAligned(pa: nat)
    requires Aligned(pa, PAGE_CLASS)
    ensures pa % PAGE == 0
  {
    hide Aligned, Pow2;
    PageLayout();
    var q := AlignedIsMultiple(pa, PAGE_CLASS);
  }

  // Allocation fails exactly if every list from the class up is empty.
  lemma DryIff(p: Pool, c: nat)
    ensures AllocClass(p, c).1.None? <==> forall k :: c <= k < |p.free| ==> p.free[k] == {}
  {
    var i := FirstClass(p.free, c);
  }

  // The page at b is aligned and free as a whole.
  ghost predicate FreePageAt(fl: FreeList, b: nat) {
    b % PAGE == 0 && forall f: nat :: b <= f < b + PAGE ==> Covers(fl, f)
  }

  // On a coalesced pool the frame allocator is dry exactly if no aligned free page is left.
  lemma DryHasNoPage(w: World)
    requires Inv(w) && Coalesced(w.pool.free)
    ensures (forall k :: PAGE_CLASS <= k < |w.pool.free| ==> w.pool.free[k] == {})
       <==> !exists b: nat :: FreePageAt(w.pool.free, b)
  {
    hide Inv, Coalesced, Covers, AllocClass, Pow2, Aligned;
    DryIff(w.pool, PAGE_CLASS);
    AllocComplete(w, PAGE_CLASS);
    PageLayout();
    if b: nat :| FreePageAt(w.pool.free, b) { PageAlignedIff(b); }
    if AllocClass(w.pool, PAGE_CLASS).1.Some? {
      var b: nat :| Aligned(b, PAGE_CLASS) && forall f: nat :: b <= f < b + Pow2(PAGE_CLASS) ==> Covers(w.pool.free, f);
      PageAlignedIff(b);
      assert FreePageAt(w.pool.free, b);
    }
  }

  lemma PageAlignedIff(b: nat)
    ensures Aligned(b, PAGE_CLASS) <==> b % PAGE == 0
  {
    hide Aligned, Pow2;
    if Aligned(b, PAGE_CLASS) { PageAligned(b); }
    if b % PAGE == 0 {
      PageLayout();
      MultipleIsAligned(b / PAGE, PAGE_CLASS);
    }
  }

  // A page frame that the buddy allocator hands out was free, and is held from then on.
  lemma PageTaken(w: World, pa: nat)
    requires Inv(w) && |w.held| > PAGE_CLASS && AllocClass(w.pool, PAGE_CLASS).1 == Some(pa)
    requires forall b :: b in w.added ==> b < PA_LIMIT
    ensures FrameOk(pa) && Covers(w.pool.free, pa) && pa !in w.held[PAGE_CLASS]
    ensures forall b: nat :: Covers(AllocClass(w.pool, PAGE_CLASS).0.free, b) ==> Covers(w.pool.free, b)
  {
    var i := FirstClass(w.pool.free, PAGE_CLASS);
    TakenWasFree(w.pool.free, pa, i, PAGE_CLASS);
    SplitTakeCovers(w.pool.free, pa, i, PAGE_CLASS);
    PageAligned(pa);
    NotHeld(w, pa);
  }

  lemma NotHeld(w: World, pa: nat)
    requires Inv(w) && |w.held| > PAGE_CLASS && Aligned(pa, PAGE_CLASS)
    requires forall f: nat :: InBlock(f, pa, PAGE_CLASS) ==> Covers(w.pool.free, f)
    ensures Covers(w.pool.free, pa) && pa in w.added && pa !in w.held[PAGE_CLASS]
  {
    assert InBlock(pa, pa, PAGE_CLASS);
    assert CoveredAt(w.held, pa, PAGE_CLASS) <==> pa in w.held[PAGE_CLASS];
  }

  // The page class and the rest make up the books.
  lemma HeldBooks(h: FreeList, h': FreeList)
    requires |h| > PAGE_CLASS && |h'| > PAGE_CLASS
    requires h'[PAGE_CLASS := {}] == h[PAGE_CLASS := {}]
    ensures h' == h[PAGE_CLASS := h'[PAGE_CLASS]]
  {
    assert |h'| == |h'[PAGE_CLASS := {}]| == |h|;
    forall k | 0 <= k < |h| ensures h'[k] == h[PAGE_CLASS := h'[PAGE_CLASS]][k] {
      assert k != PAGE_CLASS ==> h'[PAGE_CLASS := {}][k] == h'[k] && h[PAGE_CLASS := {}][k] == h[k];
    }
  }

  // Compared with w, the allocator w' misses exactly the pages `more`: its free frames, its counter
  // and the held blocks differ by them, and are the same if and only if there are none.
  ghost predicate Missing(w: World, w': World, more: set<nat>) {
    && w'.added == w.added && w'.pool.total == w.pool.total
    && w'.pool.used == w.pool.used + |more| * PAGE
    && (forall b: nat :: Covers(w'.pool.free, b) <==> Covers(w.pool.free, b) && b - b % PAGE !in more)
    && (w'.held == w.held <==> more == {})
  }

  lemma PagesKept(w: World, w': World, more: set<nat>)
    requires Inv(w) && Inv(w') && |w.held| > PAGE_CLASS && |w'.held| > PAGE_CLASS
    requires w'.held[PAGE_CLASS := {}] == w.held[PAGE_CLASS := {}] && w'.added == w.added
    requires w'.held[PAGE_CLASS] == w.held[PAGE_CLASS] + more && more !! w.held[PAGE_CLASS]
    ensures Missing(w, w', more)
  {
    hide Inv, Covers, Base, Times, Pow2;
    HeldBooks(w.held, w'.held);
    HeldMore(w, w', PAGE_CLASS, more);
    PageLayout();
    TimesPages(|more|);
    forall b: nat ensures Covers(w'.pool.free, b) <==> Covers(w.pool.free, b) && b - b % PAGE !in more {
      PageBase(b);
    }
  }

  lemma {:induction false} TimesPages(n: nat)
    ensures Times(n, PAGE) == n * PAGE
  {
    if n > 0 { TimesPages(n - 1); }
  }

  lemma PageBase(b: nat)
    ensures Base(b, PAGE_CLASS) == b - b % PAGE
  {
    hide Base, Aligned, Pow2;
    PageLayout();
    MultipleIsAligned(b / PAGE, PAGE_CLASS);
    BaseInterval(b, b - b % PAGE, PAGE_CLASS);
  }
}
