/**
 The frame allocator's operations as functions on its field values, and what holds over
 every run of them. A `World` pairs the allocator with what its callers know: the
 frames they added and the blocks they still hold (per class, like the free lists).
 */
module FramePool {
  import opened Arith
  import opened Powers
  import opened Wrappers
  import opened Buddy

  datatype Pool = Pool(free: FreeList, used: int, total: nat)

  function NoBlocks(order: nat): (fl: FreeList)
    ensures |fl| == order
  {
    seq(order, _ => {})
  }

  // ---- add_frame, mem/src/frame.rs:58-84 ----

  // The class of the next seeded block. Address 0 counts as having lowest bit 32.
  function SeedClass(cur: nat, end: nat, order: nat): (k: nat)
    requires cur < end && order > 0
    ensures k < order
  {
    Min(Min(if cur > 0 then TrailingZeros(cur) else 5, Log2(end - cur)), order - 1)
  }

  lemma SeedClassFits(cur: nat, end: nat, order: nat)
    requires cur < end && order > 0
    ensures Aligned(cur, SeedClass(cur, end, order))
    ensures cur + Pow2(SeedClass(cur, end, order)) <= end
  {
    var k := SeedClass(cur, end, order);
    if cur > 0 { AlignedIffTrailingZeros(cur, k); } else { ZeroAligned(k); }
    Log2Bounds(end - cur);
    Pow2Monotone(k, Log2(end - cur));
  }

  function Seed(fl: FreeList, cur: nat, end: nat): (r: FreeList)
    requires |fl| > 0
    ensures |r| == |fl|
    decreases end - cur
  {
    if cur >= end then fl
    else
      var k := SeedClass(cur, end, |fl|);
      Seed(Insert(fl, cur, k), cur + Pow2(k), end)
  }

  function AddFrame(p: Pool, start: nat, end: nat): (r: Pool)
    requires |p.free| > 0 && start <= end
  {
    Pool(Seed(p.free, start, end), p.used, p.total + (end - start))
  }

  lemma InBlockInterval(f: nat, b: nat, k: nat)
    requires Aligned(b, k)
    ensures InBlock(f, b, k) <==> b <= f < b + Pow2(k)
  {
    BaseInterval(f, b, k);
  }

  // Seeding covers the whole range, without gaps, and nothing else.
  lemma {:induction false} SeedCovers(fl: FreeList, cur: nat, end: nat)
    requires |fl| > 0 && WellFormed(fl) && cur <= end
    requires forall f: nat :: cur <= f < end ==> !Covers(fl, f)
    ensures WellFormed(Seed(fl, cur, end))
    ensures forall f: nat :: Covers(Seed(fl, cur, end), f) <==> Covers(fl, f) || cur <= f < end
    ensures Capacity(Seed(fl, cur, end)) == Capacity(fl) + (end - cur)
    decreases end - cur
  {
    hide SeedClass, WellFormed, Covers, Capacity, InBlock;
    if cur < end {
      var k := SeedClass(cur, end, |fl|);
      SeedClassFits(cur, end, |fl|);
      forall f: nat ensures InBlock(f, cur, k) <==> cur <= f < cur + Pow2(k) {
        InBlockInterval(f, cur, k);
      }
      InsertCovers(fl, cur, k);
      SeedCovers(Insert(fl, cur, k), cur + Pow2(k), end);
    }
  }

  // ---- alloc_power_of_two, mem/src/frame.rs:123-158 ----

  // `set.iter().next()` on a BTreeSet: the least element.
  function First(s: set<nat>): (m: nat)
    requires s != {}
    ensures IsLeast(m, s)
  {
    LeastExists(s);
    var m :| IsLeast(m, s);
    m
  }

  predicate IsLeast(m: nat, s: set<nat>) {
    m in s && forall x :: x in s ==> m <= x
  }

  lemma LeastExists(s: set<nat>)
    requires s != {}
    ensures exists m :: IsLeast(m, s)
  {
    var m := Least(s);
  }

  lemma {:induction false} Least(s: set<nat>) returns (m: nat)
    requires s != {}
    ensures IsLeast(m, s)
    decreases |s|
  {
    m :| m in s;
    var t := s - {m};
    assert forall x :: x in s ==> x == m || x in t;
    if t != {} {
      var n := Least(t);
      m := Min(m, n);
    }
  }

  // The first non-empty class from c upward; |fl| or more if there is none.
  function FirstClass(fl: FreeList, c: nat): (i: nat)
    ensures c <= i
    ensures forall j :: c <= j < i && j < |fl| ==> fl[j] == {}
    ensures i < |fl| ==> fl[i] != {}
    decreases |fl| - c
  {
    if c < |fl| && fl[c] == {} then FirstClass(fl, c + 1) else c
  }

  function AllocClass(p: Pool, c: nat): (r: (Pool, Option<nat>))
  {
    var i := FirstClass(p.free, c);
    if i >= |p.free| then (p, None)
    else
      var b := First(p.free[i]);
      (Pool(SplitTake(p.free, b, i, c), p.used + Pow2(c), p.total), Some(b))
  }

  // ---- dealloc_power_of_two, mem/src/frame.rs:178-200 ----

  function DeallocClass(p: Pool, start: nat, c: nat): (r: Pool)
  {
    Pool(Merge(p.free, start, c), p.used - Pow2(c), p.total)
  }

  // `alloc(count)` rounds the count; `alloc_aligned` takes the larger of size and alignment.
  function CountClass(count: nat): (c: nat) {
    TrailingZeros(NextPow2(count))
  }

  function LayoutClass(size: nat, align: nat): (c: nat)
    requires align > 0
  {
    TrailingZeros(Max(NextPow2(size), align))
  }

  // ---- Worlds and runs ----

  datatype World = World(pool: Pool, added: set<nat>, held: FreeList)

  ghost predicate Inv(w: World) {
    && |w.pool.free| == |w.held| > 0
    && WellFormed(w.pool.free) && WellFormed(w.held)
    && (forall f: nat :: f in w.added <==> Covers(w.pool.free, f) || Covers(w.held, f))
    && (forall f: nat :: !(Covers(w.pool.free, f) && Covers(w.held, f)))
    && w.pool.used == Capacity(w.held)
    && Capacity(w.pool.free) + w.pool.used == w.pool.total == |w.added|
    // The documented bound: at most 2^(MAX_ORDER + 1) - 1 frames in total.
    && |w.added| < Pow2(|w.held|)
  }

  lemma InvSizes(w: World)
    requires Inv(w)
    ensures |w.pool.free| == |w.held| > 0
  {
  }

  datatype Op =
    | OpAdd(start: nat, end: nat)
    | OpAlloc(cls: nat)
    | OpDealloc(start: nat, cls: nat)

  function Interval(start: nat, n: nat): (s: set<nat>)
    ensures |s| == n
    ensures forall f: nat :: f in s <==> start <= f < start + n
  {
    if n == 0 then {} else Interval(start, n - 1) + {start + (n - 1)}
  }

  // What the callers promise: fresh ranges within the bound, and dealloc of held blocks only.
  ghost predicate Legal(w: World, op: Op) {
    match op
    case OpAdd(start, end) =>
      start <= end && (forall f: nat :: start <= f < end ==> f !in w.added)
      && |w.added| + (end - start) < Pow2(|w.held|)
    case OpAlloc(_) => true
    case OpDealloc(start, c) => c < |w.held| && start in w.held[c]
  }

  ghost function Step(w: World, op: Op): (r: World)
    requires |w.pool.free| == |w.held| > 0 && Legal(w, op)
    ensures |r.pool.free| == |r.held| == |w.held|
  {
    match op
    case OpAdd(start, end) =>
      World(AddFrame(w.pool, start, end), w.added + Interval(start, end - start), w.held)
    case OpAlloc(c) =>
      var (p, r) := AllocClass(w.pool, c);
      if r.None? then w.(pool := p)
      else if c < |w.held| then World(p, w.added, Insert(w.held, r.value, c)) else w.(pool := p)
    case OpDealloc(start, c) =>
      World(DeallocClass(w.pool, start, c), w.added, Remove(w.held, start, c))
  }

  lemma AllocInv(w: World, c: nat)
    requires Inv(w)
    ensures Inv(Step(w, OpAlloc(c)))
    ensures AllocClass(w.pool, c).1.Some? ==> c < |w.held|
  {
    var i := FirstClass(w.pool.free, c);
    if i < |w.pool.free| {
      var b := First(w.pool.free[i]);
      SplitTakeCovers(w.pool.free, b, i, c);
      TakenWasFree(w.pool.free, b, i, c);
      InsertCovers(w.held, b, c);
    }
  }

  // Within the bound the merge loop never falls off the top class.
  lemma NoFallOff(w: World, start: nat, c: nat)
    requires Inv(w) && c < |w.held| && start in w.held[c]
    ensures BlockUncovered(w.pool.free, start, c) && !FallsOff(w.pool.free, start, c)
  {
    var fl, n := w.pool.free, |w.held|;
    forall f: nat | InBlock(f, start, c) ensures !Covers(fl, f) && f in w.added {
      assert CoveredAt(w.held, f, c);
    }
    MergeCovers(fl, start, c);
    if FallsOff(fl, start, c) {
      var top := Base(start, n);
      BaseCompose(start, n, n);
      var run := Interval(top, Pow2(n));
      forall f | f in run ensures f in w.added {
        BaseInterval(f, top, n);
      }
      SubsetSize(run, w.added);
      assert false;
    }
  }

  lemma {:induction false} SubsetSize(a: set<nat>, b: set<nat>)
    requires a <= b
    ensures |a| <= |b|
  {
    if a != {} {
      var x :| x in a;
      SubsetSize(a - {x}, b - {x});
    }
  }

  lemma DeallocInv(w: World, start: nat, c: nat)
    requires Inv(w) && Legal(w, OpDealloc(start, c))
    ensures Inv(Step(w, OpDealloc(start, c)))
  {
    NoFallOff(w, start, c);
    MergeCovers(w.pool.free, start, c);
    RemoveCovers(w.held, start, c);
    forall f: nat | InBlock(f, start, c) ensures Covers(w.held, f) {
      assert CoveredAt(w.held, f, c);
    }
  }

  lemma AddInv(w: World, start: nat, end: nat)
    requires Inv(w) && Legal(w, OpAdd(start, end))
    ensures Inv(Step(w, OpAdd(start, end)))
  {
    SeedCovers(w.pool.free, start, end);
    var s := Interval(start, end - start);
    assert w.added !! s;
  }

  lemma AddCovers(w: World, start: nat, end: nat)
    requires Inv(w) && Legal(w, OpAdd(start, end))
    ensures forall f: nat :: Covers(Seed(w.pool.free, start, end), f) <==> Covers(w.pool.free, f) || start <= f < end
  {
    hide Capacity;
    SeedCovers(w.pool.free, start, end);
  }

  ghost predicate LegalRun(w: World, ops: seq<Op>)
    requires |w.pool.free| == |w.held| > 0
    decreases |ops|
  {
    ops == [] || (Legal(w, ops[0]) && LegalRun(Step(w, ops[0]), ops[1..]))
  }

  ghost function Run(w: World, ops: seq<Op>): (r: World)
    requires |w.pool.free| == |w.held| > 0 && LegalRun(w, ops)
    decreases |ops|
  {
    if ops == [] then w else Run(Step(w, ops[0]), ops[1..])
  }

  // A run performs its operations one after the other: its last one on what the others left.
  lemma {:induction false} RunLast(w: World, ops: seq<Op>, op: Op)
    requires |w.pool.free| == |w.held| > 0
    ensures LegalRun(w, ops + [op]) ==>
              && LegalRun(w, ops) && |Run(w, ops).pool.free| == |Run(w, ops).held| > 0 && Legal(Run(w, ops), op)
              && Run(w, ops + [op]) == Step(Run(w, ops), op)
    decreases |ops|
  {
    hide Legal, Step;
    if LegalRun(w, ops + [op]) {
      if ops == [] {
        assert (ops + [op])[1..] == [];
      } else {
        assert (ops + [op])[1..] == ops[1..] + [op];
        StepSizes(w, ops[0]);
        RunLast(Step(w, ops[0]), ops[1..], op);
      }
    }
  }

  lemma StepSizes(w: World, op: Op)
    requires |w.pool.free| == |w.held| > 0 && Legal(w, op)
    ensures |Step(w, op).pool.free| == |Step(w, op).held| > 0
  {
  }

  function Fresh(order: nat): (w: World) {
    World(Pool(NoBlocks(order), 0, 0), {}, NoBlocks(order))
  }

  lemma FreshInv(order: nat)
    requires order > 0
    ensures Inv(Fresh(order))
  {
    NoCapacity(order);
    Pow2Monotone(1, order);
  }

  lemma {:induction false} NoCapacity(order: nat)
    ensures Capacity(NoBlocks(order)) == 0
  {
    if order > 0 {
      NoCapacity(order - 1);
      assert NoBlocks(order)[..order - 1] == NoBlocks(order - 1);
    }
  }

  // Over every run: free blocks and held blocks are size-aligned and pairwise disjoint, they
  // cover exactly the added frames, and the counters agree with them.
  lemma {:induction false} RunKeepsInv(w: World, ops: seq<Op>)
    requires Inv(w) && LegalRun(w, ops)
    ensures Inv(Run(w, ops))
    decreases |ops|
  {
    if ops != [] {
      match ops[0] {
        case OpAdd(start, end) => AddInv(w, start, end);
        case OpAlloc(c) => AllocInv(w, c);
        case OpDealloc(start, c) => DeallocInv(w, start, c);
      }
      RunKeepsInv(Step(w, ops[0]), ops[1..]);
    }
  }

  // Blocks of one class held in addition are missing from the free frames, and nothing else is.
  lemma HeldMore(w: World, w': World, c: nat, more: set<nat>)
    requires Inv(w) && Inv(w') && c < |w.held| && more !! w.held[c]
    requires w'.held == w.held[c := w.held[c] + more] && w'.added == w.added
    ensures w'.pool.used == w.pool.used + Times(|more|, Pow2(c)) && w'.pool.total == w.pool.total
    ensures forall f: nat :: Covers(w'.pool.free, f) <==> Covers(w.pool.free, f) && Base(f, c) !in more
  {
    UsedMore(w.held, c, more);
    hide WellFormed, Capacity, Covers, Base, Times, Pow2;
    forall f: nat ensures Covers(w'.pool.free, f) <==> Covers(w.pool.free, f) && Base(f, c) !in more {
      CoversMore(w.held, c, more, f);
    }
  }

  lemma UsedMore(fl: FreeList, c: nat, more: set<nat>)
    requires c < |fl| && more !! fl[c]
    ensures Capacity(fl[c := fl[c] + more]) == Capacity(fl) + Times(|more|, Pow2(c))
  {
    hide Capacity, Times, Pow2;
    CapacityUpdate(fl, c, fl[c] + more);
    TimesSum(|fl[c]|, |more|, Pow2(c));
  }

  lemma CoversMore(fl: FreeList, c: nat, more: set<nat>, f: nat)
    requires c < |fl|
    ensures Covers(fl[c := fl[c] + more], f) <==> Covers(fl, f) || Base(f, c) in more
  {
    hide Base;
    var gl := fl[c := fl[c] + more];
    assert CoveredAt(gl, f, c) <==> CoveredAt(fl, f, c) || Base(f, c) in more;
    assert forall k :: 0 <= k < |fl| && k != c ==> (CoveredAt(gl, f, k) <==> CoveredAt(fl, f, k));
  }

  lemma {:induction false} TimesSum(a: nat, b: nat, p: nat)
    ensures Times(a + b, p) == Times(a, p) + Times(b, p)
    decreases b
  {
    if b > 0 { TimesSum(a, b - 1, p); }
  }

  // ---- Coalesced pools ----

  lemma AllocKeepsCoalesced(p: Pool, c: nat)
    requires WellFormed(p.free) && Coalesced(p.free)
    ensures Coalesced(AllocClass(p, c).0.free)
  {
    var i := FirstClass(p.free, c);
    if i < |p.free| {
      SplitTakeCoalesced(p.free, First(p.free[i]), i, c);
    }
  }

  // Alloc and dealloc keep a coalesced pool coalesced over every legal run, and so does adding ranges
  // that leave no buddy behind. The search below is then complete throughout.
  lemma {:induction false} RunKeepsCoalesced(w: World, ops: seq<Op>)
    requires Inv(w) && LegalRun(w, ops) && Coalesced(w.pool.free) && AddsFit(w, ops)
    ensures Inv(Run(w, ops)) && Coalesced(Run(w, ops).pool.free)
    decreases |ops|
  {
    hide Inv, Coalesced, AddFits;
    if ops != [] {
      StepKeepsCoalesced(w, ops[0]);
      RunKeepsCoalesced(Step(w, ops[0]), ops[1..]);
    }
  }

  // Seeding does not start at 0 and go past the first block, and no block that the range is cut into
  // has its buddy listed.
  ghost predicate AddFits(fl: FreeList, start: nat, end: nat)
    requires |fl| > 0
  {
    && !(start == 0 && end >= 64 && |fl| >= 7)
    && forall k, b :: 0 <= k < |fl| - 1 && b in Seed(NoBlocks(|fl|), start, end)[k] ==> XorBit(b, k) !in fl[k]
  }

  ghost predicate AddsFit(w: World, ops: seq<Op>)
    requires |w.pool.free| == |w.held| > 0 && LegalRun(w, ops)
    decreases |ops|
  {
    ops != [] ==>
      && (ops[0].OpAdd? ==> AddFits(w.pool.free, ops[0].start, ops[0].end))
      && AddsFit(Step(w, ops[0]), ops[1..])
  }

  lemma StepKeepsCoalesced(w: World, op: Op)
    requires Inv(w) && Legal(w, op) && Coalesced(w.pool.free)
    requires op.OpAdd? ==> AddFits(w.pool.free, op.start, op.end)
    ensures Inv(Step(w, op)) && Coalesced(Step(w, op).pool.free)
  {
    match op
    case OpAdd(start, end) =>
      AddInv(w, start, end);
      AddCoalescedIff(w.pool.free, start, end);
    case OpAlloc(c) =>
      AllocInv(w, c);
      AllocKeepsCoalesced(w.pool, c);
    case OpDealloc(start, c) =>
      DeallocInv(w, start, c);
      MergeCoalesced(w.pool.free, start, c);
  }

  // Adding a range keeps a coalesced pool coalesced if and only if no block of it has its buddy listed.
  lemma AddCoalescedIff(fl: FreeList, start: nat, end: nat)
    requires |fl| > 0 && Coalesced(fl) && start <= end && !(start == 0 && end >= 64 && |fl| >= 7)
    ensures Coalesced(Seed(fl, start, end)) <==> AddFits(fl, start, end)
  {
    hide Seed, XorBit;
    var none, seeds := NoBlocks(|fl|), Seed(NoBlocks(|fl|), start, end);
    BothNone(fl);
    SeedBoth(fl, none, start, end);
    SeedTight(none, start, end);
    TightIsCoalesced(seeds, end);
    if AddFits(fl, start, end) {
      forall k, b | 0 <= k < |fl| - 1 && b in Both(fl, seeds)[k] ensures XorBit(b, k) !in Both(fl, seeds)[k] {
        XorBitFlips(b, k);
      }
    } else {
      var k, b :| 0 <= k < |fl| - 1 && b in seeds[k] && XorBit(b, k) in fl[k];
      assert b in Both(fl, seeds)[k] && XorBit(b, k) in Both(fl, seeds)[k];
    }
  }

  function Both(fl: FreeList, gl: FreeList): (r: FreeList)
    requires |gl| == |fl|
  {
    seq(|fl|, k requires 0 <= k < |fl| => fl[k] + gl[k])
  }

  lemma BothNone(fl: FreeList)
    ensures Both(fl, NoBlocks(|fl|)) == fl
  {
    forall j | 0 <= j < |fl| ensures Both(fl, NoBlocks(|fl|))[j] == fl[j] {
      assert fl[j] + {} == fl[j];
    }
  }

  lemma BothInsert(fl: FreeList, gl: FreeList, b: nat, k: nat)
    requires |gl| == |fl| && k < |fl|
    ensures Insert(Both(fl, gl), b, k) == Both(fl, Insert(gl, b, k))
  {
    assert fl[k] + gl[k] + {b} == fl[k] + (gl[k] + {b});
    forall j | 0 <= j < |fl| ensures Insert(Both(fl, gl), b, k)[j] == Both(fl, Insert(gl, b, k))[j] {
    }
  }

  lemma {:induction false} SeedBoth(fl: FreeList, gl: FreeList, cur: nat, end: nat)
    requires |gl| == |fl| > 0
    ensures Seed(Both(fl, gl), cur, end) == Both(fl, Seed(gl, cur, end))
    decreases end - cur
  {
    hide SeedClass, Pow2;
    if cur < end {
      var k := SeedClass(cur, end, |fl|);
      BothInsert(fl, gl, cur, k);
      SeedBoth(fl, Insert(gl, cur, k), cur + Pow2(k), end);
    }
  }

  // The per-class search is complete: it fails exactly when no aligned run of 2^c frames is free.
  lemma AllocComplete(w: World, c: nat)
    requires Inv(w) && Coalesced(w.pool.free)
    ensures AllocClass(w.pool, c).1.Some? <==>
              exists b: nat :: Aligned(b, c) && forall f: nat :: b <= f < b + Pow2(c) ==> Covers(w.pool.free, f)
  {
    var fl := w.pool.free;
    var i := FirstClass(fl, c);
    if i < |fl| {
      var b := First(fl[i]);
      TakenWasFree(fl, b, i, c);
      forall f: nat | b <= f < b + Pow2(c) ensures Covers(fl, f) { BaseInterval(f, b, c); }
    }
    if b: nat :| Aligned(b, c) && forall f: nat :: b <= f < b + Pow2(c) ==> Covers(fl, f) {
      if c < |fl| {
        forall f: nat | InBlock(f, b, c) ensures Covers(fl, f) { BaseInterval(f, b, c); }
        var k := FreeRunIsListed(fl, b, c);
      } else {
        Pow2Monotone(|fl|, c);
        SubsetSize(Interval(b, Pow2(c)), w.added);
        assert false;
      }
    }
  }

  // Giving a block straight back restores the free frames; on a coalesced pool it restores the
  // whole allocator, list by list.
  lemma AllocThenDealloc(w: World, c: nat)
    requires Inv(w) && AllocClass(w.pool, c).1.Some?
    ensures var (p, r) := AllocClass(w.pool, c);
            var q := DeallocClass(p, r.value, c);
            && (forall f: nat :: Covers(q.free, f) <==> Covers(w.pool.free, f))
            && q.used == w.pool.used && q.total == w.pool.total
            && (Coalesced(w.pool.free) ==> q == w.pool)
  {
    var (p, r) := AllocClass(w.pool, c);
    var q := DeallocClass(p, r.value, c);
    var w1 := Step(w, OpAlloc(c));
    AllocInv(w, c);
    DeallocInv(w1, r.value, c);
    var i := FirstClass(w.pool.free, c);
    SplitTakeCovers(w.pool.free, r.value, i, c);
    TakenWasFree(w.pool.free, r.value, i, c);
    NoFallOff(w1, r.value, c);
    MergeCovers(p.free, r.value, c);
    if Coalesced(w.pool.free) {
      AllocKeepsCoalesced(w.pool, c);
      MergeCoalesced(p.free, r.value, c);
      CoalescedUnique(q.free, w.pool.free);
    }
  }

  // ---- What the caller gets ----

  // Between w and w' exactly the n frames from start on have gone from the free frames to the callers.
  ghost predicate Took(w: World, w': World, start: nat, n: nat) {
    && (forall f: nat :: start <= f < start + n ==> Covers(w.pool.free, f) && Covers(w'.held, f))
    && (forall f: nat :: Covers(w'.pool.free, f) <==> Covers(w.pool.free, f) && !(start <= f < start + n))
    && w'.pool.used == w.pool.used + n && w'.pool.total == w.pool.total && w'.added == w.added
  }

  lemma AllocTakes(w: World, c: nat)
    requires Inv(w) && AllocClass(w.pool, c).1.Some?
    ensures var b := AllocClass(w.pool, c).1.value;
            Took(w, Step(w, OpAlloc(c)), b, Pow2(c)) && b % Pow2(c) == 0
  {
    hide Capacity, Covers, WellFormed, SplitTake, Base, Insert;
    var i, b := FirstClass(w.pool.free, c), AllocClass(w.pool, c).1.value;
    var w' := Step(w, OpAlloc(c));
    AllocInv(w, c);
    SplitTakeCovers(w.pool.free, b, i, c);
    TakenWasFree(w.pool.free, b, i, c);
    var q := AlignedIsMultiple(b, c);
    MultipleMod(q, Pow2(c));
    forall f: nat ensures InBlock(f, b, c) <==> b <= f < b + Pow2(c) { InBlockInterval(f, b, c); }
    forall f: nat | b <= f < b + Pow2(c) ensures Covers(w'.held, f) { InsertCoversAt(w.held, b, c, f); }
  }

  lemma MultipleMod(q: nat, p: nat)
    requires p > 0
    ensures q * p % p == 0
  {
    DivUnique(q * p, p, q, 0);
  }

  // Giving a block back is the reverse of taking it.
  lemma DeallocGives(w: World, start: nat, c: nat)
    requires Inv(w) && Legal(w, OpDealloc(start, c))
    ensures Took(Step(w, OpDealloc(start, c)), w, start, Pow2(c))
  {
    hide Capacity, Covers, Merge, FallsOff, Base, XorBit;
    var fl := w.pool.free;
    NoFallOff(w, start, c);
    MergeCovers(fl, start, c);
    forall f: nat ensures InBlock(f, start, c) <==> start <= f < start + Pow2(c) { InBlockInterval(f, start, c); }
    forall f: nat | start <= f < start + Pow2(c) ensures Covers(w.held, f) { HeldCovers(w.held, start, c, f); }
  }

  lemma HeldCovers(fl: FreeList, b: nat, k: nat, f: nat)
    requires k < |fl| && b in fl[k] && InBlock(f, b, k)
    ensures Covers(fl, f)
  {
    assert CoveredAt(fl, f, k);
  }

  // A count gets the smallest class whose blocks hold it.
  lemma CountClassIs(count: nat)
    ensures Pow2(CountClass(count)) == NextPow2(count) && count <= Pow2(CountClass(count))
    ensures forall j: nat :: count <= Pow2(j) ==> CountClass(count) <= j
  {
    var k := NextPow2IsLeast(count);
  }

  // ---- Freshly seeded allocators ----

  // No listed block leaves room before `end` for its right-hand buddy.
  ghost predicate Tight(fl: FreeList, end: nat) {
    forall k, b :: 0 <= k < |fl| && b in fl[k] ==>
      Aligned(b, k) && b + Pow2(k) <= end
      && (k < |fl| - 1 && Aligned(b, k + 1) ==> end < b + Pow2(k + 1))
  }

  lemma TightIsCoalesced(fl: FreeList, end: nat)
    requires Tight(fl, end)
    ensures Coalesced(fl)
  {
    forall k, b | 0 <= k < |fl| - 1 && b in fl[k] ensures XorBit(b, k) !in fl[k] {
      XorBitIsBuddy(b, k);
    }
  }

  lemma {:induction false} SeedTight(fl: FreeList, cur: nat, end: nat)
    requires |fl| > 0 && Tight(fl, end) && (cur == 0 ==> end < 64 || |fl| < 7)
    ensures Tight(Seed(fl, cur, end), end)
    decreases end - cur
  {
    hide SeedClass, Pow2, Aligned;
    if cur < end {
      var k := SeedClass(cur, end, |fl|);
      SeedClassFits(cur, end, |fl|);
      SeedClassTight(cur, end, |fl|);
      SeedTight(Insert(fl, cur, k), cur + Pow2(k), end);
    }
  }

  lemma SeedClassTight(cur: nat, end: nat, order: nat)
    requires cur < end && order > 0 && (cur == 0 ==> end < 64 || order < 7)
    ensures var k := SeedClass(cur, end, order);
            k < order - 1 && Aligned(cur, k + 1) ==> end < cur + Pow2(k + 1)
  {
    var k := SeedClass(cur, end, order);
    Log2Bounds(end - cur);
    if cur > 0 {
      AlignedIffTrailingZeros(cur, k + 1);
    } else if end < 64 {
      assert Pow2(6) == 64;
      if Log2(end) > 5 { Pow2Monotone(6, Log2(end)); }
    }
  }

  lemma {:induction false} SeedKeeps(fl: FreeList, cur: nat, end: nat, b: nat, k: nat)
    requires |fl| > 0 && k < |fl| && b in fl[k]
    ensures b in Seed(fl, cur, end)[k]
    decreases end - cur
  {
    if cur < end {
      var j := SeedClass(cur, end, |fl|);
      SeedKeeps(Insert(fl, cur, j), cur + Pow2(j), end, b, k);
    }
  }

  // Seeding from 0 over at least 64 frames lists [0, 32) and [32, 64) side by side.
  lemma SeedFromZero(end: nat, order: nat)
    requires end >= 64 && order >= 7
    ensures SeedClass(0, end, order) == 5 && SeedClass(32, end, order) == 5 && Pow2(5) == 32
  {
    assert TrailingZeros(32) == 5;
    Log2Bounds(end);
    if Log2(end) < 5 { Pow2Monotone(Log2(end) + 1, 5); }
    Log2Bounds(end - 32);
    if Log2(end - 32) < 5 { Pow2Monotone(Log2(end - 32) + 1, 5); }
  }

  // A fresh allocator is coalesced unless seeding starts at frame 0, where the code takes 32 for
  // the lowest set bit, and goes past that first block.
  lemma FreshCoalescedIff(order: nat, start: nat, end: nat)
    requires order > 0 && start <= end
    ensures Coalesced(AddFrame(Fresh(order).pool, start, end).free) <==> !(start == 0 && end >= 64 && order >= 7)
  {
    var fl := NoBlocks(order);
    if start == 0 && end >= 64 && order >= 7 {
      SeedFromZero(end, order);
      hide SeedClass;
      var f1 := Insert(fl, 0, 5);
      var f2 := Insert(f1, 32, 5);
      assert Seed(fl, 0, end) == Seed(f1, 32, end);
      assert Seed(f1, 32, end) == Seed(f2, 64, end);
      SeedKeeps(f2, 64, end, 0, 5);
      SeedKeeps(f2, 64, end, 32, 5);
      assert XorBit(0, 5) == 32;
    } else {
      SeedTight(fl, start, end);
      TightIsCoalesced(Seed(fl, start, end), end);
    }
  }

  // ---- Where the promises stop ----

  // Without the bound, dealloc gives the block back exactly when some class from c up does not
  // list the buddy of the block that the merge has reached there.
  lemma DeallocExactIff(fl: FreeList, start: nat, c: nat)
    requires c < |fl| && WellFormed(fl) && Aligned(start, c) && BlockUncovered(fl, start, c)
    ensures (forall f: nat :: Covers(Merge(fl, start, c), f) <==> Covers(fl, f) || InBlock(f, start, c))
       <==> exists k :: c <= k < |fl| && XorBit(Base(start, k), k) !in fl[k]
  {
    MergeCovers(fl, start, c);
    FallsOffIff(fl, start, c);
    assert InBlock(start, start, c) && InBlock(start, Base(start, |fl|), |fl|);
  }

  lemma {:induction false} FallsOffIff(fl: FreeList, ptr: nat, c: nat)
    requires c <= |fl| && Aligned(ptr, c)
    ensures FallsOff(fl, ptr, c) <==> forall k :: c <= k < |fl| ==> XorBit(Base(ptr, k), k) in fl[k]
    decreases |fl| - c
  {
    hide XorBit, Base;
    if c < |fl| {
      XorBitIsBuddy(ptr, c);
      var p := Min(ptr, XorBit(ptr, c));
      FallsOffIff(fl, p, c + 1);
      forall k | c < k < |fl| ensures Base(ptr, k) == Base(p, k) { BaseCompose(ptr, c + 1, k); }
    }
  }

  // With one class and frames {0, 1}, freeing frame 0 finds its buddy free in the top class,
  // removes it, and inserts nothing. Both frames are gone.
  lemma DeallocLosesFrames()
    ensures var p := AddFrame(Fresh(1).pool, 0, 2);
            var (p1, r) := AllocClass(p, 0);
            r == Some(0) && p1.free == [{1}] && DeallocClass(p1, 0, 0).free == [{}]
  {
    var p := AddFrame(Fresh(1).pool, 0, 2);
    var f0, f1: FreeList := NoBlocks(1), [{0}];
    var f2: FreeList := [{0, 1}];
    assert f0[0] + {0} == {0} && f1[0] + {1} == {0, 1};
    assert Insert(f0, 0, 0) == f1 && Insert(f1, 1, 0) == f2;
    assert SeedClass(0, 2, 1) == 0 && SeedClass(1, 2, 1) == 0;
    assert Seed(f0, 0, 2) == Seed(f1, 1, 2);
    assert Seed(f1, 1, 2) == Seed(f2, 2, 2);
    assert p.free == f2 && FirstClass(f2, 0) == 0;
    var g: FreeList := [{1}];
    assert f2[0] - {0} == {1} && g[0] - {1} == {};
    assert Remove(f2, 0, 0) == g;
    assert XorBit(0, 0) == 1 && Remove(g, 1, 0) == [{}];
    assert Merge(g, 0, 0) == Merge(Remove(g, 1, 0), 0, 1);
  }

  // On an allocator seeded over [0, 64) a request for 64 frames fails although they are all free.
  lemma UncoalescedAllocFails()
    ensures var p := AddFrame(Fresh(7).pool, 0, 64);
            AllocClass(p, 6).1 == None && forall f: nat :: f < 64 ==> Covers(p.free, f)
  {
    var fl := NoBlocks(7);
    SeedCovers(fl, 0, 64);
    var f1 := Insert(fl, 0, 5);
    var f2 := Insert(f1, 32, 5);
    SeedFromZero(64, 7);
    assert Seed(fl, 0, 64) == Seed(f1, 32, 64);
    assert Seed(f1, 32, 64) == Seed(f2, 64, 64);
    assert f2[6] == {};
  }

  // Adding a second range next to the first leaves two free buddies: only dealloc merges.
  lemma AddUncoalesces()
    ensures var p := AddFrame(AddFrame(Fresh(3).pool, 4, 6), 6, 8);
            4 in p.free[1] && 6 in p.free[1] && XorBit(4, 1) == 6 && !Coalesced(p.free)
  {
    assert SeedClass(4, 6, 3) == 1 && SeedClass(6, 8, 3) == 1 && Pow2(1) == 2;
    var f1 := Insert(NoBlocks(3), 4, 1);
    var f2 := Insert(f1, 6, 1);
    assert Seed(NoBlocks(3), 4, 6) == Seed(f1, 6, 6) == f1;
    assert Seed(f1, 6, 8) == Seed(f2, 8, 8) == f2;
    assert XorBit(4, 1) == 6;
  }
}
