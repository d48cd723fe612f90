/**
 The frame allocator object of mem/src/frame.rs: the loops that update its free lists in
 place, each proved to compute the corresponding function of `FramePool`.
 */
module FrameAllocators {
  import opened Powers
  import opened Wrappers
  import opened Buddy
  import opened FramePool

  class FrameAllocator {
    var freeList: FreeList
    var used: int  // the source's `allocated` counter
    var total: nat
    ghost var added: set<nat>  // every frame ever handed to AddFrame
    ghost var held: FreeList  // the blocks callers have not given back yet

    ghost function State(): (w: World)
      reads this
    {
      World(Pool(freeList, used, total), added, held)
    }

    ghost predicate Valid()
      reads this
    {
      Inv(State())
    }

    constructor (order: nat)
      requires order > 0
      ensures Valid() && State() == Fresh(order)
    {
      freeList, used, total := NoBlocks(order), 0, 0;
      added, held := {}, NoBlocks(order);
      FreshInv(order);
    }

    method AddFrame(start: nat, end: nat)
      requires Valid() && Legal(State(), OpAdd(start, end))
      modifies this
      ensures Valid() && State() == Step(old(State()), OpAdd(start, end))
      ensures forall f: nat :: Covers(freeList, f) <==> Covers(old(freeList), f) || start <= f < end
      ensures total == old(total) + (end - start) && used == old(used) && held == old(held)
    {
      assert |freeList| == |held| > 0 && start <= end;
      hide Inv, Legal, Interval, Seed, Covers;
      ghost var next := Step(State(), OpAdd(start, end));
      AddInv(State(), start, end);
      AddCovers(State(), start, end);
      var sum := SeedRange(start, end);
      total := total + sum;
      added := next.added;
    }

    // The seeding loop of add_frame.
    method SeedRange(start: nat, end: nat) returns (sum: nat)
      requires |freeList| > 0 && start <= end
      modifies this`freeList
      ensures sum == end - start && freeList == Seed(old(freeList), start, end)
    {
      sum := 0;
      var cur, order := start, |freeList|;
      while cur < end
        invariant start <= cur <= end && sum == cur - start
        invariant |freeList| == order > 0 && Seed(freeList, cur, end) == Seed(old(freeList), start, end)
      {
        var lowbit := if cur > 0 then LowBit(cur) else 32;
        var size := Min(Min(lowbit, PrevPow2(end - cur)), Pow2(order - 1));
        SeedSize(cur, end, order, size);
        sum := sum + size;
        freeList := Insert(freeList, cur, TrailingZeros(size));
        cur := cur + size;
      }
    }

    method Alloc(count: nat) returns (r: Option<nat>)
      requires Valid()
      modifies this
      ensures Valid() && State() == Step(old(State()), OpAlloc(CountClass(count)))
      ensures r == AllocClass(old(State().pool), CountClass(count)).1
      // The caller gets the least power of two of frames that holds the count, aligned to that size.
      ensures r.Some? ==> Took(old(State()), State(), r.value, NextPow2(count)) && r.value % NextPow2(count) == 0
      ensures r.Some? ==> forall f: nat ::
                r.value <= f < r.value + count ==> Covers(old(freeList), f) && !Covers(freeList, f)
      ensures r.None? ==> State() == old(State())
    {
      hide Inv, Step, Covers, AllocClass;
      var k := NextPow2IsLeast(count);
      r := AllocPowerOfTwo(NextPow2(count), k);
    }

    // `align` is a power of two, as every `Layout` promises.
    method AllocAligned(size: nat, align: nat, ghost a: nat) returns (r: Option<nat>)
      requires Valid() && align == Pow2(a)
      modifies this
      ensures Valid() && State() == Step(old(State()), OpAlloc(LayoutClass(size, align)))
      ensures r == AllocClass(old(State().pool), LayoutClass(size, align)).1
      ensures r.Some? ==> r.value % Max(NextPow2(size), align) == 0
      ensures r.Some? ==> Took(old(State()), State(), r.value, Max(NextPow2(size), align))
      ensures r.None? ==> State() == old(State())
    {
      hide Inv, Step, Covers, AllocClass, Took;
      ghost var k := LayoutPow2(size, align, a);
      r := AllocPowerOfTwo(Max(NextPow2(size), align), k);
    }

    method AllocPowerOfTwo(size: nat, ghost k: nat) returns (r: Option<nat>)
      requires Valid() && size == Pow2(k)
      modifies this
      ensures Valid() && State() == Step(old(State()), OpAlloc(k))
      ensures r == AllocClass(old(State().pool), k).1
      ensures r.Some? ==> Took(old(State()), State(), r.value, size) && r.value % size == 0
      ensures r.None? ==> State() == old(State())
    {
      hide Inv, Took;
      assert |freeList| == |held| > 0 by { InvSizes(State()); }
      AllocInv(State(), k);
      if AllocClass(State().pool, k).1.Some? { AllocTakes(State(), k); }
      TrailingZerosPow2(k);
      r := TakeBlock(TrailingZeros(size));
      if r.Some? {
        used := used + size;
        held := Insert(held, r.value, k);
      }
    }

    // The class search of alloc_power_of_two.
    method TakeBlock(cls: nat) returns (r: Option<nat>)
      modifies this`freeList
      ensures r == AllocClass(Pool(old(freeList), 0, 0), cls).1
      ensures freeList == AllocClass(Pool(old(freeList), 0, 0), cls).0.free
    {
      var i := cls;
      while i < |freeList|
        invariant cls <= i && freeList == old(freeList)
        invariant FirstClass(freeList, cls) == FirstClass(freeList, i)
      {
        if freeList[i] != {} {
          var b := SplitDown(i, cls);
          return Some(b);
        }
        i := i + 1;
      }
      return None;
    }

    // The split loop and the final removal of alloc_power_of_two.
    method SplitDown(i: nat, cls: nat) returns (result: nat)
      requires cls <= i < |freeList| && freeList[i] != {}
      requires forall m :: cls <= m < i ==> freeList[m] == {}
      modifies this`freeList
      ensures result == First(old(freeList[i]))
      ensures freeList == SplitTake(old(freeList), result, i, cls)
    {
      ghost var b := First(freeList[i]);
      var j := i;
      while j > cls
        invariant cls <= j <= i < |freeList| == |old(freeList)|
        invariant freeList[j] != {} && First(freeList[j]) == b
        invariant forall m :: cls <= m < j ==> freeList[m] == {}
        invariant SplitTake(freeList, b, j, cls) == SplitTake(old(freeList), b, i, cls)
      {
        var block := First(freeList[j]);
        ghost var before := freeList;
        freeList := Insert(freeList, block + Pow2(j - 1), j - 1);
        freeList := Insert(freeList, block, j - 1);
        freeList := Remove(freeList, block, j);
        assert freeList == SplitOnce(before, block, j);
        assert freeList[j - 1] == {block, block + Pow2(j - 1)};
        j := j - 1;
      }
      result := First(freeList[cls]);
      freeList := Remove(freeList, result, cls);
    }

    method Dealloc(start: nat, count: nat)
      requires Valid() && Legal(State(), OpDealloc(start, CountClass(count)))
      modifies this
      ensures Valid() && State() == Step(old(State()), OpDealloc(start, CountClass(count)))
      ensures Took(State(), old(State()), start, NextPow2(count))
      ensures forall f: nat :: start <= f < start + count ==> !Covers(old(freeList), f) && Covers(freeList, f)
    {
      hide Inv, Step, Covers;
      var k := NextPow2IsLeast(count);
      DeallocPowerOfTwo(start, NextPow2(count), k);
    }

    method DeallocAligned(start: nat, size: nat, align: nat, ghost a: nat)
      requires Valid() && align == Pow2(a) && Legal(State(), OpDealloc(start, LayoutClass(size, align)))
      modifies this
      ensures Valid() && State() == Step(old(State()), OpDealloc(start, LayoutClass(size, align)))
      ensures Took(State(), old(State()), start, Max(NextPow2(size), align))
    {
      hide Inv, Step, Covers, Took;
      ghost var k := LayoutPow2(size, align, a);
      DeallocPowerOfTwo(start, Max(NextPow2(size), align), k);
    }

    method DeallocPowerOfTwo(start: nat, size: nat, ghost k: nat)
      requires Valid() && size == Pow2(k) && Legal(State(), OpDealloc(start, k))
      modifies this
      ensures Valid() && State() == Step(old(State()), OpDealloc(start, k))
      ensures Took(State(), old(State()), start, size)
    {
      hide Inv, Took;
      assert |freeList| == |held| > 0 by { InvSizes(State()); }
      DeallocInv(State(), start, k);
      DeallocGives(State(), start, k);
      TrailingZerosPow2(k);
      MergeFree(start, TrailingZeros(size));
      used := used - size;
      held := Remove(held, start, k);
    }

    // The merge loop of dealloc_power_of_two.
    method MergeFree(start: nat, cls: nat)
      modifies this`freeList
      ensures freeList == Merge(old(freeList), start, cls)
    {
      var ptr, cur: nat := start, cls;
      while cur < |freeList|
        invariant Merge(freeList, ptr, cur) == Merge(old(freeList), start, cls)
      {
        var buddy := XorBit(ptr, cur);
        if buddy in freeList[cur] {
          freeList := Remove(freeList, buddy, cur);
          ptr := Min(ptr, buddy);
          cur := cur + 1;
        } else {
          freeList := Insert(freeList, ptr, cur);
          break;
        }
      }
    }
  }

  // The size computed by the seeding loop is the power of two of the seed class.
  lemma SeedSize(cur: nat, end: nat, order: nat, size: nat)
    requires cur < end && order > 0
    requires size == Min(Min(if cur > 0 then LowBit(cur) else 32, PrevPow2(end - cur)), Pow2(order - 1))
    ensures size == Pow2(SeedClass(cur, end, order)) && TrailingZeros(size) == SeedClass(cur, end, order)
    ensures cur + size <= end
  {
    var t := if cur > 0 then TrailingZeros(cur) else 5;
    assert Pow2(5) == 32;
    MinPow2(t, Log2(end - cur));
    MinPow2(Min(t, Log2(end - cur)), order - 1);
    TrailingZerosPow2(SeedClass(cur, end, order));
    SeedClassFits(cur, end, order);
  }

  lemma MinPow2(i: nat, j: nat)
    ensures Min(Pow2(i), Pow2(j)) == Pow2(Min(i, j))
    ensures Max(Pow2(i), Pow2(j)) == Pow2(Max(i, j))
  {
    Pow2Monotone(Min(i, j), Max(i, j));
  }

  // The block size of a layout: a power of two that honours both the size and the alignment.
  lemma LayoutPow2(size: nat, align: nat, a: nat) returns (k: nat)
    requires align == Pow2(a)
    ensures Max(NextPow2(size), align) == Pow2(k) && k == LayoutClass(size, align)
    ensures size <= Pow2(k) && a <= k
  {
    var n := NextPow2IsLeast(size);
    MinPow2(n, a);
    k := Max(n, a);
    TrailingZerosPow2(k);
  }
}
