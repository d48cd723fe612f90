/**
 The free lists of the buddy frame allocator (mem/src/frame.rs) as values: one set of
 block starts per size class, class k holding blocks of 2^k frames. This module gives
 the split, merge and seeding steps and proves what each does to the set of frames
 that the lists cover.
 */
module Buddy {
  import opened Powers

  type FreeList = seq<set<nat>>

  // Frame f belongs to the block that class k lists for it.
  predicate CoveredAt(fl: FreeList, f: nat, k: nat)
    requires k < |fl|
  {
    Base(f, k) in fl[k]
  }

  ghost predicate Covers(fl: FreeList, f: nat) {
    exists k :: 0 <= k < |fl| && CoveredAt(fl, f, k)
  }

  // Every listed block is size-aligned, and no block lies inside a larger listed one.
  ghost predicate WellFormed(fl: FreeList) {
    && (forall k, b :: 0 <= k < |fl| && b in fl[k] ==> Aligned(b, k))
    && (forall j, k, b {:trigger b in fl[j], CoveredAt(fl, b, k)} ::
         0 <= j < k < |fl| && b in fl[j] ==> !CoveredAt(fl, b, k))
  }

  // No two free buddies below the top class (the top class never merges).
  ghost predicate Coalesced(fl: FreeList) {
    forall k, b :: 0 <= k < |fl| - 1 && b in fl[k] ==> XorBit(b, k) !in fl[k]
  }

  // The frames of block (b, k).
  predicate InBlock(f: nat, b: nat, k: nat) {
    Base(f, k) == b
  }

  ghost predicate BlockUncovered(fl: FreeList, b: nat, k: nat) {
    forall f: nat :: InBlock(f, b, k) ==> !Covers(fl, f)
  }

  // A frame is covered by at most one block, and each larger class sees it through that block.
  lemma CoveredOnce(fl: FreeList, f: nat, j: nat, k: nat)
    requires WellFormed(fl) && j < |fl| && k < |fl|
    requires CoveredAt(fl, f, j) && CoveredAt(fl, f, k)
    ensures j == k
  {
    if j < k {
      BaseCompose(f, j, k);
      assert CoveredAt(fl, Base(f, j), k);
    } else if k < j {
      BaseCompose(f, k, j);
      assert CoveredAt(fl, Base(f, k), j);
    }
  }

  // Two listed blocks never share a frame: the interval form of WellFormed.
  lemma BlocksDisjoint(fl: FreeList, b: nat, j: nat, c: nat, k: nat)
    requires WellFormed(fl) && j < |fl| && k < |fl| && b in fl[j] && c in fl[k]
    requires (b, j) != (c, k)
    ensures b + Pow2(j) <= c || c + Pow2(k) <= b
  {
    if b <= c < b + Pow2(j) {
      BaseInterval(c, b, j);
      CoveredOnce(fl, c, j, k);
    } else if c <= b < c + Pow2(k) {
      BaseInterval(b, c, k);
      CoveredOnce(fl, b, j, k);
    }
  }

  // ---- Capacity: the number of frames the lists hold ----

  function Capacity(fl: FreeList): (n: nat)
  {
    if fl == [] then 0
    else Capacity(fl[..|fl| - 1]) + Times(|fl[|fl| - 1]|, Pow2(|fl| - 1))
  }

  // n blocks of p frames.
  function Times(n: nat, p: nat): (r: nat) {
    if n == 0 then 0 else Times(n - 1, p) + p
  }

  lemma {:induction false} CapacityUpdate(fl: FreeList, k: nat, s: set<nat>)
    requires k < |fl|
    ensures Capacity(fl[k := s]) + Times(|fl[k]|, Pow2(k)) == Capacity(fl) + Times(|s|, Pow2(k))
  {
    var n := |fl| - 1;
    if k == n {
      assert fl[k := s][..n] == fl[..n];
    } else {
      CapacityUpdate(fl[..n], k, s);
      assert fl[k := s][..n] == fl[..n][k := s];
    }
  }

  // ---- The two elementary steps ----

  function Insert(fl: FreeList, b: nat, k: nat): (r: FreeList)
    requires k < |fl|
    ensures |r| == |fl|
  {
    fl[k := fl[k] + {b}]
  }

  function Remove(fl: FreeList, b: nat, k: nat): (r: FreeList)
    requires k < |fl|
    ensures |r| == |fl|
  {
    fl[k := fl[k] - {b}]
  }

  lemma InsertCapacity(fl: FreeList, b: nat, k: nat)
    requires k < |fl| && b !in fl[k]
    ensures Capacity(Insert(fl, b, k)) == Capacity(fl) + Pow2(k)
  {
    hide Capacity, Pow2;
    CapacityUpdate(fl, k, fl[k] + {b});
    assert |fl[k] + {b}| == |fl[k]| + 1;
  }

  lemma RemoveCapacity(fl: FreeList, b: nat, k: nat)
    requires k < |fl| && b in fl[k]
    ensures Capacity(fl) == Capacity(Remove(fl, b, k)) + Pow2(k)
  {
    hide Capacity, Pow2;
    CapacityUpdate(fl, k, fl[k] - {b});
    assert |fl[k]| == |fl[k] - {b}| + 1;
  }

  lemma InsertWellFormed(fl: FreeList, b: nat, k: nat)
    requires k < |fl| && WellFormed(fl) && Aligned(b, k) && BlockUncovered(fl, b, k)
    ensures WellFormed(Insert(fl, b, k))
  {
    var r := Insert(fl, b, k);
    assert InBlock(b, b, k);
    forall i, j, c | 0 <= i < j < |r| && c in r[i] ensures !CoveredAt(r, c, j) {
      if c in fl[i] {
        assert CoveredAt(fl, c, i) && !CoveredAt(fl, c, j);
        if j == k && InBlock(c, b, k) { assert false; }
      } else if CoveredAt(fl, b, j) {
        assert false;
      }
    }
  }

  // Listing an uncovered block covers that block and nothing else.
  lemma InsertCovers(fl: FreeList, b: nat, k: nat)
    requires k < |fl| && WellFormed(fl) && Aligned(b, k) && BlockUncovered(fl, b, k)
    ensures WellFormed(Insert(fl, b, k))
    ensures forall f: nat :: Covers(Insert(fl, b, k), f) <==> Covers(fl, f) || InBlock(f, b, k)
    ensures Capacity(Insert(fl, b, k)) == Capacity(fl) + Pow2(k)
  {
    InsertWellFormed(fl, b, k);
    assert InBlock(b, b, k) && (CoveredAt(fl, b, k) <==> b in fl[k]);
    InsertCapacity(fl, b, k);
    forall f: nat ensures Covers(Insert(fl, b, k), f) <==> Covers(fl, f) || InBlock(f, b, k) {
      InsertCoversAt(fl, b, k, f);
    }
  }

  lemma InsertCoversAt(fl: FreeList, b: nat, k: nat, f: nat)
    requires k < |fl|
    ensures Covers(Insert(fl, b, k), f) <==> Covers(fl, f) || InBlock(f, b, k)
  {
    var r := Insert(fl, b, k);
    assert CoveredAt(r, f, k) <==> CoveredAt(fl, f, k) || InBlock(f, b, k);
    assert forall j :: 0 <= j < |fl| && j != k ==> (CoveredAt(r, f, j) <==> CoveredAt(fl, f, j));
  }

  // Unlisting a block uncovers that block and nothing else.
  lemma RemoveCovers(fl: FreeList, b: nat, k: nat)
    requires k < |fl| && WellFormed(fl) && b in fl[k]
    ensures WellFormed(Remove(fl, b, k))
    ensures forall f: nat :: Covers(Remove(fl, b, k), f) <==> Covers(fl, f) && !InBlock(f, b, k)
    ensures Capacity(fl) == Capacity(Remove(fl, b, k)) + Pow2(k)
  {
    var r := Remove(fl, b, k);
    RemoveCapacity(fl, b, k);
    forall f: nat ensures Covers(r, f) <==> Covers(fl, f) && !InBlock(f, b, k) {
      RemoveCoversAt(fl, b, k, f);
    }
    forall i, j, c | 0 <= i < j < |r| && c in r[i] ensures !CoveredAt(r, c, j) {
      assert !CoveredAt(fl, c, j);
    }
  }

  lemma RemoveCoversAt(fl: FreeList, b: nat, k: nat, f: nat)
    requires k < |fl| && WellFormed(fl) && b in fl[k]
    ensures Covers(Remove(fl, b, k), f) <==> Covers(fl, f) && !InBlock(f, b, k)
  {
    var r := Remove(fl, b, k);
    assert CoveredAt(r, f, k) <==> CoveredAt(fl, f, k) && !InBlock(f, b, k);
    assert forall j :: 0 <= j < |fl| && j != k ==> (CoveredAt(r, f, j) <==> CoveredAt(fl, f, j));
    if j :| 0 <= j < |fl| && CoveredAt(r, f, j) && InBlock(f, b, k) {
      CoveredOnce(fl, f, j, k);
    }
  }

  // ---- Splitting, mem/src/frame.rs:129-143 ----

  // Halve block b of class i down to class c, then hand out the left-most piece.
  function SplitTake(fl: FreeList, b: nat, i: nat, c: nat): (r: FreeList)
    requires c <= i < |fl|
    ensures |r| == |fl|
    decreases i
  {
    if i == c then Remove(fl, b, c)
    else SplitTake(SplitOnce(fl, b, i), b, i - 1, c)
  }

  function SplitOnce(fl: FreeList, b: nat, i: nat): (r: FreeList)
    requires 0 < i < |fl|
    ensures |r| == |fl|
  {
    InsertPair(Remove(fl, b, i), b, i - 1)
  }

  function InsertPair(fl: FreeList, b: nat, k: nat): (r: FreeList)
    requires k < |fl|
    ensures |r| == |fl|
  {
    Insert(Insert(fl, b + Pow2(k), k), b, k)
  }

  lemma InHalves(f: nat, b: nat, k: nat)
    requires Aligned(b, k + 1)
    ensures InBlock(f, b, k + 1) <==> InBlock(f, b, k) || InBlock(f, b + Pow2(k), k)
  {
    Halves(b, k);
    BaseStep(f, k);
    BaseCompose(f, k, k + 1);
  }

  // Listing both halves of an uncovered block covers that block.
  lemma InsertHalves(fl: FreeList, b: nat, k: nat)
    requires k < |fl| && WellFormed(fl) && Aligned(b, k + 1) && BlockUncovered(fl, b, k + 1)
    ensures WellFormed(InsertPair(fl, b, k)) && b in InsertPair(fl, b, k)[k]
    ensures forall f: nat :: Covers(InsertPair(fl, b, k), f) <==> Covers(fl, f) || InBlock(f, b, k + 1)
    ensures Capacity(InsertPair(fl, b, k)) == Capacity(fl) + Pow2(k + 1)
  {
    var h := b + Pow2(k);
    Halves(b, k);
    forall f: nat ensures InBlock(f, b, k + 1) <==> InBlock(f, b, k) || InBlock(f, h, k) {
      InHalves(f, b, k);
    }
    InsertCovers(fl, h, k);
    InsertCovers(Insert(fl, h, k), b, k);
  }

  lemma SplitOnceWellFormed(fl: FreeList, b: nat, i: nat)
    requires 0 < i < |fl| && WellFormed(fl) && b in fl[i]
    ensures WellFormed(SplitOnce(fl, b, i))
    ensures Capacity(SplitOnce(fl, b, i)) == Capacity(fl)
  {
    hide Covers, Capacity, Base;
    RemoveCovers(fl, b, i);
    InsertHalves(Remove(fl, b, i), b, i - 1);
  }

  // Splitting a block changes no frame's status.
  lemma SplitOnceCovers(fl: FreeList, b: nat, i: nat)
    requires 0 < i < |fl| && WellFormed(fl) && b in fl[i]
    ensures forall f: nat :: Covers(SplitOnce(fl, b, i), f) <==> Covers(fl, f)
  {
    RemoveCovers(fl, b, i);
    InsertHalves(Remove(fl, b, i), b, i - 1);
    assert forall f: nat :: InBlock(f, b, i) ==> CoveredAt(fl, f, i);
  }

  // Allocation takes exactly one class-c block out of the covered frames.
  lemma {:induction false} SplitTakeCovers(fl: FreeList, b: nat, i: nat, c: nat)
    requires c <= i < |fl| && WellFormed(fl) && b in fl[i]
    ensures WellFormed(SplitTake(fl, b, i, c))
    ensures forall f: nat :: Covers(SplitTake(fl, b, i, c), f) <==> Covers(fl, f) && !InBlock(f, b, c)
    ensures Capacity(fl) == Capacity(SplitTake(fl, b, i, c)) + Pow2(c)
    decreases i
  {
    hide Covers, Capacity, WellFormed, InBlock;
    if i == c {
      RemoveCovers(fl, b, c);
    } else {
      var r := SplitOnce(fl, b, i);
      assert b in r[i - 1];
      SplitOnceWellFormed(fl, b, i);
      SplitOnceCovers(fl, b, i);
      SplitTakeCovers(r, b, i - 1, c);
    }
  }

  // The block handed out was free as a whole, and is aligned to its size.
  lemma TakenWasFree(fl: FreeList, b: nat, i: nat, c: nat)
    requires c <= i < |fl| && WellFormed(fl) && b in fl[i]
    ensures Aligned(b, c)
    ensures forall f: nat :: InBlock(f, b, c) ==> Covers(fl, f)
  {
    AlignedDown(b, c, i);
    forall f: nat | InBlock(f, b, c) ensures Covers(fl, f) {
      BaseCompose(f, c, i);
      assert CoveredAt(fl, f, i);
    }
  }

  // The classes below the first non-empty one are empty, so each split leaves a lone right half.
  lemma {:induction false} SplitTakeCoalesced(fl: FreeList, b: nat, i: nat, c: nat)
    requires c <= i < |fl| && b in fl[i] && Aligned(b, i) && Coalesced(Remove(fl, b, i))
    requires forall j :: c <= j < i ==> fl[j] == {}
    ensures Coalesced(SplitTake(fl, b, i, c))
    decreases i
  {
    if i > c {
      var r := SplitOnce(fl, b, i);
      var h := b + Pow2(i - 1);
      Halves(b, i - 1);
      var r' := Remove(r, b, i - 1);
      assert r'[i - 1] == {h};
      forall k, d | 0 <= k < |r'| - 1 && d in r'[k] ensures XorBit(d, k) !in r'[k] {
        assert k != i - 1 ==> r'[k] == Remove(fl, b, i)[k];
      }
      SplitTakeCoalesced(r, b, i - 1, c);
    }
  }

  // ---- Merging, mem/src/frame.rs:184-197 ----

  function Merge(fl: FreeList, ptr: nat, k: nat): (r: FreeList)
    ensures |r| == |fl|
    decreases |fl| - k
  {
    if k >= |fl| then fl
    else
      var buddy := XorBit(ptr, k);
      if buddy in fl[k] then Merge(Remove(fl, buddy, k), Min(ptr, buddy), k + 1)
      else Insert(fl, ptr, k)
  }

  // The merge loop finds a free buddy in every class up to the top and runs off the end.
  predicate FallsOff(fl: FreeList, ptr: nat, k: nat)
    decreases |fl| - k
  {
    k >= |fl| || (XorBit(ptr, k) in fl[k] && FallsOff(fl, Min(ptr, XorBit(ptr, k)), k + 1))
  }

  lemma {:induction false} FallsOffRemove(fl: FreeList, b: nat, j: nat, ptr: nat, k: nat)
    requires j < |fl| && j < k
    ensures FallsOff(Remove(fl, b, j), ptr, k) == FallsOff(fl, ptr, k)
    decreases |fl| - k
  {
    if k < |fl| {
      FallsOffRemove(fl, b, j, Min(ptr, XorBit(ptr, k)), k + 1);
    }
  }

  // One round of the merge loop: the freed block and its buddy become the uncovered parent.
  lemma MergeStep(fl: FreeList, ptr: nat, k: nat)
    requires k < |fl| && WellFormed(fl) && Aligned(ptr, k) && BlockUncovered(fl, ptr, k)
    requires XorBit(ptr, k) in fl[k]
    ensures var buddy, parent := XorBit(ptr, k), Min(ptr, XorBit(ptr, k));
            var r := Remove(fl, buddy, k);
            && WellFormed(r) && Aligned(parent, k + 1) && BlockUncovered(r, parent, k + 1)
            && (forall f: nat :: Covers(r, f) || InBlock(f, parent, k + 1) <==> Covers(fl, f) || InBlock(f, ptr, k))
            && Capacity(r) + Pow2(k + 1) == Capacity(fl) + Pow2(k)
            && FallsOff(fl, ptr, k) == FallsOff(r, parent, k + 1)
  {
    var buddy, parent := XorBit(ptr, k), Min(ptr, XorBit(ptr, k));
    var r := Remove(fl, buddy, k);
    XorBitIsBuddy(ptr, k);
    RemoveCovers(fl, buddy, k);
    FallsOffRemove(fl, buddy, k, parent, k + 1);
    forall f: nat
      ensures InBlock(f, parent, k + 1) <==> InBlock(f, ptr, k) || InBlock(f, buddy, k)
    {
      BaseStep(f, k);
    }
    forall f: nat | InBlock(f, buddy, k) ensures Covers(fl, f) { assert CoveredAt(fl, f, k); }
  }

  // Freeing adds exactly the freed block to the covered frames, unless the merge falls off the
  // top class; then it loses the freed block and every buddy it swallowed on the way.
  lemma {:induction false} MergeCovers(fl: FreeList, ptr: nat, k: nat)
    requires k <= |fl| && WellFormed(fl) && Aligned(ptr, k) && BlockUncovered(fl, ptr, k)
    ensures WellFormed(Merge(fl, ptr, k))
    ensures !FallsOff(fl, ptr, k) ==>
              && (forall f: nat :: Covers(Merge(fl, ptr, k), f) <==> Covers(fl, f) || InBlock(f, ptr, k))
              && Capacity(Merge(fl, ptr, k)) == Capacity(fl) + Pow2(k)
    ensures FallsOff(fl, ptr, k) ==>
              && (forall f: nat ::
                    Covers(Merge(fl, ptr, k), f) <==> Covers(fl, f) && !InBlock(f, Base(ptr, |fl|), |fl|))
              && (forall f: nat :: InBlock(f, Base(ptr, |fl|), |fl|) ==> Covers(fl, f) || InBlock(f, ptr, k))
    decreases |fl| - k
  {
    hide WellFormed, Covers, Capacity, XorBit, Base;
    if k < |fl| {
      var buddy, parent := XorBit(ptr, k), Min(ptr, XorBit(ptr, k));
      if buddy in fl[k] {
        var r := Remove(fl, buddy, k);
        MergeStep(fl, ptr, k);
        MergeCovers(r, parent, k + 1);
        XorBitIsBuddy(ptr, k);
        BaseCompose(ptr, k + 1, |fl|);
        if FallsOff(fl, ptr, k) {
          MergeLoses(fl, ptr, k, r, parent);
        }
      } else {
        InsertCovers(fl, ptr, k);
      }
    }
  }

  lemma MergeLoses(fl: FreeList, ptr: nat, k: nat, r: FreeList, parent: nat)
    requires k < |fl| == |r| && parent == Base(ptr, k + 1)
    requires Base(parent, |fl|) == Base(ptr, |fl|)
    requires BlockUncovered(fl, ptr, k)
    requires forall f: nat :: Covers(r, f) || InBlock(f, parent, k + 1) <==> Covers(fl, f) || InBlock(f, ptr, k)
    requires forall f: nat :: InBlock(f, parent, k + 1) ==> !Covers(r, f)
    requires forall f: nat :: InBlock(f, Base(ptr, |fl|), |fl|) ==> Covers(r, f) || InBlock(f, parent, k + 1)
    ensures forall f: nat :: Covers(r, f) && !InBlock(f, Base(ptr, |fl|), |fl|)
                        <==> Covers(fl, f) && !InBlock(f, Base(ptr, |fl|), |fl|)
    ensures forall f: nat :: InBlock(f, Base(ptr, |fl|), |fl|) ==> Covers(fl, f) || InBlock(f, ptr, k)
  {
    var n := |fl|;
    var top := Base(ptr, n);
    forall f: nat
      ensures InBlock(f, parent, k + 1) ==> InBlock(f, top, n)
      ensures InBlock(f, ptr, k) ==> InBlock(f, top, n)
    {
      BaseCompose(f, k, n);
      BaseCompose(f, k + 1, n);
    }
  }

  lemma {:induction false} MergeCoalesced(fl: FreeList, ptr: nat, k: nat)
    requires Coalesced(fl) && k <= |fl| && Aligned(ptr, k)
    ensures Coalesced(Merge(fl, ptr, k))
    decreases |fl| - k
  {
    if k < |fl| {
      XorBitIsBuddy(ptr, k);
      var buddy := XorBit(ptr, k);
      if buddy in fl[k] {
        MergeCoalesced(Remove(fl, buddy, k), Min(ptr, buddy), k + 1);
      } else {
        forall j, b | 0 <= j < |fl| - 1 && b in Insert(fl, ptr, k)[j]
          ensures XorBit(b, j) !in Insert(fl, ptr, k)[j]
        {
          if j == k && XorBit(b, j) == ptr { XorBitFlips(b, k); }
        }
      }
    }
  }

  lemma {:induction false} XorBitFlips(b: nat, k: nat)
    ensures XorBit(XorBit(b, k), k) == b
  {
    if k > 0 {
      XorBitFlips(b / 2, k - 1);
      assert XorBit(b, k) / 2 == XorBit(b / 2, k - 1) && XorBit(b, k) % 2 == b % 2;
    }
  }

  // ---- Coalesced lists are canonical ----

  // A fully free aligned block of a coalesced list lies inside one listed block.
  lemma {:induction false} FreeRunIsListed(fl: FreeList, b: nat, c: nat) returns (k: nat)
    requires WellFormed(fl) && Coalesced(fl) && c < |fl| && Aligned(b, c)
    requires forall f: nat :: InBlock(f, b, c) ==> Covers(fl, f)
    ensures c <= k < |fl| && CoveredAt(fl, b, k)
    decreases c
  {
    hide WellFormed, XorBit;
    assert InBlock(b, b, c);
    if c == 0 {
      k :| 0 <= k < |fl| && CoveredAt(fl, b, k);
    } else {
      var h := b + Pow2(c - 1);
      Halves(b, c - 1);
      forall f: nat | InBlock(f, b, c - 1) || InBlock(f, h, c - 1) ensures Covers(fl, f) {
        BaseCompose(f, c - 1, c);
      }
      k := FreeRunIsListed(fl, b, c - 1);
      var k' := FreeRunIsListed(fl, h, c - 1);
      if k < c {
        if k' < c {
          assert false;
        } else {
          BaseCompose(b, c, k');
          BaseCompose(h, c, k');
          k := k';
        }
      }
    }
  }

  // Two coalesced lists that cover the same frames are equal, class by class.
  lemma CoalescedUnique(fl: FreeList, gl: FreeList)
    requires |fl| == |gl| && WellFormed(fl) && WellFormed(gl) && Coalesced(fl) && Coalesced(gl)
    requires forall f: nat :: Covers(fl, f) <==> Covers(gl, f)
    ensures fl == gl
  {
    forall k, b | 0 <= k < |fl| ensures b in fl[k] <==> b in gl[k] {
      if b in fl[k] { ListedInOther(fl, gl, b, k); }
      if b in gl[k] { ListedInOther(gl, fl, b, k); }
    }
    forall k | 0 <= k < |fl| ensures fl[k] == gl[k] {
      assert forall b :: b in fl[k] <==> b in gl[k];
    }
  }

  lemma ListedInOther(fl: FreeList, gl: FreeList, b: nat, k: nat)
    requires |fl| == |gl| && WellFormed(fl) && WellFormed(gl) && Coalesced(fl) && Coalesced(gl)
    requires forall f: nat :: Covers(fl, f) <==> Covers(gl, f)
    requires k < |fl| && b in fl[k]
    ensures b in gl[k]
  {
    forall f: nat | InBlock(f, b, k) ensures Covers(gl, f) { assert CoveredAt(fl, f, k); }
    var j := FreeRunIsListed(gl, b, k);
    var p := Base(b, j);
    BaseCompose(b, j, j);
    forall f: nat | InBlock(f, p, j) ensures Covers(fl, f) { assert CoveredAt(gl, f, j); }
    var i := FreeRunIsListed(fl, p, j);
    BaseCompose(b, j, i);
    CoveredOnce(fl, b, k, i);
  }
}
