/**
 What can be in the way of a mapping request, said of the tables as the caller left them: the
 exact reasons for which the operations of mmu/src/mmap.rs return an error.
 */
module Obstacles {
  import opened Arith
  import opened Sv48
  import opened PageTree
  import opened PageViews
  import opened Ranges
  import opened Tiling

  // A leaf larger than a page of level l maps va.
  predicate Stuck(mem: Mem, root: nat, va: nat, l: Level) {
    var m := Lookup(mem, root, va);
    m.Some? && m.value.level > l
  }

  // A table hangs in the slot of the page of level l around va.
  predicate TableBelow(mem: Mem, root: nat, va: nat, l: Level) {
    l > 0 && WalkTo(mem, root, va, l - 1).Some?
  }

  // The page of level l around va is not free: va is mapped, or a table hangs in its slot.
  predicate Occupied(mem: Mem, root: nat, va: nat, l: Level) {
    Lookup(mem, root, va).Some? || TableBelow(mem, root, va, l)
  }

  // Every table added between n0 and n1 is at level l or above.
  ghost predicate NewNodesAbove(n0: Nodes, n1: Nodes, l: nat) {
    forall t :: t in n1 && t !in n0 ==> n1[t].level >= l
  }

  lemma {:induction false} LevelBound(mem: Mem, t: nat, l: Level, va: nat)
    ensures Translate(mem, t, l, va).Some? ==> Translate(mem, t, l, va).value.level <= l
    decreases l
  {
    hide Vpn, IsValid, IsLeaf, PpnField, PpnAddress;
    if l > 0 && IsTableFrame(mem, t) { LevelBound(mem, PpnField(mem[t][Vpn(va, l)]), l - 1, va); }
  }

  lemma LeafSticksAll(mem: Mem, root: nat, nodes: Nodes, t: nat, va: nat)
    requires Tree(mem, root, nodes) && t in nodes && Holds(nodes[t], va)
    requires IsLeaf(mem[t][Vpn(va, nodes[t].level)])
    ensures forall l: Level :: l < nodes[t].level ==> Stuck(mem, root, va, l)
  {
    hide LinkOk, Vpn, IsLeaf, PpnField, PpnAddress;
    LookupAt(mem, root, nodes, t, va);
    assert EntryOk(mem, nodes, t, Vpn(va, nodes[t].level));
  }

  // No walk passes an entry that is no table pointer.
  lemma StopsAll(mem: Mem, root: nat, nodes: Nodes, t: nat, va: nat)
    requires Tree(mem, root, nodes) && t in nodes && Holds(nodes[t], va)
    requires !IsTable(mem[t][Vpn(va, nodes[t].level)])
    ensures forall l: Level :: l < nodes[t].level ==> WalkTo(mem, root, va, l).None?
  {
    hide EntryOk, LinkOk, Vpn, IsValid, IsLeaf, PpnField, PpnAddress;
    WalkFinds(mem, root, nodes, t, va);
    forall l: Level | l < nodes[t].level ensures WalkTo(mem, root, va, l).None? {
      if WalkTo(mem, root, va, l).Some? { WalkPrefix(mem, root, va, l, nodes[t].level); }
    }
  }

  // The walk for a mapped address fails to reach level l exactly if a larger leaf maps it.
  lemma {:induction false} StuckIff(mem: Mem, root: nat, nodes: Nodes, va: nat, l: Level)
    requires Tree(mem, root, nodes)
    ensures Stuck(mem, root, va, l) <==> Lookup(mem, root, va).Some? && WalkTo(mem, root, va, l).None?
    decreases 3 - l
  {
    hide LinkOk, EntryOk, Vpn, IsValid, IsLeaf, PpnField, PpnAddress;
    if WalkTo(mem, root, va, l).Some? {
      LookupVia(mem, root, nodes, va, l);
      LevelBound(mem, WalkTo(mem, root, va, l).value, l, va);
    } else if WalkTo(mem, root, va, l + 1).None? {
      StuckIff(mem, root, nodes, va, l + 1);
    } else {
      WalkSound(mem, root, nodes, va, l + 1);
      LookupVia(mem, root, nodes, va, l + 1);
    }
  }

  // Tables of the tree stay reachable while the tree grows.
  lemma WalkGrows(m0: Mem, m1: Mem, root: nat, n0: Nodes, n1: Nodes, va: nat, l: Level)
    requires Tree(m0, root, n0) && Tree(m1, root, n1) && Grown(n0, n1)
    ensures WalkTo(m0, root, va, l).Some? ==> WalkTo(m1, root, va, l).Some?
    ensures NewNodesAbove(n0, n1, l + 1) && WalkTo(m1, root, va, l).Some? ==> WalkTo(m0, root, va, l).Some?
  {
    hide EntryOk, LinkOk, Holds;
    if WalkTo(m0, root, va, l).Some? {
      WalkSound(m0, root, n0, va, l);
      WalkFinds(m1, root, n1, WalkTo(m0, root, va, l).value, va);
    }
    if WalkTo(m1, root, va, l).Some? && NewNodesAbove(n0, n1, l + 1) {
      WalkSound(m1, root, n1, va, l);
      WalkFinds(m0, root, n0, WalkTo(m1, root, va, l).value, va);
    }
  }

  lemma QuietWalk(root: nat, s0: Snapshot, s1: Snapshot, va: nat, l: Level)
    requires Tree(s0.mem, root, s0.nodes) && Tree(s1.mem, root, s1.nodes) && Quiet(root, s0, s1)
    ensures WalkTo(s1.mem, root, va, l).None? ==> WalkTo(s0.mem, root, va, l).None?
  {
    hide Tree, LeavesKept, Silent, WalkTo, NewNodesAbove, SameEverywhere;
    WalkGrows(s0.mem, s1.mem, root, s0.nodes, s1.nodes, va, l);
  }

  // The slot of a page is valid exactly if the page is occupied.
  lemma SlotOccupied(mem: Mem, root: nat, nodes: Nodes, t: nat, va: nat)
    requires Tree(mem, root, nodes) && t in nodes && Holds(nodes[t], va)
    ensures IsValid(mem[t][Vpn(va, nodes[t].level)]) <==> Occupied(mem, root, va, nodes[t].level)
  {
    hide LinkOk, Vpn, IsValid, IsLeaf, PpnField, PpnAddress;
    var l := nodes[t].level;
    WalkFinds(mem, root, nodes, t, va);
    LookupAt(mem, root, nodes, t, va);
    assert EntryOk(mem, nodes, t, Vpn(va, l));
  }

  // Adding tables at level l or above does not occupy a page of level l, nor free one.
  lemma OccupiedBefore(m0: Mem, m1: Mem, root: nat, n0: Nodes, n1: Nodes, va: nat, l: Level)
    requires Tree(m0, root, n0) && Tree(m1, root, n1) && Grown(n0, n1) && NewNodesAbove(n0, n1, l)
    requires Lookup(m1, root, va) == Lookup(m0, root, va)
    ensures Occupied(m1, root, va, l) <==> Occupied(m0, root, va, l)
  {
    hide Tree, WalkTo, Lookup, Grown, NewNodesAbove;
    if l > 0 { WalkGrows(m0, m1, root, n0, n1, va, l - 1); }
  }

  lemma StuckIsOccupied(mem: Mem, root: nat, va: nat, l: Level)
    requires Stuck(mem, root, va, l)
    ensures Occupied(mem, root, va, l)
  {
  }

  // Once level l has been reached, no leaf was in the way.
  lemma NotStuck(mem: Mem, root: nat, nodes: Nodes, va: nat, t: nat)
    requires Tree(mem, root, nodes) && t in nodes && Holds(nodes[t], va)
    ensures !Stuck(mem, root, va, nodes[t].level)
  {
    hide Tree, Translate;
    LookupAt(mem, root, nodes, t, va);
    LevelBound(mem, t, nodes[t].level, va);
  }

  // While only tables are added, the same addresses are stuck.
  lemma StuckSame(root: nat, s0: Snapshot, s1: Snapshot, va: nat, l: Level)
    requires Quiet(root, s0, s1)
    ensures Stuck(s1.mem, root, va, l) <==> Stuck(s0.mem, root, va, l)
  {
    hide TookNewNodes, LeavesKept, Silent, Lookup;
    assert Lookup(s1.mem, root, va) == Lookup(s0.mem, root, va);
  }

  lemma QuietOccupied(root: nat, s0: Snapshot, s1: Snapshot, va: nat, l: Level)
    requires Tree(s0.mem, root, s0.nodes) && Tree(s1.mem, root, s1.nodes) && Quiet(root, s0, s1)
    requires NewNodesAbove(s0.nodes, s1.nodes, l)
    ensures Occupied(s1.mem, root, va, l) <==> Occupied(s0.mem, root, va, l)
  {
    hide Tree, Occupied, NewNodesAbove, LeavesKept, Silent;
    OccupiedBefore(s0.mem, s1.mem, root, s0.nodes, s1.nodes, va, l);
  }

  lemma NoneNew(n: Nodes, l: nat)
    ensures NewNodesAbove(n, n, l)
  {
  }

  lemma NoneHold(n: Nodes, va: nat)
    ensures NewNodesHold(n, n, va)
  {
  }

  lemma NewLower(n0: Nodes, n1: Nodes, k: nat, l: nat)
    requires NewNodesAbove(n0, n1, k) && l <= k
    ensures NewNodesAbove(n0, n1, l)
  {
  }

  lemma NewAbove(s0: Snapshot, s1: Snapshot, s2: Snapshot, l: nat)
    requires NewNodesAbove(s0.nodes, s1.nodes, l) && NewNodesAbove(s1.nodes, s2.nodes, l)
    requires TookNewNodes(s0, s1) && TookNewNodes(s1, s2)
    ensures NewNodesAbove(s0.nodes, s2.nodes, l)
  {
  }

  lemma QuietNew(root: nat, s0: Snapshot, s1: Snapshot, s2: Snapshot, va: nat, l: nat)
    requires Quiet(root, s0, s1) && Quiet(root, s1, s2)
    requires NewNodesHold(s0.nodes, s1.nodes, va) && NewNodesHold(s1.nodes, s2.nodes, va)
    requires NewNodesAbove(s0.nodes, s1.nodes, l + 1) && NewNodesAbove(s1.nodes, s2.nodes, l)
    ensures NewNodesHold(s0.nodes, s2.nodes, va) && NewNodesAbove(s0.nodes, s2.nodes, l)
  {
    hide SameEverywhere, LeavesKept, Silent, Holds;
  }

  // ---- Ranges ----

  // The page at offset `done` has not been touched yet, so what is mapped there was mapped before.
  lemma NextUntouched(m0: Mem, m: Mem, root: nat, va: nat, done: nat, len: nat)
    requires SameOutsideRange(m0, m, root, va, done) && done < len <= VA_LIMIT
    ensures Lookup(m, root, va + done) == Lookup(m0, root, va + done)
    ensures Lookup(m0, root, va + done).Some? ==> !RangeUnmapped(m0, root, va, len)
  {
    OffsetInRange(va, done);
    assert InRange(va + done, va, len) && !InRange(va + done, va, done);
  }

  lemma FewPages(len: nat, size: nat)
    requires size > 0
    ensures len < 2 * size ==> len / size <= 1
    ensures len / size == 0 <==> len < size
  {
    if len < size { DivUnique(len, size, 0, len); } else if len < 2 * size { DivUnique(len, size, 1, len - size); }
    if len / size == 0 { assert len == len / size * size + len % size; }
  }

  // After i of the needed pages of one size, `done` bytes of the len are mapped.
  predicate Progress(i: nat, done: nat, needed: nat, len: nat, size: nat) {
    done == i * size && i <= needed && needed * size <= len
  }

  lemma ProgressStep(i: nat, done: nat, needed: nat, len: nat, size: nat)
    requires Progress(i, done, needed, len, size) && i < needed
    ensures done + size <= len && Progress(i + 1, done + size, needed, len, size)
  {
    MulLe(i + 1, needed, size);
  }

  // The range so far ends at a page boundary, so there is room for one more page of it below 2^48.
  lemma ProgressRoom(i: nat, done: nat, needed: nat, total: nat, len: nat, l: Level)
    requires Progress(i, done, needed, len, Span(l)) && i < needed && Progress(needed, total, needed, len, Span(l))
    requires done <= VA_LIMIT
    ensures done < total && (done < VA_LIMIT ==> done + Span(l) <= VA_LIMIT)
    ensures done == VA_LIMIT ==> i > 1
  {
    var s := Span(l);
    ProgressStep(i, done, needed, len, s);
    MulLe(i + 1, needed, s);
    if done < VA_LIMIT {
      SpanDivides(l);
      var q := VA_LIMIT / s;
      assert VA_LIMIT == q * s;
      if q <= i { MulLe(q, i, s); }
      MulLe(i + 1, q, s);
    }
    if done == VA_LIMIT && i <= 1 { MulLe(i, 1, s); }
  }

  // A range that has come round to its first page finds it mapped.
  lemma AliasMapped(mem: Mem, root: nat, va: nat, to: Target, p: Plan, l: Level)
    requires MapsRange(mem, root, va, to, p, VA_LIMIT)
    ensures !PageUnmapped(mem, root, va + VA_LIMIT, l)
  {
    hide Lookup;
    LookupAlias(mem, root, va);
    assert MapsByte(mem, root, va, to, p, 0);
    assert SamePage(va + VA_LIMIT, va + VA_LIMIT, l);
  }

  // After clearing all of the 48-bit space there is no leaf left.
  lemma NoLeafLeft(mem: Mem, root: nat, nodes: Nodes, va: nat)
    requires Tree(mem, root, nodes) && RangeUnmapped(mem, root, va, VA_LIMIT)
    ensures !LeafAt(mem, root, va + VA_LIMIT, 0)
  {
    hide Tree, Lookup, LeafAt;
    LeafAtIff(mem, root, nodes, va + VA_LIMIT);
    assert InRange(va + VA_LIMIT, va, VA_LIMIT);
  }

  predicate OccupiedAt(mem: Mem, root: nat, va: nat, o: nat, l: Level) {
    Occupied(mem, root, va + o, l)
  }

  ghost predicate SomeOccupied(mem: Mem, root: nat, va: nat, len: nat, l: Level) {
    exists o :: 0 <= o < len && OccupiedAt(mem, root, va, o, l)
  }

  // The pages of a range up to `done` are in place and the next one is occupied: so it was before.
  lemma RangeBlocked(root: nat, s0: Snapshot, s1: Snapshot, va: nat, done: nat, len: nat, l: Level)
    requires Tree(s0.mem, root, s0.nodes) && Tree(s1.mem, root, s1.nodes) && TookNewNodes(s0, s1)
    requires NewNodesAbove(s0.nodes, s1.nodes, l) && SameOutsideRange(s0.mem, s1.mem, root, va, done)
    requires done < len && done < VA_LIMIT
    ensures Occupied(s1.mem, root, va + done, l) ==> SomeOccupied(s0.mem, root, va, len, l)
  {
    hide Tree, SameOutsideRange, NewNodesAbove, Occupied, Lookup;
    NextUntouched(s0.mem, s1.mem, root, va, done, done + 1);
    OccupiedBefore(s0.mem, s1.mem, root, s0.nodes, s1.nodes, va + done, l);
    assert OccupiedAt(s0.mem, root, va, done, l) <==> Occupied(s0.mem, root, va + done, l);
  }

  predicate StrideStuck(mem: Mem, root: nat, start: nat, j: nat) {
    Stuck(mem, root, start + j * Span(1), 0)
  }

  // One of the strides of a reservation meets a large leaf.
  ghost predicate SomeStrideStuck(mem: Mem, root: nat, start: nat, end: nat) {
    exists j: nat :: start + j * Span(1) < end && StrideStuck(mem, root, start, j)
  }

  // The first k strides of a reservation are done: none was stuck, and their blocks are reserved.
  ghost predicate Strode(m0: Mem, m: Mem, root: nat, start: nat, end: nat, k: nat) {
    && (forall j: nat :: j < k ==> start + j * Span(1) < end && !StrideStuck(m0, root, start, j))
    && (forall x: nat :: Reserved(m, root, x) <==> Reserved(m0, root, x) || VisitedBefore(x, start, k))
  }

  lemma StrodeStart(m: Mem, root: nat, start: nat, end: nat)
    ensures Strode(m, m, root, start, end, 0)
  {
  }

  lemma StrodeStep(m0: Mem, m1: Mem, m2: Mem, root: nat, n1: Nodes, n2: Nodes, start: nat, end: nat, k: nat, t: nat)
    requires Tree(m1, root, n1) && Tree(m2, root, n2) && Grown(n1, n2)
    requires var va := start + k * Span(1);
             && va < end && !Stuck(m0, root, va, 0)
             && NewNodesHold(n1, n2, va) && t in n2 && n2[t].level == 0 && Holds(n2[t], va)
    requires Strode(m0, m1, root, start, end, k)
    ensures Strode(m0, m2, root, start, end, k + 1)
  {
    hide Tree, Reserved, VisitedBefore, NewNodesHold, Grown, Stuck;
    ReservedNext(m0, m1, m2, root, n1, n2, start, k, t);
    assert !StrideStuck(m0, root, start, k);
  }

  lemma StrodeEnd(m0: Mem, m: Mem, root: nat, start: nat, end: nat, k: nat)
    requires Strode(m0, m, root, start, end, k) && start + k * Span(1) >= end
    ensures forall x: nat :: Reserved(m, root, x) <==> Reserved(m0, root, x) || Visited(x, start, end)
    ensures !SomeStrideStuck(m0, root, start, end)
  {
    hide Reserved, VisitedAt, StrideStuck;
    VisitedDone(start, end, k);
    assert forall j: nat :: start + j * Span(1) < end ==> j < k;
  }

  lemma OneStrideStuck(mem: Mem, root: nat, start: nat, end: nat, k: nat)
    requires start + k * Span(1) < end
    ensures Stuck(mem, root, start + k * Span(1), 0) ==> SomeStrideStuck(mem, root, start, end)
  {
    assert StrideStuck(mem, root, start, k) <==> Stuck(mem, root, start + k * Span(1), 0);
  }

  predicate SmallLeafAt(mem: Mem, root: nat, va: nat, o: nat) {
    LeafAt(mem, root, va + o, 0)
  }

  // Every page of the range has a 4 KiB leaf.
  ghost predicate SmallLeaves(mem: Mem, root: nat, va: nat, len: nat) {
    forall o :: 0 <= o < len && o % PAGE == 0 ==> SmallLeafAt(mem, root, va, o)
  }

  // A page has a 4 KiB leaf if its leaf table exists and it is mapped.
  lemma LeafAtIff(mem: Mem, root: nat, nodes: Nodes, va: nat)
    requires Tree(mem, root, nodes)
    ensures LeafAt(mem, root, va, 0) <==> Reserved(mem, root, va) && Lookup(mem, root, va).Some?
  {
    hide LinkOk, EntryOk, Vpn, IsValid, IsLeaf, PpnField, PpnAddress;
    if Reserved(mem, root, va) {
      WalkSound(mem, root, nodes, va, 0);
      LookupVia(mem, root, nodes, va, 0);
    }
  }

  // The next page of a range has its leaf exactly if it had it before the range was cleared up to it.
  lemma NextLeaf(m0: Mem, m: Mem, root: nat, nodes: Nodes, va: nat, done: nat)
    requires Tree(m0, root, nodes) && Tree(m, root, nodes) && SameOutsideRange(m0, m, root, va, done) && done < VA_LIMIT
    ensures LeafAt(m, root, va + done, 0) <==> SmallLeafAt(m0, root, va, done)
  {
    hide Tree, Reserved, LeafAt;
    LeafAtIff(m0, root, nodes, va + done);
    LeafAtIff(m, root, nodes, va + done);
    ReservedSame(m0, m, root, nodes, va + done);
    NextUntouched(m0, m, root, va, done, done + 1);
  }
}
