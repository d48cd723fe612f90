/**
 The operations on an address space as steps of a run: when each of them succeeds, what it changes for
 the caller, and what it costs in tables (mmu/src/mmap.rs:223-735).
 */
module MapOps {
  import opened Wrappers
  import opened Sv48
  import opened PageTree
  import opened PageViews
  import opened Ranges
  import opened Obstacles
  import opened CutOffs
  import opened BulkMaps
  import opened Tiling

  // The operations on an address space.
  datatype MapOp =
    | MapOne(c: MappingConfig)
    | MapMany(c: MappingConfig, vend: nat, pend: nat)
    | MapOnto(c: MappingConfig)
    | MapBulk(base: MappingConfig, start: nat, paStart: nat, paEnd: nat)
    | MapIdentity(base: MappingConfig, start: nat, end: nat)
    | Reserve(vaStart: nat, vaEnd: nat)
    | WriteLeaf(va: nat, pa: Option<nat>, perms: nat, rsw: nat)
    | UnmapOne(va: nat, levels: nat)
    | UnmapMany(start: nat, end: nat)

  predicate OpOk(op: MapOp) {
    match op
    case MapOne(c) => ConfigOk(c) && Grants(c)
    case MapMany(c, vend, pend) => ConfigOk(c) && Grants(c) && c.vaddr <= vend && c.paddr <= pend <= PA_LIMIT
    case MapOnto(c) => ConfigOk(c) && Grants(c)
    case MapBulk(base, _, _, paEnd) => Grants(base) && paEnd <= PA_LIMIT
    case MapIdentity(base, _, end) => Grants(base) && end <= PA_LIMIT
    case Reserve(_, vaEnd) => vaEnd < WORD
    case WriteLeaf(_, pa, perms, _) => pa.Some? ==> pa.value < PA_LIMIT && perms / 2 % 8 != 0
    case UnmapOne(_, levels) => 1 <= levels <= 4
    case UnmapMany(_, _) => true
  }

  // The range of the operation meets itself again in the 48 translated bits.
  predicate Wraps(op: MapOp) {
    match op
    case MapBulk(_, _, paStart, paEnd) => paStart <= paEnd && !NoWrap(paEnd - paStart)
    case MapIdentity(_, start, end) => start <= end && !NoWrap(end - start)
    case _ => false
  }

  // On these tables the operation finds a table in the slot of a leaf that it stores.
  predicate Cuts(op: MapOp, mem: Mem, root: nat)
    requires OpOk(op)
  {
    match op
    case MapOnto(c) => TableBelow(mem, root, c.vaddr, 4 - c.levels)
    case MapBulk(_, va, paStart, paEnd) => paStart <= paEnd && SomeTableBelow(mem, root, va, paStart, paEnd - paStart)
    case MapIdentity(_, start, end) => start <= end && SomeTableBelow(mem, root, start, start, end - start)
    case _ => false
  }

  predicate OpsOk(ops: seq<MapOp>) {
    forall i :: 0 <= i < |ops| ==> OpOk(ops[i])
  }

  // ---- What each operation does ----

  // map_address_page: it succeeds exactly on an aligned free page while frames last, and maps it.
  ghost predicate DidMapOne(c: MappingConfig, ok: bool, root: nat, s0: Snapshot, s1: Snapshot)
    requires ConfigOk(c)
  {
    var l := 4 - c.levels;
    && SameElsewhere(s0.mem, s1.mem, root, c.vaddr, l) && LeavesKept(s0.mem, s1.mem, s0.nodes)
    && if ok then
         && OnPage(c) && !Occupied(s0.mem, root, c.vaddr, l) && PageUnmapped(s0.mem, root, c.vaddr, l)
         && MapsPage(s1.mem, root, c.vaddr, Goal(c), l)
       else
         SameEverywhere(s0.mem, s1.mem, root) && (OnPage(c) ==> s1.dry || Occupied(s0.mem, root, c.vaddr, l))
  }

  // map_address_range: the same for every page of a range.
  ghost predicate DidMapMany(c: MappingConfig, vend: nat, pend: nat, ok: bool, root: nat, s0: Snapshot, s1: Snapshot)
    requires ConfigOk(c) && c.paddr <= pend
  {
    var l, len := 4 - c.levels, pend - c.paddr;
    var whole := WholePages(len, c.pageSize);
    && LeavesKept(s0.mem, s1.mem, s0.nodes) && SameOutsideRange(s0.mem, s1.mem, root, c.vaddr, len)
    && if ok then
         && vend - c.vaddr == len && OnPage(c) && whole <= VA_LIMIT && RangeUnmapped(s0.mem, root, c.vaddr, whole)
         && MapsRange(s1.mem, root, c.vaddr, Goal(c), OneSize(l), whole)
       else
         && MapsPart(s0.mem, s1.mem, root, c.vaddr, Goal(c), OneSize(l), len)
         && (vend - c.vaddr == len && OnPage(c) ==>
               s1.dry || whole > VA_LIMIT || SomeOccupied(s0.mem, root, c.vaddr, whole, l))
  }

  // map_page: it maps an aligned page over whatever is there, unless a larger leaf is in the way.
  ghost predicate DidMapOnto(c: MappingConfig, ok: bool, root: nat, s0: Snapshot, s1: Snapshot)
    requires ConfigOk(c)
  {
    var l := 4 - c.levels;
    && SameElsewhere(s0.mem, s1.mem, root, c.vaddr, l)
    && if ok then OnPage(c) && !Stuck(s0.mem, root, c.vaddr, l) && MapsPage(s1.mem, root, c.vaddr, Goal(c), l)
       else SameEverywhere(s0.mem, s1.mem, root) && (OnPage(c) ==> s1.dry || Stuck(s0.mem, root, c.vaddr, l))
  }

  // map_va_range and id_map_range: the same for the chosen leaves of a range. Of a range that meets
  // itself again only the addresses outside are told.
  ghost predicate DidMapBulk(base: MappingConfig, va: nat, pa: nat, end: nat, ok: bool, root: nat,
                             s0: Snapshot, s1: Snapshot) {
    if end < pa then !ok && s1.mem == s0.mem
    else
      var len, to := end - pa, Goal(base.(paddr := pa));
      var aligned := va % PAGE == 0 && pa % PAGE == 0;
      && SameOutsideRange(s0.mem, s1.mem, root, va, Whole(len)) && (ok && len >= PAGE ==> aligned)
      && (NoWrap(len) ==>
            if ok then
              !SomeStuck(s0.mem, root, va, pa, len) && MapsRange(s1.mem, root, va, to, Leaves(va, pa, len), Whole(len))
            else
              && MapsPart(s0.mem, s1.mem, root, va, to, Leaves(va, pa, len), Whole(len))
              && (aligned ==> s1.dry || SomeStuck(s0.mem, root, va, pa, len)))
  }

  // reserve_va_range: exactly the blocks of the strides become reserved in addition, and nothing
  // visible changes.
  ghost predicate DidReserve(start: nat, end: nat, ok: bool, root: nat, s0: Snapshot, s1: Snapshot) {
    var aligned := start % PAGE == 0 && end % PAGE == 0;
    && Quiet(root, s0, s1)
    && if ok then
         && aligned && !SomeStrideStuck(s0.mem, root, start, end)
         && forall x: nat :: Reserved(s1.mem, root, x) <==> Reserved(s0.mem, root, x) || Visited(x, start, end)
       else aligned ==> s1.dry || SomeStrideStuck(s0.mem, root, start, end)
  }

  // write_leaf_pte: it succeeds exactly on a reserved page, and maps or clears it.
  ghost predicate DidWriteLeaf(va: nat, pa: Option<nat>, perms: nat, rsw: nat, ok: bool, root: nat,
                               s0: Snapshot, s1: Snapshot) {
    && (ok <==> Reserved(s0.mem, root, va))
    && (forall x: nat :: Reserved(s1.mem, root, x) <==> Reserved(s0.mem, root, x))
    && if ok then
         && SameElsewhere(s0.mem, s1.mem, root, va, 0)
         && (pa.Some? ==> MapsPage(s1.mem, root, va, Target(FloorPage(pa.value), LeafFlags(perms, rsw)), 0))
         && (pa.None? ==> PageUnmapped(s1.mem, root, va, 0))
       else s1.mem == s0.mem
  }

  // unmap_page: it succeeds exactly on a leaf of the given size, and clears it.
  ghost predicate DidUnmapOne(va: nat, l: Level, ok: bool, root: nat, s0: Snapshot, s1: Snapshot) {
    && (ok <==> LeafAt(s0.mem, root, va, l))
    && SameElsewhere(s0.mem, s1.mem, root, va, l)
    && if ok then PageUnmapped(s1.mem, root, va, l) else s1.mem == s0.mem
  }

  // unmap_range: it succeeds exactly if every page of the range has its own 4 KiB leaf.
  ghost predicate DidUnmapMany(start: nat, end: nat, ok: bool, root: nat, s0: Snapshot, s1: Snapshot) {
    var aligned := start % PAGE == 0 && end % PAGE == 0;
    if end < start then s1.mem == s0.mem && (ok <==> aligned)
    else
      && (ok <==> aligned && end - start <= VA_LIMIT && SmallLeaves(s0.mem, root, start, end - start))
      && if ok then ClearsUpTo(s0.mem, s1.mem, root, start, end - start)
         else ClearsPart(s0.mem, s1.mem, root, start, end - start)
  }

  ghost predicate Did(op: MapOp, ok: bool, root: nat, s0: Snapshot, s1: Snapshot)
    requires OpOk(op)
  {
    match op
    case MapOne(c) => DidMapOne(c, ok, root, s0, s1)
    case MapMany(c, vend, pend) => DidMapMany(c, vend, pend, ok, root, s0, s1)
    case MapOnto(c) => DidMapOnto(c, ok, root, s0, s1)
    case MapBulk(base, va, paStart, paEnd) => DidMapBulk(base, va, paStart, paEnd, ok, root, s0, s1)
    case MapIdentity(base, start, end) => DidMapBulk(base, start, start, end, ok, root, s0, s1)
    case Reserve(start, end) => DidReserve(start, end, ok, root, s0, s1)
    case WriteLeaf(va, pa, perms, rsw) => DidWriteLeaf(va, pa, perms, rsw, ok, root, s0, s1)
    case UnmapOne(va, levels) => DidUnmapOne(va, 4 - levels, ok, root, s0, s1)
    case UnmapMany(start, end) => DidUnmapMany(start, end, ok, root, s0, s1)
  }

  // One step of a run. The operation did what it is for, and the accounts were kept. It cut tables off
  // if it succeeded and found some in its way, and only if it found some.
  ghost predicate Stepped(op: MapOp, ok: bool, root: nat, s0: Snapshot, s1: Snapshot)
    requires OpOk(op)
  {
    && Did(op, ok, root, s0, s1) && Accounted(s0, s1)
    && (!Wraps(op) && !Cuts(op, s0.mem, root) ==> s1.leaked == s0.leaked)
    && (!Wraps(op) && ok && Cuts(op, s0.mem, root) ==> s1.leaked != s0.leaked)
  }

  // ---- Runs ----

  // snaps are the states that the operations of a run went through, one by one.
  ghost predicate IsRun(ops: seq<MapOp>, oks: seq<bool>, root: nat, snaps: seq<Snapshot>)
    requires OpsOk(ops)
  {
    && |oks| == |ops| && |snaps| == |ops| + 1
    && forall i :: 0 <= i < |ops| ==> Stepped(ops[i], oks[i], root, snaps[i], snaps[i + 1])
  }

  ghost predicate CutsAt(ops: seq<MapOp>, snaps: seq<Snapshot>, root: nat, i: nat)
    requires OpsOk(ops) && i < |ops| && i < |snaps|
  {
    Cuts(ops[i], snaps[i].mem, root)
  }

  // What a run did by its n-th state: the frames taken are accounted for, nothing is cut off if no
  // operation found a table in its way, and something is if one that did succeeded.
  lemma {:induction false} RunBooks(ops: seq<MapOp>, oks: seq<bool>, root: nat, snaps: seq<Snapshot>, n: nat)
    requires OpsOk(ops) && IsRun(ops, oks, root, snaps) && n <= |ops|
    ensures Accounted(snaps[0], snaps[n])
    ensures (forall i :: 0 <= i < n ==> !Wraps(ops[i]) && !CutsAt(ops, snaps, root, i)) ==>
              snaps[n].leaked == snaps[0].leaked
    ensures forall i :: 0 <= i < n && oks[i] && !Wraps(ops[i]) && CutsAt(ops, snaps, root, i) ==>
              snaps[n].leaked > snaps[0].leaked
  {
    hide OpOk, Wraps, Cuts, Did;
    if n == 0 {
      NoCost(root, snaps[0], 0, 0, 0);
    } else {
      RunBooks(ops, oks, root, snaps, n - 1);
      assert Stepped(ops[n - 1], oks[n - 1], root, snaps[n - 1], snaps[n]);
      AccountedTrans(snaps[0], snaps[n - 1], snaps[n]);
      assert Cuts(ops[n - 1], snaps[n - 1].mem, root) <==> CutsAt(ops, snaps, root, n - 1);
    }
  }
}
