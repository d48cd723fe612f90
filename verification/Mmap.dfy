/**
 The page-table operations of mmu/src/mmap.rs on one address space. Physical memory is a
 field that the stores update in place; ghost fields record the tables of the tree, the
 tables a bulk mapping has cut off, and the memory after every single store, which is what a
 page-table walker on another hart may observe.
 */
module Mmap {
  import opened Wrappers
  import opened Sv48
  import opened PageTree
  import opened PageViews
  import opened PageAllocs
  import opened Ranges
  import opened Obstacles
  import opened CutOffs
  import opened Ungranted
  import opened BulkMaps
  import opened MapOps
  import opened Tiling
  import opened Buddy
  import opened FramePool
  import opened FrameAllocators

  datatype WalkStep = WalkStep(level: Level, idx: nat, raw: nat)

  // The step records the entry that the walk for va meets at its level.
  predicate OnWalk(mem: Mem, root: nat, va: nat, s: WalkStep) {
    var t := WalkTo(mem, root, va, s.level);
    t.Some? && IsTableFrame(mem, t.value) && s.idx == Vpn(va, s.level) && s.raw == mem[t.value][s.idx]
  }

  // What virt_to_phys makes of the last entry of a walk.
  function Terminal(s: WalkStep, va: nat): (r: Option<Mapped>) {
    if !IsValid(s.raw) || !IsLeaf(s.raw) then None
    else Some(Mapped(PpnAddress(s.raw) + va % Span(s.level), Flags(s.raw), s.level))
  }

  // What a page source still has out after giving s back; a PageTableVec takes nothing back.
  ghost function Less(pages: PageAlloc, taken: set<nat>, s: set<nat>): (r: set<nat>) {
    if pages.FA? then taken - s else taken
  }

  lemma LessStep(pages: PageAlloc, taken: set<nat>, s: set<nat>, s': set<nat>)
    requires s !! s' && s + s' <= taken
    ensures s' <= Less(pages, taken, s) && Less(pages, Less(pages, taken, s), s') == Less(pages, taken, s + s')
    ensures Less(pages, taken, {}) == taken
  {
  }

  lemma TerminalIs(mem: Mem, t: nat, l: Level, va: nat)
    requires IsTableFrame(mem, t) && !IsTable(mem[t][Vpn(va, l)])
    ensures Terminal(WalkStep(l, Vpn(va, l), mem[t][Vpn(va, l)]), va) == Translate(mem, t, l, va)
  {
  }

  // One step down the chain: the entry is recorded as the walk meets it, and a pointer leads to the
  // table that spans va one level down.
  lemma ChainStep(mem: Mem, root: nat, nodes: Nodes, t: nat, va: nat)
    requires Tree(mem, root, nodes) && t in nodes && Holds(nodes[t], va)
    ensures IsTableFrame(mem, t)
    ensures var l, i := nodes[t].level, Vpn(va, nodes[t].level);
            && OnWalk(mem, root, va, WalkStep(l, i, mem[t][i]))
            && (IsTable(mem[t][i]) ==>
                  var c := PpnField(mem[t][i]);
                  && l > 0 && c in nodes && nodes[c].level == l - 1 && Holds(nodes[c], va)
                  && Translate(mem, t, l, va) == Translate(mem, c, l - 1, va))
  {
    hide LinkOk, NodeOk, FrameOk, Vpn, IsValid, IsLeaf, PpnField, PpnAddress, WalkTo;
    WalkFinds(mem, root, nodes, t, va);
    assert EntryOk(mem, nodes, t, Vpn(va, nodes[t].level));
    HoldsSlot(nodes[t], va);
  }

  class AddressSpace {
    const root: nat
    var mem: Mem
    ghost var nodes: Nodes
    ghost var leaked: set<nat>
    ghost var hist: seq<Mem>

    constructor (mem: Mem, root: nat)
      requires Ram(mem) && FrameOk(root) && Zeroed(mem, root)
      ensures this.root == root && this.mem == mem && nodes == map[root := Node(3, 0, root)]
      ensures leaked == {} && hist == [] && Tree(mem, root, nodes)
    {
      this.root, this.mem, nodes, leaked, hist := root, mem, map[root := Node(3, 0, root)], {}, [];
    }

    ghost predicate Valid(pages: PageAlloc)
      reads this, pages.Repr()
    {
      Tree(mem, root, nodes) && Backed(pages)
    }

    // The tables come from the page source, and the root will not be handed out.
    ghost predicate Backed(pages: PageAlloc)
      reads this, pages.Repr()
    {
      pages.Valid() && !pages.Spare(root) && Backs(root, Snap(pages))
    }

    ghost function Snap(pages: PageAlloc): (s: Snapshot)
      reads this, pages.Repr()
    {
      Snapshot(mem, nodes, hist, leaked, pages.Taken(), pages.Books(), pages.Dry())
    }

    method SetRaw(t: nat, i: nat, e: nat)
      requires IsTableFrame(mem, t) && i < ENTRIES
      modifies this`mem, this`hist
      ensures mem == Store(old(mem), t, i, e) && hist == old(hist) + [mem]
    {
      mem := Store(mem, t, i, e);
      hist := hist + [mem];
    }

    // Zero a frame that is not part of the tree, one entry at a time.
    method ZeroTable(pa: nat)
      requires Tree(mem, root, nodes) && FrameOk(pa) && pa !in nodes
      modifies this`mem, this`hist
      ensures Tree(mem, root, nodes) && Zeroed(mem, pa) && Agree(old(mem), mem, nodes)
      ensures Silent(root, old(mem), nodes, old(hist), hist)
    {
      var i := 0;
      while i < ENTRIES
        invariant i <= ENTRIES && Ram(mem) && Agree(old(mem), mem, nodes)
        invariant IsTableFrame(mem, pa) && forall j :: 0 <= j < i ==> mem[pa][j] == 0
        invariant Silent(root, old(mem), nodes, old(hist), hist)
      {
        StoreRam(mem, pa, i, 0);
        SetRaw(pa, i, 0);
        AgreeSame(old(mem), mem, root, nodes);
        i := i + 1;
      }
      AgreeTree(old(mem), mem, root, nodes);
    }

    // Zero a fresh frame and hang it under an invalid entry.
    method LinkFresh(t: nat, i: nat, pa: nat)
      requires Tree(mem, root, nodes) && t in nodes && i < ENTRIES && nodes[t].level > 0
      requires !IsValid(mem[t][i]) && FrameOk(pa) && pa !in nodes
      modifies this`mem, this`hist, this`nodes
      ensures Tree(mem, root, nodes) && nodes == Linked(old(nodes), t, i, pa)
      ensures SameEverywhere(old(mem), mem, root) && LeavesKept(old(mem), mem, old(nodes))
      ensures Silent(root, old(mem), old(nodes), old(hist), hist)
    {
      ZeroTable(pa);
      LinkEffect(old(mem), mem, root, nodes, t, i, pa);
      SetRaw(t, i, PackTable(pa / PAGE));
      nodes := Linked(nodes, t, i, pa);
    }

    // Take a frame from the page source; it is none of ours.
    method TakeFrame(pages: PageAlloc) returns (r: Result<nat>)
      requires Backed(pages)
      modifies pages.Repr()
      ensures Backed(pages) && pages.Books() == old(pages.Books())
      ensures r.Err? <==> old(pages.Dry())
      ensures r.Err? ==> pages.Dry() && pages.Taken() == old(pages.Taken())
      ensures r.Ok? ==> FrameOk(r.value) && r.value !in nodes && r.value !in leaked
      ensures r.Ok? ==> r.value !in old(pages.Taken()) && pages.Taken() == old(pages.Taken()) + {r.value}
    {
      r := pages.AllocatePageTable();
    }

    // Materialise the missing table below entry (t, i).
    method LinkNext(pages: PageAlloc, t: nat, i: nat) returns (r: Result<nat>)
      requires Valid(pages) && t in nodes && i < ENTRIES && nodes[t].level > 0 && !IsValid(mem[t][i])
      modifies this`mem, this`hist, this`nodes, pages.Repr()
      ensures Valid(pages) && Quiet(root, old(Snap(pages)), Snap(pages))
      ensures r.Ok? ==> r.value in nodes && nodes == Linked(old(nodes), t, i, r.value)
      ensures r.Err? ==> pages.Dry() && nodes == old(nodes)
    {
      hide PageAlloc.Valid, PageAlloc.Dry, Tree, IsTableFrame, LeavesKept, SameEverywhere, Quiet, FrameOk, IsValid;
      hide Silent, Linked, PageAlloc.Taken, PageAlloc.Books, PageAlloc.Spare;
      r := TakeFrame(pages);
      QuietRefl(root, old(Snap(pages)));
      if r.Ok? {
        LinkFresh(t, i, r.value);
        LinkedQuiet(root, old(Snap(pages)), Snap(pages), t, i, r.value);
      }
    }

    // One round of the loop of walk_to_table_materialize.
    method StepDown(pages: PageAlloc, va: nat, table: nat, lvl: Level) returns (r: Result<nat>)
      requires Valid(pages) && table in nodes && nodes[table].level == lvl > 0 && Holds(nodes[table], va)
      modifies this`mem, this`hist, this`nodes, pages.Repr()
      ensures Valid(pages) && Quiet(root, old(Snap(pages)), Snap(pages))
      ensures r.Ok? ==> r.value in nodes && nodes[r.value].level == lvl - 1 && Holds(nodes[r.value], va)
      ensures r.Err? ==> pages.Dry() || forall l: Level :: l < lvl ==> Stuck(old(mem), root, va, l)
      ensures r.Err? ==> forall l: Level :: l < lvl ==> WalkTo(old(mem), root, va, l).None?
      ensures NewNodesHold(old(nodes), nodes, va) && NewNodesAbove(old(nodes), nodes, lvl - 1)
    {
      hide PageAlloc.Dry, PageAlloc.Valid, Stuck, LinkOk, NodeOk, Vpn;
      var idx := Vpn(va, lvl);
      var pte := mem[table][idx];
      HoldsSlot(nodes[table], va);
      assert EntryOk(mem, nodes, table, idx);
      if !IsTable(pte) { StopsAll(mem, root, nodes, table, va); }
      hide WalkTo;
      if IsLeaf(pte) {
        QuietRefl(root, Snap(pages));
        LeafSticksAll(mem, root, nodes, table, va);
        return Err;
      }
      if !IsValid(pte) {
        r := LinkNext(pages, table, idx);
      } else {
        PpnAgree(pte);
        r := Ok(PpnAddress(pte));
      }
    }

    // walk_to_table_materialize.
    method WalkMaterialize(pages: PageAlloc, va: nat, target: Level) returns (r: Result<nat>)
      requires Valid(pages)
      modifies this`mem, this`hist, this`nodes, pages.Repr()
      ensures Valid(pages) && Quiet(root, old(Snap(pages)), Snap(pages))
      ensures r.Ok? ==> r.value in nodes && nodes[r.value].level == target && Holds(nodes[r.value], va)
      ensures NewNodesHold(old(nodes), nodes, va) && NewNodesAbove(old(nodes), nodes, target)
      // It fails only for want of a frame, or on a leaf that is in the way.
      ensures if r.Ok? then !Stuck(old(mem), root, va, target) else pages.Dry() || Stuck(old(mem), root, va, target)
      ensures r.Err? ==> WalkTo(old(mem), root, va, target).None?
    {
      var table, lvl: Level := root, 3;
      RootHolds(mem, root, nodes, va);
      assert root in nodes && nodes[root].level == 3;
      hide PageAlloc.Dry, PageAlloc.Valid, Stuck, Tree, Holds, NewNodesHold, NewNodesAbove, Quiet, WalkTo;
      QuietRefl(root, Snap(pages));
      NoneNew(nodes, 3);
      NoneHold(nodes, va);
      while lvl > target
        invariant target <= lvl && Valid(pages) && Quiet(root, old(Snap(pages)), Snap(pages))
        invariant table in nodes && nodes[table].level == lvl && Holds(nodes[table], va)
        invariant NewNodesHold(old(nodes), nodes, va) && NewNodesAbove(old(nodes), nodes, lvl)
      {
        ghost var before := Snap(pages);
        r := StepDown(pages, va, table, lvl);
        QuietTrans(root, old(Snap(pages)), before, Snap(pages));
        QuietNew(root, old(Snap(pages)), before, Snap(pages), va, lvl - 1);
        if r.Err? {
          NewLower(old(nodes), nodes, lvl - 1, target);
          QuietWalk(root, old(Snap(pages)), before, va, target);
          StuckSame(root, old(Snap(pages)), before, va, target);
          return;
        }
        table, lvl := r.value, lvl - 1;
      }
      NotStuck(mem, root, nodes, va, table);
      StuckSame(root, old(Snap(pages)), Snap(pages), va, target);
      return Ok(table);
    }

    // Install the entry of a mapping request, unless its slot is already valid.
    method PutFresh(t: nat, c: MappingConfig, l: Level) returns (r: Result<()>)
      requires Tree(mem, root, nodes) && ConfigOk(c) && OnPage(c) && l == 4 - c.levels
      requires t in nodes && nodes[t].level == l && Holds(nodes[t], c.vaddr)
      modifies this`mem, this`hist
      ensures r.Err? <==> Occupied(old(mem), root, c.vaddr, l)
      ensures r.Err? ==> mem == old(mem) && hist == old(hist)
      ensures r.Ok? ==> hist == old(hist) + [mem]
      ensures r.Ok? ==> PageUnmapped(old(mem), root, c.vaddr, l)
      ensures r.Ok? ==> SameElsewhere(old(mem), mem, root, c.vaddr, l) && LeavesKept(old(mem), mem, nodes)
      ensures r.Ok? && Grants(c) ==> MapsPage(mem, root, c.vaddr, Goal(c), l) && LeafAt(mem, root, c.vaddr, l)
      ensures r.Ok? ==> (Tree(mem, root, nodes) <==> Grants(c))
      ensures r.Ok? && !Grants(c) && l > 0 ==> WalkTo(mem, root, c.vaddr, l - 1) == Some(c.paddr)
    {
      hide Tree, LeafEntry, Vpn, Occupied, LeafAt, WalkTo, Holds, PageUnmapped, SameElsewhere, LeavesKept, MapsPage;
      SlotOccupied(mem, root, nodes, t, c.vaddr);
      TableIn(mem, root, nodes, t);
      if IsValid(mem[t][Vpn(c.vaddr, l)]) { return Err; }
      PageSeesEntry(mem, root, nodes, t, c.vaddr);
      FreshStore(mem, root, nodes, t, c);
      SetRaw(t, Vpn(c.vaddr, l), LeafEntry(c));
      return Ok(());
    }

    // map_address_page.
    method MapAddressPage(pages: PageAlloc, c: MappingConfig) returns (r: Result<()>)
      requires Valid(pages) && ConfigOk(c)
      modifies this`mem, this`hist, this`nodes, pages.Repr()
      ensures Backed(pages) && TookNewNodes(old(Snap(pages)), Snap(pages))
      // At every store: other pages translate as before and no valid leaf is overwritten.
      ensures SilentOutside(root, old(mem), old(nodes), old(hist), hist, c.vaddr, 4 - c.levels)
      ensures SameElsewhere(old(mem), mem, root, c.vaddr, 4 - c.levels) && LeavesKept(old(mem), mem, old(nodes))
      ensures r.Ok? ==> PageUnmapped(old(mem), root, c.vaddr, 4 - c.levels)
      ensures r.Ok? && Grants(c) ==> MapsPage(mem, root, c.vaddr, Goal(c), 4 - c.levels)
      ensures r.Ok? && Grants(c) ==> LeafAt(mem, root, c.vaddr, 4 - c.levels)
      ensures r.Err? ==> SameEverywhere(old(mem), mem, root)
      // It succeeds exactly on an aligned free page, as long as there are frames for the tables.
      ensures !OnPage(c) ==> r.Err? && hist == old(hist)
      ensures r.Ok? ==> OnPage(c) && !Occupied(old(mem), root, c.vaddr, 4 - c.levels)
      ensures r.Err? && OnPage(c) ==> pages.Dry() || Occupied(old(mem), root, c.vaddr, 4 - c.levels)
      ensures NewNodesAbove(old(nodes), nodes, 4 - c.levels)
      // It keeps the tree if and only if it fails or grants something. Otherwise the frame has become
      // a table: above the leaf level a walk finds it.
      ensures Tree(mem, root, nodes) <==> r.Err? || Grants(c)
      ensures r.Ok? && !Grants(c) && c.levels < 4 ==> WalkTo(mem, root, c.vaddr, 3 - c.levels) == Some(c.paddr)
    {
      hide Tree, PageAlloc.Valid, PageAlloc.Dry, NewNodesAbove, Occupied, WalkTo, LeafAt, TookNewNodes, LeavesKept;
      hide SameEverywhere, SameElsewhere, Silent, SilentOutside, MapsPage, PageUnmapped, Grants, Backs;
      ghost var s0 := Snap(pages);
      NoneNew(nodes, 4 - c.levels);
      QuietRefl(root, s0);
      QuietIsSilentOutside(root, s0, s0, c.vaddr, 4 - c.levels);
      if c.paddr % c.pageSize != 0 || c.vaddr % c.pageSize != 0 { return Err; }
      r := MapAligned(pages, c);
    }

    // The walk and the store of map_address_page.
    method MapAligned(pages: PageAlloc, c: MappingConfig) returns (r: Result<()>)
      requires Valid(pages) && ConfigOk(c) && OnPage(c)
      modifies this`mem, this`hist, this`nodes, pages.Repr()
      ensures Backed(pages) && TookNewNodes(old(Snap(pages)), Snap(pages))
      ensures SilentOutside(root, old(mem), old(nodes), old(hist), hist, c.vaddr, 4 - c.levels)
      ensures SameElsewhere(old(mem), mem, root, c.vaddr, 4 - c.levels) && LeavesKept(old(mem), mem, old(nodes))
      ensures r.Ok? ==> PageUnmapped(old(mem), root, c.vaddr, 4 - c.levels)
      ensures r.Ok? && Grants(c) ==> MapsPage(mem, root, c.vaddr, Goal(c), 4 - c.levels)
      ensures r.Ok? && Grants(c) ==> LeafAt(mem, root, c.vaddr, 4 - c.levels)
      ensures r.Err? ==> SameEverywhere(old(mem), mem, root)
      ensures r.Ok? ==> !Occupied(old(mem), root, c.vaddr, 4 - c.levels)
      ensures r.Err? ==> pages.Dry() || Occupied(old(mem), root, c.vaddr, 4 - c.levels)
      ensures NewNodesAbove(old(nodes), nodes, 4 - c.levels)
      ensures Tree(mem, root, nodes) <==> r.Err? || Grants(c)
      ensures r.Ok? && !Grants(c) && c.levels < 4 ==> WalkTo(mem, root, c.vaddr, 3 - c.levels) == Some(c.paddr)
    {
      hide Tree, PageAlloc.Valid, PageAlloc.Dry, Grown, Holds, NewNodesAbove, NewNodesHold;
      hide Occupied, Stuck, WalkTo, LeafAt;
      hide LeavesKept, SameEverywhere, SameElsewhere, SilentOutside, Silent, MapsPage, PageUnmapped, Grants, Backs;
      ghost var s0 := Snap(pages);
      var target: Level := 4 - c.levels;
      var w := WalkMaterialize(pages, c.vaddr, target);
      ghost var s1 := Snap(pages);
      QuietIsSilentOutside(root, s0, s1, c.vaddr, target);
      if w.Err? {
        if Stuck(s0.mem, root, c.vaddr, target) { StuckIsOccupied(s0.mem, root, c.vaddr, target); }
        return Err;
      }
      QuietOccupied(root, s0, s1, c.vaddr, target);
      r := PutFresh(w.value, c, target);
      assert Backs(root, Snap(pages)) by { BacksSame(root, s1, Snap(pages)); }
      if r.Err? { return; }
      UnmappedBefore(s0.mem, s1.mem, root, c.vaddr, target);
      QuietThenStore(root, s0, s1, mem, c.vaddr, target);
    }

    // Install the leaf of a mapping request over whatever the slot holds; a subtree that hangs
    // there is cut off, its frames stay taken.
    method PutAnyway(t: nat, c: MappingConfig, l: Level)
      requires Tree(mem, root, nodes) && ConfigOk(c) && Grants(c) && OnPage(c) && l == 4 - c.levels
      requires t in nodes && nodes[t].level == l && Holds(nodes[t], c.vaddr)
      modifies this`mem, this`hist, this`nodes, this`leaked
      ensures Tree(mem, root, nodes) && hist == old(hist) + [mem]
      ensures root in nodes && nodes == Without(old(nodes), CutOff(old(nodes), c.vaddr, l))
      ensures leaked == old(leaked) + CutOff(old(nodes), c.vaddr, l)
      ensures MapsPage(mem, root, c.vaddr, Goal(c), l) && SameElsewhere(old(mem), mem, root, c.vaddr, l)
    {
      hide EntryOk, LinkOk, NodeOk, LeafEntry, Vpn;
      LeafEntryFields(c);
      PutOver(mem, root, nodes, t, c.vaddr, LeafEntry(c));
      PrunedIsCutOff(mem, root, nodes, t, c.vaddr);
      SetRaw(t, Vpn(c.vaddr, l), LeafEntry(c));
      leaked := leaked + CutOff(nodes, c.vaddr, l);
      nodes := Pruned(nodes, nodes[t], Vpn(c.vaddr, l));
    }

    // map_page.
    method MapPage(pages: PageAlloc, c: MappingConfig) returns (r: Result<()>)
      requires Valid(pages) && ConfigOk(c) && Grants(c)
      modifies this`mem, this`hist, this`nodes, this`leaked, pages.Repr()
      ensures Valid(pages)
      ensures SameElsewhere(old(mem), mem, root, c.vaddr, 4 - c.levels)
      ensures r.Ok? ==> MapsPage(mem, root, c.vaddr, Goal(c), 4 - c.levels)
      ensures r.Err? ==> SameEverywhere(old(mem), mem, root)
      ensures !OnPage(c) ==> r.Err? && hist == old(hist)
      ensures r.Ok? ==> OnPage(c) && !Stuck(old(mem), root, c.vaddr, 4 - c.levels)
      ensures r.Err? && OnPage(c) ==>
                && WalkTo(old(mem), root, c.vaddr, 4 - c.levels).None?
                && (pages.Dry() || Stuck(old(mem), root, c.vaddr, 4 - c.levels))
      // Every frame taken is accounted for. The tables inside the page are cut off, none exactly if
      // no table hung in its slot.
      ensures r.Err? ==> TookNewNodes(old(Snap(pages)), Snap(pages))
      ensures r.Ok? ==> Remapped(old(Snap(pages)), Snap(pages), c.vaddr, 4 - c.levels)
      ensures r.Ok? ==> (leaked == old(leaked) <==> !TableBelow(old(mem), root, c.vaddr, 4 - c.levels))
    {
      hide Tree, PageAlloc.Valid, PageAlloc.Dry, Stuck, TableBelow, WalkTo, Remapped, TookNewNodes, LeavesKept;
      hide SameEverywhere, SameElsewhere, Silent, SilentOutside, MapsPage;
      ghost var s0 := Snap(pages);
      QuietRefl(root, s0);
      QuietIsSilentOutside(root, s0, s0, c.vaddr, 4 - c.levels);
      if c.paddr % c.pageSize != 0 || c.vaddr % c.pageSize != 0 { return Err; }
      r := MapOver(pages, c);
    }

    // The walk and the store of map_page.
    method MapOver(pages: PageAlloc, c: MappingConfig) returns (r: Result<()>)
      requires Valid(pages) && ConfigOk(c) && Grants(c) && OnPage(c)
      modifies this`mem, this`hist, this`nodes, this`leaked, pages.Repr()
      ensures Valid(pages)
      ensures SameElsewhere(old(mem), mem, root, c.vaddr, 4 - c.levels)
      ensures r.Ok? ==> MapsPage(mem, root, c.vaddr, Goal(c), 4 - c.levels)
      ensures r.Err? ==> SameEverywhere(old(mem), mem, root)
      ensures r.Ok? ==> !Stuck(old(mem), root, c.vaddr, 4 - c.levels)
      ensures r.Err? ==> WalkTo(old(mem), root, c.vaddr, 4 - c.levels).None?
      ensures r.Err? ==> pages.Dry() || Stuck(old(mem), root, c.vaddr, 4 - c.levels)
      ensures r.Err? ==> TookNewNodes(old(Snap(pages)), Snap(pages))
      ensures r.Ok? ==> Remapped(old(Snap(pages)), Snap(pages), c.vaddr, 4 - c.levels)
      ensures r.Ok? ==> (leaked == old(leaked) <==> !TableBelow(old(mem), root, c.vaddr, 4 - c.levels))
    {
      hide Tree, PageAlloc.Valid, PageAlloc.Dry, Holds, NewNodesAbove, NewNodesHold, Stuck, TableBelow, WalkTo;
      hide LeavesKept, SameEverywhere, SameElsewhere, SilentOutside, Silent, MapsPage, PageUnmapped, CutOff, Remapped;
      hide TookNewNodes, OnPage, Grown, Without, Backs;
      ghost var s0 := Snap(pages);
      var target: Level := 4 - c.levels;
      var w := WalkMaterialize(pages, c.vaddr, target);
      ghost var s1 := Snap(pages);
      QuietIsSilentOutside(root, s0, s1, c.vaddr, target);
      if w.Err? { return Err; }
      PutAnyway(w.value, c, target);
      SameTrans(s0.mem, s1.mem, mem, root, c.vaddr, target);
      RemapNodes(root, s0, s1, Snap(pages), c.vaddr, target);
      StillBacked(root, s1, Snap(pages), c.vaddr, target);
      r := Ok(());
    }

    // One round of the loop of map_va_range: the page at offset `done` of the range.
    method MapNext(pages: PageAlloc, base: MappingConfig, va: nat, pa: nat, done: nat, l: Level) returns (r: Result<()>)
      requires Valid(pages) && Grants(base) && pa + done + Span(l) <= PA_LIMIT
      modifies this`mem, this`hist, this`nodes, this`leaked, pages.Repr()
      ensures Valid(pages)
      ensures r.Ok? ==> (va + done) % Span(l) == 0 && (pa + done) % Span(l) == 0
      ensures r.Ok? ==> Remapped(old(Snap(pages)), Snap(pages), va + done, l)
      ensures r.Err? ==> TookNewNodes(old(Snap(pages)), Snap(pages))
      ensures (va + done) % Span(l) == 0 ==> SameElsewhere(old(mem), mem, root, va + done, l)
      ensures r.Ok? ==> MapsPage(mem, root, va + done, Plus(Goal(base.(paddr := pa)), done), l)
      ensures r.Err? ==> SameEverywhere(old(mem), mem, root)
      ensures r.Err? && (va + done) % Span(l) == 0 && (pa + done) % Span(l) == 0 ==>
                pages.Dry() || Stuck(old(mem), root, va + done, l)
      ensures r.Ok? ==> !Stuck(old(mem), root, va + done, l)
    {
      hide Stuck;
      hide Tree, PageAlloc.Valid, PageAlloc.Dry, SameEverywhere, SameElsewhere, MapsPage, Remapped, TookNewNodes;
      var c := MappingConfig(base.permissions, 4 - l, Span(l), va + done, pa + done, base.tag);
      r := MapPage(pages, c);
    }

    // map_va_range.
    method MapVaRange(pages: PageAlloc, base: MappingConfig, va: nat, paStart: nat, paEnd: nat)
      returns (r: Result<IdMapReport>)
      requires Valid(pages) && Grants(base) && paEnd <= PA_LIMIT
      modifies this`mem, this`hist, this`nodes, this`leaked, pages.Repr()
      ensures Valid(pages)
      ensures paEnd < paStart ==> r.Err? && mem == old(mem) && leaked == old(leaked)
      ensures paStart <= paEnd ==> SameOutsideRange(old(mem), mem, root, va, Whole(paEnd - paStart))
      // The report counts the leaves of each size, and each byte is mapped by the leaf it falls into.
      ensures r.Ok? ==> paStart <= paEnd
      ensures r.Ok? ==>
                var leaves := multiset(Tiles(va, paStart, paEnd - paStart));
                r.value == IdMapReport(leaves[2], leaves[1], leaves[0])
      ensures r.Ok? && NoWrap(paEnd - paStart) ==>
                MapsRange(mem, root, va, Goal(base.(paddr := paStart)), Leaves(va, paStart, paEnd - paStart),
                          Whole(paEnd - paStart))
      ensures r.Err? && paStart <= paEnd && NoWrap(paEnd - paStart) ==>
                MapsPart(old(mem), mem, root, va, Goal(base.(paddr := paStart)), Leaves(va, paStart, paEnd - paStart),
                         Whole(paEnd - paStart))
      // A misaligned page always fails. An aligned request fails only for want of a frame, or if a
      // chosen leaf lies under a larger one.
      ensures paEnd - paStart >= PAGE && (va % PAGE != 0 || paStart % PAGE != 0) ==> r.Err?
      ensures r.Err? && paStart <= paEnd && NoWrap(paEnd - paStart) && va % PAGE == 0 && paStart % PAGE == 0 ==>
                pages.Dry() || SomeStuck(old(mem), root, va, paStart, paEnd - paStart)
      ensures r.Ok? && NoWrap(paEnd - paStart) ==> !SomeStuck(old(mem), root, va, paStart, paEnd - paStart)
      ensures Accounted(old(Snap(pages)), Snap(pages))
      ensures paStart <= paEnd ==> RangeCost(root, old(Snap(pages)), Snap(pages), va, paStart, paEnd - paStart, r.Ok?)
    {
      hide Tree, PageAlloc.Valid, PageAlloc.Dry, Lookup, PickLevel, Tally, Tiles, Whole, Remapped, TookNewNodes, Backs;
      hide SameEverywhere, SameElsewhere, SameOutsideRange, MapsPage, MapsRange, Underway, RangeCost, Accounted;
      hide SomeStuck, Stuck, MapsPart, Leaves;
      ghost var s0, to := Snap(pages), Goal(base.(paddr := paStart));
      NoCost(root, s0, va, paStart, 0);
      if paEnd < paStart { return Err; }
      var report, done: nat, rem: nat := NO_PAGES, 0, paEnd - paStart;
      UnderwayStart(root, s0, va, to, rem);
      while rem >= PAGE
        invariant done + rem == paEnd - paStart && Valid(pages)
        invariant Underway(root, s0, Snap(pages), va, to, done, rem, report)
      {
        ghost var s1 := Snap(pages);
        var l := PickLevel(va + done, paStart + done, rem);
        var p := MapNext(pages, base, va, paStart, done, l);
        if p.Err? {
          UnderwayErr(root, s0, s1, Snap(pages), va, to, done, rem, report);
          return Err;
        }
        UnderwayStep(root, s0, s1, Snap(pages), va, to, done, rem, report, l);
        report := Bump(report, l);
        done := done + Span(l);
        rem := rem - Span(l);
      }
      UnderwayEnd(root, s0, Snap(pages), va, to, done, rem, report);
      return Ok(report);
    }

    // The choice of id_map_range, by the one address.
    static method PickOne(addr: nat, rem: nat) returns (l: Level)
      ensures l == PickLevel(addr, addr, rem)
    {
      if rem >= Span(2) && addr % Span(2) == 0 { return 2; }
      if rem >= Span(1) && addr % Span(1) == 0 { return 1; }
      return 0;
    }

    // id_map_range: the same loop, picking by the one address.
    method IdMapRange(pages: PageAlloc, base: MappingConfig, start: nat, end: nat) returns (r: Result<IdMapReport>)
      requires Valid(pages) && Grants(base) && end <= PA_LIMIT
      modifies this`mem, this`hist, this`nodes, this`leaked, pages.Repr()
      ensures Valid(pages)
      ensures end < start ==> r.Err? && mem == old(mem) && leaked == old(leaked)
      ensures start <= end ==> SameOutsideRange(old(mem), mem, root, start, Whole(end - start))
      ensures r.Ok? ==> start <= end
      ensures r.Ok? ==>
                var leaves := multiset(Tiles(start, start, end - start));
                r.value == IdMapReport(leaves[2], leaves[1], leaves[0])
      ensures r.Ok? && NoWrap(end - start) ==>
                MapsRange(mem, root, start, Goal(base.(paddr := start)), Leaves(start, start, end - start),
                          Whole(end - start))
      ensures r.Err? && start <= end && NoWrap(end - start) ==>
                MapsPart(old(mem), mem, root, start, Goal(base.(paddr := start)), Leaves(start, start, end - start),
                         Whole(end - start))
      ensures end - start >= PAGE && start % PAGE != 0 ==> r.Err?
      ensures r.Err? && start <= end && NoWrap(end - start) && start % PAGE == 0 ==>
                pages.Dry() || SomeStuck(old(mem), root, start, start, end - start)
      ensures r.Ok? && NoWrap(end - start) ==> !SomeStuck(old(mem), root, start, start, end - start)
      ensures Accounted(old(Snap(pages)), Snap(pages))
      ensures start <= end ==> RangeCost(root, old(Snap(pages)), Snap(pages), start, start, end - start, r.Ok?)
    {
      hide Tree, PageAlloc.Valid, PageAlloc.Dry, Lookup, PickLevel, Tally, Tiles, Whole, Remapped, TookNewNodes, Backs;
      hide SameEverywhere, SameElsewhere, SameOutsideRange, MapsPage, MapsRange, Underway, RangeCost, Accounted;
      hide SomeStuck, Stuck, MapsPart, Leaves;
      ghost var s0, to := Snap(pages), Goal(base.(paddr := start));
      NoCost(root, s0, start, start, 0);
      if end < start { return Err; }
      var report, done: nat, rem: nat := NO_PAGES, 0, end - start;
      UnderwayStart(root, s0, start, to, rem);
      while rem >= PAGE
        invariant done + rem == end - start && Valid(pages)
        invariant Underway(root, s0, Snap(pages), start, to, done, rem, report)
      {
        ghost var s1 := Snap(pages);
        var l := PickOne(start + done, rem);
        var p := MapNext(pages, base, start, start, done, l);
        if p.Err? {
          UnderwayErr(root, s0, s1, Snap(pages), start, to, done, rem, report);
          return Err;
        }
        UnderwayStep(root, s0, s1, Snap(pages), start, to, done, rem, report, l);
        report := Bump(report, l);
        done := done + Span(l);
        rem := rem - Span(l);
      }
      UnderwayEnd(root, s0, Snap(pages), start, to, done, rem, report);
      return Ok(report);
    }

    // One round of the loop of map_address_range.
    method MapFresh(pages: PageAlloc, c: MappingConfig, done: nat, l: Level) returns (r: Result<()>)
      requires Valid(pages) && ConfigOk(c) && l == 4 - c.levels && c.paddr + done + c.pageSize <= PA_LIMIT
      requires OnPage(At(c, done))
      modifies this`mem, this`hist, this`nodes, pages.Repr()
      ensures Backed(pages) && TookNewNodes(old(Snap(pages)), Snap(pages)) && LeavesKept(old(mem), mem, old(nodes))
      ensures SameElsewhere(old(mem), mem, root, c.vaddr + done, l) && NewNodesAbove(old(nodes), nodes, l)
      ensures r.Ok? ==> PageUnmapped(old(mem), root, c.vaddr + done, l)
      ensures r.Ok? && Grants(c) ==> MapsPage(mem, root, c.vaddr + done, Plus(Goal(c), done), l)
      ensures r.Err? ==> SameEverywhere(old(mem), mem, root)
      ensures r.Err? ==> pages.Dry() || Occupied(old(mem), root, c.vaddr + done, l)
      ensures Tree(mem, root, nodes) <==> r.Err? || Grants(c)
    {
      hide Tree, PageAlloc.Valid, PageAlloc.Dry, TookNewNodes, LeavesKept, SameElsewhere, SilentOutside, PageUnmapped;
      hide NewNodesAbove, MapsPage, SameEverywhere, Occupied, OnPage, WalkTo, LeafAt, Backs;
      r := MapAddressPage(pages, At(c, done));
    }

    // map_address_range: pages of one size, none of them over an existing mapping. A request that
    // grants nothing is followed up to its first page; what the walk for a second page would meet is
    // in the hands of whoever writes the first.
    method MapAddressRange(pages: PageAlloc, c: MappingConfig, vend: nat, pend: nat) returns (r: Result<()>)
      requires Valid(pages) && ConfigOk(c) && c.vaddr <= vend && c.paddr <= pend <= PA_LIMIT
      requires Grants(c) || pend - c.paddr < 2 * c.pageSize
      modifies this`mem, this`hist, this`nodes, pages.Repr()
      ensures Backed(pages) && TookNewNodes(old(Snap(pages)), Snap(pages)) && LeavesKept(old(mem), mem, old(nodes))
      ensures r.Ok? ==> vend - c.vaddr == pend - c.paddr
      ensures SameOutsideRange(old(mem), mem, root, c.vaddr, pend - c.paddr)
      ensures r.Ok? ==> RangeUnmapped(old(mem), root, c.vaddr, WholePages(pend - c.paddr, c.pageSize))
      ensures r.Ok? && Grants(c) ==>
                MapsRange(mem, root, c.vaddr, Goal(c), OneSize(4 - c.levels), WholePages(pend - c.paddr, c.pageSize))
      // Unequal lengths and misaligned starts fail at once; a later failure leaves the pages before it.
      ensures vend - c.vaddr != pend - c.paddr || !OnPage(c) ==> r.Err? && mem == old(mem)
      ensures r.Err? ==> MapsPart(old(mem), mem, root, c.vaddr, Goal(c), OneSize(4 - c.levels), pend - c.paddr)
      // Otherwise it fails only for want of a frame, on an occupied page, or if the range meets itself
      // again.
      ensures r.Ok? ==> WholePages(pend - c.paddr, c.pageSize) <= VA_LIMIT
      ensures r.Err? && vend - c.vaddr == pend - c.paddr && OnPage(c) ==>
                || pages.Dry() || WholePages(pend - c.paddr, c.pageSize) > VA_LIMIT
                || SomeOccupied(old(mem), root, c.vaddr, WholePages(pend - c.paddr, c.pageSize), 4 - c.levels)
      // It keeps the tree if and only if it fails, grants something, or is less than a page.
      ensures Tree(mem, root, nodes) <==> r.Err? || Grants(c) || pend - c.paddr < c.pageSize
    {
      hide PageAlloc.Dry, PageAlloc.Valid, Tree, TookNewNodes, LeavesKept, Backs;
      hide SomeOccupied, SameOutsideRange, MapsRange, RangeUnmapped, Grants, MapsPart, SameEverywhere;
      var len := pend - c.paddr;
      EmptyRange(mem, root, c.vaddr, Goal(c), OneSize(4 - c.levels));
      LeavesRefl(mem, nodes);
      TookRefl(Snap(pages));
      RangeGrow(mem, mem, root, c.vaddr, 0, len);
      SameRefl(mem, root);
      PartMapped(mem, mem, mem, root, c.vaddr, Goal(c), OneSize(4 - c.levels), 0, len);
      if vend - c.vaddr != len { return Err; }
      if c.paddr % c.pageSize != 0 || c.vaddr % c.pageSize != 0 { return Err; }
      WholePagesIs(len, c.pageSize);
      FewPages(len, c.pageSize);
      r := MapEach(pages, c, len, len / c.pageSize, 4 - c.levels, WholePages(len, c.pageSize));
    }

    // The loop of map_address_range.
    method MapEach(pages: PageAlloc, c: MappingConfig, len: nat, needed: nat, l: Level, ghost total: nat)
      returns (r: Result<()>)
      requires Valid(pages) && ConfigOk(c) && l == 4 - c.levels && c.paddr + len <= PA_LIMIT
      requires Progress(needed, total, needed, len, c.pageSize) && OnPage(c) && (Grants(c) || needed <= 1)
      modifies this`mem, this`hist, this`nodes, pages.Repr()
      ensures Backed(pages) && TookNewNodes(old(Snap(pages)), Snap(pages)) && LeavesKept(old(mem), mem, old(nodes))
      ensures SameOutsideRange(old(mem), mem, root, c.vaddr, len)
      ensures r.Ok? ==> total <= VA_LIMIT && RangeUnmapped(old(mem), root, c.vaddr, total)
      ensures r.Ok? && Grants(c) ==> MapsRange(mem, root, c.vaddr, Goal(c), OneSize(l), total)
      ensures r.Err? ==> MapsPart(old(mem), mem, root, c.vaddr, Goal(c), OneSize(l), len)
      ensures r.Err? ==> pages.Dry() || total > VA_LIMIT || SomeOccupied(old(mem), root, c.vaddr, total, l)
      ensures Tree(mem, root, nodes) <==> r.Err? || Grants(c) || needed == 0
    {
      ghost var s0 := Snap(pages);
      hide Tree, PageAlloc.Valid, PageAlloc.Dry, Grown, TookNewNodes, Grants, Backs;
      hide LeavesKept, SameEverywhere, SameElsewhere, MapsPage, MapsRange;
      hide SameOutsideRange, SilentOutside, PageUnmapped, NewNodesAbove, Occupied, SomeOccupied, OnPage, Lookup;
      hide RangeUnmapped, MapsPart;
      EmptyUnmapped(mem, root, c.vaddr);
      var i, done: nat := 0, 0;
      EmptyRange(mem, root, c.vaddr, Goal(c), OneSize(l));
      LeavesRefl(mem, nodes);
      TookRefl(s0);
      NoneNew(nodes, l);
      assert At(c, 0) == c;
      while i < needed
        invariant i <= needed && Progress(i, done, needed, len, c.pageSize) && Backed(pages) && OnPage(At(c, done))
        invariant Tree(mem, root, nodes) <==> Grants(c) || i == 0
        invariant TookNewNodes(s0, Snap(pages)) && LeavesKept(s0.mem, mem, s0.nodes)
        invariant SameOutsideRange(s0.mem, mem, root, c.vaddr, done) && NewNodesAbove(s0.nodes, nodes, l)
        invariant Grants(c) || i == 0 ==> MapsRange(mem, root, c.vaddr, Goal(c), OneSize(l), done)
        invariant done <= VA_LIMIT && RangeUnmapped(s0.mem, root, c.vaddr, done)
      {
        ProgressStep(i, done, needed, len, c.pageSize);
        ProgressRoom(i, done, needed, total, len, l);
        hide Progress;
        OnPageNext(c, done);
        ghost var s1 := Snap(pages);
        r := MapFresh(pages, c, done, l);
        TookTrans(s0, s1, Snap(pages));
        LeavesTrans(s0.mem, s1.mem, mem, s0.nodes, s1.nodes);
        NewAbove(s0, s1, Snap(pages), l);
        if done == VA_LIMIT { AliasMapped(s1.mem, root, c.vaddr, Goal(c), OneSize(l), l); }
        if r.Err? {
          if done < VA_LIMIT { RangeBlocked(root, s0, s1, c.vaddr, done, total, l); }
          PartMapped(s0.mem, s1.mem, mem, root, c.vaddr, Goal(c), OneSize(l), done, len);
          RangeSameErr(s0.mem, s1.mem, mem, root, c.vaddr, done, len);
          return;
        }
        RangeSameStep(s0.mem, s1.mem, mem, root, c.vaddr, done, l);
        if Grants(c) { RangeMapsStep(s1.mem, mem, root, c.vaddr, Goal(c), OneSize(l), done, l); }
        RangeFreeStep(s0.mem, s1.mem, root, c.vaddr, done, l);
        i, done := i + 1, done + c.pageSize;
      }
      RangeGrow(s0.mem, mem, root, c.vaddr, done, len);
      return Ok(());
    }

    // reserve_va_range.
    method ReserveVaRange(pages: PageAlloc, vaStart: nat, vaEnd: nat) returns (r: Result<()>)
      requires Valid(pages) && vaEnd < WORD
      modifies this`mem, this`hist, this`nodes, pages.Repr()
      ensures Valid(pages) && Quiet(root, old(Snap(pages)), Snap(pages))
      ensures vaStart % PAGE != 0 || vaEnd % PAGE != 0 ==> r.Err? && mem == old(mem)
      ensures r.Ok? ==> forall x: nat ::
                Reserved(mem, root, x) <==> Reserved(old(mem), root, x) || Visited(x, vaStart, vaEnd)
      ensures r.Ok? ==> !SomeStrideStuck(old(mem), root, vaStart, vaEnd)
      ensures r.Err? && vaStart % PAGE == 0 == vaEnd % PAGE ==>
                pages.Dry() || SomeStrideStuck(old(mem), root, vaStart, vaEnd)
    {
      hide PageAlloc.Dry, Stuck, NewNodesAbove, WalkTo, Strode, Visited, SomeStrideStuck, Backs;
      hide Tree, PageAlloc.Valid, SameEverywhere, LeavesKept, Silent, Grown, NewNodesHold, Reserved, Holds;
      ghost var s0 := Snap(pages);
      QuietRefl(root, s0);
      if vaStart % PAGE != 0 || vaEnd % PAGE != 0 { return Err; }
      var va, k: nat := vaStart, 0;
      StrodeStart(mem, root, vaStart, vaEnd);
      while va < vaEnd
        invariant Valid(pages) && Quiet(root, s0, Snap(pages))
        invariant va == vaStart + k * Span(1) || (va == WORD - 1 && vaStart + k * Span(1) >= va)
        invariant Strode(s0.mem, mem, root, vaStart, vaEnd, k)
        decreases WORD - va
      {
        ghost var s1 := Snap(pages);
        var w := WalkMaterialize(pages, va, 0);
        QuietTrans(root, s0, s1, Snap(pages));
        StuckSame(root, s0, s1, va, 0);
        OneStrideStuck(s0.mem, root, vaStart, vaEnd, k);
        if w.Err? { return Err; }
        StrodeStep(s0.mem, s1.mem, mem, root, s1.nodes, nodes, vaStart, vaEnd, k, w.value);
        va := if va + Span(1) < WORD then va + Span(1) else WORD - 1;
        k := k + 1;
      }
      StrodeEnd(s0.mem, mem, root, vaStart, vaEnd, k);
      return Ok(());
    }

    // walk_to_table.
    method Walk(va: nat, target: Level) returns (r: Option<nat>)
      requires Tree(mem, root, nodes)
      ensures r == WalkTo(mem, root, va, target)
    {
      hide LinkOk, Vpn, IsValid, IsLeaf, PpnField;
      var table, lvl: Level := root, 3;
      while lvl > target
        invariant target <= lvl && WalkTo(mem, root, va, lvl) == Some(table)
      {
        WalkSound(mem, root, nodes, va, lvl);
        var pte := mem[table][Vpn(va, lvl)];
        if !IsValid(pte) || IsLeaf(pte) {
          WalkStops(mem, root, va, target, lvl);
          return None;
        }
        table, lvl := PpnAddress(pte), lvl - 1;
      }
      return Some(table);
    }

    // write_leaf_pte: install or clear the 4 KiB leaf of one page.
    method WriteLeafPte(va: nat, pa: Option<nat>, perms: nat, rsw: nat) returns (r: Result<()>)
      requires Tree(mem, root, nodes) && (pa.Some? ==> pa.value < PA_LIMIT && perms / 2 % 8 != 0)
      modifies this`mem, this`hist
      ensures Tree(mem, root, nodes)
      ensures r.Ok? <==> Reserved(old(mem), root, va)
      ensures r.Err? ==> mem == old(mem)
      ensures r.Ok? ==> SameElsewhere(old(mem), mem, root, va, 0)
      ensures r.Ok? && pa.Some? ==> MapsPage(mem, root, va, Target(FloorPage(pa.value), LeafFlags(perms, rsw)), 0)
      ensures r.Ok? && pa.None? ==> PageUnmapped(mem, root, va, 0)
      ensures forall x: nat :: Reserved(mem, root, x) <==> Reserved(old(mem), root, x)
    {
      hide LinkOk, NodeOk, Vpn, IsValid, IsLeaf, PpnField, PpnAddress, PackLeaf, FloorPage;
      var w := Walk(va, 0);
      if w.None? { return Err; }
      WalkSound(mem, root, nodes, va, 0);
      var idx := Vpn(va, 0);
      assert EntryOk(mem, nodes, w.value, idx);
      hide EntryOk;
      NullEntry();
      var e := 0;
      if pa.Some? {
        WholePage(pa.value);
        PackLeafFields(FloorPage(pa.value), perms, rsw);
        e := PackLeaf(pa.value / PAGE, perms, rsw);
      }
      PutLeaf(mem, root, nodes, w.value, va, e);
      SetRaw(w.value, idx, e);
      forall x: nat ensures Reserved(mem, root, x) <==> Reserved(old(mem), root, x) {
        ReservedSame(old(mem), mem, root, nodes, x);
      }
      return Ok(());
    }

    // What a reservation is for: when the strides reach the range, every page of it can then be
    // written, and nothing else changes.
    method ReserveAndWrite(pages: PageAlloc, vaStart: nat, vaEnd: nat, va: nat, pa: nat, perms: nat, rsw: nat)
      returns (reserved: Result<()>, written: Result<()>)
      requires Valid(pages) && vaStart <= va < vaEnd < WORD && StridesReach(vaStart, vaEnd)
      requires pa < PA_LIMIT && perms / 2 % 8 != 0
      modifies this`mem, this`hist, this`nodes, pages.Repr()
      ensures Tree(mem, root, nodes)
      ensures reserved.Ok? ==> written.Ok? && SameElsewhere(old(mem), mem, root, va, 0)
      ensures reserved.Ok? ==> MapsPage(mem, root, va, Target(FloorPage(pa), LeafFlags(perms, rsw)), 0)
    {
      hide Tree, PageAlloc.Valid, Lookup, MapsPage, SameElsewhere;
      hide LeavesKept, Silent, StridesFit, Visited, TookNewNodes, WalkTo;
      reserved := ReserveVaRange(pages, vaStart, vaEnd);
      ghost var before := mem;
      written := WriteLeafPte(va, Some(pa), perms, rsw);
      if reserved.Ok? {
        StridesCoverIff(vaStart, vaEnd);
        SameTrans(old(mem), before, mem, root, va, 0);
      }
    }

    // unmap_page: clear one leaf of exactly the given size.
    method UnmapPage(va: nat, levels: nat) returns (r: Result<()>)
      requires Tree(mem, root, nodes) && 1 <= levels <= 4
      modifies this`mem, this`hist
      ensures Tree(mem, root, nodes)
      ensures r.Ok? <==> LeafAt(old(mem), root, va, 4 - levels)
      ensures r.Err? ==> mem == old(mem)
      ensures SameElsewhere(old(mem), mem, root, va, 4 - levels)
      ensures r.Ok? ==> PageUnmapped(mem, root, va, 4 - levels)
    {
      hide LinkOk, NodeOk, Vpn, IsValid, IsLeaf, PpnField, PpnAddress, EntryOk;
      var target: Level := 4 - levels;
      var w := Walk(va, target);
      if w.None? { return Err; }
      WalkSound(mem, root, nodes, va, target);
      var idx := Vpn(va, target);
      var pte := mem[w.value][idx];
      if !IsValid(pte) || !IsLeaf(pte) { return Err; }
      NullEntry();
      PutLeaf(mem, root, nodes, w.value, va, 0);
      SetRaw(w.value, idx, 0);
      return Ok(());
    }

    // unmap_range: clear the 4 KiB leaf of every page of the range.
    method UnmapRange(start: nat, end: nat) returns (r: Result<()>)
      requires Tree(mem, root, nodes)
      modifies this`mem, this`hist
      ensures Tree(mem, root, nodes)
      ensures start % PAGE != 0 || end % PAGE != 0 ==> r.Err? && mem == old(mem)
      ensures end < start ==> mem == old(mem) && (r.Ok? <==> start % PAGE == 0 == end % PAGE)
      // It succeeds exactly if every page of the range has its own 4 KiB leaf; a failure leaves the
      // pages before it cleared.
      ensures start <= end ==>
                (r.Ok? <==>
                   && start % PAGE == 0 == end % PAGE && end - start <= VA_LIMIT
                   && SmallLeaves(old(mem), root, start, end - start))
      ensures start <= end && r.Ok? ==> ClearsUpTo(old(mem), mem, root, start, end - start)
      ensures start <= end && r.Err? ==> ClearsPart(old(mem), mem, root, start, end - start)
    {
      hide Tree, SameElsewhere, PageUnmapped, SameOutsideRange, RangeUnmapped, LeafAt, ClearsPart;
      EmptyUnmapped(mem, root, start);
      if start <= end { ClearedPart(mem, mem, root, start, 0, end - start); }
      if start % PAGE != 0 || end % PAGE != 0 { return Err; }
      var done: nat := 0;
      while start + done < end
        invariant Tree(mem, root, nodes) && done % PAGE == 0 && (start <= end ==> start + done <= end)
        invariant done <= VA_LIMIT && ClearsUpTo(old(mem), mem, root, start, done)
        invariant end < start ==> mem == old(mem)
        invariant SmallLeaves(old(mem), root, start, done)
      {
        ghost var before := mem;
        if done < VA_LIMIT { NextLeaf(old(mem), mem, root, nodes, start, done); }
        if done == VA_LIMIT { NoLeafLeft(mem, root, nodes, start); }
        r := UnmapPage(start + done, 4);
        if r.Err? {
          ClearedPart(old(mem), mem, root, start, done, end - start);
          return;
        }
        RangeSameStep(old(mem), before, mem, root, start, done, 0);
        RangeUnmappedStep(before, mem, root, start, done);
        done := done + PAGE;
      }
      return Ok(());
    }

    // walk_pte_chain: record every entry the walk visits, down to the first that is no pointer.
    method WalkPteChain(va: nat, out: array<WalkStep>) returns (n: nat)
      requires Tree(mem, root, nodes) && out.Length == 4
      modifies out
      ensures 1 <= n <= 4 && (n < 4 ==> !IsTable(out[n - 1].raw))
      ensures forall k :: 0 <= k < n - 1 ==> IsTable(out[k].raw)
      ensures forall k :: 0 <= k < n ==> out[k].level == 3 - k && OnWalk(mem, root, va, out[k])
      ensures Terminal(out[n - 1], va) == Lookup(mem, root, va)
    {
      hide Tree, Holds, Translate, OnWalk, Vpn, IsValid, IsLeaf, PpnField, PpnAddress, Terminal, WalkTo;
      var table, level: Level := root, 3;
      n := 0;
      RootHolds(mem, root, nodes, va);
      RootIn(mem, root, nodes);
      while true
        invariant n == 3 - level && table in nodes && nodes[table].level == level && Holds(nodes[table], va)
        invariant Lookup(mem, root, va) == Translate(mem, table, level, va)
        invariant forall k :: 0 <= k < n ==> IsTable(out[k].raw)
        invariant forall k :: 0 <= k < n ==> out[k].level == 3 - k && OnWalk(mem, root, va, out[k])
        decreases level
      {
        ChainStep(mem, root, nodes, table, va);
        var idx := Vpn(va, level);
        var raw := mem[table][idx];
        out[n] := WalkStep(level, idx, raw);
        n := n + 1;
        if !IsValid(raw) || IsLeaf(raw) {
          TerminalIs(mem, table, level, va);
          return;
        }
        table, level := PpnField(raw), level - 1;
      }
    }

    method VirtToPhys(va: nat) returns (r: Option<nat>)
      requires Tree(mem, root, nodes)
      ensures var m := Lookup(mem, root, va); r == if m.None? then None else Some(m.value.pa)
    {
      var chain := new WalkStep[4](_ => WalkStep(0, 0, 0));
      var n := WalkPteChain(va, chain);
      var s := chain[n - 1];
      if !IsValid(s.raw) || !IsLeaf(s.raw) { return None; }
      return Some(PpnAddress(s.raw) + va % Span(s.level));
    }

    // unmap_subtree: give back every table below table t, each once, children first.
    method UnmapSubtree(pages: PageAlloc, t: nat, ghost l: Level) returns (ghost freed: seq<nat>)
      requires Tree(mem, root, nodes) && t in nodes && nodes[t].level == l && pages.Valid()
      requires SubBefore(nodes, t, ENTRIES) <= pages.Taken()
      modifies pages.Repr()
      ensures pages.Valid() && pages.Books() == old(pages.Books())
      ensures multiset(freed) == multiset(SubBefore(nodes, t, ENTRIES))
      ensures pages.Taken() == Less(pages, old(pages.Taken()), SubBefore(nodes, t, ENTRIES))
      decreases l, 1
    {
      hide Tree, PageAlloc.Valid, PageAlloc.Taken, PageAlloc.Books, SubBefore, SlotTables, Less;
      freed := [];
      var i := 0;
      SubNone(nodes, t);
      LessStep(pages, pages.Taken(), {}, {});
      while i < ENTRIES
        invariant i <= ENTRIES && pages.Valid() && pages.Books() == old(pages.Books())
        invariant multiset(freed) == multiset(SubBefore(nodes, t, i))
        invariant pages.Taken() == Less(pages, old(pages.Taken()), SubBefore(nodes, t, i))
      {
        SubStep(nodes, t, i, old(pages.Taken()));
        LessStep(pages, old(pages.Taken()), SubBefore(nodes, t, i), SlotTables(nodes, t, i));
        ghost var more := FreeSlot(pages, t, i, l);
        FreedBoth(freed, SubBefore(nodes, t, i), more, SlotTables(nodes, t, i));
        freed := freed + more;
        i := i + 1;
      }
    }

    // One entry of the loop of unmap_subtree.
    method FreeSlot(pages: PageAlloc, t: nat, i: nat, ghost l: Level) returns (ghost freed: seq<nat>)
      requires Tree(mem, root, nodes) && t in nodes && nodes[t].level == l && i < ENTRIES && pages.Valid()
      requires SlotTables(nodes, t, i) <= pages.Taken()
      modifies pages.Repr()
      ensures pages.Valid() && pages.Books() == old(pages.Books())
      ensures multiset(freed) == multiset(SlotTables(nodes, t, i))
      ensures pages.Taken() == Less(pages, old(pages.Taken()), SlotTables(nodes, t, i))
      decreases l, 0
    {
      hide Tree, IsValid, IsLeaf, PpnField, PageAlloc.Valid;
      TableIn(mem, root, nodes, t);
      hide PageAlloc.Taken, PageAlloc.Books, SubBefore, SlotTables, Less;
      var e := mem[t][i];
      LessStep(pages, pages.Taken(), {}, {});
      SlotTablesAre(mem, root, nodes, t, i);
      if IsValid(e) && !IsLeaf(e) {
        var c := PpnField(e);
        assert SlotTables(nodes, t, i) == SubBefore(nodes, c, ENTRIES) + {c};
        freed := FreeChild(pages, c, l - 1);
      } else {
        assert SlotTables(nodes, t, i) == {};
        freed := [];
      }
    }

    // The subtree of a child table, and then the child itself.
    method FreeChild(pages: PageAlloc, c: nat, ghost l: Level) returns (ghost freed: seq<nat>)
      requires Tree(mem, root, nodes) && c in nodes && nodes[c].level == l && pages.Valid()
      requires c !in SubBefore(nodes, c, ENTRIES) && SubBefore(nodes, c, ENTRIES) + {c} <= pages.Taken()
      modifies pages.Repr()
      ensures pages.Valid() && pages.Books() == old(pages.Books())
      ensures multiset(freed) == multiset(SubBefore(nodes, c, ENTRIES) + {c})
      ensures pages.Taken() == Less(pages, old(pages.Taken()), SubBefore(nodes, c, ENTRIES) + {c})
      decreases l, 2
    {
      hide Tree, PageAlloc.Valid, SubBefore;
      LessStep(pages, pages.Taken(), SubBefore(nodes, c, ENTRIES), {c});
      freed := UnmapSubtree(pages, c, l);
      FreedBoth(freed, SubBefore(nodes, c, ENTRIES), [c], {c});
      freed := freed + [c];
      var _ := pages.FreePage(c);
    }

    // unmap: the caller frees the root.
    method Unmap(pages: PageAlloc) returns (ghost freed: seq<nat>)
      requires Valid(pages)
      modifies pages.Repr()
      ensures pages.Valid() && pages.Books() == old(pages.Books())
      ensures multiset(freed) == multiset(nodes.Keys - {root})
      ensures pages.FA? ==> pages.Taken() == old(pages.Taken()) - (nodes.Keys - {root})
    {
      hide PageAlloc.Valid;
      SubRoot(mem, root, nodes);
      freed := UnmapSubtree(pages, root, 3);
    }

    // ---- Runs of operations ----

    // One operation: it does what it is for, keeps the accounts, and cuts tables off as `Stepped` says.
    method Apply(pages: PageAlloc, op: MapOp) returns (ok: bool)
      requires Valid(pages) && OpOk(op)
      modifies this`mem, this`hist, this`nodes, this`leaked, pages.Repr()
      ensures Valid(pages) && Stepped(op, ok, root, old(Snap(pages)), Snap(pages))
    {
      hide Tree, PageAlloc.Valid, Stepped, OpOk, Backs;
      match op {
        case MapOne(_) => ok := ApplyMapOne(pages, op);
        case MapMany(_, _, _) => ok := ApplyMapMany(pages, op);
        case MapOnto(_) => ok := ApplyMapOnto(pages, op);
        case MapBulk(_, _, _, _) => ok := ApplyBulk(pages, op);
        case MapIdentity(_, _, _) => ok := ApplyIdentity(pages, op);
        case Reserve(_, _) => ok := ApplyReserve(pages, op);
        case _ => ok := ApplyInPlace(pages, op);
      }
    }

    method ApplyMapOne(pages: PageAlloc, op: MapOp) returns (ok: bool)
      requires Valid(pages) && OpOk(op) && op.MapOne?
      modifies this`mem, this`hist, this`nodes, pages.Repr()
      ensures Valid(pages) && Stepped(op, ok, root, old(Snap(pages)), Snap(pages))
    {
      hide Tree, PageAlloc.Valid, PageAlloc.Dry, Backs, Accounted, TookNewNodes, LeavesKept, SilentOutside;
      hide NewNodesAbove, SameEverywhere, SameElsewhere, MapsPage, PageUnmapped, LeafAt, Occupied, WalkTo;
      ghost var s0 := Snap(pages);
      var r := MapAddressPage(pages, op.c);
      FreshAccounted(root, s0, Snap(pages));
      return r.Ok?;
    }

    method ApplyMapMany(pages: PageAlloc, op: MapOp) returns (ok: bool)
      requires Valid(pages) && OpOk(op) && op.MapMany?
      modifies this`mem, this`hist, this`nodes, pages.Repr()
      ensures Valid(pages) && Stepped(op, ok, root, old(Snap(pages)), Snap(pages))
    {
      hide Tree, PageAlloc.Valid, PageAlloc.Dry, Backs, Accounted, TookNewNodes, LeavesKept;
      hide SameOutsideRange, MapsRange, MapsPart, RangeUnmapped, SomeOccupied, WholePages, OnPage;
      ghost var s0 := Snap(pages);
      var r := MapAddressRange(pages, op.c, op.vend, op.pend);
      FreshAccounted(root, s0, Snap(pages));
      return r.Ok?;
    }

    method ApplyMapOnto(pages: PageAlloc, op: MapOp) returns (ok: bool)
      requires Valid(pages) && OpOk(op) && op.MapOnto?
      modifies this`mem, this`hist, this`nodes, this`leaked, pages.Repr()
      ensures Valid(pages) && Stepped(op, ok, root, old(Snap(pages)), Snap(pages))
    {
      hide Tree, PageAlloc.Valid, PageAlloc.Dry, Backs, Accounted, TookNewNodes, NodesStep, CutOff, TableBelow;
      hide SameEverywhere, SameElsewhere, MapsPage, Stuck, WalkTo;
      ghost var s0 := Snap(pages);
      var r := MapPage(pages, op.c);
      if r.Err? { FreshAccounted(root, s0, Snap(pages)); }
      return r.Ok?;
    }

    method ApplyBulk(pages: PageAlloc, op: MapOp) returns (ok: bool)
      requires Valid(pages) && OpOk(op) && op.MapBulk?
      modifies this`mem, this`hist, this`nodes, this`leaked, pages.Repr()
      ensures Valid(pages) && Stepped(op, ok, root, old(Snap(pages)), Snap(pages))
    {
      hide Tree, PageAlloc.Valid, PageAlloc.Dry, Backs, Accounted, RangeCost, SomeTableBelow, Leaves, Tiles;
      hide SameOutsideRange, MapsRange, MapsPart, SomeStuck, NoWrap, Whole;
      ghost var s0 := Snap(pages);
      var r := MapVaRange(pages, op.base, op.start, op.paStart, op.paEnd);
      if !Wraps(op) && op.paStart <= op.paEnd {
        CostFree(root, s0, Snap(pages), op.start, op.paStart, op.paEnd - op.paStart, r.Ok?);
      }
      return r.Ok?;
    }

    method ApplyIdentity(pages: PageAlloc, op: MapOp) returns (ok: bool)
      requires Valid(pages) && OpOk(op) && op.MapIdentity?
      modifies this`mem, this`hist, this`nodes, this`leaked, pages.Repr()
      ensures Valid(pages) && Stepped(op, ok, root, old(Snap(pages)), Snap(pages))
    {
      hide Tree, PageAlloc.Valid, PageAlloc.Dry, Backs, Accounted, RangeCost, SomeTableBelow, Leaves, Tiles;
      hide SameOutsideRange, MapsRange, MapsPart, SomeStuck, NoWrap, Whole;
      ghost var s0 := Snap(pages);
      var r := IdMapRange(pages, op.base, op.start, op.end);
      if !Wraps(op) && op.start <= op.end {
        CostFree(root, s0, Snap(pages), op.start, op.start, op.end - op.start, r.Ok?);
      }
      return r.Ok?;
    }

    method ApplyReserve(pages: PageAlloc, op: MapOp) returns (ok: bool)
      requires Valid(pages) && OpOk(op) && op.Reserve?
      modifies this`mem, this`hist, this`nodes, pages.Repr()
      ensures Valid(pages) && Stepped(op, ok, root, old(Snap(pages)), Snap(pages))
    {
      hide Tree, PageAlloc.Valid, PageAlloc.Dry, Backs, Accounted, TookNewNodes, LeavesKept, Silent, SameEverywhere;
      hide Reserved, Visited, SomeStrideStuck;
      ghost var s0 := Snap(pages);
      var r := ReserveVaRange(pages, op.vaStart, op.vaEnd);
      FreshAccounted(root, s0, Snap(pages));
      return r.Ok?;
    }

    // The operations that need no frames.
    method ApplyInPlace(pages: PageAlloc, op: MapOp) returns (ok: bool)
      requires Valid(pages) && OpOk(op) && (op.WriteLeaf? || op.UnmapOne? || op.UnmapMany?)
      modifies this`mem, this`hist
      ensures Valid(pages) && Stepped(op, ok, root, old(Snap(pages)), Snap(pages))
    {
      hide Tree, PageAlloc.Dry, Backs, Accounted, SameElsewhere, MapsPage, PageUnmapped, Inv;
      hide Reserved, LeafAt, SmallLeaves, ClearsUpTo, ClearsPart, FloorPage, TookNewNodes;
      ghost var s0 := Snap(pages);
      var r: Result<()>;
      match op {
        case WriteLeaf(va, pa, perms, rsw) => r := WriteLeafPte(va, pa, perms, rsw);
        case UnmapOne(va, levels) => r := UnmapPage(va, levels);
        case UnmapMany(start, end) => r := UnmapRange(start, end);
      }
      TookRefl(s0);
      FreshAccounted(root, s0, Snap(pages));
      BacksSame(root, s0, Snap(pages));
      return r.Ok?;
    }

    // Over any run the frames taken are exactly the tables added and the tables cut off. None are cut
    // off if no operation found a table in its way; some are if one that did succeeded. The run goes
    // from the old state to the new one, operation by operation.
    method RunOps(pages: PageAlloc, ops: seq<MapOp>) returns (oks: seq<bool>, ghost snaps: seq<Snapshot>)
      requires Valid(pages) && OpsOk(ops)
      modifies this`mem, this`hist, this`nodes, this`leaked, pages.Repr()
      ensures Valid(pages) && Accounted(old(Snap(pages)), Snap(pages))
      ensures IsRun(ops, oks, root, snaps) && snaps[0] == old(Snap(pages)) && snaps[|ops|] == Snap(pages)
      ensures (forall i :: 0 <= i < |ops| ==> !Wraps(ops[i]) && !CutsAt(ops, snaps, root, i)) ==> leaked == old(leaked)
      ensures forall i :: 0 <= i < |ops| && oks[i] && !Wraps(ops[i]) && CutsAt(ops, snaps, root, i) ==>
                leaked > old(leaked)
    {
      hide Tree, PageAlloc.Valid, OpOk, Wraps, CutsAt, Accounted, Stepped, Backs;
      oks, snaps := [], [Snap(pages)];
      var i := 0;
      while i < |ops|
        invariant i <= |ops| && Valid(pages) && |oks| == i && |snaps| == i + 1
        invariant snaps[0] == old(Snap(pages)) && snaps[i] == Snap(pages)
        invariant forall j :: 0 <= j < i ==> Stepped(ops[j], oks[j], root, snaps[j], snaps[j + 1])
      {
        var ok := Apply(pages, ops[i]);
        oks, snaps := oks + [ok], snaps + [Snap(pages)];
        i := i + 1;
      }
      RunBooks(ops, oks, root, snaps, |ops|);
    }

    // Any run on an empty root, followed by unmap, gives every table of the tree back exactly once.
    // The frame allocator then misses exactly the tables that were cut off on the way: its accounts
    // and free frames are as they were if and only if there were none, and there are none if no
    // operation of the run found a table in its way.
    method Lifetime(f: FrameAllocator, ops: seq<MapOp>)
      returns (oks: seq<bool>, ghost snaps: seq<Snapshot>, ghost freed: seq<nat>)
      requires Valid(FA(f)) && nodes.Keys == {root} && leaked == {} && OpsOk(ops)
      modifies this`mem, this`hist, this`nodes, this`leaked, f
      ensures multiset(freed) == multiset(nodes.Keys - {root})
      ensures f.Valid() && Missing(old(f.State()), f.State(), leaked)
      ensures leaked !! old(FA(f).Taken()) && FA(f).Taken() == old(FA(f).Taken()) + leaked
      ensures IsRun(ops, oks, root, snaps) && snaps[0] == old(Snap(FA(f)))
      ensures nodes == snaps[|ops|].nodes && leaked == snaps[|ops|].leaked
      ensures (forall i :: 0 <= i < |ops| ==> !Wraps(ops[i]) && !CutsAt(ops, snaps, root, i)) ==> leaked == {}
      ensures forall i :: 0 <= i < |ops| && oks[i] && !Wraps(ops[i]) && CutsAt(ops, snaps, root, i) ==> leaked != {}
    {
      hide Tree, Inv, Covers, OpOk, Missing, Accounted, Backs, CutsAt, Wraps, IsRun;
      ghost var w0, s0 := f.State(), Snap(FA(f));
      assert |f.held| > PAGE_CLASS;
      oks, snaps := RunOps(FA(f), ops);
      ghost var s1 := Snap(FA(f));
      assert root in nodes by { RootIn(mem, root, nodes); }
      freed := Unmap(FA(f));
      LifetimeBooks(root, s0, s1, FA(f).Taken());
      PagesKept(w0, f.State(), leaked);
    }

    // A 4 KiB page, and then map_page of the 2 MiB around it: the second call always succeeds, and
    // the leaf table of the first is cut off.
    method SmallThenLarge(pages: PageAlloc, small: MappingConfig, large: MappingConfig)
      returns (first: Result<()>, second: Result<()>)
      requires Valid(pages) && ConfigOk(small) && Grants(small) && small.levels == 4
      requires ConfigOk(large) && Grants(large) && large.levels == 3
      requires OnPage(large) && SamePage(small.vaddr, large.vaddr, 1)
      modifies this`mem, this`hist, this`nodes, this`leaked, pages.Repr()
      ensures first.Ok? ==> second.Ok? && leaked > old(leaked)
    {
      hide Tree, PageAlloc.Valid, PageAlloc.Dry, TookNewNodes, SilentOutside, SameElsewhere, LeavesKept, PageUnmapped;
      hide SameEverywhere, OnPage, NewNodesAbove, SamePage, Lookup, CutOff, NodesStep, MapsPage;
      hide LeafAt, WalkTo, TableBelow;
      first := MapAddressPage(pages, small);
      ghost var m := mem;
      if first.Ok? { SmallHasTable(m, root, nodes, small, large.vaddr); }
      second := MapPage(pages, large);
    }
  }
}
