/**
 Mapping requests that grant none of R, W and X. pack_leaf (mmu/src/sv48.rs:195-202) then builds an
 entry that reads as a table pointer, and the mapping operations store it like any other. This
 module says what that does to the tree.
 */
module Ungranted {
  import opened Wrappers
  import opened Sv48
  import opened PageTree
  import opened PageViews
  import opened Ranges
  import opened CutOffs

  // Storing the entry in a slot without a table keeps the tree if and only if the request grants R, W
  // or X.
  lemma TreeIffGrants(mem: Mem, root: nat, nodes: Nodes, t: nat, i: nat, pa: nat, perms: nat, tag: nat)
    requires Tree(mem, root, nodes) && t in nodes && i < ENTRIES && !IsTable(mem[t][i]) && FrameOk(pa)
    ensures Tree(Store(mem, t, i, PackLeaf(pa / PAGE, perms, tag)), root, nodes) <==> perms / 2 % 8 != 0
  {
    var e := PackLeaf(pa / PAGE, perms, tag);
    PackLeafFields(pa, perms, tag);
    hide PackLeaf, IsValid, IsLeaf, PpnField, LinkOk, NodeOk;
    if perms / 2 % 8 != 0 {
      StoreLeafTree(mem, root, nodes, t, i, e);
    } else if Tree(Store(mem, t, i, e), root, nodes) {
      PointsNowhere(mem, root, nodes, t, i, e);
    }
  }

  // No table of the tree lies where a new pointer would have to lead.
  lemma PointsNowhere(mem: Mem, root: nat, nodes: Nodes, t: nat, i: nat, e: nat)
    requires Tree(mem, root, nodes) && t in nodes && i < ENTRIES && !IsTable(mem[t][i]) && IsTable(e)
    ensures !EntryOk(Store(mem, t, i, e), nodes, t, i)
  {
    hide LinkOk, IsValid, IsLeaf, PpnField;
    if EntryOk(Store(mem, t, i, e), nodes, t, i) {
      var u := PpnField(e);
      SlotEmpty(mem, root, nodes, t, i, u);
      OwnBase(nodes[t], i);
    }
  }

  // Above the leaf level the frame becomes a table of the tree: with a zeroed frame, as the kernel
  // hands it out, the result is the tree with the frame hung in the slot of the page.
  lemma FrameBecomesTable(mem: Mem, root: nat, nodes: Nodes, t: nat, i: nat, pa: nat, perms: nat, tag: nat)
    requires Tree(mem, root, nodes) && t in nodes && i < ENTRIES && !IsTable(mem[t][i]) && nodes[t].level > 0
    requires FrameOk(pa) && pa !in nodes && Zeroed(mem, pa) && perms / 2 % 8 == 0
    ensures Tree(Store(mem, t, i, PackLeaf(pa / PAGE, perms, tag)), root, Linked(nodes, t, i, pa))
  {
    var e := PackLeaf(pa / PAGE, perms, tag);
    PackLeafFields(pa, perms, tag);
    hide PackLeaf;
    PointerTree(mem, root, nodes, t, i, pa, e);
  }

  // Any entry that points at a zeroed frame links it, whatever its other bits.
  lemma PointerTree(mem: Mem, root: nat, nodes: Nodes, t: nat, i: nat, pa: nat, e: nat)
    requires Tree(mem, root, nodes) && t in nodes && i < ENTRIES && !IsTable(mem[t][i]) && nodes[t].level > 0
    requires FrameOk(pa) && pa !in nodes && Zeroed(mem, pa) && e < PTE_LIMIT && IsTable(e) && PpnField(e) == pa
    ensures Tree(Store(mem, t, i, e), root, Linked(nodes, t, i, pa))
  {
    hide Tree, PackTable, IsValid, IsLeaf, PpnField, PpnAddress, Zeroed, SlotBase;
    TableIn(mem, root, nodes, t);
    LinkTree(mem, root, nodes, t, i, pa);
    PackTableFields(pa);
    var p := PackTable(pa / PAGE);
    SwapPointer(Store(mem, t, i, p), root, Linked(nodes, t, i, pa), t, i, e);
    StoreTwice(mem, t, i, p, e);
  }

  lemma StoreTwice(mem: Mem, t: nat, i: nat, p: nat, e: nat)
    requires IsTableFrame(mem, t) && i < ENTRIES
    ensures Store(Store(mem, t, i, p), t, i, e) == Store(mem, t, i, e)
  {
    assert mem[t][i := p][i := e] == mem[t][i := e];
  }

  // Replacing a pointer by another pointer to the same table keeps the tree.
  lemma SwapPointer(mem: Mem, root: nat, nodes: Nodes, t: nat, i: nat, e: nat)
    requires Tree(mem, root, nodes) && t in nodes && i < ENTRIES && IsTable(mem[t][i])
    requires e < PTE_LIMIT && IsTable(e) && PpnField(e) == PpnField(mem[t][i])
    ensures Tree(Store(mem, t, i, e), root, nodes)
  {
    hide NodeOk, FrameOk, Vpn, PpnField, IsValid, IsLeaf;
    var m := Store(mem, t, i, e);
    StoreRam(mem, t, i, e);
    forall u, j | u in nodes && 0 <= j < ENTRIES ensures EntryOk(m, nodes, u, j) { assert EntryOk(mem, nodes, u, j); }
    forall u | u in nodes ensures LinkOk(m, root, nodes, u) { assert LinkOk(mem, root, nodes, u); }
  }

  // unmap then takes the frame for a table that it has to free.
  lemma UnmapFreesFrame(mem: Mem, root: nat, nodes: Nodes, t: nat, i: nat, pa: nat)
    requires t in nodes && nodes[t].level > 0 && pa !in nodes && root in nodes
    requires Tree(mem, root, Linked(nodes, t, i, pa))
    ensures SubBefore(Linked(nodes, t, i, pa), root, ENTRIES) == nodes.Keys - {root} + {pa}
  {
    SubRoot(mem, root, Linked(nodes, t, i, pa));
  }

  // ---- The store of map_address_page ----

  // Below level l the walk sees the store, above it does not.
  lemma {:induction false} WalkAbove(mem: Mem, root: nat, nodes: Nodes, va: nat, t: nat, i: nat, e: nat, l: Level)
    requires Tree(mem, root, nodes) && t in nodes && i < ENTRIES && nodes[t].level <= l
    ensures WalkTo(Store(mem, t, i, e), root, va, l) == WalkTo(mem, root, va, l)
    decreases 3 - l
  {
    hide EntryOk, LinkOk, Vpn, IsValid, IsLeaf, PpnAddress;
    if l < 3 {
      WalkAbove(mem, root, nodes, va, t, i, e, l + 1);
      WalkSound(mem, root, nodes, va, l + 1);
    }
  }

  lemma StoreAgrees(mem: Mem, root: nat, nodes: Nodes, t: nat, i: nat, e: nat)
    requires Tree(mem, root, nodes) && t in nodes && i < ENTRIES
    ensures AgreeExcept(mem, Store(mem, t, i, e), nodes, t, i)
  {
    hide EntryOk, LinkOk, NodeOk;
  }

  // Storing the entry of a request into an invalid slot.
  lemma FreshStore(mem: Mem, root: nat, nodes: Nodes, t: nat, c: MappingConfig)
    requires Tree(mem, root, nodes) && t in nodes && Holds(nodes[t], c.vaddr) && nodes[t].level == 4 - c.levels
    requires ConfigOk(c) && OnPage(c) && !IsValid(mem[t][Vpn(c.vaddr, nodes[t].level)])
    ensures var l := nodes[t].level;
            var m := Store(mem, t, Vpn(c.vaddr, l), LeafEntry(c));
            && SameElsewhere(mem, m, root, c.vaddr, l) && LeavesKept(mem, m, nodes)
            && (Tree(m, root, nodes) <==> Grants(c))
            && (Grants(c) ==> MapsPage(m, root, c.vaddr, Goal(c), l) && LeafAt(m, root, c.vaddr, l))
            && (!Grants(c) && l > 0 ==> WalkTo(m, root, c.vaddr, l - 1) == Some(c.paddr))
  {
    hide Tree, Vpn, Holds, SameElsewhere, MapsPage, LeafAt, IsTableFrame, PpnField, PpnAddress, IsValid, IsLeaf;
    var l := nodes[t].level;
    var i, e := Vpn(c.vaddr, l), LeafEntry(c);
    TableIn(mem, root, nodes, t);
    NodeIn(mem, root, nodes, t);
    LeafEntryFields(c);
    var m := Store(mem, t, i, e);
    StoreAgrees(mem, root, nodes, t, i, e);
    StoreOutside(mem, root, nodes, m, t, i);
    SlotToPage(mem, m, root, nodes[t], c.vaddr);
    StoreKeepsLeaves(mem, t, i, e, nodes);
    TreeIffGrants(mem, root, nodes, t, i, c.paddr, c.permissions, c.tag);
    if Grants(c) {
      PutLeaf(mem, root, nodes, t, c.vaddr, e);
      LeafStored(m, root, nodes, t, c.vaddr);
    } else if l > 0 {
      WalkFinds(mem, root, nodes, t, c.vaddr);
      WalkAbove(mem, root, nodes, c.vaddr, t, i, e, l);
    }
  }

  lemma BacksSame(root: nat, s0: Snapshot, s1: Snapshot)
    requires Backs(root, s0) && s1.nodes == s0.nodes && s1.taken == s0.taken && s1.leaked == s0.leaked
    ensures Backs(root, s1)
  {
  }

  // A request for one 2 MiB page at address 0 with U alone, which is what the kernel makes of an empty
  // permission word: the page is not mapped, the tree as the kernel knows it is lost, and the data
  // frame is a table of the tree that the hardware and unmap see.
  lemma UngrantedExample() returns (mem: Mem, nodes: Nodes)
    ensures Tree(mem, ROOT, nodes) && nodes.Keys == {ROOT, 0x2000, 0x3000} && nodes[0x3000] == Node(1, 0, 0x2000)
    ensures var m := Store(mem, 0x3000, 0, PackLeaf(0x40_0000 / PAGE, 0x10, 0));
            var seen := nodes[0x40_0000 := Node(0, 0, 0x3000)];
            && !Tree(m, ROOT, nodes) && Tree(m, ROOT, seen) && Lookup(m, ROOT, 0) == None
            && 0x40_0000 in SubBefore(seen, ROOT, ENTRIES)
  {
    hide Tree, BlankFrom, Lookup;
    mem, nodes := PathToLevelOne();
    BlankSlot(mem, 0x3000);
    BlankSlot(mem, 0x40_0000);
    TreeIffGrants(mem, ROOT, nodes, 0x3000, 0, 0x40_0000, 0x10, 0);
    FrameBecomesTable(mem, ROOT, nodes, 0x3000, 0, 0x40_0000, 0x10, 0);
    var m := Store(mem, 0x3000, 0, PackLeaf(0x40_0000 / PAGE, 0x10, 0));
    assert Linked(nodes, 0x3000, 0, 0x40_0000) == nodes[0x40_0000 := Node(0, 0, 0x3000)];
    UnmapFreesFrame(m, ROOT, nodes, 0x3000, 0, 0x40_0000);
    hide PackLeaf;
    EmptyLeafTable(m, nodes[0x40_0000 := Node(0, 0, 0x3000)], 0x40_0000);
  }

  lemma BlankSlot(mem: Mem, t: nat)
    requires BlankFrom(mem, 0x3000) && t >= 0x3000 && FrameOk(t)
    ensures Zeroed(mem, t) && !IsTable(mem[t][0])
  {
    NullEntry();
  }

  lemma EmptyLeafTable(mem: Mem, nodes: Nodes, t: nat)
    requires Tree(mem, ROOT, nodes) && t in nodes && nodes[t].level == 0 && nodes[t].base == 0 && Zeroed(mem, t)
    ensures Lookup(mem, ROOT, 0) == None
  {
    hide Tree;
    NullEntry();
    LookupAt(mem, ROOT, nodes, t, 0);
  }
}
