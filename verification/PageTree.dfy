/**
 Four-level page tables in physical memory as a tree, and the address space they define.
 Each table frame of an address space has coordinates: its level, the first virtual address
 it spans, and the table that points at it. `Tree` says that the entries in memory and the
 coordinates agree. From it follow that a store to one entry can only affect the addresses
 of that entry's slot, that every table is reached through exactly one entry, and that
 walking the tables finds exactly the tables of the tree.
 */
module PageTree {
  import opened Arith
  import opened Wrappers
  import opened Sv48

  // Physical memory, one 512-entry table per 4 KiB frame.
  type Mem = map<nat, seq<nat>>

  datatype Node = Node(level: Level, base: nat, parent: nat)
  type Nodes = map<nat, Node>

  predicate IsTableFrame(mem: Mem, t: nat) {
    t in mem && |mem[t]| == ENTRIES
  }

  predicate FrameOk(t: nat) {
    t % PAGE == 0 && t < PA_LIMIT
  }

  ghost predicate Ram(mem: Mem) {
    forall pa: nat {:trigger FrameOk(pa)} :: FrameOk(pa) ==> IsTableFrame(mem, pa)
  }

  function Store(mem: Mem, t: nat, i: nat, e: nat): (m: Mem)
    requires IsTableFrame(mem, t) && i < ENTRIES
  {
    var table: seq<nat> := mem[t][i := e];
    mem[t := table]
  }

  // ---- What the tables mean ----

  // The physical address an address maps to, and the flags and the level of the leaf that maps it.
  datatype Mapped = Mapped(pa: nat, flags: nat, level: Level)

  // virt_to_phys below table t of level l (mmu/src/mmap.rs:404-454).
  function Translate(mem: Mem, t: nat, l: Level, va: nat): (r: Option<Mapped>)
    decreases l
  {
    if !IsTableFrame(mem, t) then None
    else
      var e := mem[t][Vpn(va, l)];
      if !IsValid(e) then None
      else if IsLeaf(e) then Some(Mapped(PpnAddress(e) + va % Span(l), Flags(e), l))
      else if l == 0 then None
      else Translate(mem, PpnField(e), l - 1, va)
  }

  function Lookup(mem: Mem, root: nat, va: nat): (r: Option<Mapped>) {
    Translate(mem, root, 3, va)
  }

  // walk_to_table (mmu/src/mmap.rs:140-157).
  function WalkTo(mem: Mem, root: nat, va: nat, l: Level): (r: Option<nat>)
    decreases 3 - l
  {
    if l == 3 then Some(root)
    else
      var up := WalkTo(mem, root, va, l + 1);
      if up.None? || !IsTableFrame(mem, up.value) then None
      else
        var e := mem[up.value][Vpn(va, l + 1)];
        if !IsValid(e) || IsLeaf(e) then None else Some(PpnAddress(e))
  }

  // ---- The tree invariant ----

  predicate NodeOk(n: Node) {
    n.base % Span(n.level + 1) == 0 && n.base + Span(n.level + 1) <= VA_LIMIT
  }

  function SlotBase(n: Node, i: nat): (b: nat) {
    n.base + i * Span(n.level)
  }

  // Virtual address `va` is among those that node n, or its slot i, spans.
  predicate Holds(n: Node, va: nat) {
    n.base <= Low48(va) < n.base + Span(n.level + 1)
  }

  predicate InSlot(n: Node, i: nat, va: nat) {
    SlotBase(n, i) <= Low48(va) < SlotBase(n, i) + Span(n.level)
  }

  // A table pointer leads to the node one level down that spans its slot.
  predicate EntryOk(mem: Mem, nodes: Nodes, t: nat, i: nat)
    requires t in nodes && IsTableFrame(mem, t) && i < ENTRIES
  {
    var e, n := mem[t][i], nodes[t];
    && e < PTE_LIMIT && (IsLeaf(e) ==> IsValid(e))
    && (IsTable(e) ==>
          n.level > 0 && PpnField(e) in nodes && nodes[PpnField(e)] == Node(n.level - 1, SlotBase(n, i), t))
  }

  // Every node but the root hangs off an entry of its parent.
  predicate LinkOk(mem: Mem, root: nat, nodes: Nodes, t: nat)
    requires t in nodes
  {
    var n := nodes[t];
    t == root ||
    (&& n.level < 3 && n.parent in nodes && nodes[n.parent].level == n.level + 1 && IsTableFrame(mem, n.parent)
     && var e := mem[n.parent][Vpn(n.base, n.level + 1)]; IsTable(e) && PpnField(e) == t)
  }

  ghost predicate Tree(mem: Mem, root: nat, nodes: Nodes) {
    && Ram(mem)
    && root in nodes && nodes[root].level == 3 && nodes[root].base == 0
    && (forall t :: t in nodes ==> FrameOk(t) && NodeOk(nodes[t]) && IsTableFrame(mem, t))
    && (forall t, i :: t in nodes && 0 <= i < ENTRIES ==> EntryOk(mem, nodes, t, i))
    && (forall t :: t in nodes ==> LinkOk(mem, root, nodes, t))
  }

  // ---- Walking the tree ----

  lemma SlotUnique(n: Node, i: nat, j: nat, va: nat)
    requires InSlot(n, i, va) && InSlot(n, j, va)
    ensures i == j
  {
    var s := Span(n.level);
    if i < j { StepApart(i, j, s); }
    if j < i { StepApart(j, i, s); }
  }

  // A node's addresses are split among its slots by their index.
  lemma HoldsSlot(n: Node, va: nat)
    requires NodeOk(n) && Holds(n, va)
    ensures InSlot(n, Vpn(va, n.level), va)
    ensures forall i: nat :: InSlot(n, i, va) ==> i == Vpn(va, n.level)
  {
    VpnSlot(va, n.base, n.level);
    forall i: nat | InSlot(n, i, va) ensures i == Vpn(va, n.level) {
      SlotUnique(n, i, Vpn(va, n.level), va);
    }
  }

  lemma SlotInside(n: Node, i: nat, va: nat)
    requires NodeOk(n) && i < ENTRIES && InSlot(n, i, va)
    ensures Holds(n, va) && Vpn(va, n.level) == i
  {
    SlotVpn(n.base, n.level, i);
    HoldsSlot(n, va);
  }

  lemma LowIsLow(va: nat)
    requires va < VA_LIMIT
    ensures Low48(va) == va
  {
  }

  // A node spans its own base, and each slot spans its own start.
  lemma OwnBase(n: Node, i: nat)
    requires NodeOk(n) && i < ENTRIES
    ensures Low48(n.base) == n.base && Holds(n, n.base)
    ensures Low48(SlotBase(n, i)) == SlotBase(n, i) && InSlot(n, i, SlotBase(n, i))
  {
    SlotVpn(n.base, n.level, i);
    LowIsLow(n.base);
    LowIsLow(SlotBase(n, i));
  }

  // Walking down for `va` only meets tables that span `va`.
  lemma {:induction false} WalkSound(mem: Mem, root: nat, nodes: Nodes, va: nat, l: Level)
    requires Tree(mem, root, nodes)
    ensures var w := WalkTo(mem, root, va, l);
            w.Some? ==> w.value in nodes && nodes[w.value].level == l && Holds(nodes[w.value], va)
    decreases 3 - l
  {
    if l < 3 {
      WalkSound(mem, root, nodes, va, l + 1);
      var up := WalkTo(mem, root, va, l + 1);
      if up.Some? {
        var n, i := nodes[up.value], Vpn(va, l + 1);
        HoldsSlot(n, va);
        assert EntryOk(mem, nodes, up.value, i);
        PpnAgree(mem[up.value][i]);
      }
    }
  }

  // The parent of a node spans it through one slot.
  lemma ParentSpans(mem: Mem, root: nat, nodes: Nodes, t: nat)
    requires Tree(mem, root, nodes) && t in nodes && t != root
    ensures var n := nodes[t];
            && n.level < 3 && n.parent in nodes && nodes[n.parent].level == n.level + 1
            && n.base == SlotBase(nodes[n.parent], Vpn(n.base, n.level + 1))
  {
    var n := nodes[t];
    assert LinkOk(mem, root, nodes, t);
    assert EntryOk(mem, nodes, n.parent, Vpn(n.base, n.level + 1));
  }

  // Conversely every table of the tree is found by walking down for any address it spans.
  lemma {:induction false} WalkFinds(mem: Mem, root: nat, nodes: Nodes, t: nat, va: nat)
    requires Tree(mem, root, nodes) && t in nodes && Holds(nodes[t], va)
    ensures WalkTo(mem, root, va, nodes[t].level) == Some(t)
    decreases 3 - nodes[t].level
  {
    assert LinkOk(mem, root, nodes, t);
    if t != root {
      var n := nodes[t];
      var p, i := n.parent, Vpn(n.base, n.level + 1);
      ParentSpans(mem, root, nodes, t);
      SlotInside(nodes[p], i, va);
      WalkFinds(mem, root, nodes, p, va);
      assert EntryOk(mem, nodes, p, i);
      PpnAgree(mem[p][i]);
    }
  }

  // Coordinates are unique.
  lemma NodeUnique(mem: Mem, root: nat, nodes: Nodes, t: nat, u: nat)
    requires Tree(mem, root, nodes) && t in nodes && u in nodes
    requires nodes[t].level == nodes[u].level && nodes[t].base == nodes[u].base
    ensures t == u
  {
    OwnBase(nodes[t], 0);
    WalkFinds(mem, root, nodes, t, nodes[t].base);
    WalkFinds(mem, root, nodes, u, nodes[t].base);
  }

  // Each table is reached through exactly one entry.
  lemma ReachedOnce(mem: Mem, root: nat, nodes: Nodes, t: nat, i: nat, u: nat, j: nat)
    requires Tree(mem, root, nodes) && t in nodes && u in nodes && i < ENTRIES && j < ENTRIES
    requires IsTable(mem[t][i]) && IsTable(mem[u][j]) && PpnField(mem[t][i]) == PpnField(mem[u][j])
    ensures t == u && i == j && PpnField(mem[t][i]) != root
  {
    assert EntryOk(mem, nodes, t, i) && EntryOk(mem, nodes, u, j);
    OwnBase(nodes[t], i);
    OwnBase(nodes[t], j);
    SlotUnique(nodes[t], i, j, SlotBase(nodes[t], i));
  }

  // Following the walk to level l does not change what is looked up.
  lemma {:induction false} LookupVia(mem: Mem, root: nat, nodes: Nodes, va: nat, l: Level)
    requires Tree(mem, root, nodes) && WalkTo(mem, root, va, l).Some?
    ensures Lookup(mem, root, va) == Translate(mem, WalkTo(mem, root, va, l).value, l, va)
    decreases 3 - l
  {
    if l < 3 {
      LookupVia(mem, root, nodes, va, l + 1);
      WalkSound(mem, root, nodes, va, l + 1);
      var up := WalkTo(mem, root, va, l + 1).value;
      assert EntryOk(mem, nodes, up, Vpn(va, l + 1));
      PpnAgree(mem[up][Vpn(va, l + 1)]);
    }
  }

  // A walk that gets below level k crosses a table pointer there.
  lemma {:induction false} WalkPrefix(mem: Mem, root: nat, va: nat, l: Level, k: Level)
    requires l < k && WalkTo(mem, root, va, l).Some?
    ensures var w := WalkTo(mem, root, va, k);
            w.Some? && IsTableFrame(mem, w.value) && IsTable(mem[w.value][Vpn(va, k)])
    decreases k - l
  {
    if l + 1 < k { WalkPrefix(mem, root, va, l + 1, k); }
  }

  // A slot without a table pointer has no tables below it.
  lemma SlotEmpty(mem: Mem, root: nat, nodes: Nodes, t: nat, i: nat, u: nat)
    requires Tree(mem, root, nodes) && t in nodes && u in nodes && i < ENTRIES
    requires !IsTable(mem[t][i]) && nodes[u].level < nodes[t].level
    ensures !InSlot(nodes[t], i, nodes[u].base)
  {
    var va := nodes[u].base;
    if InSlot(nodes[t], i, va) {
      SlotInside(nodes[t], i, va);
      OwnBase(nodes[u], 0);
      WalkFinds(mem, root, nodes, u, va);
      WalkFinds(mem, root, nodes, t, va);
      WalkPrefix(mem, root, va, nodes[u].level, nodes[t].level);
    }
  }

  // ---- Stores ----

  // Memories that agree on every entry of every table of the tree, except (t0, i0).
  ghost predicate AgreeExcept(mem: Mem, mem': Mem, nodes: Nodes, t0: nat, i0: nat) {
    forall t :: t in nodes ==>
      && IsTableFrame(mem, t) && IsTableFrame(mem', t)
      && (forall i :: 0 <= i < ENTRIES && (t, i) != (t0, i0) ==> mem'[t][i] == mem[t][i])
  }

  // Only the addresses of the slot see the store.
  lemma {:induction false} TranslateFrame(mem: Mem, root: nat, nodes: Nodes, mem': Mem, t0: nat, i0: nat,
                                          t: nat, va: nat)
    requires Tree(mem, root, nodes) && AgreeExcept(mem, mem', nodes, t0, i0)
    requires t in nodes && Holds(nodes[t], va) && t0 in nodes && i0 < ENTRIES && !InSlot(nodes[t0], i0, va)
    ensures Translate(mem', t, nodes[t].level, va) == Translate(mem, t, nodes[t].level, va)
    decreases nodes[t].level
  {
    hide Vpn, Low48, IsValid, IsLeaf, PpnField, PpnAddress, LinkOk, NodeOk, FrameOk;
    var n := nodes[t];
    var i := Vpn(va, n.level);
    HoldsSlot(n, va);
    assert EntryOk(mem, nodes, t, i);
    assert mem'[t][i] == mem[t][i];
    if IsTable(mem[t][i]) {
      TranslateFrame(mem, root, nodes, mem', t0, i0, PpnField(mem[t][i]), va);
    }
  }

  lemma RootIn(mem: Mem, root: nat, nodes: Nodes)
    requires Tree(mem, root, nodes)
    ensures root in nodes && nodes[root].level == 3
  {
  }

  lemma TableIn(mem: Mem, root: nat, nodes: Nodes, t: nat)
    requires Tree(mem, root, nodes) && t in nodes
    ensures IsTableFrame(mem, t)
  {
  }

  lemma NodeIn(mem: Mem, root: nat, nodes: Nodes, t: nat)
    requires Tree(mem, root, nodes) && t in nodes
    ensures NodeOk(nodes[t]) && FrameOk(t)
  {
  }

  lemma RootHolds(mem: Mem, root: nat, nodes: Nodes, va: nat)
    requires Tree(mem, root, nodes)
    ensures Holds(nodes[root], va)
  {
  }

  ghost predicate SameOutsideSlot(mem: Mem, mem': Mem, root: nat, n: Node, i: nat) {
    forall va: nat :: !InSlot(n, i, va) ==> Lookup(mem', root, va) == Lookup(mem, root, va)
  }

  lemma StoreOutside(mem: Mem, root: nat, nodes: Nodes, mem': Mem, t0: nat, i0: nat)
    requires Tree(mem, root, nodes) && AgreeExcept(mem, mem', nodes, t0, i0) && t0 in nodes && i0 < ENTRIES
    ensures SameOutsideSlot(mem, mem', root, nodes[t0], i0)
  {
    forall va: nat | !InSlot(nodes[t0], i0, va) ensures Lookup(mem', root, va) == Lookup(mem, root, va) {
      RootHolds(mem, root, nodes, va);
      TranslateFrame(mem, root, nodes, mem', t0, i0, root, va);
    }
  }

  // What the addresses of a node see is what that node's table says.
  lemma LookupAt(mem: Mem, root: nat, nodes: Nodes, t: nat, va: nat)
    requires Tree(mem, root, nodes) && t in nodes && Holds(nodes[t], va)
    ensures Lookup(mem, root, va) == Translate(mem, t, nodes[t].level, va)
  {
    WalkFinds(mem, root, nodes, t, va);
    LookupVia(mem, root, nodes, va, nodes[t].level);
  }

  // Storing a leaf, or clearing one, over anything but a table pointer keeps the tree.
  lemma StoreLeafTree(mem: Mem, root: nat, nodes: Nodes, t0: nat, i0: nat, e: nat)
    requires Tree(mem, root, nodes) && t0 in nodes && i0 < ENTRIES
    requires !IsTable(mem[t0][i0]) && e < PTE_LIMIT && (IsLeaf(e) <==> IsValid(e))
    ensures Tree(Store(mem, t0, i0, e), root, nodes)
  {
    var mem' := Store(mem, t0, i0, e);
    forall t, i | t in nodes && 0 <= i < ENTRIES ensures EntryOk(mem', nodes, t, i) {
      assert EntryOk(mem, nodes, t, i);
    }
    forall t | t in nodes ensures LinkOk(mem', root, nodes, t) {
      assert LinkOk(mem, root, nodes, t);
    }
  }

  // ---- Linking a fresh table ----

  function Linked(nodes: Nodes, t0: nat, i0: nat, pa: nat): (r: Nodes)
    requires t0 in nodes && nodes[t0].level > 0
  {
    nodes[pa := Node(nodes[t0].level - 1, SlotBase(nodes[t0], i0), t0)]
  }

  ghost predicate Zeroed(mem: Mem, pa: nat) {
    IsTableFrame(mem, pa) && forall i :: 0 <= i < ENTRIES ==> mem[pa][i] == 0
  }

  lemma LinkEntries(mem: Mem, root: nat, nodes: Nodes, t0: nat, i0: nat, pa: nat, t: nat, i: nat)
    requires Tree(mem, root, nodes) && t0 in nodes && i0 < ENTRIES && nodes[t0].level > 0
    requires FrameOk(pa) && pa !in nodes && Zeroed(mem, pa)
    requires t in Linked(nodes, t0, i0, pa) && i < ENTRIES
    ensures EntryOk(Store(mem, t0, i0, PackTable(pa / PAGE)), Linked(nodes, t0, i0, pa), t, i)
  {
    PackTableFields(pa);
    NullEntry();
    hide LinkOk, NodeOk, FrameOk, PackTable, IsValid, IsLeaf, PpnField, SlotBase, Span;
    if t == pa {
      assert Store(mem, t0, i0, PackTable(pa / PAGE))[t][i] == 0;
    } else {
      assert EntryOk(mem, nodes, t, i);
    }
  }

  lemma NullEntry()
    ensures !IsValid(0) && !IsLeaf(0)
  {
  }

  lemma LinkLinks(mem: Mem, root: nat, nodes: Nodes, t0: nat, i0: nat, pa: nat, t: nat)
    requires Tree(mem, root, nodes) && t0 in nodes && i0 < ENTRIES && nodes[t0].level > 0
    requires !IsTable(mem[t0][i0]) && FrameOk(pa) && pa !in nodes
    requires t in Linked(nodes, t0, i0, pa)
    ensures LinkOk(Store(mem, t0, i0, PackTable(pa / PAGE)), root, Linked(nodes, t0, i0, pa), t)
  {
    hide Vpn, IsValid, IsLeaf, PpnField, EntryOk;
    PackTableFields(pa);
    SlotVpn(nodes[t0].base, nodes[t0].level, i0);
    if t in nodes {
      assert LinkOk(mem, root, nodes, t);
      assert nodes[t].parent in nodes || t == root;
    }
  }

  lemma ChildNodeOk(n: Node, i: nat, t: nat)
    requires NodeOk(n) && i < ENTRIES && n.level > 0
    ensures NodeOk(Node(n.level - 1, SlotBase(n, i), t))
  {
    SlotVpn(n.base, n.level, i);
  }

  lemma StoreRam(mem: Mem, t: nat, i: nat, e: nat)
    requires Ram(mem) && IsTableFrame(mem, t) && i < ENTRIES
    ensures Ram(Store(mem, t, i, e))
  {
  }

  lemma LinkTree(mem: Mem, root: nat, nodes: Nodes, t0: nat, i0: nat, pa: nat)
    requires Tree(mem, root, nodes) && t0 in nodes && i0 < ENTRIES && nodes[t0].level > 0
    requires !IsTable(mem[t0][i0]) && FrameOk(pa) && pa !in nodes && Zeroed(mem, pa)
    ensures Tree(Store(mem, t0, i0, PackTable(pa / PAGE)), root, Linked(nodes, t0, i0, pa))
  {
    var mem', nodes' := Store(mem, t0, i0, PackTable(pa / PAGE)), Linked(nodes, t0, i0, pa);
    ChildNodeOk(nodes[t0], i0, t0);
    StoreRam(mem, t0, i0, PackTable(pa / PAGE));
    forall t | t in nodes' ensures FrameOk(t) && NodeOk(nodes'[t]) && IsTableFrame(mem', t) {
      assert t == pa || t in nodes;
    }
    forall t, i | t in nodes' && 0 <= i < ENTRIES ensures EntryOk(mem', nodes', t, i) {
      LinkEntries(mem, root, nodes, t0, i0, pa, t, i);
    }
    forall t | t in nodes' ensures LinkOk(mem', root, nodes', t) {
      LinkLinks(mem, root, nodes, t0, i0, pa, t);
    }
  }

  // Linking a zeroed table under an invalid entry is invisible.
  lemma LinkInvisible(mem: Mem, root: nat, nodes: Nodes, t0: nat, i0: nat, pa: nat)
    requires Tree(mem, root, nodes) && t0 in nodes && i0 < ENTRIES && nodes[t0].level > 0
    requires !IsValid(mem[t0][i0]) && FrameOk(pa) && pa !in nodes && Zeroed(mem, pa)
    ensures forall va: nat :: Lookup(Store(mem, t0, i0, PackTable(pa / PAGE)), root, va) == Lookup(mem, root, va)
  {
    var mem', nodes' := Store(mem, t0, i0, PackTable(pa / PAGE)), Linked(nodes, t0, i0, pa);
    LinkTree(mem, root, nodes, t0, i0, pa);
    PackTableFields(pa);
    StoreOutside(mem, root, nodes, mem', t0, i0);
    forall va: nat ensures Lookup(mem', root, va) == Lookup(mem, root, va) {
      if InSlot(nodes[t0], i0, va) {
        SlotInside(nodes[t0], i0, va);
        LookupAt(mem, root, nodes, t0, va);
        LookupAt(mem', root, nodes', t0, va);
      }
    }
  }

  // ---- Overwriting a table pointer ----

  // Node u hangs below slot (n, i).
  predicate Below(u: Node, n: Node, i: nat) {
    u.level < n.level && SlotBase(n, i) <= u.base < SlotBase(n, i) + Span(n.level)
  }

  function Pruned(nodes: Nodes, n: Node, i: nat): (r: Nodes) {
    map t | t in nodes && !Below(nodes[t], n, i) :: nodes[t]
  }

  // A parent lies below a slot whenever its child does, unless the slot's own entry is the link.
  lemma BelowParent(mem: Mem, root: nat, nodes: Nodes, t0: nat, i0: nat, p: nat, i: nat, c: nat)
    requires Tree(mem, root, nodes) && t0 in nodes && i0 < ENTRIES
    requires p in nodes && i < ENTRIES && c in nodes && IsTable(mem[p][i]) && PpnField(mem[p][i]) == c
    requires (p, i) != (t0, i0)
    ensures Below(nodes[c], nodes[t0], i0) <==> Below(nodes[p], nodes[t0], i0)
  {
    assert EntryOk(mem, nodes, p, i);
    var n, m := nodes[t0], nodes[p];
    SlotVpn(n.base, n.level, i0);
    SlotVpn(m.base, m.level, i);
    if m.level < n.level {
      NoStraddle(m.base, m.level + 1, SlotBase(n, i0), n.level);
    } else if m.level == n.level && Below(nodes[c], n, i0) {
      OwnBase(m, i);
      SameSlot(mem, root, nodes, t0, i0, p, i);
    }
  }

  // Two slots of one level that share an address are the same slot.
  lemma SameSlot(mem: Mem, root: nat, nodes: Nodes, t: nat, i: nat, u: nat, j: nat)
    requires Tree(mem, root, nodes) && t in nodes && u in nodes && i < ENTRIES && j < ENTRIES
    requires nodes[t].level == nodes[u].level && InSlot(nodes[t], i, SlotBase(nodes[u], j))
    ensures (t, i) == (u, j)
  {
    var va := SlotBase(nodes[u], j);
    OwnBase(nodes[u], j);
    SlotInside(nodes[t], i, va);
    SlotInside(nodes[u], j, va);
    WalkFinds(mem, root, nodes, t, va);
    WalkFinds(mem, root, nodes, u, va);
  }

  lemma OverwriteLinks(mem: Mem, root: nat, nodes: Nodes, t0: nat, i0: nat, e: nat, t: nat)
    requires Tree(mem, root, nodes) && t0 in nodes && i0 < ENTRIES
    requires t in nodes && !Below(nodes[t], nodes[t0], i0)
    ensures LinkOk(Store(mem, t0, i0, e), root, Pruned(nodes, nodes[t0], i0), t)
  {
    assert LinkOk(mem, root, nodes, t);
    if t != root {
      var n := nodes[t];
      var p, i := n.parent, Vpn(n.base, n.level + 1);
      assert EntryOk(mem, nodes, p, i);
      if (p, i) != (t0, i0) {
        BelowParent(mem, root, nodes, t0, i0, p, i, t);
      } else {
        OwnBase(nodes[t0], i0);
      }
    }
  }

  // Overwriting any entry with a leaf keeps a tree; tables below a lost pointer drop out of it.
  lemma OverwriteTree(mem: Mem, root: nat, nodes: Nodes, t0: nat, i0: nat, e: nat)
    requires Tree(mem, root, nodes) && t0 in nodes && i0 < ENTRIES && e < PTE_LIMIT && (IsLeaf(e) <==> IsValid(e))
    ensures Tree(Store(mem, t0, i0, e), root, Pruned(nodes, nodes[t0], i0))
    ensures t0 in Pruned(nodes, nodes[t0], i0)
  {
    var mem', nodes' := Store(mem, t0, i0, e), Pruned(nodes, nodes[t0], i0);
    StoreRam(mem, t0, i0, e);
    forall t, i | t in nodes' && 0 <= i < ENTRIES ensures EntryOk(mem', nodes', t, i) {
      assert EntryOk(mem, nodes, t, i);
      if (t, i) != (t0, i0) && IsTable(mem[t][i]) {
        BelowParent(mem, root, nodes, t0, i0, t, i, PpnField(mem[t][i]));
      }
    }
    forall t | t in nodes' ensures LinkOk(mem', root, nodes', t) {
      OverwriteLinks(mem, root, nodes, t0, i0, e, t);
    }
  }
}
