/**
 What a caller sees of an address space: which page maps where, what one store or one
 allocation of tables leaves unchanged, and which memories another hart may observe
 on the way.
 */
module PageViews {
  import opened Arith
  import opened Wrappers
  import opened Sv48
  import opened PageTree

  datatype MappingConfig = MappingConfig(permissions: nat, levels: nat, pageSize: nat, vaddr: nat, paddr: nat, tag: nat)

  // A well-formed request: the page size belongs to the level count, and the page lies in the 56-bit
  // physical space.
  predicate ConfigOk(c: MappingConfig) {
    1 <= c.levels <= 4 && c.pageSize == Span(4 - c.levels) && c.paddr + c.pageSize <= PA_LIMIT
  }

  // The request sets R, W or X. Otherwise pack_leaf builds an entry that reads as a table pointer.
  predicate Grants(c: MappingConfig) {
    c.permissions / 2 % 8 != 0
  }

  predicate OnPage(c: MappingConfig)
    requires c.pageSize > 0
  {
    c.paddr % c.pageSize == 0 && c.vaddr % c.pageSize == 0
  }

  // The request for the page at offset o.
  function At(c: MappingConfig, o: nat): (r: MappingConfig) {
    c.(vaddr := c.vaddr + o, paddr := c.paddr + o)
  }

  lemma OnPageNext(c: MappingConfig, o: nat)
    requires ConfigOk(c) && OnPage(At(c, o))
    ensures OnPage(At(c, o + c.pageSize)) && (c.vaddr + o) % Span(4 - c.levels) == 0
  {
    var va, pa := c.vaddr + o, c.paddr + o;
    DivUnique(va + c.pageSize, c.pageSize, va / c.pageSize + 1, 0);
    DivUnique(pa + c.pageSize, c.pageSize, pa / c.pageSize + 1, 0);
  }

  // ---- What callers see ----

  // The two addresses lie in one page of level l (compared modulo 2^48).
  predicate SamePage(va: nat, page: nat, l: Level) {
    Low48(va) / Span(l) == Low48(page) / Span(l)
  }

  // Where a page or a range is to be mapped, and with which flags.
  datatype Target = Target(pa: nat, flags: nat)

  function Plus(to: Target, o: nat): (r: Target) {
    to.(pa := to.pa + o)
  }

  // One leaf of level l maps the page.
  ghost predicate MapsPage(mem: Mem, root: nat, page: nat, to: Target, l: Level) {
    forall va: nat :: SamePage(va, page, l) ==> Lookup(mem, root, va) == Some(Mapped(to.pa + va % Span(l), to.flags, l))
  }

  ghost predicate PageUnmapped(mem: Mem, root: nat, page: nat, l: Level) {
    forall va: nat :: SamePage(va, page, l) ==> Lookup(mem, root, va) == None
  }

  ghost predicate SameElsewhere(mem: Mem, mem': Mem, root: nat, page: nat, l: Level) {
    forall va: nat :: !SamePage(va, page, l) ==> Lookup(mem', root, va) == Lookup(mem, root, va)
  }

  ghost predicate SameEverywhere(mem: Mem, mem': Mem, root: nat) {
    forall va: nat :: Lookup(mem', root, va) == Lookup(mem, root, va)
  }

  // No valid leaf of the tables `nodes` has been overwritten.
  ghost predicate LeavesKept(mem: Mem, mem': Mem, nodes: Nodes) {
    forall t, i :: t in nodes && 0 <= i < ENTRIES ==> LeafKept(mem, mem', t, i)
  }

  predicate LeafKept(mem: Mem, mem': Mem, t: nat, i: nat)
    requires i < ENTRIES
  {
    IsTableFrame(mem, t) && IsValid(mem[t][i]) && IsLeaf(mem[t][i]) ==>
      IsTableFrame(mem', t) && mem'[t][i] == mem[t][i]
  }

  // ---- Pages and slots ----

  lemma SlotIsPage(n: Node, page: nat, va: nat)
    requires NodeOk(n) && Holds(n, page)
    ensures InSlot(n, Vpn(page, n.level), va) <==> SamePage(va, page, n.level)
  {
    var s, slot := Span(n.level), SlotBase(n, Vpn(page, n.level));
    VpnSlot(page, n.base, n.level);
    var q := slot / s;
    assert slot == q * s;
    DivIff(Low48(page), s, q);
    DivIff(Low48(va), s, q);
  }

  lemma SlotToPage(mem: Mem, mem': Mem, root: nat, n: Node, page: nat)
    requires NodeOk(n) && Holds(n, page) && SameOutsideSlot(mem, mem', root, n, Vpn(page, n.level))
    ensures SameElsewhere(mem, mem', root, page, n.level)
  {
    forall va: nat | !SamePage(va, page, n.level) ensures Lookup(mem', root, va) == Lookup(mem, root, va) {
      SlotIsPage(n, page, va);
    }
  }

  lemma PageAt(mem: Mem, root: nat, nodes: Nodes, t: nat, page: nat, va: nat)
    requires Tree(mem, root, nodes) && t in nodes && Holds(nodes[t], page) && SamePage(va, page, nodes[t].level)
    ensures Lookup(mem, root, va) == Translate(mem, t, nodes[t].level, va)
    ensures Vpn(va, nodes[t].level) == Vpn(page, nodes[t].level)
  {
    SlotIsPage(nodes[t], page, va);
    SlotInside(nodes[t], Vpn(page, nodes[t].level), va);
    LookupAt(mem, root, nodes, t, va);
  }

  // The page sees the entry that its slot holds.
  lemma PageSeesEntry(mem: Mem, root: nat, nodes: Nodes, t: nat, page: nat)
    requires Tree(mem, root, nodes) && t in nodes && Holds(nodes[t], page)
    ensures var l := nodes[t].level;
            var e := mem[t][Vpn(page, l)];
            && (!IsValid(e) ==> PageUnmapped(mem, root, page, l))
            && (IsValid(e) && IsLeaf(e) ==> MapsPage(mem, root, page, Target(PpnAddress(e), Flags(e)), l))
  {
    hide EntryOk, LinkOk, NodeOk, Vpn, IsValid, IsLeaf, PpnAddress, PpnField, SamePage;
    var l := nodes[t].level;
    forall va: nat | SamePage(va, page, l)
      ensures Lookup(mem, root, va) ==
                var e := mem[t][Vpn(page, l)];
                if !IsValid(e) then None
                else if IsLeaf(e) then Some(Mapped(PpnAddress(e) + va % Span(l), Flags(e), l))
                else Lookup(mem, root, va)
    {
      PageAt(mem, root, nodes, t, page, va);
    }
  }

  // ---- Memories that agree on the tree ----

  ghost predicate Agree(mem: Mem, mem': Mem, nodes: Nodes) {
    forall t :: t in nodes ==> t in mem && t in mem' && mem'[t] == mem[t]
  }

  lemma AgreeTree(mem: Mem, mem': Mem, root: nat, nodes: Nodes)
    requires Tree(mem, root, nodes) && Agree(mem, mem', nodes) && Ram(mem')
    ensures Tree(mem', root, nodes)
  {
    forall t, i | t in nodes && 0 <= i < ENTRIES ensures EntryOk(mem', nodes, t, i) {
      assert EntryOk(mem, nodes, t, i);
    }
    forall t | t in nodes ensures LinkOk(mem', root, nodes, t) {
      assert LinkOk(mem, root, nodes, t);
    }
  }

  lemma AgreeSame(mem: Mem, mem': Mem, root: nat, nodes: Nodes)
    requires Tree(mem, root, nodes) && Agree(mem, mem', nodes)
    ensures SameEverywhere(mem, mem', root)
  {
    forall va: nat ensures Lookup(mem', root, va) == Lookup(mem, root, va) {
      var i := if Vpn(va, 3) == 0 then 1 else 0;
      RootHolds(mem, root, nodes, va);
      HoldsSlot(nodes[root], va);
      TranslateFrame(mem, root, nodes, mem', root, i, root, va);
    }
  }

  lemma LeavesTrans(m0: Mem, m1: Mem, m2: Mem, n0: Nodes, n1: Nodes)
    requires LeavesKept(m0, m1, n0) && LeavesKept(m1, m2, n1) && n0.Keys <= n1.Keys
    ensures LeavesKept(m0, m2, n0)
  {
    forall t, i | t in n0 && 0 <= i < ENTRIES ensures LeafKept(m0, m2, t, i) {
      assert LeafKept(m0, m1, t, i) && LeafKept(m1, m2, t, i);
    }
  }

  lemma LeavesRefl(m: Mem, nodes: Nodes)
    ensures LeavesKept(m, m, nodes)
  {
  }

  ghost predicate Grown(n0: Nodes, n1: Nodes) {
    forall t :: t in n0 ==> t in n1 && n1[t] == n0[t]
  }

  // Zeroing a frame outside the tree (m0 to m1) and linking it under an invalid entry.
  lemma LinkEffect(m0: Mem, m1: Mem, root: nat, nodes: Nodes, t: nat, i: nat, pa: nat)
    requires Tree(m0, root, nodes) && Tree(m1, root, nodes) && Agree(m0, m1, nodes)
    requires t in nodes && i < ENTRIES && nodes[t].level > 0 && !IsValid(m0[t][i])
    requires FrameOk(pa) && pa !in nodes && Zeroed(m1, pa)
    ensures var m2 := Store(m1, t, i, PackTable(pa / PAGE));
            && Tree(m2, root, Linked(nodes, t, i, pa))
            && SameEverywhere(m0, m2, root) && LeavesKept(m0, m2, nodes)
  {
    hide EntryOk, LinkOk, NodeOk, Lookup, PackTable;
    AgreeSame(m0, m1, root, nodes);
    LinkTree(m1, root, nodes, t, i, pa);
    LinkInvisible(m1, root, nodes, t, i, pa);
  }

  // What the proofs track of an address space and its page source; dry means that the source has no
  // frame left.
  datatype Snapshot = Snapshot(
    mem: Mem, nodes: Nodes, hist: seq<Mem>, leaked: set<nat>, taken: set<nat>, books: (seq<set<nat>>, set<nat>),
    dry: bool)

  // Every table but the root is taken from the page source, and so is what was cut off.
  ghost predicate Backs(root: nat, s: Snapshot) {
    s.nodes.Keys - {root} <= s.taken && s.leaked <= s.taken && s.leaked !! s.nodes.Keys
  }

  // Every memory stored between the two snapshots translates as the first did and keeps its leaves.
  ghost predicate Silent(root: nat, m0: Mem, n0: Nodes, h0: seq<Mem>, h1: seq<Mem>) {
    h0 <= h1 && forall k :: |h0| <= k < |h1| ==>
      SameEverywhere(m0, h1[k], root) && LeavesKept(m0, h1[k], n0)
  }

  // The tables taken from the page source between the snapshots are exactly the new nodes.
  ghost predicate TookNewNodes(s0: Snapshot, s1: Snapshot) {
    && s1.taken == s0.taken + (s1.nodes.Keys - s0.nodes.Keys)
    && s0.taken !! (s1.nodes.Keys - s0.nodes.Keys)
    && s1.books == s0.books && s1.leaked == s0.leaked && Grown(s0.nodes, s1.nodes)
  }

  // From s0 to s1 tables may have been added, but nothing that is visible has changed.
  ghost predicate Quiet(root: nat, s0: Snapshot, s1: Snapshot) {
    && TookNewNodes(s0, s1)
    && SameEverywhere(s0.mem, s1.mem, root) && LeavesKept(s0.mem, s1.mem, s0.nodes)
    && Silent(root, s0.mem, s0.nodes, s0.hist, s1.hist)
  }

  lemma TookRefl(s: Snapshot)
    ensures TookNewNodes(s, s)
  {
  }

  lemma TookTrans(s0: Snapshot, s1: Snapshot, s2: Snapshot)
    requires TookNewNodes(s0, s1) && TookNewNodes(s1, s2)
    ensures TookNewNodes(s0, s2) && s0.nodes.Keys <= s1.nodes.Keys
  {
  }

  lemma QuietRefl(root: nat, s: Snapshot)
    ensures Quiet(root, s, s)
  {
  }

  lemma QuietTrans(root: nat, s0: Snapshot, s1: Snapshot, s2: Snapshot)
    requires Quiet(root, s0, s1) && Quiet(root, s1, s2)
    ensures Quiet(root, s0, s2)
  {
    LeavesTrans(s0.mem, s1.mem, s2.mem, s0.nodes, s1.nodes);
    forall k | |s0.hist| <= k < |s2.hist|
      ensures SameEverywhere(s0.mem, s2.hist[k], root) && LeavesKept(s0.mem, s2.hist[k], s0.nodes)
    {
      if k < |s1.hist| {
        assert s2.hist[k] == s1.hist[k];
      } else {
        LeavesTrans(s0.mem, s1.mem, s2.hist[k], s0.nodes, s1.nodes);
      }
    }
  }

  lemma LinkedQuiet(root: nat, s0: Snapshot, s1: Snapshot, t: nat, i: nat, pa: nat)
    requires t in s0.nodes && s0.nodes[t].level > 0 && s1.nodes == Linked(s0.nodes, t, i, pa)
    requires pa !in s0.nodes && pa !in s0.taken && s1.taken == s0.taken + {pa}
    requires s1.books == s0.books && s1.leaked == s0.leaked
    requires SameEverywhere(s0.mem, s1.mem, root) && LeavesKept(s0.mem, s1.mem, s0.nodes)
    requires Silent(root, s0.mem, s0.nodes, s0.hist, s1.hist)
    ensures Quiet(root, s0, s1) && s1.nodes.Keys == s0.nodes.Keys + {pa}
  {
    assert s1.nodes.Keys == s0.nodes.Keys + {pa};
  }

  // ---- Writing one leaf slot ----

  // Storing a leaf, or clearing it, changes what its page sees and nothing else.
  lemma PutLeaf(m: Mem, root: nat, nodes: Nodes, t: nat, page: nat, e: nat)
    requires Tree(m, root, nodes) && t in nodes && Holds(nodes[t], page) && e < PTE_LIMIT && (IsLeaf(e) <==> IsValid(e))
    requires !IsTable(m[t][Vpn(page, nodes[t].level)])
    ensures var l := nodes[t].level;
            var m' := Store(m, t, Vpn(page, l), e);
            && Tree(m', root, nodes) && SameElsewhere(m, m', root, page, l)
            && (!IsValid(e) ==> PageUnmapped(m', root, page, l))
            && (IsValid(e) ==> MapsPage(m', root, page, Target(PpnAddress(e), Flags(e)), l))
  {
    hide EntryOk, LinkOk, Vpn;
    var i := Vpn(page, nodes[t].level);
    var m' := Store(m, t, i, e);
    StoreLeafTree(m, root, nodes, t, i, e);
    StoreOutside(m, root, nodes, m', t, i);
    SlotToPage(m, m', root, nodes[t], page);
    PageSeesEntry(m', root, nodes, t, page);
  }

  // The same over an entry of any kind; a subtree below it is cut off.
  lemma PutOver(m: Mem, root: nat, nodes: Nodes, t: nat, page: nat, e: nat)
    requires Tree(m, root, nodes) && t in nodes && Holds(nodes[t], page) && e < PTE_LIMIT && IsLeaf(e) && IsValid(e)
    ensures var l := nodes[t].level;
            var i := Vpn(page, l);
            var m' := Store(m, t, i, e);
            && Tree(m', root, Pruned(nodes, nodes[t], i)) && SameElsewhere(m, m', root, page, l)
            && MapsPage(m', root, page, Target(PpnAddress(e), Flags(e)), l)
  {
    hide EntryOk, LinkOk, Vpn;
    var i := Vpn(page, nodes[t].level);
    var m' := Store(m, t, i, e);
    OverwriteTree(m, root, nodes, t, i, e);
    StoreOutside(m, root, nodes, m', t, i);
    SlotToPage(m, m', root, nodes[t], page);
    PageSeesEntry(m', root, Pruned(nodes, nodes[t], i), t, page);
  }

  // Where a request asks its page to go.
  function Goal(c: MappingConfig): (to: Target) {
    Target(c.paddr, LeafFlags(c.permissions, c.tag))
  }

  // The leaf entry of a mapping request.
  function LeafEntry(c: MappingConfig): (e: nat) {
    PackLeaf(c.paddr / PAGE, c.permissions, c.tag)
  }

  lemma LeafEntryFields(c: MappingConfig)
    requires ConfigOk(c) && c.paddr % c.pageSize == 0
    ensures LeafEntry(c) < PTE_LIMIT && IsValid(LeafEntry(c)) && (IsLeaf(LeafEntry(c)) <==> Grants(c))
    ensures FrameOk(c.paddr) && PpnField(LeafEntry(c)) == c.paddr
    ensures Target(PpnAddress(LeafEntry(c)), Flags(LeafEntry(c))) == Goal(c)
  {
    NoStraddle(c.paddr, 4 - c.levels, 0, 4 - c.levels);
    NoStraddle(0, 0, c.paddr, 4 - c.levels);
    PackLeafFields(c.paddr, c.permissions, c.tag);
  }

  // Every memory stored from h0 to h1 agrees with m0 outside one page and keeps its leaves.
  ghost predicate SilentOutside(root: nat, m0: Mem, n0: Nodes, h0: seq<Mem>, h1: seq<Mem>, page: nat, l: Level) {
    h0 <= h1 && forall k :: |h0| <= k < |h1| ==>
      SameElsewhere(m0, h1[k], root, page, l) && LeavesKept(m0, h1[k], n0)
  }

  lemma QuietIsSilentOutside(root: nat, s0: Snapshot, s1: Snapshot, page: nat, l: Level)
    requires Quiet(root, s0, s1)
    ensures SameElsewhere(s0.mem, s1.mem, root, page, l)
    ensures SilentOutside(root, s0.mem, s0.nodes, s0.hist, s1.hist, page, l)
  {
    hide LeavesKept;
    forall k | |s0.hist| <= k < |s1.hist| ensures SameElsewhere(s0.mem, s1.hist[k], root, page, l) {
      assert SameEverywhere(s0.mem, s1.hist[k], root);
    }
  }

  lemma QuietThenStore(root: nat, s0: Snapshot, s1: Snapshot, m2: Mem, page: nat, l: Level)
    requires Quiet(root, s0, s1)
    requires SameElsewhere(s1.mem, m2, root, page, l) && LeavesKept(s1.mem, m2, s1.nodes)
    ensures SameElsewhere(s0.mem, m2, root, page, l) && LeavesKept(s0.mem, m2, s0.nodes)
    ensures SilentOutside(root, s0.mem, s0.nodes, s0.hist, s1.hist + [m2], page, l)
  {
    LeavesTrans(s0.mem, s1.mem, m2, s0.nodes, s1.nodes);
    QuietIsSilentOutside(root, s0, s1, page, l);
  }

  lemma SameRefl(m: Mem, root: nat)
    ensures SameEverywhere(m, m, root)
  {
  }

  lemma SameTrans(m0: Mem, m1: Mem, m2: Mem, root: nat, page: nat, l: Level)
    requires SameElsewhere(m0, m1, root, page, l) && SameElsewhere(m1, m2, root, page, l)
    ensures SameElsewhere(m0, m2, root, page, l)
  {
  }

  lemma UnmappedBefore(m0: Mem, m1: Mem, root: nat, page: nat, l: Level)
    requires SameEverywhere(m0, m1, root) && PageUnmapped(m1, root, page, l)
    ensures PageUnmapped(m0, root, page, l)
  {
  }

  lemma StoreKeepsLeaves(m: Mem, t: nat, i: nat, e: nat, nodes: Nodes)
    requires IsTableFrame(m, t) && i < ENTRIES && !(IsValid(m[t][i]) && IsLeaf(m[t][i]))
    ensures LeavesKept(m, Store(m, t, i, e), nodes)
  {
  }

  // The walk for va ends at a valid leaf of level l.
  predicate LeafAt(mem: Mem, root: nat, va: nat, l: Level) {
    var w := WalkTo(mem, root, va, l);
    w.Some? && IsTableFrame(mem, w.value) && IsValid(mem[w.value][Vpn(va, l)]) && IsLeaf(mem[w.value][Vpn(va, l)])
  }

  lemma LeafStored(mem: Mem, root: nat, nodes: Nodes, t: nat, va: nat)
    requires Tree(mem, root, nodes) && t in nodes && Holds(nodes[t], va)
    requires IsValid(mem[t][Vpn(va, nodes[t].level)]) && IsLeaf(mem[t][Vpn(va, nodes[t].level)])
    ensures LeafAt(mem, root, va, nodes[t].level)
  {
    hide EntryOk, LinkOk, Vpn, IsValid, IsLeaf, Holds;
    WalkFinds(mem, root, nodes, t, va);
  }

  function FloorPage(pa: nat): (p: nat) {
    pa - pa % PAGE
  }

  lemma WholePage(pa: nat)
    requires pa < PA_LIMIT
    ensures var p := FloorPage(pa); p % PAGE == 0 && p < PA_LIMIT && p / PAGE == pa / PAGE
  {
  }

  // A walk that meets no table pointer at level k finds no table below.
  lemma {:induction false} WalkStops(mem: Mem, root: nat, va: nat, l: Level, k: Level)
    requires l < k
    requires var w := WalkTo(mem, root, va, k);
             w.None? || !IsTableFrame(mem, w.value) || !IsTable(mem[w.value][Vpn(va, k)])
    ensures WalkTo(mem, root, va, l).None?
  {
    if WalkTo(mem, root, va, l).Some? { WalkPrefix(mem, root, va, l, k); }
  }
}
