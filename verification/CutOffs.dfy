/**
 What an overwriting mapping costs. map_page stores its leaf over whatever the slot holds
 (mmu/src/mmap.rs:527-572); when that is a table pointer, the tables below drop out of the
 tree and stay allocated. This module says which tables those are, for one page and for the
 whole tiling of a bulk mapping, and accounts for every frame taken.
 */
module CutOffs {
  import opened Arith
  import opened Sv48
  import opened PageTree
  import opened PageViews
  import opened Ranges
  import opened Obstacles
  import opened Tiling

  // The table lies inside the page of level l around `page`.
  predicate Inside(n: Node, page: nat, l: Level) {
    n.level < l && SamePage(n.base, page, l)
  }

  ghost function CutOff(nodes: Nodes, page: nat, l: Level): (s: set<nat>) {
    set t | t in nodes && Inside(nodes[t], page, l)
  }

  // Tables are cut off exactly if one hangs in the slot of the page, which a caller can see.
  lemma CutOffIff(mem: Mem, root: nat, nodes: Nodes, va: nat, l: Level)
    requires Tree(mem, root, nodes)
    ensures CutOff(nodes, va, l) != {} <==> TableBelow(mem, root, va, l)
  {
    hide EntryOk, LinkOk, SamePage, Holds, WalkTo;
    if TableBelow(mem, root, va, l) {
      WalkSound(mem, root, nodes, va, l - 1);
      var t := WalkTo(mem, root, va, l - 1).value;
      OwnBase(nodes[t], 0);
      HoldsIsBlock(nodes[t], va, nodes[t].base);
      assert t in CutOff(nodes, va, l);
    }
    if t :| t in CutOff(nodes, va, l) {
      var b := nodes[t].base;
      OwnBase(nodes[t], 0);
      WalkFinds(mem, root, nodes, t, b);
      if nodes[t].level < l - 1 { WalkPrefix(mem, root, b, nodes[t].level, l - 1); }
      WalkSound(mem, root, nodes, b, l - 1);
      var u := WalkTo(mem, root, b, l - 1).value;
      HoldsIsBlock(nodes[u], b, va);
      SamePageSym(b, va, l);
      WalkFinds(mem, root, nodes, u, va);
    }
  }

  lemma SamePageSym(x: nat, y: nat, l: Level)
    requires SamePage(x, y, l)
    ensures SamePage(y, x, l)
  {
  }

  // Addresses that share a page share every larger page.
  lemma SamePageUp(x: nat, y: nat, a: Level, b: Level)
    requires a <= b && SamePage(x, y, a)
    ensures SamePage(x, y, b)
  {
    var n := SpanMultiple(a, b);
    hide Span;
    DivDiv(Low48(x), Span(a), n);
    DivDiv(Low48(y), Span(a), n);
  }

  lemma DivDiv(x: nat, a: nat, n: nat)
    requires a > 0 && n > 0
    ensures n * a > 0 && x / (n * a) == x / a / n
  {
    var q, r := x / a / n, x / a % n;
    MulLe(r + 1, n, a);
    assert x / a * a == (q * n + r) * a == q * (n * a) + r * a;
    DivUnique(x, n * a, q, r * a + x % a);
  }

  // ---- One page ----

  function Without(nodes: Nodes, s: set<nat>): (r: Nodes) {
    map t | t in nodes && t !in s :: nodes[t]
  }

  predicate Has(nodes: Nodes, t: nat, n: Node) {
    t in nodes && nodes[t] == n
  }

  // Only tables on the path of va, or inside its page of level l, have come or gone.
  ghost predicate NodesStep(n0: Nodes, n1: Nodes, va: nat, l: Level) {
    forall t, n :: !Holds(n, va) && !Inside(n, va, l) ==> (Has(n0, t, n) <==> Has(n1, t, n))
  }

  // Every frame taken between the snapshots is a table of the tree or cut off.
  ghost predicate Accounted(s0: Snapshot, s1: Snapshot) {
    && s0.leaked <= s1.leaked && s0.nodes.Keys + s0.leaked <= s1.nodes.Keys + s1.leaked
    && s1.taken == s0.taken + (s1.nodes.Keys + s1.leaked - s0.nodes.Keys - s0.leaked)
    && s0.taken !! (s1.nodes.Keys + s1.leaked - s0.nodes.Keys - s0.leaked)
    && s1.books == s0.books
  }

  // The page was stored over whatever was there.
  ghost predicate Remapped(s0: Snapshot, s1: Snapshot, page: nat, l: Level) {
    Accounted(s0, s1) && NodesStep(s0.nodes, s1.nodes, page, l) && s1.leaked == s0.leaked + CutOff(s0.nodes, page, l)
  }

  lemma TookAccounted(s0: Snapshot, s1: Snapshot)
    requires TookNewNodes(s0, s1) && s0.leaked <= s0.taken
    ensures Accounted(s0, s1)
  {
  }

  lemma AccountedTrans(s0: Snapshot, s1: Snapshot, s2: Snapshot)
    requires Accounted(s0, s1) && Accounted(s1, s2)
    ensures Accounted(s0, s2)
  {
  }

  // The tables below a slot are those inside its page.
  lemma PrunedIsCutOff(mem: Mem, root: nat, nodes: Nodes, t: nat, page: nat)
    requires Tree(mem, root, nodes) && t in nodes && Holds(nodes[t], page)
    ensures Pruned(nodes, nodes[t], Vpn(page, nodes[t].level)) == Without(nodes, CutOff(nodes, page, nodes[t].level))
  {
    hide EntryOk, LinkOk, Vpn, Holds, SamePage;
    var n, i := nodes[t], Vpn(page, nodes[t].level);
    forall u | u in nodes ensures Below(nodes[u], n, i) <==> Inside(nodes[u], page, n.level) {
      OwnBase(nodes[u], 0);
      SlotIsPage(n, page, nodes[u].base);
    }
  }

  // Walking to level l (s0 to s1) and cutting off what is inside the page there (s1 to s2).
  lemma RemapNodes(root: nat, s0: Snapshot, s1: Snapshot, s2: Snapshot, va: nat, l: Level)
    requires Tree(s0.mem, root, s0.nodes) && TookNewNodes(s0, s1) && Backs(root, s0)
    requires NewNodesHold(s0.nodes, s1.nodes, va) && NewNodesAbove(s0.nodes, s1.nodes, l)
    requires s2.nodes == Without(s1.nodes, CutOff(s1.nodes, va, l))
    requires s2.leaked == s1.leaked + CutOff(s1.nodes, va, l) && s2.taken == s1.taken && s2.books == s1.books
    ensures Remapped(s0, s2, va, l)
    ensures s2.leaked == s0.leaked <==> !TableBelow(s0.mem, root, va, l)
  {
    hide Tree, Holds, SamePage, TableBelow;
    CutOffIff(s0.mem, root, s0.nodes, va, l);
    assert CutOff(s1.nodes, va, l) == CutOff(s0.nodes, va, l);
    TookAccounted(s0, s1);
  }

  // The root stays, and tables and cut-off tables stay apart, all of them taken.
  lemma StillBacked(root: nat, s1: Snapshot, s2: Snapshot, va: nat, l: Level)
    requires Backs(root, s1) && root in s2.nodes && s2.nodes == Without(s1.nodes, CutOff(s1.nodes, va, l))
    requires s2.leaked == s1.leaked + CutOff(s1.nodes, va, l) && s2.taken == s1.taken
    ensures Backs(root, s2)
  {
  }

  // ---- A range ----

  // The tables inside the leaves that map_va_range chooses for a range.
  ghost function RangeCut(nodes: Nodes, va: nat, pa: nat, len: nat): (s: set<nat>)
    decreases len
  {
    if len < PAGE then {}
    else
      var l := PickLevel(va, pa, len);
      CutOff(nodes, va, l) + RangeCut(nodes, va + Span(l), pa + Span(l), len - Span(l))
  }

  // One of the chosen leaves finds a table in its slot; 4 KiB leaves never do.
  predicate SomeTableBelow(mem: Mem, root: nat, va: nat, pa: nat, len: nat)
    decreases len
  {
    len >= PAGE &&
    var l := PickLevel(va, pa, len);
    TableBelow(mem, root, va, l) || SomeTableBelow(mem, root, va + Span(l), pa + Span(l), len - Span(l))
  }

  lemma {:induction false} RangeCutIff(mem: Mem, root: nat, nodes: Nodes, va: nat, pa: nat, len: nat)
    requires Tree(mem, root, nodes)
    ensures RangeCut(nodes, va, pa, len) != {} <==> SomeTableBelow(mem, root, va, pa, len)
    decreases len
  {
    hide Tree, PickLevel, CutOff, TableBelow;
    if len >= PAGE {
      var l := PickLevel(va, pa, len);
      CutOffIff(mem, root, nodes, va, l);
      RangeCutIff(mem, root, nodes, va + Span(l), pa + Span(l), len - Span(l));
    }
  }

  // No address of the table is among the first `done` of the range.
  ghost predicate Clear(n: Node, va: nat, done: nat) {
    NodeOk(n) && forall x: nat :: Holds(n, x) ==> !InRange(x, va, done)
  }

  // Tables that the first `done` bytes of the range do not meet are as they were.
  ghost predicate ClearKept(n0: Nodes, n1: Nodes, va: nat, done: nat) {
    forall t, n :: Clear(n, va, done) ==> (Has(n0, t, n) <==> Has(n1, t, n))
  }

  lemma InsideIsClear(n: Node, va: nat, done: nat, l: Level)
    requires NodeOk(n) && Inside(n, va + done, l) && (va + done) % Span(l) == 0 && done + Span(l) <= VA_LIMIT
    ensures Clear(n, va, done)
  {
    hide SamePage, InRange, Holds, NodeOk, Span;
    OwnBase(n, 0);
    forall x: nat | Holds(n, x) ensures !InRange(x, va, done) {
      HoldsIsBlock(n, n.base, x);
      SamePageUp(x, n.base, n.level + 1, l);
      SamePageTrans(x, n.base, va + done, l);
      NextPage(x, va, done, l);
    }
  }

  lemma SamePageTrans(x: nat, y: nat, z: nat, l: Level)
    requires SamePage(x, y, l) && SamePage(y, z, l)
    ensures SamePage(x, z, l)
  {
  }

  // What the next leaf cuts off is what it would have cut off at the start.
  lemma CutOffSame(n0: Nodes, n1: Nodes, va: nat, done: nat, l: Level)
    requires ClearKept(n0, n1, va, done) && (va + done) % Span(l) == 0 && done + Span(l) <= VA_LIMIT
    requires forall t :: t in n0 ==> NodeOk(n0[t])
    requires forall t :: t in n1 ==> NodeOk(n1[t])
    ensures CutOff(n1, va + done, l) == CutOff(n0, va + done, l)
  {
    hide Clear, Inside, NodeOk, Span;
    var c0, c1 := CutOff(n0, va + done, l), CutOff(n1, va + done, l);
    forall t | t in c1 ensures t in c0 {
      InsideIsClear(n1[t], va, done, l);
      assert Has(n1, t, n1[t]);
    }
    forall t | t in c0 ensures t in c1 {
      InsideIsClear(n0[t], va, done, l);
      assert Has(n0, t, n0[t]);
    }
  }

  lemma ClearStep(n0: Nodes, n1: Nodes, n2: Nodes, va: nat, done: nat, l: Level)
    requires ClearKept(n0, n1, va, done) && NodesStep(n1, n2, va + done, l)
    requires (va + done) % Span(l) == 0 && done + Span(l) <= VA_LIMIT
    ensures ClearKept(n0, n2, va, done + Span(l))
  {
    hide Span, SamePage, NodeOk;
    forall t, n | Clear(n, va, done + Span(l)) ensures Has(n0, t, n) <==> Has(n2, t, n) {
      OwnBase(n, 0);
      if Holds(n, va + done) { OffsetInRange(va, done); }
      if SamePage(n.base, va + done, l) { NextPage(n.base, va, done, l); }
      assert Clear(n, va, done);
      assert Has(n1, t, n) <==> Has(n2, t, n);
    }
  }

  // The books of a bulk mapping after `done` of its bytes, with rem to go. If the range does not
  // wrap, what is cut off is told by the tables at the start.
  ghost predicate RangeBooks(s0: Snapshot, s: Snapshot, va: nat, pa: nat, done: nat, rem: nat, fits: bool) {
    && Accounted(s0, s)
    && (fits ==> ClearKept(s0.nodes, s.nodes, va, done) && CutSoFar(s0, s, va, pa, done, rem))
  }

  ghost predicate CutSoFar(s0: Snapshot, s: Snapshot, va: nat, pa: nat, done: nat, rem: nat) {
    s.leaked + RangeCut(s0.nodes, va + done, pa + done, rem) == s0.leaked + RangeCut(s0.nodes, va, pa, done + rem)
  }

  lemma BooksStart(s: Snapshot, va: nat, pa: nat, len: nat, fits: bool)
    ensures RangeBooks(s, s, va, pa, 0, len, fits)
  {
  }

  lemma BooksStep(root: nat, s0: Snapshot, s1: Snapshot, s2: Snapshot, va: nat, pa: nat, done: nat, rem: nat,
                  l: Level, fits: bool)
    requires Tree(s0.mem, root, s0.nodes) && Tree(s1.mem, root, s1.nodes) && rem >= PAGE
    requires RangeBooks(s0, s1, va, pa, done, rem, fits) && Remapped(s1, s2, va + done, l)
    requires l == PickLevel(va + done, pa + done, rem) && (va + done) % Span(l) == 0
    requires fits ==> done + Span(l) <= VA_LIMIT
    ensures RangeBooks(s0, s2, va, pa, done + Span(l), rem - Span(l), fits)
  {
    AccountedTrans(s0, s1, s2);
    hide Accounted, ClearKept, NodesStep, CutOff, EntryOk, LinkOk, CutSoFar, RangeCut;
    if fits {
      ClearStep(s0.nodes, s1.nodes, s2.nodes, va, done, l);
      CutOffSame(s0.nodes, s1.nodes, va, done, l);
      hide Tree, ClearKept;
      CutStep(s0, s1, s2, va, pa, done, rem, l);
    }
  }

  lemma CutStep(s0: Snapshot, s1: Snapshot, s2: Snapshot, va: nat, pa: nat, done: nat, rem: nat, l: Level)
    requires rem >= PAGE && l == PickLevel(va + done, pa + done, rem) && CutSoFar(s0, s1, va, pa, done, rem)
    requires s2.leaked == s1.leaked + CutOff(s0.nodes, va + done, l)
    ensures CutSoFar(s0, s2, va, pa, done + Span(l), rem - Span(l))
  {
    hide CutOff;
    assert done + Span(l) + (rem - Span(l)) == done + rem;
    assert va + (done + Span(l)) == va + done + Span(l);
    var more := RangeCut(s0.nodes, va + done + Span(l), pa + done + Span(l), rem - Span(l));
    assert RangeCut(s0.nodes, va + done, pa + done, rem) == CutOff(s0.nodes, va + done, l) + more;
  }

  // What a bulk mapping costs: every frame taken is accounted for, at most the tables inside the
  // chosen leaves are cut off, and on success exactly those, which is none if and only if none of the
  // leaves found a table in its slot.
  ghost predicate RangeCost(root: nat, s0: Snapshot, s1: Snapshot, va: nat, pa: nat, len: nat, ok: bool) {
    && Accounted(s0, s1)
    && (Whole(len) <= VA_LIMIT ==> s1.leaked <= s0.leaked + RangeCut(s0.nodes, va, pa, len))
    && (Whole(len) <= VA_LIMIT && ok ==> s1.leaked == s0.leaked + RangeCut(s0.nodes, va, pa, len))
    && (Whole(len) <= VA_LIMIT && ok ==> (s1.leaked == s0.leaked <==> !SomeTableBelow(s0.mem, root, va, pa, len)))
  }

  lemma BooksErr(root: nat, s0: Snapshot, s1: Snapshot, s2: Snapshot, va: nat, pa: nat, done: nat, rem: nat)
    requires RangeBooks(s0, s1, va, pa, done, rem, Whole(done + rem) <= VA_LIMIT)
    requires TookNewNodes(s1, s2) && Backs(root, s1)
    ensures RangeCost(root, s0, s2, va, pa, done + rem, false) && Accounted(s0, s2)
  {
    hide ClearKept, Whole;
    TookAccounted(s1, s2);
    AccountedTrans(s0, s1, s2);
  }

  lemma BooksEnd(root: nat, s0: Snapshot, s: Snapshot, va: nat, pa: nat, done: nat, rem: nat)
    requires Tree(s0.mem, root, s0.nodes) && Backs(root, s0) && rem < PAGE
    requires RangeBooks(s0, s, va, pa, done, rem, Whole(done + rem) <= VA_LIMIT)
    ensures RangeCost(root, s0, s, va, pa, done + rem, true) && Accounted(s0, s)
  {
    hide Tree, ClearKept, Whole;
    RangeCutIff(s0.mem, root, s0.nodes, va, pa, done + rem);
    RangeCutInside(s0.nodes, va, pa, done + rem);
  }

  lemma NoCost(root: nat, s: Snapshot, va: nat, pa: nat, len: nat)
    ensures RangeCost(root, s, s, va, pa, len, false) && Accounted(s, s)
  {
    hide Whole;
  }

  lemma {:induction false} RangeCutInside(nodes: Nodes, va: nat, pa: nat, len: nat)
    ensures RangeCut(nodes, va, pa, len) <= nodes.Keys
    decreases len
  {
    if len >= PAGE {
      var l := PickLevel(va, pa, len);
      RangeCutInside(nodes, va + Span(l), pa + Span(l), len - Span(l));
    }
  }

  lemma FreshAccounted(root: nat, s0: Snapshot, s1: Snapshot)
    requires TookNewNodes(s0, s1) && Backs(root, s0)
    ensures Accounted(s0, s1) && s1.leaked == s0.leaked
  {
    TookAccounted(s0, s1);
  }

  // What is out after giving the tree of an address space back that began empty.
  lemma LifetimeBooks(root: nat, s0: Snapshot, s1: Snapshot, taken: set<nat>)
    requires Accounted(s0, s1) && s0.nodes.Keys == {root} && s0.leaked == {} && root in s1.nodes && Backs(root, s1)
    requires taken == s1.taken - (s1.nodes.Keys - {root})
    ensures taken == s0.taken + s1.leaked && s0.taken !! s1.leaked && s1.books == s0.books
  {
  }

  // A mapped 4 KiB page has its leaf table, so the page of the next size around it has a table below,
  // and no larger leaf is in the way.
  lemma SmallHasTable(mem: Mem, root: nat, nodes: Nodes, small: MappingConfig, va: nat)
    requires Tree(mem, root, nodes) && LeafAt(mem, root, small.vaddr, 0) && SamePage(small.vaddr, va, 1)
    ensures TableBelow(mem, root, va, 1) && WalkTo(mem, root, va, 1).Some?
  {
    hide EntryOk, LinkOk, Holds, SamePage, WalkTo;
    WalkSound(mem, root, nodes, small.vaddr, 0);
    var t := WalkTo(mem, root, small.vaddr, 0).value;
    HoldsIsBlock(nodes[t], small.vaddr, va);
    SamePageSym(small.vaddr, va, 1);
    WalkFinds(mem, root, nodes, t, va);
    WalkPrefix(mem, root, va, 0, 1);
  }

  // ---- An input that leaks ----

  const ROOT: nat := 0x1000

  lemma EmptyTree(mem: Mem, root: nat)
    requires Ram(mem) && FrameOk(root) && Zeroed(mem, root)
    ensures Tree(mem, root, map[root := Node(3, 0, root)])
  {
  }

  function BlankMem(): (mem: Mem) {
    map t | 0 <= t < PA_LIMIT && t % PAGE == 0 :: seq(ENTRIES, _ => 0)
  }

  ghost predicate BlankFrom(mem: Mem, k: nat) {
    forall pa: nat {:trigger FrameOk(pa)} :: FrameOk(pa) && pa >= k ==> Zeroed(mem, pa)
  }

  // Hang the zeroed frame pa under the first entry of table t.
  lemma HangFirst(mem: Mem, nodes: Nodes, t: nat, pa: nat) returns (m: Mem)
    requires Tree(mem, ROOT, nodes) && t in nodes && nodes[t].level > 0 && nodes[t].base == 0
    requires FrameOk(t) && FrameOk(pa) && pa !in nodes && t < pa && BlankFrom(mem, t)
    ensures Tree(m, ROOT, nodes[pa := Node(nodes[t].level - 1, 0, t)]) && BlankFrom(m, pa)
  {
    assert IsTableFrame(mem, t) && mem[t][0] == 0;
    hide Tree;
    NullEntry();
    m := Store(mem, t, 0, PackTable(pa / PAGE));
    LinkTree(mem, ROOT, nodes, t, 0, pa);
    hide PackTable;
  }

  lemma BlankRoot()
    ensures Tree(BlankMem(), ROOT, map[ROOT := Node(3, 0, ROOT)]) && BlankFrom(BlankMem(), ROOT)
  {
    EmptyTree(BlankMem(), ROOT);
  }

  // The tables on the way to address 0, down to level 1 and down to the leaf table.
  lemma PathToLevelOne() returns (mem: Mem, nodes: Nodes)
    ensures Tree(mem, ROOT, nodes) && BlankFrom(mem, 0x3000) && nodes.Keys == {ROOT, 0x2000, 0x3000}
    ensures nodes[ROOT].level == 3 && nodes[0x2000].level == 2 && nodes[0x3000] == Node(1, 0, 0x2000)
  {
    hide Tree, BlankFrom, BlankMem;
    BlankRoot();
    nodes := map[ROOT := Node(3, 0, ROOT)];
    mem := HangFirst(BlankMem(), nodes, ROOT, 0x2000);
    nodes := nodes[0x2000 := Node(2, 0, ROOT)];
    mem := HangFirst(mem, nodes, 0x2000, 0x3000);
    nodes := nodes[0x3000 := Node(1, 0, 0x2000)];
  }

  lemma PathOfZero() returns (mem: Mem, nodes: Nodes)
    ensures Tree(mem, ROOT, nodes) && BlankFrom(mem, 0x4000) && nodes.Keys == {ROOT, 0x2000, 0x3000, 0x4000}
    ensures nodes[ROOT].level == 3 && nodes[0x2000].level == 2 && nodes[0x3000].level == 1
    ensures nodes[0x4000] == Node(0, 0, 0x3000)
  {
    hide Tree, BlankFrom;
    mem, nodes := PathToLevelOne();
    mem := HangFirst(mem, nodes, 0x3000, 0x4000);
    nodes := nodes[0x4000 := Node(0, 0, 0x3000)];
  }

  lemma FirstEntry(mem: Mem, n: Node)
    requires BlankFrom(mem, 0x4000) && n.level == 0 && n.base == 0
    ensures IsTableFrame(mem, 0x4000) && mem[0x4000][0] == 0 && Vpn(0, 0) == 0 && Holds(n, 0)
  {
    assert FrameOk(0x4000);
  }

  lemma LeafAtZero(mem: Mem, nodes: Nodes) returns (m: Mem)
    requires Tree(mem, ROOT, nodes) && 0x4000 in nodes && nodes[0x4000] == Node(0, 0, 0x3000) && BlankFrom(mem, 0x4000)
    ensures Tree(m, ROOT, nodes) && LeafAt(m, ROOT, 0, 0)
  {
    hide Tree, BlankFrom, LeafAt, Vpn, Holds;
    FirstEntry(mem, nodes[0x4000]);
    NullEntry();
    var e := PackLeaf(0x5000 / PAGE, 2, 0);
    assert e < PTE_LIMIT && IsValid(e) && IsLeaf(e) by { PackLeafFields(0x5000, 2, 0); }
    hide PackLeaf, IsValid, IsLeaf;
    StoreLeafTree(mem, ROOT, nodes, 0x4000, 0, e);
    m := Store(mem, 0x4000, 0, e);
    LeafStored(m, ROOT, nodes, 0x4000, 0);
  }

  // One 4 KiB page at address 0: its leaf table hangs in the slot of the 2 MiB page around it, and
  // storing a 2 MiB leaf there cuts exactly that table off.
  lemma LeakExample() returns (mem: Mem, nodes: Nodes)
    ensures Tree(mem, ROOT, nodes) && nodes.Keys == {ROOT, 0x2000, 0x3000, 0x4000}
    ensures LeafAt(mem, ROOT, 0, 0) && TableBelow(mem, ROOT, 0, 1) && CutOff(nodes, 0, 1) == {0x4000}
  {
    hide Tree, BlankFrom, LeafAt, TableBelow, WalkTo;
    mem, nodes := PathOfZero();
    assert CutOff(nodes, 0, 1) == {0x4000};
    hide CutOff;
    mem := LeafAtZero(mem, nodes);
    CutOffIff(mem, ROOT, nodes, 0, 1);
  }
}
