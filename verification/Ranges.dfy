/** Mappings of whole virtual ranges, built page by page (mmu/src/mmap.rs:333-381, 596-735). */
module Ranges {
  import opened Arith
  import opened Wrappers
  import opened Sv48
  import opened PageTree
  import opened PageViews
  import opened Tiling

  // Every byte of the range maps to the byte at the same offset, under the flags asked for and by a
  // leaf of the planned size.
  ghost predicate MapsRange(mem: Mem, root: nat, va: nat, to: Target, p: Plan, len: nat) {
    forall o: nat :: o < len ==> MapsByte(mem, root, va, to, p, o)
  }

  predicate MapsByte(mem: Mem, root: nat, va: nat, to: Target, p: Plan, o: nat) {
    Lookup(mem, root, va + o) == Some(Mapped(to.pa + o, to.flags, PlanLevel(p, o)))
  }

  // The range is mapped up to some offset, and all else is as it was.
  ghost predicate MapsPart(mem: Mem, mem': Mem, root: nat, va: nat, to: Target, p: Plan, len: nat) {
    exists done: nat :: done <= len && MapsUpTo(mem, mem', root, va, to, p, done)
  }

  ghost predicate MapsUpTo(mem: Mem, mem': Mem, root: nat, va: nat, to: Target, p: Plan, done: nat) {
    MapsRange(mem', root, va, to, p, done) && SameOutsideRange(mem, mem', root, va, done)
  }

  ghost predicate RangeUnmapped(mem: Mem, root: nat, va: nat, len: nat) {
    forall x: nat :: InRange(x, va, len) ==> Lookup(mem, root, x) == None
  }

  // x is one of the len addresses from va on, modulo 2^48.
  predicate InRange(x: nat, va: nat, len: nat) {
    (Low48(x) - Low48(va)) % VA_LIMIT < len
  }

  ghost predicate SameOutsideRange(mem: Mem, mem': Mem, root: nat, va: nat, len: nat) {
    forall x: nat :: !InRange(x, va, len) ==> Lookup(mem', root, x) == Lookup(mem, root, x)
  }

  // The translation of an address depends on its low 48 bits only.
  lemma {:induction false} TranslateLow48(mem: Mem, t: nat, l: Level, va: nat)
    ensures Translate(mem, t, l, va) == Translate(mem, t, l, Low48(va))
    decreases l
  {
    VpnLow48(va, l);
    if IsTableFrame(mem, t) {
      var e := mem[t][Vpn(va, l)];
      if IsTable(e) && l > 0 { TranslateLow48(mem, PpnField(e), l - 1, va); }
    }
  }

  lemma LookupAlias(mem: Mem, root: nat, va: nat)
    ensures Lookup(mem, root, va + VA_LIMIT) == Lookup(mem, root, va)
  {
    DivUnique(va + VA_LIMIT, VA_LIMIT, va / VA_LIMIT + 1, va % VA_LIMIT);
    TranslateLow48(mem, root, 3, va);
    TranslateLow48(mem, root, 3, va + VA_LIMIT);
  }

  // No tables can map a range longer than what 48 bits address.
  lemma MapsRangeBound(mem: Mem, root: nat, va: nat, to: Target, p: Plan, len: nat)
    requires MapsRange(mem, root, va, to, p, len)
    ensures len <= VA_LIMIT
  {
    hide Lookup;
    if len > VA_LIMIT {
      LookupAlias(mem, root, va);
      var first, last := MapsByte(mem, root, va, to, p, 0), MapsByte(mem, root, va, to, p, VA_LIMIT);
    }
  }

  lemma OffsetInRange(va: nat, o: nat)
    requires o < VA_LIMIT
    ensures (Low48(va + o) - Low48(va)) % VA_LIMIT == o
  {
    var a, b := va / VA_LIMIT, (va + o) / VA_LIMIT;
    assert Low48(va + o) - Low48(va) == (a - b) * VA_LIMIT + o;
    DivUnique(Low48(va + o) - Low48(va), VA_LIMIT, a - b, o);
  }

  // An aligned page begins at a multiple of its size, also after dropping the high bits.
  lemma PageStart(p: nat, l: Level)
    requires p % Span(l) == 0
    ensures Low48(p) % Span(l) == 0
  {
    VpnLow48(p, l);
  }

  // The addresses of the page at va + len are the next ones of the range.
  lemma NextPage(x: nat, va: nat, len: nat, l: Level)
    requires (va + len) % Span(l) == 0 && len + Span(l) <= VA_LIMIT && SamePage(x, va + len, l)
    ensures InRange(x, va, len + Span(l)) && !InRange(x, va, len)
  {
    var p, s := va + len, Span(l);
    PageStart(p, l);
    var q := Low48(p) / s;
    assert Low48(p) == q * s;
    DivIff(Low48(x), s, q);
    var r := Low48(x) - Low48(p);
    assert 0 <= r < s;
    var a, b := va / VA_LIMIT, p / VA_LIMIT;
    assert Low48(x) - Low48(va) == (a - b) * VA_LIMIT + (len + r);
    DivUnique(Low48(x) - Low48(va), VA_LIMIT, a - b, len + r);
  }

  lemma SameWiden(m: Mem, m': Mem, root: nat, va: nat, len: nat, l: Level)
    requires (va + len) % Span(l) == 0 && SameElsewhere(m, m', root, va + len, l)
    ensures SameOutsideRange(m, m', root, va, len + Span(l))
  {
    forall x: nat | !InRange(x, va, len + Span(l)) ensures Lookup(m', root, x) == Lookup(m, root, x) {
      if SamePage(x, va + len, l) && len + Span(l) <= VA_LIMIT { NextPage(x, va, len, l); }
    }
  }

  // Outside the longer range nothing has changed after one more page.
  lemma RangeSameStep(m0: Mem, m: Mem, m': Mem, root: nat, va: nat, len: nat, l: Level)
    requires (va + len) % Span(l) == 0 && SameElsewhere(m, m', root, va + len, l)
    requires SameOutsideRange(m0, m, root, va, len)
    ensures SameOutsideRange(m0, m', root, va, len + Span(l))
  {
    hide Lookup;
    SameWiden(m, m', root, va, len, l);
    forall x: nat | !InRange(x, va, len + Span(l)) ensures Lookup(m', root, x) == Lookup(m0, root, x) {
      assert !InRange(x, va, len);
    }
  }

  // One more page extends the mapped range.
  lemma RangeMapsStep(m: Mem, m': Mem, root: nat, va: nat, to: Target, p: Plan, len: nat, l: Level)
    requires (va + len) % Span(l) == 0 && len + Span(l) <= VA_LIMIT
    requires SameElsewhere(m, m', root, va + len, l) && MapsPage(m', root, va + len, Plus(to, len), l)
    requires MapsRange(m, root, va, to, p, len) && PlanHas(p, len, l)
    ensures MapsRange(m', root, va, to, p, len + Span(l))
  {
    hide Lookup, Span, SamePage, Low48, PlanLevel;
    forall o: nat | o < len + Span(l) ensures MapsByte(m', root, va, to, p, o) {
      if o < len {
        assert MapsByte(m, root, va, to, p, o);
        OffsetInRange(va, o);
        if SamePage(va + o, va + len, l) { NextPage(va + o, va, len, l); }
      } else {
        PageOffset(va + len, o - len, l);
      }
    }
  }

  lemma PageOffset(p: nat, r: nat, l: Level)
    requires p % Span(l) == 0 && r < Span(l)
    ensures SamePage(p + r, p, l) && (p + r) % Span(l) == r
  {
    var s := Span(l);
    var q := p / s;
    assert p == q * s;
    DivUnique(p + r, s, q, r);
    VpnLow48(p + r, l);
    PageStart(p, l);
    SpanDivides(l);
    LowSum(p, r, l);
  }

  lemma SpanDivides(l: Level)
    ensures VA_LIMIT % Span(l) == 0
  {
    match l case 0 => case 1 => case 2 => case _ =>
  }

  // Adding an offset within a page does not carry out of the low 48 bits.
  lemma LowSum(p: nat, r: nat, l: Level)
    requires p % Span(l) == 0 && r < Span(l)
    ensures Low48(p + r) == Low48(p) + r && Low48(p + r) / Span(l) == Low48(p) / Span(l)
  {
    var s, lo, v := Span(l), Low48(p), p / VA_LIMIT;
    PageStart(p, l);
    NoStraddle(lo, l, 0, 4);
    assert lo + r < VA_LIMIT;
    assert p + r == v * VA_LIMIT + (lo + r);
    DivUnique(p + r, VA_LIMIT, v, lo + r);
    var q := lo / s;
    assert lo == q * s;
    DivUnique(lo + r, s, q, r);
  }

  lemma EmptyRange(m: Mem, root: nat, va: nat, to: Target, p: Plan)
    ensures SameOutsideRange(m, m, root, va, 0) && MapsRange(m, root, va, to, p, 0)
  {
  }

  // A failure after `done` bytes leaves them mapped.
  lemma PartMapped(m0: Mem, m: Mem, m': Mem, root: nat, va: nat, to: Target, p: Plan, done: nat, len: nat)
    requires MapsRange(m, root, va, to, p, done) && SameOutsideRange(m0, m, root, va, done)
    requires SameEverywhere(m, m', root) && done <= len
    ensures MapsPart(m0, m', root, va, to, p, len)
  {
    hide Lookup;
    forall o: nat | o < done ensures MapsByte(m', root, va, to, p, o) { assert MapsByte(m, root, va, to, p, o); }
    assert MapsUpTo(m0, m', root, va, to, p, done);
  }

  lemma RangeGrow(m: Mem, m': Mem, root: nat, va: nat, done: nat, len: nat)
    requires SameOutsideRange(m, m', root, va, done) && done <= len
    ensures SameOutsideRange(m, m', root, va, len)
  {
    hide Lookup;
  }

  // A failed page changes nothing, so the longer range is still all that may have changed.
  lemma RangeSameErr(m0: Mem, m: Mem, m': Mem, root: nat, va: nat, done: nat, len: nat)
    requires SameOutsideRange(m0, m, root, va, done) && SameEverywhere(m, m', root) && done <= len
    ensures SameOutsideRange(m0, m', root, va, len)
  {
    hide Lookup;
  }

  // ---- Reserved ranges: mmu/src/mmap.rs:283-304 ----

  // Every table above the leaf level exists for x.
  predicate Reserved(mem: Mem, root: nat, x: nat) {
    WalkTo(mem, root, x, 0).Some?
  }

  // x lies in the span of the leaf table visited by the j-th stride from start.
  predicate VisitedAt(x: nat, start: nat, j: nat) {
    SamePage(x, start + j * Span(1), 1)
  }

  ghost predicate VisitedBefore(x: nat, start: nat, k: nat) {
    exists j: nat :: j < k && VisitedAt(x, start, j)
  }

  // The strides of a reservation: those that begin before end.
  ghost predicate Visited(x: nat, start: nat, end: nat) {
    exists j: nat :: start + j * Span(1) < end && VisitedAt(x, start, j)
  }

  // A node spans the block of any address it holds.
  lemma HoldsIsBlock(n: Node, va: nat, x: nat)
    requires NodeOk(n) && n.level < 3 && Holds(n, va)
    ensures Holds(n, x) <==> SamePage(x, va, n.level + 1)
  {
    var s := Span(n.level + 1);
    var q := n.base / s;
    assert n.base == q * s;
    DivIff(Low48(va), s, q);
    DivIff(Low48(x), s, q);
  }

  // Every table added between n0 and n1 lies on the path of va.
  ghost predicate NewNodesHold(n0: Nodes, n1: Nodes, va: nat) {
    forall t :: t in n1 && t !in n0 ==> Holds(n1[t], va)
  }

  // Materialising the path of va reserves exactly the block of va in addition.
  lemma ReservedStep(m0: Mem, m1: Mem, root: nat, n0: Nodes, n1: Nodes, va: nat, t: nat, x: nat)
    requires Tree(m0, root, n0) && Tree(m1, root, n1) && Grown(n0, n1) && NewNodesHold(n0, n1, va)
    requires t in n1 && n1[t].level == 0 && Holds(n1[t], va)
    ensures Reserved(m1, root, x) <==> Reserved(m0, root, x) || SamePage(x, va, 1)
  {
    hide EntryOk, LinkOk, Holds, SamePage;
    HoldsIsBlock(n1[t], va, x);
    if SamePage(x, va, 1) { WalkFinds(m1, root, n1, t, x); }
    if Reserved(m0, root, x) {
      WalkSound(m0, root, n0, x, 0);
      WalkFinds(m1, root, n1, WalkTo(m0, root, x, 0).value, x);
    }
    if Reserved(m1, root, x) {
      WalkSound(m1, root, n1, x, 0);
      var u := WalkTo(m1, root, x, 0).value;
      if u in n0 { WalkFinds(m0, root, n0, u, x); } else { HoldsIsBlock(n1[u], va, x); }
    }
  }

  // Addresses in one 2 MiB block share their leaf table.
  lemma SameBlock(x: nat, y: nat)
    requires x / Span(1) == y / Span(1)
    ensures SamePage(x, y, 1)
  {
    BlockIndex(x);
    BlockIndex(y);
  }

  lemma BlockIndex(x: nat)
    ensures Low48(x) / Span(1) == x / Span(1) % 0x800_0000
  {
    var s, v, lo := Span(1), x / VA_LIMIT, Low48(x);
    var i, r := lo / s, lo % s;
    DivUnique(x, s, v * 0x800_0000 + i, r);
    assert i < 0x800_0000;
    DivUnique(v * 0x800_0000 + i, 0x800_0000, v, i);
  }

  // Both the start's offset in its block and the tail of the length fit in one stride.
  predicate StridesFit(start: nat, end: nat)
    requires start <= end
  {
    var s, len := Span(1), end - start;
    if len % s == 0 then start % s == 0 || len == 0 else start % s + len % s <= s
  }

  // The strides visit every address of the range if the range fits them; a start on a 2 MiB
  // boundary always does.
  lemma StridesCover(start: nat, end: nat, x: nat)
    requires start <= x < end && StridesFit(start, end)
    ensures Visited(x, start, end)
  {
    var s, len := Span(1), end - start;
    var b, off := start / s, start % s;
    var n, tail := len / s, len % s;
    var c := x / s;
    assert c >= b by { if c < b { StepApart(c, b, s); } }
    var j := c - b;
    assert c * s == b * s + j * s;
    if start + j * s >= end {
      if j > n { StepApart(n, j, s); }
      if j < n { StepApart(j, n, s); }
    }
    DivUnique(start + j * s, s, b + j, off);
    SameBlock(x, start + j * s);
    assert VisitedAt(x, start, j);
  }

  // Otherwise they miss the last leaf table.
  lemma StridesMiss(start: nat, end: nat)
    requires start <= end && end - start + Span(1) <= VA_LIMIT && !StridesFit(start, end)
    ensures !Visited(end - 1, start, end)
  {
    var s, x := Span(1), end - 1;
    var b, off := start / s, start % s;
    if j: nat :| start + j * s < end && VisitedAt(x, start, j) {
      var c, r := x / s, x % s;
      DivUnique(start + j * s, s, b + j, off);
      BlockIndex(x);
      BlockIndex(start + j * s);
      assert (b + j) * s == b * s + j * s;
      assert b + j <= c by { if c < b + j { StepApart(c, b + j, s); } }
      assert c < b + j + 0x800_0000 by { if c >= b + j + 0x800_0000 { MulLe(b + j + 0x800_0000, c, s); } }
      ModEqual(b + j, c, 0x800_0000);
      var t := r - off + 1;
      assert end - start == j * s + t;
      if off > 0 { DivUnique(end - start, s, j, t); }
    }
  }

  // A range that long has a stride in every block.
  lemma StridesWrap(start: nat, end: nat, x: nat)
    requires end - start + Span(1) > VA_LIMIT
    ensures Visited(x, start, end)
  {
    var s, n := Span(1), 0x800_0000;
    var b, off := start / s, start % s;
    var xb := x / s % n;
    var j := (xb - b) % n;
    MulLe(j, n - 1, s);
    DivUnique(start + j * s, s, b + j, off);
    BlockIndex(x);
    BlockIndex(start + j * s);
    var q := (xb - b) / n;
    DivUnique(b + j, n, -q, xb);
    assert VisitedAt(x, start, j);
  }

  // The strides reach the whole range: it fits them, or it leaves no block out anyway.
  predicate StridesReach(start: nat, end: nat)
    requires start <= end
  {
    StridesFit(start, end) || end - start + Span(1) > VA_LIMIT
  }

  // So a successful reservation covers the whole range exactly when the strides reach it.
  lemma StridesCoverIff(start: nat, end: nat)
    requires start <= end
    ensures (forall x: nat :: start <= x < end ==> Visited(x, start, end)) <==> StridesReach(start, end)
  {
    hide Visited;
    if StridesReach(start, end) {
      forall x: nat | start <= x < end ensures Visited(x, start, end) {
        if StridesFit(start, end) { StridesCover(start, end, x); } else { StridesWrap(start, end, x); }
      }
    } else {
      StridesMiss(start, end);
    }
  }

  // Two memories of one tree reserve the same addresses.
  lemma ReservedSame(m0: Mem, m1: Mem, root: nat, nodes: Nodes, x: nat)
    requires Tree(m0, root, nodes) && Tree(m1, root, nodes)
    ensures Reserved(m1, root, x) <==> Reserved(m0, root, x)
  {
    hide EntryOk, LinkOk;
    if Reserved(m0, root, x) {
      WalkSound(m0, root, nodes, x, 0);
      WalkFinds(m1, root, nodes, WalkTo(m0, root, x, 0).value, x);
    }
    if Reserved(m1, root, x) {
      WalkSound(m1, root, nodes, x, 0);
      WalkFinds(m0, root, nodes, WalkTo(m1, root, x, 0).value, x);
    }
  }

  // One more stride of a reservation.
  lemma ReservedNext(m0: Mem, m1: Mem, m2: Mem, root: nat, n1: Nodes, n2: Nodes, start: nat, k: nat, t: nat)
    requires Tree(m1, root, n1) && Tree(m2, root, n2) && Grown(n1, n2)
    requires var va := start + k * Span(1); NewNodesHold(n1, n2, va) && t in n2 && n2[t].level == 0 && Holds(n2[t], va)
    requires forall x: nat :: Reserved(m1, root, x) <==> Reserved(m0, root, x) || VisitedBefore(x, start, k)
    ensures forall x: nat :: Reserved(m2, root, x) <==> Reserved(m0, root, x) || VisitedBefore(x, start, k + 1)
  {
    hide Tree, Reserved, SamePage, Grown, NewNodesHold;
    forall x: nat ensures Reserved(m2, root, x) <==> Reserved(m0, root, x) || VisitedBefore(x, start, k + 1) {
      ReservedStep(m1, m2, root, n1, n2, start + k * Span(1), t, x);
      assert VisitedAt(x, start, k) <==> SamePage(x, start + k * Span(1), 1);
    }
  }

  lemma VisitedDone(start: nat, end: nat, k: nat)
    requires start + k * Span(1) >= end && forall j: nat :: j < k ==> start + j * Span(1) < end
    ensures forall x: nat :: Visited(x, start, end) <==> VisitedBefore(x, start, k)
  {
    forall x: nat ensures Visited(x, start, end) <==> VisitedBefore(x, start, k) {
      if j: nat :| start + j * Span(1) < end && VisitedAt(x, start, j) {
        if j >= k { MulLe(k, j, Span(1)); }
      }
    }
  }

  // ---- Unmapping ----

  lemma EmptyUnmapped(m: Mem, root: nat, va: nat)
    ensures RangeUnmapped(m, root, va, 0) && SameOutsideRange(m, m, root, va, 0)
  {
  }

  // The range is cleared up to `done`, and all else is as it was.
  ghost predicate ClearsUpTo(mem: Mem, mem': Mem, root: nat, va: nat, done: nat) {
    RangeUnmapped(mem', root, va, done) && SameOutsideRange(mem, mem', root, va, done)
  }

  ghost predicate ClearsPart(mem: Mem, mem': Mem, root: nat, va: nat, len: nat) {
    exists done: nat :: done <= len && ClearsUpTo(mem, mem', root, va, done)
  }

  lemma ClearedPart(mem: Mem, mem': Mem, root: nat, va: nat, done: nat, len: nat)
    requires done <= len && (ClearsUpTo(mem, mem', root, va, done) || (done == 0 && mem' == mem))
    ensures ClearsPart(mem, mem', root, va, len)
  {
    if done == 0 && mem' == mem { assert ClearsUpTo(mem, mem', root, va, 0); }
  }

  lemma RangeUnmappedStep(m: Mem, m': Mem, root: nat, va: nat, done: nat)
    requires (va + done) % PAGE == 0 && done + PAGE <= VA_LIMIT
    requires SameElsewhere(m, m', root, va + done, 0) && PageUnmapped(m', root, va + done, 0)
    requires RangeUnmapped(m, root, va, done)
    ensures RangeUnmapped(m', root, va, done + PAGE)
  {
    hide Lookup;
    forall x: nat | InRange(x, va, done + PAGE) ensures Lookup(m', root, x) == None {
      if !SamePage(x, va + done, 0) { LastPage(x, va, done, 0); }
    }
  }

  // A page that is still unmapped after the pages before it were mapped was unmapped at the start.
  lemma RangeFreeStep(m0: Mem, m: Mem, root: nat, va: nat, done: nat, l: Level)
    requires (va + done) % Span(l) == 0 && done + Span(l) <= VA_LIMIT
    requires SameOutsideRange(m0, m, root, va, done) && PageUnmapped(m, root, va + done, l)
    requires RangeUnmapped(m0, root, va, done)
    ensures RangeUnmapped(m0, root, va, done + Span(l))
  {
    hide InRange, SamePage, Lookup, Span;
    forall x: nat | InRange(x, va, done + Span(l)) ensures Lookup(m0, root, x) == None {
      if !InRange(x, va, done) { LastPage(x, va, done, l); }
    }
  }

  // An address of the longer range is in the shorter one or in the last page.
  lemma LastPage(x: nat, va: nat, done: nat, l: Level)
    requires (va + done) % Span(l) == 0 && done + Span(l) <= VA_LIMIT && InRange(x, va, done + Span(l))
    ensures InRange(x, va, done) || SamePage(x, va + done, l)
  {
    var o := (Low48(x) - Low48(va)) % VA_LIMIT;
    if o >= done {
      OffsetInRange(va, o);
      SameOffset(x, va + o, va);
      PageOffset(va + done, o - done, l);
    }
  }

  lemma SameOffset(x: nat, y: nat, va: nat)
    requires (Low48(x) - Low48(va)) % VA_LIMIT == (Low48(y) - Low48(va)) % VA_LIMIT
    ensures Low48(x) == Low48(y)
  {
    var a, b, v := Low48(x), Low48(y), Low48(va);
    var p, q := (a - v) / VA_LIMIT, (b - v) / VA_LIMIT;
    assert a - b == (p - q) * VA_LIMIT;
  }

  // The tables below the first i slots of t.
  ghost function SubBefore(nodes: Nodes, t: nat, i: nat): (s: set<nat>)
    requires t in nodes
  {
    set u | u in nodes && nodes[u].level < nodes[t].level && nodes[t].base <= nodes[u].base < SlotBase(nodes[t], i)
  }

  lemma SubNone(nodes: Nodes, t: nat)
    requires t in nodes
    ensures SubBefore(nodes, t, 0) == {}
  {
  }

  lemma SubMono(nodes: Nodes, t: nat, i: nat, j: nat)
    requires t in nodes && i <= j
    ensures SubBefore(nodes, t, i) <= SubBefore(nodes, t, j)
  {
    MulLe(i, j, Span(nodes[t].level));
  }

  // The tables below slot i of t.
  ghost function SlotTables(nodes: Nodes, t: nat, i: nat): (s: set<nat>)
    requires t in nodes
  {
    set u | u in nodes && nodes[u].level < nodes[t].level
            && SlotBase(nodes[t], i) <= nodes[u].base < SlotBase(nodes[t], i + 1)
  }

  lemma SubStep(nodes: Nodes, t: nat, i: nat, taken: set<nat>)
    requires t in nodes && i < ENTRIES && SubBefore(nodes, t, ENTRIES) <= taken
    ensures SubBefore(nodes, t, i + 1) == SubBefore(nodes, t, i) + SlotTables(nodes, t, i)
    ensures SubBefore(nodes, t, i) !! SlotTables(nodes, t, i)
    ensures SubBefore(nodes, t, i) + SlotTables(nodes, t, i) <= taken
  {
    MulStep(i, Span(nodes[t].level));
    MulLe(0, i, Span(nodes[t].level));
    SubMono(nodes, t, i + 1, ENTRIES);
  }

  // They are the table that the slot points at and the tables below it, if it points at one.
  lemma SlotTablesAre(mem: Mem, root: nat, nodes: Nodes, t: nat, i: nat)
    requires Tree(mem, root, nodes) && t in nodes && i < ENTRIES
    ensures !IsTable(mem[t][i]) ==> SlotTables(nodes, t, i) == {}
    ensures IsTable(mem[t][i]) ==>
              var c := PpnField(mem[t][i]);
              && c in nodes && nodes[t].level > 0 && nodes[c].level == nodes[t].level - 1
              && c !in SubBefore(nodes, c, ENTRIES)
              && SlotTables(nodes, t, i) == SubBefore(nodes, c, ENTRIES) + {c}
  {
    hide LinkOk, IsValid, IsLeaf, PpnField, Vpn;
    var n := nodes[t];
    assert EntryOk(mem, nodes, t, i);
    MulStep(i, Span(n.level));
    if IsTable(mem[t][i]) {
      var c := PpnField(mem[t][i]);
      SpanStep(n.level - 1);
      forall u | u in SlotTables(nodes, t, i) ensures u == c || u in SubBefore(nodes, c, ENTRIES) {
        InChildSlot(mem, root, nodes, t, i, c, u);
      }
    } else {
      forall u | u in nodes && nodes[u].level < n.level ensures u !in SlotTables(nodes, t, i) {
        SlotEmpty(mem, root, nodes, t, i, u);
        OwnBase(nodes[u], 0);
      }
    }
  }

  lemma FreedBoth(freed: seq<nat>, s: set<nat>, more: seq<nat>, s': set<nat>)
    requires multiset(freed) == multiset(s) && multiset(more) == multiset(s') && s !! s'
    ensures multiset(freed + more) == multiset(s + s')
  {
  }

  lemma InChildSlot(mem: Mem, root: nat, nodes: Nodes, t: nat, i: nat, c: nat, u: nat)
    requires Tree(mem, root, nodes) && t in nodes && i < ENTRIES && c in nodes && u in nodes
    requires nodes[t].level > 0 && nodes[c] == Node(nodes[t].level - 1, SlotBase(nodes[t], i), t)
    requires nodes[u].level < nodes[t].level
    requires SlotBase(nodes[t], i) <= nodes[u].base < SlotBase(nodes[t], i) + Span(nodes[t].level)
    ensures u == c || (nodes[u].level < nodes[c].level && nodes[u].base < nodes[c].base + Span(nodes[t].level))
  {
    hide EntryOk, LinkOk;
    if nodes[u].level == nodes[c].level {
      NoStraddle(nodes[c].base, nodes[t].level, nodes[u].base, nodes[t].level);
      NodeUnique(mem, root, nodes, u, c);
    }
  }

  lemma SubRoot(mem: Mem, root: nat, nodes: Nodes)
    requires Tree(mem, root, nodes)
    ensures SubBefore(nodes, root, ENTRIES) == nodes.Keys - {root}
  {
    hide EntryOk;
    forall u | u in nodes && u != root ensures u in SubBefore(nodes, root, ENTRIES) {
      assert LinkOk(mem, root, nodes, u);
    }
  }
}
