/** The loop that map_va_range and id_map_range share (mmu/src/mmap.rs:613-659, 684-734). */
module BulkMaps {
  import opened Sv48
  import opened PageTree
  import opened PageViews
  import opened Ranges
  import opened Obstacles
  import opened Tiling
  import opened CutOffs

  // The range does not meet itself again in the 48 translated bits.
  predicate NoWrap(len: nat) {
    Whole(len) <= VA_LIMIT
  }

  // One of the leaves chosen for the range lies under a larger leaf.
  predicate SomeStuck(mem: Mem, root: nat, va: nat, pa: nat, len: nat)
    decreases len
  {
    len >= PAGE &&
    var l := PickLevel(va, pa, len);
    Stuck(mem, root, va, l) || SomeStuck(mem, root, va + Span(l), pa + Span(l), len - Span(l))
  }

  // Of the leaves chosen for the range, those up to `done` are not stuck.
  predicate StuckLeft(mem: Mem, root: nat, va: nat, pa: nat, done: nat, rem: nat) {
    SomeStuck(mem, root, va, pa, done + rem) <==> SomeStuck(mem, root, va + done, pa + done, rem)
  }

  lemma StuckStep(mem: Mem, root: nat, va: nat, pa: nat, done: nat, rem: nat, l: Level)
    requires rem >= PAGE && l == PickLevel(va + done, pa + done, rem) && StuckLeft(mem, root, va, pa, done, rem)
    requires !Stuck(mem, root, va + done, l)
    ensures StuckLeft(mem, root, va, pa, done + Span(l), rem - Span(l))
  {
    hide Stuck;
    assert done + Span(l) + (rem - Span(l)) == done + rem;
    assert va + (done + Span(l)) == va + done + Span(l) && pa + (done + Span(l)) == pa + done + Span(l);
  }

  // The leaves that the loop chooses for the range.
  function Leaves(va: nat, pa: nat, len: nat): (p: Plan) {
    InTurn(Tiles(va, pa, len))
  }

  // The range is mapped up to `done`, nothing else has changed, and the books and the report agree.
  ghost predicate Underway(root: nat, s0: Snapshot, s: Snapshot, va: nat, to: Target,
                           done: nat, rem: nat, report: IdMapReport) {
    && Whole(rem) == Whole(done + rem) - done
    && Tally(Tiles(va + done, to.pa + done, rem), report) == Counts(Tiles(va, to.pa, done + rem))
    && LeavesLeft(Tiles(va, to.pa, done + rem), done, Tiles(va + done, to.pa + done, rem))
    && SameOutsideRange(s0.mem, s.mem, root, va, done)
    && (NoWrap(done + rem) ==> MapsRange(s.mem, root, va, to, Leaves(va, to.pa, done + rem), done))
    && (va % PAGE == 0 && to.pa % PAGE == 0 ==> (va + done) % PAGE == 0 && (to.pa + done) % PAGE == 0)
    && (done > 0 ==> va % PAGE == 0 && to.pa % PAGE == 0)
    && (NoWrap(done + rem) ==> StuckLeft(s0.mem, root, va, to.pa, done, rem))
    && RangeBooks(s0, s, va, to.pa, done, rem, NoWrap(done + rem))
  }

  lemma UnderwayStart(root: nat, s: Snapshot, va: nat, to: Target, len: nat)
    ensures Underway(root, s, s, va, to, 0, len, NO_PAGES)
  {
    hide Tally, Tiles, Whole, SameOutsideRange, MapsRange, RangeBooks, SomeStuck, Counts;
    EmptyRange(s.mem, root, va, to, Leaves(va, to.pa, len));
    ReportCounts(va, to.pa, len);
    BooksStart(s, va, to.pa, len, NoWrap(len));
  }

  // One more page, of the level that the loop picks.
  lemma UnderwayStep(root: nat, s0: Snapshot, s1: Snapshot, s2: Snapshot, va: nat, to: Target,
                     done: nat, rem: nat, report: IdMapReport, l: Level)
    requires Tree(s0.mem, root, s0.nodes) && Tree(s1.mem, root, s1.nodes)
    requires Underway(root, s0, s1, va, to, done, rem, report) && rem >= PAGE
    requires l == PickLevel(va + done, to.pa + done, rem)
    requires (va + done) % Span(l) == 0 && (to.pa + done) % Span(l) == 0
    requires Remapped(s1, s2, va + done, l) && SameElsewhere(s1.mem, s2.mem, root, va + done, l)
    requires MapsPage(s2.mem, root, va + done, Plus(to, done), l) && !Stuck(s1.mem, root, va + done, l)
    ensures Underway(root, s0, s2, va, to, done + Span(l), rem - Span(l), Bump(report, l))
  {
    hide Tree, Tally, Tiles, Whole, PickLevel, Span, SameOutsideRange, SameElsewhere, MapsRange, MapsPage, RangeBooks;
    hide Remapped, Bump, StuckLeft, Lookup, LeavesLeft, PlanHas, Counts;
    var len := done + rem;
    assert done + Span(l) + (rem - Span(l)) == len;
    TallyStep(va + done, to.pa + done, rem, report);
    LeavesStep(Tiles(va, to.pa, len), va + done, to.pa + done, done, rem);
    assert va + (done + Span(l)) == va + done + Span(l) && to.pa + (done + Span(l)) == to.pa + done + Span(l);
    PickAligned(va + done, to.pa + done, rem);
    BothOnPage(va + done, to.pa + done, l);
    RangeSameStep(s0.mem, s1.mem, s2.mem, root, va, done, l);
    if NoWrap(len) {
      RangeMapsStep(s1.mem, s2.mem, root, va, to, Leaves(va, to.pa, len), done, l);
      NextUntouched(s0.mem, s1.mem, root, va, done, Whole(len));
      StuckStep(s0.mem, root, va, to.pa, done, rem, l);
    }
    BooksStep(root, s0, s1, s2, va, to.pa, done, rem, l, NoWrap(len));
  }

  // A page that fails ends the loop. On page-aligned starts the page was aligned, and if it was stuck
  // then, so it was before the call.
  lemma UnderwayErr(root: nat, s0: Snapshot, s1: Snapshot, s2: Snapshot, va: nat, to: Target,
                    done: nat, rem: nat, report: IdMapReport)
    requires Underway(root, s0, s1, va, to, done, rem, report) && rem >= PAGE
    requires TookNewNodes(s1, s2) && Backs(root, s1) && SameEverywhere(s1.mem, s2.mem, root)
    ensures SameOutsideRange(s0.mem, s2.mem, root, va, Whole(done + rem))
    ensures NoWrap(done + rem) ==>
              MapsPart(s0.mem, s2.mem, root, va, to, Leaves(va, to.pa, done + rem), Whole(done + rem))
    ensures Accounted(s0, s2) && RangeCost(root, s0, s2, va, to.pa, done + rem, false)
    ensures va % PAGE == 0 && to.pa % PAGE == 0 ==>
              var l := PickLevel(va + done, to.pa + done, rem);
              (va + done) % Span(l) == 0 && (to.pa + done) % Span(l) == 0
    ensures NoWrap(done + rem) && Stuck(s1.mem, root, va + done, PickLevel(va + done, to.pa + done, rem)) ==>
              SomeStuck(s0.mem, root, va, to.pa, done + rem)
  {
    hide Tally, Tiles, PickLevel, Span, SameOutsideRange, SameEverywhere, MapsRange, RangeCost, Accounted, TookNewNodes;
    hide Backs, Lookup, MapsPart, LeavesLeft, Counts;
    var len := done + rem;
    PickAligned(va + done, to.pa + done, rem);
    assert 0 < Whole(rem);
    hide Whole;
    RangeSameErr(s0.mem, s1.mem, s2.mem, root, va, done, Whole(len));
    BooksErr(root, s0, s1, s2, va, to.pa, done, rem);
    if NoWrap(len) {
      NextUntouched(s0.mem, s1.mem, root, va, done, Whole(len));
      PartMapped(s0.mem, s1.mem, s2.mem, root, va, to, Leaves(va, to.pa, len), done, Whole(len));
    }
  }

  lemma UnderwayEnd(root: nat, s0: Snapshot, s: Snapshot, va: nat, to: Target,
                    done: nat, rem: nat, report: IdMapReport)
    requires Tree(s0.mem, root, s0.nodes) && Backs(root, s0)
    requires Underway(root, s0, s, va, to, done, rem, report) && rem < PAGE
    ensures SameOutsideRange(s0.mem, s.mem, root, va, Whole(done + rem)) 
    ensures report == Counts(Tiles(va, to.pa, done + rem))
    ensures NoWrap(done + rem) ==>
              MapsRange(s.mem, root, va, to, Leaves(va, to.pa, done + rem), Whole(done + rem))
    ensures Accounted(s0, s) && RangeCost(root, s0, s, va, to.pa, done + rem, true)
    ensures done + rem >= PAGE ==> va % PAGE == 0 && to.pa % PAGE == 0
    ensures NoWrap(done + rem) ==> !SomeStuck(s0.mem, root, va, to.pa, done + rem)
  {
    hide Tree, Backs, SameOutsideRange, MapsRange, RangeCost, Accounted, LeavesLeft, Counts;
    TallyStep(va + done, to.pa + done, rem, report);
    assert Whole(rem) == 0 && Whole(done + rem) == done;
    BooksEnd(root, s0, s, va, to.pa, done, rem);
  }

  // A bulk mapping whose leaves find no table in their slots costs nothing, even if it fails half way.
  lemma CostFree(root: nat, s0: Snapshot, s1: Snapshot, va: nat, pa: nat, len: nat, ok: bool)
    requires Tree(s0.mem, root, s0.nodes) && RangeCost(root, s0, s1, va, pa, len, ok) && NoWrap(len)
    ensures !SomeTableBelow(s0.mem, root, va, pa, len) ==> s1.leaked == s0.leaked
    ensures ok ==> (s1.leaked == s0.leaked <==> !SomeTableBelow(s0.mem, root, va, pa, len))
  {
    hide Tree, Whole;
    RangeCutIff(s0.mem, root, s0.nodes, va, pa, len);
  }
}
