/** How map_va_range and id_map_range choose leaf sizes (mmu/src/mmap.rs:613-659, 684-734). */
module Tiling {
  import opened Arith
  import opened Sv48

  // One step of the loop: the largest of 1 GiB, 2 MiB and 4 KiB that is aligned and fits.
  function PickLevel(va: nat, pa: nat, rem: nat): (l: Level)
    ensures l <= 2 && (rem >= PAGE ==> Span(l) <= rem)
  {
    if rem >= Span(2) && pa % Span(2) == 0 && va % Span(2) == 0 then 2
    else if rem >= Span(1) && pa % Span(1) == 0 && va % Span(1) == 0 then 1
    else 0
  }

  function Tiles(va: nat, pa: nat, len: nat): (ts: seq<Level>)
    ensures forall l :: l in ts ==> l <= 2
    decreases len
  {
    if len < PAGE then []
    else
      var l := PickLevel(va, pa, len);
      [l] + Tiles(va + Span(l), pa + Span(l), len - Span(l))
  }

  datatype IdMapReport = IdMapReport(giga: nat, mega: nat, regular: nat)

  function Bump(r: IdMapReport, l: Level): (r': IdMapReport) {
    match l
    case 0 => r.(regular := r.regular + 1)
    case 1 => r.(mega := r.mega + 1)
    case _ => r.(giga := r.giga + 1)
  }

  function Tally(ts: seq<Level>, r: IdMapReport): (r': IdMapReport) {
    if ts == [] then r else Tally(ts[1..], Bump(r, ts[0]))
  }

  const NO_PAGES: IdMapReport := IdMapReport(0, 0, 0)

  // How many leaves of each size there are.
  function Counts(ts: seq<Level>): (r: IdMapReport) {
    IdMapReport(multiset(ts)[2], multiset(ts)[1], multiset(ts)[0])
  }

  lemma {:induction false} TallyCounts(ts: seq<Level>, r: IdMapReport)
    requires forall l :: l in ts ==> l <= 2
    ensures var c := Counts(ts);
            Tally(ts, r) == IdMapReport(r.giga + c.giga, r.mega + c.mega, r.regular + c.regular)
  {
    if ts != [] {
      assert ts == [ts[0]] + ts[1..];
      assert forall l :: l in ts[1..] ==> l in ts;
      assert ts[0] in ts;
      TallyCounts(ts[1..], Bump(r, ts[0]));
    }
  }

  // The report of the loop counts the chosen leaves.
  lemma ReportCounts(va: nat, pa: nat, len: nat)
    ensures Tally(Tiles(va, pa, len), NO_PAGES) == Counts(Tiles(va, pa, len))
  {
    TallyCounts(Tiles(va, pa, len), NO_PAGES);
  }

  function ReportBytes(r: IdMapReport): (n: nat) {
    0x1000 * r.regular + 0x20_0000 * r.mega + 0x4000_0000 * r.giga
  }

  function Whole(len: nat): (n: nat) {
    len - len % PAGE
  }

  function WholePages(len: nat, size: nat): (n: nat)
    requires size > 0
    ensures n <= len
  {
    len - len % size
  }

  lemma WholePagesIs(len: nat, size: nat)
    requires size > 0
    ensures WholePages(len, size) == len / size * size
  {
  }

  lemma WholeStep(len: nat, l: Level)
    requires Span(l) <= len
    ensures Whole(len - Span(l)) == Whole(len) - Span(l)
  {
    match l case 0 => case 1 => case 2 => case _ =>
  }

  // The loop's bookkeeping: the report so far and the tiling of the rest make up the whole report.
  lemma TallyStep(va: nat, pa: nat, rem: nat, r: IdMapReport)
    ensures rem < PAGE ==> Tally(Tiles(va, pa, rem), r) == r
    ensures rem >= PAGE ==>
              var l := PickLevel(va, pa, rem);
              && Tally(Tiles(va, pa, rem), r) == Tally(Tiles(va + Span(l), pa + Span(l), rem - Span(l)), Bump(r, l))
              && Whole(rem - Span(l)) == Whole(rem) - Span(l)
  {
    if rem >= PAGE {
      var l := PickLevel(va, pa, rem);
      assert Tiles(va, pa, rem)[1..] == Tiles(va + Span(l), pa + Span(l), rem - Span(l));
      WholeStep(rem, l);
    }
  }

  // The leaves add up to the length rounded down to a page, from any start.
  lemma {:induction false} TallyBytes(va: nat, pa: nat, len: nat, r: IdMapReport)
    ensures ReportBytes(Tally(Tiles(va, pa, len), r)) == ReportBytes(r) + Whole(len)
    decreases len
  {
    if len >= PAGE {
      var l := PickLevel(va, pa, len);
      var rest := Tiles(va + Span(l), pa + Span(l), len - Span(l));
      assert Tiles(va, pa, len)[1..] == rest;
      WholeStep(len, l);
      TallyBytes(va + Span(l), pa + Span(l), len - Span(l), Bump(r, l));
    }
  }

  lemma {:induction false} ReportExact(va: nat, pa: nat, len: nat)
    ensures ReportBytes(Counts(Tiles(va, pa, len))) == Whole(len)
  {
    NoBytes();
    hide ReportBytes, Whole, Counts;
    TallyBytes(va, pa, len, NO_PAGES);
    ReportCounts(va, pa, len);
  }

  lemma NoBytes()
    ensures ReportBytes(NO_PAGES) == 0
  {
  }

  // ---- Which leaf an offset falls into ----

  // The level of the leaf at offset o, if leaves of these levels lie one after the other.
  function LevelIn(ts: seq<Level>, o: nat): (l: Level) {
    if ts == [] then 0 else if o < Span(ts[0]) then ts[0] else LevelIn(ts[1..], o - Span(ts[0]))
  }

  // The leaves that are to map a range: all of one size, or one after the other.
  datatype Plan = OneSize(l: Level) | InTurn(ts: seq<Level>)

  function PlanLevel(p: Plan, o: nat): (l: Level) {
    match p
    case OneSize(l) => l
    case InTurn(ts) => LevelIn(ts, o)
  }

  // The plan has one leaf of level l from offset o on.
  ghost predicate PlanHas(p: Plan, o: nat, l: Level) {
    forall k: nat :: o <= k < o + Span(l) ==> PlanLevel(p, k) == l
  }

  // From offset `done` on, the leaves of ts are those of rest.
  ghost predicate LeavesLeft(ts: seq<Level>, done: nat, rest: seq<Level>) {
    forall o: nat :: LevelIn(rest, o) == LevelIn(ts, done + o)
  }

  lemma LeavesStep(ts: seq<Level>, va: nat, pa: nat, done: nat, rem: nat)
    requires LeavesLeft(ts, done, Tiles(va, pa, rem)) && rem >= PAGE
    ensures var l := PickLevel(va, pa, rem);
            && PlanHas(InTurn(ts), done, l)
            && LeavesLeft(ts, done + Span(l), Tiles(va + Span(l), pa + Span(l), rem - Span(l)))
  {
    hide PickLevel;
    var l, here := PickLevel(va, pa, rem), Tiles(va, pa, rem);
    var rest := Tiles(va + Span(l), pa + Span(l), rem - Span(l));
    assert here[0] == l && here[1..] == rest;
    hide Span, Tiles;
    forall k: nat | done <= k < done + Span(l) ensures LevelIn(ts, k) == l {
      assert LevelIn(here, k - done) == LevelIn(ts, done + (k - done));
    }
    forall o: nat ensures LevelIn(rest, o) == LevelIn(ts, done + Span(l) + o) {
      assert LevelIn(here, Span(l) + o) == LevelIn(ts, done + (Span(l) + o));
    }
  }

  // ---- Optimality ----

  // ts covers [0, len) from (va, pa) by leaves that are aligned on both sides.
  predicate IsTiling(va: nat, pa: nat, len: nat, ts: seq<Level>)
    decreases |ts|
  {
    if ts == [] then len == 0
    else
      var l := ts[0];
      && l <= 2 && Span(l) <= len && va % Span(l) == 0 && pa % Span(l) == 0
      && IsTiling(va + Span(l), pa + Span(l), len - Span(l), ts[1..])
  }

  lemma AddAligned(x: nat, l: Level)
    requires x % Span(l) == 0
    ensures (x + Span(l)) % Span(l) == 0
  {
    DivUnique(x + Span(l), Span(l), x / Span(l) + 1, 0);
  }

  lemma StaysPageAligned(x: nat, l: Level)
    requires x % PAGE == 0
    ensures (x + Span(l)) % PAGE == 0
  {
    match l case 0 => case 1 => case 2 => case _ =>
  }

  // From page-aligned starts the chosen leaf is aligned on both sides, and so is the next start.
  lemma PickAligned(va: nat, pa: nat, rem: nat)
    requires rem >= PAGE
    ensures var l := PickLevel(va, pa, rem);
            va % PAGE == 0 && pa % PAGE == 0 ==>
              && va % Span(l) == 0 && pa % Span(l) == 0
              && (va + Span(l)) % PAGE == 0 && (pa + Span(l)) % PAGE == 0
  {
    var l := PickLevel(va, pa, rem);
    if va % PAGE == 0 && pa % PAGE == 0 {
      StaysPageAligned(va, l);
      StaysPageAligned(pa, l);
    }
  }

  lemma BothOnPage(va: nat, pa: nat, l: Level)
    requires va % Span(l) == 0 && pa % Span(l) == 0
    ensures va % PAGE == 0 && pa % PAGE == 0
  {
    NoStraddle(0, 0, va, l);
    NoStraddle(0, 0, pa, l);
  }

  lemma {:induction false} TilesAreATiling(va: nat, pa: nat, len: nat)
    requires va % PAGE == 0 && pa % PAGE == 0
    ensures IsTiling(va, pa, Whole(len), Tiles(va, pa, len))
    decreases len
  {
    if len >= PAGE {
      var l := PickLevel(va, pa, len);
      StaysPageAligned(va, l);
      StaysPageAligned(pa, l);
      WholeStep(len, l);
      TilesAreATiling(va + Span(l), pa + Span(l), len - Span(l));
      assert Tiles(va, pa, len)[1..] == Tiles(va + Span(l), pa + Span(l), len - Span(l));
    }
  }

  // Leaves never straddle an aligned boundary d bytes ahead, so a tiling can be cut there.
  lemma {:induction false} CutAt(va: nat, pa: nat, len: nat, ts: seq<Level>, d: nat, l: Level) returns (k: nat)
    requires IsTiling(va, pa, len, ts) && d <= len && d <= Span(l) && (va + d) % Span(l) == 0
    requires ts != [] && d == Span(l) ==> ts[0] <= l
    ensures k <= |ts| && IsTiling(va + d, pa + d, len - d, ts[k..]) && (d > 0 ==> k > 0)
    decreases |ts|
  {
    if d == 0 {
      k := 0;
    } else {
      var m := ts[0];
      if m > l {
        NoStraddle(va + d, l, va + d, l);
        NoStraddle(0, l, va, m);
        NoStraddle(va, l, va + d, l);
      }
      NoStraddle(va, m, va + d, l);
      var j := CutAt(va + Span(m), pa + Span(m), len - Span(m), ts[1..], d - Span(m), l);
      k := j + 1;
      assert ts[1..][j..] == ts[k..];
    }
  }

  // No tiling of the range by doubly aligned leaves uses fewer of them.
  lemma {:induction false} TilesOptimal(va: nat, pa: nat, len: nat, ts: seq<Level>)
    requires IsTiling(va, pa, Whole(len), ts)
    ensures |Tiles(va, pa, len)| <= |ts|
    decreases len
  {
    if len >= PAGE {
      var l := PickLevel(va, pa, len);
      assert ts != [] && ts[0] <= l;
      TiledStart(va, pa, Whole(len), ts, l);
      AddAligned(va, l);
      var k := CutAt(va, pa, Whole(len), ts, Span(l), l);
      WholeStep(len, l);
      TilesOptimal(va + Span(l), pa + Span(l), len - Span(l), ts[k..]);
    }
  }

  lemma TiledStart(va: nat, pa: nat, len: nat, ts: seq<Level>, l: Level)
    requires IsTiling(va, pa, len, ts) && len >= PAGE && l == PickLevel(va, pa, len)
    ensures va % Span(l) == 0 && Span(l) <= len
  {
    NoStraddle(0, 0, va, ts[0]);
  }
}
