/**
 Sv48 addresses and page-table entries (mmu/src/sv48.rs). A raw entry is the number that the
 64-bit word holds; masks and shifts are written as division and remainder. The fields that an
 `|` joins are disjoint, so it is written as a sum.
 */
module Sv48 {
  import opened Arith

  const PAGE: nat := 4096
  const ENTRIES: nat := 512
  const WORD: nat := 0x1_0000_0000_0000_0000  // 2^64
  const PA_LIMIT: nat := 0x100_0000_0000_0000  // 2^56
  const VA_LIMIT: nat := 0x1_0000_0000_0000  // 2^48
  const PTE_LIMIT: nat := 0x40_0000_0000_0000  // 2^54: bits 54..63 of an entry are reserved

  // Levels count from 0 (4 KiB leaves) to 3 (the root).
  type Level = l: nat | l <= 3

  // Bytes that one entry of a level-l table spans; Span(4) is what the root spans.
  function Span(l: nat): (s: nat)
    requires l <= 4
    ensures s > 0
  {
    match l
    case 0 => 0x1000
    case 1 => 0x20_0000
    case 2 => 0x4000_0000
    case 3 => 0x80_0000_0000
    case _ => VA_LIMIT
  }

  // The 48 bits of a virtual address that the tables translate.
  function Low48(va: nat): (r: nat)
    ensures r < VA_LIMIT
  {
    va % VA_LIMIT
  }

  function Vpn(va: nat, l: Level): (i: nat)
    ensures i < ENTRIES
  {
    va / Span(l) % ENTRIES
  }

  // ---- Entries ----

  function PackLeaf(ppn: nat, perms: nat, rsw: nat): (e: nat)
  {
    ppn * 1024 % WORD + perms / 2 % 32 * 2 + rsw % 4 * 256 + 0xC1
  }

  function PackTable(ppn: nat): (e: nat)
  {
    ppn * 1024 % WORD + 1
  }

  predicate IsValid(e: nat) {
    e % 2 == 1
  }

  predicate IsLeaf(e: nat) {
    e / 2 % 8 != 0
  }

  // A valid entry that points at the next table down.
  predicate IsTable(e: nat) {
    IsValid(e) && !IsLeaf(e)
  }

  // `ppn() * PAGE_SIZE`, as walk_to_table follows an entry.
  function PpnAddress(e: nat): (pa: nat) {
    e / 1024 * PAGE % WORD
  }

  // `get_ppn() << 2`, as walk_pte_chain and unmap_subtree follow it: a 44-bit field.
  function PpnField(e: nat): (pa: nat) {
    e / 1024 % 0x1000_0000_0000 * PAGE
  }

  // The low ten bits: V, R, W, X, U, G, A, D and the two software bits.
  function Flags(e: nat): (f: nat) {
    e % 1024
  }

  // What pack_leaf puts there: the five permission bits, the tag, and V, A, D.
  function LeafFlags(perms: nat, rsw: nat): (f: nat) {
    perms / 2 % 32 * 2 + rsw % 4 * 256 + 0xC1
  }

  // A leaf entry gives back the page, its permissions bit by bit and its tag, has V, A and D set,
  // and reads as a leaf exactly when R, W or X is set.
  lemma PackLeafFields(pa: nat, perms: nat, rsw: nat)
    requires pa < PA_LIMIT && pa % PAGE == 0
    ensures var e := PackLeaf(pa / PAGE, perms, rsw);
            && e < PTE_LIMIT && IsValid(e)
            && (IsLeaf(e) <==> perms / 2 % 8 != 0)
            && PpnAddress(e) == pa == PpnField(e) && Flags(e) == LeafFlags(perms, rsw)
            && e / 2 % 8 == perms / 2 % 8 && e / 16 % 4 == perms / 16 % 4
            && e / 64 % 4 == 3 && e / 256 % 4 == rsw % 4
  {
    var ppn, p, w := pa / PAGE, perms / 2 % 32, rsw % 4;
    var e := PackLeaf(ppn, perms, rsw);
    DivUnique(ppn * 1024, WORD, 0, ppn * 1024);
    assert e == ppn * 1024 + w * 256 + 192 + p * 2 + 1;
    DivUnique(e, 1024, ppn, w * 256 + 192 + p * 2 + 1);
    DivUnique(ppn * PAGE, WORD, 0, ppn * PAGE);
    DivUnique(ppn, 0x1000_0000_0000, 0, ppn);
    var p0, p1 := p % 8, p / 8;
    DivUnique(e, 2, ppn * 512 + w * 128 + 96 + p, 1);
    DivUnique(ppn * 512 + w * 128 + 96 + p, 8, ppn * 64 + w * 16 + 12 + p1, p0);
    DivUnique(e, 256, ppn * 4 + w, 192 + p * 2 + 1);
    DivUnique(e, 16, ppn * 64 + w * 16 + 12 + p1, p0 * 2 + 1);
    DivUnique(ppn * 4 + w, 4, ppn, w);
    DivUnique(e, 64, ppn * 16 + w * 4 + 3, p * 2 + 1);
    DivUnique(ppn * 16 + w * 4 + 3, 4, ppn * 4 + w, 3);
    DivUnique(ppn * 64 + w * 16 + 12 + p1, 4, ppn * 16 + w * 4 + 3, p1);
    PermBits(perms);
  }

  lemma PermBits(perms: nat)
    ensures perms / 2 % 32 % 8 == perms / 2 % 8
    ensures perms / 2 % 32 / 8 == perms / 16 % 4
  {
    var q := perms / 2;
    var a, p := q / 32, q % 32;
    DivUnique(q, 8, a * 4 + p / 8, p % 8);
    DivUnique(perms, 16, a * 4 + p / 8, p % 8 * 2 + perms % 2);
    DivUnique(a * 4 + p / 8, 4, a, p / 8);
  }

  lemma PackTableFields(pa: nat)
    requires pa < PA_LIMIT && pa % PAGE == 0
    ensures var e := PackTable(pa / PAGE);
            e < PTE_LIMIT && IsTable(e) && PpnAddress(e) == pa == PpnField(e)
  {
    var ppn := pa / PAGE;
    DivUnique(ppn * 1024, WORD, 0, ppn * 1024);
    DivUnique(ppn * 1024 + 1, 1024, ppn, 1);
    DivUnique(ppn * 1024 + 1, 2, ppn * 512, 1);
    DivUnique(ppn * PAGE, WORD, 0, ppn * PAGE);
    DivUnique(ppn, 0x1000_0000_0000, 0, ppn);
  }

  // The two ways of following an entry agree while the reserved bits are clear.
  lemma PpnAgree(e: nat)
    requires e < PTE_LIMIT
    ensures PpnAddress(e) == PpnField(e) < PA_LIMIT && PpnField(e) % PAGE == 0
  {
  }

  // ---- Address arithmetic ----

  // Every span divides the larger ones.
  lemma SpanStep(l: Level)
    ensures Span(l + 1) == ENTRIES * Span(l)
    ensures VA_LIMIT % Span(l + 1) == 0
  {
    match l case 0 => case 1 => case 2 => case _ =>
  }

  // The slots of one table do not overlap, and each slot start selects its own index.
  lemma SlotVpn(base: nat, l: Level, i: nat)
    requires base % Span(l + 1) == 0 && i < ENTRIES
    ensures var slot := base + i * Span(l);
            slot % Span(l) == 0 && Vpn(slot, l) == i && base <= slot && slot + Span(l) <= base + Span(l + 1)
  {
    SpanStep(l);
    var S, T := Span(l), Span(l + 1);
    var b := base / T;
    assert base + i * S == (b * 512 + i) * S + 0;
    DivUnique(base + i * S, S, b * 512 + i, 0);
    DivUnique(b * 512 + i, 512, b, i);
    MulLe(i + 1, 512, S);
  }

  // Only the low 48 bits matter.
  lemma VpnLow48(va: nat, l: Level)
    ensures Vpn(va, l) == Vpn(Low48(va), l)
    ensures va % Span(l) == Low48(va) % Span(l)
  {
    var S, lo, v := Span(l), Low48(va), va / VA_LIMIT;
    var i, r := lo / S, lo % S;
    match l {
      case 0 => DivUnique(va, S, v * 0x10_0000_0000 + i, r);
                DivUnique(v * 0x10_0000_0000 + i, 512, v * 0x800_0000 + i / 512, i % 512);
      case 1 => DivUnique(va, S, v * 0x800_0000 + i, r);
                DivUnique(v * 0x800_0000 + i, 512, v * 0x4_0000 + i / 512, i % 512);
      case 2 => DivUnique(va, S, v * 0x4_0000 + i, r);
                DivUnique(v * 0x4_0000 + i, 512, v * 0x200 + i / 512, i % 512);
      case _ => DivUnique(va, S, v * 0x200 + i, r);
                DivUnique(v * 0x200 + i, 512, v + i / 512, i % 512);
    }
  }

  // `va` lies in the slot that its index selects in a table of level l based at `base`.
  lemma VpnSlot(va: nat, base: nat, l: Level)
    requires base % Span(l + 1) == 0 && base <= Low48(va) < base + Span(l + 1)
    ensures var slot := base + Vpn(va, l) * Span(l);
            slot <= Low48(va) < slot + Span(l) && slot % Span(l) == 0
  {
    VpnLow48(va, l);
    SlotOf(Low48(va), base, l);
  }

  lemma SlotOf(lo: nat, base: nat, l: Level)
    requires base % Span(l + 1) == 0 && base <= lo < base + Span(l + 1)
    ensures var slot := base + Vpn(lo, l) * Span(l);
            slot <= lo < slot + Span(l) && slot % Span(l) == 0
  {
    SpanStep(l);
    SlotVpn(base, l, Vpn(lo, l));
    hide Span;
    var s, b := Span(l), base / Span(l + 1);
    Exact(base, Span(l + 1));
    IndexOf(lo, b, s);
  }

  lemma IndexOf(x: nat, b: nat, s: nat)
    requires s > 0 && b * (512 * s) <= x < b * (512 * s) + 512 * s
    ensures var i := x / s % 512; b * (512 * s) + i * s <= x < b * (512 * s) + i * s + s
  {
    var d := x - b * (512 * s);
    var i, r := d / s, d % s;
    if i >= 512 { MulLe(512, i, s); assert false; }
    assert (b * 512 + i) * s == b * (512 * s) + i * s;
    DivUnique(x, s, b * 512 + i, r);
    DivUnique(b * 512 + i, 512, b, i);
  }

  // Aligned intervals nest or are disjoint.
  lemma NoStraddle(b: nat, j: nat, slot: nat, l: nat)
    requires j <= l <= 4 && b % Span(j) == 0 && slot % Span(l) == 0
    ensures slot <= b < slot + Span(l) ==> b + Span(j) <= slot + Span(l)
    ensures b < slot ==> b + Span(j) <= slot
    ensures slot % Span(j) == 0
  {
    var S, T := Span(j), Span(l);
    var n := SpanMultiple(j, l);
    var q, p := b / S, slot / T;
    assert slot == (p * n) * S + 0;
    DivUnique(slot, S, p * n, 0);
    assert b == q * S;
    if b < slot {
      if q + 1 > p * n { MulLe(p * n, q, S); assert false; }
      MulLe(q + 1, p * n, S);
    } else if b < slot + T {
      assert slot + T == (p * n + n) * S;
      if q + 1 > p * n + n { MulLe(p * n + n, q, S); assert false; }
      MulLe(q + 1, p * n + n, S);
    }
  }

  lemma {:induction false} SpanMultiple(j: nat, l: nat) returns (n: nat)
    requires j <= l <= 4
    ensures Span(l) == n * Span(j) && n > 0
    decreases l
  {
    if j == l {
      n := 1;
    } else {
      n := SpanMultiple(j, l - 1);
      SpanStep(l - 1);
      n := n * 512;
    }
  }
}
