/**
 The argument blob: packed by a parent (orbit-abi/src/argv.rs:69-103), rebased by the kernel
 (kmain/src/kernel/mod.rs:3182-3238) and read by the child (orbit-abi/src/argv.rs:129-174).
 */
module Argv {
  import opened Wrappers

  type Byte = b: nat | b < 256

  type Memory = nat -> Byte

  const BLOB_MAX: nat := 4096
  const ARGC_MOD: nat := 0x1_0000_0000
  const WORD_MOD: nat := 0x1_0000_0000_0000_0000

  // ---- Little-endian words ----

  function Le(v: nat, n: nat): (s: seq<Byte>)
    ensures |s| == n
  {
    if n == 0 then [] else [v % 256] + Le(v / 256, n - 1)
  }

  function UnLe(s: seq<Byte>): (v: nat) {
    if s == [] then 0 else s[0] + 256 * UnLe(s[1..])
  }

  function Span(n: nat): (m: nat) {
    if n == 0 then 1 else 256 * Span(n - 1)
  }

  lemma {:induction false} LeRoundTrip(v: nat, n: nat)
    requires v < Span(n)
    ensures UnLe(Le(v, n)) == v
  {
    if n > 0 {
      LeRoundTrip(v / 256, n - 1);
      assert Le(v, n)[1..] == Le(v / 256, n - 1);
    }
  }

  lemma Spans()
    ensures Span(4) == ARGC_MOD && Span(8) == WORD_MOD
  {
    assert Span(2) == 0x1_0000;
    assert Span(4) == 256 * (256 * Span(2));
    assert Span(6) == 256 * (256 * Span(4));
    assert Span(8) == 256 * (256 * Span(6));
  }

  // ---- The blob ----

  // The strings, each with its terminator.
  function Strings(args: seq<seq<Byte>>): (s: seq<Byte>)
    ensures |s| >= |args|
  {
    if args == [] then [] else Strings(args[..|args| - 1]) + args[|args| - 1] + [0]
  }

  function Table(args: seq<seq<Byte>>): (n: nat) {
    8 + 8 * |args|
  }

  // Where the i-th string starts.
  function Offset(args: seq<seq<Byte>>, i: nat): (n: nat)
    requires i <= |args|
  {
    Table(args) + |Strings(args[..i])|
  }

  // The first i slots: the offsets of the strings from base.
  function Slots(args: seq<seq<Byte>>, i: nat, base: nat): (s: seq<Byte>)
    requires i <= |args|
    ensures |s| == 8 * i
  {
    if i == 0 then [] else Slots(args, i - 1, base) + Le(base + Offset(args, i - 1), 8)
  }

  function Header(argc: nat): (s: seq<Byte>)
    ensures |s| == 8
  {
    Le(argc, 4) + Le(0, 4)
  }

  function Blob(args: seq<seq<Byte>>, base: nat): (s: seq<Byte>)
    ensures |s| == Table(args) + |Strings(args)|
  {
    Header(|args|) + Slots(args, |args|, base) + Strings(args)
  }

  // ---- Packing ----

  function Splice(s: seq<Byte>, at: nat, x: seq<Byte>): (r: seq<Byte>)
    requires at + |x| <= |s|
    ensures |r| == |s|
  {
    s[..at] + x + s[at + |x|..]
  }

  lemma SpliceMiddle(a: seq<Byte>, b: seq<Byte>, c: seq<Byte>, x: seq<Byte>)
    requires |b| == |x|
    ensures Splice(a + b + c, |a|, x) == a + x + c
  {
    assert (a + b + c)[..|a|] == a;
    assert (a + b + c)[|a| + |x|..] == c;
  }

  // copy_from_slice.
  method Copy(out: array<Byte>, at: nat, s: seq<Byte>)
    requires at + |s| <= out.Length
    modifies out
    ensures out[..] == Splice(old(out[..]), at, s)
  {
    forall k | 0 <= k < |s| {
      out[at + k] := s[k];
    }
  }

  // The buffer once i arguments are in: was is what it held before.
  function Partial(args: seq<seq<Byte>>, i: nat, was: seq<Byte>): (r: seq<Byte>)
    requires i <= |args| && Offset(args, i) <= |was|
  {
    Header(|args|) + Slots(args, i, 0) + was[8 + 8 * i..Table(args)] + Back(args, i, was)
  }

  lemma StringsStep(args: seq<seq<Byte>>, i: nat)
    requires i < |args|
    ensures Strings(args[..i + 1]) == Strings(args[..i]) + args[i] + [0]
    ensures Offset(args, i + 1) == Offset(args, i) + |args[i]| + 1
  {
    assert args[..i + 1][..i] == args[..i];
  }

  lemma {:induction false} StringsGrow(args: seq<seq<Byte>>, i: nat)
    requires i <= |args|
    ensures |Strings(args[..i])| <= |Strings(args)|
    decreases |args| - i
  {
    if i < |args| {
      StringsStep(args, i);
      StringsGrow(args, i + 1);
    } else {
      assert args[..i] == args;
    }
  }

  // Partial's two halves: up to the end of the slots, and from the strings on.
  function Back(args: seq<seq<Byte>>, i: nat, was: seq<Byte>): (r: seq<Byte>)
    requires i <= |args| && Offset(args, i) <= |was|
    ensures |r| == |was| - Table(args)
  {
    Strings(args[..i]) + was[Offset(args, i)..]
  }

  lemma SlotStep(args: seq<seq<Byte>>, i: nat, was: seq<Byte>)
    requires i < |args| && Offset(args, i) <= |was|
    ensures |Partial(args, i, was)| == |was|
    ensures Splice(Partial(args, i, was), 8 + 8 * i, Le(Offset(args, i), 8))
         == Header(|args|) + Slots(args, i + 1, 0) + was[8 + 8 * (i + 1)..Table(args)] + Back(args, i, was)
  {
    hide Le, Strings;
    var a := Header(|args|) + Slots(args, i, 0);
    var b := was[8 + 8 * i..8 + 8 * (i + 1)];
    var c := was[8 + 8 * (i + 1)..Table(args)];
    var d := Back(args, i, was);
    var x := Le(Offset(args, i), 8);
    assert a + x == Header(|args|) + Slots(args, i + 1, 0);
    assert was[8 + 8 * i..Table(args)] == b + c;
    hide Slots, Header, Back;
    assert a + (b + c) + d == a + b + (c + d);
    SpliceMiddle(a, b, c + d, x);
    assert a + x + (c + d) == a + x + c + d;
  }

  lemma StringStep(args: seq<seq<Byte>>, i: nat, was: seq<Byte>, front: seq<Byte>)
    requires i < |args| && Offset(args, i + 1) <= |was|
    requires |front| == Offset(args, i)
    ensures Offset(args, i + 1) == Offset(args, i) + |args[i]| + 1
    ensures Splice(Splice(front + was[Offset(args, i)..], Offset(args, i), args[i]), Offset(args, i) + |args[i]|, [0])
         == front + args[i] + [0] + was[Offset(args, i + 1)..]
  {
    StringsStep(args, i);
    hide Strings;
    var o, n := Offset(args, i), |args[i]|;
    SpliceTwice(front, was[o..], args[i]);
    assert was[o..][n + 1..] == was[o + n + 1..];
  }

  // Overwriting the start of s with x and a terminator.
  lemma SpliceTwice(front: seq<Byte>, s: seq<Byte>, x: seq<Byte>)
    requires |x| < |s|
    ensures Splice(Splice(front + s, |front|, x), |front| + |x|, [0]) == front + x + [0] + s[|x| + 1..]
  {
    var b, c, d := s[..|x|], s[|x|..|x| + 1], s[|x| + 1..];
    assert s == b + (c + d);
    Assoc(front, b, c + d);
    SpliceMiddle(front, b, c + d, x);
    Assoc(front + x, c, d);
    SpliceMiddle(front + x, c, d, [0]);
  }

  // One argument: its slot, its bytes, its terminator.
  lemma ArgStep(args: seq<seq<Byte>>, i: nat, was: seq<Byte>)
    requires i < |args| && Offset(args, i + 1) <= |was|
    ensures Offset(args, i + 1) == Offset(args, i) + |args[i]| + 1
    ensures |Partial(args, i, was)| == |was|
    ensures var s1 := Splice(Partial(args, i, was), 8 + 8 * i, Le(Offset(args, i), 8));
            var s2 := Splice(s1, Offset(args, i), args[i]);
            Splice(s2, Offset(args, i) + |args[i]|, [0]) == Partial(args, i + 1, was)
  {
    hide Le, Splice, Slots, Header, Strings;
    StringsStep(args, i);
    SlotStep(args, i, was);
    var head := Header(|args|) + Slots(args, i + 1, 0) + was[8 + 8 * (i + 1)..Table(args)];
    Assoc(head, Strings(args[..i]), was[Offset(args, i)..]);
    StringStep(args, i, was, head + Strings(args[..i]));
    Assoc(head, Strings(args[..i]), args[i]);
    Assoc(head, Strings(args[..i]) + args[i], [0]);
    Assoc(head, Strings(args[..i + 1]), was[Offset(args, i + 1)..]);
  }

  lemma Assoc(a: seq<Byte>, b: seq<Byte>, c: seq<Byte>)
    ensures a + (b + c) == a + b + c
  {
  }

  method StringsTotal(args: seq<seq<Byte>>) returns (n: nat)
    ensures n == |Strings(args)|
  {
    n := 0;
    for i := 0 to |args|
      invariant n == |Strings(args[..i])|
    {
      StringsStep(args, i);
      n := n + |args[i]| + 1;
    }
    assert args[..|args|] == args;
  }

  method Fill(args: seq<seq<Byte>>, out: array<Byte>)
    requires |Blob(args, 0)| <= out.Length && |args| < ARGC_MOD
    modifies out
    ensures out[..] == Blob(args, 0) + old(out[|Blob(args, 0)|..])
  {
    hide Le, Strings, Slots, Splice;
    ghost var was := out[..];
    Copy(out, 0, Zeros(8));
    Copy(out, 0, Header(|args|));
    var cursor := 8 + 8 * |args|;
    StartPartial(args, was);
    for i := 0 to |args|
      invariant cursor == Offset(args, i) <= out.Length
      invariant out[..] == Partial(args, i, was)
    {
      hide Partial, Header;
      StringsGrow(args, i + 1);
      ArgStep(args, i, was);
      Copy(out, 8 + 8 * i, Le(cursor, 8));
      Copy(out, cursor, args[i]);
      Copy(out, cursor + |args[i]|, [0]);
      cursor := cursor + |args[i]| + 1;
    }
    EndPartial(args, was);
  }

  lemma StartPartial(args: seq<seq<Byte>>, was: seq<Byte>)
    requires Table(args) <= |was|
    ensures Offset(args, 0) == Table(args)
    ensures Splice(Splice(was, 0, Zeros(8)), 0, Header(|args|)) == Partial(args, 0, was)
  {
    hide Le, Header;
    assert Strings(args[..0]) == [];
  }

  lemma EndPartial(args: seq<seq<Byte>>, was: seq<Byte>)
    requires |Blob(args, 0)| <= |was|
    ensures Offset(args, |args|) == |Blob(args, 0)|
    ensures Partial(args, |args|, was) == Blob(args, 0) + was[|Blob(args, 0)|..]
  {
    hide Le, Header, Strings, Slots;
    assert args[..|args|] == args;
  }

  // The blob is written exactly when it fits the buffer and a page, and nothing else is touched.
  method Pack(args: seq<seq<Byte>>, out: array<Byte>) returns (r: Option<nat>)
    modifies out
    ensures r.Some? <==> |Blob(args, 0)| <= out.Length && |Blob(args, 0)| <= BLOB_MAX
    ensures r.Some? ==> r.value == |Blob(args, 0)| && out[..] == Blob(args, 0) + old(out[r.value..])
    ensures r.None? ==> out[..] == old(out[..])
  {
    hide Strings, Slots, Le;
    var headerEnd := 8 + 8 * (|args| % ARGC_MOD);
    if headerEnd > out.Length { return None; }
    var strings := StringsTotal(args);
    var total := headerEnd + strings;
    if total > out.Length || total > BLOB_MAX { return None; }
    Fill(args, out);
    return Some(total);
  }

  // ---- The kernel's copy ----

  function Argc(blob: seq<Byte>): (n: nat)
    requires |blob| >= 8
  {
    UnLe(blob[..4])
  }

  function SlotOf(blob: seq<Byte>, i: nat): (n: nat)
    requires 16 + 8 * i <= |blob|
  {
    UnLe(blob[8 + 8 * i..16 + 8 * i])
  }

  predicate Installable(blob: seq<Byte>) {
    && 8 <= |blob| <= BLOB_MAX && 8 + 8 * Argc(blob) <= |blob|
    && forall i :: 0 <= i < Argc(blob) ==> SlotOf(blob, i) < |blob|
  }

  function Rebased(blob: seq<Byte>, i: nat, target: nat): (s: seq<Byte>)
    requires 8 + 8 * i <= |blob|
    ensures |s| == 8 * i
  {
    if i == 0 then [] else Rebased(blob, i - 1, target) + Le((target + SlotOf(blob, i - 1)) % WORD_MOD, 8)
  }

  function Zeros(n: nat): (s: seq<Byte>)
    ensures |s| == n
  {
    seq(n, _ => 0)
  }

  // The page once i slots are rebased.
  function Page(blob: seq<Byte>, i: nat, target: nat): (s: seq<Byte>)
    requires 8 + 8 * i <= |blob| <= BLOB_MAX
    ensures |s| == BLOB_MAX
  {
    blob[..8] + Rebased(blob, i, target) + blob[8 + 8 * i..] + Zeros(BLOB_MAX - |blob|)
  }

  lemma PageStep(blob: seq<Byte>, i: nat, target: nat)
    requires 16 + 8 * i <= |blob| <= BLOB_MAX
    ensures UnLe(Page(blob, i, target)[8 + 8 * i..16 + 8 * i]) == SlotOf(blob, i)
    ensures Splice(Page(blob, i, target), 8 + 8 * i, Le((target + SlotOf(blob, i)) % WORD_MOD, 8))
         == Page(blob, i + 1, target)
  {
    hide Le, UnLe;
    var a := blob[..8] + Rebased(blob, i, target);
    var b := blob[8 + 8 * i..16 + 8 * i];
    var c := blob[16 + 8 * i..];
    var d := Zeros(BLOB_MAX - |blob|);
    var x := Le((target + SlotOf(blob, i)) % WORD_MOD, 8);
    assert a + x == blob[..8] + Rebased(blob, i + 1, target);
    assert blob[8 + 8 * i..] == b + c;
    hide Rebased, SlotOf;
    assert a + (b + c) + d == a + b + (c + d);
    assert (a + b + (c + d))[|a|..|a| + 8] == b;
    SpliceMiddle(a, b, c + d, x);
    assert a + x + (c + d) == a + x + c + d;
  }

  // A blob is installed exactly when its table and every offset lie inside it; the page then holds it
  // with each offset turned into an address.
  method Install(blob: seq<Byte>, target: nat) returns (r: Option<seq<Byte>>)
    ensures r.Some? <==> Installable(blob)
    ensures r.Some? ==> r.value == Page(blob, Argc(blob), target)
  {
    hide Le, UnLe, Rebased, Splice;
    if |blob| > BLOB_MAX || |blob| < 8 { return None; }
    var argc := UnLe(blob[..4]);
    if 8 + 8 * argc > |blob| { return None; }
    var page: array<Byte> := new Byte[BLOB_MAX](_ => 0);
    assert page[..] == Zeros(BLOB_MAX);
    Copy(page, 0, blob);
    assert page[..] == Page(blob, 0, target) by { StartPage(blob, target, page[..]); }
    for i := 0 to argc
      invariant page[..] == Page(blob, i, target)
      invariant forall j :: 0 <= j < i ==> SlotOf(blob, j) < |blob|
    {
      hide Page;
      PageStep(blob, i, target);
      var off := UnLe(page[8 + 8 * i..16 + 8 * i]);
      assert page[8 + 8 * i..16 + 8 * i] == page[..][8 + 8 * i..16 + 8 * i];
      if off >= |blob| {
        assert SlotOf(blob, i) >= |blob|;
        return None;
      }
      Copy(page, 8 + 8 * i, Le((target + off) % WORD_MOD, 8));
    }
    return Some(page[..]);
  }

  lemma StartPage(blob: seq<Byte>, target: nat, page: seq<Byte>)
    requires 8 <= |blob| <= BLOB_MAX && page == Splice(Zeros(BLOB_MAX), 0, blob)
    ensures page == Page(blob, 0, target)
  {
    assert blob[..8] + blob[8..] == blob;
  }

  lemma {:induction false} SlotsAt(args: seq<seq<Byte>>, n: nat, base: nat, i: nat)
    requires i < n <= |args|
    ensures Slots(args, n, base)[8 * i..8 * i + 8] == Le(base + Offset(args, i), 8)
  {
    hide Le, Offset;
    if i < n - 1 { SlotsAt(args, n - 1, base, i); }
  }

  lemma OffsetsInside(args: seq<seq<Byte>>, i: nat)
    requires i < |args|
    ensures Table(args) <= Offset(args, i) && Offset(args, i) + |args[i]| < |Blob(args, 0)|
  {
    StringsStep(args, i);
    StringsGrow(args, i + 1);
  }

  lemma Middle(a: seq<Byte>, b: seq<Byte>, c: seq<Byte>, lo: nat, hi: nat)
    requires lo <= hi <= |b|
    ensures (a + b + c)[|a| + lo..|a| + hi] == b[lo..hi]
  {
  }

  lemma WordRoundTrip(v: nat)
    requires v < WORD_MOD
    ensures UnLe(Le(v, 8)) == v
  {
    Spans();
    LeRoundTrip(v, 8);
  }

  // What a blob at any base says about itself.
  lemma BlobParts(args: seq<seq<Byte>>, base: nat, i: nat)
    requires i < |args| && |Blob(args, 0)| <= BLOB_MAX && base + BLOB_MAX <= WORD_MOD
    ensures SlotOf(Blob(args, base), i) == base + Offset(args, i)
  {
    hide Le, UnLe, Strings, Slots, Header, Offset;
    OffsetsInside(args, i);
    WordRoundTrip(base + Offset(args, i));
    SlotsAt(args, |args|, base, i);
    Middle(Header(|args|), Slots(args, |args|, base), Strings(args), 8 * i, 8 * i + 8);
  }

  lemma BlobArgc(args: seq<seq<Byte>>, base: nat)
    requires |Blob(args, 0)| <= BLOB_MAX
    ensures Argc(Blob(args, base)) == |args|
  {
    hide Le, UnLe, Strings, Slots, Span;
    Spans();
    LeRoundTrip(|args|, 4);
    assert Blob(args, base)[..4] == Le(|args|, 4);
  }

  lemma {:induction false} RebasedSlots(args: seq<seq<Byte>>, i: nat, base: nat)
    requires i <= |args| && |Blob(args, 0)| <= BLOB_MAX && base + BLOB_MAX <= WORD_MOD
    ensures Rebased(Blob(args, 0), i, base) == Slots(args, i, base)
  {
    hide Le, UnLe, Strings, SlotOf, Offset, Blob;
    if i > 0 {
      RebasedSlots(args, i - 1, base);
      BlobParts(args, 0, i - 1);
      OffsetsInside(args, i - 1);
      var v := base + Offset(args, i - 1);
      assert v % WORD_MOD == v;
    }
  }

  // The kernel installs every packed blob, and its page is the blob with addresses for offsets.
  lemma InstallsPacked(args: seq<seq<Byte>>, base: nat)
    requires |Blob(args, 0)| <= BLOB_MAX && base + BLOB_MAX <= WORD_MOD
    ensures Installable(Blob(args, 0)) && Argc(Blob(args, 0)) == |args|
    ensures Page(Blob(args, 0), |args|, base) == Blob(args, base) + Zeros(BLOB_MAX - |Blob(args, 0)|)
  {
    BlobArgc(args, 0);
    forall i | 0 <= i < |args| ensures SlotOf(Blob(args, 0), i) < |Blob(args, 0)| {
      BlobParts(args, 0, i);
      OffsetsInside(args, i);
    }
    RebasedSlots(args, |args|, base);
    hide Le, Strings, UnLe, SlotOf, Slots, Rebased, Argc;
    assert Blob(args, 0)[..8] == Header(|args|);
    assert Blob(args, 0)[8 + 8 * |args|..] == Strings(args);
  }

  // ---- Reading ----

  function Bytes(mem: Memory, at: nat, n: nat): (s: seq<Byte>)
    ensures |s| == n
  {
    seq(n, k requires 0 <= k => mem(at + k))
  }

  datatype View = View(argc: nat, argv: nat)

  function FromPtr(mem: Memory, va: nat): (r: Option<View>) {
    var argc := UnLe(Bytes(mem, va, 4));
    if 8 + 8 * argc > BLOB_MAX then None else Some(View(argc, va + 8))
  }

  // The bytes from p up to the first NUL, at most a blob's worth of them.
  predicate IsString(mem: Memory, p: nat, s: seq<Byte>) {
    && s == Bytes(mem, p, |s|) && 0 !in s && |s| <= BLOB_MAX
    && (|s| == BLOB_MAX || mem(p + |s|) == 0)
  }

  predicate IsArg(mem: Memory, v: View, i: nat, r: Option<seq<Byte>>) {
    var p := UnLe(Bytes(mem, v.argv + 8 * i, 8));
    if i >= v.argc || p == 0 then r == None else r.Some? && IsString(mem, p, r.value)
  }

  // The last address that a scan from p over n bytes loads.
  function LastRead(p: nat, n: nat): (a: nat) {
    p + if n < BLOB_MAX then n else BLOB_MAX - 1
  }

  method GetArg(mem: Memory, v: View, i: nat) returns (r: Option<seq<Byte>>, ghost last: nat)
    ensures IsArg(mem, v, i, r)
    ensures r.Some? ==> last == LastRead(UnLe(Bytes(mem, v.argv + 8 * i, 8)), |r.value|)
  {
    hide UnLe;
    last := 0;
    if i >= v.argc { return None, last; }
    var p := UnLe(Bytes(mem, v.argv + 8 * i, 8));
    if p == 0 { return None, last; }
    var len := 0;
    while len < BLOB_MAX
      invariant len <= BLOB_MAX && 0 !in Bytes(mem, p, len) && (len > 0 ==> last == p + len - 1)
    {
      last := p + len;
      if mem(p + len) == 0 { break; }
      assert Bytes(mem, p, len + 1) == Bytes(mem, p, len) + [mem(p + len)];
      len := len + 1;
    }
    return Some(Bytes(mem, p, len)), last;
  }

  lemma NonNul(mem: Memory, p: nat, t: seq<Byte>, n: nat)
    requires IsString(mem, p, t) && n < |t|
    ensures mem(p + n) != 0
  {
    assert t[n] == mem(p + n);
  }

  lemma StringUnique(mem: Memory, p: nat, s: seq<Byte>, t: seq<Byte>)
    requires IsString(mem, p, s) && IsString(mem, p, t)
    ensures s == t
  {
    if |s| < |t| {
      NonNul(mem, p, t, |s|);
    } else if |t| < |s| {
      NonNul(mem, p, s, |t|);
    }
  }

  // The memory at va holds s.
  predicate Holds(mem: Memory, va: nat, s: seq<Byte>) {
    forall k :: 0 <= k < |s| ==> mem(va + k) == s[k]
  }

  lemma HeldSlice(mem: Memory, va: nat, s: seq<Byte>, lo: nat, n: nat)
    requires Holds(mem, va, s) && lo + n <= |s|
    ensures Bytes(mem, va + lo, n) == s[lo..lo + n]
  {
  }

  lemma HeldPage(args: seq<seq<Byte>>, base: nat, mem: Memory)
    requires |Blob(args, 0)| <= BLOB_MAX && base + BLOB_MAX <= WORD_MOD
    requires Holds(mem, base, Page(Blob(args, 0), |args|, base))
    ensures Holds(mem, base, Blob(args, base))
  {
    InstallsPacked(args, base);
    hide Blob, Page, Installable;
    var blob, page := Blob(args, base), Page(Blob(args, 0), |args|, base);
    assert forall k :: 0 <= k < |blob| ==> blob[k] == page[k];
  }

  // from_ptr accepts the page of every packed blob.
  lemma AcceptsPage(args: seq<seq<Byte>>, base: nat, mem: Memory)
    requires |Blob(args, 0)| <= BLOB_MAX && base + BLOB_MAX <= WORD_MOD
    requires Holds(mem, base, Page(Blob(args, 0), |args|, base))
    ensures FromPtr(mem, base) == Some(View(|args|, base + 8))
  {
    HeldPage(args, base, mem);
    BlobArgc(args, base);
    HeldSlice(mem, base, Blob(args, base), 0, 4);
    hide Page, UnLe, Holds;
  }

  // The child reads back what the parent packed: argument i is returned exactly if it holds no NUL
  // byte, and nothing is returned past the last.
  lemma RoundTrip(args: seq<seq<Byte>>, base: nat, mem: Memory, i: nat, r: Option<seq<Byte>>)
    requires |Blob(args, 0)| <= BLOB_MAX && 0 < base && base + BLOB_MAX <= WORD_MOD
    requires Holds(mem, base, Page(Blob(args, 0), |args|, base))
    requires IsArg(mem, View(|args|, base + 8), i, r)
    ensures if i < |args| then (r == Some(args[i]) <==> 0 !in args[i]) else r == None
  {
    if i < |args| {
      hide Page, Holds, Blob, Offset, Bytes, UnLe;
      HeldPage(args, base, mem);
      HeldSlot(args, base, mem, i);
      HeldString(args, base, mem, i);
      if 0 !in args[i] { StringUnique(mem, base + Offset(args, i), args[i], r.value); }
    }
  }

  lemma HeldSlot(args: seq<seq<Byte>>, base: nat, mem: Memory, i: nat)
    requires i < |args| && |Blob(args, 0)| <= BLOB_MAX && base + BLOB_MAX <= WORD_MOD
    requires Holds(mem, base, Blob(args, base))
    ensures UnLe(Bytes(mem, base + 8 + 8 * i, 8)) == base + Offset(args, i)
  {
    hide Holds, Strings, Slots, Header, Le, UnLe, Offset;
    BlobParts(args, base, i);
    HeldSlice(mem, base, Blob(args, base), 8 + 8 * i, 8);
  }

  lemma HeldString(args: seq<seq<Byte>>, base: nat, mem: Memory, i: nat)
    requires i < |args| && |Blob(args, 0)| <= BLOB_MAX && Holds(mem, base, Blob(args, base))
    ensures 0 !in args[i] ==> IsString(mem, base + Offset(args, i), args[i])
  {
    hide Strings, Slots, Header, Le;
    OffsetsInside(args, i);
    StringAt(args, base, i);
    var blob, off := Blob(args, base), Offset(args, i);
    hide Blob, Offset;
    HeldSlice(mem, base, blob, off, |args[i]|);
    assert mem(base + (off + |args[i]|)) == 0;
  }

  lemma StringAt(args: seq<seq<Byte>>, base: nat, i: nat)
    requires i < |args|
    ensures Offset(args, i) + |args[i]| < |Blob(args, base)|
    ensures Blob(args, base)[Offset(args, i)..Offset(args, i) + |args[i]|] == args[i]
    ensures Blob(args, base)[Offset(args, i) + |args[i]|] == 0
  {
    hide Le, Slots, Strings, Header;
    OffsetsInside(args, i);
    StringsPrefix(args, i + 1);
    StringsStep(args, i);
    InString(Header(|args|) + Slots(args, |args|, base), Strings(args[..i]), args[i], Strings(args));
  }

  lemma InString(front: seq<Byte>, p: seq<Byte>, x: seq<Byte>, s: seq<Byte>)
    requires p + x + [0] <= s
    ensures var at := |front| + |p|; (front + s)[at..at + |x|] == x && (front + s)[at + |x|] == 0
  {
    assert s[..|p| + |x|] == p + x;
    assert s[|p| + |x|] == (p + x + [0])[|p| + |x|];
    var at := |front| + |p|;
    assert (front + s)[at..at + |x|] == s[|p|..|p| + |x|] == (p + x)[|p|..];
  }

  lemma {:induction false} StringsPrefix(args: seq<seq<Byte>>, i: nat)
    requires i <= |args|
    ensures Strings(args[..i]) <= Strings(args)
    decreases |args| - i
  {
    if i < |args| {
      StringsStep(args, i);
      StringsPrefix(args, i + 1);
    } else {
      assert args[..i] == args;
    }
  }

  // ---- Any accepted blob ----

  lemma {:induction false} RebasedAt(blob: seq<Byte>, n: nat, target: nat, i: nat)
    requires i < n && 8 + 8 * n <= |blob|
    ensures Rebased(blob, n, target)[8 * i..8 * i + 8] == Le((target + SlotOf(blob, i)) % WORD_MOD, 8)
  {
    hide Le, SlotOf;
    if i < n - 1 { RebasedAt(blob, n - 1, target, i); }
  }

  // The header and the tail of an installed page.
  lemma PageEnds(blob: seq<Byte>, n: nat, base: nat)
    requires 8 + 8 * n <= |blob| <= BLOB_MAX
    ensures Page(blob, n, base)[..8] == blob[..8]
    ensures forall k :: |blob| <= k < BLOB_MAX ==> Page(blob, n, base)[k] == 0
  {
    hide Rebased;
  }

  // Its slots hold the addresses of the strings.
  lemma PageSlot(blob: seq<Byte>, base: nat, i: nat)
    requires Installable(blob) && i < Argc(blob) && base + BLOB_MAX <= WORD_MOD
    ensures UnLe(Page(blob, Argc(blob), base)[8 + 8 * i..16 + 8 * i]) == base + SlotOf(blob, i)
  {
    hide Le, UnLe, SlotOf, Argc, Rebased;
    var n, v := Argc(blob), base + SlotOf(blob, i);
    InWord(base, SlotOf(blob, i));
    WordRoundTrip(v);
    RebasedAt(blob, n, base, i);
    Middle(blob[..8], Rebased(blob, n, base), blob[8 + 8 * n..] + Zeros(BLOB_MAX - |blob|), 8 * i, 8 * i + 8);
    Assoc(blob[..8] + Rebased(blob, n, base), blob[8 + 8 * n..], Zeros(BLOB_MAX - |blob|));
  }

  lemma InWord(base: nat, off: nat)
    requires off < BLOB_MAX && base + BLOB_MAX <= WORD_MOD
    ensures (base + off) % WORD_MOD == base + off
  {
  }

  // A plausible count leaves the top byte of its word zero.
  lemma CountByte(blob: seq<Byte>)
    requires |blob| >= 8 && Argc(blob) < 512
    ensures blob[3] == 0
  {
    var w := blob[..4];
    assert UnLe(w) == w[0] + 256 * UnLe(w[1..]);
    assert UnLe(w[1..]) == w[1] + 256 * UnLe(w[2..]) by { assert w[1..][1..] == w[2..]; }
    assert UnLe(w[2..]) == w[2] + 256 * UnLe(w[3..]) by { assert w[2..][1..] == w[3..]; }
    assert UnLe(w[3..]) == w[3] + 256 * UnLe(w[4..]) by { assert w[3..][1..] == w[4..]; }
  }

  ghost predicate Terminated(blob: seq<Byte>, base: nat, i: nat)
    requires Installable(blob) && i < Argc(blob)
  {
    exists k :: SlotOf(blob, i) <= k < BLOB_MAX && Page(blob, Argc(blob), base)[k] == 0
  }

  lemma ScanIff(page: seq<Byte>, base: nat, off: nat, mem: Memory, s: seq<Byte>)
    requires |page| == BLOB_MAX && page[3] == 0 && off < BLOB_MAX
    requires Holds(mem, base, page) && IsString(mem, base + off, s)
    ensures LastRead(base + off, |s|) < base + BLOB_MAX <==> exists k :: off <= k < BLOB_MAX && page[k] == 0
  {
    hide Bytes;
    var p := base + off;
    if k :| off <= k < BLOB_MAX && page[k] == 0 {
      assert mem(base + k) == 0 && base + k == p + (k - off);
      if k - off < |s| { NonNul(mem, p, s, k - off); }
    }
    if LastRead(p, |s|) < base + BLOB_MAX {
      if off == 0 {
        assert mem(base + 3) == 0;
        if 3 < |s| { NonNul(mem, p, s, 3); }
      }
      if |s| < BLOB_MAX { assert mem(base + (off + |s|)) == page[off + |s|]; }
    }
  }

  // Whatever blob the kernel accepted, the child's scan of argument i stays inside the page if and
  // only if a NUL follows the argument's offset within the page.
  lemma ScanStaysInside(blob: seq<Byte>, base: nat, mem: Memory, i: nat, s: seq<Byte>)
    requires Installable(blob) && i < Argc(blob) && 0 < base && base + BLOB_MAX <= WORD_MOD
    requires Holds(mem, base, Page(blob, Argc(blob), base)) && IsArg(mem, View(Argc(blob), base + 8), i, Some(s))
    ensures LastRead(base + SlotOf(blob, i), |s|) < base + BLOB_MAX <==> Terminated(blob, base, i)
    ensures |blob| < BLOB_MAX ==> Terminated(blob, base, i)
  {
    hide Le, UnLe, Rebased, SlotOf, Argc, Holds, Bytes, IsString;
    var page := Page(blob, Argc(blob), base);
    PageEnds(blob, Argc(blob), base);
    PageSlot(blob, base, i);
    HeldSlice(mem, base, page, 8 + 8 * i, 8);
    CountByte(blob);
    assert page[3] == page[..8][3] == 0;
    hide Page;
    ScanIff(page, base, SlotOf(blob, i), mem, s);
    if |blob| < BLOB_MAX { assert page[|blob|] == 0; }
  }

  // Packed blobs are safe at any size.
  lemma PackedTerminated(args: seq<seq<Byte>>, base: nat, i: nat)
    requires i < |args| && |Blob(args, 0)| <= BLOB_MAX && base + BLOB_MAX <= WORD_MOD
    ensures Installable(Blob(args, 0)) && i < Argc(Blob(args, 0)) && Terminated(Blob(args, 0), base, i)
  {
    hide Le, UnLe, Strings, Slots, Page, SlotOf, Argc, Blob, Installable;
    InstallsPacked(args, base);
    BlobParts(args, 0, i);
    StringAt(args, base, i);
    var k := Offset(args, i) + |args[i]|;
    assert Page(Blob(args, 0), |args|, base)[k] == 0;
  }

  // The tail of the page is the tail of the blob.
  lemma PageTail(blob: seq<Byte>, n: nat, base: nat, k: nat)
    requires 8 + 8 * n <= k < |blob| <= BLOB_MAX
    ensures Page(blob, n, base)[k] == blob[k]
  {
    hide Rebased;
  }

  lemma EndlessTail(blob: seq<Byte>, base: nat)
    requires |blob| == BLOB_MAX && Installable(blob) && Argc(blob) == 1 && SlotOf(blob, 0) == 16
    requires forall k :: 16 <= k < BLOB_MAX ==> blob[k] == 1
    ensures !Terminated(blob, base, 0)
  {
    hide Page, SlotOf, Argc, Installable;
    forall k | 16 <= k < BLOB_MAX ensures Page(blob, 1, base)[k] == 1 { PageTail(blob, 1, base, k); }
  }

  // A full page whose only string never ends is accepted.
  lemma UnterminatedBlob() returns (blob: seq<Byte>)
    ensures Installable(blob) && Argc(blob) == 1 && forall base: nat :: !Terminated(blob, base, 0)
  {
    hide Le, UnLe, Page;
    var tail: seq<Byte> := seq(4080, _ => 1);
    blob := Header(1) + Le(16, 8) + tail;
    Spans();
    LeRoundTrip(1, 4);
    LeRoundTrip(16, 8);
    assert blob[..4] == Le(1, 4);
    assert blob[8..16] == Le(16, 8);
    forall base: nat ensures !Terminated(blob, base, 0) { EndlessTail(blob, base); }
  }
}
