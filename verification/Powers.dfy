/**
 Powers of two, and the size-aligned blocks they cut the frame numbers into.
 Everything is defined digit by digit on the binary form, so that the proofs are
 linear inductions; `AlignedIsMultiple` ties the digits back to divisibility.
 */
module Powers {

  function Pow2(k: nat): (r: nat)
    ensures r >= 1
  {
    if k == 0 then 1 else 2 * Pow2(k - 1)
  }

  function Max(a: nat, b: nat): (r: nat) {
    if a <= b then b else a
  }

  function Min(a: nat, b: nat): (r: nat) {
    if a <= b then a else b
  }

  lemma {:induction false} Pow2Monotone(j: nat, k: nat)
    requires j <= k
    ensures Pow2(j) <= Pow2(k)
    decreases k
  {
    if j < k { Pow2Monotone(j, k - 1); }
  }

  // `f & !((1 << k) - 1)`: the first frame of the class-k block that holds f.
  function Base(f: nat, k: nat): (b: nat)
    ensures b <= f < b + Pow2(k)
  {
    if k == 0 then f else 2 * Base(f / 2, k - 1)
  }

  predicate Aligned(b: nat, k: nat) {
    Base(b, k) == b
  }

  // `x ^ (1 << k)`: flips binary digit k.
  function XorBit(x: nat, k: nat): (r: nat)
    ensures r != x
  {
    if k == 0 then (if x % 2 == 0 then x + 1 else x - 1)
    else 2 * XorBit(x / 2, k - 1) + x % 2
  }

  // Alignment as the allocator's callers see it.
  lemma {:induction false} AlignedIsMultiple(b: nat, k: nat) returns (q: nat)
    requires Aligned(b, k)
    ensures b == q * Pow2(k)
  {
    if k == 0 {
      q := b;
    } else {
      q := AlignedIsMultiple(b / 2, k - 1);
      DoubleProduct(q, Pow2(k - 1));
    }
  }

  lemma {:induction false} MultipleIsAligned(q: nat, k: nat)
    ensures Aligned(q * Pow2(k), k)
  {
    if k > 0 {
      MultipleIsAligned(q, k - 1);
      DoubleProduct(q, Pow2(k - 1));
      DoubleAligned(q * Pow2(k - 1), k - 1);
    }
  }

  lemma DoubleAligned(b: nat, k: nat)
    requires Aligned(b, k)
    ensures Aligned(2 * b, k + 1)
  {
  }

  lemma DoubleProduct(q: nat, p: nat)
    ensures q * (2 * p) == 2 * (q * p)
  {
  }

  // A class-(k+1) block is a left and a right half of class k.
  lemma {:induction false} BaseStep(f: nat, k: nat)
    ensures Base(f, k) == Base(f, k + 1) || Base(f, k) == Base(f, k + 1) + Pow2(k)
    ensures Base(Base(f, k), k + 1) == Base(f, k + 1)
  {
    if k > 0 {
      BaseStep(f / 2, k - 1);
    }
  }

  // Coarsening twice is coarsening once.
  lemma {:induction false} BaseCompose(f: nat, j: nat, k: nat)
    requires j <= k
    ensures Base(Base(f, j), k) == Base(f, k)
    decreases j
  {
    if j > 0 {
      BaseCompose(f / 2, j - 1, k - 1);
    }
  }

  // A coarse base is also a base of every finer class.
  lemma {:induction false} AlignedDown(b: nat, j: nat, k: nat)
    requires j <= k && Aligned(b, k)
    ensures Aligned(b, j)
    decreases j
  {
    if j > 0 {
      AlignedDown(b / 2, j - 1, k - 1);
    }
  }

  // A frame lies in the interval of an aligned block exactly when its base is the block.
  lemma {:induction false} BaseInterval(f: nat, b: nat, k: nat)
    requires Aligned(b, k)
    ensures Base(f, k) == b <==> b <= f < b + Pow2(k)
  {
    if k > 0 {
      BaseInterval(f / 2, b / 2, k - 1);
    }
  }

  // Of the two halves of a larger block, the left one is that block's base.
  lemma {:induction false} Halves(b: nat, k: nat)
    requires Aligned(b, k + 1)
    ensures Aligned(b, k) && Aligned(b + Pow2(k), k)
    ensures Base(b + Pow2(k), k + 1) == b
    ensures XorBit(b, k) == b + Pow2(k) && XorBit(b + Pow2(k), k) == b
  {
    if k > 0 {
      var h, p := b / 2, Pow2(k - 1);
      Halves(h, k - 1);
      assert b == 2 * h && (b + Pow2(k)) / 2 == h + p;
    }
  }

  // An aligned block and its buddy are the two halves of the same larger block.
  lemma XorBitIsBuddy(b: nat, k: nat)
    requires Aligned(b, k)
    ensures Aligned(XorBit(b, k), k)
    ensures Base(b, k + 1) == Base(XorBit(b, k), k + 1) == Min(b, XorBit(b, k))
    ensures Aligned(Base(b, k + 1), k + 1)
    ensures XorBit(XorBit(b, k), k) == b
    ensures XorBit(b, k) == if b == Base(b, k + 1) then b + Pow2(k) else b - Pow2(k)
  {
    BaseStep(b, k);
    BaseCompose(b, k + 1, k + 1);
    Halves(Base(b, k + 1), k);
  }

  // ---- The word functions the allocator uses ----

  // `n.trailing_zeros()` for n > 0.
  function TrailingZeros(n: nat): (k: nat)
    requires n > 0
  {
    if n % 2 == 1 then 0 else 1 + TrailingZeros(n / 2)
  }

  // `n & (!n + 1)`: the lowest set bit.
  function LowBit(n: nat): (r: nat)
    requires n > 0
  {
    Pow2(TrailingZeros(n))
  }

  function Log2(n: nat): (k: nat)
    requires n > 0
  {
    if n == 1 then 0 else 1 + Log2(n / 2)
  }

  // `prev_power_of_two(n)`: 1 << (BITS - leading_zeros - 1).
  function PrevPow2(n: nat): (r: nat)
    requires n > 0
  {
    Pow2(Log2(n))
  }

  // `n.next_power_of_two()`; 0 and 1 both give 1.
  function NextPow2(n: nat): (r: nat)
  {
    if n <= 1 then 1 else 2 * PrevPow2(n - 1)
  }

  lemma {:induction false} Log2Bounds(n: nat)
    requires n > 0
    ensures PrevPow2(n) <= n < 2 * PrevPow2(n)
  {
    if n > 1 { Log2Bounds(n / 2); }
  }

  // NextPow2 is a power of two, and the smallest one that is at least n.
  lemma NextPow2IsLeast(n: nat) returns (k: nat)
    ensures NextPow2(n) == Pow2(k) && k == TrailingZeros(NextPow2(n))
    ensures n <= NextPow2(n)
    ensures forall j: nat :: n <= Pow2(j) ==> k <= j
  {
    k := if n <= 1 then 0 else 1 + Log2(n - 1);
    TrailingZerosPow2(k);
    if n > 1 { Log2Bounds(n - 1); }
    forall j: nat | n <= Pow2(j) ensures k <= j {
      if j < k { Pow2Monotone(j, k - 1); }
    }
  }

  lemma {:induction false} TrailingZerosPow2(k: nat)
    ensures TrailingZeros(Pow2(k)) == k
  {
    if k > 0 { TrailingZerosPow2(k - 1); }
  }

  // n is aligned at exactly the classes up to its trailing-zero count.
  lemma {:induction false} AlignedIffTrailingZeros(n: nat, k: nat)
    requires n > 0
    ensures Aligned(n, k) <==> k <= TrailingZeros(n)
    decreases k
  {
    if k > 0 && n % 2 == 0 {
      AlignedIffTrailingZeros(n / 2, k - 1);
    }
  }

  lemma {:induction false} ZeroAligned(k: nat)
    ensures Aligned(0, k)
  {
    if k > 0 { ZeroAligned(k - 1); }
  }
}
