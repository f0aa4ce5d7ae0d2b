/**
 * One storage word of a bit array: an unsigned 64-bit value whose bit k
 * (counted from the least significant end) holds one element. The source
 * uses `unsigned long` on an LP64 platform, so a word holds W = 64 bits.
 *
 * The facts about single-bit masks are proved once here, each bit-vector
 * step in a lemma of its own that takes the mask facts it needs as
 * preconditions, and the exported lemmas only chain those steps.
 */
module Words {

  /** Bits per word: 8 * sizeof(unsigned long). */
  const W: nat := 64

  /**
   * Position k < W as a 7-bit value, counted up one step at a time; the
   * count stops at 63, which it only reaches at k = 63 (PosValue). Building
   * the shift amount this way, rather than converting the integer k with
   * `k as bv64`, keeps every mask fact inside bit-vector arithmetic, where
   * the solver decides it, instead of mixing integers and bit-vectors.
   */
  function Pos(k: nat): (p: bv7)
    ensures p < 64
  {
    if k == 0 then 0 else if Pos(k - 1) < 63 then Pos(k - 1) + 1 else 63
  }

  lemma {:induction false} PosValue(k: nat)
    requires k < W
    ensures Pos(k) as int == k
  {
    if k > 0 {
      PosValue(k - 1);
    }
  }

  /** The single-bit mask of position k: 1 << k. */
  function Mask(k: nat): bv64
    requires k < W
  {
    (1 as bv64) << (Pos(k) as bv64)
  }

  /** Bit k of word w is set. */
  function TestBit(w: bv64, k: nat): bool
    requires k < W
  {
    w & Mask(k) != 0
  }

  /** Word w with bit k forced to v: or-ing the mask in, or and-ing its complement. */
  function WriteBit(w: bv64, k: nat, v: bool): bv64
    requires k < W
  {
    if v then w | Mask(k) else w & !Mask(k)
  }

  /** The all-ones word, which the source writes as `~0L`. */
  const AllOnes: bv64 := !0

  // ---------------------------------------------------------------------
  // Facts about single-bit masks.

  lemma ShiftedOnes(p: bv7, q: bv7)
    requires p < 64 && q < 64
    ensures (1 as bv64) << (p as bv64) != 0
    ensures p != q ==> ((1 as bv64) << (p as bv64)) & ((1 as bv64) << (q as bv64)) == 0
  {}

  lemma SingleBit(a: bv64, p: bv7)
    requires p < 64
    ensures a & ((1 as bv64) << (p as bv64)) == 0
         || a & ((1 as bv64) << (p as bv64)) == (1 as bv64) << (p as bv64)
  {}

  /** Every in-word mask has a bit. */
  lemma MaskNonZero(k: nat)
    requires k < W
    ensures Mask(k) != 0
  {
    ShiftedOnes(Pos(k), Pos(k));
  }

  /** Masks of distinct positions share no bit. */
  lemma MaskDisjoint(j: nat, k: nat)
    requires j < W && k < W && j != k
    ensures Mask(j) & Mask(k) == 0
  {
    PosValue(j);
    PosValue(k);
    ShiftedOnes(Pos(j), Pos(k));
  }

  /** Masking with a single-bit mask gives either nothing or the mask itself. */
  lemma MaskSelects(a: bv64, k: nat)
    requires k < W
    ensures a & Mask(k) == 0 || a & Mask(k) == Mask(k)
  {
    SingleBit(a, Pos(k));
  }

  // ---------------------------------------------------------------------
  // Single-bit writes.

  lemma WriteSameMasked(w: bv64, k: nat, v: bool)
    requires k < W && Mask(k) != 0
    ensures TestBit(WriteBit(w, k, v), k) == v
  {}

  lemma WriteWordOther(w: bv64, k: nat, j: nat, v: bool)
    requires j < W && k < W && Mask(j) & Mask(k) == 0
    ensures WriteBit(w, k, v) & Mask(j) == w & Mask(j)
  {}

  lemma WriteOtherMasked(w: bv64, k: nat, j: nat, v: bool)
    requires j < W && k < W && Mask(j) & Mask(k) == 0
    ensures TestBit(WriteBit(w, k, v), j) == TestBit(w, j)
  {
    WriteWordOther(w, k, j, v);
  }

  /** A masked write makes the written bit read back as the written value. */
  lemma WriteBitSame(w: bv64, k: nat, v: bool)
    requires k < W
    ensures TestBit(WriteBit(w, k, v), k) == v
  {
    MaskNonZero(k);
    WriteSameMasked(w, k, v);
  }

  /** A masked write leaves every other bit of the word unchanged. */
  lemma WriteBitOther(w: bv64, k: nat, j: nat, v: bool)
    requires j < W && k < W && j != k
    ensures TestBit(WriteBit(w, k, v), j) == TestBit(w, j)
  {
    MaskDisjoint(j, k);
    WriteOtherMasked(w, k, j, v);
  }

  lemma ConstantsMasked(k: nat)
    requires k < W && Mask(k) != 0
    ensures TestBit(AllOnes, k) && !TestBit(0, k)
  {}

  /** Every bit of the all-ones word is set and no bit of the zero word is. */
  lemma ConstantWords(k: nat)
    requires k < W
    ensures TestBit(AllOnes, k) && !TestBit(0, k)
  {
    MaskNonZero(k);
    ConstantsMasked(k);
  }

  /** A word with a set bit is not the zero word. */
  lemma SetBitNonZero(w: bv64, k: nat)
    requires k < W && TestBit(w, k)
    ensures w != 0
  {}

  // ---------------------------------------------------------------------
  // Extensionality: a word is determined by its 64 bits.

  /** The mask of positions 0 .. n-1, built one position at a time. */
  function LowMask(n: nat): bv64
    requires n <= W
  {
    if n == 0 then 0 else LowMask(n - 1) | Mask(n - 1)
  }

  /** The closed form of LowMask: 2^n - 1 below the word width, all ones at it. */
  function FilledBelow(n: nat): bv64
    requires n <= W
  {
    if n < W then Mask(n) - 1 else AllOnes
  }

  lemma FillStep(p: bv7)
    requires p < 64
    ensures (((1 as bv64) << (p as bv64)) - 1) | ((1 as bv64) << (p as bv64))
            == (if p == 63 then AllOnes else ((1 as bv64) << ((p + 1) as bv64)) - 1)
  {}

  lemma PosStep(k: nat)
    requires 0 < k < W
    ensures Pos(k - 1) < 63 && Pos(k) == Pos(k - 1) + 1
  {
    PosValue(k - 1);
  }

  lemma PosLast(k: nat)
    requires k == W - 1
    ensures Pos(k) == 63
  {
    PosValue(k);
  }

  /** Adding the mask of position n - 1 to the positions below it. */
  lemma FilledGrow(n: nat)
    requires 0 < n <= W
    ensures FilledBelow(n - 1) | Mask(n - 1) == FilledBelow(n)
  {
    if n < W {
      PosStep(n);
    } else {
      PosLast(n - 1);
    }
    FillStep(Pos(n - 1));
  }

  lemma AgreeMasked(a: bv64, b: bv64, k: nat)
    requires k < W && TestBit(a, k) == TestBit(b, k)
    requires a & Mask(k) == 0 || a & Mask(k) == Mask(k)
    requires b & Mask(k) == 0 || b & Mask(k) == Mask(k)
    ensures a & Mask(k) == b & Mask(k)
  {}

  lemma AgreeBit(a: bv64, b: bv64, k: nat)
    requires k < W
    ensures TestBit(a, k) == TestBit(b, k) ==> a & Mask(k) == b & Mask(k)
  {
    if TestBit(a, k) == TestBit(b, k) {
      MaskSelects(a, k);
      MaskSelects(b, k);
      AgreeMasked(a, b, k);
    }
  }

  lemma AgreeUnion(a: bv64, b: bv64, low: bv64, m: bv64)
    ensures a & low == b & low && a & m == b & m ==> a & (low | m) == b & (low | m)
  {}

  /** Words a and b agree on every one of their 64 bits. */
  predicate SameBits(a: bv64, b: bv64)
  {
    forall k :: 0 <= k < W ==> TestBit(a, k) == TestBit(b, k)
  }

  /** Words a and b agree on bits 0 .. n-1, stated without a quantifier. */
  predicate AgreeUpTo(a: bv64, b: bv64, n: nat)
    requires n <= W
  {
    n == 0 || (AgreeUpTo(a, b, n - 1) && TestBit(a, n - 1) == TestBit(b, n - 1))
  }

  lemma {:induction false} SameBitsAgree(a: bv64, b: bv64, n: nat)
    requires n <= W && SameBits(a, b)
    ensures AgreeUpTo(a, b, n)
  {
    if n > 0 {
      SameBitsAgree(a, b, n - 1);
    }
  }

  lemma AgreeLast(a: bv64, b: bv64, n: nat)
    requires 0 < n <= W && AgreeUpTo(a, b, n)
    ensures a & Mask(n - 1) == b & Mask(n - 1)
  {
    AgreeBit(a, b, n - 1);
  }

  lemma AgreePrefix(a: bv64, b: bv64, n: nat)
    requires 0 < n <= W
    ensures AgreeUpTo(a, b, n) ==> AgreeUpTo(a, b, n - 1)
  {}

  /** LowMask(n) is its closed form: 2^n - 1, or all ones at n = W. */
  lemma {:induction false} LowMaskFilled(n: nat)
    requires n <= W
    ensures LowMask(n) == FilledBelow(n)
  {
    if n == 0 {
      assert Pos(0) == 0;
    } else {
      LowMaskFilled(n - 1);
      FilledGrow(n);
    }
  }

  lemma AgreeBelowStep(a: bv64, b: bv64, n: nat)
    requires 0 < n <= W
    requires a & LowMask(n - 1) == b & LowMask(n - 1) && a & Mask(n - 1) == b & Mask(n - 1)
    ensures a & LowMask(n) == b & LowMask(n)
  {
    AgreeUnion(a, b, LowMask(n - 1), Mask(n - 1));
  }

  /** Agreement on bits 0 .. n-1 is agreement under LowMask(n). */
  lemma {:induction false} AgreeBelow(a: bv64, b: bv64, n: nat)
    requires n <= W && AgreeUpTo(a, b, n)
    ensures a & LowMask(n) == b & LowMask(n)
  {
    if n > 0 {
      AgreePrefix(a, b, n);
      AgreeBelow(a, b, n - 1);
      AgreeLast(a, b, n);
      AgreeBelowStep(a, b, n);
    }
  }

  lemma AgreeAll(a: bv64, b: bv64)
    ensures a & AllOnes == b & AllOnes ==> a == b
  {}

  /** Two words whose 64 bits agree are the same word. */
  lemma Ext(a: bv64, b: bv64)
    requires SameBits(a, b)
    ensures a == b
  {
    SameBitsAgree(a, b, W);
    AgreeBelow(a, b, W);
    LowMaskFilled(W);
    AgreeAll(a, b);
  }

  /** A word none of whose 64 bits is set is the zero word. */
  lemma NoBitZero(w: bv64)
    requires forall k :: 0 <= k < W ==> !TestBit(w, k)
    ensures w == 0
  {
    forall k | 0 <= k < W
      ensures TestBit(w, k) == TestBit(0, k)
    {
      ConstantWords(k);
    }
    Ext(w, 0);
  }
}
