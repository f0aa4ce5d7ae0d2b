/**
 * Construction, copying, assignment, swap, clear and the two size queries.
 *
 * The word count the constructor and resize compute is written
 * `align + num_bits - 1 / align` in the source; `1 / align` is integer
 * division and is 0, so an array of n bits gets W + n words, not the
 * ceil(n / W) the expression seems to aim for. The model keeps W + n.
 */
module Lifecycle {
  import opened Words
  import opened Errors
  import opened Storage
  import opened Access

  /** The word count computed for n bits. */
  function AlignedWords(n: nat): (m: nat)
    ensures m >= W && RoundUp(m - W) >= n
  {
    W + n
  }

  /** `BitArray()`: no bits and no words, so every bit query fails. */
  function New(): (r: BitArray)
    ensures Valid(r) && Bits(r) == [] && r.alignedSize == 0
  {
    BitArray(0, 0, [])
  }

  /**
   * `BitArray(num_bits, value)`, whose seed defaults to 0. A negative
   * length fails. Otherwise the array has num_bits bits and W + num_bits
   * words, word 0 holds the seed and every other word is zero.
   */
  function Make(n: int, value: bv64 := 0): (r: Result<BitArray>)
    ensures r.Err? <==> n < 0
    ensures r.Err? ==> r.error == NegativeSize
    ensures r.Ok? ==> Valid(r.value) && r.value.sizeInBits == n && r.value.alignedSize == W + n
    ensures r.Ok? ==> r.value.words[0] == value
    ensures r.Ok? ==> forall q :: 1 <= q < |r.value.words| ==> r.value.words[q] == 0
  {
    if n < 0 then Err(NegativeSize)
    else Ok(BitArray(n, AlignedWords(n), [value] + seq(AlignedWords(n) - 1, _ => 0)))
  }

  /** Bit i of a new array is bit i of the seed below W and clear from W on. */
  lemma MakeBits(n: int, value: bv64, i: nat)
    requires n >= 0
    ensures BitAt(Make(n, value).value.words, i) == (i < W && TestBit(value, i))
  {
    var ws := Make(n, value).value.words;
    if i >= W && i / W < |ws| {
      ConstantWords(i % W);
    }
  }

  /** With the default seed every bit of a new array is clear. */
  lemma MakeDefaultClear(n: int, i: nat)
    requires n >= 0
    ensures !BitAt(Make(n).value.words, i)
  {
    MakeBits(n, 0, i);
    if i < W {
      ConstantWords(i);
    }
  }

  /**
   * The copy constructor copies the length, the word count and the words
   * one by one.
   */
  function Copy(b: BitArray): (r: BitArray)
    requires Valid(b)
    ensures r == b
  {
    BitArray(b.sizeInBits, b.alignedSize, seq(b.alignedSize, q requires 0 <= q < b.alignedSize => b.words[q]))
  }

  /** Assignment replaces the target's whole state by a copy of the source's. */
  function Assign(target: BitArray, b: BitArray): (r: BitArray)
    requires Valid(b)
    ensures r == b && Valid(r)
  {
    Copy(b)
  }

  /**
   * `swap` exchanges lengths and words, but only between arrays with the
   * same word count.
   */
  function Swap(a: BitArray, b: BitArray): (r: Result<(BitArray, BitArray)>)
    requires Valid(a) && Valid(b)
    ensures r.Err? <==> a.alignedSize != b.alignedSize
    ensures r.Err? ==> r.error == SizeMismatch
    ensures r.Ok? ==> Valid(r.value.0) && Valid(r.value.1)
    ensures r.Ok? ==> Bits(r.value.0) == Bits(b) && Bits(r.value.1) == Bits(a)
    ensures r.Ok? ==> r.value.0.words == b.words && r.value.1.words == a.words
  {
    if b.alignedSize != a.alignedSize then Err(SizeMismatch)
    else Ok((BitArray(b.sizeInBits, a.alignedSize, b.words), BitArray(a.sizeInBits, b.alignedSize, a.words)))
  }

  /** Swapping twice gives the original pair back. */
  lemma SwapTwice(a: BitArray, b: BitArray)
    requires Valid(a) && Valid(b) && a.alignedSize == b.alignedSize
    ensures Swap(Swap(a, b).value.0, Swap(a, b).value.1) == Ok((a, b))
  {}

  /**
   * `a = a` as the assignment operator runs it. The operator deletes the
   * target's words and allocates a zeroed vector before its copy loop; when
   * source and target are the same array, the loop then copies that zeroed
   * vector onto itself. The length and the word count survive, and every
   * word, seed and set bits included, becomes zero.
   */
  function AssignSelf(b: BitArray): (r: BitArray)
    requires Valid(b)
    ensures Valid(r) && r.sizeInBits == b.sizeInBits && r.alignedSize == b.alignedSize
    ensures forall j: nat {:trigger BitAt(r.words, j)} :: !BitAt(r.words, j)
  {
    var zeroed := seq(b.alignedSize, _ => 0 as bv64);
    var ws := seq(b.alignedSize, q requires 0 <= q < b.alignedSize => zeroed[q]);
    forall j: nat
      ensures !BitAt(ws, j)
    {
      ConstantWords(j % W);
    }
    BitArray(b.sizeInBits, b.alignedSize, ws)
  }

  /**
   * Self-assignment as written differs from the copy that assignment makes
   * of any other array exactly when some word of the array is nonzero.
   */
  lemma SelfAssignmentLosesWords(b: BitArray)
    requires Valid(b)
    ensures Assign(b, b) == b
    ensures AssignSelf(b) != Assign(b, b) <==> exists q :: 0 <= q < |b.words| && b.words[q] != 0
  {
    var r := AssignSelf(b);
    if exists q :: 0 <= q < |b.words| && b.words[q] != 0 {
      var q :| 0 <= q < |b.words| && b.words[q] != 0;
      assert r.words[q] == 0;
    } else {
      assert r.words == b.words;
    }
  }

  /** `clear()`: no bits and no words left. */
  function Clear(b: BitArray): (r: BitArray)
    ensures Valid(r) && Bits(r) == [] && r.alignedSize == 0
  {
    BitArray(0, 0, [])
  }

  /** After clear(), and on a default-constructed array, every access fails as empty. */
  lemma ClearedAccessFails(b: BitArray, i: int, v: bool)
    ensures Get(Clear(b), i) == Err(EmptyArray)
    ensures SetAt(Clear(b), i, v) == Err(EmptyArray)
    ensures Get(New(), i) == Err(EmptyArray)
  {}

  /** `size()`: the length in bits. */
  function Size(b: BitArray): (n: nat)
    ensures n == |Bits(b)|
  {
    b.sizeInBits
  }

  /** `empty()`: the length is zero, whatever the word count. */
  function Empty(b: BitArray): (e: bool)
    ensures e <==> Bits(b) == []
  {
    b.sizeInBits == 0
  }
}
