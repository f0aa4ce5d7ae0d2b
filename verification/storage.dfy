/**
 * The representation of a bit array: its length in bits, its word count
 * and the words themselves, together with the class invariant and the two
 * primitive writes every operation is built from.
 *
 * Bit i lives in word i / W at position i % W. BitAt reads every allocated
 * bit, including the padding bits at and beyond the length, because some
 * operations (set(), reset(), any(), none(), and shrinking resize) act on or
 * leave behind whole words.
 */
module Storage {
  import opened Words

  datatype BitArray = BitArray(sizeInBits: nat, alignedSize: nat, words: seq<bv64>)

  /** The smallest multiple of W that is at least m. */
  function RoundUp(m: nat): (r: nat)
    ensures r % W == 0 && m <= r < m + W
  {
    if m % W == 0 then m else m + (W - m % W)
  }

  /**
   * The class invariant. The word count is the length of the word vector,
   * and either the array has no words and no bits (default construction,
   * clear()), or it has at least W words and a length at most
   * alignedSize - W rounded up to a multiple of W: the length the last
   * constructor or resize set, plus what push_back added inside the last
   * word. Every constructor establishes this and every operation keeps it;
   * InvariantBounds shows it implies that each index below the length
   * addresses an allocated word.
   */
  predicate Valid(b: BitArray)
  {
    && |b.words| == b.alignedSize
    && ((b.alignedSize == 0 && b.sizeInBits == 0)
        || (W <= b.alignedSize && b.sizeInBits <= RoundUp(b.alignedSize - W)))
  }

  /** The invariant bounds the length strictly by the word count. */
  lemma InvariantBounds(b: BitArray)
    requires Valid(b)
    ensures |b.words| == b.alignedSize
    ensures (b.alignedSize == 0 && b.sizeInBits == 0) || b.sizeInBits < b.alignedSize
    ensures b.sizeInBits <= W * |b.words|
  {}

  /** Bit i of a word sequence; bits past the last word read as clear. */
  function BitAt(words: seq<bv64>, i: nat): bool
  {
    if i / W < |words| then TestBit(words[i / W], i % W) else false
  }

  /** The abstract value: the bits below the length, index 0 first. */
  function Bits(b: BitArray): (s: seq<bool>)
    ensures |s| == b.sizeInBits
  {
    seq(b.sizeInBits, i requires 0 <= i < b.sizeInBits => BitAt(b.words, i))
  }

  /** Bit index i addresses word i / W of a sequence of n words. */
  lemma Addresses(i: nat, n: nat)
    requires i < W * n
    ensures i / W < n
  {}

  /** Two bit indices in the same word at the same position are equal. */
  lemma SameAddress(i: nat, j: nat)
    requires i / W == j / W && i % W == j % W
    ensures i == j
  {}

  /** Position k of word q is bit q * W + k. */
  lemma Address(q: nat, k: nat)
    requires k < W
    ensures (q * W + k) / W == q && (q * W + k) % W == k
  {}

  /**
   * The masked write of one bit (the proxy assignment `Bit::operator=`):
   * only word i / W changes, and in it only position i % W.
   */
  function WriteBitAt(words: seq<bv64>, i: nat, v: bool): (r: seq<bv64>)
    requires i < W * |words|
    ensures |r| == |words|
    ensures forall q :: 0 <= q < |r| && q != i / W ==> r[q] == words[q]
    ensures forall j: nat {:trigger BitAt(r, j)} :: BitAt(r, j) == if j == i then v else BitAt(words, j)
  {
    Addresses(i, |words|);
    var r := words[i / W := WriteBit(words[i / W], i % W, v)];
    assert forall j: nat {:trigger BitAt(r, j)} :: BitAt(r, j) == if j == i then v else BitAt(words, j) by {
      forall j: nat
        ensures BitAt(r, j) == if j == i then v else BitAt(words, j)
      {
        WriteBitAtOne(words, r, i, j, v);
      }
    }
    r
  }

  lemma WriteBitAtOne(words: seq<bv64>, r: seq<bv64>, i: nat, j: nat, v: bool)
    requires i < W * |words|
    requires i / W < |words| && r == words[i / W := WriteBit(words[i / W], i % W, v)]
    ensures BitAt(r, j) == if j == i then v else BitAt(words, j)
  {
    if j == i {
      WriteBitSame(words[i / W], i % W, v);
    } else if j / W == i / W {
      if j % W == i % W {
        SameAddress(i, j);
      }
      WriteBitOther(words[i / W], i % W, j % W, v);
    }
  }

  /**
   * The loop `for i in [from, to): this[i] = f(i)` shared by resize, the
   * logical operators, the shifts and inversion. The values f(i) are
   * computed from a snapshot taken before the loop, which is how every such
   * loop in the source reads: either from a copy, or only from index i of
   * the array itself before writing it.
   */
  function WriteRange(words: seq<bv64>, from: nat, to: nat, f: nat -> bool): (r: seq<bv64>)
    requires to <= W * |words|
    decreases if from <= to then to - from else 0
    ensures |r| == |words|
    ensures forall j: nat {:trigger BitAt(r, j)} :: BitAt(r, j) == if from <= j < to then f(j) else BitAt(words, j)
  {
    if to <= from then words
    else WriteRange(WriteBitAt(words, from, f(from)), from + 1, to, f)
  }

  /**
   * `std::vector::resize` on the words: keep the first m words, or append
   * zero words up to m.
   */
  function Fit(words: seq<bv64>, m: nat): (r: seq<bv64>)
    ensures |r| == m
    ensures forall q :: 0 <= q < m ==> r[q] == if q < |words| then words[q] else 0
    ensures forall j: nat {:trigger BitAt(r, j)} :: BitAt(r, j) == (j < W * m && BitAt(words, j))
  {
    var r := if m <= |words| then words[..m] else words + seq(m - |words|, _ => 0);
    forall j: nat
      ensures BitAt(r, j) == (j < W * m && BitAt(words, j))
    {
      if j / W < m && |words| <= j / W {
        ConstantWords(j % W);
      }
    }
    r
  }

  /** A word sequence is determined by its bits and its length. */
  lemma WordsExt(a: seq<bv64>, b: seq<bv64>)
    requires |a| == |b|
    requires forall j: nat :: BitAt(a, j) == BitAt(b, j)
    ensures a == b
  {
    forall q | 0 <= q < |a|
      ensures a[q] == b[q]
    {
      forall k | 0 <= k < W
        ensures TestBit(a[q], k) == TestBit(b[q], k)
      {
        Address(q, k);
        assert BitAt(a, q * W + k) == BitAt(b, q * W + k);
      }
      Ext(a[q], b[q]);
    }
  }
}
