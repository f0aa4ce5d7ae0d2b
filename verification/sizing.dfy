/**
 * Changing the length: resize and push_back.
 */
module Sizing {
  import opened Words
  import opened Errors
  import opened Storage
  import opened Access
  import opened Lifecycle

  /**
   * `resize(num_bits, value)`, whose fill value defaults to false.
   *
   * Asking for the current length returns at once, before the sign of the
   * new length is looked at. Otherwise a negative length fails; a valid one
   * truncates or zero-extends the words to W + n, sets the length to n and,
   * when growing, writes v to every index from the old length up to n.
   * Shrinking writes nothing, so the bits cut off stay in the padding of
   * the words that are kept.
   */
  function Resize(b: BitArray, n: int, v: bool := false): (r: Result<BitArray>)
    requires Valid(b)
    ensures r.Err? <==> n < 0
    ensures r.Err? ==> r.error == NegativeSize
    ensures n == b.sizeInBits ==> r == Ok(b)
    ensures r.Ok? ==> Valid(r.value) && r.value.sizeInBits == n
    ensures r.Ok? && n != b.sizeInBits ==> r.value.alignedSize == W + n
    ensures r.Ok? && n != b.sizeInBits ==>
      forall j: nat {:trigger BitAt(r.value.words, j)} :: BitAt(r.value.words, j) ==
        if b.sizeInBits <= j < n then v else j < W * (W + n) && BitAt(b.words, j)
  {
    if b.sizeInBits == n then Ok(b)
    else if n < 0 then Err(NegativeSize)
    else
      var m := AlignedWords(n);
      Ok(BitArray(n, m, WriteRange(Fit(b.words, m), b.sizeInBits, n, _ => v)))
  }

  /** Resizing keeps every bit below both lengths and fills the rest with v. */
  lemma ResizeBits(b: BitArray, n: int, v: bool)
    requires Valid(b) && n >= 0
    ensures Bits(Resize(b, n, v).value) ==
      if n <= b.sizeInBits then Bits(b)[..n] else Bits(b) + seq(n - b.sizeInBits, _ => v)
  {
    var r := Resize(b, n, v).value;
    if n != b.sizeInBits {
      InvariantBounds(b);
      forall i | 0 <= i < n
        ensures Bits(r)[i] == if i < b.sizeInBits then Bits(b)[i] else v
      {
        assert i < W * (W + n);
      }
    }
  }

  /**
   * The first step of push_back: at a word boundary (the length a multiple
   * of W, or zero) a resize by one with false, which reallocates to
   * W + n + 1 words; otherwise only the length grows, into the padding.
   */
  function GrowByOne(b: BitArray): (r: BitArray)
    requires Valid(b)
    ensures Valid(r) && r.sizeInBits == b.sizeInBits + 1
    ensures r.alignedSize ==
      if b.sizeInBits % W == 0 || b.sizeInBits == 0 then W + b.sizeInBits + 1 else b.alignedSize
    ensures forall i :: 0 <= i < b.sizeInBits ==> Bits(r)[i] == Bits(b)[i]
    ensures forall j: nat {:trigger BitAt(r.words, j)} ::
              j != b.sizeInBits ==> BitAt(r.words, j) == (j < W * r.alignedSize && BitAt(b.words, j))
  {
    var n := b.sizeInBits;
    if n % W == 0 || n == 0 then
      var r := Resize(b, n + 1, false).value;
      assert forall i :: 0 <= i < n ==> Bits(r)[i] == Bits(b)[i] by {
        forall i | 0 <= i < n
          ensures Bits(r)[i] == Bits(b)[i]
        {
          InvariantBounds(b);
          assert i < W * (W + n + 1);
        }
      }
      r
    else
      b.(sizeInBits := n + 1)
  }

  /**
   * `push_back(bit)`: grow by one, then write the new last bit. Under the
   * invariant it cannot fail.
   */
  function PushBack(b: BitArray, bit: bool): (r: BitArray)
    requires Valid(b)
    ensures Valid(r)
    ensures Bits(r) == Bits(b) + [bit]
    ensures r.alignedSize ==
      if b.sizeInBits % W == 0 || b.sizeInBits == 0 then W + b.sizeInBits + 1 else b.alignedSize
    ensures forall j: nat {:trigger BitAt(r.words, j)} ::
              BitAt(r.words, j) == if j == b.sizeInBits then bit else j < W * r.alignedSize && BitAt(b.words, j)
  {
    var n := b.sizeInBits;
    var grown := GrowByOne(b);
    var r := SetAt(grown, n, bit).value;
    assert Bits(r) == Bits(b) + [bit] by {
      forall i | 0 <= i <= n
        ensures Bits(r)[i] == (Bits(b) + [bit])[i]
      {
        if i < n {
          assert Bits(grown)[i] == Bits(b)[i];
        }
      }
    }
    r
  }
}
