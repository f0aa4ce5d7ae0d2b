/**
 * Laws that relate several operations: how count() moves under each
 * mutation, what construction leaves behind, the round trip of resize,
 * `==` against to_string(), and the asymmetry of the compound assignments'
 * checks.
 */
module Laws {
  import opened Words
  import opened Errors
  import opened Storage
  import opened Access
  import opened Lifecycle
  import opened Sizing
  import opened Logic
  import opened Queries
  import opened Equality

  // ---------------------------------------------------------------------
  // Counting over sequences

  /** Counting a concatenation adds the counts. */
  lemma OnesAppend(s: seq<bool>, t: seq<bool>)
    ensures Ones(s + t) == Ones(s) + Ones(t)
  {}

  /** Overwriting one entry moves the count by at most one. */
  lemma OnesUpdate(s: seq<bool>, i: nat, v: bool)
    requires i < |s|
    ensures Ones(s[i := v]) == Ones(s) - (if s[i] then 1 else 0) + (if v then 1 else 0)
  {}

  // ---------------------------------------------------------------------
  // count() under the operations

  /** A valid array of nonzero length has words, so count() succeeds with the count of its bits. */
  lemma CountOfOnes(b: BitArray, c: nat)
    requires Valid(b) && b.sizeInBits != 0 && Ones(Bits(b)) == c
    ensures Count(b) == Ok(c)
  {}

  /** An array whose first k bits are set and whose other bits below the length are clear counts k. */
  lemma CountLeading(b: BitArray, k: nat)
    requires Valid(b) && b.alignedSize != 0 && k <= b.sizeInBits
    requires forall i :: 0 <= i < b.sizeInBits ==> Bits(b)[i] == (i < k)
    ensures Count(b) == Ok(k)
  {
    var ones, zeros := seq(k, _ => true), seq(b.sizeInBits - k, _ => false);
    assert Bits(b) == ones + zeros;
    OnesAppend(ones, zeros);
    OnesConstant(k, true);
    OnesConstant(b.sizeInBits - k, false);
  }

  /** A write through `operator[]` moves count() by the change in that one bit. */
  lemma CountAfterSetAt(b: BitArray, i: int, v: bool)
    requires Valid(b) && SetAt(b, i, v).Ok?
    ensures Count(SetAt(b, i, v).value) ==
      Ok(Count(b).value - (if Bits(b)[i] then 1 else 0) + (if v then 1 else 0))
  {
    var r := SetAt(b, i, v).value;
    assert Bits(r) == Bits(b)[i := v];
    OnesUpdate(Bits(b), i, v);
  }

  /** `~` turns the count into the length minus the count. */
  lemma InvertCount(b: BitArray)
    requires Valid(b) && b.alignedSize != 0
    ensures Count(Invert(b).value) == Ok(b.sizeInBits - Count(b).value)
  {
    OnesComplement(Bits(b), Bits(Invert(b).value));
  }

  /** push_back adds one to count() exactly when the new bit is set, and leaves count() defined. */
  lemma PushBackCount(b: BitArray, bit: bool)
    requires Valid(b)
    ensures Count(PushBack(b, bit)) == Ok(Ones(Bits(b)) + if bit then 1 else 0)
  {
    PushBackOnes(b, bit);
    CountOfOnes(PushBack(b, bit), Ones(Bits(b)) + if bit then 1 else 0);
  }

  lemma PushBackOnes(b: BitArray, bit: bool)
    requires Valid(b)
    ensures Ones(Bits(PushBack(b, bit))) == Ones(Bits(b)) + if bit then 1 else 0
  {
    OnesAppend(Bits(b), [bit]);
  }

  /** Growing with resize adds the fill value once per new bit to the number of set bits. */
  lemma ResizeOnes(b: BitArray, n: int, v: bool)
    requires Valid(b) && b.sizeInBits < n
    ensures Ones(Bits(Resize(b, n, v).value)) == Ones(Bits(b)) + if v then n - b.sizeInBits else 0
  {
    var fill := seq(n - b.sizeInBits, _ => v);
    ResizeBits(b, n, v);
    OnesAppend(Bits(b), fill);
    OnesConstant(n - b.sizeInBits, v);
  }

  // ---------------------------------------------------------------------
  // Construction

  /** `BitArray(n, ~0)`: the first min(n, W) bits are set and the rest are clear. */
  lemma MakeAllOnes(n: int)
    requires n >= 0
    ensures Bits(Make(n, AllOnes).value) == seq(n, i => i < W)
  {
    var b := Make(n, AllOnes).value;
    forall i | 0 <= i < n
      ensures Bits(b)[i] == (i < W)
    {
      MakeBits(n, AllOnes, i);
      if i < W {
        ConstantWords(i);
      }
    }
  }

  /** `BitArray(n, ~0)` counts min(n, W). */
  lemma MakeAllOnesCount(n: int)
    requires n >= 0
    ensures Count(Make(n, AllOnes).value) == Ok(if n < W then n else W)
  {
    MakeAllOnes(n);
    CountLeading(Make(n, AllOnes).value, if n < W then n else W);
  }

  /** `BitArray(n)` reads false everywhere, so it counts 0 and prints only zeros. */
  lemma MakeDefaultCount(n: int)
    requires n >= 0
    ensures Bits(Make(n).value) == seq(n, _ => false)
    ensures Count(Make(n).value) == Ok(0)
    ensures ToString(Make(n).value) == Ok(seq(n, _ => '0'))
  {
    var b := Make(n).value;
    var zeros := seq(n, _ => false);
    forall i | 0 <= i < n
      ensures Bits(b)[i] == zeros[i]
    {
      MakeDefaultClear(n, i);
    }
    assert Bits(b) == zeros;
    OnesConstant(n, false);
    assert Render(zeros) == seq(n, _ => '0');
  }

  /** `BitArray(n)` has no set word, padding included, so any() is false and none() true. */
  lemma MakeDefaultNone(n: int)
    requires n >= 0
    ensures Any(Make(n).value) == Ok(false)
    ensures None(Make(n).value) == Ok(true)
  {}

  /**
   * any() looks at the padding and count() does not: a zero-length array
   * seeded with 1 has a set word but no counted bit.
   */
  lemma AnyWithoutCount()
    ensures Any(Make(0, 1).value) == Ok(true)
    ensures Count(Make(0, 1).value) == Ok(0)
    ensures Empty(Make(0, 1).value)
  {
    assert Make(0, 1).value.words[0] != 0;
  }

  // ---------------------------------------------------------------------
  // resize

  /** Growing and then shrinking back to the old length gives the old bits back. */
  lemma ResizeRoundTrip(b: BitArray, n: int, v: bool)
    requires Valid(b) && b.sizeInBits <= n
    ensures Bits(Resize(Resize(b, n, v).value, b.sizeInBits).value) == Bits(b)
  {
    var grown := Resize(b, n, v).value;
    ResizeBits(b, n, v);
    ResizeBits(grown, b.sizeInBits, false);
  }

  /** Without a fill argument, growing appends only clear bits. */
  lemma ResizeDefaultFill(b: BitArray, n: int)
    requires Valid(b) && b.sizeInBits <= n
    ensures Bits(Resize(b, n).value) == Bits(b) + seq(n - b.sizeInBits, _ => false)
  {
    ResizeBits(b, n, false);
  }

  // ---------------------------------------------------------------------
  // Equality against to_string()

  /** Two arrays with words are `==` exactly when their strings are equal. */
  lemma EqualIffSameString(a: BitArray, b: BitArray)
    requires Valid(a) && Valid(b) && a.alignedSize != 0 && b.alignedSize != 0
    ensures Equal(a, b) <==> ToString(a) == ToString(b)
  {
    ParseRender(Bits(a));
    ParseRender(Bits(b));
  }

  // ---------------------------------------------------------------------
  // The asymmetric checks of the compound assignments

  /**
   * After `BitArray(1)` and one push_back, the array has two bits and still
   * W + 1 words. Against `BitArray(1)` (one bit, W + 1 words) `&=` and `^=`
   * pass their word-count check and then fail reading the right operand's
   * second bit, while `|=` fails its length check. Against `BitArray(2)`
   * (two bits, W + 2 words) it is the other way round.
   */
  lemma AssignmentChecksDiffer()
    ensures var a := PushBack(Make(1).value, true);
            && AndAssign(a, Make(1).value) == Err(OutOfIndex)
            && XorAssign(a, Make(1).value) == Err(OutOfIndex)
            && OrAssign(a, Make(1).value) == Err(SizeMismatch)
            && AndAssign(a, Make(2).value) == Err(SizeMismatch)
            && XorAssign(a, Make(2).value) == Err(SizeMismatch)
            && OrAssign(a, Make(2).value).Ok?
  {
    var a := PushBack(Make(1).value, true);
    assert |Bits(a)| == 2;
  }
}
