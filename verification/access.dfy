/**
 * Indexed access: the const `operator[]` (a plain bool) and the non-const
 * one (the assignable `Bit` proxy) address the same bit and run the same
 * checks, so they become one read, Get, and one write, SetAt. set(n, v)
 * and reset(n) are an empty-array check in front of SetAt.
 */
module Access {
  import opened Words
  import opened Errors
  import opened Storage

  /**
   * Reading bit i. An array without words fails first, whatever i is;
   * then an index outside [0, size()) fails.
   */
  function Get(b: BitArray, i: int): (r: Result<bool>)
    ensures b.alignedSize == 0 <==> r == Err(EmptyArray)
    ensures r == Err(OutOfIndex) <==> b.alignedSize != 0 && (i < 0 || b.sizeInBits <= i)
    ensures r.Ok? <==> b.alignedSize != 0 && 0 <= i < b.sizeInBits
    ensures r.Ok? ==> r.value == Bits(b)[i]
  {
    if b.alignedSize == 0 then Err(EmptyArray)
    else if b.sizeInBits <= i || i < 0 then Err(OutOfIndex)
    else Ok(BitAt(b.words, i))
  }

  /**
   * Writing v to bit i through the proxy: the same checks as Get, then a
   * masked write of one bit. Every other bit of every word, padding
   * included, is left as it was.
   */
  function SetAt(b: BitArray, i: int, v: bool): (r: Result<BitArray>)
    requires Valid(b)
    ensures r.Err? <==> Get(b, i).Err?
    ensures r.Err? ==> r.error == Get(b, i).error
    ensures r.Ok? ==> Valid(r.value)
    ensures r.Ok? ==> r.value.sizeInBits == b.sizeInBits && r.value.alignedSize == b.alignedSize
    ensures r.Ok? ==> forall j: nat :: BitAt(r.value.words, j) == if j == i then v else BitAt(b.words, j)
  {
    if b.alignedSize == 0 then Err(EmptyArray)
    else if b.sizeInBits <= i || i < 0 then Err(OutOfIndex)
    else Ok(b.(words := WriteBitAt(b.words, i, v)))
  }

  /** `set(n, val)`, whose value defaults to true. */
  function SetBit(b: BitArray, n: int, v: bool := true): (r: Result<BitArray>)
    requires Valid(b)
    ensures r.Err? <==> Get(b, n).Err?
    ensures r.Err? ==> r.error == Get(b, n).error
    ensures r.Ok? ==> Valid(r.value) && Get(r.value, n) == Ok(v)
    ensures r.Ok? ==> r.value.sizeInBits == b.sizeInBits && r.value.alignedSize == b.alignedSize
    ensures r.Ok? ==> forall j: nat :: j != n ==> BitAt(r.value.words, j) == BitAt(b.words, j)
  {
    if b.alignedSize == 0 then Err(EmptyArray) else SetAt(b, n, v)
  }

  /** `reset(n)`: always writes false. */
  function ResetBit(b: BitArray, n: int): (r: Result<BitArray>)
    requires Valid(b)
    ensures r.Err? <==> Get(b, n).Err?
    ensures r.Err? ==> r.error == Get(b, n).error
    ensures r.Ok? ==> Valid(r.value) && Get(r.value, n) == Ok(false)
    ensures r.Ok? ==> r.value.sizeInBits == b.sizeInBits && r.value.alignedSize == b.alignedSize
    ensures r.Ok? ==> forall j: nat :: j != n ==> BitAt(r.value.words, j) == BitAt(b.words, j)
  {
    if b.alignedSize == 0 then Err(EmptyArray) else SetAt(b, n, false)
  }

  /** A write is read back at its own index and nowhere else. */
  lemma GetAfterSetAt(b: BitArray, i: int, v: bool, j: int)
    requires Valid(b) && SetAt(b, i, v).Ok?
    ensures Get(SetAt(b, i, v).value, j) == if j == i then Ok(v) else Get(b, j)
  {}

  /** Writing back the value a bit already holds changes nothing. */
  lemma SetAtSameValue(b: BitArray, i: int)
    requires Valid(b) && Get(b, i).Ok?
    ensures SetAt(b, i, Get(b, i).value) == Ok(b)
  {
    var r := SetAt(b, i, Get(b, i).value).value;
    WordsExt(r.words, b.words);
  }
}
