/**
 * The bitwise operators: the compound assignments `&=`, `|=`, `^=`, the
 * binary `&`, `|`, `^` built on a copy of the left operand, and `~`.
 *
 * The compound assignments do not check the same thing: `&=` and `^=`
 * compare word counts while `|=` compares lengths. Two arrays can have the
 * same word count and different lengths (push_back grows the length
 * without reallocating), and then `&=` and `^=` read past the end of the
 * shorter right operand and fail with OutOfIndex.
 */
module Logic {
  import opened Words
  import opened Errors
  import opened Storage
  import opened Lifecycle

  datatype Op = AndOp | OrOp | XorOp

  /** One bit of the result of op. */
  function Apply(op: Op, x: bool, y: bool): bool
  {
    match op
    case AndOp => x && y
    case OrOp => x || y
    case XorOp => x != y
  }

  /** The loop of the compound assignments: bit i becomes a[i] op b[i] for i below a's length. */
  function Combine(a: BitArray, b: BitArray, op: Op): (ws: seq<bv64>)
    requires Valid(a)
    ensures |ws| == |a.words|
    ensures forall j: nat {:trigger BitAt(ws, j)} ::
              BitAt(ws, j) == if j < a.sizeInBits then Apply(op, BitAt(a.words, j), BitAt(b.words, j))
                              else BitAt(a.words, j)
  {
    InvariantBounds(a);
    WriteRange(a.words, 0, a.sizeInBits, (j: nat) => Apply(op, BitAt(a.words, j), BitAt(b.words, j)))
  }

  /** The bits of a successful compound assignment, index by index. */
  ghost predicate Combined(a: BitArray, b: BitArray, op: Op, r: BitArray)
  {
    && Valid(r)
    && r.sizeInBits == a.sizeInBits && r.alignedSize == a.alignedSize
    && (forall i :: 0 <= i < a.sizeInBits ==> Bits(r)[i] == Apply(op, Bits(a)[i], BitAt(b.words, i)))
    && (forall j: nat :: a.sizeInBits <= j ==> BitAt(r.words, j) == BitAt(a.words, j))
  }

  lemma CombineValid(a: BitArray, b: BitArray, op: Op)
    requires Valid(a)
    ensures Combined(a, b, op, a.(words := Combine(a, b, op)))
  {
    var r := a.(words := Combine(a, b, op));
    forall i | 0 <= i < a.sizeInBits
      ensures Bits(r)[i] == Apply(op, Bits(a)[i], BitAt(b.words, i))
    {
      assert Bits(r)[i] == BitAt(r.words, i);
    }
  }

  /** `&=`: no words fails, then unequal word counts, then a right operand shorter than the left. */
  function AndAssign(a: BitArray, b: BitArray): (r: Result<BitArray>)
    requires Valid(a) && Valid(b)
    ensures r == Err(EmptyArray) <==> a.alignedSize == 0
    ensures r == Err(SizeMismatch) <==> a.alignedSize != 0 && a.alignedSize != b.alignedSize
    ensures r == Err(OutOfIndex) <==> a.alignedSize != 0 && a.alignedSize == b.alignedSize && b.sizeInBits < a.sizeInBits
    ensures r.Ok? <==> a.alignedSize != 0 && a.alignedSize == b.alignedSize && a.sizeInBits <= b.sizeInBits
    ensures r.Ok? ==> Combined(a, b, AndOp, r.value)
  {
    if a.alignedSize == 0 then Err(EmptyArray)
    else if a.alignedSize != b.alignedSize then Err(SizeMismatch)
    else if b.sizeInBits < a.sizeInBits then Err(OutOfIndex)
    else
      CombineValid(a, b, AndOp);
      Ok(a.(words := Combine(a, b, AndOp)))
  }

  /** `|=`: a zero length fails, then unequal lengths. */
  function OrAssign(a: BitArray, b: BitArray): (r: Result<BitArray>)
    requires Valid(a) && Valid(b)
    ensures r == Err(EmptyArray) <==> a.sizeInBits == 0
    ensures r == Err(SizeMismatch) <==> a.sizeInBits != 0 && a.sizeInBits != b.sizeInBits
    ensures r.Err? ==> r.error == EmptyArray || r.error == SizeMismatch
    ensures r.Ok? ==> Combined(a, b, OrOp, r.value) && a.sizeInBits == b.sizeInBits
  {
    if a.sizeInBits == 0 then Err(EmptyArray)
    else if a.sizeInBits != b.sizeInBits then Err(SizeMismatch)
    else
      CombineValid(a, b, OrOp);
      Ok(a.(words := Combine(a, b, OrOp)))
  }

  /** `^=`: the checks of `&=`. */
  function XorAssign(a: BitArray, b: BitArray): (r: Result<BitArray>)
    requires Valid(a) && Valid(b)
    ensures r == Err(EmptyArray) <==> a.alignedSize == 0
    ensures r == Err(SizeMismatch) <==> a.alignedSize != 0 && a.alignedSize != b.alignedSize
    ensures r == Err(OutOfIndex) <==> a.alignedSize != 0 && a.alignedSize == b.alignedSize && b.sizeInBits < a.sizeInBits
    ensures r.Ok? <==> a.alignedSize != 0 && a.alignedSize == b.alignedSize && a.sizeInBits <= b.sizeInBits
    ensures r.Ok? ==> Combined(a, b, XorOp, r.value)
  {
    if a.alignedSize == 0 then Err(EmptyArray)
    else if a.alignedSize != b.alignedSize then Err(SizeMismatch)
    else if b.sizeInBits < a.sizeInBits then Err(OutOfIndex)
    else
      CombineValid(a, b, XorOp);
      Ok(a.(words := Combine(a, b, XorOp)))
  }

  /**
   * The binary operators: either operand of length zero fails as empty;
   * otherwise the compound assignment runs on a copy of the left operand,
   * with the checks of that assignment.
   */
  function Binary(a: BitArray, b: BitArray, op: Op): (r: Result<BitArray>)
    requires Valid(a) && Valid(b)
    ensures a.sizeInBits == 0 || b.sizeInBits == 0 ==> r == Err(EmptyArray)
    ensures a.sizeInBits != 0 && b.sizeInBits != 0 ==>
      r == match op
           case AndOp => AndAssign(a, b)
           case OrOp => OrAssign(a, b)
           case XorOp => XorAssign(a, b)
  {
    if a.sizeInBits == 0 || b.sizeInBits == 0 then Err(EmptyArray)
    else
      var result := Copy(a);
      match op
      case AndOp => AndAssign(result, b)
      case OrOp => OrAssign(result, b)
      case XorOp => XorAssign(result, b)
  }

  /** `a & b`. */
  function And(a: BitArray, b: BitArray): (r: Result<BitArray>)
    requires Valid(a) && Valid(b)
    ensures r.Ok? <==> 0 < a.sizeInBits <= b.sizeInBits && a.alignedSize == b.alignedSize
    ensures r.Err? && (a.sizeInBits == 0 || b.sizeInBits == 0) ==> r.error == EmptyArray
    ensures r.Ok? ==> Combined(a, b, AndOp, r.value)
  {
    Binary(a, b, AndOp)
  }

  /** `a | b`. */
  function Or(a: BitArray, b: BitArray): (r: Result<BitArray>)
    requires Valid(a) && Valid(b)
    ensures r.Ok? <==> 0 < a.sizeInBits == b.sizeInBits
    ensures r.Err? && (a.sizeInBits == 0 || b.sizeInBits == 0) ==> r.error == EmptyArray
    ensures r.Ok? ==> Combined(a, b, OrOp, r.value)
  {
    Binary(a, b, OrOp)
  }

  /** `a ^ b`. */
  function Xor(a: BitArray, b: BitArray): (r: Result<BitArray>)
    requires Valid(a) && Valid(b)
    ensures r.Ok? <==> 0 < a.sizeInBits <= b.sizeInBits && a.alignedSize == b.alignedSize
    ensures r.Err? && (a.sizeInBits == 0 || b.sizeInBits == 0) ==> r.error == EmptyArray
    ensures r.Ok? ==> Combined(a, b, XorOp, r.value)
  {
    Binary(a, b, XorOp)
  }

  /** Every binary operator on operands of equal length ignores the operand order, in value. */
  lemma BinaryCommutes(a: BitArray, b: BitArray, op: Op)
    requires Valid(a) && Valid(b)
    requires Binary(a, b, op).Ok? && a.sizeInBits == b.sizeInBits
    ensures Binary(b, a, op).Ok?
    ensures Bits(Binary(a, b, op).value) == Bits(Binary(b, a, op).value)
  {
    var r, s := Binary(a, b, op).value, Binary(b, a, op).value;
    forall i | 0 <= i < a.sizeInBits
      ensures Bits(r)[i] == Bits(s)[i]
    {}
  }

  /** Applying `^=` twice with the same right operand restores the left operand, padding included. */
  lemma XorTwice(a: BitArray, b: BitArray)
    requires Valid(a) && Valid(b) && XorAssign(a, b).Ok?
    ensures XorAssign(XorAssign(a, b).value, b) == Ok(a)
  {
    var once := XorAssign(a, b).value;
    var twice := XorAssign(once, b).value;
    forall j: nat
      ensures BitAt(twice.words, j) == BitAt(a.words, j)
    {
      if j < a.sizeInBits {
        assert Bits(twice)[j] == BitAt(twice.words, j);
        assert Bits(once)[j] == BitAt(once.words, j);
        assert Bits(a)[j] == BitAt(a.words, j);
      }
    }
    WordsExt(twice.words, a.words);
  }

  /** An array or-ed or and-ed with itself is unchanged. */
  lemma SelfIdempotent(a: BitArray, op: Op)
    requires Valid(a) && 0 < a.sizeInBits && op != XorOp
    ensures Binary(a, a, op) == Ok(a)
  {
    var r := Binary(a, a, op).value;
    forall j: nat
      ensures BitAt(r.words, j) == BitAt(a.words, j)
    {
      if j < a.sizeInBits {
        assert Bits(r)[j] == BitAt(r.words, j);
        assert Bits(a)[j] == BitAt(a.words, j);
      }
    }
    WordsExt(r.words, a.words);
  }

  /**
   * `~`: a copy with every bit below the length inverted; the padding bits
   * are copied unchanged.
   */
  function Invert(b: BitArray): (r: Result<BitArray>)
    requires Valid(b)
    ensures r.Err? <==> b.alignedSize == 0
    ensures r.Err? ==> r.error == EmptyArray
    ensures r.Ok? ==> Valid(r.value) && r.value.sizeInBits == b.sizeInBits && r.value.alignedSize == b.alignedSize
    ensures r.Ok? ==> forall i :: 0 <= i < b.sizeInBits ==> Bits(r.value)[i] == !Bits(b)[i]
    ensures r.Ok? ==> forall j: nat :: b.sizeInBits <= j ==> BitAt(r.value.words, j) == BitAt(b.words, j)
  {
    if b.alignedSize == 0 then Err(EmptyArray)
    else
      var result := Copy(b);
      InvariantBounds(b);
      Ok(result.(words := WriteRange(result.words, 0, b.sizeInBits, (j: nat) => !BitAt(b.words, j))))
  }

  /** Inverting twice gives the original array back, padding included. */
  lemma InvertTwice(b: BitArray)
    requires Valid(b) && b.alignedSize != 0
    ensures Invert(Invert(b).value) == Ok(b)
  {
    var once := Invert(b).value;
    var twice := Invert(once).value;
    forall j: nat
      ensures BitAt(twice.words, j) == BitAt(b.words, j)
    {
      if j < b.sizeInBits {
        assert Bits(twice)[j] == BitAt(twice.words, j);
        assert Bits(once)[j] == BitAt(once.words, j);
        assert Bits(b)[j] == BitAt(b.words, j);
      }
    }
    WordsExt(twice.words, b.words);
  }
}
