/**
 * Concrete scenarios of the repository's test list, restated on the model.
 * Only the cases whose expectations agree with BitArray.cpp are here; the
 * README lists the ones that do not.
 */
module Scenarios {
  import opened Words
  import opened Errors
  import opened Storage
  import opened Access
  import opened Lifecycle
  import opened Sizing
  import opened Logic
  import opened Shifts
  import opened Queries
  import opened Equality
  import opened Laws

  /** push_back called k times with the same bit, as the tests' loops do. */
  function PushMany(b: BitArray, bit: bool, k: nat): (r: BitArray)
    requires Valid(b)
    ensures Valid(r) && Bits(r) == Bits(b) + seq(k, _ => bit)
  {
    if k == 0 then b
    else
      var r := PushBack(PushMany(b, bit, k - 1), bit);
      assert seq(k, _ => bit) == seq(k - 1, _ => bit) + [bit];
      r
  }

  // ---------------------------------------------------------------------
  // Construction

  /** A default-constructed array is empty. */
  lemma DefaultConstruction()
    ensures Empty(New()) && Size(New()) == 0
  {}

  /** `BitArray(6)`: not empty, six bits, none set. */
  lemma SmallConstruction()
    ensures var b := Make(6).value;
            !Empty(b) && Size(b) == 6 && Count(b) == Ok(0)
  {
    MakeDefaultCount(6);
  }

  /** A copy of `BitArray(147, 23)` is not empty and has 147 bits. */
  lemma CopyConstruction()
    ensures var b := Copy(Make(147, 23).value);
            !Empty(b) && Size(b) == 147
  {}

  /** `BitArray(-1)` fails. */
  lemma NegativeConstruction()
    ensures Make(-1) == Err(NegativeSize)
  {}

  /** `BitArray(67, 20)`: the seed 20 sets bits 2 and 4, so two bits are counted. */
  lemma SeededConstruction()
    ensures var b := Make(67, 20).value;
            !Empty(b) && Size(b) == 67 && Count(b) == Ok(2)
  {
    var z := Make(67).value;
    var once := SetAt(z, 2, true).value;
    var twice := SetAt(once, 4, true).value;
    assert WriteBit(WriteBit(0, 2, true), 4, true) == 20;
    assert twice == Make(67, 20).value;
    MakeDefaultCount(67);
    CountAfterSetAt(z, 2, true);
    CountAfterSetAt(once, 4, true);
  }

  // ---------------------------------------------------------------------
  // resize, clear and push_back

  /** `BitArray(123, 34)` grown to 129 with true: the two seed bits and six new ones. */
  lemma ResizeGrowWithTrue()
    ensures var r := Resize(Make(123, 34).value, 129, true).value;
            Size(r) == 129 && Count(r) == Ok(8)
  {
    var z := Make(123).value;
    var once := SetAt(z, 1, true).value;
    var twice := SetAt(once, 5, true).value;
    assert WriteBit(WriteBit(0, 1, true), 5, true) == 34;
    assert twice == Make(123, 34).value;
    MakeDefaultCount(123);
    CountAfterSetAt(z, 1, true);
    CountAfterSetAt(once, 5, true);
    ResizeOnes(twice, 129, true);
    CountOfOnes(Resize(twice, 129, true).value, 8);
  }

  /** `BitArray(156)` grown to 345: nothing is set. */
  lemma ResizeGrowDefault()
    ensures var r := Resize(Make(156).value, 345).value;
            Size(r) == 345 && Count(r) == Ok(0)
  {
    MakeDefaultCount(156);
    ResizeOnes(Make(156).value, 345, false);
    CountOfOnes(Resize(Make(156).value, 345).value, 0);
  }

  /** `BitArray(129, 34)` shrunk to 127: the two seed bits stay and the cut bits were clear. */
  lemma ResizeShrinkSeeded()
    ensures var r := Resize(Make(129, 34).value, 127).value;
            Size(r) == 127 && Count(r) == Ok(2)
  {
    var r := Resize(Make(129, 34).value, 127).value;
    var c := Make(127, 34).value;
    ShrunkSeedBits();
    SeededCount127();
    assert Ones(Bits(r)) == 2 by {
      assert Bits(r) == Bits(c);
    }
    CountOfOnes(r, 2);
  }

  /** Shrinking `BitArray(129, 34)` to 127 gives the bits of `BitArray(127, 34)`. */
  lemma ShrunkSeedBits()
    ensures Bits(Resize(Make(129, 34).value, 127).value) == Bits(Make(127, 34).value)
  {
    var b := Make(129, 34).value;
    var r := Resize(b, 127).value;
    var c := Make(127, 34).value;
    ResizeBits(b, 127, false);
    forall i | 0 <= i < 127
      ensures Bits(r)[i] == Bits(c)[i]
    {
      MakeBits(129, 34, i);
      MakeBits(127, 34, i);
    }
  }

  /** `BitArray(127, 34)` counts the two bits of its seed. */
  lemma SeededCount127()
    ensures Ones(Bits(Make(127, 34).value)) == 2
  {
    var z := Make(127).value;
    var once := SetAt(z, 1, true).value;
    var twice := SetAt(once, 5, true).value;
    assert WriteBit(WriteBit(0, 1, true), 5, true) == 34;
    assert twice == Make(127, 34).value;
    MakeDefaultCount(127);
    CountAfterSetAt(z, 1, true);
    CountAfterSetAt(once, 5, true);
  }

  /** Resizing to -20 fails. */
  lemma ResizeNegative()
    ensures Resize(Make(156).value, -20) == Err(NegativeSize)
  {}

  /** clear() leaves length zero. */
  lemma ClearSize()
    ensures Size(Clear(Make(943, AllOnes).value)) == 0
  {}

  /** push_back of 1 and then 0 on a default array. */
  lemma PushOntoDefault()
    ensures var r := PushBack(PushBack(New(), true), false);
            Size(r) == 2 && Get(r, 0) == Ok(true) && Get(r, 1) == Ok(false)
  {
    var r := PushBack(PushBack(New(), true), false);
    assert Bits(r) == [true, false];
  }

  /**
   * `BitArray(0, 2)` and push_back of 0: the seed bit 1 stays in the padding,
   * so any() holds while count() is 0.
   */
  lemma PushKeepsPadding()
    ensures var b := PushBack(Make(0, 2).value, false);
            Any(b) == Ok(true) && Count(b) == Ok(0)
  {}

  /**
   * `BitArray(63, ~0)` and push_back of 0 and then 1: 63 set bits from the
   * seed, a clear bit 63, and a set bit 64 in the next word.
   */
  lemma PushAcrossWordBoundary()
    ensures var r := PushBack(PushBack(Make(63, AllOnes).value, false), true);
            Count(r) == Ok(64) && Size(r) == 65 && Get(r, 63) == Ok(false) && !Empty(r)
  {
    var b := Make(63, AllOnes).value;
    var once := PushBack(b, false);
    var r := PushBack(once, true);
    MakeAllOnesCount(63);
    PushBackCount(b, false);
    PushBackCount(once, true);
    assert Bits(r)[63] == false;
  }

  /** A copy is independent: growing it leaves the original's length alone. */
  lemma CopyThenPush()
    ensures var a := Make(999, 23).value;
            Size(a) == 999 && Size(PushBack(Copy(a), true)) == 1000
  {}

  // ---------------------------------------------------------------------
  // set and reset

  /** set(60) on a 78-bit array reads back true; set(0, false) reads back false. */
  lemma SetThenRead()
    ensures var b := Make(78, AllOnes << 10).value;
            && Get(SetBit(b, 60).value, 60) == Ok(true)
            && Get(SetBit(b, 0, false).value, 0) == Ok(false)
    ensures Get(SetBit(Make(65, AllOnes << 10).value, 64).value, 64) == Ok(true)
  {}

  /** set() on 848 bits counts 848. */
  lemma SetAllCount()
    ensures Count(SetAll(Make(848, AllOnes << 10).value).value) == Ok(848)
  {
    FillCounts(Make(848, AllOnes << 10).value);
  }

  /** set(848) and set(-1, true) on 848 bits are out of range. */
  lemma SetOutOfRange()
    ensures var b := Make(848, AllOnes << 10).value;
            SetBit(b, 848) == Err(OutOfIndex) && SetBit(b, -1, true) == Err(OutOfIndex)
  {}

  /** A pushed 1 cleared by reset(): count 0, length 1, string "0". */
  lemma ResetAfterPush()
    ensures var r := ResetAll(PushBack(New(), true)).value;
            Count(r) == Ok(0) && Size(r) == 1 && ToString(r) == Ok("0")
  {
    var b := PushBack(New(), true);
    var r := ResetAll(b).value;
    FillCounts(b);
    assert Bits(r) == [false];
    assert Render([false]) == "0";
  }

  /** reset(-4) and reset(87) on 87 bits are out of range. */
  lemma ResetOutOfRange()
    ensures var b := Make(87, AllOnes << 10).value;
            ResetBit(b, -4) == Err(OutOfIndex) && ResetBit(b, 87) == Err(OutOfIndex)
  {}

  // ---------------------------------------------------------------------
  // any(), none(), to_string()

  /** `BitArray(6, ~0)`: any() holds and the string is six ones. */
  lemma AllOnesSix()
    ensures var b := Make(6, AllOnes).value;
            Any(b) == Ok(true) && ToString(b) == Ok("111111")
  {
    var b := Make(6, AllOnes).value;
    MakeAllOnes(6);
    assert Bits(b) == seq(6, _ => true);
    RenderConstant(6, true);
    assert Render(Bits(b)) == "111111";
    assert b.words[0] != 0;
  }

  /**
   * `a = a` on `BitArray(6, ~0)`: a copy of the array would still print six
   * ones, but the self-assignment as written prints six zeros and any()
   * no longer finds a bit.
   */
  lemma SelfAssignmentOfOnes()
    ensures var a := Make(6, AllOnes).value;
            && ToString(Assign(a, a)) == Ok("111111")
            && ToString(AssignSelf(a)) == Ok("000000")
            && Any(AssignSelf(a)) == Ok(false)
  {
    var a := Make(6, AllOnes).value;
    AllOnesSix();
    var s := AssignSelf(a);
    assert Bits(s) == seq(6, _ => false);
    RenderConstant(6, false);
    assert Render(Bits(s)) == "000000";
  }

  /** `BitArray(1000000)`: any() fails to find a bit and the string is all zeros. */
  lemma LargeDefault()
    ensures var b := Make(1000000).value;
            Any(b) == Ok(false) && ToString(b) == Ok(seq(1000000, _ => '0'))
  {
    MakeDefaultCount(1000000);
    MakeDefaultNone(1000000);
  }

  /** k > 0 ones pushed onto a default array (the test pushes ten): none() fails and the string is k ones. */
  lemma PushedOnes(k: nat)
    requires k > 0
    ensures var b := PushMany(New(), true, k);
            None(b) == Ok(false) && ToString(b) == Ok(seq(k, _ => '1'))
  {
    var b := PushMany(New(), true, k);
    assert Bits(b) == seq(k, _ => true);
    RenderConstant(k, true);
    assert Bits(b)[0];
    AnyIsSomeBit(b);
    NoneIsNotAny(b);
  }

  /** The string of n equal bits is n equal characters. */
  lemma RenderConstant(n: nat, v: bool)
    ensures Render(seq(n, _ => v)) == seq(n, _ => if v then '1' else '0')
  {}

  /** size() and empty() report only the length. */
  lemma SizeAndEmpty()
    ensures !Empty(Make(25, AllOnes >> 24).value)
    ensures Size(Make(999, 23).value) == 999
  {}

  // ---------------------------------------------------------------------
  // Assignment and comparison

  /** Assignment copies length and string. */
  lemma AssignCopies()
    ensures var b := Make(788, AllOnes).value;
            var t := Assign(New(), b);
            ToString(t) == ToString(b) && Size(t) == Size(b)
  {}

  /** An array is `==` to its copy and not `!=` to it. */
  lemma CopyCompares()
    ensures var a := Make(123, AllOnes).value;
            Equal(a, Copy(a)) && !NotEqual(a, Copy(a))
  {
    var a := Make(123, AllOnes).value;
    assert Bits(a)[0] == Bits(Copy(a))[0];
  }

  // ---------------------------------------------------------------------
  // Logical operators

  /** Or-ing two 63-bit arrays whose left operand is all ones counts 63. */
  lemma OrAssignCount()
    ensures Count(OrAssign(Make(63, AllOnes).value, Make(63, AllOnes >> 2).value).value) == Ok(63)
  {
    var a := Make(63, AllOnes).value;
    var r := OrAssign(a, Make(63, AllOnes >> 2).value).value;
    MakeAllOnes(63);
    CountLeading(r, 63);
  }

  /** `a | b` on 237 bits: the seed's 64 bits on the left absorb the right. */
  lemma OrCount()
    ensures Count(Or(Make(237, AllOnes).value, Make(237, AllOnes >> 2).value).value) == Ok(64)
  {
    var a, b := Make(237, AllOnes).value, Make(237, AllOnes >> 2).value;
    var r := Or(a, b).value;
    MakeAllOnes(237);
    forall i | 0 <= i < 237
      ensures Bits(r)[i] == (i < W)
    {
      MakeBits(237, AllOnes >> 2, i);
    }
    CountLeading(r, W);
  }

  /** `a ^ b` on 237 bits with a clear right operand counts the left's 64 bits. */
  lemma XorCount()
    ensures Count(Xor(Make(237, AllOnes).value, Make(237).value).value) == Ok(64)
  {
    var a, b := Make(237, AllOnes).value, Make(237).value;
    var r := Xor(a, b).value;
    MakeAllOnes(237);
    forall i | 0 <= i < 237
      ensures Bits(r)[i] == (i < W)
    {
      MakeDefaultClear(237, i);
    }
    CountLeading(r, W);
  }

  /** `~` on `BitArray(127, ~0)`: 64 set bits become 63. */
  lemma InvertSeeded()
    ensures Count(Invert(Make(127, AllOnes).value).value) == Ok(63)
  {
    MakeAllOnesCount(127);
    InvertCount(Make(127, AllOnes).value);
  }

  /** The operand checks of the test list: every mismatched pair fails with SizeMismatch. */
  lemma OperatorMismatches()
    ensures AndAssign(Make(128).value, Make(127).value) == Err(SizeMismatch)
    ensures And(Make(56).value, Make(127).value) == Err(SizeMismatch)
    ensures OrAssign(Make(738, 34).value, Make(127).value) == Err(SizeMismatch)
    ensures Or(Make(56).value, Make(57).value) == Err(SizeMismatch)
    ensures XorAssign(Make(7, 34).value, Make(12).value) == Err(SizeMismatch)
    ensures Xor(Make(56).value, Make(5).value) == Err(SizeMismatch)
  {}

  /** Reading index 22 or -1 of a 22-bit array is out of range. */
  lemma IndexOutOfRange()
    ensures Get(Make(22).value, 22) == Err(OutOfIndex)
    ensures Get(Make(22).value, -1) == Err(OutOfIndex)
  {}

  // ---------------------------------------------------------------------
  // Shifts

  /** `BitArray(64, ~0)` followed by 100 pushed ones: 164 set bits. */
  lemma HundredPushed()
    ensures var b := PushMany(Make(64, AllOnes).value, true, 100);
            Size(b) == 164 && Bits(b) == seq(164, _ => true)
  {
    MakeAllOnes(64);
  }

  /** Shifting the 164 set bits left by 4, in place or on a copy, leaves 160 of them. */
  lemma LeftShiftedCount()
    ensures var b := PushMany(Make(64, AllOnes).value, true, 100);
            && Count(ShiftLeftAssign(b, 4).value) == Ok(160)
            && Count(ShiftLeft(b, 4).value) == Ok(160)
  {
    HundredPushed();
    LeftShiftedOnes(PushMany(Make(64, AllOnes).value, true, 100), 164, 4);
  }

  /** An array of size set bits shifted left by n keeps size - n of them, in place or on a copy. */
  lemma LeftShiftedOnes(b: BitArray, size: nat, n: nat)
    requires Valid(b) && b.alignedSize != 0 && n <= size && Bits(b) == seq(size, _ => true)
    ensures Count(ShiftLeftAssign(b, n).value) == Ok(size - n)
    ensures Count(ShiftLeft(b, n).value) == Ok(size - n)
  {
    CountLeading(ShiftLeftAssign(b, n).value, size - n);
    CountLeading(ShiftLeft(b, n).value, size - n);
  }

  /** Shifting the 164 set bits right by 4, in place or on a copy, leaves 160 of them. */
  lemma RightShiftedCount()
    ensures var b := PushMany(Make(64, AllOnes).value, true, 100);
            && Count(ShiftRightAssign(b, 4).value) == Ok(160)
            && Count(ShiftRight(b, 4).value) == Ok(160)
  {
    var b := PushMany(Make(64, AllOnes).value, true, 100);
    var expected := seq(4, _ => false) + seq(160, _ => true);
    assert Ones(expected) == 160 by {
      OnesAppend(seq(4, _ => false), seq(160, _ => true));
      OnesConstant(160, true);
      OnesConstant(4, false);
    }
    HundredPushed();
    assert Count(ShiftRightAssign(b, 4).value) == Ok(160) by {
      RightShiftedBits(b, ShiftRightAssign(b, 4).value, expected);
    }
    assert Count(ShiftRight(b, 4).value) == Ok(160) by {
      RightShiftedBits(b, ShiftRight(b, 4).value, expected);
    }
  }

  /** An array of 164 set bits shifted right by 4 reads four clear bits and then 160 set ones. */
  lemma RightShiftedBits(b: BitArray, r: BitArray, expected: seq<bool>)
    requires Valid(r) && r.sizeInBits == 164 && Bits(b) == seq(164, _ => true)
    requires forall i :: 0 <= i < 164 ==> Bits(r)[i] == if 4 <= i then Bits(b)[i - 4] else false
    requires expected == seq(4, _ => false) + seq(160, _ => true)
    ensures Count(r) == Ok(Ones(expected))
  {
    forall i | 0 <= i < 164
      ensures Bits(r)[i] == expected[i]
    {}
    assert Bits(r) == expected;
  }
}
