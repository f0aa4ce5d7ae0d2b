/**
 * The shift operators. The source indexes a bit array like a string,
 * index 0 first: `<<= n` moves every bit n places towards index 0 and
 * clears the top n bits, `>>= n` moves every bit n places away from index 0
 * and clears the bottom n bits. Both read from a snapshot taken before the
 * first write, and neither touches the padding.
 *
 * The loop counters are `size_t`, so a negative n, or one above size(),
 * wraps around. For `<<=` both loops then start at or beyond size() and
 * write nothing. For `>>=` the first loop writes nothing and the second runs
 * on past size(), where `operator[]` fails out of range.
 */
module Shifts {
  import opened Words
  import opened Errors
  import opened Storage
  import opened Lifecycle

  /** The words after the two loops of `<<= n`, stated bit by bit. */
  function ShiftLeftWords(b: BitArray, n: nat): (ws: seq<bv64>)
    requires Valid(b) && n <= b.sizeInBits
    ensures |ws| == |b.words|
    ensures forall i: nat :: i < b.sizeInBits ==> BitAt(ws, i) == (i + n < b.sizeInBits && BitAt(b.words, i + n))
    ensures forall j: nat {:trigger BitAt(ws, j)} :: b.sizeInBits <= j ==> BitAt(ws, j) == BitAt(b.words, j)
  {
    var tmp := Copy(b);
    var size := b.sizeInBits;
    InvariantBounds(b);
    var f := (i: nat) => BitAt(tmp.words, i + n);
    var moved := WriteRange(b.words, 0, size - n, f);
    var cleared := WriteRange(moved, size - n, size, _ => false);
    ShiftLeftFacts(b.words, moved, cleared, n, size, f);
    cleared
  }

  lemma ShiftLeftFacts(words: seq<bv64>, moved: seq<bv64>, cleared: seq<bv64>, n: nat, size: nat, f: nat -> bool)
    requires n <= size
    requires forall i: nat :: f(i) == BitAt(words, i + n)
    requires forall j: nat {:trigger BitAt(moved, j)} :: BitAt(moved, j) == if j < size - n then f(j) else BitAt(words, j)
    requires forall j: nat {:trigger BitAt(cleared, j)} :: BitAt(cleared, j) == if size - n <= j < size then false else BitAt(moved, j)
    ensures forall i: nat :: i < size ==> BitAt(cleared, i) == (i + n < size && BitAt(words, i + n))
    ensures forall j: nat {:trigger BitAt(cleared, j)} :: size <= j ==> BitAt(cleared, j) == BitAt(words, j)
  {}

  /** `<<= n`: bit i takes old bit i + n below size() - n; the rest up to size() is cleared. */
  function ShiftLeftAssign(b: BitArray, n: int): (r: Result<BitArray>)
    requires Valid(b)
    ensures r.Err? <==> b.alignedSize == 0
    ensures r.Err? ==> r.error == EmptyArray
    ensures r.Ok? && (n < 0 || b.sizeInBits < n) ==> r.value == b
    ensures r.Ok? ==> Valid(r.value) && r.value.sizeInBits == b.sizeInBits && r.value.alignedSize == b.alignedSize
    ensures r.Ok? && 0 <= n <= b.sizeInBits ==>
      forall i :: 0 <= i < b.sizeInBits ==>
        Bits(r.value)[i] == if i + n < b.sizeInBits then Bits(b)[i + n] else false
    ensures r.Ok? ==> forall j: nat :: b.sizeInBits <= j ==> BitAt(r.value.words, j) == BitAt(b.words, j)
  {
    if b.alignedSize == 0 then Err(EmptyArray)
    else if n < 0 || b.sizeInBits < n then Ok(b)
    else
      var r := b.(words := ShiftLeftWords(b, n));
      ShiftLeftBits(b, r, n);
      Ok(r)
  }

  lemma ShiftLeftBits(b: BitArray, r: BitArray, n: nat)
    requires r.sizeInBits == b.sizeInBits
    requires forall i: nat :: i < b.sizeInBits ==> BitAt(r.words, i) == (i + n < b.sizeInBits && BitAt(b.words, i + n))
    ensures forall i :: 0 <= i < b.sizeInBits ==> Bits(r)[i] == if i + n < b.sizeInBits then Bits(b)[i + n] else false
  {}

  /** The words after the two loops of `>>= n`, stated bit by bit. */
  function ShiftRightWords(b: BitArray, n: nat): (ws: seq<bv64>)
    requires Valid(b) && n <= b.sizeInBits
    ensures |ws| == |b.words|
    ensures forall i: nat :: i < b.sizeInBits ==> BitAt(ws, i) == (n <= i && BitAt(b.words, i - n))
    ensures forall j: nat {:trigger BitAt(ws, j)} :: b.sizeInBits <= j ==> BitAt(ws, j) == BitAt(b.words, j)
  {
    var tmp := Copy(b);
    var size := b.sizeInBits;
    InvariantBounds(b);
    var f := (i: nat) => i >= n && BitAt(tmp.words, i - n);
    var moved := WriteRange(b.words, n, size, f);
    var cleared := WriteRange(moved, 0, n, _ => false);
    ShiftRightFacts(b.words, moved, cleared, n, size, f);
    cleared
  }

  lemma ShiftRightFacts(words: seq<bv64>, moved: seq<bv64>, cleared: seq<bv64>, n: nat, size: nat, f: nat -> bool)
    requires n <= size
    requires forall i: nat :: n <= i ==> f(i) == BitAt(words, i - n)
    requires forall j: nat {:trigger BitAt(moved, j)} :: BitAt(moved, j) == if n <= j < size then f(j) else BitAt(words, j)
    requires forall j: nat {:trigger BitAt(cleared, j)} :: BitAt(cleared, j) == if 0 <= j < n then false else BitAt(moved, j)
    ensures forall i: nat :: i < size ==> BitAt(cleared, i) == (n <= i && BitAt(words, i - n))
    ensures forall j: nat {:trigger BitAt(cleared, j)} :: size <= j ==> BitAt(cleared, j) == BitAt(words, j)
  {}

  /** `>>= n`: bit i takes old bit i - n from n on; the bits below n are cleared. */
  function ShiftRightAssign(b: BitArray, n: int): (r: Result<BitArray>)
    requires Valid(b)
    ensures r == Err(EmptyArray) <==> b.alignedSize == 0
    ensures r == Err(OutOfIndex) <==> b.alignedSize != 0 && (n < 0 || b.sizeInBits < n)
    ensures r.Ok? <==> b.alignedSize != 0 && 0 <= n <= b.sizeInBits
    ensures r.Ok? ==> Valid(r.value) && r.value.sizeInBits == b.sizeInBits && r.value.alignedSize == b.alignedSize
    ensures r.Ok? ==>
      forall i :: 0 <= i < b.sizeInBits ==>
        Bits(r.value)[i] == if n <= i then Bits(b)[i - n] else false
    ensures r.Ok? ==> forall j: nat :: b.sizeInBits <= j ==> BitAt(r.value.words, j) == BitAt(b.words, j)
  {
    if b.alignedSize == 0 then Err(EmptyArray)
    else if n < 0 || b.sizeInBits < n then Err(OutOfIndex)
    else
      var r := b.(words := ShiftRightWords(b, n));
      ShiftRightBits(b, r, n);
      Ok(r)
  }

  lemma ShiftRightBits(b: BitArray, r: BitArray, n: nat)
    requires r.sizeInBits == b.sizeInBits
    requires forall i: nat :: i < b.sizeInBits ==> BitAt(r.words, i) == (n <= i && BitAt(b.words, i - n))
    ensures forall i :: 0 <= i < b.sizeInBits ==> Bits(r)[i] == if n <= i then Bits(b)[i - n] else false
  {}

  /** `b << n`: the shifted copy; the operand itself is a value and stays as it was. */
  function ShiftLeft(b: BitArray, n: int): (r: Result<BitArray>)
    requires Valid(b)
    ensures r == Err(EmptyArray) <==> b.alignedSize == 0
    ensures r.Err? <==> b.alignedSize == 0
    ensures r.Ok? && (n < 0 || b.sizeInBits < n) ==> r.value == b
    ensures r.Ok? ==> Valid(r.value) && r.value.sizeInBits == b.sizeInBits && r.value.alignedSize == b.alignedSize
    ensures r.Ok? && 0 <= n <= b.sizeInBits ==>
      forall i :: 0 <= i < b.sizeInBits ==>
        Bits(r.value)[i] == if i + n < b.sizeInBits then Bits(b)[i + n] else false
    ensures r.Ok? ==> forall j: nat :: b.sizeInBits <= j ==> BitAt(r.value.words, j) == BitAt(b.words, j)
  {
    if b.alignedSize == 0 then Err(EmptyArray)
    else ShiftLeftAssign(Copy(b), n)
  }

  /** `b >> n`: the shifted copy. */
  function ShiftRight(b: BitArray, n: int): (r: Result<BitArray>)
    requires Valid(b)
    ensures r == Err(EmptyArray) <==> b.alignedSize == 0
    ensures r == Err(OutOfIndex) <==> b.alignedSize != 0 && (n < 0 || b.sizeInBits < n)
    ensures r.Ok? <==> b.alignedSize != 0 && 0 <= n <= b.sizeInBits
    ensures r.Ok? ==> Valid(r.value) && r.value.sizeInBits == b.sizeInBits && r.value.alignedSize == b.alignedSize
    ensures r.Ok? ==>
      forall i :: 0 <= i < b.sizeInBits ==>
        Bits(r.value)[i] == if n <= i then Bits(b)[i - n] else false
    ensures r.Ok? ==> forall j: nat :: b.sizeInBits <= j ==> BitAt(r.value.words, j) == BitAt(b.words, j)
  {
    if b.alignedSize == 0 then Err(EmptyArray)
    else ShiftRightAssign(Copy(b), n)
  }

  /** Shifting by zero, either way, in place or on a copy, changes nothing at all. */
  lemma ShiftByZero(b: BitArray)
    requires Valid(b) && b.alignedSize != 0
    ensures ShiftLeftAssign(b, 0) == Ok(b)
    ensures ShiftRightAssign(b, 0) == Ok(b)
    ensures ShiftLeft(b, 0) == Ok(b)
    ensures ShiftRight(b, 0) == Ok(b)
  {
    var l := ShiftLeftAssign(b, 0).value;
    var r := ShiftRightAssign(b, 0).value;
    forall j: nat
      ensures BitAt(l.words, j) == BitAt(b.words, j)
      ensures BitAt(r.words, j) == BitAt(b.words, j)
    {
      if j < b.sizeInBits {
        assert Bits(l)[j] == BitAt(l.words, j);
        assert Bits(r)[j] == BitAt(r.words, j);
        assert Bits(b)[j] == BitAt(b.words, j);
      }
    }
    WordsExt(l.words, b.words);
    WordsExt(r.words, b.words);
  }

  /** Shifting by the whole length, either way, clears every bit below the length. */
  lemma ShiftByLength(b: BitArray)
    requires Valid(b) && b.alignedSize != 0
    ensures Bits(ShiftLeftAssign(b, b.sizeInBits).value) == seq(b.sizeInBits, _ => false)
    ensures Bits(ShiftRightAssign(b, b.sizeInBits).value) == seq(b.sizeInBits, _ => false)
  {}

  /**
   * Shifting left and then right by the same amount clears the bottom n
   * bits and keeps the others; shifting right and then left clears the top
   * n bits and keeps the others.
   */
  lemma ShiftThereAndBack(b: BitArray, n: int)
    requires Valid(b) && b.alignedSize != 0 && 0 <= n <= b.sizeInBits
    ensures var l := ShiftLeftAssign(b, n).value;
            forall i :: 0 <= i < b.sizeInBits ==>
              Bits(ShiftRightAssign(l, n).value)[i] == (n <= i && Bits(b)[i])
    ensures var r := ShiftRightAssign(b, n).value;
            forall i :: 0 <= i < b.sizeInBits ==>
              Bits(ShiftLeftAssign(r, n).value)[i] == (i + n < b.sizeInBits && Bits(b)[i])
  {}
}
