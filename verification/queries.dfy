/**
 * The whole-array queries and fills: count(), to_string(), any(), none(),
 * set() and reset(). Every one of them fails as empty on an array without
 * words; a zero-length array built by `BitArray(0)` still has W words and
 * answers them.
 *
 * count() and to_string() look only at the bits below the length; set(),
 * reset(), any() and none() work on whole words, padding included.
 */
module Queries {
  import opened Words
  import opened Errors
  import opened Storage

  // ---------------------------------------------------------------------
  // count()

  /** The loop of count(): the number of true entries, counted front to back. */
  function Ones(s: seq<bool>): (c: nat)
    ensures c == multiset(s)[true]
    ensures c <= |s|
  {
    if |s| == 0 then 0
    else
      var init := s[..|s| - 1];
      assert s == init + [s[|s| - 1]];
      Ones(init) + (if s[|s| - 1] then 1 else 0)
  }

  /** `count()`: the number of set bits below the length. */
  function Count(b: BitArray): (r: Result<nat>)
    ensures r.Err? <==> b.alignedSize == 0
    ensures r.Err? ==> r.error == EmptyArray
    ensures r.Ok? ==> r.value == multiset(Bits(b))[true] && r.value <= b.sizeInBits
  {
    if b.alignedSize == 0 then Err(EmptyArray) else Ok(Ones(Bits(b)))
  }

  /** Counting the complement of a sequence gives its length minus its count. */
  lemma {:induction false} OnesComplement(s: seq<bool>, t: seq<bool>)
    requires |s| == |t| && forall i :: 0 <= i < |s| ==> t[i] == !s[i]
    ensures Ones(t) == |s| - Ones(s)
  {
    if |s| > 0 {
      var n := |s| - 1;
      OnesComplement(s[..n], t[..n]);
      assert Ones(s) == Ones(s[..n]) + (if s[n] then 1 else 0);
      assert Ones(t) == Ones(t[..n]) + (if t[n] then 1 else 0);
    }
  }

  /** A sequence of n equal values counts n or 0. */
  lemma {:induction false} OnesConstant(n: nat, v: bool)
    ensures Ones(seq(n, _ => v)) == if v then n else 0
  {
    if n > 0 {
      OnesConstant(n - 1, v);
      assert seq(n, _ => v) == seq(n - 1, _ => v) + [v];
    }
  }

  // ---------------------------------------------------------------------
  // to_string()

  /** The loop of to_string(): '1' for a set bit and '0' for a clear one, index 0 first. */
  function Render(s: seq<bool>): (str: string)
    ensures |str| == |s|
    ensures forall i :: 0 <= i < |s| ==> str[i] == if s[i] then '1' else '0'
  {
    if |s| == 0 then ""
    else Render(s[..|s| - 1]) + (if s[|s| - 1] then "1" else "0")
  }

  /** Reading a string of '0' and '1' back as bits: '1' is set, anything else clear. */
  function Parse(str: string): (s: seq<bool>)
    ensures |s| == |str|
    ensures forall i :: 0 <= i < |str| ==> s[i] == (str[i] == '1')
  {
    seq(|str|, i requires 0 <= i < |str| => str[i] == '1')
  }

  /** A string made only of '0' and '1'. */
  predicate IsBinary(str: string)
  {
    forall i :: 0 <= i < |str| ==> str[i] == '0' || str[i] == '1'
  }

  /** Rendering then parsing gives the bits back; rendering is binary. */
  lemma ParseRender(s: seq<bool>)
    ensures IsBinary(Render(s))
    ensures Parse(Render(s)) == s
  {}

  /** Parsing a binary string then rendering gives the string back. */
  lemma RenderParse(str: string)
    requires IsBinary(str)
    ensures Render(Parse(str)) == str
  {}

  /** The string holds as many '1's as there are set bits. */
  lemma {:induction false} RenderOnes(s: seq<bool>)
    ensures multiset(Render(s))['1'] == Ones(s)
  {
    if |s| > 0 {
      var n := |s| - 1;
      RenderOnes(s[..n]);
      assert s == s[..n] + [s[n]];
      assert Render(s) == Render(s[..n]) + (if s[n] then "1" else "0");
    }
  }

  /** `to_string()`: one character per bit below the length, index 0 first. */
  function ToString(b: BitArray): (r: Result<string>)
    ensures r.Err? <==> b.alignedSize == 0
    ensures r.Err? ==> r.error == EmptyArray
    ensures r.Ok? ==> |r.value| == b.sizeInBits && IsBinary(r.value)
    ensures r.Ok? ==> forall i :: 0 <= i < b.sizeInBits ==> (r.value[i] == '1' <==> Bits(b)[i])
  {
    if b.alignedSize == 0 then Err(EmptyArray) else Ok(Render(Bits(b)))
  }

  /** The string of an array shows exactly count() ones and parses back to its bits. */
  lemma ToStringCount(b: BitArray)
    requires b.alignedSize != 0
    ensures multiset(ToString(b).value)['1'] == Count(b).value
    ensures Parse(ToString(b).value) == Bits(b)
  {
    RenderOnes(Bits(b));
    ParseRender(Bits(b));
  }

  // ---------------------------------------------------------------------
  // any() and none()

  /** The loop of any(): is some word from k on nonzero? */
  function AnyFrom(words: seq<bv64>, k: nat): (r: bool)
    decreases |words| - k
    ensures r <==> exists q :: k <= q < |words| && words[q] != 0
  {
    if k >= |words| then false
    else if words[k] != 0 then true
    else AnyFrom(words, k + 1)
  }

  /** The loop of none(): is every word from k on zero? */
  function NoneFrom(words: seq<bv64>, k: nat): (r: bool)
    decreases |words| - k
    ensures r <==> forall q :: k <= q < |words| ==> words[q] == 0
  {
    if k >= |words| then true
    else if words[k] != 0 then false
    else NoneFrom(words, k + 1)
  }

  /** `any()`: some word, padding bits included, is nonzero. */
  function Any(b: BitArray): (r: Result<bool>)
    requires Valid(b)
    ensures r.Err? <==> b.alignedSize == 0
    ensures r.Err? ==> r.error == EmptyArray
    ensures r.Ok? ==> (r.value <==> exists q :: 0 <= q < |b.words| && b.words[q] != 0)
  {
    if b.alignedSize == 0 then Err(EmptyArray) else Ok(AnyFrom(b.words, 0))
  }

  /** `none()`: every word, padding bits included, is zero. */
  function None(b: BitArray): (r: Result<bool>)
    requires Valid(b)
    ensures r.Err? <==> b.alignedSize == 0
    ensures r.Err? ==> r.error == EmptyArray
    ensures r.Ok? ==> (r.value <==> forall q :: 0 <= q < |b.words| ==> b.words[q] == 0)
  {
    if b.alignedSize == 0 then Err(EmptyArray) else Ok(NoneFrom(b.words, 0))
  }

  /** none() is the negation of any(), and both fail together. */
  lemma NoneIsNotAny(b: BitArray)
    requires Valid(b)
    ensures None(b).Err? <==> Any(b).Err?
    ensures None(b).Ok? ==> None(b).value == !Any(b).value
  {}

  /** any() holds exactly when some allocated bit, inside the length or in the padding, is set. */
  lemma AnyIsSomeBit(b: BitArray)
    requires Valid(b) && b.alignedSize != 0
    ensures Any(b).value <==> exists j: nat :: j < W * |b.words| && BitAt(b.words, j)
  {
    if Any(b).value {
      var q :| 0 <= q < |b.words| && b.words[q] != 0;
      if forall k :: 0 <= k < W ==> !TestBit(b.words[q], k) {
        NoBitZero(b.words[q]);
      }
      var k :| 0 <= k < W && TestBit(b.words[q], k);
      Address(q, k);
      assert BitAt(b.words, q * W + k);
    } else {
      forall j: nat | j < W * |b.words|
        ensures !BitAt(b.words, j)
      {
        Addresses(j, |b.words|);
        ConstantWords(j % W);
      }
    }
  }

  /** A set bit below the length makes any() true. */
  lemma CountedBitIsAny(b: BitArray)
    requires Valid(b) && b.alignedSize != 0 && Count(b).value > 0
    ensures Any(b) == Ok(true)
  {
    assert true in multiset(Bits(b));
    var i :| 0 <= i < b.sizeInBits && Bits(b)[i];
    InvariantBounds(b);
    AnyIsSomeBit(b);
  }

  // ---------------------------------------------------------------------
  // set() and reset()

  /** `set()`: every word becomes all ones, padding included. */
  function SetAll(b: BitArray): (r: Result<BitArray>)
    requires Valid(b)
    ensures r.Err? <==> b.alignedSize == 0
    ensures r.Err? ==> r.error == EmptyArray
    ensures r.Ok? ==> Valid(r.value) && r.value.sizeInBits == b.sizeInBits && r.value.alignedSize == b.alignedSize
    ensures r.Ok? ==> forall j: nat :: BitAt(r.value.words, j) == (j < W * b.alignedSize)
  {
    if b.alignedSize == 0 then Err(EmptyArray)
    else
      var ws := seq(b.alignedSize, _ => AllOnes);
      forall j: nat
        ensures BitAt(ws, j) == (j < W * b.alignedSize)
      {
        ConstantWords(j % W);
      }
      Ok(b.(words := ws))
  }

  /** `reset()`: every word becomes zero, padding included. */
  function ResetAll(b: BitArray): (r: Result<BitArray>)
    requires Valid(b)
    ensures r.Err? <==> b.alignedSize == 0
    ensures r.Err? ==> r.error == EmptyArray
    ensures r.Ok? ==> Valid(r.value) && r.value.sizeInBits == b.sizeInBits && r.value.alignedSize == b.alignedSize
    ensures r.Ok? ==> forall j: nat :: !BitAt(r.value.words, j)
  {
    if b.alignedSize == 0 then Err(EmptyArray)
    else
      var ws := seq(b.alignedSize, _ => 0 as bv64);
      forall j: nat
        ensures !BitAt(ws, j)
      {
        ConstantWords(j % W);
      }
      Ok(b.(words := ws))
  }

  /** After set(), count() is the length and any() holds; after reset(), count() is 0 and none() holds. */
  lemma FillCounts(b: BitArray)
    requires Valid(b) && b.alignedSize != 0
    ensures Count(SetAll(b).value) == Ok(b.sizeInBits)
    ensures Any(SetAll(b).value) == Ok(true)
    ensures Count(ResetAll(b).value) == Ok(0)
    ensures None(ResetAll(b).value) == Ok(true)
  {
    var s, z := SetAll(b).value, ResetAll(b).value;
    InvariantBounds(b);
    assert Bits(s) == seq(b.sizeInBits, _ => true);
    assert Bits(z) == seq(b.sizeInBits, _ => false);
    OnesConstant(b.sizeInBits, true);
    OnesConstant(b.sizeInBits, false);
    assert BitAt(s.words, 0);
    AnyIsSomeBit(s);
    AnyIsSomeBit(z);
    NoneIsNotAny(z);
  }
}
