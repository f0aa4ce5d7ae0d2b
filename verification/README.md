# BitArray in Dafny

A model of `BitArray`, a growable vector of bits packed into 64-bit machine
words (BitArray.h, BitArray.cpp), together with proofs of what each of its
operations does.

The state is a record of three fields, as in the class:

- `sizeInBits`: the length that `size()` reports;
- `alignedSize`: the word count;
- `words`: the words, as a `seq<bv64>`.

Bit i lives in word i / 64 at position i % 64. `Storage.BitAt` reads any
allocated bit, including the padding bits at and beyond the length, and
`Storage.Bits` is the abstract value: the bits below the length, index 0
first. Each operation is a pure function on this record. A member function
that mutates becomes a function that returns the new record. Every thrown
`Exception` becomes an `Err` of `Errors.Result`, whose error kinds are
`NegativeSize`, `EmptyArray`, `OutOfIndex` and `SizeMismatch`.

The model keeps the following behaviours of the code as they are:

- **Word count.** Construction and resize compute the word count as
  `align + num_bits - 1 / align`. Since `1 / align` is 0, an array of n bits
  has 64 + n words, not ceil(n / 64).
- **Empty arrays.** `BitArray()` and a cleared array have no words, so
  indexing, `count()`, `to_string()`, `any()`, `none()`, `set()` and
  `reset()` fail on them as empty. `size()`, `empty()`, `==`, `!=` and `swap`
  still succeed on them. `BitArray(0)` has 64 words: it is `empty()`,
  yet `count()` and `to_string()` succeed on it.
- **Seeding.** Only word 0 receives the seed.
- **Check order.** Indexing checks for an empty array before the index.
  `resize` returns on an unchanged length before it looks at the sign.
- **Asymmetric operator checks.** `&=` and `^=` compare word counts, while
  `|=` compares lengths. Two arrays can have the same word count and
  different lengths, because push_back grows the length without
  reallocating. `&=` or `^=` with a shorter right operand then fails reading
  past its end.
- **Whole-word queries.** `set()`, `reset()`, `any()` and `none()` act on
  whole words, padding included. `count()` and `to_string()` look only below
  the length.
- **Inequality.** `!=` is not the negation of `==`: for equal lengths it
  holds only when every bit differs (see Findings).

The class invariant `Storage.Valid` says two things. The word count is the
length of the word vector. And either the array has no words and no bits,
or it has at least 64 words and a length at most alignedSize - 64 rounded up
to a multiple of 64. That bound is the length set by the last constructor or
resize, plus whatever push_back added inside the last word. Every
operation that can succeed keeps it, as its contract states.
`Storage.InvariantBounds` derives the weaker bound: the length is below the
word count, so every index below the length addresses an allocated word.

Copy construction, assignment from another array and the binary operators
copy a value. Since records are values, a copy and its original cannot affect
each other, and the operands of `&`, `|`, `^`, `<<`, `>>` and `~` are unchanged by
construction. Assignment of an array to itself is the exception: the
operator frees the target's words before copying, so `a = a` zeroes every
word (`Lifecycle.AssignSelf`, see Findings).

Files, one module each:

- `words.dfy`: single-word bit facts.
- `errors.dfy`: error kinds.
- `storage.dfy`: the representation, the invariant and the two primitive
  writes.
- `access.dfy`: `operator[]`, `set(n)` and `reset(n)`.
- `lifecycle.dfy`: constructors, copy, assignment, swap, clear, size and
  empty.
- `sizing.dfy`: resize and push_back.
- `logic.dfy`: `&=`, `|=`, `^=`, `&`, `|`, `^` and `~`.
- `shifts.dfy`: the four shift operators.
- `queries.dfy`: `count`, `to_string`, `any`, `none`, `set()` and `reset()`.
- `equality.dfy`: `==` and `!=`.
- `laws.dfy`: laws across operations.
- `scenarios.dfy`: the test list's cases that agree with the code.

## Model

| member | source | states |
|---|---|---|
| Words.WriteBitSame | BitArray.cpp:61-62 | the proxy's masked write leaves the written position holding the written value |
| Words.WriteBitOther | BitArray.cpp:61-62 | the proxy's masked write leaves every other position of the word as it was |
| Words.ConstantWords | BitArray.cpp:239-241 | every bit of the all-ones word `~0L` is set and no bit of the zero word is |
| Storage.InvariantBounds | BitArray.h:93-95 | under the class invariant the word vector has alignedSize words, and the length is zero with no words or is below the word count |
| Storage.Address | BitArray.cpp:31-32 | position k of word q is bit q * 64 + k, the addressing `i / align`, `i % align` |
| Storage.WriteBitAt | BitArray.cpp:50-64 | writing bit i through the proxy changes bit i to the value and no other bit of any word |
| Storage.WriteRange | BitArray.cpp:116-120 | the loop writing f(i) to each i in [from, to) leaves exactly those bits changed, to f(i), and keeps the word count |
| Storage.Fit | BitArray.cpp:113 | resizing the word vector keeps the first m words and appends zero words, so bit j survives iff it is below 64 * m |
| Access.Get | BitArray.cpp:39-48 | reading fails as empty iff there are no words, then out of range iff i < 0 or i >= size(), and otherwise returns bit i |
| Access.SetAt | BitArray.cpp:66-74 | writing fails exactly as reading does; on success the invariant, length and word count are kept and only bit i changes, to the value |
| Access.SetBit | BitArray.cpp:227-233 | set(n, val) fails as indexing does; on success bit n reads val, default true, and no other bit changes |
| Access.ResetBit | BitArray.cpp:245-251 | reset(n) fails as indexing does; on success bit n reads false and no other bit changes |
| Access.GetAfterSetAt | BitArray.cpp:39-74 | after a write, reading the written index gives the value and reading any other index gives what it gave before |
| Access.SetAtSameValue | BitArray.cpp:61-62 | writing back the value a bit holds leaves the array equal to itself |
| Lifecycle.AlignedWords | BitArray.cpp:17 | the word count computed for n bits is at least 64, and n is at most the word count minus 64 rounded up to a multiple of 64, the bound the invariant asks for |
| Lifecycle.New | BitArray.cpp:11 | the default array is valid, has no bits and no words |
| Lifecycle.Make | BitArray.cpp:16-22 | construction fails iff n < 0; otherwise it is valid with n bits and 64 + n words, word 0 holds the seed and every other word is zero |
| Lifecycle.MakeBits | BitArray.cpp:16-22 | bit i of a new array is bit i of the seed below 64 and clear from 64 on |
| Lifecycle.MakeDefaultClear | BitArray.h:14 | with the default seed 0 every bit of a new array is clear |
| Lifecycle.Copy | BitArray.cpp:24-28 | the copy constructor reproduces length, word count and every word |
| Lifecycle.Assign | BitArray.cpp:94-103 | assignment from another array replaces the target's whole state by the source's, and the result is valid |
| Lifecycle.AssignSelf | BitArray.cpp:94-103 | `a = a` as written keeps the length, the word count and validity, and leaves no allocated bit set |
| Lifecycle.SelfAssignmentLosesWords | BitArray.cpp:94-103 | self-assignment as written differs from a copy exactly when some word, padding included, is nonzero |
| Lifecycle.Swap | BitArray.cpp:76-85 | swap fails iff the word counts differ; otherwise the two arrays exchange bits and words and both stay valid |
| Lifecycle.SwapTwice | BitArray.cpp:76-92 | swapping twice gives the original pair back |
| Lifecycle.Clear | BitArray.cpp:123-127 | clear() leaves a valid array with no bits and no words |
| Lifecycle.ClearedAccessFails | BitArray.cpp:39-45 | on a cleared or default array every read and write fails as empty, whatever the index |
| Lifecycle.Size | BitArray.cpp:313-315 | size() is the length of the abstract value |
| Lifecycle.Empty | BitArray.cpp:317-319 | empty() holds iff the abstract value is empty, whatever the word count |
| Sizing.Resize | BitArray.cpp:105-121 | resize fails iff n < 0; an unchanged length returns the array as it was; otherwise the length is n, the word count 64 + n, bits in [old size, n) read the fill value and every other bit survives iff its word is kept |
| Sizing.ResizeBits | BitArray.cpp:112-120 | after resize the bits are the old ones cut to n, or the old ones followed by n - size() copies of the fill value |
| Sizing.GrowByOne | BitArray.cpp:130-136 | the growth step of push_back, a resize by one at a word boundary and otherwise a length bump into the padding, keeps the invariant and every old bit, and keeps every allocated word bit other than the new position |
| Sizing.PushBack | BitArray.cpp:129-138 | push_back keeps the invariant, appends the bit to the abstract value, and reallocates to 64 + size() + 1 words exactly at a word boundary; every other allocated bit, padding included, keeps its value |
| Logic.Combine | BitArray.cpp:147-149 | the loop of a compound assignment sets bit i to a[i] op b[i] below a's length and leaves every bit from the length on |
| Logic.AndAssign | BitArray.cpp:140-151 | `&=` fails as empty iff a has no words, then on unequal word counts, then out of range iff b is shorter, and succeeds otherwise; on success bit i is a[i] and b[i] below the length and the padding is kept |
| Logic.OrAssign | BitArray.cpp:153-164 | `\|=` fails as empty iff a's length is 0, then on unequal lengths; on success bit i is a[i] or b[i] |
| Logic.XorAssign | BitArray.cpp:166-177 | `^=` has the checks of `&=` and succeeds iff none fires; on success bit i is a[i] xor b[i] |
| Logic.Binary | BitArray.cpp:357-382 | a binary operator fails as empty when either length is 0, and otherwise gives the compound assignment's result on a copy of the left operand |
| Logic.And | BitArray.cpp:357-364 | `a & b` succeeds iff 0 < size(a) <= size(b) with equal word counts, and is then the bitwise and |
| Logic.Or | BitArray.cpp:366-373 | `a \| b` succeeds iff both lengths are equal and nonzero, and is then the bitwise or |
| Logic.Xor | BitArray.cpp:375-382 | `a ^ b` succeeds iff 0 < size(a) <= size(b) with equal word counts, and is then the bitwise xor |
| Logic.BinaryCommutes | BitArray.cpp:357-382 | on operands of equal length every binary operator gives the same bits in either order |
| Logic.XorTwice | BitArray.cpp:166-177 | `^=` twice with the same right operand restores the left operand, padding included |
| Logic.SelfIdempotent | BitArray.cpp:140-164 | an array and-ed or or-ed with itself is unchanged |
| Logic.Invert | BitArray.cpp:289-298 | `~` fails as empty iff there are no words; otherwise it inverts exactly the bits below the length and copies the padding |
| Logic.InvertTwice | BitArray.cpp:289-298 | inverting twice gives the original array back |
| Shifts.ShiftLeftWords | BitArray.cpp:183-190 | the two loops of `<<= n` set bit i to old bit i + n below size() - n, clear the rest below size(), and keep the padding |
| Shifts.ShiftLeftAssign | BitArray.cpp:179-192 | `<<= n` fails as empty iff there are no words; for n outside [0, size()] the wrapped-around loops write nothing; otherwise bit i becomes old bit i + n, or false from size() - n on, with length, word count and padding kept |
| Shifts.ShiftLeft | BitArray.cpp:209-216 | `<< n` fails as empty iff there are no words and otherwise is the shifted copy, the array itself when n is outside [0, size()]; the copy keeps the word count and the padding bits |
| Shifts.ShiftRightWords | BitArray.cpp:198-205 | the two loops of `>>= n` set bit i to old bit i - n from n on, clear the bits below n, and keep the padding |
| Shifts.ShiftRightAssign | BitArray.cpp:194-207 | `>>= n` fails as empty iff there are no words, then out of range iff n is outside [0, size()], where the clearing loop runs past the length, and succeeds otherwise; then bit i becomes old bit i - n, or false below n |
| Shifts.ShiftRight | BitArray.cpp:218-225 | `>> n` fails exactly as `>>= n` does, succeeds for 0 <= n <= size() on an array with words, and is then the shifted copy with the word count and the padding bits kept |
| Shifts.ShiftByZero | BitArray.cpp:179-225 | shifting by 0 either way, in place or on a copy, gives the array exactly as it was |
| Shifts.ShiftByLength | BitArray.cpp:179-207 | shifting by size() either way clears every bit below the length |
| Shifts.ShiftThereAndBack | BitArray.cpp:179-207 | left then right by n clears the bottom n bits and keeps the others; right then left clears the top n bits and keeps the others |
| Queries.Ones | BitArray.cpp:304-310 | the counting loop gives the number of true entries, at most the length |
| Queries.Count | BitArray.cpp:300-311 | count() fails as empty iff there are no words, and otherwise is the number of set bits below the length |
| Queries.OnesComplement | BitArray.cpp:294-296 | the complement of a sequence counts its length minus its count |
| Queries.Render | BitArray.cpp:325-330 | the string loop emits '1' for a set bit and '0' for a clear one, index 0 first |
| Queries.ParseRender | BitArray.cpp:321-331 | a rendered string is binary and reads back as the bits it was rendered from |
| Queries.RenderParse | BitArray.cpp:321-331 | a binary string parsed and rendered again is itself |
| Queries.RenderOnes | BitArray.cpp:325-330 | the string holds as many '1's as there are set bits |
| Queries.ToString | BitArray.cpp:321-331 | to_string() fails as empty iff there are no words; otherwise it has size() binary characters, and character i is '1' iff bit i is set |
| Queries.ToStringCount | BitArray.cpp:300-331 | to_string() shows exactly count() ones and parses back to the bits |
| Queries.AnyFrom | BitArray.cpp:269-274 | the loop of any() finds a word iff some word from k on is nonzero |
| Queries.NoneFrom | BitArray.cpp:281-286 | the loop of none() succeeds iff every word from k on is zero |
| Queries.Any | BitArray.cpp:265-275 | any() fails as empty iff there are no words, and otherwise holds iff some word, padding included, is nonzero |
| Queries.None | BitArray.cpp:277-287 | none() fails as empty iff there are no words, and otherwise holds iff every word is zero |
| Queries.NoneIsNotAny | BitArray.cpp:265-287 | none() and any() fail together and otherwise are each other's negation |
| Queries.AnyIsSomeBit | BitArray.cpp:265-275 | any() holds iff some allocated bit, inside the length or in the padding, is set |
| Queries.CountedBitIsAny | BitArray.cpp:265-311 | a nonzero count() makes any() true |
| Queries.SetAll | BitArray.cpp:235-243 | set() fails as empty iff there are no words; otherwise every allocated bit is set and the length and word count are kept |
| Queries.ResetAll | BitArray.cpp:254-262 | reset() fails as empty iff there are no words; otherwise every allocated bit is clear |
| Queries.FillCounts | BitArray.cpp:235-311 | after set() count() is the length and any() holds; after reset() count() is 0 and none() holds |
| Equality.AgreeFrom | BitArray.cpp:337-342 | the loop of `==` succeeds iff the bits agree at every index from i up to the length |
| Equality.Equal | BitArray.cpp:333-343 | `==` holds iff the abstract values are equal, so padding is not compared |
| Equality.EqualIsEquivalence | BitArray.cpp:333-343 | `==` is reflexive, symmetric and transitive |
| Equality.DifferEverywhereFrom | BitArray.cpp:349-354 | the loop of `!=` as written succeeds iff the bits differ at every index from i up to the length |
| Equality.NotEqual | BitArray.cpp:345-355 | `!=` as written holds for different lengths, and for equal lengths iff every bit differs |
| Equality.NotEqualOnZeroLength | BitArray.cpp:345-355 | two zero-length arrays are both `==` and `!=` |
| Equality.NotEqualOnPartialDifference | BitArray.cpp:345-355 | equal-length arrays that differ in one bit and agree in another are neither `==` nor `!=` |
| Equality.DifferSomewhereFrom | BitArray.cpp:349-354 | the corrected loop succeeds iff the bits differ at some index from i up to the length |
| Equality.NotEqualIntended | BitArray.cpp:345-355 | the corrected `!=` holds iff the abstract values differ |
| Equality.NotEqualIntendedNegatesEqual | BitArray.cpp:333-355 | the corrected `!=` is exactly the negation of `==` |
| Laws.CountAfterSetAt | BitArray.cpp:61-74 | a write moves count() by the change in the written bit |
| Laws.InvertCount | BitArray.cpp:289-298 | after `~` count() is the length minus the old count() |
| Laws.PushBackCount | BitArray.cpp:129-138 | after push_back count() succeeds and grows by one exactly when the pushed bit is set |
| Laws.ResizeOnes | BitArray.cpp:116-120 | growing adds n - size() set bits when the fill is true and none otherwise |
| Laws.MakeAllOnes | BitArray.cpp:16-22 | with seed `~0` the first min(n, 64) bits are set and the rest clear |
| Laws.MakeAllOnesCount | BitArray.cpp:16-22 | with seed `~0` count() is min(n, 64) |
| Laws.MakeDefaultCount | BitArray.h:14 | with the default seed the bits are all clear, count() is 0 and to_string() is all zeros |
| Laws.MakeDefaultNone | BitArray.h:14 | with the default seed any() is false and none() is true |
| Laws.AnyWithoutCount | BitArray.cpp:265-311 | a zero-length array seeded with 1 is empty with count() 0, yet any() holds |
| Laws.ResizeRoundTrip | BitArray.cpp:105-121 | growing and then shrinking back to the old length gives the old bits back |
| Laws.ResizeDefaultFill | BitArray.h:50 | growing without a fill argument appends only clear bits |
| Laws.EqualIffSameString | BitArray.cpp:321-343 | two arrays with words are `==` iff their strings are equal |
| Laws.AssignmentChecksDiffer | BitArray.cpp:140-177 | a two-bit array of 65 words gets out of range from `&=`/`^=` against a one-bit array but a size mismatch from `\|=`; against a two-bit array of 66 words it is the other way round |
| Scenarios.DefaultConstruction | testlist.cpp:4-9 | a default array is empty |
| Scenarios.SmallConstruction | testlist.cpp:11-18 | BitArray(6) is not empty, has six bits and counts 0 |
| Scenarios.CopyConstruction | testlist.cpp:39-46 | a copy of BitArray(147, 23) is not empty and has 147 bits |
| Scenarios.NegativeConstruction | testlist.cpp:48-53 | BitArray(-1) fails |
| Scenarios.SeededConstruction | testlist.cpp:20-27 | BitArray(67, 20) has 67 bits and counts 2 |
| Scenarios.ResizeGrowWithTrue | testlist.cpp:55-63 | BitArray(123, 34) grown to 129 with true counts 8 |
| Scenarios.ResizeGrowDefault | testlist.cpp:75-83 | BitArray(156) grown to 345 counts 0 |
| Scenarios.ResizeShrinkSeeded | testlist.cpp:65-73 | BitArray(129, 34) shrunk to 127 has 127 bits and counts 2 |
| Scenarios.ResizeNegative | testlist.cpp:85-92 | resize(-20) fails |
| Scenarios.ClearSize | testlist.cpp:94-101 | clear() leaves length 0 |
| Scenarios.PushOntoDefault | testlist.cpp:103-113 | pushing 1 then 0 gives two bits reading true, false |
| Scenarios.PushKeepsPadding | BitArray.cpp:129-138 | pushing 0 onto BitArray(0, 2) keeps the seed bit in the padding, so any() is true while count() is 0 |
| Scenarios.PushAcrossWordBoundary | testlist.cpp:115-126 | BitArray(63, ~0) with 0 and 1 pushed counts 64, has 65 bits and bit 63 clear |
| Scenarios.CopyThenPush | testlist.cpp:300-309 | pushing onto a copy of BitArray(999, 23) gives the copy 1000 bits and leaves the original's 999 |
| Scenarios.SetThenRead | testlist.cpp:153-178 | set(60), set(0, false) and set(64) read back what they wrote |
| Scenarios.SetAllCount | testlist.cpp:180-187 | set() on 848 bits counts 848 |
| Scenarios.SetOutOfRange | testlist.cpp:189-205 | set(848) and set(-1) on 848 bits are out of range |
| Scenarios.ResetAfterPush | testlist.cpp:216-227 | a pushed 1 cleared by reset() counts 0, has length 1 and prints "0" |
| Scenarios.ResetOutOfRange | testlist.cpp:229-245 | reset(-4) and reset(87) on 87 bits are out of range |
| Scenarios.AllOnesSix | testlist.cpp:247-254 | BitArray(6, ~0) has any() true and prints "111111" |
| Scenarios.SelfAssignmentOfOnes | BitArray.cpp:94-103 | for BitArray(6, ~0), a copy prints "111111" while `a = a` as written prints "000000" and any() is false |
| Scenarios.LargeDefault | testlist.cpp:256-268 | BitArray(1000000) has any() false and prints a million zeros |
| Scenarios.PushedOnes | testlist.cpp:270-282 | k pushed ones, ten in the test, make none() false and print k ones |
| Scenarios.SizeAndEmpty | testlist.cpp:300-316 | BitArray(25, ~0 >> 24) is not empty and BitArray(999, 23) has 999 bits |
| Scenarios.AssignCopies | testlist.cpp:331-340 | after assignment the strings and lengths agree |
| Scenarios.CopyCompares | testlist.cpp:433-447 | an array is `==` to its copy and not `!=` to it |
| Scenarios.OrAssignCount | testlist.cpp:352-360 | `\|=` of two 63-bit arrays with an all-ones left operand counts 63 |
| Scenarios.OrCount | testlist.cpp:459-467 | `a \| b` on 237 bits counts 64 |
| Scenarios.XorCount | testlist.cpp:469-477 | `a ^ b` on 237 bits with a clear right operand counts 64 |
| Scenarios.InvertSeeded | testlist.cpp:372-379 | `~BitArray(127, ~0)` counts 63 |
| Scenarios.IndexOutOfRange | testlist.cpp:479-495 | indices 22 and -1 of a 22-bit array are out of range |
| Scenarios.OperatorMismatches | testlist.cpp:497-555 | each mismatched operand pair of the list fails with a size mismatch |
| Scenarios.HundredPushed | testlist.cpp:381-388 | BitArray(64, ~0) with 100 pushed ones holds 164 set bits |
| Scenarios.LeftShiftedCount | testlist.cpp:381-405 | `<<= 4` and `<< 4` on those 164 bits count 160 |
| Scenarios.RightShiftedCount | testlist.cpp:407-431 | `>>= 4` and `>> 4` on those 164 bits count 160 |

## Left out

- `operator<<` on `std::ostream` (BitArray.cpp:384-392): stream output.
- The `Exception` class (BitArray.h:110-122, BitArray.cpp:3-9): only the kind of error is kept, as `Errors.Error`; the messages and function names are not.
- Heap management: the destructor, `new` and `delete` of the word vector. Records are values, so copies are deep by construction; self-assignment, the one place where the freeing shows, is modelled as `Lifecycle.AssignSelf`.
- Signed `long` masks (`1L << (i % align)`): the model uses unsigned 64-bit masks, which have the same bit patterns. The word width is fixed at 64, as `unsigned long` is on LP64.
- Integer widths: lengths, indices and counts are unbounded. `int` overflow of `size()` and `count()` beyond `INT_MAX`, and the `int` to `size_t` conversions, are not modelled. A negative index is still out of range, as the conversion makes it in the source.
- Lifecycle.Make: every n < 0 fails with NegativeSize. In the source, the vector of 64 + n words is allocated before the sign check. For n < -64 that count wraps around and the allocation itself throws first.
- Logic.AndAssign: when the right operand is shorter, the source writes the bits below its length before it throws. The model returns the error without that partly updated array.
- Logic.XorAssign: the same partial update before the out-of-range error is not modelled.
- Shifts.ShiftRightAssign: for n outside [0, size()] the source clears every bit below the length before it fails out of range. The model returns the error without that partly updated array.
- Laws.ResizeOnes: states the growth of the set-bit count on the abstract value rather than through count(). count() is that number by its own contract once the array has words, which a grown array always has.
- testlist.cpp exercises a class `bit_array` from another header (testlist.cpp:2). Several of its expectations disagree with BitArray.cpp and are not restated:
  - testlist.cpp:29-37: the seed 23 sets four bits, not zero.
  - testlist.cpp:142-151: the count is 65, not 55.
  - testlist.cpp:207-214: reset(62) leaves bit 1 of the seed 2 set.
  - testlist.cpp:284-298: index 0 is printed first, so the set bit comes first.
  - testlist.cpp:318-329: swapping arrays with 0 and 129 words fails.
  - testlist.cpp:362-370: the xor leaves one bit set, not two.
- Cases that need bit facts of shifted seeds (testlist.cpp:128-140, 342-350, 449-457) agree with the code but are not restated.

## Findings

| source | as written | input that shows it | evidently intended | confidence | as-written member | corrected member |
|---|---|---|---|---|---|---|
| BitArray.cpp:345-355 | for equal lengths the loop returns false at the first index where the bits agree, so `!=` holds only when every bit differs | two zero-length arrays are both `==` and `!=`; bits 10 against 11 are neither | `a != b` is `!(a == b)`, true at the first index where the bits differ | not executed | Equality.NotEqual | Equality.NotEqualIntended |
| BitArray.cpp:94-103 | the operator deletes the target's words and allocates a zeroed vector before copying from the source's words, with no check for self-assignment | `a = a` with `a = BitArray(6, ~0)` leaves `to_string()` "000000" and `any()` false | `a = a` leaves `a` unchanged, as a copy of any other array would | not executed | Lifecycle.AssignSelf | Lifecycle.Assign |
