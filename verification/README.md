# Email-address spam filter, modelled in Dafny

This project models the `SpamFilter` class of the SpamFilterKata repository: a Bloom-filter-style membership structure that classifies email addresses as known spam.

The filter owns a `BitArray` of 2,000,000,000 bits, all clear at construction. Each address has three probe positions, computed from two hashes:

- a primary hash, the runtime's `string.GetHashCode()`;
- a secondary hash, Bob Jenkins' one-at-a-time avalanche mix over the UTF-16 code units, in 32-bit signed arithmetic that wraps around.

The three positions are `Math.Abs((p + k * s) % Count)` for k = 0, 1, 2. Adding an address sets its three bits. An address is reported as spam when all three of its bits are set. `Contains` gives up as soon as the first bit is clear.

The project has four modules:

- `CSharpInt` (`csharp_int.dfy`) models the C# `int` operations the filter uses, on mathematical integers:
  - `+`, `*` and `<<` wrap modulo 2^32;
  - `>>` is the sign-extending shift;
  - `^` works on the two's-complement bits;
  - `%` truncates toward zero, unlike Dafny's Euclidean `%`;
  - `Math.Abs` is only defined away from `int.MinValue`, where C# throws.
- `EmailAddressSpamFilter` (`spam_filter.dfy`) has two layers:
  - A value-level specification. The bits are a `seq<bool>`; `Insert`, `Query` and `InsertAll` act on it, and the three positions of a key are a `Probes` value.
  - The imperative class `SpamFilter` over an `array<bool>`. Each method is proved against that specification: `Add` and `HashString` are loops proved against the recursive `OneAtATime`, and `Contains` keeps the early return.
- `SpamFilterProperties` (`properties.dfy`) proves these properties of the specification:
  - no false negatives;
  - bits are never cleared;
  - idempotence, commutativity and order independence of insertion;
  - the hash of the empty string;
  - probe positions are always in range.
- `SpamFilterScenario` (`spam_filter_tests.dfy`) has client methods that mirror the repository's test scenario.

Two details of the code the model keeps:

- `Math.Abs` is applied to the remainder, not to the hash sum (SpamFilter.cs lines 48-50 and 57-58). `ProbeIndex` is `Abs(Rem(x, count))`, so sums that differ only in sign share a position.
- `Contains` computes the secondary hash on line 56, before the first-bit check on line 58. Only the second and third remainders come after that check.

## Model

| member | source | states |
|---|---|---|
| CSharpInt.WrapAdd | EmailAddressSpamFilter/SpamFilter.cs:39-40 | unchecked `+`: congruent to the exact sum modulo 2^32, and equal to it when the sum fits in an `int` |
| CSharpInt.WrapMul | EmailAddressSpamFilter/SpamFilter.cs:50 | unchecked `2 * value`: congruent to the exact product modulo 2^32, and equal to it when the product fits |
| CSharpInt.ShiftLeft | EmailAddressSpamFilter/SpamFilter.cs:40 | `a << n`: congruent to `a * 2^n` modulo 2^32, and equal to it when that fits, so the bits shifted out at the top are lost |
| CSharpInt.Unsigned | EmailAddressSpamFilter/SpamFilter.cs:41 | the two's-complement bit pattern of an `int`: below 2^32 and congruent to the value modulo 2^32 |
| CSharpInt.Xor | EmailAddressSpamFilter/SpamFilter.cs:41 | the bit pattern of `a ^ b` is the exclusive or of the bit patterns of `a` and `b` |
| CSharpInt.XorBitsBitwise | EmailAddressSpamFilter/SpamFilter.cs:41 | every bit of the exclusive or is set exactly when the operands' bits at that position differ |
| CSharpInt.Wrap | EmailAddressSpamFilter/SpamFilter.cs:39-40 | the unchecked result is congruent to the exact one modulo 2^32, and equal to it when the exact one fits in an `int` |
| CSharpInt.ShiftRight | EmailAddressSpamFilter/SpamFilter.cs:41 | the arithmetic shift keeps the sign and never moves a value away from zero |
| CSharpInt.ShiftRightIsFloorDivision | EmailAddressSpamFilter/SpamFilter.cs:41 | `a >> n` equals `a` divided by 2^n, rounded toward negative infinity |
| CSharpInt.Signed | EmailAddressSpamFilter/SpamFilter.cs:41 | turning a 32-bit pattern back into an `int` gives back the pattern it came from |
| CSharpInt.XorBitsBound | EmailAddressSpamFilter/SpamFilter.cs:41 | xor of two 32-bit patterns is again a 32-bit pattern, so `^` stays inside `int` |
| CSharpInt.XorSelfIsZero | EmailAddressSpamFilter/SpamFilter.cs:79 | `x ^ x` is 0 for every `int` |
| CSharpInt.Rem | EmailAddressSpamFilter/SpamFilter.cs:57 | the C# remainder by a positive divisor is smaller than the divisor in magnitude and has the sign of the dividend |
| CSharpInt.RemIsRemainder | EmailAddressSpamFilter/SpamFilter.cs:57 | the dividend minus the remainder is a multiple of the divisor; with the bound and sign of `Rem` this fixes the remainder of division rounded toward zero |
| CSharpInt.Abs | EmailAddressSpamFilter/SpamFilter.cs:58 | `Math.Abs` returns the non-negative one of `x` and `-x`; it is only called away from `int.MinValue`, where it would throw |
| EmailAddressSpamFilter.MixStep | EmailAddressSpamFilter/SpamFilter.cs:73-75 | no contract of its own: the three statements applied to each character; `MixFromAppend` and the loops of `Add` and `HashString` are stated with it |
| EmailAddressSpamFilter.Finish | EmailAddressSpamFilter/SpamFilter.cs:78-80 | no contract of its own: the three finalisation statements; `FinishFixesZero` is proved about it |
| EmailAddressSpamFilter.MixFrom | EmailAddressSpamFilter/SpamFilter.cs:71-76 | no contract of its own: the loop over the characters, written recursively; `MixFromAppend` proves it mixes them first to last |
| EmailAddressSpamFilter.OneAtATime | EmailAddressSpamFilter/SpamFilter.cs:67-82 | no contract of its own: the specification `HashString` and the inlined loop of `Add` are proved to compute; `EmptyKeyHashesToZero` is proved about it |
| EmailAddressSpamFilter.Query | EmailAddressSpamFilter/SpamFilter.cs:53-63 | a key is reported as contained exactly when every one of its probe bits is set |
| EmailAddressSpamFilter.ProbeIndex | EmailAddressSpamFilter/SpamFilter.cs:48-50 | `Math.Abs(x % Count)` never throws and is always a position of the bit array |
| EmailAddressSpamFilter.ProbesFrom | EmailAddressSpamFilter/SpamFilter.cs:48-50 | the three double-hashing positions `p`, `p + s`, `p + 2s`, each wrapped and then reduced, all lie inside the array |
| EmailAddressSpamFilter.ProbesOf | EmailAddressSpamFilter/SpamFilter.cs:55-60 | the probes of a key, from its runtime hash and its one-at-a-time hash, all lie inside the array |
| EmailAddressSpamFilter.Insert | EmailAddressSpamFilter/SpamFilter.cs:48-50 | after an add, a bit is set exactly when it was set before or it is one of the key's three probes; the size is unchanged |
| EmailAddressSpamFilter.SetProbes | EmailAddressSpamFilter/SpamFilter.cs:48-50 | setting three positions sets exactly those bits and clears none |
| EmailAddressSpamFilter.AllSet | EmailAddressSpamFilter/SpamFilter.cs:58-62 | the answer is true exactly when every probed bit is set, and it is false whenever the first probed bit is clear, whatever the other two are |
| EmailAddressSpamFilter.InsertAll | EmailAddressSpamFilter/SpamFilter.cs:20-26 | adding a list of keys in order keeps the size of the bit array |
| EmailAddressSpamFilter.SpamFilter.constructor | EmailAddressSpamFilter/SpamFilter.cs:14-18 | a new filter has `Capacity` bits, all clear, in a fresh array |
| EmailAddressSpamFilter.SpamFilter.IsSpam | EmailAddressSpamFilter/SpamFilter.cs:28-31 | `IsSpam` answers exactly what `Contains` answers, the specification's `Query` on the current bits |
| EmailAddressSpamFilter.SpamFilter.Add | EmailAddressSpamFilter/SpamFilter.cs:33-51 | the inlined mix computes the same hash as `HashString`, so the new bits are `Insert` of the old ones, and the key is contained afterwards |
| EmailAddressSpamFilter.SpamFilter.SetProbeBits | EmailAddressSpamFilter/SpamFilter.cs:48-50 | the three writes leave the array equal to `SetProbes` of its old contents |
| EmailAddressSpamFilter.SpamFilter.Contains | EmailAddressSpamFilter/SpamFilter.cs:53-63 | the answer is `Query` of the current bits; the array is not modified |
| EmailAddressSpamFilter.SpamFilter.ProbeBitsSet | EmailAddressSpamFilter/SpamFilter.cs:57-62 | the early return and the final conjunction together answer `AllSet` of the three probes |
| EmailAddressSpamFilter.SpamFilter.HashString | EmailAddressSpamFilter/SpamFilter.cs:67-82 | the loop computes the one-at-a-time hash of the whole string |
| EmailAddressSpamFilter.SpamFilter.LoadSpamEmailAddresses | EmailAddressSpamFilter/SpamFilter.cs:20-26 | adding every line in file order leaves the bits equal to `InsertAll` of the old bits and the lines |
| SpamFilterProperties.ShiftsOfZero | EmailAddressSpamFilter/SpamFilter.cs:78-80 | shifting 0 either way gives 0 |
| SpamFilterProperties.MixFromAppend | EmailAddressSpamFilter/SpamFilter.cs:71-76 | mixing a string and then one more character is mixing the longer string: characters go in first to last |
| SpamFilterProperties.FinishFixesZero | EmailAddressSpamFilter/SpamFilter.cs:78-80 | each finalisation step maps 0 to 0 |
| SpamFilterProperties.EmptyKeyHashesToZero | EmailAddressSpamFilter/SpamFilter.cs:67-82 | the secondary hash of the empty string is 0 |
| SpamFilterProperties.ZeroSecondaryProbesOnePosition | EmailAddressSpamFilter/SpamFilter.cs:48-50 | with a secondary hash of 0, the three probes coincide |
| SpamFilterProperties.EmptyKeyProbesOnePosition | EmailAddressSpamFilter/SpamFilter.cs:48-50 | the empty string sets only one bit, whatever its runtime hash |
| SpamFilterProperties.ProbeIndexIsMagnitudeModCount | EmailAddressSpamFilter/SpamFilter.cs:57-58 | `Math.Abs(x % Count)` equals the magnitude of `x` reduced modulo `Count` |
| SpamFilterProperties.ProbeIndexIgnoresSign | EmailAddressSpamFilter/SpamFilter.cs:57-62 | hash sums that differ only in sign probe the same position |
| SpamFilterProperties.SetProbesSetsThem | EmailAddressSpamFilter/SpamFilter.cs:48-62 | the three bits that were just set are all found set |
| SpamFilterProperties.SetProbesKeepsAllSet | EmailAddressSpamFilter/SpamFilter.cs:48-62 | setting other bits never turns an all-set triple into one that is not |
| SpamFilterProperties.SetProbesIdempotent | EmailAddressSpamFilter/SpamFilter.cs:48-50 | setting the same three bits twice equals setting them once |
| SpamFilterProperties.SetProbesCommute | EmailAddressSpamFilter/SpamFilter.cs:48-50 | two triples set in either order give the same bits |
| SpamFilterProperties.AddedKeyIsContained | EmailAddressSpamFilter/SpamFilter.cs:33-63 | after a key is added, it is contained |
| SpamFilterProperties.InsertKeepsAnswers | EmailAddressSpamFilter/SpamFilter.cs:33-63 | a contained key stays contained after any further add |
| SpamFilterProperties.InsertIdempotent | EmailAddressSpamFilter/SpamFilter.cs:33-51 | adding a key twice leaves the same bits as adding it once |
| SpamFilterProperties.InsertCommutes | EmailAddressSpamFilter/SpamFilter.cs:33-51 | two keys added in either order leave the same bits |
| SpamFilterProperties.ClearFilterContainsNothing | EmailAddressSpamFilter/SpamFilter.cs:53-63 | when every bit is clear, no key is contained |
| SpamFilterProperties.ProbesOfAllWithin | EmailAddressSpamFilter/SpamFilter.cs:48-50 | the probes of every key of a list lie inside the array |
| SpamFilterProperties.InsertAllIsSetAll | EmailAddressSpamFilter/SpamFilter.cs:20-26 | adding keys one by one is setting their probe triples one by one |
| SpamFilterProperties.SetAllSetsCovered | EmailAddressSpamFilter/SpamFilter.cs:20-26 | after setting a list of triples, a bit is set exactly when it was set before or some triple covers it |
| SpamFilterProperties.SetAllKeepsAllSet | EmailAddressSpamFilter/SpamFilter.cs:20-26 | setting a list of triples never turns an all-set triple into one that is not |
| SpamFilterProperties.SetAllSetsEachKey | EmailAddressSpamFilter/SpamFilter.cs:20-26 | after setting the triples of a list of keys, every triple of a key in the list is all set |
| SpamFilterProperties.InsertAllSetsProbedBits | EmailAddressSpamFilter/SpamFilter.cs:20-26 | after loading, a bit is set exactly when it was set before or it is a probe of some loaded line |
| SpamFilterProperties.NoFalseNegatives | EmailAddressSpamFilter/SpamFilter.cs:20-63 | every loaded line is contained afterwards, whatever came before or after it in the file |
| SpamFilterProperties.InsertAllKeepsAnswers | EmailAddressSpamFilter/SpamFilter.cs:20-63 | a contained key stays contained after any number of further adds |
| SpamFilterProperties.InsertAllDependsOnKeysOnly | EmailAddressSpamFilter/SpamFilter.cs:20-26 | two files with the same addresses leave the same bits, whatever the order or repetition |
| SpamFilterProperties.InsertAllPermutation | EmailAddressSpamFilter/SpamFilter.cs:20-26 | loading the lines in any permutation leaves the same bits |
| SpamFilterProperties.InsertAllIdempotent | EmailAddressSpamFilter/SpamFilter.cs:20-26 | loading the same file twice leaves the same bits as loading it once |
| SpamFilterScenario.VerifySpamEmailAddresses | EmailAddressSpamFilterTests/SpamFilterTests.cs:9-16 | after loading a file that lists the three addresses, `IsSpam` is true for each of them |
| SpamFilterScenario.NewFilterReportsNothing | EmailAddressSpamFilter/SpamFilter.cs:14-31 | a new filter reports no address as spam |
| SpamFilterScenario.TwoFiltersAgree | EmailAddressSpamFilter/SpamFilter.cs:14-31 | two filters loaded from the same lines give the same answer for every address |

## Left out

- Null addresses: a `Key` is always a sequence, so `IsSpam(null)` is not modelled. Neither is the `NullReferenceException` it raises at `item.GetHashCode()` (SpamFilter.cs line 55), nor the one a null line would raise in `Add`'s `foreach` (line 37).
- Reading the file in `LoadSpamEmailAddresses`: `File.ReadLines` is I/O, so the method takes the lines as a sequence of strings. Errors from the file system are not modelled.
- `string.GetHashCode()`: the runtime supplies it, and .NET randomises it per process. The model takes it as a fixed function. The constructor receives it, and the filter keeps it in a constant field.
- The `HashFunction` delegate `_getHashSecondary`: `Contains` calls `HashString` directly, which is what the delegate is bound to.
- The `BitArray` is an `array<bool>` of `Capacity` elements. Its packed storage, and the memory a 2,000,000,000-bit allocation needs, are not modelled.
- The `(int)` casts on lines 48-50 and 62 are identities on `int` values and are left out.
- `Contains` computes all three positions before it reads the first bit, while the code computes the second and third remainders after that read. These are pure arithmetic on values already computed, so the answer and the state are the same.
- The bit reads of `Contains` and the bit writes of `Add` are separate methods, `ProbeBitsSet` and `SetProbeBits`, which the two operations call.
- False-positive rates and saturation: these are statistical statements with no per-key contract.
- The negative assertion of the test (SpamFilterTests.cs line 18) depends on concrete `GetHashCode` values. The model leaves those values open, so that assertion cannot be stated.
- The test's contents of `Spam.txt` are not available. `VerifySpamEmailAddresses` takes the file's lines and the three addresses as parameters and requires that the lines contain them.
