# vcf-lib record normalization, modelled in Dafny

This project models the core of the `vcf-lib` Rust crate: normalizing one
genomic variant record — a position plus a reference allele and an alternate
allele — into its minimal form, and classifying an allele pair by structural
type (SNV, MNV, insertion, deletion, indel, or no type at all).

`Normalize` validates both alleles. Each must be non-empty and use only the
sixteen IUPAC codes `ACGTURYKMSWBDHVN`, and the first failing check decides
the error. It then removes the symbols the alleles share at their right ends,
and after that the symbols they share at their left ends, moving the position
right by the number removed at the left. Both trims keep one shared symbol
whenever trimming would empty an allele. The shared symbols are counted by a
loop that steps through both alleles together (`count_shared`). The trailing
trim runs that loop over the reversed alleles.

Files and modules:

- `errors.dfy`, module `Errors`: the four-case error type and `Result`.
- `lib.dfy`, module `Lib`: `VariantType` and `Option`.
- `record.dfy`, module `Record`: the alphabet, the shared-symbol count (as a
  function and as the loop), the two trims, `Normalize`, `VariantTypeOf`,
  and the lemmas about them.
- `record_tests.dfy`, module `RecordTests`: the source's unit-test scenarios,
  stated as lemmas.

Positions are unbounded naturals and alleles are `seq<char>`. Each allele in
a result is a slice of the input allele. `IsNormalizationOf` gives the slice
structure explicitly. With `k` the position shift, the result is
`reference[k..e1]` and `alternate[k..e2]`. The two removed prefixes are
equal. The two removed suffixes are equal and have the same length. The
suffix is as long as the trailing trim allows. Neither end can be trimmed
further. `NormalizeIsUnique` shows this predicate pins the result down
exactly.

Identical alleles keep their position. The trailing trim keeps the first
symbol of each allele, and the leading trim's boundary rule then removes
nothing. `NormalizeIdentical` proves this.

## Model

| member | source | states |
|---|---|---|
| Record.SharedCount | src/record.rs:81-93 | the count is at most the length of either input, the first `i` symbol pairs are equal, and either one input is exhausted at `i` or pair `i` differs |
| Record.CountShared | src/record.rs:81-93 | the counting loop with its early break returns the same properties (bounded, equal pairs before `i`, mismatch or exhaustion at `i`) and equals `SharedCount` |
| Record.SharedCountReversed | src/record.rs:50-52 | counting over the reversed alleles gives the length of their equal suffixes, and the symbols just before those suffixes differ unless an allele is exhausted |
| Record.IsAllelesAnchored | src/record.rs:6 | `IsAlleles`, which stands for the anchored pattern, fails exactly when the string is empty or some symbol anywhere in it is outside `ACGTURYKMSWBDHVN`; a well-formed allele is ASCII |
| Record.Reversed | src/record.rs:50-51 | the reversed string, as `chars().rev()` yields it, has the same length and holds symbol `k` at position `len - 1 - k` |
| Record.ReversedTwice | src/record.rs:50-51 | reversing twice gives the original string back |
| Record.TrimTrailingSharedBases | src/record.rs:49-63 | `IsTrailingTrimOf`: both results are non-empty prefixes of the inputs, shortened by the same amount; the removed suffixes are equal; the last symbols now differ or one result has length 1; the `0..p1`/`0..p2` slices are in bounds |
| Record.TrimLeadingSharedBases | src/record.rs:65-79 | `IsLeadingTrimOf`: the position grows by `k`, with `k` below both lengths (so `i -= 1` never underflows and both slices are non-empty); the results are the inputs from `k`; the removed prefixes are equal; the first symbols now differ or one result has length 1 |
| Record.Normalize | src/record.rs:8-32 | succeeds iff both alleles are non-empty and over the 16-symbol alphabet; failures come in the order empty ref, empty alt, bad ref symbol, bad alt symbol, and the symbol errors carry the input string; a success is a normal form of the input (`IsNormalizationOf`) |
| Record.TrimSharedBases | src/record.rs:29-31 | for non-empty alleles, the trailing trim followed by the leading trim returns a normal form of the input (`IsNormalizationOf`) |
| Record.TrimsComposeToNormalization | src/record.rs:29-31 | running the trailing trim and then the leading trim yields a slice pair with shared removed prefix and suffix, minimal at both ends |
| Record.NormalizeIsUnique | src/record.rs:49-79 | any variant meeting `IsNormalizationOf` for valid alleles is exactly what `Normalize` returns |
| Record.NormalFormsAgree | src/record.rs:49-79 | two normal forms of one variant are equal: the trailing cut is fixed first, then the leading cut |
| Record.NormalizeIsIdempotent | src/record.rs:8-32 | for every input `Normalize` accepts (both alleles valid), normalizing its output (position, ref, alt) again returns that output unchanged |
| Record.SliceIsAlleles | src/record.rs:6 | a non-empty slice of an allele over the alphabet is itself a valid allele |
| Record.NormalizeIdentical | src/record.rs:54-60 | identical valid alleles keep the position and shrink to their first symbol on both sides |
| Record.EqualNormalFormMeansEqualAlleles | src/record.rs:54-78 | if a normal form has equal alleles, the input alleles were equal |
| Record.NormalizedTypeIsNoneIff | src/record.rs:34-47 | after normalizing valid alleles, the classifier gives no type exactly when the input alleles were identical |
| Record.VariantTypeOf | src/record.rs:34-47 | total classifier: no type iff the alleles are equal; SNV iff both have length 1 and differ; MNV iff equal lengths other than 1 and different; insertion iff ref has length 1, alt is longer and the first symbols agree; deletion mirrors it; indel iff the lengths differ and neither anchored case holds |
| RecordTests.NormalizeSnv | src/record.rs:100-107 | `(1000, "A", "T")` is unchanged and is an SNV |
| RecordTests.NormalizeInsertion | src/record.rs:110-117 | `(1000, "A", "AT")` is unchanged and is an insertion |
| RecordTests.NormalizeDeletion | src/record.rs:120-127 | `(1000, "AT", "A")` is unchanged and is a deletion |
| RecordTests.NormalizeShiftedInsertion | src/record.rs:130-137 | `(1000, "AT", "ATA")` becomes `(1001, "T", "TA")`, an insertion |
| RecordTests.NormalizeTrimsBothEnds | src/record.rs:140-147 | `(1000, "ATCC", "ATACC")` becomes `(1001, "T", "TA")`, an insertion |
| RecordTests.NormalizeIndel | src/record.rs:150-157 | `(1000, "ACTCC", "AGTTCC")` becomes `(1001, "C", "GT")`, an indel |
| RecordTests.NormalizeNoVariant | src/record.rs:160-167 | `(1000, "A", "A")` is unchanged and has no type |
| RecordTests.NormalizeRejects | src/record.rs:170-187 | empty ref, empty alt, `.` in ref and `.` in alt each give their own error, and the first failing check wins (`("", ".")`, `(".", "")`, `("a", ".")`) |

## Left out

- The `regex` crate and its lazily built static (src/record.rs:3-6): the model uses the predicate `IsAlleles` instead. It says the string is non-empty and every symbol is in the alphabet, which is what the anchored pattern matches.
- Overflow of `position + i as u64` (src/record.rs:78): positions are unbounded naturals, so this model does not capture wrap-around or a panic near 2^64.
- Byte lengths versus char lengths: the Rust code measures and slices in bytes (`len()`, `get(0..1)`), and the model uses symbols. The two agree on valid alleles, which are ASCII. `VariantTypeOf` on non-ASCII input uses char lengths where the source would use byte lengths.
- Borrowed string views and lifetimes: each result allele is the corresponding slice value of the input, stated through its bounds, with no aliasing.
- The display messages and `Debug` derives of the error type (src/errors.rs:1-17), and the module declarations of src/lib.rs.
- The test harness itself: its assertions appear as the `RecordTests` lemmas.
