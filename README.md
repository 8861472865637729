# repos: rpm version comparison and package lists, in Dafny

This project models the core of `repos`, a Go library that reads yum/dnf
repository metadata. It covers two parts.

- **rpm's version comparison** (`rpmvercmp.go`). A version string is cut
  into maximal runs of one byte class: digits, ASCII letters, tildes, and
  "other" bytes. The two strings are then compared run by run.
- **Packages and package lists** (`pkgs.go`).
  - A package's name, epoch, version, release, arch and checksum.
  - The textual forms it is shown and matched under.
  - The order `Cmp` that sorts package lists.
  - Filtering a list by a user pattern.
  - The sorted two-pointer union of two lists.
  - The "rpmdb version": a package count plus an MD5 digest fed, for each
    package, its UIenvra form (ENVRA when the epoch is non-zero, NVRA
    otherwise), then the checksum kind and digits when a kind is set.

Go strings are byte sequences, so every string is `Bytes = seq<byte>`.

The files:

- `text.dfy`:
  - the byte helpers the Go code borrows from its standard library: `bytes.Compare`/`strings.Compare` and the `%d` and `%x` verbs of `fmt`;
  - the `Option` datatype.
- `rpmvercmp.dfy`: the comparison.
  - `RpmvercmpBytes` is the source's loop. It is proved equal to `VersionCompare`, which compares the two strings' token sequences lexicographically.
  - The order laws are proved about `VersionCompare`, together with the rules the comparison follows on strings.
- `rpmvercmp_vectors.dfy`: worked comparisons as lemmas. Most come from the repository's test table; `TenAfterNine` and `CaretIsSeparator` state what `rpmvercmp.go` computes.
- `pkg.dfy`: `Pkg`, its renderings, `Match` and `Cmp`. It proves that `Cmp` is a total preorder, so `ByPkg.Less` is a strict weak order.
- `pkgs.dfy`: `Pkgs.Match` and `Pkgs.Merge`. Their loops are proved equal to `Filter` and `MergeSeq`, and the properties are proved about those two functions.
- `rpmdbv.dfy`: the `RPMDBV` accumulator as a class (`count`, `chk`, `hash`), and `RPMDBVersion`.

## Model

| member | source | states |
|---|---|---|
| Text.CompareBytes | rpmvercmp.go:131-134 | byte-wise comparison returns -1, 0 or 1, and 0 exactly when the two byte strings are equal |
| Text.CompareBytesAntisymmetric | pkgs.go:91-94 | swapping the arguments of the byte-wise comparison negates it |
| Text.CompareBytesTransitive | pkgs.go:91-94 | the byte-wise order is transitive |
| Text.DecimalRoundTrip | pkgs.go:27 | the `%d` rendering of any integer, negative ones included, reads back as that integer |
| Text.SameLengthDigitsOrder | rpmvercmp.go:123-131 | for two digit runs of the same length, byte-wise order is the order of the numbers they denote |
| Text.HexRoundTrip | pkgs.go:329 | the `%x` rendering of the digest bytes, two lower-case digits per byte, gives back the bytes |
| Rpmvercmp.Class | rpmvercmp.go:25-42 | ASCII digits are Numeric, ASCII letters Alpha, '~' Tilde (the `tilda` switch is on), every other byte Other, never END |
| Rpmvercmp.RunLength | rpmvercmp.go:44-57 | the first run is non-empty, all of one class, and maximal |
| Rpmvercmp.NextSlice | rpmvercmp.go:44-57 | nextSlice cuts its input into the first maximal run, the run's class, and the rest; empty input gives END and two empty parts |
| Rpmvercmp.CutIsRun | rpmvercmp.go:44-57 | that cut is unique: its first part is exactly the maximal run |
| Rpmvercmp.Tokens | rpmvercmp.go:60-68 | the runs the comparison looks at are never Other or END and never empty |
| Rpmvercmp.CutTokens | rpmvercmp.go:61-71 | a cut moves its run, unless it is Other, from the rest to the front of the token sequence, and the rest is strictly shorter |
| Rpmvercmp.NextToken | rpmvercmp.go:61-67 | nextSlice followed by one skipped Other run yields the first token of the string or END, never Other |
| Rpmvercmp.CompareStep | rpmvercmp.go:73-134 | one round of the loop on the two current runs decides the comparison of the token sequences or defers to their rests |
| Rpmvercmp.NumCmp | rpmvercmp.go:115-134 | definition |
| Rpmvercmp.TokenCmp | rpmvercmp.go:73-134 | definition |
| Rpmvercmp.TokensCompare | rpmvercmp.go:59-138 | definition |
| Rpmvercmp.VersionCompare | rpmvercmp.go:59-142 | definition |
| Rpmvercmp.RpmvercmpBytes | rpmvercmp.go:59-138 | the loop's result is the lexicographic comparison of the two token sequences, with END padding and the run order of the loop's branches |
| Rpmvercmp.SkipZeros | rpmvercmp.go:117-122 | the zero-skipping loop leaves the run without its leading '0' bytes |
| Rpmvercmp.TrimZeros | rpmvercmp.go:117-122 | after trimming, the run is empty or does not start with '0' |
| Rpmvercmp.RpmVerCmp | rpmvercmp.go:140-142 | rpmvercmp returns the specified comparison, always -1, 0 or 1 |
| Rpmvercmp.TrimZerosValue | rpmvercmp.go:117-122 | trimming leading zeros keeps a digit run's digits and its value |
| Rpmvercmp.NumCmpIsNumeric | rpmvercmp.go:115-134 | the numeric branch (trim zeros, longer is greater, then byte-wise) is exactly the order of the numbers the runs denote |
| Rpmvercmp.ShorterIsSmaller | rpmvercmp.go:123-128 | without leading zeros, fewer digits means a smaller number |
| Rpmvercmp.NumericTokens | rpmvercmp.go:115-134 | two digit runs compare by their numeric values |
| Rpmvercmp.TokenCmpAcrossClasses | rpmvercmp.go:73-109 | runs of different classes are ordered Tilde < END < Other < Alpha < Numeric |
| Rpmvercmp.TokenCmpRange | rpmvercmp.go:73-134 | one round yields -1, 0 or 1 |
| Rpmvercmp.TokenCmpReflexive | rpmvercmp.go:73-134 | a run compared with itself yields 0 |
| Rpmvercmp.TokenCmpAntisymmetric | rpmvercmp.go:73-134 | swapping the two runs negates a round's result |
| Rpmvercmp.TokenCmpTransitive | rpmvercmp.go:73-134 | the order on runs is transitive |
| Rpmvercmp.TokensCompareRange | rpmvercmp.go:59-138 | the comparison of token sequences yields -1, 0 or 1 |
| Rpmvercmp.TokensCompareReflexive | rpmvercmp.go:59-138 | a token sequence compares equal to itself |
| Rpmvercmp.TokensCompareAntisymmetric | rpmvercmp.go:59-138 | swapping two token sequences negates their comparison |
| Rpmvercmp.TokensCompareTransitive | rpmvercmp.go:59-138 | the comparison of token sequences is transitive |
| Rpmvercmp.VersionCompareRange | rpmvercmp.go:59-138 | rpmvercmp yields -1, 0 or 1 |
| Rpmvercmp.VersionCompareReflexive | rpmvercmp.go:59-138 | every version compares equal to itself |
| Rpmvercmp.VersionCompareAntisymmetric | rpmvercmp_test.go:52-62 | rpmvercmp(b, a) is -rpmvercmp(a, b) for all a and b, the swap every test case also checks |
| Rpmvercmp.VersionCompareTransitive | rpmvercmp.go:59-138 | a <= b and b <= c give a <= c |
| Rpmvercmp.VersionCompareEquivalent | rpmvercmp.go:59-138 | versions that compare equal compare the same way against every third version |
| Rpmvercmp.SingleRun | rpmvercmp.go:44-57 | a string of one class is a single run |
| Rpmvercmp.FirstRunOfConcat | rpmvercmp.go:44-57 | the first run of a concatenation is that of its first part, unless a run straddles the join |
| Rpmvercmp.TokensConcat | rpmvercmp.go:44-57 | when the bytes at the join differ in class, the tokens of a concatenation are the tokens of its parts |
| Rpmvercmp.TokensAllOther | rpmvercmp.go:62-67 | a string of Other bytes contributes no tokens |
| Rpmvercmp.TokensOtherPrefix | rpmvercmp.go:62-67 | Other bytes in front of a string change nothing |
| Rpmvercmp.TokensAroundSeparator | rpmvercmp.go:62-67 | a non-empty Other run contributes nothing and keeps the runs on its two sides apart |
| Rpmvercmp.TokensCompareCommonPrefix | rpmvercmp.go:131-135 | equal leading tokens are passed over, and the rest decides |
| Rpmvercmp.SeparatorsInterchangeable | rpmvercmp_test.go:134-143 | exchanging one non-empty Other run for another never changes the result |
| Rpmvercmp.SeparatorBetweenRuns | rpmvercmp_test.go:218-219 | an Other run between runs of different classes, or at either end, can be dropped |
| Rpmvercmp.ExtensionOrder | rpmvercmp.go:73-98 | appending to a version: Other bytes alone give 0, a first tilde run gives older, any other first run gives newer |
| Rpmvercmp.AgainstEnd | rpmvercmp.go:84-98 | against an exhausted string, a tilde run is older and every other run newer |
| Rpmvercmp.DigitRunsAfterCommonPrefix | rpmvercmp.go:115-134 | after a common beginning and a separator, two final digit runs compare by their numeric values |
| Rpmvercmp.LeadingNumbersDecide | rpmvercmp.go:115-128 | versions that begin with digit runs of different value are ordered by those numbers alone |
| Rpmvercmp.TildeRuns | rpmvercmp.go:73-82 | of two tilde runs at the same place the shorter is newer; runs of equal length are passed over |
| RpmvercmpVectors.OneBeforeTwo | rpmvercmp_test.go:66 | "1.0" < "2.0" |
| RpmvercmpVectors.TenAfterNine | rpmvercmp.go:123-128 | "10" > "9": digit runs compare as numbers, not text |
| RpmvercmpVectors.LettersBeforeDigits | rpmvercmp_test.go:93 | "xyz.4" < "8" |
| RpmvercmpVectors.UnderscoreIsSeparator | rpmvercmp_test.go:129 | "2_0" == "2.0" |
| RpmvercmpVectors.CaretIsSeparator | rpmvercmp.go:39-40 | "1.0^" == "1.0": '^' falls into the Other class |
| RpmvercmpVectors.NonAsciiSeparators | rpmvercmp_test.go:213 | "1.1.α" == "1.1.ββ" in UTF-8 |
| RpmvercmpVectors.LetterExtension | rpmvercmp_test.go:74 | "2.0.1a" > "2.0.1" |
| RpmvercmpVectors.TildeExtension | rpmvercmp_test.go:150 | "1.0~rc1" < "1.0" |
| RpmvercmpVectors.CommonPrefixVector | rpmvercmp_test.go:78 | "5.5p1" < "5.5p2" |
| RpmvercmpVectors.TildeVector | rpmvercmp_test.go:240 | "1.0~~~" > "1.0~~~~" |
| RpmvercmpVectors.LeadingZerosIgnored | rpmvercmp_test.go:115 | "10.0001" == "10.1" |
| RpmvercmpVectors.FirstRunDecides | rpmvercmp_test.go:120 | "4.999.9" < "5.0" |
| Packages.Pkg.Nvr | pkgs.go:34-41 | NVR is NEVR without its "epoch:": both begin with "name-", and the rest of NVR is what follows the ':' in NEVR |
| Packages.Pkg.Nvra | pkgs.go:30-33 | NVRA is NVR followed by '.' and the arch |
| Packages.Pkg.Nevra | pkgs.go:26-29 | NEVRA is NEVR (name-epoch:version-release) followed by '.' and the arch |
| Packages.Pkg.Na | pkgs.go:42-44 | NA begins with the name, and what follows it is the ".arch" ending that NVRA adds to NVR |
| Packages.Pkg.Envra | pkgs.go:49-52 | ENVRA is the epoch's `%d` digits and ':' in front of NVRA |
| Packages.Pkg.Nevr | pkgs.go:34-37 | definition |
| Packages.Pkg.Name | pkgs.go:45-47 | definition |
| Packages.Pkg.UInevra | pkgs.go:54-60 | definition |
| Packages.Pkg.UInevr | pkgs.go:61-67 | definition |
| Packages.Pkg.UIenvra | pkgs.go:68-74 | definition |
| Packages.Pkg.String | pkgs.go:77-80 | definition |
| Packages.UIFormsShowEpoch | pkgs.go:34-80 | NEVR always carries "epoch:" between "name-" and the version; UInevra, UInevr and UIenvra carry it exactly when the epoch is not 0; Name is the name; String is UInevra |
| Packages.EnvraEpochRoundTrip | pkgs.go:49-52 | the epoch reads back from ENVRA's digits before its first ':', and NVRA follows the ':' |
| Packages.Pkg.Match | pkgs.go:139-163 | a package matches when the matcher accepts the pattern on UInevra and some one of the six forms matches |
| Packages.MatchForms | pkgs.go:139-163 | if the pattern is well-formed on UInevra, any single matching form makes the package match |
| Packages.Pkg.Cmp | pkgs.go:87-130 | Cmp is 0 exactly when name, epoch, arch and checksum digits are equal and version and release compare equal under rpmvercmp; different names decide by byte order |
| Packages.CmpReflexive | pkgs.go:87-90 | a package compared with itself gives 0 |
| Packages.CmpAntisymmetric | pkgs.go:87-130 | swapping the packages negates Cmp |
| Packages.CmpIgnoresKind | pkgs.go:118-123 | the checksum kind never affects the order |
| Packages.CmpLevels | pkgs.go:91-129 | Cmp is name order, then the epoch difference, then version, release, arch and checksum digits, each level deciding unless it ties |
| Packages.CmpTransitive | pkgs.go:87-130 | x <= y and y <= z give x <= z |
| Packages.CmpEquivalence | pkgs.go:87-130 | Cmp-equality is transitive |
| Packages.Less | pkgs.go:136 | definition |
| Packages.LessStrictWeakOrder | pkgs.go:132-136 | ByPkg.Less is irreflexive and transitive, and its incomparability is transitive, as sort.Sort requires |
| PackageSets.Filter | pkgs.go:252-257 | definition |
| PackageSets.MergeSeq | pkgs.go:268-289 | definition |
| PackageSets.Dropped | pkgs.go:275-278 | definition |
| PackageSets.KeptOfB | pkgs.go:272-289 | definition |
| PackageSets.Pkgs.Match | pkgs.go:247-260 | an empty pattern returns the list unchanged; otherwise the same repository with the matching packages, in order |
| PackageSets.MatchingPackages | pkgs.go:252-257 | the loop appends exactly the packages that `Filter` keeps |
| PackageSets.FilterMembers | pkgs.go:253-257 | a package is in the result exactly when it is in the list and matches |
| PackageSets.FilterSubsequence | pkgs.go:253-257 | the kept packages keep their order |
| PackageSets.MatchResult | pkgs.go:247-260 | the result holds exactly the matching packages, in order, and a sorted list stays sorted |
| PackageSets.Pkgs.Merge | pkgs.go:262-292 | the repository survives only when both lists share it; the packages are the two-pointer union |
| PackageSets.MergeLoop | pkgs.go:268-289 | the loop and the final appends produce the two-pointer union, the smaller head first and a's head on a tie |
| PackageSets.MergeMembers | pkgs.go:272-289 | the union invents no package |
| PackageSets.MergeSorted | pkgs.go:272-289 | two sorted lists merge into a sorted list |
| PackageSets.MergeKeepsA | pkgs.go:275-281 | every package of the first list is in the union, in its order |
| PackageSets.MergeCounts | pkgs.go:272-289 | the union and the dropped heads of b, taken together, are exactly a and b as multisets |
| PackageSets.MergeLength | pkgs.go:272-289 | the union is as long as both lists less one per tie |
| PackageSets.DroppedAreDuplicates | pkgs.go:275-278 | every dropped package of b is Cmp-equal to a package of a |
| PackageSets.MergeCoversB | pkgs.go:272-289 | every package of b is in the union or Cmp-equal to a package of a |
| PackageSets.KeptOfBInMerge | pkgs.go:282-289 | the packages of b that the union keeps appear in it in b's order |
| PackageSets.KeptOfBInB | pkgs.go:275-289 | the kept packages of b are an order-preserving selection from b |
| PackageSets.KeptAndDropped | pkgs.go:275-289 | b splits exactly, as a multiset, into its kept and its dropped packages |
| PackageSets.MergeInterleaves | pkgs.go:262-292 | the union is an interleaving: a and the kept packages of b each appear in their own order, and as a multiset it is exactly a plus the kept packages of b |
| PackageSets.MergeSelf | pkgs.go:272-289 | merging a list with itself gives the list back |
| PackageSets.MergeStrictlySorted | pkgs.go:272-289 | two sorted lists without Cmp-duplicates merge into a sorted list without Cmp-duplicates |
| Rpmdbv.Entry | pkgs.go:320-324 | definition |
| Rpmdbv.DigestInput | pkgs.go:335-337 | definition |
| Rpmdbv.DigestInputAppend | pkgs.go:335-337 | the digest is fed the entries of the packages one after the other, in list order |
| Rpmdbv.DigestInputSingle | pkgs.go:320-324 | a package's entry is its UIenvra form, then the checksum kind and digits when the kind is set |
| Rpmdbv.RPMDBV.constructor | pkgs.go:310-315 | a new accumulator has count 0, an empty checksum and a digest fed nothing |
| Rpmdbv.RPMDBV.Add | pkgs.go:317-325 | add increments the count and feeds the package's entry to the digest; the checksum is unchanged |
| Rpmdbv.RPMDBV.Done | pkgs.go:327-331 | done records kind "md5" and the hex digest of everything fed, drops the digest, and keeps the count |
| Rpmdbv.RPMDBV.String | pkgs.go:300-302 | the rendering is the count's digits, one ':', then the checksum digits; the count reads back from the digits before the ':' |
| Rpmdbv.RPMDBV.Count | pkgs.go:304-306 | definition |
| Rpmdbv.RPMDBVersion | pkgs.go:333-341 | the result counts the list and holds the hex MD5 of all entries in list order, under kind "md5" |

## Left out

- `Repodata.Load` and `MustLoad` are not modelled. They fetch the metadata, check it, decompress it, parse its XML and sort the result: network, compression and XML are outside the model. `Sorted` states the order `Load` leaves a list in, and `LessStrictWeakOrder` states what its `sort.Sort` call needs.
- `metalink.go`, `repomd.go`, `hchk.go` and the command-line programs are not part of this model. Only the `Checksum` record from `metalink.go` is used, as a datatype.
- `filepath.Match` is a parameter (`Glob`), because its glob syntax is not modelled. Every property of `Match` holds for any matcher.
- MD5 is a parameter (`md5`) of `Done` and `RPMDBVersion`. The model states the exact byte stream the digest is fed.
- `Pkg.Checksum` and `RPMDBV.Checksum` are plain field reads and are left out; the `chk` field is read directly.
- `ByPkg.Len` and `ByPkg.Swap` are left out. They are sort plumbing.
- Packages.Pkg.Cmp: the epoch level returns the difference of two unbounded integers. Go's `int` subtraction can wrap for epochs near the ends of the 64-bit range, and that wrap is not modelled.
- Packages.Pkg.Cmp: the source first checks `pkg == o`, which is pointer identity. Packages are values here, so that shortcut is left out. `CmpReflexive` shows the chain returns the same 0.
- PackageSets.Pkgs.Match: for an empty pattern the source returns the very same `*Pkgs` pointer. Here it returns an equal value, because aliasing is not modelled.
- The repository pointer `Repo *Repodata` is an identity number, `Option<nat>`, with `None` for nil.
- Rpmdbv.RPMDBV.Add: the `count` field is unbounded, so Go's `int` overflow is not modelled. Calling `add` after `done` dereferences a nil digest; that case is excluded by the precondition `hash.Some?`.
- Rpmdbv.RPMDBV.Done: calling `done` twice is excluded the same way.
- `io.WriteString` errors are ignored by the source, and they cannot occur for an MD5 hash. They are not modelled.
- The caret is not modelled as a class of its own. In `rpmvercmp.go` a `^` is an Other byte, and the model follows that code; `CaretIsSeparator` states the result.
  - The caret tests in `rpmvercmp_test.go` (lines 159-193 and 244-258) expect rpm's newer caret semantics. They are not encoded here.
  - `TestRpmCCaret` (rpmvercmp_test.go:159-180) and `TestRpmCCaretTilde` (rpmvercmp_test.go:182-193) are guarded by a `caret` switch.
  - `TestRpmvercmpCaret` (rpmvercmp_test.go:244-258) is guarded by `tilde` alone. That is the same switch as the tilde tests whose expected values the model adopts (`TildeExtension` from line 150, `TildeVector` from line 240).
  - Under that switch, the expected values at rpmvercmp_test.go:251, 256 and 257 contradict rpmvercmp.go, which treats every `^` as a separator. The model gives 0 for all three.
  - Neither `caret` nor `tilde` is defined in rpmvercmp.go or rpmvercmp_test.go; the code's own switch is named `tilda` (rpmvercmp.go:13).
- The header comment of `rpmvercmp.go` says "a tilda is newer". The code, and the tilde tests, make a tilde run older. The model follows the code.
- Concurrency and the command-line front ends are outside the model.
