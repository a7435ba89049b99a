# License compatibility engine — a Dafny model

This project models the decision core of a license-compatibility library. A project's
license (the *host*) is checked against the licenses of its dependencies (the
*subordinates*). The library holds two independent decision procedures and a keyed store:

- **Pillar model** (`Classification`, `CustomMatrix`). Each license falls into one of six
  pillars: `Open`, `Viral`, `Affero`, `Commercial`, `Special(text)` or `Unknown`. A truth
  table decides each host/dependency pair. The table is either the fixed one in the
  library, with an `unknown_is_compliant` flag, or a map supplied by the caller. A list of
  dependency pillars then reduces to `Compliant`, or to `NonCompliant` with the failing
  pillars in input order. `SpdxCategoryToLicenseClassification` maps an SPDX license-list
  category to a pillar.
- **Compatibility-index model** (`Compatibility`). Each registered host license records
  an explicit verdict (`Compatible`, `Incompatible`, `Unknown`) against other licenses.
  `CheckCompliancy` reduces a batch of subordinates to one of four outcomes, in a fixed
  priority: unregistered host (`UnknownLeading`), then unknown relations (`Unknown` with
  their keys), then incompatible ones (`NonCompliant` with their entries), then `Compliant`.
- **Classifier store** (`ClassifierStore`). A map from license identifier to
  classification entry, with insertion, lookups and classification. `ClassifyAll`
  produces exactly the dependency list that `Classification.CompliancyCheck` takes.

Every "in input order" promise is stated once, in module `Seqs`. `Seqs.Filter` returns a
subsequence of its input (`IsSubsequence`). That subsequence holds every kept value exactly
as often as the input does, and no other value. Together these fix the result completely.
Each verdict's contract is stated in these terms.

All of the model is pure functions over immutable datatypes. The library's `&mut self`
methods become functions that return the updated container.

## Code versus tests

The model follows `src/lib.rs` where the repository's tests disagree with it:

- `(Commercial, Commercial)` is compliant in `src/lib.rs:75`. Two tests in
  `tests/compliancy_test.rs` expect otherwise:
  - `tests/compliancy_test.rs:52-71` expects `NonCompliant([Commercial])`.
  - `tests/compliancy_test.rs:533-549` expects `NonCompliant([Commercial, Unknown])` for a
    Commercial host with `[Open, Viral, Affero, Commercial, Unknown]`. The code gives
    `NonCompliant([Unknown])`; `Classification.CommercialHostOnlyUnknownFails` states it.

  The model follows the code; `Classification.CommercialSelfPairCompliant` states it. The
  matrix used by the custom-matrix tests (`tests/custom_compliancy_test.rs:40`) maps the pair
  to `false`. `CustomMatrix.CommercialPairDiffers` shows where the two tables part.
  `CustomMatrix.FixedAgreesWithTestMatrix` proves that, with `unknown_is_compliant = false`,
  this is the only difference. With the flag `true` the fixed table also accepts every
  `Unknown` pair, which the test matrix refuses (`CustomMatrix.LenientFlagDiffersFromTestMatrix`).
- The `Unknown` arm (`src/lib.rs:59-61`) comes before the `Special` arms (`src/lib.rs:79-80`).
  So `(Special, Unknown)` and `(Unknown, Special)` take the value of the flag, and are not
  failures whatever the flag. Every test with a `Special` pillar
  (`tests/compliancy_test.rs:360-472`) passes the flag `false`, and there the two readings agree.
- No test classifies a key that was never added. `classify` returns a pillar rather than an
  optional value (`tests/classifier_test.rs:94` compares its result with a pillar directly).
  The model reads such a key as `Unknown`; `ClassifierStore.ClassifyAllMissExample` shows it.

## Model

| member | source | states |
|---|---|---|
| Classification.PairCompliant | src/lib.rs:57-82 | `Unknown` on either side yields exactly the flag, even against `Special`; otherwise `Special` on either side fails; among Open < Viral < Affero < Commercial a host accepts a dependency iff the dependency's rank is at most the host's |
| Classification.CompliancyCheck | src/lib.rs:50-90 | `Compliant` iff every dependency passes the table; otherwise `NonCompliant` with a non-empty order-preserving subsequence of the input holding each failing pillar exactly as often as the input does, and no passing one |
| Classification.SpdxCategoryToLicenseClassification | src/lib.rs:92-116 | "Public Domain"/"Permissive" give Open, "Commercial"/"Source-available"/"Proprietary Free" give Commercial, every other string gives Unknown; never Viral, Affero or Special |
| Classification.CommercialSelfPairCompliant | src/lib.rs:75 | a Commercial host accepts a Commercial dependency under either flag, so `[Commercial]` and `[Open, Commercial]` are compliant under a Commercial host |
| Classification.UnknownBeatsSpecial | src/lib.rs:59-80 | `(Special, Unknown)` and `(Unknown, Special)` resolve to the flag because the Unknown arm is matched first |
| Classification.EmptyIsCompliant | src/lib.rs:86-87 | an empty dependency list is compliant for every host and flag |
| Classification.FailuresDistribute | src/lib.rs:55-84 | the failures of `a + b` are the failures of `a` followed by those of `b`; the concatenation is compliant iff both parts are |
| Classification.FlagMonotone | src/lib.rs:59-61 | failures under `unknown_is_compliant = true` are an order-preserving subsequence of those under `false`; compliant under `false` implies compliant under `true` |
| Classification.SpecialTextIgnored | src/lib.rs:79-80 | the fixed table's verdict for a `Special` pillar on either side does not depend on its text |
| Classification.CommercialHostOnlyUnknownFails | src/lib.rs:55-89 | a Commercial host with `[Open, Viral, Affero, Commercial, Unknown]` under the strict flag yields exactly `NonCompliant([Unknown])`, where tests/compliancy_test.rs:533-549 expects `[Commercial, Unknown]` |
| Classification.OrderPreservedExample | src/lib.rs:55-89 | an Open host with `[Open, Viral, Commercial]` yields exactly `NonCompliant([Viral, Commercial])` |
| CustomMatrix.CompliancyCheckCustom | tests/custom_compliancy_test.rs:183-400 | `Compliant` iff every (host, dependency) pair is in the matrix and maps to true; otherwise the failing pillars (pair false or absent) as an order-preserving subsequence with exact multiplicities |
| CustomMatrix.FailClosed | tests/custom_compliancy_test.rs:183-286 | a pair absent from the matrix makes the check `NonCompliant` and its dependency appears among the failures |
| CustomMatrix.TestMatrixShape | tests/custom_compliancy_test.rs:26-45 | the test matrix holds exactly the pairs of ranked pillars and allows a pair iff the dependency ranks at most the host, except the refused Commercial self-pair |
| CustomMatrix.TestMatrixUnrankedHostFailsAll | tests/custom_compliancy_test.rs:183-400 | under the test matrix an Unknown or Special host fails every dependency: the result is the whole input, in order |
| CustomMatrix.TestMatrixUnrankedDependencyFails | tests/custom_compliancy_test.rs:229-378 | under the test matrix an Unknown or Special dependency fails under every host |
| CustomMatrix.TestMatrixRankedVerdict | tests/custom_compliancy_test.rs:47-181 | for ranked pillars the test matrix accepts a list iff no dependency ranks above the host and a Commercial host has no Commercial dependency |
| CustomMatrix.FixedAgreesWithTestMatrix | src/lib.rs:63-80 | the fixed table with the flag `false` and the test matrix give the same verdict on every list that does not pair a Commercial host with a Commercial dependency |
| CustomMatrix.CommercialPairDiffers | tests/custom_compliancy_test.rs:40 | the test matrix refuses the Commercial self-pair that the fixed table accepts |
| CustomMatrix.CommercialPairFails | tests/custom_compliancy_test.rs:77-99 | under the test matrix a Commercial host with `[Open, Commercial]` yields exactly `NonCompliant([Commercial])` |
| CustomMatrix.FailuresInInputOrderExample | tests/custom_compliancy_test.rs:424-440 | under the test matrix an Affero host with one dependency per ranked pillar plus Unknown yields exactly `NonCompliant([Commercial, Unknown])` |
| CustomMatrix.SpecialTextSelectsMatrixEntry | tests/custom_compliancy_test.rs:26-45 | the matrix is keyed on pairs of whole pillar values, text included: a pair granted to `Special(t)` is not granted to `Special(u)` for another text `u` |
| CustomMatrix.LenientFlagDiffersFromTestMatrix | src/lib.rs:59-61 | with the flag `true` the fixed table accepts an `Unknown` dependency under any host, while the test matrix reports it as the only failure |
| Seqs.Filter | src/lib.rs:55-84 | the selected elements form an order-preserving subsequence holding each kept value exactly as often as the input and no other |
| Seqs.FilterEmpty | src/lib.rs:86-88 | nothing is selected exactly when no element satisfies the selector, which is what makes an empty failure list mean `Compliant` |
| Seqs.FilterAppend | src/lib.rs:55-84 | selection from a concatenation is the selection from each part, in order |
| ClassifierStore.NewClassifier | tests/classifier_test.rs:36 | a new classifier answers every lookup with nothing |
| ClassifierStore.Add | tests/classifier_test.rs:126-142 | after adding `entry` under `key`, looking up `key` gives `Some(entry)`; every other key gives what it gave before |
| ClassifierStore.Get | tests/classifier_test.rs:126-142 | a lookup yields the stored entry exactly when the key is registered, and nothing otherwise |
| ClassifierStore.GetAll | tests/classifier_test.rs:144-177 | one lookup result per key, same length and order as the keys, duplicates included |
| ClassifierStore.Classify | tests/classifier_test.rs:81-95 | the stored entry's pillar when the key is registered, `Unknown` otherwise |
| ClassifierStore.ClassifyAll | tests/classifier_test.rs:97-124 | one pillar per key, same length and order as the keys |
| ClassifierStore.AddThenClassify | tests/classifier_test.rs:81-95 | classifying a key just added returns the added entry's pillar; other keys keep their pillar |
| ClassifierStore.ClassifyAllFromGetAll | tests/classifier_test.rs:97-177 | each pillar of `ClassifyAll` is the pillar of the matching `GetAll` result, a miss reading as `Unknown` |
| ClassifierStore.UnregisteredDependencyFails | src/lib.rs:59-61 | a dependency identifier the classifier does not know makes the strict-policy check fail and is reported as `Unknown` |
| ClassifierStore.ClassifyAllExample | tests/classifier_test.rs:97-124 | with "test" registered as Open and "test2" as Viral, `classify_all(["test", "test2"])` is `[Open, Viral]` |
| Compatibility.NewIndex | tests/lib_test.rs:72-76 | a new index is empty |
| Compatibility.Add | tests/lib_test.rs:78-90 | after `add(key, entry)` the keys are the old keys plus `key`, `key` holds `entry`, and every other key keeps its entry |
| Compatibility.CheckCompliancy | tests/lib_test.rs:117-257 | `UnknownLeading` iff the host is unregistered; `Unknown` iff some subordinate is unknown, listing exactly those keys in input order; `NonCompliant` only without unknowns, listing exactly the incompatible entries in input order; `Compliant` iff all are compatible |
| Compatibility.Resolve | tests/lib_test.rs:129-194 | each subordinate is looked up in the host's own relation map: one entry per key, in input order |
| Compatibility.UnknownKeysAppend | tests/lib_test.rs:196-226 | the unknown keys of a concatenation are those of the first part followed by those of the second |
| Compatibility.AddToEmpty | tests/lib_test.rs:70-91 | adding one key to an empty index gives exactly one entry, under the given key even when the entry's name differs |
| Compatibility.HostMissingIsUnknownLeading | tests/lib_test.rs:247-257 | an unregistered host yields `UnknownLeading` whatever the subordinates |
| Compatibility.AllCompatibleIsCompliant | tests/lib_test.rs:117-127 | if every subordinate is compatible the result is `Compliant` |
| Compatibility.UnknownTakesPriority | tests/lib_test.rs:228-245 | one unknown subordinate makes the result `Unknown` and lists it, whatever incompatible subordinates exist |
| Compatibility.IncompatibleReported | tests/lib_test.rs:129-194 | with no unknown and some incompatible subordinate, the result is `NonCompliant` with exactly the incompatible entries, in input order |
| CompatibilityFixture.MultipleIncompatibleExample | tests/lib_test.rs:148-171 | on the test fixture, two compatible and two incompatible subordinates yield exactly the two incompatible entries, in order |
| CompatibilityFixture.PrioritizesUnknownExample | tests/lib_test.rs:228-245 | on the test fixture, a mix of all three statuses yields `Unknown(["unknown_1", "unknown_2"])` |
| CompatibilityFixture.UnknownLeadingExample | tests/lib_test.rs:247-257 | on the test fixture, the host "some_random_license" yields `UnknownLeading` |

## Left out

- Persistence (`save_to_file`, `load_from_file`, `from_file`, `load_from_memory`, `from_memory`): a bincode encoding and file-system access through a library outside this model; there is no logic of the library's own to state.
- `src/main.rs`: an import step that reads a delimited text file, maps "Yes"/"No"/other to a status and writes the index to disk; it is file I/O around `Add`.
- `scripts/parse_osadl_matrix.ts`: a network fetch and a file write.
- `SPDXDetails` (`src/lib.rs:42-48`): an unused record with no behaviour.
- Explanation texts are carried as data; they never influence a verdict, so no contract speaks about them. The text of `Special(..)` never influences the fixed table (`Classification.SpecialTextIgnored`). Under a caller's matrix it is part of the lookup key (`CustomMatrix.SpecialTextSelectsMatrixEntry`).
- Compatibility.CheckCompliancy: requires that a registered host has a recorded relation to every subordinate. No code or test in the repository fixes what happens to a subordinate missing from the host's map, so the model does not invent a placeholder entry for it.
- `LicenseEntry.check_compatibility`: its code is not part of this model and no test in the repository exercises it.

## Layout

- `wrappers.dfy`: `Option`.
- `seqs.dfy`: order-preserving selection and its lemmas.
- `classification.dfy`: pillars, the fixed truth table, `CompliancyCheck`, the SPDX category map.
- `custom_matrix.dfy`: the caller-supplied matrix variant and the matrix used by its tests.
- `classifier.dfy`: the classifier store.
- `compatibility.dfy`: the compatibility index, its decision procedure, and the test fixture.
