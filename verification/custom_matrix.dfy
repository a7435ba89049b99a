/**
 The pillar model with a caller-supplied truth table. The same reduction as
 `Classification.CompliancyCheck`, but a pair passes only when the matrix holds it and
 maps it to `true`: a missing pair fails (fail-closed), and there is no flag for `Unknown`.
 */
module CustomMatrix {
  import opened Seqs
  import opened Classification

  /** A caller's truth table: (host pillar, dependency pillar) to "compliant?". */
  type Matrix = map<(LicenseClassification, LicenseClassification), bool>

  /** The matrix holds the pair and says it is compliant. */
  predicate MatrixAllows(matrix: Matrix, host: LicenseClassification, dep: LicenseClassification)
  {
    (host, dep) in matrix && matrix[(host, dep)]
  }

  /** The dependency pillars the matrix does not allow under `host`, in input order. */
  function CustomFailures(host: LicenseClassification, found: seq<LicenseClassification>, matrix: Matrix): (r: seq<LicenseClassification>)
  {
    Filter(d => !MatrixAllows(matrix, host, d), found)
  }

  /**
   Compliant exactly when every (host, dependency) pair is in the matrix and maps to true;
   otherwise the failing pillars (pairs mapped to false or absent), in input order, each as
   often as it occurs in `found`.
   */
  function CompliancyCheckCustom(host: LicenseClassification, found: seq<LicenseClassification>, matrix: Matrix): (r: CompliancyStatus)
    ensures r.Compliant? <==> forall i :: 0 <= i < |found| ==> (host, found[i]) in matrix && matrix[(host, found[i])]
    ensures r.NonCompliant? ==> |r.failures| > 0 && IsSubsequence(r.failures, found)
    ensures r.NonCompliant? ==>
              forall d {:trigger multiset(r.failures)[d]} :: multiset(r.failures)[d] == if (host, d) in matrix && matrix[(host, d)] then 0 else multiset(found)[d]
  {
    var failing := CustomFailures(host, found, matrix);
    FilterEmpty(d => !MatrixAllows(matrix, host, d), found);
    if |failing| == 0 then Compliant else NonCompliant(failing)
  }

  /** The matrix the library's tests pass in: the fixed table for ranked pillars, except that the Commercial self-pair is false. */
  const TestMatrix: Matrix := map[
    (Open, Open) := true,
    (Open, Affero) := false,
    (Open, Viral) := false,
    (Open, Commercial) := false,
    (Viral, Viral) := true,
    (Viral, Open) := true,
    (Viral, Affero) := false,
    (Viral, Commercial) := false,
    (Affero, Open) := true,
    (Affero, Viral) := true,
    (Affero, Affero) := true,
    (Affero, Commercial) := false,
    (Commercial, Commercial) := false,
    (Commercial, Open) := true,
    (Commercial, Affero) := true,
    (Commercial, Viral) := true
  ]

  /** A pair absent from the matrix fails, and with it the whole check. */
  lemma FailClosed(host: LicenseClassification, found: seq<LicenseClassification>, matrix: Matrix, i: nat)
    requires i < |found| && (host, found[i]) !in matrix
    ensures CompliancyCheckCustom(host, found, matrix).NonCompliant?
    ensures found[i] in CompliancyCheckCustom(host, found, matrix).failures
  {
    var r := CompliancyCheckCustom(host, found, matrix);
    assert multiset(r.failures)[found[i]] == multiset(found)[found[i]];
  }

  /** The test matrix holds exactly the sixteen pairs of ranked pillars, ordered by rank with the Commercial self-pair refused. */
  lemma TestMatrixShape(host: LicenseClassification, dep: LicenseClassification)
    ensures (host, dep) in TestMatrix <==> IsRanked(host) && IsRanked(dep)
    ensures MatrixAllows(TestMatrix, host, dep)
        <==> IsRanked(host) && IsRanked(dep) && Rank(dep) <= Rank(host) && !(host.Commercial? && dep.Commercial?)
  {
  }

  /**
   Under the test matrix an `Unknown` or `Special` host fails every dependency, and every
   host fails an `Unknown` or `Special` dependency: the result lists all of `found`, in order.
   */
  lemma TestMatrixUnrankedHostFailsAll(host: LicenseClassification, found: seq<LicenseClassification>)
    requires !IsRanked(host)
    ensures CompliancyCheckCustom(host, found, TestMatrix) == if found == [] then Compliant else NonCompliant(found)
  {
    forall i | 0 <= i < |found|
      ensures !MatrixAllows(TestMatrix, host, found[i])
    {
      TestMatrixShape(host, found[i]);
    }
    FilterKeepsAll(d => !MatrixAllows(TestMatrix, host, d), found);
  }

  /** An unranked dependency fails under the test matrix, whatever the host. */
  lemma TestMatrixUnrankedDependencyFails(host: LicenseClassification, found: seq<LicenseClassification>, i: nat)
    requires i < |found| && !IsRanked(found[i])
    ensures CompliancyCheckCustom(host, found, TestMatrix).NonCompliant?
    ensures found[i] in CompliancyCheckCustom(host, found, TestMatrix).failures
  {
    TestMatrixShape(host, found[i]);
    FailClosed(host, found, TestMatrix, i);
  }

  /**
   Under the test matrix, a ranked host accepts a list of ranked dependencies exactly when
   none ranks above it and, for a Commercial host, none is Commercial.
   */
  lemma TestMatrixRankedVerdict(host: LicenseClassification, found: seq<LicenseClassification>)
    requires IsRanked(host)
    requires forall i :: 0 <= i < |found| ==> IsRanked(found[i])
    ensures CompliancyCheckCustom(host, found, TestMatrix).Compliant?
        <==> forall i :: 0 <= i < |found| ==> Rank(found[i]) <= Rank(host) && !(host.Commercial? && found[i].Commercial?)
  {
    forall i | 0 <= i < |found|
      ensures MatrixAllows(TestMatrix, host, found[i])
          <==> Rank(found[i]) <= Rank(host) && !(host.Commercial? && found[i].Commercial?)
    {
      TestMatrixShape(host, found[i]);
    }
  }

  /**
   The test matrix and the fixed table with `unknownIsCompliant = false` agree on every pair
   but the Commercial self-pair, so they give the same verdict on any list that does not
   pit a Commercial host against a Commercial dependency.
   */
  lemma FixedAgreesWithTestMatrix(host: LicenseClassification, found: seq<LicenseClassification>)
    requires !(host.Commercial? && Commercial in found)
    ensures CompliancyCheck(host, found, false) == CompliancyCheckCustom(host, found, TestMatrix)
  {
    forall i | 0 <= i < |found|
      ensures !PairCompliant(host, found[i], false) == !MatrixAllows(TestMatrix, host, found[i])
    {
      TestMatrixShape(host, found[i]);
    }
    FilterAgree(d => !PairCompliant(host, d, false), d => !MatrixAllows(TestMatrix, host, d), found);
  }

  /** On the Commercial self-pair the two tables part: the fixed one accepts it, the test matrix refuses it. */
  lemma CommercialPairDiffers()
    ensures PairCompliant(Commercial, Commercial, false)
    ensures !MatrixAllows(TestMatrix, Commercial, Commercial)
  {
  }

  /** With (Commercial, Commercial) mapped to false, an Open and a Commercial dependency under a Commercial host fail on the Commercial one only. */
  lemma CommercialPairFails()
    ensures CompliancyCheckCustom(Commercial, [Open, Commercial], TestMatrix) == NonCompliant([Commercial])
  {
    var found := [Open, Commercial];
    assert found == [Open] + [Commercial];
    assert [Open][1..] == [] && [Commercial][1..] == [];
    FilterAppend(d => !MatrixAllows(TestMatrix, Commercial, d), [Open], [Commercial]);
  }

  /** Under an Affero host, of one dependency per ranked pillar plus Unknown, only Commercial and Unknown fail, in that order. */
  lemma FailuresInInputOrderSelection()
    ensures CustomFailures(Affero, [Open, Viral, Affero, Commercial, Unknown], TestMatrix) == [Commercial, Unknown]
  {
    var accepted, refused := [Open, Viral, Affero], [Commercial, Unknown];
    var fails := d => !MatrixAllows(TestMatrix, Affero, d);
    assert forall i :: 0 <= i < |accepted| ==> !fails(accepted[i]);
    FilterEmpty(fails, accepted);
    assert CustomFailures(Affero, accepted, TestMatrix) == [];
    FilterKeepsAll(fails, refused);
    FilterAppend(fails, accepted, refused);
    assert accepted + refused == [Open, Viral, Affero, Commercial, Unknown];
  }

  /** The failing pillars come back in the order of the input. */
  lemma FailuresInInputOrderExample()
    ensures CompliancyCheckCustom(Affero, [Open, Viral, Affero, Commercial, Unknown], TestMatrix) == NonCompliant([Commercial, Unknown])
  {
    FailuresInInputOrderSelection();
  }

  /**
   A caller's matrix is keyed on the whole pillar, so the text of a `Special` host selects
   its entry: a pair granted to one text is not granted to another.
   */
  lemma SpecialTextSelectsMatrixEntry(text: string, otherText: string)
    requires text != otherText
    ensures CompliancyCheckCustom(Special(text), [Open], map[(Special(text), Open) := true]) == Compliant
    ensures CompliancyCheckCustom(Special(otherText), [Open], map[(Special(text), Open) := true]) == NonCompliant([Open])
  {
    assert [Open][1..] == [];
  }

  /**
   With `unknownIsCompliant = true` the fixed table accepts an `Unknown` dependency that the
   test matrix, which has no `Unknown` pairs, refuses.
   */
  lemma LenientFlagDiffersFromTestMatrix(host: LicenseClassification)
    ensures CompliancyCheck(host, [Unknown], true) == Compliant
    ensures CompliancyCheckCustom(host, [Unknown], TestMatrix) == NonCompliant([Unknown])
  {
    TestMatrixUnrankedDependencyFails(host, [Unknown], 0);
    assert [Unknown][1..] == [];
  }
}
