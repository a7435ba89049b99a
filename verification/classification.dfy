/**
 The pillar model: every license is bucketed into one pillar, and a fixed truth table
 decides whether a host pillar may take in a dependency pillar. `CompliancyCheck`
 reduces a list of dependency pillars to one verdict, naming the offenders in input order.
 */
module Classification {
  import opened Seqs

  /**
   The pillars. `Special` names an explicit exception; its text never influences the fixed
   table (`SpecialTextIgnored`), but a caller's matrix is keyed on the whole value, text included.
   */
  datatype LicenseClassification =
    | Open
    | Viral
    | Affero
    | Commercial
    | Special(name: string)
    | Unknown

  /** Verdict of the pillar model: compliant, or the failing dependency pillars in input order. */
  datatype CompliancyStatus =
    | Compliant
    | NonCompliant(failures: seq<LicenseClassification>)

  /** The four pillars that the truth table orders among themselves. */
  predicate IsRanked(c: LicenseClassification)
  {
    c.Open? || c.Viral? || c.Affero? || c.Commercial?
  }

  /** Position in the order Open < Viral < Affero < Commercial. */
  function Rank(c: LicenseClassification): (r: nat)
    requires IsRanked(c)
  {
    if c.Open? then 0 else if c.Viral? then 1 else if c.Affero? then 2 else 3
  }

  /**
   The truth table, arm for arm and in the same order as `compliancy_check`'s `match`: the arm for
   `Unknown` on either side comes first, so it also decides pairs in which the other side
   is `Special`. In this revision the Commercial self-pair is compliant.
   */
  function PairCompliant(host: LicenseClassification, dep: LicenseClassification, unknownIsCompliant: bool): (r: bool)
    ensures host.Unknown? || dep.Unknown? ==> (r <==> unknownIsCompliant)
    ensures !host.Unknown? && !dep.Unknown? && (host.Special? || dep.Special?) ==> !r
    ensures IsRanked(host) && IsRanked(dep) ==> (r <==> Rank(dep) <= Rank(host))
  {
    match (host, dep)
    case (_, Unknown) | (Unknown, _) => unknownIsCompliant
    case (Open, Open) => true
    case (Open, Affero) => false
    case (Open, Viral) => false
    case (Open, Commercial) => false
    case (Viral, Viral) => true
    case (Viral, Open) => true
    case (Viral, Affero) => false
    case (Viral, Commercial) => false
    case (Affero, Open) => true
    case (Affero, Viral) => true
    case (Affero, Affero) => true
    case (Affero, Commercial) => false
    case (Commercial, Commercial) => true
    case (Commercial, Open) => true
    case (Commercial, Affero) => true
    case (Commercial, Viral) => true
    case (_, Special(_)) => false
    case (Special(_), _) => false
  }

  /** The dependency pillars that the host does not accept, in input order. */
  function Failures(host: LicenseClassification, found: seq<LicenseClassification>, unknownIsCompliant: bool): (r: seq<LicenseClassification>)
  {
    Filter(d => !PairCompliant(host, d, unknownIsCompliant), found)
  }

  /**
   Compliant exactly when every dependency passes the truth table; otherwise the failing
   pillars, in input order, each as often as it occurs in `found`.
   */
  function CompliancyCheck(host: LicenseClassification, found: seq<LicenseClassification>, unknownIsCompliant: bool): (r: CompliancyStatus)
    ensures r.Compliant? <==> forall i :: 0 <= i < |found| ==> PairCompliant(host, found[i], unknownIsCompliant)
    ensures r.NonCompliant? ==> |r.failures| > 0 && IsSubsequence(r.failures, found)
    ensures r.NonCompliant? ==>
              forall d {:trigger multiset(r.failures)[d]} :: multiset(r.failures)[d] == if PairCompliant(host, d, unknownIsCompliant) then 0 else multiset(found)[d]
  {
    var failing := Failures(host, found, unknownIsCompliant);
    FilterEmpty(d => !PairCompliant(host, d, unknownIsCompliant), found);
    if |failing| == 0 then Compliant else NonCompliant(failing)
  }

  /**
   Maps a category of the SPDX license list to a pillar. Only "Public Domain" and
   "Permissive" become Open, only the three proprietary categories become Commercial,
   and everything else (copyleft, CLA, patent, unstated, unrecognised) needs human review.
   */
  function SpdxCategoryToLicenseClassification(category: string): (r: LicenseClassification)
    ensures r.Open? <==> category == "Public Domain" || category == "Permissive"
    ensures r.Commercial? <==> category == "Commercial" || category == "Source-available" || category == "Proprietary Free"
    ensures r.Unknown? <==> !r.Open? && !r.Commercial?
    ensures !r.Viral? && !r.Affero? && !r.Special?
  {
    match category
    case "Public Domain" => Open
    case "Permissive" => Open
    case "Copyleft" => Unknown
    case "Copyleft Limited" => Unknown
    case "Commercial" => Commercial
    case "Source-available" => Commercial
    case "Proprietary Free" => Commercial
    case "CLA" => Unknown
    case "Patent License" => Unknown
    case "Unstated License" => Unknown
    case _ => Unknown
  }

  /** In this revision a Commercial host accepts a Commercial dependency, whatever the flag. */
  lemma CommercialSelfPairCompliant(unknownIsCompliant: bool)
    ensures PairCompliant(Commercial, Commercial, unknownIsCompliant)
    ensures CompliancyCheck(Commercial, [Commercial], unknownIsCompliant) == Compliant
    ensures CompliancyCheck(Commercial, [Open, Commercial], unknownIsCompliant) == Compliant
  {
  }

  /** `Unknown` on either side short-circuits to the flag, even against `Special`. */
  lemma UnknownBeatsSpecial(text: string, unknownIsCompliant: bool)
    ensures PairCompliant(Special(text), Unknown, unknownIsCompliant) == unknownIsCompliant
    ensures PairCompliant(Unknown, Special(text), unknownIsCompliant) == unknownIsCompliant
  {
  }

  /** The fixed table never looks at the text of a `Special` pillar, on either side. */
  lemma SpecialTextIgnored(text: string, otherText: string, other: LicenseClassification, unknownIsCompliant: bool)
    ensures PairCompliant(Special(text), other, unknownIsCompliant) == PairCompliant(Special(otherText), other, unknownIsCompliant)
    ensures PairCompliant(other, Special(text), unknownIsCompliant) == PairCompliant(other, Special(otherText), unknownIsCompliant)
  {
  }

  /** A project without dependencies is always compliant. */
  lemma EmptyIsCompliant(host: LicenseClassification, unknownIsCompliant: bool)
    ensures CompliancyCheck(host, [], unknownIsCompliant) == Compliant
  {
  }

  /**
   Checking two dependency lists together fails exactly the dependencies that fail
   separately, first those of `a`, then those of `b`.
   */
  lemma FailuresDistribute(host: LicenseClassification, a: seq<LicenseClassification>, b: seq<LicenseClassification>, unknownIsCompliant: bool)
    ensures Failures(host, a + b, unknownIsCompliant) == Failures(host, a, unknownIsCompliant) + Failures(host, b, unknownIsCompliant)
    ensures CompliancyCheck(host, a + b, unknownIsCompliant).Compliant?
        <==> CompliancyCheck(host, a, unknownIsCompliant).Compliant? && CompliancyCheck(host, b, unknownIsCompliant).Compliant?
  {
    FilterAppend(d => !PairCompliant(host, d, unknownIsCompliant), a, b);
  }

  /**
   Raising the flag only removes failures: what fails with `unknownIsCompliant = true`
   also fails with `false`, in the same order, so a list compliant under the strict policy
   stays compliant under the lenient one.
   */
  lemma FlagMonotone(host: LicenseClassification, found: seq<LicenseClassification>)
    ensures IsSubsequence(Failures(host, found, true), Failures(host, found, false))
    ensures CompliancyCheck(host, found, false).Compliant? ==> CompliancyCheck(host, found, true).Compliant?
  {
    FilterWeaken(d => !PairCompliant(host, d, true), d => !PairCompliant(host, d, false), found);
  }

  /** A single dependency fails exactly when its pair with the host fails. */
  lemma FailuresSingleton(host: LicenseClassification, dep: LicenseClassification, unknownIsCompliant: bool)
    ensures Failures(host, [dep], unknownIsCompliant) == if PairCompliant(host, dep, unknownIsCompliant) then [] else [dep]
  {
    assert [dep][1..] == [];
  }

  /** Under an Open host, of Open, Viral and Commercial only the last two fail. */
  lemma OrderPreservedFailures()
    ensures Failures(Open, [Open, Viral, Commercial], false) == [Viral, Commercial]
  {
    var a := Failures(Open, [Open], false);
    var b := Failures(Open, [Viral], false);
    var c := Failures(Open, [Commercial], false);
    FailuresSingleton(Open, Open, false);
    FailuresSingleton(Open, Viral, false);
    FailuresSingleton(Open, Commercial, false);
    assert a == [] && b == [Viral] && c == [Commercial];
    FailuresDistribute(Open, [Viral], [Commercial], false);
    FailuresDistribute(Open, [Open], [Viral, Commercial], false);
  }

  /** A passing dependency followed by two failing ones: exactly the two failures, in order. */
  lemma OrderPreservedExample()
    ensures CompliancyCheck(Open, [Open, Viral, Commercial], false) == NonCompliant([Viral, Commercial])
  {
    OrderPreservedFailures();
  }

  /** Under a Commercial host and the strict flag, every ranked pillar passes and only `Unknown` fails. */
  lemma CommercialHostFailuresSelection()
    ensures Failures(Commercial, [Open, Viral, Affero, Commercial, Unknown], false) == [Unknown]
  {
    var ranked := [Open, Viral, Affero, Commercial];
    assert forall i :: 0 <= i < |ranked| ==> PairCompliant(Commercial, ranked[i], false);
    FilterEmpty(d => !PairCompliant(Commercial, d, false), ranked);
    FailuresSingleton(Commercial, Unknown, false);
    FailuresDistribute(Commercial, ranked, [Unknown], false);
    assert ranked + [Unknown] == [Open, Viral, Affero, Commercial, Unknown];
  }

  /**
   One dependency per pillar but `Special` under a Commercial host: with the Commercial
   self-pair accepted, only `Unknown` is reported.
   */
  lemma CommercialHostOnlyUnknownFails()
    ensures CompliancyCheck(Commercial, [Open, Viral, Affero, Commercial, Unknown], false) == NonCompliant([Unknown])
  {
    CommercialHostFailuresSelection();
  }
}
