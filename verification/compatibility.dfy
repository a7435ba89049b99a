/**
 The compatibility-index model: each registered host license carries its own explicit
 verdict against other licenses, and a batch of subordinate licenses is reduced to one of
 four outcomes with a fixed priority: unregistered host, then unknown relations, then
 incompatible ones, then compliant.
 */
module Compatibility {
  import opened Wrappers
  import opened Seqs

  datatype CompatibilityStatus = Compatible | Incompatible | Unknown

  /** One directed relation "the owning license against `name`". */
  datatype CompatibilityEntry = CompatibilityEntry(name: string, compatible: CompatibilityStatus, explanation: string)

  datatype LicenseEntry = LicenseEntry(
    name: string,
    compatibility: map<string, CompatibilityEntry>,
    spdxLicenseKey: Option<string>)

  /** Registered host licenses by identifier. The key need not equal the entry's `name`. */
  datatype CompatibilityIndex = CompatibilityIndex(data: map<string, LicenseEntry>)

  /** Verdict of the index model, separate from the pillar model's two-way verdict. */
  datatype CompliancyStatus =
    | Compliant
    | NonCompliant(entries: seq<CompatibilityEntry>)
    | UnknownLeading
    | Unknown(keys: seq<string>)

  /** An index with no registered licenses. */
  function NewIndex(): (idx: CompatibilityIndex)
    ensures |idx.data| == 0
  {
    CompatibilityIndex(map[])
  }

  /** Registers `entry` under `key` (not under `entry.name`), replacing any earlier entry for `key`. */
  function Add(idx: CompatibilityIndex, key: string, entry: LicenseEntry): (r: CompatibilityIndex)
    ensures r.data.Keys == idx.data.Keys + {key}
    ensures r.data[key] == entry
    ensures forall k :: k in idx.data && k != key ==> r.data[k] == idx.data[k]
  {
    CompatibilityIndex(idx.data[key := entry])
  }

  /** The host's recorded relation to `key` exists and has status `status`. */
  predicate HasStatus(host: LicenseEntry, key: string, status: CompatibilityStatus)
  {
    key in host.compatibility && host.compatibility[key].compatible == status
  }

  /**
   The query is one the model covers: either the host is unregistered, or it has a
   recorded relation to every subordinate.
   */
  predicate Covers(idx: CompatibilityIndex, hostKey: string, subordinates: seq<string>)
  {
    hostKey in idx.data ==> forall i :: 0 <= i < |subordinates| ==> subordinates[i] in idx.data[hostKey].compatibility
  }

  /** The host's relation to each subordinate, in input order. */
  function Resolve(host: LicenseEntry, subordinates: seq<string>): (r: seq<CompatibilityEntry>)
    requires forall i :: 0 <= i < |subordinates| ==> subordinates[i] in host.compatibility
    ensures |r| == |subordinates|
    ensures forall i :: 0 <= i < |r| ==> r[i] == host.compatibility[subordinates[i]]
  {
    seq(|subordinates|, i requires 0 <= i < |subordinates| => host.compatibility[subordinates[i]])
  }

  /** The subordinate keys whose relation is `Unknown`, in input order. */
  function UnknownKeys(host: LicenseEntry, subordinates: seq<string>): (r: seq<string>)
  {
    Filter(k => HasStatus(host, k, CompatibilityStatus.Unknown), subordinates)
  }

  predicate IsIncompatible(e: CompatibilityEntry)
  {
    e.compatible.Incompatible?
  }

  /** The resolved relations that are `Incompatible`, in input order. */
  function IncompatibleEntries(resolved: seq<CompatibilityEntry>): (r: seq<CompatibilityEntry>)
  {
    Filter(IsIncompatible, resolved)
  }

  /**
   The decision procedure. An unregistered host gives `UnknownLeading`; otherwise any
   unknown relation gives `Unknown` with those keys, even when incompatible ones exist;
   otherwise any incompatible relation gives `NonCompliant` with those entries; otherwise
   `Compliant`. Each list keeps input order and multiplicity.
   */
  function CheckCompliancy(idx: CompatibilityIndex, hostKey: string, subordinates: seq<string>): (r: CompliancyStatus)
    requires Covers(idx, hostKey, subordinates)
    ensures r.UnknownLeading? <==> hostKey !in idx.data
    ensures r.Unknown? <==>
              hostKey in idx.data
              && exists i :: 0 <= i < |subordinates| && HasStatus(idx.data[hostKey], subordinates[i], CompatibilityStatus.Unknown)
    ensures r.Unknown? ==>
              && |r.keys| > 0
              && IsSubsequence(r.keys, subordinates)
              && forall k {:trigger multiset(r.keys)[k]} :: multiset(r.keys)[k]
                   == if HasStatus(idx.data[hostKey], k, CompatibilityStatus.Unknown) then multiset(subordinates)[k] else 0
    ensures r.NonCompliant? ==>
              && hostKey in idx.data
              && (forall i :: 0 <= i < |subordinates| ==> !HasStatus(idx.data[hostKey], subordinates[i], CompatibilityStatus.Unknown))
              && |r.entries| > 0
              && IsSubsequence(r.entries, Resolve(idx.data[hostKey], subordinates))
              && forall e {:trigger multiset(r.entries)[e]} :: multiset(r.entries)[e]
                   == if e.compatible.Incompatible? then multiset(Resolve(idx.data[hostKey], subordinates))[e] else 0
    ensures r.Compliant? <==>
              hostKey in idx.data
              && forall i :: 0 <= i < |subordinates| ==> HasStatus(idx.data[hostKey], subordinates[i], Compatible)
  {
    if hostKey !in idx.data then UnknownLeading
    else
      var host := idx.data[hostKey];
      var unknown := UnknownKeys(host, subordinates);
      FilterEmpty(k => HasStatus(host, k, CompatibilityStatus.Unknown), subordinates);
      if |unknown| > 0 then CompliancyStatus.Unknown(unknown)
      else
        var incompatible := IncompatibleEntries(Resolve(host, subordinates));
        FilterEmpty(IsIncompatible, Resolve(host, subordinates));
        if |incompatible| > 0 then NonCompliant(incompatible) else Compliant
  }

  /** The unknown keys of a concatenation are those of each part, in order. */
  lemma UnknownKeysAppend(host: LicenseEntry, a: seq<string>, b: seq<string>)
    ensures UnknownKeys(host, a + b) == UnknownKeys(host, a) + UnknownKeys(host, b)
  {
    FilterAppend(k => HasStatus(host, k, CompatibilityStatus.Unknown), a, b);
  }

  /** Adding one key to an empty index gives exactly one entry, stored under that key whatever the entry's name. */
  lemma AddToEmpty(key: string, entry: LicenseEntry)
    ensures Add(NewIndex(), key, entry).data.Keys == {key}
    ensures |Add(NewIndex(), key, entry).data| == 1
  {
  }

  /** An unregistered host gives `UnknownLeading`, whatever the subordinates. */
  lemma HostMissingIsUnknownLeading(idx: CompatibilityIndex, hostKey: string, subordinates: seq<string>)
    requires hostKey !in idx.data
    ensures CheckCompliancy(idx, hostKey, subordinates) == UnknownLeading
  {
  }

  /** If every subordinate is compatible, the result is `Compliant`. */
  lemma AllCompatibleIsCompliant(idx: CompatibilityIndex, hostKey: string, subordinates: seq<string>)
    requires Covers(idx, hostKey, subordinates) && hostKey in idx.data
    requires forall i :: 0 <= i < |subordinates| ==> HasStatus(idx.data[hostKey], subordinates[i], Compatible)
    ensures CheckCompliancy(idx, hostKey, subordinates) == Compliant
  {
  }

  /** One unknown relation outranks any number of incompatible ones. */
  lemma UnknownTakesPriority(idx: CompatibilityIndex, hostKey: string, subordinates: seq<string>, i: nat)
    requires Covers(idx, hostKey, subordinates) && hostKey in idx.data
    requires i < |subordinates| && HasStatus(idx.data[hostKey], subordinates[i], CompatibilityStatus.Unknown)
    ensures CheckCompliancy(idx, hostKey, subordinates).Unknown?
    ensures subordinates[i] in CheckCompliancy(idx, hostKey, subordinates).keys
  {
    var r := CheckCompliancy(idx, hostKey, subordinates);
    assert multiset(r.keys)[subordinates[i]] == multiset(subordinates)[subordinates[i]];
  }

  /** With no unknown relations, the incompatible entries are reported exactly, in input order; compatible ones are dropped. */
  lemma IncompatibleReported(idx: CompatibilityIndex, hostKey: string, subordinates: seq<string>)
    requires Covers(idx, hostKey, subordinates) && hostKey in idx.data
    requires forall i :: 0 <= i < |subordinates| ==> !HasStatus(idx.data[hostKey], subordinates[i], CompatibilityStatus.Unknown)
    requires exists i :: 0 <= i < |subordinates| && HasStatus(idx.data[hostKey], subordinates[i], Incompatible)
    ensures CheckCompliancy(idx, hostKey, subordinates)
         == NonCompliant(IncompatibleEntries(Resolve(idx.data[hostKey], subordinates)))
  {
  }
}

/** The fixture of the library's index tests: one host with two relations of each status. */
module CompatibilityFixture {
  import opened Wrappers
  import opened Seqs
  import opened Compatibility

  function Relation(name: string, status: CompatibilityStatus): (e: CompatibilityEntry)
  {
    CompatibilityEntry(name, status, name)
  }

  function HostLicense(): (host: LicenseEntry)
  {
    LicenseEntry("host_license", map[
      "compatible_1" := Relation("compatible_1", Compatible),
      "compatible_2" := Relation("compatible_2", Compatible),
      "incompatible_1" := Relation("incompatible_1", Incompatible),
      "incompatible_2" := Relation("incompatible_2", Incompatible),
      "unknown_1" := Relation("unknown_1", CompatibilityStatus.Unknown),
      "unknown_2" := Relation("unknown_2", CompatibilityStatus.Unknown)
    ], None)
  }

  function TestData(): (idx: CompatibilityIndex)
  {
    Add(NewIndex(), "host_license", HostLicense())
  }

  /** The fixture host's recorded status for each of its six keys. */
  lemma HostLicenseStatuses()
    ensures HasStatus(HostLicense(), "compatible_1", Compatible)
    ensures HasStatus(HostLicense(), "compatible_2", Compatible)
    ensures HasStatus(HostLicense(), "incompatible_1", Incompatible)
    ensures HasStatus(HostLicense(), "incompatible_2", Incompatible)
    ensures HasStatus(HostLicense(), "unknown_1", CompatibilityStatus.Unknown)
    ensures HasStatus(HostLicense(), "unknown_2", CompatibilityStatus.Unknown)
  {
  }

  /** None of the compatible and incompatible fixture keys is unknown. */
  lemma KnownKeysHaveNoUnknown()
    ensures UnknownKeys(HostLicense(), ["compatible_1", "compatible_2", "incompatible_1", "incompatible_2"]) == []
  {
    var subs := ["compatible_1", "compatible_2", "incompatible_1", "incompatible_2"];
    HostLicenseStatuses();
    assert forall i :: 0 <= i < |subs| ==> !HasStatus(HostLicense(), subs[i], CompatibilityStatus.Unknown);
    FilterEmpty(k => HasStatus(HostLicense(), k, CompatibilityStatus.Unknown), subs);
  }

  /** Both unknown fixture keys are selected, in order. */
  lemma UnknownKeysKept()
    ensures UnknownKeys(HostLicense(), ["unknown_1", "unknown_2"]) == ["unknown_1", "unknown_2"]
  {
    HostLicenseStatuses();
    FilterKeepsAll(k => HasStatus(HostLicense(), k, CompatibilityStatus.Unknown), ["unknown_1", "unknown_2"]);
  }

  /** The fixture relations for the compatible and incompatible keys, in order. */
  lemma KnownKeysResolve()
    ensures Resolve(HostLicense(), ["compatible_1", "compatible_2", "incompatible_1", "incompatible_2"])
         == [Relation("compatible_1", Compatible), Relation("compatible_2", Compatible),
             Relation("incompatible_1", Incompatible), Relation("incompatible_2", Incompatible)]
  {
  }

  /** Of two compatible and two incompatible relations, the incompatible pair is selected in order. */
  lemma KnownKeysIncompatible()
    ensures IncompatibleEntries([Relation("compatible_1", Compatible), Relation("compatible_2", Compatible),
                                 Relation("incompatible_1", Incompatible), Relation("incompatible_2", Incompatible)])
         == [Relation("incompatible_1", Incompatible), Relation("incompatible_2", Incompatible)]
  {
    var good := [Relation("compatible_1", Compatible), Relation("compatible_2", Compatible)];
    var bad := [Relation("incompatible_1", Incompatible), Relation("incompatible_2", Incompatible)];
    FilterAppend(IsIncompatible, good, bad);
    FilterKeepsAll(IsIncompatible, bad);
    FilterEmpty(IsIncompatible, good);
    assert good + bad == [Relation("compatible_1", Compatible), Relation("compatible_2", Compatible),
                          Relation("incompatible_1", Incompatible), Relation("incompatible_2", Incompatible)];
  }

  /** Two incompatible relations next to two compatible ones: both are reported, in order. */
  lemma MultipleIncompatibleExample()
    ensures CheckCompliancy(TestData(), "host_license", ["compatible_1", "compatible_2", "incompatible_1", "incompatible_2"])
         == NonCompliant([Relation("incompatible_1", Incompatible), Relation("incompatible_2", Incompatible)])
  {
    KnownKeysHaveNoUnknown();
    KnownKeysResolve();
    KnownKeysIncompatible();
  }

  /** Of all six fixture keys, only the two unknown ones are selected, in order. */
  lemma PrioritizesUnknownSelection()
    ensures UnknownKeys(HostLicense(), ["compatible_1", "compatible_2", "incompatible_1", "incompatible_2", "unknown_1", "unknown_2"])
         == ["unknown_1", "unknown_2"]
  {
    var known := ["compatible_1", "compatible_2", "incompatible_1", "incompatible_2"];
    var unknown := ["unknown_1", "unknown_2"];
    KnownKeysHaveNoUnknown();
    UnknownKeysKept();
    UnknownKeysAppend(HostLicense(), known, unknown);
    assert known + unknown == ["compatible_1", "compatible_2", "incompatible_1", "incompatible_2", "unknown_1", "unknown_2"];
  }

  /** Unknown relations win over incompatible ones and are reported by key, in order. */
  lemma PrioritizesUnknownExample()
    ensures CheckCompliancy(TestData(), "host_license",
              ["compatible_1", "compatible_2", "incompatible_1", "incompatible_2", "unknown_1", "unknown_2"])
         == CompliancyStatus.Unknown(["unknown_1", "unknown_2"])
  {
    PrioritizesUnknownSelection();
  }

  /** A host key that was never registered gives `UnknownLeading`. */
  lemma UnknownLeadingExample()
    ensures CheckCompliancy(TestData(), "some_random_license", ["compatible_1", "compatible_2"]) == UnknownLeading
  {
  }
}
