/**
 The classifier store: license identifier to classification entry. Lookups are
 pointwise and keep the order and length of the key list, so `ClassifyAll` yields
 exactly the dependency list that `Classification.CompliancyCheck` consumes.
 */
module ClassifierStore {
  import opened Wrappers
  import opened Classification

  datatype ClassificationEntry = ClassificationEntry(classification: LicenseClassification, spdxLicenseKey: Option<string>)

  /** Keys are case-sensitive license identifiers; each maps to at most one entry. */
  datatype Classifier = Classifier(data: map<string, ClassificationEntry>)

  /** A classifier with no entries. */
  function NewClassifier(): (c: Classifier)
    ensures forall key :: Get(c, key).None?
  {
    Classifier(map[])
  }

  /** Stores `entry` under `key`, replacing any earlier entry for that key and leaving every other key as it was. */
  function Add(c: Classifier, key: string, entry: ClassificationEntry): (r: Classifier)
    ensures Get(r, key) == Some(entry)
    ensures forall other :: other != key ==> Get(r, other) == Get(c, other)
  {
    Classifier(c.data[key := entry])
  }

  /** The entry stored under `key`, if any. */
  function Get(c: Classifier, key: string): (r: Option<ClassificationEntry>)
    ensures r.Some? <==> key in c.data
    ensures r.Some? ==> r.value == c.data[key]
  {
    if key in c.data then Some(c.data[key]) else None
  }

  /** One lookup per key, in the order of `keys`, duplicates included. */
  function GetAll(c: Classifier, keys: seq<string>): (r: seq<Option<ClassificationEntry>>)
    ensures |r| == |keys|
    ensures forall i :: 0 <= i < |keys| ==> r[i] == Get(c, keys[i])
  {
    seq(|keys|, i requires 0 <= i < |keys| => Get(c, keys[i]))
  }

  /** The pillar stored under `key`; a key that was never added is `Unknown`, never a missing value. */
  function Classify(c: Classifier, key: string): (r: LicenseClassification)
    ensures Get(c, key).Some? ==> r == Get(c, key).value.classification
    ensures Get(c, key).None? ==> r.Unknown?
  {
    if key in c.data then c.data[key].classification else Unknown
  }

  /** One pillar per key, in the order of `keys`. */
  function ClassifyAll(c: Classifier, keys: seq<string>): (r: seq<LicenseClassification>)
    ensures |r| == |keys|
    ensures forall i :: 0 <= i < |keys| ==> r[i] == Classify(c, keys[i])
  {
    seq(|keys|, i requires 0 <= i < |keys| => Classify(c, keys[i]))
  }

  /** Classifying a key just added returns the added entry's pillar; other keys keep theirs. */
  lemma AddThenClassify(c: Classifier, key: string, entry: ClassificationEntry, other: string)
    ensures Classify(Add(c, key, entry), key) == entry.classification
    ensures other != key ==> Classify(Add(c, key, entry), other) == Classify(c, other)
  {
  }

  /** `ClassifyAll` is `GetAll` with each lookup reduced to its pillar, a miss reading as `Unknown`. */
  lemma ClassifyAllFromGetAll(c: Classifier, keys: seq<string>)
    ensures |ClassifyAll(c, keys)| == |GetAll(c, keys)|
    ensures forall i :: 0 <= i < |keys| ==>
              ClassifyAll(c, keys)[i] == match GetAll(c, keys)[i] case Some(e) => e.classification case None => Unknown
  {
  }

  /**
   A dependency whose identifier the classifier does not know is `Unknown`, so under the strict
   policy it makes the whole check fail and is reported among the failures.
   */
  lemma UnregisteredDependencyFails(c: Classifier, host: LicenseClassification, keys: seq<string>, i: nat)
    requires i < |keys| && keys[i] !in c.data
    ensures CompliancyCheck(host, ClassifyAll(c, keys), false).NonCompliant?
    ensures Unknown in CompliancyCheck(host, ClassifyAll(c, keys), false).failures
  {
    var found := ClassifyAll(c, keys);
    assert found[i] == Unknown;
    var r := CompliancyCheck(host, found, false);
    assert multiset(r.failures)[Unknown] == multiset(found)[Unknown];
  }

  /** With "test" registered as Open and "test2" as Viral, classifying both gives [Open, Viral]. */
  lemma ClassifyAllExample()
    ensures ClassifyAll(Add(Add(NewClassifier(), "test", ClassificationEntry(Open, None)), "test2", ClassificationEntry(Viral, None)),
                        ["test", "test2"]) == [Open, Viral]
  {
  }

  /** A classifier that knows only "a" as Open classifies ["a", "b"] as [Open, Unknown]: the miss reads as `Unknown`. */
  lemma ClassifyAllMissExample()
    ensures ClassifyAll(Add(NewClassifier(), "a", ClassificationEntry(Open, None)), ["a", "b"]) == [Open, Unknown]
  {
  }
}
