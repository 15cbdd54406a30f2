/** The feature vocabulary of `Feature2Id`: every class keeps the keys of
    its count dictionary that pass the class threshold and numbers them
    consecutively, continuing from the number of features indexed so far;
    the class dictionaries are then merged into one index of all features. */
module Indexing {
  import opened OrderedMaps
  import opened Features
  import opened Numbering

  /** The count dictionaries of the counting pass, one per class. */
  type Counts = map<FeatureClass, OMap<FeatureKey, nat>>

  /** Every class has a count dictionary. */
  ghost predicate Counted(counts: Counts) {
    forall c: FeatureClass :: c in counts && OrderedMaps.Valid(counts[c])
  }

  /** Count dictionaries as the counting pass leaves them: each class
      counted only keys of its own. */
  ghost predicate CountsValid(counts: Counts) {
    && Counted(counts)
    && (forall c: FeatureClass, k :: c in counts && k in counts[c].values ==> WellKeyed(c, k))
  }

  /** The sum of the counts of `keys`. */
  function SumOf<K>(m: OMap<K, nat>, keys: seq<K>): nat
    requires forall k :: k in keys ==> k in m.values
    decreases |keys|
  {
    if keys == [] then 0 else SumOf(m, keys[..|keys| - 1]) + m.values[keys[|keys| - 1]]
  }

  /** `[key for key in class102_dict if len(key[1]) == length]`: the
      class-102 keys whose prefix has `length` characters, in order. */
  function Bucket(keys: seq<FeatureKey>, length: nat): (r: seq<FeatureKey>)
    ensures forall k :: k in r <==> k in keys && k.PrefixTag? && |k.prefix| == length
    decreases |keys|
  {
    if keys == [] then []
    else
      var k := keys[|keys| - 1];
      Bucket(keys[..|keys| - 1], length) + (if k.PrefixTag? && |k.prefix| == length then [k] else [])
  }

  /** The prefix length of a class-102 key (`len(key[1])`). */
  function PrefixLength(k: FeatureKey): nat {
    if k.PrefixTag? then |k.prefix| else 0
  }

  /** Whether `set_index_class<cls>` keeps key `k` of the count dictionary
      `m`: classes 103, 106 and 107 compare the count with the mean count of
      the class, class 102 with the mean count of the keys whose prefix has
      the same length, and the others with the threshold argument. A mean
      `sum / n` is compared exactly, as `count * n >= sum`. */
  predicate Keeps(cls: FeatureClass, m: OMap<FeatureKey, nat>, k: FeatureKey, threshold: nat)
    requires OrderedMaps.Valid(m) && k in m.values
  {
    match cls
    case F102 =>
      var bucket := Bucket(m.keys, PrefixLength(k));
      m.values[k] * |bucket| >= SumOf(m, bucket)
    case F103 | F106 | F107 => m.values[k] * |m.keys| >= SumOf(m, m.keys)
    case _ => m.values[k] >= threshold
  }

  /** `Keeps` as the test of a filter. */
  function KeepTest(cls: FeatureClass, m: OMap<FeatureKey, nat>, threshold: nat): FeatureKey -> bool
    requires OrderedMaps.Valid(m)
  {
    k => k in m.values && Keeps(cls, m, k, threshold)
  }

  /** The keys of the count dictionary `m` that class `cls` keeps, in the
      order they were counted. */
  function Kept(m: OMap<FeatureKey, nat>, cls: FeatureClass, threshold: nat): seq<FeatureKey>
    requires OrderedMaps.Valid(m)
  {
    Filter(KeepTest(cls, m, threshold), m.keys)
  }

  /** The per-class step of `set_index_class<cls>`, outside the object:
      number the keys class `cls` keeps from `start` on. */
  method IndexClass(cls: FeatureClass, m: OMap<FeatureKey, nat>, threshold: nat, d0: OMap<FeatureKey, nat>, start: nat)
    returns (d: OMap<FeatureKey, nat>, next: nat)
    requires OrderedMaps.Valid(m) && OrderedMaps.Valid(d0)
    ensures OrderedMaps.Valid(d)
    ensures d == Numbered(d0, Kept(m, cls, threshold), start)
    ensures next == start + |Kept(m, cls, threshold)|
  {
    d, next := NumberKept(KeepTest(cls, m, threshold), m.keys, d0, start);
  }

  /** The filters of `run_model_1`, class by class in the order 100 to 110:
      every class with the default threshold 0. */
  function Tests(counts: Counts): (r: seq<FeatureKey -> bool>)
    requires Counted(counts)
    ensures |r| == |Classes|
    ensures forall j :: 0 <= j < |Classes| ==> r[j] == KeepTest(Classes[j], counts[Classes[j]], 0)
  {
    seq(|Classes|, j requires 0 <= j < |Classes| => KeepTest(Classes[j], counts[Classes[j]], 0))
  }

  /** The keys of the count dictionaries in the order 100 to 110. */
  function KeyLists(counts: Counts): (r: seq<seq<FeatureKey>>)
    requires Counted(counts)
    ensures |r| == |Classes|
    ensures forall j :: 0 <= j < |Classes| ==> r[j] == counts[Classes[j]].keys
  {
    seq(|Classes|, j requires 0 <= j < |Classes| => counts[Classes[j]].keys)
  }

  /** The features `run_model_1` keeps, class after class: the feature
      vocabulary in index order. */
  function Vocabulary(counts: Counts): seq<FeatureKey>
    requires Counted(counts)
  {
    Joined(FilterAll(Tests(counts), KeyLists(counts)))
  }

  /** The features class `Classes[j]` keeps are those of its count
      dictionary that pass its test, each once. */
  lemma KeptMembers(counts: Counts, j: nat)
    requires Counted(counts) && j < |Classes|
    ensures FilterAll(Tests(counts), KeyLists(counts))[j] == Kept(counts[Classes[j]], Classes[j], 0)
    ensures forall k :: k in Kept(counts[Classes[j]], Classes[j], 0) <==>
      k in counts[Classes[j]].values && Keeps(Classes[j], counts[Classes[j]], k, 0)
    ensures Unique(Kept(counts[Classes[j]], Classes[j], 0))
  {
    var m := counts[Classes[j]];
    FilterMembers(KeepTest(Classes[j], m, 0), m.keys);
  }

  /** A feature is in the vocabulary exactly when it was counted for its
      class and its class keeps it. */
  lemma VocabularyMembers(counts: Counts)
    requires CountsValid(counts)
    ensures forall k :: k in Vocabulary(counts) <==>
      k in counts[ClassOf(k)].values && Keeps(ClassOf(k), counts[ClassOf(k)], k, 0)
  {
    var kept := FilterAll(Tests(counts), KeyLists(counts));
    JoinedMembers(kept);
    forall k | k in Vocabulary(counts)
      ensures k in counts[ClassOf(k)].values && Keeps(ClassOf(k), counts[ClassOf(k)], k, 0)
    {
      var j :| 0 <= j < |kept| && k in kept[j];
      KeptMembers(counts, j);
      assert WellKeyed(Classes[j], k);
    }
    forall k | k in counts[ClassOf(k)].values && Keeps(ClassOf(k), counts[ClassOf(k)], k, 0)
      ensures k in Vocabulary(counts)
    {
      var j := ClassIndex(ClassOf(k));
      KeptMembers(counts, j);
      assert k in kept[j];
    }
  }

  /** No feature is kept twice: each class keeps distinct keys of its own. */
  lemma VocabularyUnique(counts: Counts)
    requires CountsValid(counts)
    ensures Unique(Vocabulary(counts))
  {
    var kept := FilterAll(Tests(counts), KeyLists(counts));
    forall j | 0 <= j < |kept| ensures Unique(kept[j]) && forall k :: k in kept[j] ==> ClassOf(k) == Classes[j] {
      KeptMembers(counts, j);
      forall k | k in kept[j] ensures ClassOf(k) == Classes[j] {
        assert WellKeyed(Classes[j], k);
      }
    }
    ClassesDistinct();
    JoinedUnique(kept);
  }

  /** Every class has a well-formed index dictionary and a count. */
  ghost predicate ClassesIndexed(ci: map<FeatureClass, OMap<FeatureKey, nat>>, cc: map<FeatureClass, nat>) {
    forall c: FeatureClass :: c in ci && OrderedMaps.Valid(ci[c]) && c in cc
  }

  /** The dictionaries of a fresh `Feature2Id`: all empty. */
  function EmptyDicts(): (r: map<FeatureClass, OMap<FeatureKey, nat>>)
    ensures forall c: FeatureClass :: c in r && r[c] == Empty()
  {
    var r := map c | c in Classes :: Empty();
    assert forall c: FeatureClass :: c in r && r[c] == Empty() by {
      forall c: FeatureClass ensures c in r && r[c] == Empty() {
        assert Classes[ClassIndex(c)] == c;
      }
    }
    r
  }

  /** The class counts of a fresh `Feature2Id`: all 0. */
  function ZeroCounts(): (r: map<FeatureClass, nat>)
    ensures forall c: FeatureClass :: c in r && r[c] == 0
  {
    var r := map c | c in Classes :: 0;
    assert forall c: FeatureClass :: c in r && r[c] == 0 by {
      forall c: FeatureClass ensures c in r && r[c] == 0 {
        assert Classes[ClassIndex(c)] == c;
      }
    }
    r
  }

  /** Merging the class dictionaries `run_model_1` indexed numbers the
      vocabulary densely from 0: the `j`-th feature kept gets index `j`,
      and `n_total_features` is their number. */
  lemma IndexedVocabulary(counts: Counts, ci: map<FeatureClass, OMap<FeatureKey, nat>>, cc: map<FeatureClass, nat>, total: nat)
    requires CountsValid(counts)
    requires IndexedUpTo(Classes, FilterAll(Tests(counts), KeyLists(counts)), ci, cc, total, |Classes|)
    requires forall j :: 0 <= j < |Classes| ==> Classes[j] in ci && OrderedMaps.Valid(ci[Classes[j]])
    ensures Dense(UpdateAll(Empty(), ci, Classes, |Classes|), Vocabulary(counts), 0)
    ensures total == |Vocabulary(counts)|
  {
    var kept := FilterAll(Tests(counts), KeyLists(counts));
    VocabularyUnique(counts);
    assert kept[..|Classes|] == kept;
    MergeDense(Classes, kept, ci, cc, total, |Classes|);
  }

  /** The indexing steps of `run_model_1` on the values of a fresh
      `Feature2Id`: every class indexed with the default threshold 0, in
      the order 100 to 110, then merged. */
  method IndexStatistics(counts: Counts)
    returns (ci: map<FeatureClass, OMap<FeatureKey, nat>>, cc: map<FeatureClass, nat>, total: nat, all: OMap<FeatureKey, nat>)
    requires CountsValid(counts)
    ensures ClassesIndexed(ci, cc) && OrderedMaps.Valid(all)
    ensures IndexedUpTo(Classes, FilterAll(Tests(counts), KeyLists(counts)), ci, cc, total, |Classes|)
    ensures Dense(all, Vocabulary(counts), 0)
    ensures total == |Vocabulary(counts)|
  {
    ClassesDistinct();
    ci, cc, total := IndexAll(Classes, Tests(counts), KeyLists(counts), EmptyDicts(), ZeroCounts());
    IndexedValid(Classes, FilterAll(Tests(counts), KeyLists(counts)), ci, cc, total);
    forall c: FeatureClass ensures c in ci && OrderedMaps.Valid(ci[c]) && c in cc {
      assert Classes[ClassIndex(c)] == c;
    }
    all := MergeAll(Empty(), ci, Classes);
    IndexedVocabulary(counts, ci, cc, total);
  }

  class Feature2Id {
    /** The count dictionaries of `feature_statistics`. */
    const counts: Counts
    /** `class<cls>_feature_index_dict` */
    var classIndex: map<FeatureClass, OMap<FeatureKey, nat>>
    /** `n_class<cls>` */
    var classCount: map<FeatureClass, nat>
    /** `n_total_features` */
    var total: nat
    /** `all_feature_index_dict` */
    var all: OMap<FeatureKey, nat>

    ghost predicate Valid()
      reads this
    {
      ClassesIndexed(classIndex, classCount) && OrderedMaps.Valid(all)
    }

    /** Nothing indexed yet. */
    ghost predicate Fresh()
      reads this
    {
      classIndex == EmptyDicts() && classCount == ZeroCounts() && total == 0 && all == Empty()
    }

    constructor (statistics: Counts)
      ensures Valid() && Fresh() && counts == statistics
    {
      counts := statistics;
      classIndex, classCount, total, all := EmptyDicts(), ZeroCounts(), 0, Empty();
    }

    /** `set_index_class<cls>(threshold)`: number the kept keys of class
        `cls` in the order they were counted, starting from `n_class<cls> +
        n_total_features`, then add `n_class<cls>` to `n_total_features`.
        Only the dictionary and the count of `cls` change. The keys are those
        the counting pass produces: a class-102 prefix of another length than
        1 to 7 has no entry in `thresholds`, and the source fails on it. */
    method SetIndex(cls: FeatureClass, threshold: nat)
      requires Valid() && cls in counts && OrderedMaps.Valid(counts[cls])
      requires forall k :: k in counts[cls].values ==> WellKeyed(cls, k)
      modifies this`classIndex, this`classCount, this`total
      ensures Valid()
      ensures classIndex == old(classIndex)[cls := classIndex[cls]]
      ensures classIndex[cls] == Numbered(old(classIndex)[cls], Kept(counts[cls], cls, threshold), old(classCount)[cls] + old(total))
      ensures classCount == old(classCount)[cls := classCount[cls]]
      ensures classCount[cls] == old(classCount)[cls] + |Kept(counts[cls], cls, threshold)|
      ensures total == old(total) + classCount[cls]
    {
      var d, next := IndexClass(cls, counts[cls], threshold, classIndex[cls], classCount[cls] + total);
      classIndex := classIndex[cls := d];
      classCount := classCount[cls := next - total];
      total := next;
    }

    /** `build_all_classes_feature_index_dict`: merge the class
        dictionaries, in the order 100 to 110, into the index of all
        features. */
    method BuildAll()
      requires Valid()
      modifies this`all
      ensures Valid()
      ensures all == UpdateAll(old(all), classIndex, Classes, |Classes|)
    {
      all := MergeAll(all, classIndex, Classes);
    }
  }

  /** Some key of a non-empty dictionary has at least the mean count. */
  lemma AboveMean<K>(m: OMap<K, nat>, keys: seq<K>)
    requires keys != [] && forall k :: k in keys ==> k in m.values
    ensures exists k :: k in keys && m.values[k] * |keys| >= SumOf(m, keys)
  {
    if forall k :: k in keys ==> m.values[k] * |keys| < SumOf(m, keys) {
      SumBelow(m, keys, |keys|, SumOf(m, keys));
      assert false;
    }
  }

  /** If every count of `keys`, scaled by `n`, is below `s`, then so is
      their sum scaled by `n` below `|keys| * s`. */
  lemma {:induction false} SumBelow<K>(m: OMap<K, nat>, keys: seq<K>, n: nat, s: nat)
    requires keys != [] && forall k :: k in keys ==> k in m.values && m.values[k] * n < s
    ensures SumOf(m, keys) * n < |keys| * s
    decreases |keys|
  {
    var p := keys[..|keys| - 1];
    var x := keys[|keys| - 1];
    assert x in keys;
    if p == [] {
      assert SumOf(m, keys) == m.values[x];
    } else {
      assert forall k :: k in p ==> k in keys;
      SumBelow(m, p, n, s);
      SumStep(SumOf(m, p), m.values[x], n, |p|, s);
    }
  }

  lemma SumStep(a: nat, b: nat, n: nat, c: nat, s: nat)
    requires a * n < c * s && b * n < s
    ensures (a + b) * n < (c + 1) * s
  {
    assert (a + b) * n == a * n + b * n;
    assert (c + 1) * s == c * s + s;
  }

  /** Classes 103, 106 and 107 keep at least one feature whenever they
      counted one. */
  lemma MeanKeepsOne(m: OMap<FeatureKey, nat>, cls: FeatureClass, threshold: nat)
    requires OrderedMaps.Valid(m) && m.keys != [] && cls in {F103, F106, F107}
    ensures Kept(m, cls, threshold) != []
  {
    AboveMean(m, m.keys);
    var k :| k in m.keys && m.values[k] * |m.keys| >= SumOf(m, m.keys);
    FilterMembers(KeepTest(cls, m, threshold), m.keys);
    assert k in Kept(m, cls, threshold);
  }

  /** Class 102 keeps, for every prefix length it counted, at least one
      feature with a prefix of that length. */
  lemma BucketKeepsOne(m: OMap<FeatureKey, nat>, k0: FeatureKey, threshold: nat)
    requires OrderedMaps.Valid(m) && k0 in m.values && k0.PrefixTag?
    ensures exists k :: k in Kept(m, F102, threshold) && k.PrefixTag? && |k.prefix| == |k0.prefix|
  {
    var bucket := Bucket(m.keys, |k0.prefix|);
    assert k0 in bucket;
    AboveMean(m, bucket);
    var k :| k in bucket && m.values[k] * |bucket| >= SumOf(m, bucket);
    FilterMembers(KeepTest(F102, m, threshold), m.keys);
    assert PrefixLength(k) == |k0.prefix|;
    assert k in Kept(m, F102, threshold);
  }
}
