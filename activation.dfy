/** Feature activation, `f_xi_yi`: the indices of the features that fire
    for position `i` of a sentence under a tagging `tags`. For every class
    the tagger forms the keys of that position (the same keys the counting
    pass counts, with a few rules written differently) and appends, in
    class order, the index of every key its class dictionary holds. */
module Activation {
  import opened Text
  import opened Wrappers
  import opened OrderedMaps
  import opened Features
  import opened Statistics
  import opened Numbering
  import opened Indexing

  /** What `f_xi_yi` reads of a `Feature2Id`: the eleven class
      dictionaries, the merged dictionary and `n_total_features`. */
  datatype FeatureIndex = FeatureIndex(classIndex: map<FeatureClass, OMap<FeatureKey, nat>>,
                                       all: OMap<FeatureKey, nat>, total: nat)

  /** The lookups of `f_xi_yi` succeed: every class has its dictionary,
      every key of a class dictionary is in the merged dictionary, and the
      indices there are below `n_total_features`. */
  ghost predicate Consistent(fi: FeatureIndex) {
    && (forall c: FeatureClass :: c in fi.classIndex)
    && (forall c: FeatureClass, k :: c in fi.classIndex && k in fi.classIndex[c].values ==> k in fi.all.values)
    && (forall k :: k in fi.all.values ==> fi.all.values[k] < fi.total)
  }

  /** `key in features_indices.class<X>_feature_index_dict` for the class
      `X` of the key. */
  predicate Known(fi: FeatureIndex, k: FeatureKey) {
    ClassOf(k) in fi.classIndex && k in fi.classIndex[ClassOf(k)].values
  }

  /** The indices of the keys of `keys` that their class dictionary holds,
      in order: one `if key in dict: append(all[key])` per key. */
  function Lookups(fi: FeatureIndex, keys: seq<FeatureKey>): seq<nat>
    requires Consistent(fi)
    decreases |keys|
  {
    if keys == [] then []
    else
      var k := keys[|keys| - 1];
      Lookups(fi, keys[..|keys| - 1]) + (if Known(fi, k) then [fi.all.values[k]] else [])
  }

  /** An index is looked up exactly when some known key of `keys` has it. */
  lemma {:induction false} LookupsMembers(fi: FeatureIndex, keys: seq<FeatureKey>)
    requires Consistent(fi)
    ensures forall x :: x in Lookups(fi, keys) <==> exists k :: k in keys && Known(fi, k) && fi.all.values[k] == x
    decreases |keys|
  {
    if keys != [] {
      var p := keys[..|keys| - 1];
      var k := keys[|keys| - 1];
      LookupsMembers(fi, p);
      assert keys == p + [k];
      forall x | x in Lookups(fi, keys)
        ensures exists k' :: k' in keys && Known(fi, k') && fi.all.values[k'] == x
      {
        if x !in Lookups(fi, p) {
          assert Known(fi, k) && fi.all.values[k] == x;
        }
      }
    }
  }

  /** At most one index per key. */
  lemma {:induction false} LookupsLength(fi: FeatureIndex, keys: seq<FeatureKey>)
    requires Consistent(fi)
    ensures |Lookups(fi, keys)| <= |keys|
    decreases |keys|
  {
    if keys != [] {
      LookupsLength(fi, keys[..|keys| - 1]);
    }
  }

  /** Every index looked up is below `n_total_features`. */
  lemma {:induction false} LookupsBelowTotal(fi: FeatureIndex, keys: seq<FeatureKey>)
    requires Consistent(fi)
    ensures forall x :: x in Lookups(fi, keys) ==> x < fi.total
    decreases |keys|
  {
    if keys != [] {
      LookupsBelowTotal(fi, keys[..|keys| - 1]);
    }
  }

  /** Looking up two runs of keys one after the other. */
  lemma {:induction false} LookupsAppend(fi: FeatureIndex, a: seq<FeatureKey>, b: seq<FeatureKey>)
    requires Consistent(fi)
    ensures Lookups(fi, a + b) == Lookups(fi, a) + Lookups(fi, b)
    decreases |b|
  {
    if b == [] {
      assert a + b == a;
    } else {
      var p := b[..|b| - 1];
      assert (a + b)[..|a + b| - 1] == a + p;
      LookupsAppend(fi, a, p);
    }
  }

  /** The class-100 key that fires, if any: the word itself, else its
      title-cased spelling (`w[0].upper() + w[1:].lower()`). The lower- and
      upper-case lookups of the source are commented out. An empty word
      whose own key is unknown makes `w[0]` fail: `None`. */
  function WordKey(fi: FeatureIndex, w: string, tag: string): (r: Option<seq<FeatureKey>>)
  {
    if Known(fi, WordTag(w, tag)) then Some([WordTag(w, tag)])
    else if |w| == 0 then None
    else if Known(fi, WordTag(TitleCase(w), tag)) then Some([WordTag(TitleCase(w), tag)])
    else Some([])
  }

  /** Class 100 contributes at most one key, known to its dictionary; the
      title-cased spelling is tried only when the word itself is unknown. */
  lemma WordKeyAtMostOne(fi: FeatureIndex, w: string, tag: string)
    ensures WordKey(fi, w, tag).Some? ==> |WordKey(fi, w, tag).value| <= 1
    ensures WordKey(fi, w, tag).Some? ==> forall k :: k in WordKey(fi, w, tag).value ==> Known(fi, k)
    ensures WordKey(fi, w, tag) == Some([WordTag(w, tag)]) <==> Known(fi, WordTag(w, tag))
    ensures WordKey(fi, w, tag).None? <==> !Known(fi, WordTag(w, tag)) && |w| == 0
  {
  }

  /** The class-101 keys tried: the suffixes of lengths 1 to
      `min(len(w) - 1, 7)`, shortest first. */
  function SuffixCandidates(w: string, tag: string): (r: seq<FeatureKey>)
    ensures |r| == AffixCount(w)
    ensures forall l :: 0 <= l < |r| ==> r[l] == SuffixTag(w[|w| - (l + 1)..], tag)
  {
    seq(AffixCount(w), l requires 0 <= l < AffixCount(w) => SuffixTag(w[|w| - (l + 1)..], tag))
  }

  /** The class-102 keys tried: the prefixes of lengths 1 to
      `min(len(w) - 1, 7)`, shortest first. */
  function PrefixCandidates(w: string, tag: string): (r: seq<FeatureKey>)
    ensures |r| == AffixCount(w)
    ensures forall l :: 0 <= l < |r| ==> r[l] == PrefixTag(w[..l + 1], tag)
  {
    seq(AffixCount(w), l requires 0 <= l < AffixCount(w) => PrefixTag(w[..l + 1], tag))
  }

  /** The keys of classes 101 to 110 that `f_xi_yi` tries for position `i`.
      Earlier tags default to `''` and neighbouring words to `*` and `STOP`;
      `tags` may be shorter than `words` (the decoder passes three tags). */
  function Candidates(cls: FeatureClass, words: seq<string>, tags: seq<string>, i: nat): seq<FeatureKey>
    requires i < |words| && i < |tags|
  {
    var w := words[i];
    var tag := tags[i];
    var prevTag := if i > 0 then tags[i - 1] else "";
    var prevWord := if i > 0 then words[i - 1] else "*";
    var nextWord := if i < |words| - 1 then words[i + 1] else "STOP";
    match cls
    case F100 => []
    case F101 => SuffixCandidates(w, tag)
    case F102 => PrefixCandidates(w, tag)
    case F103 => [TagTrigram(if i > 1 then tags[i - 2] else "", prevTag, tag)]
    case F104 => [TagBigram(prevTag, tag)]
    case F105 => [TagUnigram(tag)]
    case F106 => [PrevWordTag(prevWord, tag)]
    case F107 => [NextWordTag(nextWord, tag)]
    case F108 => NumberKeys(NumberShapes(w), tag)
    case F109 => CapitalKeys(CapitalShapes(i == 0, w, prevWord, nextWord), prevTag, tag)
    case F110 => MorphKeys(MorphShapes(w, if i != |words| - 1 then Some(words[i + 1]) else None, Activation), tag)
  }

  /** The indices `f_xi_yi` returns, or `None` when it fails. */
  function Active(fi: FeatureIndex, words: seq<string>, tags: seq<string>, i: nat): (r: Option<seq<nat>>)
    requires Consistent(fi) && i < |words| && i < |tags|
  {
    match WordKey(fi, words[i], tags[i])
    case None => None
    case Some(first) =>
      Some(Lookups(fi, first)
           + Lookups(fi, Candidates(F101, words, tags, i)) + Lookups(fi, Candidates(F102, words, tags, i))
           + Lookups(fi, Candidates(F103, words, tags, i)) + Lookups(fi, Candidates(F104, words, tags, i))
           + Lookups(fi, Candidates(F105, words, tags, i)) + Lookups(fi, Candidates(F106, words, tags, i))
           + Lookups(fi, Candidates(F107, words, tags, i)) + Lookups(fi, Candidates(F108, words, tags, i))
           + Lookups(fi, Candidates(F109, words, tags, i)) + Lookups(fi, Candidates(F110, words, tags, i)))
  }

  /** `if key in dict: active.append(all[key])` for every key of `keys`. */
  method AppendHits(fi: FeatureIndex, active: seq<nat>, keys: seq<FeatureKey>) returns (r: seq<nat>)
    requires Consistent(fi)
    ensures r == active + Lookups(fi, keys)
  {
    r := active;
    var j := 0;
    while j < |keys|
      invariant 0 <= j <= |keys|
      invariant r == active + Lookups(fi, keys[..j])
    {
      assert keys[..j + 1][..j] == keys[..j];
      var k := keys[j];
      if Known(fi, k) {
        r := r + [fi.all.values[k]];
      }
      j := j + 1;
    }
    assert keys[..j] == keys;
  }

  /** `f_xi_yi(features_indices, words, tags, i)`. */
  method FXiYi(fi: FeatureIndex, words: seq<string>, tags: seq<string>, i: nat) returns (r: Option<seq<nat>>)
    requires Consistent(fi) && i < |words| && i < |tags|
    ensures r == Active(fi, words, tags, i)
  {
    var w := words[i];
    var tag := tags[i];
    var active: seq<nat> := [];
    if Known(fi, WordTag(w, tag)) {
      active := active + [fi.all.values[WordTag(w, tag)]];
    } else if |w| == 0 {
      return None;
    } else if Known(fi, WordTag(TitleCase(w), tag)) {
      active := active + [fi.all.values[WordTag(TitleCase(w), tag)]];
    }
    assert active == Lookups(fi, WordKey(fi, w, tag).value);
    active := AppendHits(fi, active, Candidates(F101, words, tags, i));
    active := AppendHits(fi, active, Candidates(F102, words, tags, i));
    active := AppendHits(fi, active, Candidates(F103, words, tags, i));
    active := AppendHits(fi, active, Candidates(F104, words, tags, i));
    active := AppendHits(fi, active, Candidates(F105, words, tags, i));
    active := AppendHits(fi, active, Candidates(F106, words, tags, i));
    active := AppendHits(fi, active, Candidates(F107, words, tags, i));
    active := AppendHits(fi, active, Candidates(F108, words, tags, i));
    active := AppendHits(fi, active, Candidates(F109, words, tags, i));
    active := AppendHits(fi, active, Candidates(F110, words, tags, i));
    return Some(active);
  }

  /** Every index `f_xi_yi` returns lies in `[0, n_total_features)`. */
  lemma ActiveBelowTotal(fi: FeatureIndex, words: seq<string>, tags: seq<string>, i: nat)
    requires Consistent(fi) && i < |words| && i < |tags|
    requires Active(fi, words, tags, i).Some?
    ensures forall x :: x in Active(fi, words, tags, i).value ==> x < fi.total
  {
    LookupsBelowTotal(fi, WordKey(fi, words[i], tags[i]).value);
    LookupsBelowTotal(fi, Candidates(F101, words, tags, i));
    LookupsBelowTotal(fi, Candidates(F102, words, tags, i));
    LookupsBelowTotal(fi, Candidates(F103, words, tags, i));
    LookupsBelowTotal(fi, Candidates(F104, words, tags, i));
    LookupsBelowTotal(fi, Candidates(F105, words, tags, i));
    LookupsBelowTotal(fi, Candidates(F106, words, tags, i));
    LookupsBelowTotal(fi, Candidates(F107, words, tags, i));
    LookupsBelowTotal(fi, Candidates(F108, words, tags, i));
    LookupsBelowTotal(fi, Candidates(F109, words, tags, i));
    LookupsBelowTotal(fi, Candidates(F110, words, tags, i));
  }

  /** Suffixes and prefixes each contribute at most `min(len(w) - 1, 7)`
      indices. */
  lemma AffixHitsBounded(fi: FeatureIndex, words: seq<string>, tags: seq<string>, i: nat)
    requires Consistent(fi) && i < |words| && i < |tags|
    ensures |Lookups(fi, Candidates(F101, words, tags, i))| <= AffixCount(words[i])
    ensures |Lookups(fi, Candidates(F102, words, tags, i))| <= AffixCount(words[i])
  {
    LookupsLength(fi, Candidates(F101, words, tags, i));
    LookupsLength(fi, Candidates(F102, words, tags, i));
  }

  /** Classes 103 to 108 try exactly the keys the counting pass counts at
      the same position of a tagged sentence. */
  lemma CandidatesAgreeWithCounting(cls: FeatureClass, words: seq<string>, tags: seq<string>, i: nat)
    requires i < |words| == |tags|
    requires cls in {F103, F104, F105, F106, F107, F108}
    ensures Candidates(cls, words, tags, i) == CountedKeys(cls, words, tags, i)
  {
  }

  /** The feature index `run_model_1` builds is one `f_xi_yi` can read:
      every kept key has its place in the merged dictionary, numbered below
      `n_total_features`. */
  lemma IndexStatisticsConsistent(counts: Counts, ci: map<FeatureClass, OMap<FeatureKey, nat>>,
                                  cc: map<FeatureClass, nat>, total: nat, all: OMap<FeatureKey, nat>)
    requires CountsValid(counts) && ClassesIndexed(ci, cc) && OrderedMaps.Valid(all)
    requires IndexedUpTo(Classes, FilterAll(Tests(counts), KeyLists(counts)), ci, cc, total, |Classes|)
    requires Dense(all, Vocabulary(counts), 0) && total == |Vocabulary(counts)|
    ensures Consistent(FeatureIndex(ci, all, total))
  {
    var kept := FilterAll(Tests(counts), KeyLists(counts));
    JoinedMembers(kept);
    forall c: FeatureClass, k | k in ci[c].values
      ensures k in all.values
    {
      var j := ClassIndex(c);
      KeptMembers(counts, j);
      NumberedFresh(kept[j], |Joined(kept[..j])|);
      assert k in kept[j];
    }
    forall k | k in all.values
      ensures all.values[k] < total
    {
      var p :| 0 <= p < |all.keys| && all.keys[p] == k;
    }
  }
}
