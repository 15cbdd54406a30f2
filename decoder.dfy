/** The pieces of the decoder around the Viterbi recursion: the four-word
    window `q_params_calc` scores a position with, the beam that keeps the
    best candidates of a step, and the deterministic tags applied after
    backtracking. */
module Decoder {
  import opened Wrappers
  import opened Statistics
  import opened Activation
  import opened Features
  import opened OrderedMaps

  /** The word at position `p` of the sentence, `*` before it and `STOP`
      after it. */
  function Around(words: seq<string>, p: int): string {
    if p < 0 then "*" else if p >= |words| then "STOP" else words[p]
  }

  /** The window of `q_params_calc` for position `k`: the branches
      `k == 0`, `k == 1`, `k == len(words) - 1` and the general case, with
      the `IndexError` fallback to `STOP` for a missing next word. */
  function Window(words: seq<string>, k: nat): seq<string>
    requires k < |words|
  {
    if k == 0 then ["*", "*", words[k], if k + 1 < |words| then words[k + 1] else "STOP"]
    else if k == 1 then ["*", words[k - 1], words[k], if k + 1 < |words| then words[k + 1] else "STOP"]
    else if k == |words| - 1 then [words[k - 2], words[k - 1], words[k], "STOP"]
    else [words[k - 2], words[k - 1], words[k], words[k + 1]]
  }

  /** Every branch builds the same window: two words back, the word, and
      one word ahead, padded with `*` and `STOP`. */
  lemma WindowAround(words: seq<string>, k: nat)
    requires k < |words|
    ensures Window(words, k) == [Around(words, k - 2), Around(words, k - 1), words[k], Around(words, k + 1)]
  {
  }

  /** `f_xi_yi(window, [t, u, v], 2)` as `q_params_aux` calls it: the
      previous tags are always `t` and `u`, and the word is never first, so
      the decoder asks for `(103, t, u, v)` and `(104, u, v)` whatever the
      position. At the start of a sentence these are `(103, '*', '*', v)`
      and `(104, '*', v)`, while the counting pass records `''` there. */
  lemma DecodingTagKeys(words: seq<string>, k: nat, t: string, u: string, v: string)
    requires k < |words|
    ensures Candidates(F103, Window(words, k), [t, u, v], 2) == [TagTrigram(t, u, v)]
    ensures Candidates(F104, Window(words, k), [t, u, v], 2) == [TagBigram(u, v)]
    ensures forall tags: seq<string> :: |tags| == |words| && k == 0 ==>
              CountedKeys(F103, words, tags, 0) == [TagTrigram("", "", tags[0])]
              && CountedKeys(F104, words, tags, 0) == [TagBigram("", tags[0])]
  {
  }

  /** `beam` of `memm_viterbi`: a number of candidates, or `np.inf`. A
      negative number, which `beam_search` treats like 0 (every candidate
      kept), is left out: `Width(0)` stands for it. */
  datatype Beam = Unbounded | Width(n: nat)

  /** The number of keys `beam_search` returns out of `n`: the loop stops
      when the chosen set reaches size `B`, which never happens for `B = 0`
      (the size is checked after an insertion). */
  function Take(beam: Beam, n: nat): (r: nat)
    ensures r <= n
    ensures beam.Width? && beam.n >= 1 ==> r == if beam.n < n then beam.n else n
    ensures beam.Unbounded? || beam.n == 0 ==> r == n
  {
    match beam
    case Unbounded => n
    case Width(b) => if b == 0 || n < b then n else b
  }

  /** `a` comes no later than `b` in a list sorted by decreasing value. */
  predicate SortedDesc<K>(s: seq<(K, real)>) {
    forall i, j :: 0 <= i < j < |s| ==> s[i].1 >= s[j].1
  }

  /** Insert `x` after every item of `s` whose value is at least its own. */
  function InsertDesc<K(==)>(s: seq<(K, real)>, x: (K, real)): (r: seq<(K, real)>)
    ensures multiset(r) == multiset(s) + multiset{x}
    ensures |r| == |s| + 1
  {
    if s == [] then [x]
    else if s[0].1 >= x.1 then
      assert s == [s[0]] + s[1..];
      [s[0]] + InsertDesc(s[1..], x)
    else [x] + s
  }

  lemma {:induction false} InsertDescSorted<K>(s: seq<(K, real)>, x: (K, real))
    requires SortedDesc(s)
    ensures SortedDesc(InsertDesc(s, x))
    decreases |s|
  {
    if s != [] && s[0].1 >= x.1 {
      InsertDescSorted(s[1..], x);
      var r := InsertDesc(s[1..], x);
      forall y | y in r ensures s[0].1 >= y.1 {
        assert y in multiset(r);
        if y != x {
          assert y in multiset(s[1..]);
        }
      }
    }
  }

  /** `sorted(items, key=value, reverse=True)`: a stable sort by decreasing
      value, items of equal value keeping their order. */
  function SortDesc<K(==)>(items: seq<(K, real)>): (r: seq<(K, real)>)
    ensures multiset(r) == multiset(items)
    ensures |r| == |items|
    decreases |items|
  {
    if items == [] then []
    else
      assert items == items[..|items| - 1] + [items[|items| - 1]];
      InsertDesc(SortDesc(items[..|items| - 1]), items[|items| - 1])
  }

  lemma {:induction false} SortDescSorted<K>(items: seq<(K, real)>)
    ensures SortedDesc(SortDesc(items))
    decreases |items|
  {
    if items != [] {
      SortDescSorted(items[..|items| - 1]);
      InsertDescSorted(SortDesc(items[..|items| - 1]), items[|items| - 1]);
    }
  }

  /** The items of a dictionary, in insertion order. */
  function Items<K>(keys: seq<K>, values: map<K, real>): (r: seq<(K, real)>)
    requires forall k :: k in keys ==> k in values
    ensures |r| == |keys| && forall j :: 0 <= j < |r| ==> r[j] == (keys[j], values[keys[j]])
  {
    seq(|keys|, j requires 0 <= j < |keys| => (keys[j], values[keys[j]]))
  }

  /** The keys of a list of items. */
  function KeysOf<K>(items: seq<(K, real)>): (r: seq<K>)
    ensures |r| == |items| && forall j :: 0 <= j < |r| ==> r[j] == items[j].0
  {
    seq(|items|, j requires 0 <= j < |items| => items[j].0)
  }

  /** Every sorted item is an item of the dictionary. */
  lemma SortedFromItems<K>(keys: seq<K>, values: map<K, real>)
    requires forall k :: k in keys ==> k in values
    ensures forall j :: 0 <= j < |keys| ==> SortDesc(Items(keys, values))[j] in Items(keys, values)
  {
    var items := Items(keys, values);
    var s := SortDesc(items);
    forall j | 0 <= j < |s| ensures s[j] in items {
      assert s[j] in multiset(items);
    }
  }

  /** Sorting pairs every key with its value in the dictionary. */
  lemma SortedValues<K>(keys: seq<K>, values: map<K, real>, s: seq<(K, real)>)
    requires (forall k :: k in keys ==> k in values) && s == SortDesc(Items(keys, values))
    ensures forall j :: 0 <= j < |s| ==> s[j].0 in keys && s[j].1 == values[s[j].0]
  {
    var items := Items(keys, values);
    SortedFromItems(keys, values);
    forall j | 0 <= j < |s| ensures s[j].0 in keys && s[j].1 == values[s[j].0] {
      var a :| 0 <= a < |items| && items[a] == s[j];
    }
  }

  /** Sorting loses no key. */
  lemma SortedKeys<K>(keys: seq<K>, values: map<K, real>)
    requires forall k :: k in keys ==> k in values
    ensures forall k :: k in KeysOf(SortDesc(Items(keys, values))) <==> k in keys
  {
    var items := Items(keys, values);
    var s := SortDesc(items);
    SortedValues(keys, values, s);
    forall k | k in keys ensures k in KeysOf(s) {
      var j :| 0 <= j < |keys| && keys[j] == k;
      assert items[j] in multiset(s);
      var p :| 0 <= p < |s| && s[p] == items[j];
      assert KeysOf(s)[p] == k;
    }
  }

  /** Sorting the items of a dictionary lists each key once. */
  lemma SortedKeysUnique<K>(keys: seq<K>, values: map<K, real>)
    requires Unique(keys) && forall k :: k in keys ==> k in values
    ensures Unique(KeysOf(SortDesc(Items(keys, values))))
  {
    var items := Items(keys, values);
    var s := SortDesc(items);
    SortedFromItems(keys, values);
    forall i, j | 0 <= i < j < |s| ensures KeysOf(s)[i] != KeysOf(s)[j] {
      if s[i].0 == s[j].0 {
        var a :| 0 <= a < |items| && items[a] == s[i];
        var b :| 0 <= b < |items| && items[b] == s[j];
        assert a == b;
        assert multiset(s)[s[i]] >= 2 by { TwiceCounted(s, i, j); }
        ItemsOnce(keys, values, a);
      }
    }
  }

  /** An element at two positions is counted at least twice. */
  lemma TwiceCounted<T>(s: seq<T>, i: nat, j: nat)
    requires i < j < |s| && s[i] == s[j]
    ensures multiset(s)[s[i]] >= 2
  {
    assert s == s[..i] + [s[i]] + s[i + 1..j] + [s[j]] + s[j + 1..];
  }

  /** In the items of a dictionary with distinct keys, an item occurs once. */
  lemma ItemsOnce<K>(keys: seq<K>, values: map<K, real>, a: nat)
    requires Unique(keys) && (forall k :: k in keys ==> k in values) && a < |keys|
    ensures multiset(Items(keys, values))[Items(keys, values)[a]] == 1
  {
    var items := Items(keys, values);
    var x := items[a];
    assert items == items[..a] + [x] + items[a + 1..];
    assert x !in items[..a] && x !in items[a + 1..];
  }

  /** In a sequence without repetitions, no element occurs before its own
      position. */
  lemma FreshInPrefix<K>(s: seq<K>, i: nat)
    requires Unique(s) && i < |s|
    ensures s[i] !in s[..i]
  {
  }

  /** The keys a beam of width `beam` keeps out of a dictionary: the first
      ones in decreasing order of value. */
  function Beamed<K(==)>(beam: Beam, keys: seq<K>, values: map<K, real>): (r: seq<K>)
    requires forall k :: k in keys ==> k in values
    ensures |r| == Take(beam, |keys|)
  {
    KeysOf(SortDesc(Items(keys, values)))[..Take(beam, |keys|)]
  }

  /** `beam_search(B, candidates_dict)`: the keys of the candidates in
      decreasing order of value, up to `B` of them. */
  method BeamSearch<K(==)>(beam: Beam, keys: seq<K>, values: map<K, real>) returns (chosen: seq<K>)
    requires Unique(keys) && forall k :: k in keys ==> k in values
    ensures chosen == Beamed(beam, keys, values)
  {
    var sorted := SortDesc(Items(keys, values));
    SortedKeysUnique(keys, values);
    chosen := [];
    var i := 0;
    while i < |sorted|
      invariant 0 <= i <= |sorted|
      invariant chosen == KeysOf(sorted)[..i]
      invariant beam.Width? && beam.n > 0 ==> i < beam.n
    {
      var key := sorted[i].0;
      FreshInPrefix(KeysOf(sorted), i);
      if key !in chosen {
        chosen := chosen + [key];
      }
      assert KeysOf(sorted)[..i + 1] == KeysOf(sorted)[..i] + [key];
      i := i + 1;
      if beam.Width? && |chosen| == beam.n {
        return chosen;
      }
    }
  }

  /** The beam keeps `min(B, n)` distinct candidates (all of them for an
      infinite beam), and no candidate left out scores higher than one
      kept. */
  lemma BeamKeepsBest<K>(beam: Beam, keys: seq<K>, values: map<K, real>)
    requires Unique(keys) && forall k :: k in keys ==> k in values
    ensures var chosen := Beamed(beam, keys, values);
      && |chosen| == Take(beam, |keys|) && Unique(chosen)
      && (forall a :: a in chosen ==> a in keys)
      && (forall a, b :: a in chosen && b in keys && b !in chosen ==> values[a] >= values[b])
  {
    var s := SortDesc(Items(keys, values));
    var n := Take(beam, |keys|);
    var chosen := KeysOf(s)[..n];
    SortDescSorted(Items(keys, values));
    SortedKeys(keys, values);
    SortedKeysUnique(keys, values);
    SortedValues(keys, values, s);
    forall a, b | a in chosen && b in keys && b !in chosen
      ensures values[a] >= values[b]
    {
      var i :| 0 <= i < n && chosen[i] == a;
      var j :| 0 <= j < |s| && KeysOf(s)[j] == b;
      assert s[i].0 == a && s[j].0 == b;
      assert s[i].1 >= s[j].1;
    }
  }

  /** The deterministic step of `memm_viterbi`: `;` and `--` are tagged
      `:`, other words keep the tag the recursion chose. */
  method Override(words: seq<string>, tags: seq<string>) returns (r: seq<string>)
    requires |tags| == |words|
    ensures |r| == |words|
    ensures forall i :: 0 <= i < |words| ==> r[i] == if words[i] in [";", "--"] then ":" else tags[i]
  {
    r := tags;
    var i := 0;
    while i < |words|
      invariant 0 <= i <= |words| && |r| == |words|
      invariant forall j :: 0 <= j < i ==> r[j] == if words[j] in [";", "--"] then ":" else tags[j]
      invariant forall j :: i <= j < |words| ==> r[j] == tags[j]
    {
      if words[i] in [";", "--"] {
        r := r[i := ":"];
      }
      i := i + 1;
    }
  }
}
