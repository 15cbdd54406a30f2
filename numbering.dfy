/** Numbering the kept keys of several dictionaries one after another, and
    merging the numbered dictionaries: the shape of `Feature2Id`, stated for
    any key type and any list of classes. */
module Numbering {
  import opened OrderedMaps

  /** The elements of `s` that pass `keep`, in order. */
  function Filter<K>(keep: K -> bool, s: seq<K>): (r: seq<K>)
    decreases |s|
  {
    if s == [] then [] else (if keep(s[0]) then [s[0]] else []) + Filter(keep, s[1..])
  }

  /** An element is kept exactly when it is in `s` and passes `keep`; a
      filter of distinct elements has distinct elements. */
  lemma {:induction false} FilterMembers<K>(keep: K -> bool, s: seq<K>)
    ensures forall x :: x in Filter(keep, s) <==> x in s && keep(x)
    ensures Unique(s) ==> Unique(Filter(keep, s))
    decreases |s|
  {
    if s != [] {
      FilterMembers(keep, s[1..]);
      assert s == [s[0]] + s[1..];
      if Unique(s) {
        assert s[0] !in s[1..];
        UniqueAppend(if keep(s[0]) then [s[0]] else [], Filter(keep, s[1..]));
      }
    }
  }

  lemma FilterStep<K>(keep: K -> bool, keys: seq<K>, i: nat)
    requires i < |keys|
    ensures keep(keys[i]) ==> Filter(keep, keys[i..]) == [keys[i]] + Filter(keep, keys[i + 1..])
    ensures !keep(keys[i]) ==> Filter(keep, keys[i..]) == Filter(keep, keys[i + 1..])
  {
    assert keys[i..][1..] == keys[i + 1..];
    assert [] + Filter(keep, keys[i + 1..]) == Filter(keep, keys[i + 1..]);
  }

  /** `d[key] = next`, `next += 1` for every key of `keys`, in order. */
  function Numbered<K>(d: OMap<K, nat>, keys: seq<K>, next: nat): (r: OMap<K, nat>)
    decreases |keys|
  {
    if keys == [] then d else Numbered(Store(d, keys[0], next), keys[1..], next + 1)
  }

  lemma NumberedStep<K>(d: OMap<K, nat>, s: seq<K>, x: K, next: nat, following: nat)
    requires following == next + 1
    ensures Numbered(d, [x] + s, next) == Numbered(Store(d, x, next), s, following)
  {
    assert ([x] + s)[1..] == s;
  }

  /** The loop of `set_index_class<cls>`: every key of `keys` that passes
      `keep` is stored in `d` under the number `next`, which then moves on;
      `next` starts at `n_class<cls> + n_total_features`. */
  method NumberKept<K>(keep: K -> bool, keys: seq<K>, d0: OMap<K, nat>, start: nat)
    returns (d: OMap<K, nat>, next: nat)
    requires OrderedMaps.Valid(d0)
    ensures OrderedMaps.Valid(d)
    ensures d == Numbered(d0, Filter(keep, keys), start)
    ensures next == start + |Filter(keep, keys)|
  {
    d, next := d0, start;
    var i := 0;
    while i < |keys|
      invariant 0 <= i <= |keys|
      invariant OrderedMaps.Valid(d)
      invariant Numbered(d, Filter(keep, keys[i..]), next) == Numbered(d0, Filter(keep, keys), start)
      invariant next + |Filter(keep, keys[i..])| == start + |Filter(keep, keys)|
    {
      FilterStep(keep, keys, i);
      if keep(keys[i]) {
        NumberedStep(d, Filter(keep, keys[i + 1..]), keys[i], next, next + 1);
        d := Put(d, keys[i], next);
        next := next + 1;
      }
      i := i + 1;
    }
    assert Filter(keep, keys[i..]) == [];
  }

  /** `m` holds exactly the keys of `s`, in that order, and gives the `j`-th
      of them the number `base + j`. */
  ghost predicate Dense<K>(m: OMap<K, nat>, s: seq<K>, base: nat) {
    && m.keys == s
    && forall j :: 0 <= j < |s| ==> s[j] in m.values && m.values[s[j]] == base + j
  }

  /** Numbering fresh distinct keys after a dense numbering extends it. */
  lemma {:induction false} NumberedDense<K>(m: OMap<K, nat>, s: seq<K>, base: nat, keys: seq<K>, next: nat)
    requires Dense(m, s, base) && Unique(s + keys) && next == base + |s|
    requires forall k :: k in m.values ==> k in s
    ensures Dense(Numbered(m, keys, next), s + keys, base)
    decreases |keys|
  {
    if keys == [] {
      assert s + keys == s;
    } else {
      var x := keys[0];
      FreshHead(s, keys);
      StoreDense(m, s, base, x);
      NumberedStep(m, keys[1..], x, next, base + |s + [x]|);
      NumberedDense(Store(m, x, next), s + [x], base, keys[1..], base + |s + [x]|);
    }
  }

  lemma FreshHead<K>(s: seq<K>, keys: seq<K>)
    requires Unique(s + keys) && keys != []
    ensures keys[0] !in s && s + [keys[0]] + keys[1..] == s + keys && keys == [keys[0]] + keys[1..]
  {
    forall j | 0 <= j < |s| ensures s[j] != keys[0] {
      assert (s + keys)[j] == s[j] && (s + keys)[|s|] == keys[0];
    }
  }

  lemma StoreDense<K>(m: OMap<K, nat>, s: seq<K>, base: nat, x: K)
    requires Dense(m, s, base) && x !in m.values
    ensures Dense(Store(m, x, base + |s|), s + [x], base)
  {
  }

  /** Numbering distinct keys from `start` on an empty dictionary lists them
      in order and gives the `j`-th of them the number `start + j`. */
  lemma NumberedFresh<K>(keys: seq<K>, start: nat)
    requires Unique(keys)
    ensures Dense(Numbered(Empty(), keys, start), keys, start)
  {
    assert [] + keys == keys;
    NumberedDense(Empty(), [], start, keys, start);
  }

  /** Both halves of a list of distinct elements are lists of distinct
      elements. */
  lemma UniqueSplit<K>(a: seq<K>, b: seq<K>)
    requires Unique(a + b)
    ensures Unique(a) && Unique(b)
  {
    forall i, j | 0 <= i < j < |a| ensures a[i] != a[j] {
      assert (a + b)[i] == a[i] && (a + b)[j] == a[j];
    }
    forall i, j | 0 <= i < j < |b| ensures b[i] != b[j] {
      assert (a + b)[|a| + i] == b[i] && (a + b)[|a| + j] == b[j];
    }
  }

  /** Disjoint lists of distinct elements concatenate to one. */
  lemma UniqueAppend<K>(a: seq<K>, b: seq<K>)
    requires Unique(a) && Unique(b) && forall x :: x in a ==> x !in b
    ensures Unique(a + b)
  {
    forall i, j | 0 <= i < j < |a + b| ensures (a + b)[i] != (a + b)[j] {
      if j >= |a| && i < |a| {
        assert (a + b)[i] in a && (a + b)[j] in b;
      }
    }
  }

  /** Merging a dense numbering of fresh keys, started right after the keys
      already densely indexed, extends the dense index by those keys. */
  lemma {:induction false} UpdateDense<K>(m: OMap<K, nat>, s: seq<K>, d: OMap<K, nat>, keys: seq<K>, n: nat)
    requires OrderedMaps.Valid(m) && OrderedMaps.Valid(d) && Dense(m, s, 0) && Dense(d, keys, |s|)
    requires Unique(s + keys) && n <= |keys|
    ensures Dense(Update(m, d, n), s + keys[..n], 0)
    decreases n
  {
    if n == 0 {
      assert s + keys[..0] == s;
    } else {
      var p := n - 1;
      UpdateDense(m, s, d, keys, p);
      FreshAt(s, keys, p);
      UpdateStep(m, d, p);
      PutDense(Update(m, d, p), s + keys[..p], keys[p], d.values[keys[p]]);
    }
  }

  lemma FreshAt<K>(s: seq<K>, keys: seq<K>, p: nat)
    requires Unique(s + keys) && p < |keys|
    ensures keys[p] !in s + keys[..p] && s + keys[..p + 1] == s + keys[..p] + [keys[p]]
  {
    var before := s + keys[..p];
    forall j | 0 <= j < |before| ensures before[j] != keys[p] {
      assert before[j] == (s + keys)[j] && keys[p] == (s + keys)[|s| + p];
    }
  }

  lemma PutDense<K>(m: OMap<K, nat>, s: seq<K>, x: K, v: nat)
    requires OrderedMaps.Valid(m) && Dense(m, s, 0) && x !in s && v == |s|
    ensures Dense(Put(m, x, v), s + [x], 0)
  {
  }

  /** The lists of `kept`, one after another. */
  function Joined<K>(kept: seq<seq<K>>): seq<K> {
    if kept == [] then [] else Joined(kept[..|kept| - 1]) + kept[|kept| - 1]
  }

  lemma JoinedStep<K>(kept: seq<seq<K>>, i: nat)
    requires i < |kept|
    ensures Joined(kept[..i + 1]) == Joined(kept[..i]) + kept[i]
  {
    assert kept[..i + 1][..i] == kept[..i];
  }

  /** An element is in the joined lists exactly when it is in one of them. */
  lemma {:induction false} JoinedMembers<K>(kept: seq<seq<K>>)
    ensures forall x :: x in Joined(kept) ==> exists j :: 0 <= j < |kept| && x in kept[j]
    ensures forall x, j :: 0 <= j < |kept| && x in kept[j] ==> x in Joined(kept)
    decreases |kept|
  {
    if kept != [] {
      var p := kept[..|kept| - 1];
      JoinedMembers(p);
      assert Joined(kept) == Joined(p) + kept[|kept| - 1];
      forall x | x in Joined(kept) ensures exists j :: 0 <= j < |kept| && x in kept[j] {
        if x !in kept[|kept| - 1] {
          assert x in Joined(p);
          var j :| 0 <= j < |p| && x in p[j];
          assert kept[j] == p[j];
        }
      }
      forall x, j | 0 <= j < |kept| && x in kept[j] ensures x in Joined(kept) {
        if j < |p| {
          assert p[j] == kept[j];
        }
      }
    }
  }

  /** Lists of distinct elements that share no element join into one. */
  lemma {:induction false} JoinedUnique<K>(kept: seq<seq<K>>)
    requires forall j :: 0 <= j < |kept| ==> Unique(kept[j])
    requires forall i, j, x :: 0 <= i < j < |kept| && x in kept[i] ==> x !in kept[j]
    ensures Unique(Joined(kept))
    decreases |kept|
  {
    if kept != [] {
      var p := kept[..|kept| - 1];
      JoinedUnique(p);
      JoinedMembers(p);
      assert Joined(kept) == Joined(p) + kept[|kept| - 1];
      forall x | x in Joined(p) ensures x !in kept[|kept| - 1] {
        var j :| 0 <= j < |p| && x in p[j];
        assert x in kept[j];
      }
      UniqueAppend(Joined(p), kept[|kept| - 1]);
    }
  }

  /** The kept keys of every class. */
  function FilterAll<K>(keep: seq<K -> bool>, keys: seq<seq<K>>): (r: seq<seq<K>>)
    requires |keep| == |keys|
    ensures |r| == |keys| && forall j :: 0 <= j < |r| ==> r[j] == Filter(keep[j], keys[j])
  {
    seq(|keys|, j requires 0 <= j < |keys| => Filter(keep[j], keys[j]))
  }

  /** The classes `cs[..i]` are indexed one after another from empty
      dictionaries, class `cs[j]` keeping the keys `kept[j]`: class `j`
      numbers its kept keys right after those of the classes before it, the
      later classes are untouched, and `total` counts every key kept so
      far. */
  ghost predicate IndexedUpTo<C, K>(cs: seq<C>, kept: seq<seq<K>>,
                                    index: map<C, OMap<K, nat>>, count: map<C, nat>, total: nat, i: nat)
    requires |kept| == |cs| && i <= |cs|
  {
    && (forall c :: c in cs ==> c in index && c in count)
    && total == |Joined(kept[..i])|
    && (forall j :: 0 <= j < i ==>
          && OrderedMaps.Valid(index[cs[j]])
          && index[cs[j]] == Numbered(Empty(), kept[j], |Joined(kept[..j])|)
          && count[cs[j]] == |kept[j]|)
    && (forall j :: i <= j < |cs| ==> index[cs[j]] == Empty() && count[cs[j]] == 0)
  }

  /** Indexing class `cs[i]` after the classes before it: its kept keys
      numbered from `count[cs[i]] + total` into `index[cs[i]]` give `d`, and
      the numbering ends at `next`. */
  lemma IndexedStep<C, K>(cs: seq<C>, kept: seq<seq<K>>,
                          index: map<C, OMap<K, nat>>, count: map<C, nat>, total: nat, i: nat,
                          d: OMap<K, nat>, next: nat)
    requires |kept| == |cs| && i < |cs| && Unique(cs)
    requires IndexedUpTo(cs, kept, index, count, total, i)
    requires OrderedMaps.Valid(d) && d == Numbered(index[cs[i]], kept[i], count[cs[i]] + total)
    requires next == count[cs[i]] + total + |kept[i]|
    ensures next >= total
    ensures IndexedUpTo(cs, kept, index[cs[i] := d], count[cs[i] := next - total], next, i + 1)
  {
    var index', count' := index[cs[i] := d], count[cs[i] := next - total];
    assert index[cs[i]] == Empty() && count[cs[i]] == 0;
    JoinedStep(kept, i);
    assert next == |Joined(kept[..i + 1])|;
    forall j | 0 <= j < i + 1
      ensures OrderedMaps.Valid(index'[cs[j]])
      ensures index'[cs[j]] == Numbered(Empty(), kept[j], |Joined(kept[..j])|)
      ensures count'[cs[j]] == |kept[j]|
    {
      if j < i {
        assert cs[j] != cs[i];
      }
    }
    forall j | i + 1 <= j < |cs| ensures index'[cs[j]] == Empty() && count'[cs[j]] == 0 {
      assert cs[j] != cs[i];
    }
  }

  /** Index the classes `cs`, in order, starting from empty dictionaries:
      class `cs[i]` keeps the keys of `keys[i]` that pass `keep[i]`. */
  method IndexAll<C, K>(cs: seq<C>, keep: seq<K -> bool>, keys: seq<seq<K>>, index0: map<C, OMap<K, nat>>, count0: map<C, nat>)
    returns (index: map<C, OMap<K, nat>>, count: map<C, nat>, total: nat)
    requires |keep| == |cs| == |keys| && Unique(cs)
    requires forall c :: c in cs ==> c in index0 && index0[c] == Empty() && c in count0 && count0[c] == 0
    ensures IndexedUpTo(cs, FilterAll(keep, keys), index, count, total, |cs|)
  {
    ghost var kept := FilterAll(keep, keys);
    index, count, total := index0, count0, 0;
    var i := 0;
    while i < |cs|
      invariant 0 <= i <= |cs|
      invariant IndexedUpTo(cs, kept, index, count, total, i)
    {
      var d, next := NumberKept(keep[i], keys[i], index[cs[i]], count[cs[i]] + total);
      IndexedStep(cs, kept, index, count, total, i, d, next);
      index, count, total := index[cs[i] := d], count[cs[i] := next - total], next;
      i := i + 1;
    }
  }

  /** `m.update(d)` with the dictionaries of the first `n` classes of `cs`,
      in order. */
  function UpdateAll<C, K>(m: OMap<K, nat>, index: map<C, OMap<K, nat>>, cs: seq<C>, n: nat): (r: OMap<K, nat>)
    requires OrderedMaps.Valid(m) && n <= |cs|
    requires forall j :: 0 <= j < |cs| ==> cs[j] in index && OrderedMaps.Valid(index[cs[j]])
    ensures OrderedMaps.Valid(r)
  {
    if n == 0 then m
    else
      var d := index[cs[n - 1]];
      Update(UpdateAll(m, index, cs, n - 1), d, |d.keys|)
  }

  lemma UpdateAllStep<C, K>(m: OMap<K, nat>, index: map<C, OMap<K, nat>>, cs: seq<C>, n: nat)
    requires OrderedMaps.Valid(m) && n < |cs|
    requires forall j :: 0 <= j < |cs| ==> cs[j] in index && OrderedMaps.Valid(index[cs[j]])
    ensures UpdateAll(m, index, cs, n + 1) == Update(UpdateAll(m, index, cs, n), index[cs[n]], |index[cs[n]].keys|)
  {
  }

  /** Merge the class dictionaries into `m`, class after class. */
  method MergeAll<C, K>(m: OMap<K, nat>, index: map<C, OMap<K, nat>>, cs: seq<C>) returns (r: OMap<K, nat>)
    requires OrderedMaps.Valid(m)
    requires forall j :: 0 <= j < |cs| ==> cs[j] in index && OrderedMaps.Valid(index[cs[j]])
    ensures r == UpdateAll(m, index, cs, |cs|)
  {
    r := m;
    var n := 0;
    while n < |cs|
      invariant 0 <= n <= |cs|
      invariant OrderedMaps.Valid(r)
      invariant r == UpdateAll(m, index, cs, n)
    {
      UpdateAllStep(m, index, cs, n);
      r := Merge(r, index[cs[n]]);
      n := n + 1;
    }
  }

  /** Once every class is indexed, each class dictionary holds a valid
      dictionary. */
  lemma IndexedValid<C, K>(cs: seq<C>, kept: seq<seq<K>>,
                           index: map<C, OMap<K, nat>>, count: map<C, nat>, total: nat)
    requires |kept| == |cs| && IndexedUpTo(cs, kept, index, count, total, |cs|)
    ensures forall j :: 0 <= j < |cs| ==> cs[j] in index && OrderedMaps.Valid(index[cs[j]])
  {
  }

  /** Merging the dictionaries of the first `n` classes, indexed one after
      another, numbers their kept keys densely from 0, provided no key is
      kept twice. */
  lemma {:induction false} MergeDense<C, K>(cs: seq<C>, kept: seq<seq<K>>,
                                            index: map<C, OMap<K, nat>>, count: map<C, nat>, total: nat, n: nat)
    requires |kept| == |cs| && n <= |cs|
    requires IndexedUpTo(cs, kept, index, count, total, |cs|)
    requires forall j :: 0 <= j < |cs| ==> cs[j] in index && OrderedMaps.Valid(index[cs[j]])
    requires Unique(Joined(kept[..n]))
    ensures Dense(UpdateAll(Empty(), index, cs, n), Joined(kept[..n]), 0)
    decreases n
  {
    if n == 0 {
      assert kept[..0] == [];
    } else {
      var p := n - 1;
      JoinedStep(kept, p);
      var before := Joined(kept[..p]);
      UniqueSplit(before, kept[p]);
      MergeDense(cs, kept, index, count, total, p);
      NumberedFresh(kept[p], |before|);
      UpdateDense(UpdateAll(Empty(), index, cs, p), before, index[cs[p]], kept[p], |kept[p]|);
      assert kept[p][..|kept[p]|] == kept[p];
    }
  }
}
