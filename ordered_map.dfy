/** Python's insertion-ordered dictionary (`OrderedDict`, and `dict` since
    Python 3.7): a map together with the order in which its keys were first
    inserted. Counting dictionaries (`d[k] = 1` / `d[k] += 1`) are folds of
    `Increment` over the stream of keys they were fed. */
module OrderedMaps {

  datatype OMap<K, V> = OMap(keys: seq<K>, values: map<K, V>)

  /** No element is listed twice. */
  predicate Unique<K(==)>(s: seq<K>) {
    forall i, j :: 0 <= i < j < |s| ==> s[i] != s[j]
  }

  /** The keys are listed once each, and they are exactly the map's domain. */
  ghost predicate Valid<K, V>(m: OMap<K, V>) {
    && Unique(m.keys)
    && m.values.Keys == set k | k in m.keys
  }

  function Empty<K, V>(): (m: OMap<K, V>)
    ensures Valid(m) && m.keys == [] && m.values == map[]
  {
    OMap([], map[])
  }

  /** `d[k] = v`: a new key goes to the end, an existing key keeps its place. */
  function Store<K, V>(m: OMap<K, V>, k: K, v: V): OMap<K, V> {
    if k in m.values then OMap(m.keys, m.values[k := v]) else OMap(m.keys + [k], m.values[k := v])
  }

  /** `Store` on a valid dictionary, which it keeps valid. */
  function Put<K, V>(m: OMap<K, V>, k: K, v: V): (r: OMap<K, V>)
    requires Valid(m)
    ensures Valid(r)
    ensures r.values == m.values[k := v]
    ensures r.keys == if k in m.values then m.keys else m.keys + [k]
  {
    Store(m, k, v)
  }

  /** The first `n` keys of `d`, in the order of `d`, each set to its value
      in `d`: with `n == |d.keys|`, `m.update(d)`. */
  function Update<K, V>(m: OMap<K, V>, d: OMap<K, V>, n: nat): (r: OMap<K, V>)
    requires Valid(m) && Valid(d) && n <= |d.keys|
    ensures Valid(r)
  {
    if n == 0 then m
    else
      assert d.keys[n - 1] in d.values;
      Put(Update(m, d, n - 1), d.keys[n - 1], d.values[d.keys[n - 1]])
  }

  lemma UpdateStep<K, V>(m: OMap<K, V>, d: OMap<K, V>, n: nat)
    requires Valid(m) && Valid(d) && n < |d.keys|
    ensures d.keys[n] in d.values
    ensures Update(m, d, n + 1) == Put(Update(m, d, n), d.keys[n], d.values[d.keys[n]])
  {
  }

  /** `m.update(d)`, one key at a time. */
  method Merge<K, V>(m: OMap<K, V>, d: OMap<K, V>) returns (r: OMap<K, V>)
    requires Valid(m) && Valid(d)
    ensures r == Update(m, d, |d.keys|)
  {
    r := m;
    var j := 0;
    while j < |d.keys|
      invariant 0 <= j <= |d.keys|
      invariant Valid(r) && r == Update(m, d, j)
    {
      UpdateStep(m, d, j);
      var k := d.keys[j];
      r := Put(r, k, d.values[k]);
      j := j + 1;
    }
  }

  /** One step of the counting idiom of the counting methods: a first sighting
      stores 1, a later one adds 1. */
  function Increment<K>(m: OMap<K, nat>, k: K): (r: OMap<K, nat>)
    requires Valid(m)
    ensures Valid(r)
    ensures k in r.values && r.values[k] == (if k in m.values then m.values[k] + 1 else 1)
    ensures r.values.Keys == m.values.Keys + {k}
    ensures forall x :: x != k && x in m.values ==> r.values[x] == m.values[x]
  {
    if k in m.values then Put(m, k, m.values[k] + 1) else Put(m, k, 1)
  }

  /** Feed every key of `s`, in order, to `Increment`. */
  function Tally<K>(m: OMap<K, nat>, s: seq<K>): (r: OMap<K, nat>)
    requires Valid(m)
    ensures Valid(r)
    decreases |s|
  {
    if s == [] then m else Increment(Tally(m, s[..|s| - 1]), s[|s| - 1])
  }

  /** Number of occurrences of `x` in `s`. */
  function Occ<K(==)>(s: seq<K>, x: K): nat
    decreases |s|
  {
    if s == [] then 0 else Occ(s[..|s| - 1], x) + (if s[|s| - 1] == x then 1 else 0)
  }

  /** The distinct elements of `s`, in order of first occurrence. */
  function Dedup<K(==)>(s: seq<K>): seq<K>
    decreases |s|
  {
    if s == [] then [] else
      var d := Dedup(s[..|s| - 1]);
      if s[|s| - 1] in d then d else d + [s[|s| - 1]]
  }

  lemma {:induction false} DedupElements<K>(s: seq<K>)
    ensures forall x :: x in Dedup(s) <==> x in s
    decreases |s|
  {
    if s != [] {
      DedupElements(s[..|s| - 1]);
      assert s == s[..|s| - 1] + [s[|s| - 1]];
    }
  }

  lemma {:induction false} OccPositive<K>(s: seq<K>, x: K)
    ensures Occ(s, x) > 0 <==> x in s
    decreases |s|
  {
    if s != [] {
      OccPositive(s[..|s| - 1], x);
      assert s == s[..|s| - 1] + [s[|s| - 1]];
    }
  }

  lemma {:induction false} OccAppend<K>(a: seq<K>, b: seq<K>, x: K)
    ensures Occ(a + b, x) == Occ(a, x) + Occ(b, x)
    decreases |b|
  {
    if b == [] {
      assert a + b == a;
    } else {
      assert (a + b)[..|a + b| - 1] == a + b[..|b| - 1];
      OccAppend(a, b[..|b| - 1], x);
    }
  }

  /** Counting starting from an empty dictionary yields, for every key, its
      number of occurrences, and lists the keys in order of first occurrence. */
  lemma TallyCounts<K>(s: seq<K>)
    ensures Tally(Empty(), s).keys == Dedup(s)
    ensures Tally(Empty(), s).values.Keys == (set x | x in s)
    ensures forall x :: x in Tally(Empty(), s).values ==> Tally(Empty(), s).values[x] == Occ(s, x)
  {
    TallyKeys(Empty(), s);
    TallyOrder(s);
    TallyOcc(s);
  }

  lemma {:induction false} TallyOrder<K>(s: seq<K>)
    ensures Tally(Empty(), s).keys == Dedup(s)
    decreases |s|
  {
    if s != [] {
      var p := s[..|s| - 1];
      TallyOrder(p);
      TallyKeys(Empty(), p);
      DedupElements(p);
    }
  }

  lemma {:induction false} TallyOcc<K>(s: seq<K>)
    ensures forall x :: x in Tally(Empty(), s).values ==> Tally(Empty(), s).values[x] == Occ(s, x)
    decreases |s|
  {
    if s != [] {
      var p := s[..|s| - 1];
      TallyOcc(p);
      TallyKeys(Empty(), p);
      forall x | x in Tally(Empty(), s).values
        ensures Tally(Empty(), s).values[x] == Occ(s, x)
      {
        OccPositive(p, x);
      }
    }
  }

  lemma {:induction false} TallyAppend<K>(m: OMap<K, nat>, a: seq<K>, b: seq<K>)
    requires Valid(m)
    ensures Tally(m, a + b) == Tally(Tally(m, a), b)
    decreases |b|
  {
    if b == [] {
      assert a + b == a;
    } else {
      assert (a + b)[..|a + b| - 1] == a + b[..|b| - 1];
      TallyAppend(m, a, b[..|b| - 1]);
    }
  }

  /** Counting adds exactly the keys counted to the dictionary. */
  lemma {:induction false} TallyKeys<K>(m: OMap<K, nat>, s: seq<K>)
    requires Valid(m)
    ensures Tally(m, s).values.Keys == m.values.Keys + (set x | x in s)
    decreases |s|
  {
    if s != [] {
      LastSplit(s);
      TallyKeys(m, s[..|s| - 1]);
    }
  }

  /** Every count produced by counting is at least one. */
  lemma TallyPositive<K>(s: seq<K>)
    ensures forall x :: x in Tally(Empty(), s).values ==> Tally(Empty(), s).values[x] >= 1
  {
    TallyCounts(s);
    forall x | x in Tally(Empty(), s).values
      ensures Tally(Empty(), s).values[x] >= 1
    {
      OccPositive(s, x);
    }
  }

  lemma LastSplit<K>(s: seq<K>)
    requires s != []
    ensures s == s[..|s| - 1] + [s[|s| - 1]]
  {
  }
}
