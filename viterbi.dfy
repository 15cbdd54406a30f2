/** `memm_viterbi`: the second-order Viterbi recursion of the tagger with a
    beam. The scores `pi` and back pointers `bp` are dictionaries keyed by
    `(k, u, v)` (position, previous tag, tag); `before_u` maps each tag `u`
    kept at the last position to the tags `t` kept before it. The
    probabilities `q[(k, t, u)][v]` are a parameter: the softmax that
    produces them is floating point and is not part of this model. */
module Viterbi {
  import opened OrderedMaps
  import opened Decoder

  type Key = (int, string, string)
  type Scores = map<Key, real>
  type Backs = map<Key, string>
  /** `before_u`: for each kept tag, the kept tags that precede it. */
  type Before = OMap<string, seq<string>>
  /** `q_params[(k, t, u)][v]`. */
  type Q = (nat, string, string, string) -> real

  /** `max_t` / `argmax_t` of the inner loop: nothing seen yet (`-inf`,
      `None`), or the best value and the element that first reached it. */
  datatype Choice<T> = NoChoice | Choice(value: real, arg: T)

  /** The scan `if current > max_t: max_t, argmax_t = current, t` over `xs`. */
  function ArgMax<T>(xs: seq<T>, f: T -> real): Choice<T>
    decreases |xs|
  {
    if xs == [] then NoChoice
    else
      var c := ArgMax(xs[..|xs| - 1], f);
      var x := xs[|xs| - 1];
      if c.NoChoice? || f(x) > c.value then Choice(f(x), x) else c
  }

  /** The scan finds something exactly when there is something to scan, and
      what it finds is an element together with its value. */
  lemma {:induction false} ArgMaxFound<T>(xs: seq<T>, f: T -> real)
    ensures ArgMax(xs, f).Choice? <==> |xs| > 0
    ensures ArgMax(xs, f).Choice? ==> ArgMax(xs, f).arg in xs && f(ArgMax(xs, f).arg) == ArgMax(xs, f).value
    decreases |xs|
  {
    if xs != [] {
      ArgMaxFound(xs[..|xs| - 1], f);
    }
  }

  /** No element scores more than the value the scan finds. */
  lemma {:induction false} ArgMaxBound<T>(xs: seq<T>, f: T -> real, x: T)
    requires x in xs
    ensures ArgMax(xs, f).Choice? && f(x) <= ArgMax(xs, f).value
    decreases |xs|
  {
    var init := xs[..|xs| - 1];
    if x in init {
      ArgMaxBound(init, f, x);
    } else {
      assert x == xs[|xs| - 1];
    }
  }

  /** Ties go to the element seen first: the element found occurs no later
      than any element that reaches the same value. */
  lemma {:induction false} ArgMaxFirst<T>(xs: seq<T>, f: T -> real, j: nat)
    requires j < |xs| && ArgMax(xs, f).Choice? && f(xs[j]) == ArgMax(xs, f).value
    ensures ArgMax(xs, f).arg in xs[..j + 1]
    decreases |xs|
  {
    var init := xs[..|xs| - 1];
    var c := ArgMax(init, f);
    var x := xs[|xs| - 1];
    if c.NoChoice? || f(x) > c.value {
      if j < |init| {
        ArgMaxBound(init, f, init[j]);
      }
    } else if j < |init| {
      ArgMaxFirst(init, f, j);
      assert init[..j + 1] == xs[..j + 1];
    } else {
      ArgMaxFound(init, f);
    }
  }

  /** The scan depends only on the values of the elements scanned. */
  lemma {:induction false} ArgMaxSame<T>(xs: seq<T>, f: T -> real, g: T -> real)
    requires forall x :: x in xs ==> f(x) == g(x)
    ensures ArgMax(xs, f) == ArgMax(xs, g)
    decreases |xs|
  {
    if xs != [] {
      ArgMaxSame(xs[..|xs| - 1], f, g);
    }
  }

  /** `pi[(k - 1, t, u)] * q_params[(k, t, u)][v]` as a function of `t`
      (only ever applied to a `t` for which `pi` has the key). */
  function ScoreOf(pi: Scores, q: Q, k: nat, u: string, v: string): string -> real {
    t => if (k - 1, t, u) in pi then pi[(k - 1, t, u)] * q(k, t, u, v) else 0.0
  }

  /** The best predecessor of `(u, v)` at position `k` among `ts`. */
  function Best(pi: Scores, q: Q, k: nat, u: string, v: string, ts: seq<string>): Choice<string> {
    ArgMax(ts, ScoreOf(pi, q, k, u, v))
  }

  /** `(k - 1, t, u)` is kept: `t` is listed before `u` in `before_u`. */
  ghost predicate InBeam(o: Before, t: string, u: string) {
    u in o.values && t in o.values[u]
  }

  /** A `before_u` that the recursion can continue from: a valid dictionary
      with at least one tag, each with at least one predecessor. */
  ghost predicate Filled(o: Before) {
    Valid(o) && |o.keys| > 0 && forall u :: u in o.values ==> |o.values[u]| > 0
  }

  /** `before_u = dict({"*": ["*"]})`. */
  function Start(): (o: Before)
    ensures Filled(o) && forall t, u :: InBeam(o, t, u) <==> t == "*" && u == "*"
  {
    OMap(["*"], map["*" := ["*"]])
  }

  /** The inner loop over `t in list_of_ts` for one `(u, v)`. */
  method MaxOverT(pi: Scores, q: Q, k: nat, u: string, v: string, ts: seq<string>) returns (c: Choice<string>)
    requires forall t :: t in ts ==> (k - 1, t, u) in pi
    ensures c == Best(pi, q, k, u, v, ts)
  {
    c := NoChoice;
    var i := 0;
    while i < |ts|
      invariant 0 <= i <= |ts|
      invariant c == Best(pi, q, k, u, v, ts[..i])
    {
      var t := ts[i];
      assert t in ts;
      var current := pi[(k - 1, t, u)] * q(k, t, u, v);
      if c.NoChoice? || current > c.value {
        c := Choice(current, t);
      }
      assert ts[..i + 1][..i] == ts[..i];
      i := i + 1;
    }
    assert ts[..i] == ts;
  }

  /** The keys `(k, u, v)` for `v` in `Y`, in the order of `Y`. */
  function RowKeys(k: nat, u: string, ys: seq<string>): (r: seq<Key>)
    ensures |r| == |ys| && forall j :: 0 <= j < |ys| ==> r[j] == (k, u, ys[j])
  {
    seq(|ys|, j requires 0 <= j < |ys| => (k, u, ys[j]))
  }

  /** The keys of `pi_temporary` after the rows of the tags `us`. */
  function CandidateKeys(k: nat, us: seq<string>, ys: seq<string>): seq<Key>
    decreases |us|
  {
    if us == [] then [] else CandidateKeys(k, us[..|us| - 1], ys) + RowKeys(k, us[|us| - 1], ys)
  }

  /** `pi_temporary` after the loop over `v in ys` for one `u`: a score for
      every `(k, u, v)` whose list of predecessors `ts` is not empty. */
  function RowScores(pi: Scores, q: Q, k: nat, u: string, ts: seq<string>, ys: seq<string>,
                     temp: OMap<Key, real>): OMap<Key, real>
    decreases |ys|
  {
    if ys == [] then temp
    else
      var r := RowScores(pi, q, k, u, ts, ys[..|ys| - 1], temp);
      var c := Best(pi, q, k, u, ys[|ys| - 1], ts);
      if c.Choice? then Store(r, (k, u, ys[|ys| - 1]), c.value) else r
  }

  /** `bp_temporary` after the same loop. */
  function RowBacks(pi: Scores, q: Q, k: nat, u: string, ts: seq<string>, ys: seq<string>, back: Backs): Backs
    decreases |ys|
  {
    if ys == [] then back
    else
      var rb := RowBacks(pi, q, k, u, ts, ys[..|ys| - 1], back);
      var c := Best(pi, q, k, u, ys[|ys| - 1], ts);
      if c.Choice? then rb[(k, u, ys[|ys| - 1]) := c.arg] else rb
  }

  /** A row appends the keys `(k, u, v)` in the order of `Y` (none when `u`
      has no predecessor), and keeps the dictionary valid. */
  lemma {:induction false} RowOrder(pi: Scores, q: Q, k: nat, u: string, ts: seq<string>, ys: seq<string>,
                                    temp: OMap<Key, real>)
    requires Unique(ys) && Valid(temp)
    requires forall key :: key in temp.values ==> key.1 != u
    ensures Valid(RowScores(pi, q, k, u, ts, ys, temp))
    ensures RowScores(pi, q, k, u, ts, ys, temp).keys == temp.keys + (if |ts| > 0 then RowKeys(k, u, ys) else [])
    decreases |ys|
  {
    if ys != [] {
      var init := ys[..|ys| - 1];
      var v := ys[|ys| - 1];
      RowOrder(pi, q, k, u, ts, init, temp);
      ArgMaxFound(ts, ScoreOf(pi, q, k, u, v));
      if |ts| > 0 {
        RowOrderStep(RowScores(pi, q, k, u, ts, init, temp), temp, k, u, ys, Best(pi, q, k, u, v, ts).value);
      }
    }
  }

  /** One more `v` in a row: a fresh key, stored at the end. */
  lemma RowOrderStep(r: OMap<Key, real>, temp: OMap<Key, real>, k: nat, u: string, ys: seq<string>, x: real)
    requires Unique(ys) && |ys| > 0 && Valid(temp) && Valid(r)
    requires forall key :: key in temp.values ==> key.1 != u
    requires r.keys == temp.keys + RowKeys(k, u, ys[..|ys| - 1])
    ensures Valid(Store(r, (k, u, ys[|ys| - 1]), x))
    ensures Store(r, (k, u, ys[|ys| - 1]), x).keys == temp.keys + RowKeys(k, u, ys)
  {
    var v := ys[|ys| - 1];
    var init := ys[..|ys| - 1];
    assert (k, u, v) !in RowKeys(k, u, init);
    assert (k, u, v) !in r.values;
    assert Store(r, (k, u, v), x) == Put(r, (k, u, v), x);
    assert RowKeys(k, u, ys) == RowKeys(k, u, init) + [(k, u, v)];
  }

  /** A row keeps the entries of the earlier rows. */
  lemma {:induction false} RowKeeps(pi: Scores, q: Q, k: nat, u: string, ts: seq<string>, ys: seq<string>,
                                    temp: OMap<Key, real>, back: Backs)
    requires temp.values.Keys == back.Keys
    requires forall key :: key in temp.values ==> key.1 != u
    ensures var r := RowScores(pi, q, k, u, ts, ys, temp); var rb := RowBacks(pi, q, k, u, ts, ys, back);
      && r.values.Keys == rb.Keys && temp.values.Keys <= r.values.Keys
      && (forall key :: key in temp.values ==> r.values[key] == temp.values[key] && rb[key] == back[key])
    decreases |ys|
  {
    if ys != [] {
      RowKeeps(pi, q, k, u, ts, ys[..|ys| - 1], temp, back);
    }
  }

  /** A row scores each new `(k, u, v)` by the best predecessor of `u`, and
      records that predecessor as its back pointer. */
  lemma {:induction false} RowValues(pi: Scores, q: Q, k: nat, u: string, ts: seq<string>, ys: seq<string>,
                                     temp: OMap<Key, real>, back: Backs)
    requires temp.values.Keys == back.Keys
    ensures var r := RowScores(pi, q, k, u, ts, ys, temp); var rb := RowBacks(pi, q, k, u, ts, ys, back);
      forall key :: key in r.values && key !in temp.values ==>
        key.0 == k && key.1 == u && key.2 in ys && |ts| > 0 && key in rb
        && r.values[key] == Best(pi, q, k, u, key.2, ts).value && rb[key] == Best(pi, q, k, u, key.2, ts).arg
    decreases |ys|
  {
    if ys != [] {
      var init := ys[..|ys| - 1];
      RowValues(pi, q, k, u, ts, init, temp, back);
      ArgMaxFound(ts, ScoreOf(pi, q, k, u, ys[|ys| - 1]));
    }
  }

  /** The best predecessor depends only on the scores of `(k - 1, t, u)`
      for the listed `t`. */
  lemma BestSame(pi: Scores, pi': Scores, q: Q, k: nat, u: string, v: string, ts: seq<string>)
    requires forall t :: t in ts ==> (k - 1, t, u) in pi && (k - 1, t, u) in pi' && pi'[(k - 1, t, u)] == pi[(k - 1, t, u)]
    ensures Best(pi', q, k, u, v, ts) == Best(pi, q, k, u, v, ts)
  {
    forall t | t in ts ensures ScoreOf(pi', q, k, u, v)(t) == ScoreOf(pi, q, k, u, v)(t) {
    }
    ArgMaxSame(ts, ScoreOf(pi', q, k, u, v), ScoreOf(pi, q, k, u, v));
  }

  /** A row computed while `pi` changes elsewhere is the same row: it reads
      only the scores of `(k - 1, t, u)`. */
  lemma {:induction false} RowSame(pi: Scores, pi': Scores, q: Q, k: nat, u: string, ts: seq<string>,
                                   ys: seq<string>, temp: OMap<Key, real>, back: Backs)
    requires forall t :: t in ts ==> (k - 1, t, u) in pi && (k - 1, t, u) in pi' && pi'[(k - 1, t, u)] == pi[(k - 1, t, u)]
    ensures RowScores(pi', q, k, u, ts, ys, temp) == RowScores(pi, q, k, u, ts, ys, temp)
    ensures RowBacks(pi', q, k, u, ts, ys, back) == RowBacks(pi, q, k, u, ts, ys, back)
    decreases |ys|
  {
    if ys != [] {
      RowSame(pi, pi', q, k, u, ts, ys[..|ys| - 1], temp, back);
      BestSame(pi, pi', q, k, u, ys[|ys| - 1], ts);
    }
  }

  /** The loop over `v in Y` for one `u` with its predecessors `ts`. */
  method ScoreRow(pi: Scores, q: Q, k: nat, u: string, ts: seq<string>, ys: seq<string>,
                  temp: OMap<Key, real>, back: Backs)
    returns (r: OMap<Key, real>, rb: Backs)
    requires forall t :: t in ts ==> (k - 1, t, u) in pi
    ensures r == RowScores(pi, q, k, u, ts, ys, temp) && rb == RowBacks(pi, q, k, u, ts, ys, back)
  {
    r, rb := temp, back;
    var j := 0;
    while j < |ys|
      invariant 0 <= j <= |ys|
      invariant r == RowScores(pi, q, k, u, ts, ys[..j], temp) && rb == RowBacks(pi, q, k, u, ts, ys[..j], back)
    {
      var v := ys[j];
      var c := MaxOverT(pi, q, k, u, v, ts);
      assert ys[..j + 1][..j] == ys[..j];
      if c.Choice? {
        r := Store(r, (k, u, v), c.value);
        rb := rb[(k, u, v) := c.arg];
      }
      j := j + 1;
    }
    assert ys[..j] == ys;
  }

  /** `before_u[key[2]].append(key[1])`, creating the list when needed. */
  function Append(o: Before, u: string, t: string): Before {
    if u in o.values then OMap(o.keys, o.values[u := o.values[u] + [t]])
    else OMap(o.keys + [u], o.values[u := [t]])
  }

  /** The `before_u` built from the chosen keys, in their order. */
  function Group(chosen: seq<Key>): Before
    decreases |chosen|
  {
    if chosen == [] then Empty()
    else
      var key := chosen[|chosen| - 1];
      Append(Group(chosen[..|chosen| - 1]), key.2, key.1)
  }

  /** The grouping lists exactly the chosen pairs, under valid keys and
      with no empty list. */
  lemma {:induction false} GroupSpec(chosen: seq<Key>, k: int)
    requires forall key :: key in chosen ==> key.0 == k
    ensures Valid(Group(chosen)) && (|chosen| > 0 ==> Filled(Group(chosen)))
    ensures forall t, u :: InBeam(Group(chosen), t, u) <==> (k, t, u) in chosen
    decreases |chosen|
  {
    if chosen != [] {
      var init := chosen[..|chosen| - 1];
      var key := chosen[|chosen| - 1];
      GroupSpec(init, k);
      assert forall x :: x in chosen <==> x in init || x == key;
    }
  }

  /** `d[key] = src[key]` for each chosen key in turn. */
  function Overwrite<V>(m: map<Key, V>, chosen: seq<Key>, src: map<Key, V>): map<Key, V>
    requires forall key :: key in chosen ==> key in src
    decreases |chosen|
  {
    if chosen == [] then m
    else
      var key := chosen[|chosen| - 1];
      Overwrite(m, chosen[..|chosen| - 1], src)[key := src[key]]
  }

  /** Overwriting adds the chosen keys with their values from the source
      and keeps every other entry. */
  lemma {:induction false} OverwriteSpec<V>(m: map<Key, V>, chosen: seq<Key>, src: map<Key, V>)
    requires forall key :: key in chosen ==> key in src
    ensures forall key :: key in Overwrite(m, chosen, src) <==> key in m || key in chosen
    ensures forall key :: key in Overwrite(m, chosen, src) ==>
      Overwrite(m, chosen, src)[key] == if key in chosen then src[key] else m[key]
    decreases |chosen|
  {
    if chosen != [] {
      var init := chosen[..|chosen| - 1];
      OverwriteSpec(m, init, src);
      assert forall x :: x in chosen <==> x in init || x == chosen[|chosen| - 1];
    }
  }

  /** The loop over the chosen keys: copy their scores and back pointers
      into `pi` and `bp`, and rebuild `before_u` from them. */
  method Commit(chosen: seq<Key>, temp: OMap<Key, real>, back: Backs, pi: Scores, bp: Backs)
    returns (pi': Scores, bp': Backs, next: Before)
    requires forall key :: key in chosen ==> key in temp.values && key in back
    ensures next == Group(chosen)
    ensures pi' == Overwrite(pi, chosen, temp.values) && bp' == Overwrite(bp, chosen, back)
  {
    pi', bp', next := pi, bp, Empty();
    var i := 0;
    while i < |chosen|
      invariant 0 <= i <= |chosen|
      invariant next == Group(chosen[..i])
      invariant pi' == Overwrite(pi, chosen[..i], temp.values) && bp' == Overwrite(bp, chosen[..i], back)
    {
      var key := chosen[i];
      pi' := pi'[key := temp.values[key]];
      bp' := bp'[key := back[key]];
      assert chosen[..i + 1][..i] == chosen[..i];
      next := Append(next, key.2, key.1);
      i := i + 1;
    }
    assert chosen[..i] == chosen;
  }

  /** `pi_temporary` and `bp_temporary` after the tags `prev.keys[..idx]`:
      the keys `(k, u, v)` for those `u` and every `v` in `Y`, in that order,
      each scored by the best predecessor of `u` and pointing back to it. */
  ghost predicate Rows(pi: Scores, q: Q, k: nat, ys: seq<string>, prev: Before, idx: nat,
                       temp: OMap<Key, real>, back: Backs)
    requires Valid(prev) && idx <= |prev.keys|
  {
    && Valid(temp) && temp.values.Keys == back.Keys
    && temp.keys == CandidateKeys(k, prev.keys[..idx], ys)
    && forall key :: key in temp.values ==>
         && key.0 == k && key.1 in prev.keys[..idx] && key.1 in prev.values && key.2 in ys
         && Best(pi, q, k, key.1, key.2, prev.values[key.1]) == Choice(temp.values[key], back[key])
  }

  /** `pi` and `bp` during step `k`: what was there before is unchanged, and
      every new entry is copied from the candidates. */
  ghost predicate Kept(pi: Scores, bp: Backs, pi': Scores, bp': Backs, temp: OMap<Key, real>, back: Backs) {
    && (forall key :: key in pi ==> key in pi' && pi'[key] == pi[key])
    && (forall key :: key in bp ==> key in bp' && bp'[key] == bp[key])
    && (forall key :: key in pi' && key !in pi ==> key in temp.values && pi'[key] == temp.values[key])
    && (forall key :: key in bp' && key !in bp ==> key in back && bp'[key] == back[key])
  }

  /** One more row keeps `Rows` true. */
  lemma RowsNext(pi: Scores, pi': Scores, q: Q, k: nat, ys: seq<string>, prev: Before, idx: nat,
                 temp: OMap<Key, real>, back: Backs)
    requires Unique(ys) && Filled(prev) && idx < |prev.keys|
    requires Rows(pi, q, k, ys, prev, idx, temp, back)
    requires forall t :: t in prev.values[prev.keys[idx]] ==>
      var key := (k - 1, t, prev.keys[idx]); key in pi && key in pi' && pi'[key] == pi[key]
    ensures var u := prev.keys[idx]; var ts := prev.values[u];
      Rows(pi, q, k, ys, prev, idx + 1, RowScores(pi', q, k, u, ts, ys, temp), RowBacks(pi', q, k, u, ts, ys, back))
  {
    var u := prev.keys[idx];
    var ts := prev.values[u];
    RowSame(pi, pi', q, k, u, ts, ys, temp, back);
    assert u !in prev.keys[..idx];
    RowsNextKeys(pi, q, k, ys, prev, idx, temp, back);
    RowsNextValues(pi, q, k, ys, prev, idx, temp, back);
  }

  lemma RowsNextKeys(pi: Scores, q: Q, k: nat, ys: seq<string>, prev: Before, idx: nat,
                     temp: OMap<Key, real>, back: Backs)
    requires Unique(ys) && Filled(prev) && idx < |prev.keys|
    requires Valid(temp) && temp.keys == CandidateKeys(k, prev.keys[..idx], ys)
    requires forall key :: key in temp.values ==> key.1 != prev.keys[idx]
    ensures var u := prev.keys[idx]; var ts := prev.values[u];
      && Valid(RowScores(pi, q, k, u, ts, ys, temp))
      && RowScores(pi, q, k, u, ts, ys, temp).keys == CandidateKeys(k, prev.keys[..idx + 1], ys)
  {
    var u := prev.keys[idx];
    var p := prev.keys[..idx + 1];
    assert p[..|p| - 1] == prev.keys[..idx] && p[|p| - 1] == u;
    assert CandidateKeys(k, p, ys) == CandidateKeys(k, prev.keys[..idx], ys) + RowKeys(k, u, ys);
    assert u in prev.values;
    assert |prev.values[u]| > 0;
    RowOrder(pi, q, k, u, prev.values[u], ys, temp);
  }

  lemma RowsNextValues(pi: Scores, q: Q, k: nat, ys: seq<string>, prev: Before, idx: nat,
                       temp: OMap<Key, real>, back: Backs)
    requires Filled(prev) && idx < |prev.keys| && temp.values.Keys == back.Keys
    requires forall key :: key in temp.values ==>
      && key.0 == k && key.1 in prev.keys[..idx] && key.1 in prev.values && key.2 in ys
      && Best(pi, q, k, key.1, key.2, prev.values[key.1]) == Choice(temp.values[key], back[key])
    requires prev.keys[idx] !in prev.keys[..idx]
    ensures var u := prev.keys[idx]; var ts := prev.values[u];
      var r := RowScores(pi, q, k, u, ts, ys, temp); var rb := RowBacks(pi, q, k, u, ts, ys, back);
      && r.values.Keys == rb.Keys
      && forall key :: key in r.values ==>
        && key.0 == k && key.1 in prev.keys[..idx + 1] && key.1 in prev.values && key.2 in ys
        && Best(pi, q, k, key.1, key.2, prev.values[key.1]) == Choice(r.values[key], rb[key])
  {
    var u := prev.keys[idx];
    var ts := prev.values[u];
    assert prev.keys[..idx + 1] == prev.keys[..idx] + [u];
    RowKeeps(pi, q, k, u, ts, ys, temp, back);
    RowValues(pi, q, k, u, ts, ys, temp, back);
    var r := RowScores(pi, q, k, u, ts, ys, temp);
    forall key | key in r.values && key !in temp.values
      ensures Best(pi, q, k, key.1, key.2, prev.values[key.1]) == Choice(r.values[key], RowBacks(pi, q, k, u, ts, ys, back)[key])
    {
      ArgMaxFound(ts, ScoreOf(pi, q, k, u, key.2));
    }
  }

  /** One more commit keeps `Kept` true, and the committed keys are in
      `pi` and `bp`. */
  lemma KeptNext(pi: Scores, bp: Backs, pi1: Scores, bp1: Backs, temp: OMap<Key, real>, back: Backs,
                 temp': OMap<Key, real>, back': Backs, chosen: seq<Key>)
    requires Kept(pi, bp, pi1, bp1, temp, back) && temp.values.Keys == back.Keys
    requires forall key :: key in temp.values ==>
      key in temp'.values && key in back' && temp'.values[key] == temp.values[key] && back'[key] == back[key]
    requires forall key :: key in chosen ==> key in temp'.values && key in back' && key !in pi && key !in bp
    ensures forall key :: key in chosen ==> key in temp'.values && key in back'
    ensures Kept(pi, bp, Overwrite(pi1, chosen, temp'.values), Overwrite(bp1, chosen, back'), temp', back')
    ensures forall key :: key in chosen ==> key in Overwrite(pi1, chosen, temp'.values) && key in Overwrite(bp1, chosen, back')
  {
    OverwriteSpec(pi1, chosen, temp'.values);
    OverwriteSpec(bp1, chosen, back');
  }

  /** The row of the tag `prev.keys[idx]` in the loop of `Step`: its
      candidates are scored and added, and the earlier ones are kept. */
  method StepScore(pi: Scores, pi1: Scores, q: Q, k: nat, ys: seq<string>, prev: Before, idx: nat,
                   temp: OMap<Key, real>, tb: Backs)
    returns (temp': OMap<Key, real>, tb': Backs)
    requires Unique(ys) && Filled(prev) && idx < |prev.keys|
    requires forall t, u :: InBeam(prev, t, u) ==> (k - 1, t, u) in pi
    requires forall key :: key in pi ==> key in pi1 && pi1[key] == pi[key]
    requires Rows(pi, q, k, ys, prev, idx, temp, tb)
    ensures Valid(temp') && temp'.values.Keys == tb'.Keys
    ensures Rows(pi, q, k, ys, prev, idx + 1, temp', tb')
    ensures forall key :: key in temp.values ==>
      key in temp'.values && key in tb' && temp'.values[key] == temp.values[key] && tb'[key] == tb[key]
  {
    var u := prev.keys[idx];
    var ts := prev.values[u];
    assert forall t :: t in ts ==> InBeam(prev, t, u);
    RowsNext(pi, pi1, q, k, ys, prev, idx, temp, tb);
    RowKeeps(pi1, q, k, u, ts, ys, temp, tb);
    temp', tb' := ScoreRow(pi1, q, k, u, ts, ys, temp, tb);
  }

  /** The beam over the candidates so far in the loop of `Step`, and the
      commit of the keys it keeps. */
  method StepCommit(pi: Scores, bp: Backs, beam: Beam, temp: OMap<Key, real>, tb: Backs,
                    temp': OMap<Key, real>, tb': Backs, pi1: Scores, bp1: Backs)
    returns (pi2: Scores, bp2: Backs, next: Before)
    requires Valid(temp') && temp'.values.Keys == tb'.Keys
    requires forall key :: key in temp'.values ==> key !in pi && key !in bp
    requires Kept(pi, bp, pi1, bp1, temp, tb) && temp.values.Keys == tb.Keys
    requires forall key :: key in temp.values ==>
      key in temp'.values && key in tb' && temp'.values[key] == temp.values[key] && tb'[key] == tb[key]
    ensures Kept(pi, bp, pi2, bp2, temp', tb')
    ensures next == Group(Beamed(beam, temp'.keys, temp'.values))
    ensures forall key :: key in Beamed(beam, temp'.keys, temp'.values) ==> key in pi2 && key in bp2
  {
    var chosen := BeamSearch(beam, temp'.keys, temp'.values);
    BeamKeepsBest(beam, temp'.keys, temp'.values);
    KeptNext(pi, bp, pi1, bp1, temp, tb, temp', tb', chosen);
    pi2, bp2, next := Commit(chosen, temp', tb', pi1, bp1);
  }

  /** Step `k` of the outer loop: for each `u` of `before_u`, its row of
      candidates, then the beam over all candidates so far, whose keys are
      committed to `pi` and `bp` and become the new `before_u`. */
  method Step(pi: Scores, bp: Backs, q: Q, k: nat, ys: seq<string>, beam: Beam, prev: Before)
    returns (pi': Scores, bp': Backs, next: Before, ghost cand: OMap<Key, real>, ghost back: Backs)
    requires Unique(ys) && Filled(prev)
    requires forall key :: key in pi ==> key.0 < k
    requires forall key :: key in bp ==> key.0 < k
    requires forall t, u :: InBeam(prev, t, u) ==> (k - 1, t, u) in pi
    ensures Rows(pi, q, k, ys, prev, |prev.keys|, cand, back)
    ensures Kept(pi, bp, pi', bp', cand, back)
    ensures next == Group(Beamed(beam, cand.keys, cand.values))
    ensures forall key :: key in Beamed(beam, cand.keys, cand.values) ==> key in pi' && key in bp'
  {
    var temp: OMap<Key, real> := Empty();
    var tb: Backs := map[];
    pi', bp', next := pi, bp, prev;
    var idx := 0;
    while idx < |prev.keys|
      invariant 0 <= idx <= |prev.keys|
      invariant Rows(pi, q, k, ys, prev, idx, temp, tb)
      invariant Kept(pi, bp, pi', bp', temp, tb)
      invariant idx > 0 ==> next == Group(Beamed(beam, temp.keys, temp.values))
      invariant idx > 0 ==> forall key :: key in Beamed(beam, temp.keys, temp.values) ==> key in pi' && key in bp'
    {
      var temp', tb' := StepScore(pi, pi', q, k, ys, prev, idx, temp, tb);
      pi', bp', next := StepCommit(pi, bp, beam, temp, tb, temp', tb', pi', bp');
      temp, tb := temp', tb';
      idx := idx + 1;
    }
    assert prev.keys[..idx] == prev.keys;
    cand, back := temp, tb;
  }

  /** With at least one tag kept and a non-empty `Y`, there are candidates. */
  lemma CandidatesExist(k: nat, us: seq<string>, ys: seq<string>)
    requires |us| > 0 && |ys| > 0
    ensures |CandidateKeys(k, us, ys)| > 0
  {
    assert |RowKeys(k, us[|us| - 1], ys)| > 0;
  }

  /** What step `k` leaves behind: a non-empty `before_u` whose every pair
      `(u, v)` has its score and back pointer at `(k, u, v)`, the back
      pointer a kept predecessor of `u`, and the score the best over the
      kept predecessors. */
  ghost predicate Advanced(pi: Scores, pi': Scores, bp': Backs, q: Q, k: nat, ys: seq<string>, prev: Before, next: Before) {
    && Filled(next)
    && forall u, v :: InBeam(next, u, v) ==>
      && (k, u, v) in pi' && (k, u, v) in bp' && v in ys && u in prev.values
      && InBeam(prev, bp'[(k, u, v)], u)
      && Best(pi, q, k, u, v, prev.values[u]) == Choice(pi'[(k, u, v)], bp'[(k, u, v)])
  }

  /** The proof that a step leaves `Advanced` behind. */
  lemma StepMeaning(pi: Scores, bp: Backs, pi': Scores, bp': Backs, q: Q, k: nat, ys: seq<string>, beam: Beam,
                    prev: Before, next: Before, cand: OMap<Key, real>, back: Backs)
    requires |ys| > 0 && Filled(prev)
    requires forall key :: key in pi ==> key.0 < k
    requires forall key :: key in bp ==> key.0 < k
    requires Rows(pi, q, k, ys, prev, |prev.keys|, cand, back)
    requires Kept(pi, bp, pi', bp', cand, back)
    requires next == Group(Beamed(beam, cand.keys, cand.values))
    requires forall key :: key in Beamed(beam, cand.keys, cand.values) ==> key in pi' && key in bp'
    ensures Advanced(pi, pi', bp', q, k, ys, prev, next)
  {
    var chosen := Beamed(beam, cand.keys, cand.values);
    StepFilled(pi, q, k, ys, beam, prev, cand, back);
    BeamedAtK(pi, q, k, ys, beam, prev, cand, back);
    GroupSpec(chosen, k);
    forall u, v | InBeam(next, u, v)
      ensures && (k, u, v) in pi' && (k, u, v) in bp' && v in ys && u in prev.values
              && InBeam(prev, bp'[(k, u, v)], u)
              && Best(pi, q, k, u, v, prev.values[u]) == Choice(pi'[(k, u, v)], bp'[(k, u, v)])
    {
      assert (k, u, v) in chosen;
      StepPair(pi, bp, pi', bp', q, k, ys, prev, cand, back, (k, u, v));
    }
  }

  /** The beam after a step is never empty. */
  lemma StepFilled(pi: Scores, q: Q, k: nat, ys: seq<string>, beam: Beam, prev: Before,
                   cand: OMap<Key, real>, back: Backs)
    requires |ys| > 0 && Filled(prev)
    requires Rows(pi, q, k, ys, prev, |prev.keys|, cand, back)
    ensures Filled(Group(Beamed(beam, cand.keys, cand.values)))
  {
    assert prev.keys[..|prev.keys|] == prev.keys;
    CandidatesExist(k, prev.keys, ys);
    BeamedAtK(pi, q, k, ys, beam, prev, cand, back);
    GroupSpec(Beamed(beam, cand.keys, cand.values), k);
  }

  /** The beam keeps candidates only, all at position `k`. */
  lemma BeamedAtK(pi: Scores, q: Q, k: nat, ys: seq<string>, beam: Beam, prev: Before,
                  cand: OMap<Key, real>, back: Backs)
    requires Filled(prev)
    requires Rows(pi, q, k, ys, prev, |prev.keys|, cand, back)
    ensures forall key :: key in Beamed(beam, cand.keys, cand.values) ==> key in cand.values && key.0 == k
  {
    BeamKeepsBest(beam, cand.keys, cand.values);
  }

  /** One committed candidate: its score and back pointer as the row
      computed them. */
  lemma StepPair(pi: Scores, bp: Backs, pi': Scores, bp': Backs, q: Q, k: nat, ys: seq<string>,
                 prev: Before, cand: OMap<Key, real>, back: Backs, key: Key)
    requires Filled(prev)
    requires forall key :: key in pi ==> key.0 < k
    requires forall key :: key in bp ==> key.0 < k
    requires Rows(pi, q, k, ys, prev, |prev.keys|, cand, back)
    requires Kept(pi, bp, pi', bp', cand, back)
    requires key in cand.values && key in pi' && key in bp'
    ensures key.0 == k && key.2 in ys && key.1 in prev.values
    ensures InBeam(prev, bp'[key], key.1)
    ensures Best(pi, q, k, key.1, key.2, prev.values[key.1]) == Choice(pi'[key], bp'[key])
  {
    ArgMaxFound(prev.values[key.1], ScoreOf(pi, q, k, key.1, key.2));
  }

  /** The shape of the run after `k` steps: one `before_u` per step after
      the initial one, none of them empty, and `pi`, `bp` holding only
      positions before `k`. */
  ghost predicate Shape(pi: Scores, bp: Backs, beams: seq<Before>, k: nat) {
    && |beams| == k + 1 && beams[0] == Start()
    && (forall j :: 0 <= j <= k ==> Filled(beams[j]))
    && (forall key :: key in pi ==> key.0 < k)
    && (forall key :: key in bp ==> 0 <= key.0 < k)
  }

  /** Every kept pair has a score: `(j - 1, t, u)` for `t` listed before `u`
      in the `before_u` of step `j`. */
  ghost predicate Reached(pi: Scores, beams: seq<Before>, k: nat)
    requires |beams| == k + 1
  {
    forall j, t, u :: 0 <= j <= k && InBeam(beams[j], t, u) ==> (j - 1, t, u) in pi
  }

  /** The recursion: every pair `(u, v)` kept after step `j - 1` has a back
      pointer to a predecessor kept after step `j - 2`, a tag `v` of `Y`,
      and the score of the best predecessor, the back pointer being the
      first one that reaches it. */
  ghost predicate Linked(pi: Scores, bp: Backs, q: Q, ys: seq<string>, beams: seq<Before>, k: nat)
    requires |beams| == k + 1
  {
    forall j, u, v :: 1 <= j <= k && InBeam(beams[j], u, v) ==>
      && (j - 1, u, v) in pi && (j - 1, u, v) in bp && v in ys && u in beams[j - 1].values
      && InBeam(beams[j - 1], bp[(j - 1, u, v)], u)
      && Best(pi, q, j - 1, u, v, beams[j - 1].values[u]) == Choice(pi[(j - 1, u, v)], bp[(j - 1, u, v)])
  }

  /** The `before_u` of every step is the beam over that step's candidates,
      which are all `(j, u, v)` for `u` kept before and `v` in `Y`, scored
      by their best predecessor. */
  ghost predicate Beams(pi: Scores, q: Q, ys: seq<string>, beam: Beam, beams: seq<Before>, cands: seq<OMap<Key, real>>, k: nat)
    requires |beams| == k + 1 && forall j :: 0 <= j <= k ==> Valid(beams[j])
  {
    && |cands| == k
    && forall j :: 0 <= j < k ==>
      && Valid(cands[j]) && cands[j].keys == CandidateKeys(j, beams[j].keys, ys)
      && beams[j + 1] == Group(Beamed(beam, cands[j].keys, cands[j].values))
      && forall key :: key in cands[j].values ==>
           key.1 in beams[j].values && Best(pi, q, j, key.1, key.2, beams[j].values[key.1]).Choice?
           && Best(pi, q, j, key.1, key.2, beams[j].values[key.1]).value == cands[j].values[key]
  }

  /** `pi` and `bp` after step `k`: the old entries unchanged, the new ones
      all at position `k`. */
  ghost predicate Extends(pi: Scores, bp: Backs, pi': Scores, bp': Backs, k: nat) {
    && (forall key :: key in pi ==> key in pi' && pi'[key] == pi[key])
    && (forall key :: key in bp ==> key in bp' && bp'[key] == bp[key])
    && (forall key :: key in pi' ==> key in pi || key.0 == k)
    && (forall key :: key in bp' ==> key in bp || key.0 == k)
  }

  lemma StepExtends(pi: Scores, bp: Backs, pi': Scores, bp': Backs, q: Q, k: nat, ys: seq<string>,
                    prev: Before, cand: OMap<Key, real>, back: Backs)
    requires Valid(prev)
    requires Rows(pi, q, k, ys, prev, |prev.keys|, cand, back)
    requires Kept(pi, bp, pi', bp', cand, back)
    ensures Extends(pi, bp, pi', bp', k)
  {
  }

  lemma ShapeNext(pi: Scores, bp: Backs, pi': Scores, bp': Backs, q: Q, ys: seq<string>,
                  beams: seq<Before>, k: nat, next: Before)
    requires Shape(pi, bp, beams, k) && Extends(pi, bp, pi', bp', k) && Filled(next)
    ensures Shape(pi', bp', beams + [next], k + 1)
  {
  }

  lemma ReachedNext(pi: Scores, bp: Backs, pi': Scores, bp': Backs, q: Q, ys: seq<string>,
                    beams: seq<Before>, k: nat, next: Before)
    requires Shape(pi, bp, beams, k) && Reached(pi, beams, k) && Extends(pi, bp, pi', bp', k)
    requires Advanced(pi, pi', bp', q, k, ys, beams[k], next)
    ensures Reached(pi', beams + [next], k + 1)
  {
    var beams' := beams + [next];
    forall j, t, u | 0 <= j <= k + 1 && InBeam(beams'[j], t, u) ensures (j - 1, t, u) in pi' {
      if j <= k {
        assert beams'[j] == beams[j];
      }
    }
  }

  /** The scores of one step's pairs, read through `pi` after a later step,
      are the same. */
  lemma BestLater(pi: Scores, bp: Backs, pi': Scores, bp': Backs, q: Q, beams: seq<Before>, k: nat,
                  j: nat, u: string, v: string)
    requires Shape(pi, bp, beams, k) && Reached(pi, beams, k) && Extends(pi, bp, pi', bp', k)
    requires j <= k && u in beams[j].values
    ensures Best(pi', q, j, u, v, beams[j].values[u]) == Best(pi, q, j, u, v, beams[j].values[u])
  {
    forall t | t in beams[j].values[u] ensures (j - 1, t, u) in pi {
      assert InBeam(beams[j], t, u);
    }
    BestSame(pi, pi', q, j, u, v, beams[j].values[u]);
  }

  lemma LinkedNext(pi: Scores, bp: Backs, pi': Scores, bp': Backs, q: Q, ys: seq<string>,
                   beams: seq<Before>, k: nat, next: Before)
    requires Shape(pi, bp, beams, k) && Reached(pi, beams, k) && Linked(pi, bp, q, ys, beams, k)
    requires Extends(pi, bp, pi', bp', k)
    requires Advanced(pi, pi', bp', q, k, ys, beams[k], next)
    ensures Linked(pi', bp', q, ys, beams + [next], k + 1)
  {
    var beams' := beams + [next];
    forall j, u, v | 1 <= j <= k + 1 && InBeam(beams'[j], u, v)
      ensures && (j - 1, u, v) in pi' && (j - 1, u, v) in bp' && v in ys && u in beams'[j - 1].values
              && InBeam(beams'[j - 1], bp'[(j - 1, u, v)], u)
              && Best(pi', q, j - 1, u, v, beams'[j - 1].values[u]) == Choice(pi'[(j - 1, u, v)], bp'[(j - 1, u, v)])
    {
      assert beams'[j - 1] == beams[j - 1];
      if j <= k {
        assert beams'[j] == beams[j];
        LinkedOld(pi, bp, pi', bp', q, ys, beams, k, j, u, v);
      } else {
        LinkedNew(pi, bp, pi', bp', q, ys, beams, k, next, u, v);
      }
    }
  }

  /** A pair of an earlier step keeps its links through step `k`. */
  lemma LinkedOld(pi: Scores, bp: Backs, pi': Scores, bp': Backs, q: Q, ys: seq<string>,
                  beams: seq<Before>, k: nat, j: nat, u: string, v: string)
    requires Shape(pi, bp, beams, k) && Reached(pi, beams, k)
    requires Extends(pi, bp, pi', bp', k) && 1 <= j <= k
    requires && (j - 1, u, v) in pi && (j - 1, u, v) in bp && v in ys && u in beams[j - 1].values
             && InBeam(beams[j - 1], bp[(j - 1, u, v)], u)
             && Best(pi, q, j - 1, u, v, beams[j - 1].values[u]) == Choice(pi[(j - 1, u, v)], bp[(j - 1, u, v)])
    ensures && (j - 1, u, v) in pi' && (j - 1, u, v) in bp' && v in ys && u in beams[j - 1].values
            && InBeam(beams[j - 1], bp'[(j - 1, u, v)], u)
            && Best(pi', q, j - 1, u, v, beams[j - 1].values[u]) == Choice(pi'[(j - 1, u, v)], bp'[(j - 1, u, v)])
  {
    BestLater(pi, bp, pi', bp', q, beams, k, j - 1, u, v);
  }

  /** A pair of step `k` is linked as the step left it. */
  lemma LinkedNew(pi: Scores, bp: Backs, pi': Scores, bp': Backs, q: Q, ys: seq<string>,
                  beams: seq<Before>, k: nat, next: Before, u: string, v: string)
    requires Shape(pi, bp, beams, k) && Reached(pi, beams, k)
    requires Extends(pi, bp, pi', bp', k)
    requires Advanced(pi, pi', bp', q, k, ys, beams[k], next)
    requires InBeam(next, u, v)
    ensures && (k, u, v) in pi' && (k, u, v) in bp' && v in ys && u in beams[k].values
            && InBeam(beams[k], bp'[(k, u, v)], u)
            && Best(pi', q, k, u, v, beams[k].values[u]) == Choice(pi'[(k, u, v)], bp'[(k, u, v)])
  {
    BestLater(pi, bp, pi', bp', q, beams, k, k, u, v);
  }

  lemma BeamsNext(pi: Scores, bp: Backs, pi': Scores, bp': Backs, q: Q, ys: seq<string>, beam: Beam,
                  beams: seq<Before>, cands: seq<OMap<Key, real>>, k: nat, next: Before,
                  cand: OMap<Key, real>, back: Backs)
    requires Shape(pi, bp, beams, k) && Reached(pi, beams, k) && Beams(pi, q, ys, beam, beams, cands, k)
    requires Extends(pi, bp, pi', bp', k) && Filled(next)
    requires Rows(pi, q, k, ys, beams[k], |beams[k].keys|, cand, back)
    requires next == Group(Beamed(beam, cand.keys, cand.values))
    ensures Shape(pi', bp', beams + [next], k + 1)
    ensures Beams(pi', q, ys, beam, beams + [next], cands + [cand], k + 1)
  {
    ShapeNext(pi, bp, pi', bp', q, ys, beams, k, next);
    BeamsNextParts(pi, bp, pi', bp', q, ys, beam, beams, cands, k, next, cand, back);
  }

  lemma BeamsNextParts(pi: Scores, bp: Backs, pi': Scores, bp': Backs, q: Q, ys: seq<string>, beam: Beam,
                       beams: seq<Before>, cands: seq<OMap<Key, real>>, k: nat, next: Before,
                       cand: OMap<Key, real>, back: Backs)
    requires Shape(pi, bp, beams, k) && Reached(pi, beams, k) && Beams(pi, q, ys, beam, beams, cands, k)
    requires Extends(pi, bp, pi', bp', k) && Filled(next)
    requires Rows(pi, q, k, ys, beams[k], |beams[k].keys|, cand, back)
    requires next == Group(Beamed(beam, cand.keys, cand.values))
    requires Shape(pi', bp', beams + [next], k + 1)
    ensures Beams(pi', q, ys, beam, beams + [next], cands + [cand], k + 1)
  {
    var beams' := beams + [next];
    var cands' := cands + [cand];
    forall j | 0 <= j < k + 1
      ensures && Valid(cands'[j]) && cands'[j].keys == CandidateKeys(j, beams'[j].keys, ys)
              && beams'[j + 1] == Group(Beamed(beam, cands'[j].keys, cands'[j].values))
              && forall key :: key in cands'[j].values ==>
                   key.1 in beams'[j].values && Best(pi', q, j, key.1, key.2, beams'[j].values[key.1]).Choice?
                   && Best(pi', q, j, key.1, key.2, beams'[j].values[key.1]).value == cands'[j].values[key]
    {
      assert beams'[j] == beams[j];
      if j < k {
        assert cands'[j] == cands[j] && beams'[j + 1] == beams[j + 1];
        BeamsOld(pi, bp, pi', bp', q, ys, beam, beams, cands, k, j);
      } else {
        BeamsNew(pi, bp, pi', bp', q, ys, beams, k, cand, back);
      }
    }
  }

  /** An earlier step's candidates keep their scores through step `k`. */
  lemma BeamsOld(pi: Scores, bp: Backs, pi': Scores, bp': Backs, q: Q, ys: seq<string>, beam: Beam,
                 beams: seq<Before>, cands: seq<OMap<Key, real>>, k: nat, j: nat)
    requires Shape(pi, bp, beams, k) && Reached(pi, beams, k) && Beams(pi, q, ys, beam, beams, cands, k)
    requires Extends(pi, bp, pi', bp', k) && j < k
    ensures forall key :: key in cands[j].values ==>
      key.1 in beams[j].values && Best(pi', q, j, key.1, key.2, beams[j].values[key.1]).Choice?
      && Best(pi', q, j, key.1, key.2, beams[j].values[key.1]).value == cands[j].values[key]
  {
    forall key | key in cands[j].values
      ensures key.1 in beams[j].values
      ensures Best(pi', q, j, key.1, key.2, beams[j].values[key.1]) == Best(pi, q, j, key.1, key.2, beams[j].values[key.1])
    {
      BestLater(pi, bp, pi', bp', q, beams, k, j, key.1, key.2);
    }
  }

  /** Step `k`'s candidates, scored as the rows computed them. */
  lemma BeamsNew(pi: Scores, bp: Backs, pi': Scores, bp': Backs, q: Q, ys: seq<string>,
                 beams: seq<Before>, k: nat, cand: OMap<Key, real>, back: Backs)
    requires Shape(pi, bp, beams, k) && Reached(pi, beams, k) && Extends(pi, bp, pi', bp', k)
    requires Rows(pi, q, k, ys, beams[k], |beams[k].keys|, cand, back)
    ensures Valid(cand) && cand.keys == CandidateKeys(k, beams[k].keys, ys)
    ensures forall key :: key in cand.values ==>
      key.1 in beams[k].values && Best(pi', q, k, key.1, key.2, beams[k].values[key.1]).Choice?
      && Best(pi', q, k, key.1, key.2, beams[k].values[key.1]).value == cand.values[key]
  {
    assert beams[k].keys[..|beams[k].keys|] == beams[k].keys;
    forall key | key in cand.values
      ensures key.1 in beams[k].values
      ensures Best(pi', q, k, key.1, key.2, beams[k].values[key.1]) == Best(pi, q, k, key.1, key.2, beams[k].values[key.1])
    {
      BestLater(pi, bp, pi', bp', q, beams, k, k, key.1, key.2);
    }
  }

  /** `(u, v)` for each `u` listed under `v`, in the order of the list. */
  function Pairs(us: seq<string>, v: string): (r: seq<(string, string)>)
    ensures |r| == |us| && forall j :: 0 <= j < |us| ==> r[j] == (us[j], v)
  {
    seq(|us|, j requires 0 <= j < |us| => (us[j], v))
  }

  /** The pairs of the first `a` tags of `before_u`, in iteration order. */
  function Flat(o: Before, a: nat): seq<(string, string)>
    requires a <= |o.keys| && forall v :: v in o.keys ==> v in o.values
  {
    if a == 0 then [] else Flat(o, a - 1) + Pairs(o.values[o.keys[a - 1]], o.keys[a - 1])
  }

  /** The iteration visits exactly the kept pairs. */
  lemma {:induction false} FlatMembers(o: Before, a: nat)
    requires Valid(o) && a <= |o.keys|
    ensures forall t, u :: (t, u) in Flat(o, a) <==> u in o.keys[..a] && t in o.values[u]
  {
    if a > 0 {
      FlatMembers(o, a - 1);
      assert o.keys[..a] == o.keys[..a - 1] + [o.keys[a - 1]];
    }
  }

  /** `pi[(n - 1, u, v)]` as a function of the pair. */
  function FinalScore(pi: Scores, m: int): ((string, string)) -> real {
    (p: (string, string)) => if (m, p.0, p.1) in pi then pi[(m, p.0, p.1)] else 0.0
  }

  /** The loops over `before_u` after the last step: the pair `(u, v)` with
      the highest `pi[(n - 1, u, v)]`, the first one on ties. */
  method FinalPair(pi: Scores, m: int, o: Before) returns (c: Choice<(string, string)>)
    requires Valid(o)
    requires forall t, u :: InBeam(o, t, u) ==> (m, t, u) in pi
    ensures c == ArgMax(Flat(o, |o.keys|), FinalScore(pi, m))
  {
    c := NoChoice;
    var a := 0;
    while a < |o.keys|
      invariant 0 <= a <= |o.keys|
      invariant c == ArgMax(Flat(o, a), FinalScore(pi, m))
    {
      var v := o.keys[a];
      var us := o.values[v];
      var b := 0;
      assert Flat(o, a) + Pairs(us[..0], v) == Flat(o, a);
      while b < |us|
        invariant 0 <= b <= |us|
        invariant c == ArgMax(Flat(o, a) + Pairs(us[..b], v), FinalScore(pi, m))
      {
        var u := us[b];
        assert InBeam(o, u, v);
        var current := pi[(m, u, v)];
        ScanStep(Flat(o, a), us, v, b, FinalScore(pi, m));
        assert FinalScore(pi, m)((u, v)) == current;
        if c.NoChoice? || current > c.value {
          c := Choice(current, (u, v));
        }
        b := b + 1;
      }
      assert us[..b] == us;
      assert Flat(o, a + 1) == Flat(o, a) + Pairs(us, v);
      a := a + 1;
    }
  }

  /** One more pair in the scan of the final loops. */
  lemma ScanStep(init: seq<(string, string)>, us: seq<string>, v: string, b: nat, f: ((string, string)) -> real)
    requires b < |us|
    ensures var c := ArgMax(init + Pairs(us[..b], v), f);
      ArgMax(init + Pairs(us[..b + 1], v), f) == if c.NoChoice? || f((us[b], v)) > c.value then Choice(f((us[b], v)), (us[b], v)) else c
  {
    var xs := init + Pairs(us[..b + 1], v);
    assert Pairs(us[..b + 1], v)[..b] == Pairs(us[..b], v);
    assert xs[..|xs| - 1] == init + Pairs(us[..b], v);
    assert xs[|xs| - 1] == (us[b], v);
  }

  /** `tags_infer`: the last two tags from the best final pair (for a
      one-word sentence the second write, at index `-1`, lands on the only
      tag), then each earlier tag from the back pointer of the two after it. */
  method Backtrack(bp: Backs, n: nat, last: (string, string), ghost beams: seq<Before>) returns (tags: seq<string>)
    requires n >= 1 && |beams| == n + 1 && InBeam(beams[n], last.0, last.1)
    requires forall j, u, v :: 1 <= j <= n && InBeam(beams[j], u, v) ==>
      (j - 1, u, v) in bp && InBeam(beams[j - 1], bp[(j - 1, u, v)], u)
    ensures |tags| == n
    ensures n == 1 ==> tags[0] == last.0
    ensures n >= 2 ==> tags[n - 2] == last.0 && tags[n - 1] == last.1
    ensures n >= 2 ==> forall p :: 1 <= p < n ==> InBeam(beams[p + 1], tags[p - 1], tags[p])
    ensures forall p :: 2 <= p < n ==> (p, tags[p - 1], tags[p]) in bp && tags[p - 2] == bp[(p, tags[p - 1], tags[p])]
  {
    if n == 1 {
      // tags[n - 2] is tags[-1]: the second write lands on the only slot
      tags := [last.0];
      return;
    }
    tags := seq(n, _ => "");
    tags := tags[n - 1 := last.1];
    tags := tags[n - 2 := last.0];
    var k := n - 3;
    while k >= 0
      invariant -1 <= k <= n - 3 && |tags| == n
      invariant tags[n - 2] == last.0 && tags[n - 1] == last.1
      invariant forall p :: k + 2 <= p < n ==> InBeam(beams[p + 1], tags[p - 1], tags[p])
      invariant forall p :: k + 3 <= p < n ==> (p, tags[p - 1], tags[p]) in bp && tags[p - 2] == bp[(p, tags[p - 1], tags[p])]
    {
      assert InBeam(beams[k + 3], tags[k + 1], tags[k + 2]);
      tags := tags[k := bp[(k + 2, tags[k + 1], tags[k + 2])]];
      k := k - 1;
    }
  }

  /** The best final pair exists, is kept, and no kept pair scores higher. */
  lemma FinalChoice(pi: Scores, m: int, o: Before, c: Choice<(string, string)>)
    requires Filled(o)
    requires forall t, u :: InBeam(o, t, u) ==> (m, t, u) in pi
    requires c == ArgMax(Flat(o, |o.keys|), FinalScore(pi, m))
    ensures c.Choice? && InBeam(o, c.arg.0, c.arg.1) && pi[(m, c.arg.0, c.arg.1)] == c.value
    ensures forall t, u :: InBeam(o, t, u) ==> pi[(m, t, u)] <= c.value
  {
    var xs := Flat(o, |o.keys|);
    var f := FinalScore(pi, m);
    FlatMembers(o, |o.keys|);
    assert o.keys[..|o.keys|] == o.keys;
    var v := o.keys[0];
    assert (o.values[v][0], v) in xs;
    ArgMaxFound(xs, f);
    forall t, u | InBeam(o, t, u) ensures pi[(m, t, u)] <= ArgMax(xs, f).value {
      ArgMaxBound(xs, f, (t, u));
    }
  }

  /** A tag kept as the last of a pair after some step is a tag of `Y`. */
  lemma KeptInY(pi: Scores, bp: Backs, q: Q, ys: seq<string>, beams: seq<Before>, k: nat, j: nat, u: string)
    requires Shape(pi, bp, beams, k) && Linked(pi, bp, q, ys, beams, k)
    requires 1 <= j <= k && u in beams[j].values
    ensures u in ys
  {
    assert InBeam(beams[j], beams[j].values[u][0], u);
  }

  /** Every tag of a path that follows the kept pairs is a tag of `Y`. */
  lemma PathInY(pi: Scores, bp: Backs, q: Q, ys: seq<string>, beams: seq<Before>, n: nat, path: seq<string>)
    requires Shape(pi, bp, beams, n) && Linked(pi, bp, q, ys, beams, n)
    requires n >= 2 && |path| == n
    requires forall p :: 1 <= p < n ==> InBeam(beams[p + 1], path[p - 1], path[p])
    ensures forall i :: 0 <= i < n ==> path[i] in ys
  {
    forall i | 0 <= i < n ensures path[i] in ys {
      if i == 0 {
        assert InBeam(beams[2], path[0], path[1]);
        KeptInY(pi, bp, q, ys, beams, n, 1, path[0]);
      } else {
        assert InBeam(beams[i + 1], path[i - 1], path[i]);
      }
    }
  }

  /** After one step every kept pair starts from "*". */
  lemma OneWordStart(pi: Scores, bp: Backs, q: Q, ys: seq<string>, beams: seq<Before>, best: (string, string))
    requires Shape(pi, bp, beams, 1) && Linked(pi, bp, q, ys, beams, 1)
    requires InBeam(beams[1], best.0, best.1)
    ensures best.0 == "*"
  {
    assert best.0 in Start().values;
  }

  /** The `for k` loop: one step per word, starting from
      `pi[(-1, "*", "*")] = 1` and `before_u = {"*": ["*"]}`. */
  method Forward(n: nat, ys: seq<string>, q: Q, beam: Beam)
    returns (pi: Scores, bp: Backs, last: Before, ghost beams: seq<Before>, ghost cands: seq<OMap<Key, real>>)
    requires |ys| > 0 && Unique(ys)
    ensures Shape(pi, bp, beams, n) && Reached(pi, beams, n)
    ensures Linked(pi, bp, q, ys, beams, n) && Beams(pi, q, ys, beam, beams, cands, n)
    ensures last == beams[n]
    ensures (-1, "*", "*") in pi && pi[(-1, "*", "*")] == 1.0
  {
    pi := map[(-1, "*", "*") := 1.0];
    bp := map[];
    last := Start();
    beams := [last];
    cands := [];
    var k := 0;
    while k < n
      invariant 0 <= k <= n
      invariant Shape(pi, bp, beams, k) && Reached(pi, beams, k)
      invariant Linked(pi, bp, q, ys, beams, k) && Beams(pi, q, ys, beam, beams, cands, k)
      invariant last == beams[k]
      invariant (-1, "*", "*") in pi && pi[(-1, "*", "*")] == 1.0
    {
      var pi', bp', next;
      ghost var cand, back;
      pi', bp', next, cand, back := Step(pi, bp, q, k, ys, beam, last);
      StepMeaning(pi, bp, pi', bp', q, k, ys, beam, last, next, cand, back);
      StepExtends(pi, bp, pi', bp', q, k, ys, last, cand, back);
      ReachedNext(pi, bp, pi', bp', q, ys, beams, k, next);
      LinkedNext(pi, bp, pi', bp', q, ys, beams, k, next);
      BeamsNext(pi, bp, pi', bp', q, ys, beam, beams, cands, k, next, cand, back);
      pi, bp, last, beams, cands := pi', bp', next, beams + [next], cands + [cand];
      k := k + 1;
    }
  }

  /** `memm_viterbi`: the forward steps, the best final pair, the back
      pointers, then the fixed tag ":" for ";" and "--". `path` is
      `tags_infer` before that override. */
  method MemmViterbi(words: seq<string>, ys: seq<string>, q: Q, beam: Beam)
    returns (tags: seq<string>, ghost path: seq<string>, ghost best: (string, string),
             ghost pi: Scores, ghost bp: Backs, ghost beams: seq<Before>, ghost cands: seq<OMap<Key, real>>)
    requires |words| > 0 && |ys| > 0 && Unique(ys)
    ensures |tags| == |words| && |path| == |words|
    ensures forall i :: 0 <= i < |words| ==> tags[i] == if words[i] in [";", "--"] then ":" else path[i]
    ensures Shape(pi, bp, beams, |words|) && Reached(pi, beams, |words|)
    ensures Linked(pi, bp, q, ys, beams, |words|) && Beams(pi, q, ys, beam, beams, cands, |words|)
    ensures (-1, "*", "*") in pi && pi[(-1, "*", "*")] == 1.0
    ensures InBeam(beams[|words|], best.0, best.1)
    ensures forall t, u :: InBeam(beams[|words|], t, u) ==> pi[(|words| - 1, t, u)] <= pi[(|words| - 1, best.0, best.1)]
    ensures |words| == 1 ==> path[0] == best.0 == "*"
    ensures |words| >= 2 ==> path[|words| - 2] == best.0 && path[|words| - 1] == best.1
    ensures forall p :: 1 <= p < |words| ==> InBeam(beams[p + 1], path[p - 1], path[p])
    ensures forall p :: 2 <= p < |words| ==> path[p - 2] == bp[(p, path[p - 1], path[p])]
    ensures |words| >= 2 ==> forall i :: 0 <= i < |words| ==> path[i] in ys
    ensures forall i :: 0 <= i < |tags| ==> Emitted(tags[i], ys)
  {
    var n := |words|;
    var scores, backs, last;
    scores, backs, last, beams, cands := Forward(n, ys, q, beam);
    pi, bp := scores, backs;
    var c := FinalPair(scores, n - 1, last);
    FinalChoice(scores, n - 1, last, c);
    best := c.arg;
    var untagged := Backtrack(backs, n, c.arg, beams);
    path := untagged;
    if n >= 2 {
      PathInY(pi, bp, q, ys, beams, n, path);
    } else {
      OneWordStart(pi, bp, q, ys, beams, best);
    }
    tags := Override(words, untagged);
    EmittedTags(words, tags, path, ys);
  }

  /** The tags the decoder can give: a tag of `Y`, the start symbol `*` of
      a one-word sentence, or `:` for `;` and `--`. */
  predicate Emitted(tag: string, ys: seq<string>) {
    tag in ys || tag == "*" || tag == ":"
  }

  lemma EmittedTags(words: seq<string>, tags: seq<string>, path: seq<string>, ys: seq<string>)
    requires |tags| == |words| == |path| >= 1
    requires forall i :: 0 <= i < |words| ==> tags[i] == if words[i] in [";", "--"] then ":" else path[i]
    requires |words| == 1 ==> path[0] == "*"
    requires |words| >= 2 ==> forall i :: 0 <= i < |words| ==> path[i] in ys
    ensures forall i :: 0 <= i < |tags| ==> Emitted(tags[i], ys)
  {
    forall i | 0 <= i < |tags| ensures Emitted(tags[i], ys) {
      if words[i] !in [";", "--"] {
        assert tags[i] == path[i];
      }
    }
  }
}
