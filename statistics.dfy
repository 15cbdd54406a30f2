/** Corpus statistics: the counting pass of `ClassStatistics`. A training
    file is a sequence of lines of `word_tag` tokens separated by spaces; for
    every feature class the tagger counts, in an insertion-ordered
    dictionary, how often each key of that class occurs in the corpus, and
    the class-100 pass also collects the sorted set of tags. */
module Statistics {
  import opened Text
  import opened Patterns
  import opened Wrappers
  import opened OrderedMaps
  import opened Features

  /** `re.split(' |[\n]', line)` with a trailing empty field removed. */
  function Tokens(line: string): (r: seq<string>)
    ensures forall j :: 0 <= j < |r| ==> Free(r[j], {' ', '\n'})
    ensures |r| <= |Split(line, {' ', '\n'})|
  {
    var fields := Split(line, {' ', '\n'});
    if fields[|fields| - 1] == "" then fields[..|fields| - 1] else fields
  }

  /** `token.split('_')` */
  function Fields(token: string): (r: seq<string>)
    ensures |r| >= 1
  {
    Split(token, {'_'})
  }

  /** `token.split('_')[0]` */
  function WordOf(token: string): string {
    Fields(token)[0]
  }

  /** `token.split('_')[1]`, or the empty string where that part is missing
      (a token the counting methods never get past). */
  function TagOf(token: string): string {
    var f := Fields(token);
    if |f| >= 2 then f[1] else ""
  }

  function Words(tokens: seq<string>): (r: seq<string>)
    ensures |r| == |tokens| && forall j :: 0 <= j < |r| ==> r[j] == WordOf(tokens[j])
  {
    seq(|tokens|, j requires 0 <= j < |tokens| => WordOf(tokens[j]))
  }

  function Tags(tokens: seq<string>): (r: seq<string>)
    ensures |r| == |tokens| && forall j :: 0 <= j < |r| ==> r[j] == TagOf(tokens[j])
  {
    seq(|tokens|, j requires 0 <= j < |tokens| => TagOf(tokens[j]))
  }

  /** Classes 100 to 102 unpack the fields of a token into two names. */
  predicate ExactPair(cls: FeatureClass) {
    cls == F100 || cls == F101 || cls == F102
  }

  /** Whether the counting method of class `cls` can read a token: classes
      100 to 102 unpack `word, tag = token.split('_')`, which needs exactly
      two parts; the others index the parts, which needs at least two. */
  predicate Parses(cls: FeatureClass, token: string) {
    var separators := CountChar(token, '_');
    if ExactPair(cls) then separators == 1 else separators >= 1
  }

  /** A token parses exactly when `split('_')` yields the number of parts
      its class unpacks or indexes. */
  lemma ParsesFields(cls: FeatureClass, token: string)
    ensures Parses(cls, token) <==> if ExactPair(cls) then |Fields(token)| == 2 else |Fields(token)| >= 2
  {
    SplitCount(token, '_');
  }

  /** `min(len(w) - 1, 7)`, the number of suffix and prefix lengths tried
      (none for the empty word). */
  function AffixCount(w: string): (n: nat)
    ensures n <= 7 && (|w| >= 1 ==> n < |w|) && (|w| == 0 ==> n == 0)
    ensures |w| >= 1 ==> n == if |w| - 1 < 7 then |w| - 1 else 7
  {
    if |w| <= 1 then 0 else if |w| - 1 < 7 then |w| - 1 else 7
  }

  /** The class-101 keys counted for `w`: suffixes of lengths 1 to `n` that
      are not all digits. */
  function SuffixKeys(w: string, tag: string, n: nat): (r: seq<FeatureKey>)
    requires n <= |w|
    ensures |r| <= n
    ensures forall k :: k in r ==>
              && k.SuffixTag? && k.tag == tag && 1 <= |k.suffix| <= n
              && k.suffix == w[|w| - |k.suffix|..] && !Digits(k.suffix)
  {
    if n == 0 then []
    else
      var s := w[|w| - n..];
      SuffixKeys(w, tag, n - 1) + (if Digits(s) then [] else [SuffixTag(s, tag)])
  }

  /** The class-102 keys counted for `w`: prefixes of lengths 1 to `n` that
      are not all digits. */
  function PrefixKeys(w: string, tag: string, n: nat): (r: seq<FeatureKey>)
    requires n <= |w|
    ensures |r| <= n
    ensures forall k :: k in r ==>
              && k.PrefixTag? && k.tag == tag && 1 <= |k.prefix| <= n
              && k.prefix == w[..|k.prefix|] && !Digits(k.prefix)
  {
    if n == 0 then []
    else
      var p := w[..n];
      PrefixKeys(w, tag, n - 1) + (if Digits(p) then [] else [PrefixTag(p, tag)])
  }

  /** Numbers are not split into affixes: `^[0-9]+([-,.:]?[0-9]?)*$`,
      `^[0-9]+([-,.:]*[0-9]*)*$` and `^[0-9]+\\/[0-9]+$`. */
  predicate NumberToken(w: string) {
    NumberLike(w) || EscapedFraction(w)
  }

  /** The keys the counting method of class `cls` counts for position `j`
      of a sentence, in the order it counts them. */
  function CountedKeys(cls: FeatureClass, words: seq<string>, tags: seq<string>, j: nat): (r: seq<FeatureKey>)
    requires j < |words| == |tags|
    ensures forall k :: k in r ==> WellKeyed(cls, k)
  {
    var w := words[j];
    var tag := tags[j];
    var n := |words|;
    var prevTag := if j > 0 then tags[j - 1] else "";
    match cls
    case F100 => [WordTag(w, tag)]
    case F101 => if NumberToken(w) then [] else SuffixKeys(w, tag, AffixCount(w))
    case F102 => if NumberToken(w) then [] else PrefixKeys(w, tag, AffixCount(w))
    case F103 => [TagTrigram(if j > 1 then tags[j - 2] else "", prevTag, tag)]
    case F104 => [TagBigram(prevTag, tag)]
    case F105 => [TagUnigram(tag)]
    case F106 => [PrevWordTag(if j != 0 then words[j - 1] else "*", tag)]
    case F107 => [NextWordTag(if j != n - 1 then words[j + 1] else "STOP", tag)]
    case F108 => NumberKeys(NumberShapes(w), tag)
    case F109 =>
      // the next word is read only when `j + 1 < len - 1`
      CapitalKeys(CapitalShapes(j == 0, w, if j > 0 then words[j - 1] else "*",
                                if j + 1 < n - 1 then words[j + 1] else "STOP"), prevTag, tag)
    case F110 => MorphKeys(MorphShapes(w, if j != n - 1 then Some(words[j + 1]) else None, Counting), tag)
  }

  /** Classes 100 and 103 to 107 count one key per position, and the
      suffix and prefix classes at most seven. */
  lemma CountedKeysSize(cls: FeatureClass, words: seq<string>, tags: seq<string>, j: nat)
    requires j < |words| == |tags|
    ensures cls in {F100, F103, F104, F105, F106, F107} ==> |CountedKeys(cls, words, tags, j)| == 1
    ensures cls in {F101, F102} ==> |CountedKeys(cls, words, tags, j)| <= 7
  {
  }

  /** Every key counted at a position carries the tag of that position. */
  lemma CountedKeysTag(cls: FeatureClass, words: seq<string>, tags: seq<string>, j: nat)
    requires j < |words| == |tags|
    ensures forall k :: k in CountedKeys(cls, words, tags, j) ==> k.tag == tags[j]
  {
  }

  function NumberKeys(shapes: seq<NumberShape>, tag: string): (r: seq<FeatureKey>)
    ensures |r| == |shapes| && forall s :: 0 <= s < |r| ==> r[s] == NumberTag(shapes[s], tag)
    ensures forall k :: k in r ==> ClassOf(k) == F108 && k.tag == tag
  {
    seq(|shapes|, s requires 0 <= s < |shapes| => NumberTag(shapes[s], tag))
  }

  function CapitalKeys(shapes: seq<CapitalShape>, prevTag: string, tag: string): (r: seq<FeatureKey>)
    ensures |r| == |shapes| && forall s :: 0 <= s < |r| ==> r[s] == CapitalTag(shapes[s], prevTag, tag)
    ensures forall k :: k in r ==> ClassOf(k) == F109 && k.tag == tag
  {
    seq(|shapes|, s requires 0 <= s < |shapes| => CapitalTag(shapes[s], prevTag, tag))
  }

  function MorphKeys(shapes: seq<MorphShape>, tag: string): (r: seq<FeatureKey>)
    ensures |r| == |shapes| && forall s :: 0 <= s < |r| ==> r[s] == MorphTag(shapes[s], tag)
    ensures forall k :: k in r ==> ClassOf(k) == F110 && k.tag == tag
  {
    seq(|shapes|, s requires 0 <= s < |shapes| => MorphTag(shapes[s], tag))
  }

  /** What a counting method reads at one position of a sentence: the keys
      it counts there, given the `word_tag` tokens of the sentence. */
  type Extractor = (seq<string>, nat) -> seq<FeatureKey>

  /** The extractor of class `cls`; positions outside the sentence yield
      nothing. */
  function Extract(cls: FeatureClass): Extractor {
    (tokens: seq<string>, j: nat) =>
      if j < |tokens| then CountedKeys(cls, Words(tokens), Tags(tokens), j) else []
  }

  /** Every key `f` extracts belongs to class `cls`. */
  ghost predicate ExtractsClass(f: Extractor, cls: FeatureClass) {
    forall tokens: seq<string>, j: nat, k :: k in f(tokens, j) ==> WellKeyed(cls, k)
  }

  lemma ExtractClass(cls: FeatureClass)
    ensures ExtractsClass(Extract(cls), cls)
  {
    forall tokens: seq<string>, j: nat, k | k in Extract(cls)(tokens, j)
      ensures WellKeyed(cls, k)
    {
      assert j < |tokens|;
    }
  }

  /** The keys counted for the first `n` tokens of a line. */
  function LineKeys(f: Extractor, tokens: seq<string>, n: nat): seq<FeatureKey>
    requires n <= |tokens|
  {
    if n == 0 then []
    else LineKeys(f, tokens, n - 1) + f(tokens, n - 1)
  }

  /** The keys counted over a whole corpus, line after line. */
  function CorpusKeys(f: Extractor, lines: seq<string>): seq<FeatureKey>
  {
    if lines == [] then []
    else
      var last := Tokens(lines[|lines| - 1]);
      CorpusKeys(f, lines[..|lines| - 1]) + LineKeys(f, last, |last|)
  }

  lemma {:induction false} LineKeysClass(f: Extractor, cls: FeatureClass, tokens: seq<string>, n: nat)
    requires ExtractsClass(f, cls) && n <= |tokens|
    ensures forall k :: k in LineKeys(f, tokens, n) ==> WellKeyed(cls, k)
  {
    if n > 0 {
      LineKeysClass(f, cls, tokens, n - 1);
    }
  }

  lemma {:induction false} CorpusKeysClass(f: Extractor, cls: FeatureClass, lines: seq<string>)
    requires ExtractsClass(f, cls)
    ensures forall k :: k in CorpusKeys(f, lines) ==> WellKeyed(cls, k)
    decreases |lines|
  {
    if lines != [] {
      CorpusKeysClass(f, cls, lines[..|lines| - 1]);
      var last := Tokens(lines[|lines| - 1]);
      LineKeysClass(f, cls, last, |last|);
    }
  }

  /** Every token of every line can be read by the counting method of `cls`. */
  predicate WellFormed(cls: FeatureClass, lines: seq<string>) {
    forall i, j :: 0 <= i < |lines| && 0 <= j < |Tokens(lines[i])| ==> Parses(cls, Tokens(lines[i])[j])
  }

  /** Token `j` of line `i` is the first one the method of `cls` cannot read. */
  predicate FirstMalformed(cls: FeatureClass, lines: seq<string>, i: nat, j: nat) {
    && i < |lines| && j < |Tokens(lines[i])|
    && !Parses(cls, Tokens(lines[i])[j])
    && WellFormed(cls, lines[..i])
    && forall k :: 0 <= k < j ==> Parses(cls, Tokens(lines[i])[k])
  }

  lemma KeysReadClass(cls: FeatureClass, lines: seq<string>, outcome: Outcome)
    ensures forall k :: k in KeysRead(Extract(cls), lines, outcome) ==> WellKeyed(cls, k)
  {
    ExtractClass(cls);
    match outcome
    case Done => CorpusKeysClass(Extract(cls), cls, lines);
    case Malformed(i, j) =>
      if i < |lines| && j <= |Tokens(lines[i])| {
        CorpusKeysClass(Extract(cls), cls, lines[..i]);
        LineKeysClass(Extract(cls), cls, Tokens(lines[i]), j);
      }
  }

  /** How a counting pass ends: it reads the whole file, or it stops with
      Python's ValueError or IndexError at the first token it cannot read. */
  datatype Outcome = Done | Malformed(line: nat, token: nat)

  /** The keys a counting pass has counted when it ends with `outcome`. */
  function KeysRead(f: Extractor, lines: seq<string>, outcome: Outcome): seq<FeatureKey> {
    match outcome
    case Done => CorpusKeys(f, lines)
    case Malformed(i, j) =>
      if i < |lines| && j <= |Tokens(lines[i])| then CorpusKeys(f, lines[..i]) + LineKeys(f, Tokens(lines[i]), j)
      else []
  }

  /** Python's `sorted` on strings: strictly increasing, so also distinct. */
  predicate StrictlySorted(s: seq<string>) {
    forall i, j :: 0 <= i < j < |s| ==> Less(s[i], s[j])
  }

  predicate Distinct(s: seq<string>) {
    forall i, j :: 0 <= i < j < |s| ==> s[i] != s[j]
  }

  /** The tags of the class-100 keys, which pair every token with its tag. */
  function TagsOf(keys: seq<FeatureKey>): set<string> {
    set k | k in keys :: k.tag
  }

  /** Insert `x` into a strictly sorted sequence unless it is already there. */
  method Insert(s: seq<string>, x: string) returns (r: seq<string>)
    requires StrictlySorted(s)
    ensures StrictlySorted(r)
    ensures (set y | y in r) == (set y | y in s) + {x}
  {
    var i := 0;
    while i < |s| && Less(s[i], x)
      invariant 0 <= i <= |s|
      invariant forall k :: 0 <= k < i ==> Less(s[k], x)
    {
      i := i + 1;
    }
    if i < |s| && s[i] == x {
      return s;
    }
    r := s[..i] + [x] + s[i..];
    assert forall k :: i <= k < |s| ==> Less(x, s[k]) by {
      if i < |s| {
        LessTotal(x, s[i]);
        forall k | i < k < |s| ensures Less(x, s[k]) {
          LessTransitive(x, s[i], s[k]);
        }
      }
    }
    assert (set y | y in r) == (set y | y in s) + {x} by {
      assert s == s[..i] + s[i..];
    }
  }

  /** `sorted(list(Y))`: the tags in Python's string order. */
  method SortTags(ys: seq<string>) returns (r: seq<string>)
    ensures StrictlySorted(r)
    ensures (set y | y in r) == (set y | y in ys)
  {
    r := [];
    var i := 0;
    while i < |ys|
      invariant 0 <= i <= |ys|
      invariant StrictlySorted(r)
      invariant (set y | y in r) == (set y | y in ys[..i])
    {
      r := Insert(r, ys[i]);
      assert ys[..i + 1] == ys[..i] + [ys[i]];
      i := i + 1;
    }
    assert ys[..i] == ys;
  }

  /** The counts of one class over a corpus, starting from an empty
      dictionary, are the numbers of occurrences of each key among the keys
      counted, listed in order of first occurrence; all belong to the class
      and all are at least one. */
  lemma CountsAreOccurrences(cls: FeatureClass, lines: seq<string>)
    ensures var keys := CorpusKeys(Extract(cls), lines);
            var m := Tally(Empty(), keys);
            && m.keys == Dedup(keys)
            && (forall k :: k in m.values ==> m.values[k] == Occ(keys, k) >= 1)
            && (forall k :: k in m.values ==> WellKeyed(cls, k))
  {
    var keys := CorpusKeys(Extract(cls), lines);
    TallyCounts(keys);
    TallyPositive(keys);
    ExtractClass(cls);
    CorpusKeysClass(Extract(cls), cls, lines);
  }

  /** Count the keys of one position, one `Increment` each. */
  method CountKeys(m: OMap<FeatureKey, nat>, keys: seq<FeatureKey>) returns (r: OMap<FeatureKey, nat>)
    requires OrderedMaps.Valid(m)
    ensures r == Tally(m, keys)
  {
    r := m;
    var k := 0;
    while k < |keys|
      invariant 0 <= k <= |keys|
      invariant OrderedMaps.Valid(r)
      invariant r == Tally(m, keys[..k])
    {
      r := Increment(r, keys[k]);
      assert keys[..k + 1][..k] == keys[..k];
      k := k + 1;
    }
    assert keys[..k] == keys;
  }

  /** The position of the first token from `j` on that class `cls` cannot
      read, or the length of the line when there is none. */
  function FirstUnreadable(cls: FeatureClass, tokens: seq<string>, j: nat): (n: nat)
    requires j <= |tokens|
    ensures j <= n <= |tokens|
    decreases |tokens| - j
  {
    if j == |tokens| || !Parses(cls, tokens[j]) then j else FirstUnreadable(cls, tokens, j + 1)
  }

  /** The tokens before `FirstUnreadable` all parse, and the token there, if
      any, does not. */
  lemma {:induction false} FirstUnreadableSpec(cls: FeatureClass, tokens: seq<string>, j: nat)
    requires j <= |tokens|
    ensures forall k :: j <= k < FirstUnreadable(cls, tokens, j) ==> Parses(cls, tokens[k])
    ensures FirstUnreadable(cls, tokens, j) < |tokens| ==> !Parses(cls, tokens[FirstUnreadable(cls, tokens, j)])
    decreases |tokens| - j
  {
    if j < |tokens| && Parses(cls, tokens[j]) {
      FirstUnreadableSpec(cls, tokens, j + 1);
    }
  }

  /** The body of the counting loop for one line: count the keys of every
      token, or stop at the first token class `cls` cannot read, reporting
      its position. */
  method CountLine(f: Extractor, cls: FeatureClass, m: OMap<FeatureKey, nat>, tokens: seq<string>)
    returns (r: OMap<FeatureKey, nat>, bad: Option<nat>)
    requires OrderedMaps.Valid(m)
    ensures bad.None? <==> FirstUnreadable(cls, tokens, 0) == |tokens|
    ensures bad.Some? ==> bad.value == FirstUnreadable(cls, tokens, 0)
    ensures r == Tally(m, LineKeys(f, tokens, FirstUnreadable(cls, tokens, 0)))
  {
    r := m;
    var j := 0;
    while j < |tokens|
      invariant 0 <= j <= |tokens|
      invariant FirstUnreadable(cls, tokens, j) == FirstUnreadable(cls, tokens, 0)
      invariant r == Tally(m, LineKeys(f, tokens, j))
    {
      if !Parses(cls, tokens[j]) {
        return r, Some(j);
      }
      r := CountKeys(r, f(tokens, j));
      LineTallyStep(f, m, tokens, j);
      j := j + 1;
    }
    return r, None;
  }

  /** Counting the keys of one more position extends the count of a line. */
  lemma LineTallyStep(f: Extractor, m: OMap<FeatureKey, nat>, tokens: seq<string>, j: nat)
    requires OrderedMaps.Valid(m) && j < |tokens|
    ensures Tally(m, LineKeys(f, tokens, j + 1)) == Tally(Tally(m, LineKeys(f, tokens, j)), f(tokens, j))
  {
    TallyAppend(m, LineKeys(f, tokens, j), f(tokens, j));
  }

  /** The counting loop of `set_class<cls>_dict` over the lines of the file,
      starting from the dictionary `m`. */
  method CountCorpus(f: Extractor, cls: FeatureClass, m: OMap<FeatureKey, nat>, lines: seq<string>)
    returns (r: OMap<FeatureKey, nat>, outcome: Outcome)
    requires OrderedMaps.Valid(m)
    ensures OrderedMaps.Valid(r)
    ensures outcome.Done? <==> WellFormed(cls, lines)
    ensures outcome.Malformed? ==> FirstMalformed(cls, lines, outcome.line, outcome.token)
    ensures r == Tally(m, KeysRead(f, lines, outcome))
  {
    r := m;
    var i := 0;
    while i < |lines|
      invariant 0 <= i <= |lines|
      invariant WellFormed(cls, lines[..i])
      invariant r == Tally(m, CorpusKeys(f, lines[..i]))
    {
      var tokens := Tokens(lines[i]);
      var r', bad := CountLine(f, cls, r, tokens);
      if bad.Some? {
        MalformedLine(f, cls, m, lines, i);
        return r', Malformed(i, bad.value);
      }
      WellFormedLine(f, cls, m, lines, i);
      r := r';
      i := i + 1;
    }
    assert lines[..i] == lines;
    return r, Done;
  }

  /** Line `i` of a file whose earlier lines all parse has a token class
      `cls` cannot read: the pass stops there, having counted the lines
      before it and the tokens of line `i` before that token. */
  lemma MalformedLine(f: Extractor, cls: FeatureClass, m: OMap<FeatureKey, nat>, lines: seq<string>, i: nat)
    requires OrderedMaps.Valid(m) && i < |lines| && WellFormed(cls, lines[..i])
    requires FirstUnreadable(cls, Tokens(lines[i]), 0) < |Tokens(lines[i])|
    ensures !WellFormed(cls, lines)
    ensures FirstMalformed(cls, lines, i, FirstUnreadable(cls, Tokens(lines[i]), 0))
    ensures Tally(Tally(m, CorpusKeys(f, lines[..i])), LineKeys(f, Tokens(lines[i]), FirstUnreadable(cls, Tokens(lines[i]), 0)))
         == Tally(m, KeysRead(f, lines, Malformed(i, FirstUnreadable(cls, Tokens(lines[i]), 0))))
  {
    var tokens := Tokens(lines[i]);
    var n := FirstUnreadable(cls, tokens, 0);
    FirstUnreadableSpec(cls, tokens, 0);
    TallyAppend(m, CorpusKeys(f, lines[..i]), LineKeys(f, tokens, n));
  }

  /** A line whose tokens all parse extends a well-formed prefix, and its
      keys extend the count. */
  lemma WellFormedLine(f: Extractor, cls: FeatureClass, m: OMap<FeatureKey, nat>, lines: seq<string>, i: nat)
    requires OrderedMaps.Valid(m) && i < |lines| && WellFormed(cls, lines[..i])
    requires FirstUnreadable(cls, Tokens(lines[i]), 0) == |Tokens(lines[i])|
    ensures WellFormed(cls, lines[..i + 1])
    ensures Tally(Tally(m, CorpusKeys(f, lines[..i])), LineKeys(f, Tokens(lines[i]), |Tokens(lines[i])|))
         == Tally(m, CorpusKeys(f, lines[..i + 1]))
  {
    var tokens := Tokens(lines[i]);
    FirstUnreadableSpec(cls, tokens, 0);
    TallyAppend(m, CorpusKeys(f, lines[..i]), LineKeys(f, tokens, |tokens|));
    CorpusKeysStep(f, lines, i);
    WellFormedExtend(cls, lines, i);
  }

  /** `self.Y.add(tag)` for the tag of every key, in order: a tag is
      appended the first time it is seen. */
  method AddTags(ys: seq<string>, keys: seq<FeatureKey>) returns (r: seq<string>)
    requires Distinct(ys)
    ensures Distinct(r)
    ensures (set t | t in r) == (set t | t in ys) + TagsOf(keys)
  {
    r := ys;
    var k := 0;
    while k < |keys|
      invariant 0 <= k <= |keys|
      invariant Distinct(r)
      invariant (set t | t in r) == (set t | t in ys) + TagsOf(keys[..k])
    {
      ghost var before := r;
      if keys[k].tag !in r {
        r := r + [keys[k].tag];
      }
      assert (set t | t in r) == (set t | t in before) + {keys[k].tag};
      TagsOfStep(keys, k);
      k := k + 1;
    }
    assert keys[..k] == keys;
  }

  lemma TagsOfStep(keys: seq<FeatureKey>, k: nat)
    requires k < |keys|
    ensures TagsOf(keys[..k + 1]) == TagsOf(keys[..k]) + {keys[k].tag}
  {
    assert keys[..k + 1] == keys[..k] + [keys[k]];
  }

  /** The dictionaries and tag set of `ClassStatistics`, one insertion-ordered
      dictionary per feature class. */
  class ClassStatistics {
    /** The lines of the training file. */
    const lines: seq<string>
    /** `self.Y`: the tags seen, distinct; sorted once class 100 is counted. */
    var Y: seq<string>
    var counts: map<FeatureClass, OMap<FeatureKey, nat>>

    ghost predicate Valid()
      reads this
    {
      && (forall c: FeatureClass :: c in counts && OrderedMaps.Valid(counts[c]))
      && (forall c: FeatureClass, k :: c in counts && k in counts[c].values ==> WellKeyed(c, k))
      && Distinct(Y)
    }

    constructor (file: seq<string>)
      ensures Valid() && lines == file && Y == []
      ensures forall c: FeatureClass :: c in counts && counts[c] == Empty()
    {
      lines := file;
      Y := [];
      counts := map c | c in Classes :: Empty();
      new;
      forall c: FeatureClass ensures c in counts && counts[c] == Empty() {
        assert c in Classes by { assert c == Classes[ClassIndex(c)]; }
      }
    }

    /** `set_class<cls>_dict`: count every key of class `cls` over the file,
        stopping at the first token the class cannot read. */
    method SetClassDict(cls: FeatureClass) returns (outcome: Outcome)
      requires Valid()
      modifies this`counts
      ensures Valid()
      ensures outcome.Done? <==> WellFormed(cls, lines)
      ensures outcome.Malformed? ==> FirstMalformed(cls, lines, outcome.line, outcome.token)
      ensures counts == old(counts)[cls := Tally(old(counts)[cls], KeysRead(Extract(cls), lines, outcome))]
    {
      var m;
      m, outcome := CountCorpus(Extract(cls), cls, counts[cls], lines);
      KeysReadClass(cls, lines, outcome);
      TallyKeys(counts[cls], KeysRead(Extract(cls), lines, outcome));
      counts := counts[cls := m];
    }

    /** `set_class100_dict`: count the word/tag pairs and collect the tags,
        which are sorted once the whole file has been read. */
    method SetClass100Dict() returns (outcome: Outcome)
      requires Valid()
      modifies this
      ensures Valid()
      ensures outcome.Done? <==> WellFormed(F100, lines)
      ensures outcome.Malformed? ==> FirstMalformed(F100, lines, outcome.line, outcome.token)
      ensures counts == old(counts)[F100 := Tally(old(counts)[F100], KeysRead(Extract(F100), lines, outcome))]
      ensures (set t | t in Y) == (set t | t in old(Y)) + TagsOf(KeysRead(Extract(F100), lines, outcome))
      ensures outcome.Done? ==> StrictlySorted(Y)
    {
      outcome := SetClassDict(F100);
      Y := AddTags(Y, KeysRead(Extract(F100), lines, outcome));
      if outcome.Done? {
        Y := SortTags(Y);
        assert Distinct(Y) by {
          forall i, j | 0 <= i < j < |Y| ensures Y[i] != Y[j] {
            LessIrreflexive(Y[i]);
          }
        }
      }
    }
  }

  lemma WellFormedExtend(cls: FeatureClass, lines: seq<string>, i: nat)
    requires i < |lines| && WellFormed(cls, lines[..i])
    requires forall k :: 0 <= k < |Tokens(lines[i])| ==> Parses(cls, Tokens(lines[i])[k])
    ensures WellFormed(cls, lines[..i + 1])
  {
    var pre := lines[..i + 1];
    forall a | 0 <= a < |pre|
      ensures forall b :: 0 <= b < |Tokens(pre[a])| ==> Parses(cls, Tokens(pre[a])[b])
    {
      if a < i {
        assert pre[a] == lines[..i][a];
      }
    }
  }

  lemma CorpusKeysStep(f: Extractor, lines: seq<string>, i: nat)
    requires i < |lines|
    ensures CorpusKeys(f, lines[..i + 1])
         == CorpusKeys(f, lines[..i]) + LineKeys(f, Tokens(lines[i]), |Tokens(lines[i])|)
  {
    assert lines[..i + 1][..i] == lines[..i];
  }
}
