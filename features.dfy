/** The feature vocabulary of the tagger: eleven feature classes (100 to 110)
    and the keys that identify a feature inside its class, together with the
    sub-classes ("shapes") of the number, capital-letter and morphology
    classes 108, 109 and 110. The shape functions are shared by corpus
    counting and feature activation, which apply the same decision chains. */
module Features {
  import opened Text
  import opened Patterns
  import opened Wrappers

  datatype FeatureClass = F100 | F101 | F102 | F103 | F104 | F105 | F106 | F107 | F108 | F109 | F110

  /** The classes in the order the tagger counts, indexes and merges them. */
  const Classes: seq<FeatureClass> := [F100, F101, F102, F103, F104, F105, F106, F107, F108, F109, F110]

  /** Sub-classes 108.1 to 108.8 of words that contain a digit. */
  datatype NumberShape = N1 | N21 | N22 | N31 | N32 | N4 | N5 | N6 | N7(hyphens: nat) | N8(hyphens: nat)

  /** Sub-classes 109.1 to 109.14 of capitalised words. */
  datatype CapitalShape = C1 | C2 | C3 | C4 | C5 | C6 | C7 | C8 | C9 | C11 | C12 | C13(hyphens: nat) | C14

  /** Sub-classes 110.1 to 110.93 of word-form cues. */
  datatype MorphShape = M1 | M2 | M3 | M4 | M5 | M6 | M7 | M8 | M9 | M11 | M12 | M13 | M14 | M92 | M93

  /** The shapes of the long-word rules 110.1, 110.2 and 110.11 to 110.14. */
  predicate LongShape(x: MorphShape) {
    x.M1? || x.M2? || x.M11? || x.M12? || x.M13? || x.M14?
  }

  /** The shapes of the rules 110.5 to 110.93. */
  predicate OtherShape(x: MorphShape) {
    x.M5? || x.M6? || x.M7? || x.M8? || x.M9? || x.M92? || x.M93?
  }

  /** The tuple keys of the feature dictionaries, one constructor per class:
      `(100, word, tag)`, `(101, suffix, tag)`, ..., `(110.x, tag)`. */
  datatype FeatureKey =
    | WordTag(word: string, tag: string)
    | SuffixTag(suffix: string, tag: string)
    | PrefixTag(prefix: string, tag: string)
    | TagTrigram(prevPrevTag: string, prevTag: string, tag: string)
    | TagBigram(prevTag: string, tag: string)
    | TagUnigram(tag: string)
    | PrevWordTag(prevWord: string, tag: string)
    | NextWordTag(nextWord: string, tag: string)
    | NumberTag(number: NumberShape, tag: string)
    | CapitalTag(capital: CapitalShape, prevTag: string, tag: string)
    | MorphTag(morph: MorphShape, tag: string)

  /** Position of a class in the counting order. */
  function ClassIndex(c: FeatureClass): (i: nat)
    ensures i < |Classes| && Classes[i] == c
  {
    match c
    case F100 => 0 case F101 => 1 case F102 => 2 case F103 => 3 case F104 => 4 case F105 => 5
    case F106 => 6 case F107 => 7 case F108 => 8 case F109 => 9 case F110 => 10
  }

  /** Every class appears once in the counting order. */
  lemma ClassesDistinct()
    ensures forall i, j :: 0 <= i < j < |Classes| ==> Classes[i] != Classes[j]
  {
    forall i | 0 <= i < |Classes| ensures ClassIndex(Classes[i]) == i {
    }
  }

  function ClassOf(k: FeatureKey): FeatureClass {
    match k
    case WordTag(_, _) => F100
    case SuffixTag(_, _) => F101
    case PrefixTag(_, _) => F102
    case TagTrigram(_, _, _) => F103
    case TagBigram(_, _) => F104
    case TagUnigram(_) => F105
    case PrevWordTag(_, _) => F106
    case NextWordTag(_, _) => F107
    case NumberTag(_, _) => F108
    case CapitalTag(_, _, _) => F109
    case MorphTag(_, _) => F110
  }

  /** A key of class `cls` of the shape the counting pass produces: class-102
      prefixes have one to seven characters. */
  predicate WellKeyed(cls: FeatureClass, k: FeatureKey) {
    ClassOf(k) == cls && (k.PrefixTag? ==> 1 <= |k.prefix| <= 7)
  }

  /** The last field of `re.split('-', w)`. */
  function LastHyphenPart(w: string): string {
    var parts := Split(w, {'-'});
    parts[|parts| - 1]
  }

  /** The one category of the elif chain 108.1 / 108.2x / 108.3x / 108.4 /
      108.5 that a word with a digit falls in, if any. */
  function NumberCategory(w: string): (r: Option<NumberShape>)
    requires HasDigit(w)
    ensures r.Some? ==> r.value in {N1, N21, N22, N31, N32, N4, N5}
    ensures r == Some(N1) <==> MatchWords(Split(w, NumberSeparators))
  {
    var hyphens := CountChar(w, '-');
    var parts := Split(w, {'-'});
    if MatchWords(Split(w, NumberSeparators)) then Some(N1)
    else if hyphens > 1 && LettersNumbers(parts) && !StartsWith(w, "mid") then
      (if Letters(parts[|parts| - 1]) then Some(N21) else Some(N22))
    else if hyphens == 1 && LettersNumbers(parts) then
      (if IsLower(w[0]) then Some(N31) else Some(N32))
    else if hyphens > 1 && NumbersLetters(parts) then Some(N4)
    else if hyphens == 1 && NumbersLetters(parts) then Some(N5)
    else None
  }

  /** The class-108 shapes of a word, in the order the features fire: the
      category of the elif chain, then the year pattern 108.6, then 108.7 or
      108.8 (with the number of hyphens) when neither of those matched. */
  function NumberShapes(w: string): (r: seq<NumberShape>)
    ensures r != [] <==> HasDigit(w)
    ensures |r| <= 2
    ensures N6 in r <==> HasDigit(w) && YearLike(w)
    ensures |r| == 2 ==> r[0] in {N1, N21, N22, N31, N32, N4, N5} && r[1] == N6
    ensures forall j :: 0 <= j < |r| && (r[j].N7? || r[j].N8?) ==> |r| == 1
    ensures forall j :: 0 <= j < |r| && (r[j].N7? || r[j].N8?) ==>
              NumberCategory(w) == None && !YearLike(w) && r[j].hyphens == CountChar(w, '-')
  {
    if !HasDigit(w) then []
    else
      var category := if NumberCategory(w).Some? then [NumberCategory(w).value] else [];
      var year := if YearLike(w) then [N6] else [];
      var hyphens := CountChar(w, '-');
      var other :=
        if category == [] && year == [] then
          (if Letters(LastHyphenPart(w)) then [N7(hyphens)] else [N8(hyphens)])
        else [];
      category + year + other
  }

  /** The class-109 decision chain for the word `w` with neighbours `prev`
      and `next`; `first` says the word is the first of its sentence. The
      branches 109.5 to 109.8 are kept as written: their guards repeat each
      other, so once the 109.5 guard holds no later branch is tried. */
  function CapitalCategory(first: bool, w: string, prev: string, next: string): (r: Option<CapitalShape>)
    ensures r.Some? ==> r.value in {C1, C2, C3, C4, C5, C6, C7, C8, C9, C11, C12}
    ensures r.Some? ==> StartsUpper(w)
  {
    var sentenceStart := first || prev in ["``", "."];
    if !first && CapitalWithPunct(w) && StartsUpper(next) && StartsUpper(prev) then Some(C1)
    else if !first && CapitalWithPunct(w) && StartsUpper(prev) then Some(C2)
    else if !first && CapitalWithPunct(w) then Some(C3)
    else if !first && StartsUpper(w) && StartsUpper(next) && StartsUpper(prev) then Some(C4)
    else if sentenceStart then
      (if CapitalWithPunct(w) && StartsUpper(next) && StartsUpper(prev) then Some(C5) else None)
    else if sentenceStart then
      (if CapitalWithPunct(w) && StartsUpper(next) then Some(C6) else None)
    else if sentenceStart then
      (if CapitalWithPunct(w) then Some(C7) else None)
    else if sentenceStart then
      (if StartsUpper(w) && StartsUpper(next) && StartsUpper(prev) then Some(C8) else None)
    else if AllCaps(w) && AllCaps(next) && AllCaps(prev) then Some(C9)
    else if AllCaps(w) && AllCaps(next) then Some(C11)
    else if AllCaps(w) then Some(C12)
    else None
  }

  /** The class-109 shapes: the category of the chain, then 109.13 (with the
      number of hyphens) for a capitalised word and 109.14 for a lower-case
      letter followed later by a capital. */
  function CapitalShapes(first: bool, w: string, prev: string, next: string): (r: seq<CapitalShape>)
    ensures |r| <= 3
    ensures forall j :: 0 <= j < |r| && r[j] !in {C14} && !r[j].C13? ==> j == 0
    ensures C13(CountChar(w, '-')) in r <==> StartsUpper(w)
    ensures C14 in r <==> LowerThenUpper(w)
    ensures r != [] ==> StartsUpper(w) || LowerThenUpper(w)
  {
    var category := CapitalCategory(first, w, prev, next);
    (if category.Some? then [category.value] else [])
    + (if StartsUpper(w) then [C13(CountChar(w, '-'))] else [])
    + (if LowerThenUpper(w) then [C14] else [])
  }

  /** Which of the two spellings of the class-110 rules is applied: the
      counting pass and feature activation write rules 110.3, 110.6 and the
      foreign-word list of 110.92 differently. */
  datatype RuleSet = Counting | Activation

  function ForeignWords(rules: RuleSet): seq<string> {
    if rules == Counting then ["Treponema", "cerevisiae", "pallidum", "Borrelia", "burgdorferi", "vitro", "vivo", "i.e.", "e.g."]
    else ["Treponema", "pallidum", "Borrelia", "burgdorferi", "vitro", "vivo"]
  }

  /** Rules 110.1, 110.2 and 110.11 to 110.14 for words of thirteen letters
      or more, decided by their ending. */
  function LongWordShapes(w: string): (r: seq<MorphShape>)
    ensures r != [] <==> |w| >= 13
    ensures forall x :: x in r ==> LongShape(x)
    ensures M2 in r ==> M1 in r && EndsWith(w, "s")
  {
    if |w| < 13 then []
    else if EndsWith(w, "ing") then [M11]
    else if EndsWith(w, "ed") then [M14]
    else if EndsWith(w, "ally") || EndsWith(w, "ely") || EndsWith(w, "tly") then [M12]
    else if || EndsWith(w, "tant") || EndsWith(w, "cal") || EndsWith(w, "ic") || EndsWith(w, "ive")
            || EndsWith(w, "nal") || EndsWith(w, "-dependent") || EndsWith(w, "-sensitive")
            || EndsWith(w, "-specific") || EndsWith(w, "tly") then [M13]
    else (if EndsWith(w, "s") then [M2] else []) + [M1]
  }

  /** Rule 110.3: cardinal numbers, Roman II to IV and bracketed ranges. */
  predicate CardinalWord(w: string, rules: RuleSet) {
    || (if rules == Counting then CardinalCounted(w) else CardinalActive(w))
    || w in ["II", "III", "IV"]
    || BracketedRange(w)
  }

  predicate NounWord(w: string, rules: RuleSet) {
    if rules == Counting then NounCounted(w) else NounActive(w)
  }

  /** `[s]` when `b` holds, else nothing: one rule of a group whose rules are
      tested independently. */
  function When(b: bool, s: MorphShape): (r: seq<MorphShape>)
    ensures |r| <= 1 && (s in r <==> b) && forall x :: x in r ==> x == s
  {
    if b then [s] else []
  }

  /** The shapes of rules 110.5 to 110.93 given which of their tests hold;
      the rules are tested independently and fire in this order. */
  function OtherShapesOf(abbrev: bool, noun: bool, numberDash: bool, wordDash: bool, dotted: bool,
                         foreign: bool, inVitro: bool, roman: bool): (r: seq<MorphShape>)
    ensures forall x :: x in r ==> OtherShape(x)
  {
    var a := When(abbrev, M5) + When(noun, M6) + When(numberDash, M7);
    var b := When(wordDash, M8) + When(dotted, M9) + When(foreign, M92);
    a + b + When(inVitro, M92) + When(roman, M93)
  }

  /** Rule 110.93 fires exactly for the Roman numerals i to iv. */
  lemma RomanRule(abbrev: bool, noun: bool, numberDash: bool, wordDash: bool, dotted: bool,
                  foreign: bool, inVitro: bool, roman: bool)
    ensures M93 in OtherShapesOf(abbrev, noun, numberDash, wordDash, dotted, foreign, inVitro, roman) <==> roman
  {
    var a := When(abbrev, M5) + When(noun, M6) + When(numberDash, M7);
    var b := When(wordDash, M8) + When(dotted, M9) + When(foreign, M92);
    assert M93 !in a + b + When(inVitro, M92);
  }

  /** Rule 110.92 fires for a foreign word and for "in" before "vitro" or
      "vivo"; either test alone suffices. */
  lemma ForeignRule(abbrev: bool, noun: bool, numberDash: bool, wordDash: bool, dotted: bool,
                    foreign: bool, inVitro: bool, roman: bool)
    ensures M92 in OtherShapesOf(abbrev, noun, numberDash, wordDash, dotted, foreign, inVitro, roman) <==> foreign || inVitro
  {
    var a := When(abbrev, M5) + When(noun, M6) + When(numberDash, M7);
    assert M92 !in a && M92 !in When(roman, M93);
  }

  /** The test of rule 110.92 on the word itself: a word of the foreign-word
      list. */
  predicate ForeignWord(w: string, rules: RuleSet) {
    w in ForeignWords(rules)
  }

  /** The test of rule 110.92 on a pair of words: `in` or `In` followed by
      `vitro` or `vivo`. */
  predicate InVitro(w: string, next: Option<string>) {
    w in ["in", "In"] && next.Some? && next.value in ["vitro", "vivo"]
  }

  /** The test of rule 110.93: the Roman numerals i to iv. */
  predicate RomanNumeral(w: string) {
    w in ["i", "ii", "iii", "iv"]
  }

  /** Rules 110.5 to 110.93, tried when neither 110.3 nor 110.4 applies;
      `next` is the following word of the sentence, if there is one. */
  function OtherWordShapes(w: string, next: Option<string>, rules: RuleSet): (r: seq<MorphShape>)
    ensures forall x :: x in r ==> OtherShape(x)
  {
    OtherShapesOf(PluralAbbrev(w), NounWord(w, rules), NumberDashWord(w), WordDashNumber(w),
                  EndsWith(w, ".") && w != ".", ForeignWord(w, rules), InVitro(w, next), RomanNumeral(w))
  }

  /** The class-110 shapes of a word: the long-word rules first, then 110.3
      alone, or 110.4 alone, or the shapes of the group 110.5 to 110.93. */
  function MorphShapes(w: string, next: Option<string>, rules: RuleSet): (r: seq<MorphShape>)
    ensures forall x :: x in r ==> LongShape(x) || x == M3 || x == M4 || OtherShape(x)
    ensures |LongWordShapes(w)| <= |r| && r[..|LongWordShapes(w)|] == LongWordShapes(w)
    ensures CardinalWord(w, rules) || HyphenAdjective(w) ==> |r| == |LongWordShapes(w)| + 1
  {
    Arrange(LongWordShapes(w), CardinalWord(w, rules), HyphenAdjective(w), OtherWordShapes(w, next, rules))
  }

  /** The long-word shapes followed by 110.3 if `cardinal`, else 110.4 if
      `hyphen`, else the shapes of the group 110.5 to 110.93. */
  function Arrange(long: seq<MorphShape>, cardinal: bool, hyphen: bool, others: seq<MorphShape>): (r: seq<MorphShape>)
  {
    long + (if cardinal then [M3] else if hyphen then [M4] else others)
  }

  lemma ArrangeCardinal(long: seq<MorphShape>, cardinal: bool, hyphen: bool, others: seq<MorphShape>)
    requires forall x :: x in long ==> LongShape(x)
    requires forall x :: x in others ==> OtherShape(x)
    ensures M3 in Arrange(long, cardinal, hyphen, others) <==> cardinal
    ensures M4 in Arrange(long, cardinal, hyphen, others) <==> !cardinal && hyphen
    ensures cardinal || hyphen ==> forall x :: x in Arrange(long, cardinal, hyphen, others) ==> LongShape(x) || x == M3 || x == M4
  {
    assert M3 !in long && M4 !in long && M3 !in others && M4 !in others;
  }

  /** Rule 110.3 fires exactly for cardinal words. */
  lemma CardinalRule(w: string, next: Option<string>, rules: RuleSet)
    ensures M3 in MorphShapes(w, next, rules) <==> CardinalWord(w, rules)
  {
    ArrangeCardinal(LongWordShapes(w), CardinalWord(w, rules), HyphenAdjective(w), OtherWordShapes(w, next, rules));
  }

  /** Rule 110.4 fires exactly for hyphenated adjectives that are not
      cardinal. */
  lemma HyphenAdjectiveRule(w: string, next: Option<string>, rules: RuleSet)
    ensures M4 in MorphShapes(w, next, rules) <==> !CardinalWord(w, rules) && HyphenAdjective(w)
  {
    ArrangeCardinal(LongWordShapes(w), CardinalWord(w, rules), HyphenAdjective(w), OtherWordShapes(w, next, rules));
  }

  /** A shape of the group 110.5 to 110.93 is arranged exactly when neither
      110.3 nor 110.4 applies and the group yields it. */
  lemma ArrangeOther(long: seq<MorphShape>, cardinal: bool, hyphen: bool, others: seq<MorphShape>, x: MorphShape)
    requires forall y :: y in long ==> LongShape(y)
    requires OtherShape(x)
    ensures x in Arrange(long, cardinal, hyphen, others) <==> !cardinal && !hyphen && x in others
  {
    assert x !in long;
  }

  /** Rule 110.93 fires exactly for the Roman numerals i to iv, and only
      when neither 110.3 nor 110.4 applies. */
  lemma RomanWordRule(w: string, next: Option<string>, rules: RuleSet)
    ensures M93 in MorphShapes(w, next, rules)
            <==> !CardinalWord(w, rules) && !HyphenAdjective(w) && RomanNumeral(w)
  {
    RomanRule(PluralAbbrev(w), NounWord(w, rules), NumberDashWord(w), WordDashNumber(w),
              EndsWith(w, ".") && w != ".", ForeignWord(w, rules), InVitro(w, next), RomanNumeral(w));
    ArrangeOther(LongWordShapes(w), CardinalWord(w, rules), HyphenAdjective(w), OtherWordShapes(w, next, rules), M93);
  }

  /** Rule 110.92 fires exactly for a word of the foreign-word list and for
      `in` or `In` followed by `vitro` or `vivo`, and only when neither 110.3
      nor 110.4 applies. */
  lemma ForeignWordRule(w: string, next: Option<string>, rules: RuleSet)
    ensures M92 in MorphShapes(w, next, rules)
            <==> && !CardinalWord(w, rules) && !HyphenAdjective(w)
                 && (ForeignWord(w, rules) || InVitro(w, next))
  {
    ForeignRule(PluralAbbrev(w), NounWord(w, rules), NumberDashWord(w), WordDashNumber(w),
                EndsWith(w, ".") && w != ".", ForeignWord(w, rules), InVitro(w, next), RomanNumeral(w));
    ArrangeOther(LongWordShapes(w), CardinalWord(w, rules), HyphenAdjective(w), OtherWordShapes(w, next, rules), M92);
  }

  /** When rule 110.3 or 110.4 fires, none of the rules 110.5 to 110.93 is
      tried. */
  lemma CardinalExcludesOthers(w: string, next: Option<string>, rules: RuleSet)
    requires M3 in MorphShapes(w, next, rules) || M4 in MorphShapes(w, next, rules)
    ensures forall x :: x in MorphShapes(w, next, rules) ==> LongShape(x) || x == M3 || x == M4
  {
    ArrangeCardinal(LongWordShapes(w), CardinalWord(w, rules), HyphenAdjective(w), OtherWordShapes(w, next, rules));
  }

  /** 108.7 and 108.8 fire only for words with a digit that no other class-108
      rule matched; the year pattern is tested independently of the chain. */
  lemma NumberShapesExclusive(w: string)
    ensures forall j, k :: 0 <= j < k < |NumberShapes(w)| ==> NumberShapes(w)[j] != NumberShapes(w)[k]
    ensures HasDigit(w) && NumberCategory(w) == None && !YearLike(w) ==> |NumberShapes(w)| == 1
  {
  }

  /** The examples of the class-108 documentation: `1980s` is a year and
      nothing else. */
  lemma YearExample1980s(w: string)
    requires w == "1980s"
    ensures NumberShapes(w) == [N6]
  {
    assert HasDigit(w) by { assert IsDigit(w[0]); }
    assert Free(w, NumberSeparators);
    SplitFree(w, NumberSeparators);
    assert !MatchWords([w]) by { assert !IsDigit(w[4]); }
    assert CountChar(w, '-') == 0;
    assert NumberCategory(w) == None;
    assert YearLike(w) by {
      assert EndsWith(w, "s");
      var core := w[..|w| - 1];
      assert core == "1980" && core[|core| - 4..] == core;
      assert AllDigits(core);
      assert core[..|core| - 4] == "";
    }
  }

  /** `mid-1980` matches the year pattern, so 108.6 fires for it whatever
      the elif chain decides. */
  lemma YearExampleMid1980(w: string)
    requires w == "mid-1980"
    ensures YearLike(w) && N6 in NumberShapes(w)
  {
    assert HasDigit(w) by { assert IsDigit(w[4]); }
    YearLikeHyphen("mid", "1980", "");
    assert w == "mid" + "-" + "1980" + "";
  }

  /** So does `mid-1980s`, with the plural `s`; neither hyphenated
      letter/number category fires, so 108.6 is its only shape. */
  lemma YearExampleMid1980s(w: string)
    requires w == "mid-1980s"
    ensures YearLike(w) && NumberShapes(w) == [N6]
  {
    var mid, year := "mid", "1980s";
    assert w == mid + "-" + "1980" + "s" && w == mid + ['-'] + year;
    YearLikeHyphen(mid, "1980", "s");
    assert Free(mid, NumberSeparators) && Free(year, {'-'}) && Free(year, GroupSeparators);
    assert IsDigit(year[0]) && !IsDigit(year[4]);
    HyphenPairNoCategory(mid, year, 4);
  }

  /** Two hyphen-joined parts, the first starting with a non-digit and the
      second holding one, fall in none of 108.1 to 108.5 when neither part is
      a number group. */
  lemma HyphenPairNoCategory(p: string, q: string, k: nat)
    requires |p| > 0 && Free(p, NumberSeparators) && !IsDigit(p[0])
    requires k < |q| && Free(q, {'-'}) && Free(q, GroupSeparators) && !IsDigit(q[k])
    requires HasDigit(p + ['-'] + q)
    ensures NumberCategory(p + ['-'] + q) == None
  {
    HyphenPairParts(p, q);
    var parts := Split(p + ['-'] + q, {'-'});
    NoNumberGroup(p, 0);
    NoNumberGroup(q, k);
    assert !LettersNumbers(parts) by { assert parts[1] != "" && 1 % 2 == 1; }
    assert !NumbersLetters(parts) by { assert parts[0] != "" && 0 % 2 == 0; }
  }

  /** The fields of two hyphen-joined parts at the separators of 108.1 and
      at `-`. */
  lemma HyphenPairParts(p: string, q: string)
    requires |p| > 0 && Free(p, NumberSeparators) && !IsDigit(p[0]) && Free(q, {'-'})
    ensures !MatchWords(Split(p + ['-'] + q, NumberSeparators))
    ensures Split(p + ['-'] + q, {'-'}) == [p, q]
  {
    SplitAt(p, '-', q, NumberSeparators);
    assert Split(p + ['-'] + q, NumberSeparators)[0] == p;
    SplitAt(p, '-', q, {'-'});
    SplitFree(q, {'-'});
  }

  /** A part with a non-digit and no group separator is not a number group. */
  lemma NoNumberGroup(s: string, i: nat)
    requires i < |s| && Free(s, GroupSeparators) && !IsDigit(s[i])
    ensures !NumberGroup(s)
  {
    SplitFree(s, GroupSeparators);
    assert Split(s, GroupSeparators)[0] == s;
  }

  /** The abbreviated year `'80s` of the documentation. */
  lemma YearExampleQuoted(w: string)
    requires w == "'80s"
    ensures NumberShapes(w) == [N6]
  {
    assert HasDigit(w) by { assert IsDigit(w[1]); }
    assert YearLike(w);
    assert !MatchWords(Split(w, NumberSeparators)) by {
      SplitFree(w, NumberSeparators);
      assert !IsDigit(w[0]);
    }
    assert CountChar(w, '-') == 0;
  }

  /** Letters, a hyphen and four digits, optionally followed by `s`, make a
      year such as `mid-1980s`. */
  lemma YearLikeHyphen(lead: string, digits: string, plural: string)
    requires AllLetters(lead) && |digits| == 4 && AllDigits(digits) && plural in {"", "s"}
    ensures YearLike(lead + "-" + digits + plural)
  {
    var w := lead + "-" + digits + plural;
    var core := lead + "-" + digits;
    assert w == core + plural;
    if plural == "s" {
      assert EndsWith(w, "s") && w[..|w| - 1] == core;
    } else {
      assert w == core && w[|w| - 1] == digits[3];
      assert !EndsWith(w, "s") by { assert w[|w| - 1..] == [digits[3]]; }
    }
    assert core[|core| - 4..] == digits;
    var front := core[..|core| - 4];
    assert front == lead + "-" && front[..|front| - 1] == lead;
  }

  /** A string of digits is a number group. */
  lemma NumberGroupDigits(s: string)
    requires Digits(s)
    ensures NumberGroup(s)
  {
    assert Free(s, GroupSeparators);
    SplitFree(s, GroupSeparators);
    assert Split(s, GroupSeparators)[0] != "";
  }

  /** Rules 109.5 to 109.8 never fire: at the first word the previous word is
      `*`, and after `` or `.` it is one of those; none of them is capitalised,
      and the guards of 109.6 to 109.8 are only reached when that of 109.5
      already held. */
  lemma CapitalDeadRules(first: bool, w: string, prev: string, next: string)
    requires first ==> prev == "*"
    ensures CapitalCategory(first, w, prev, next) !in {Some(C5), Some(C6), Some(C7), Some(C8)}
  {
  }

  /** The first word of a sentence never gets a category from the chain:
      the 109.5 branch is taken and its inner test fails. */
  lemma FirstWordNoCapitalCategory(w: string, next: string)
    ensures CapitalCategory(true, w, "*", next) == None
  {
  }
}
