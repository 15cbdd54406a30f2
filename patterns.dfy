/** The regular expressions of the feature templates, each written out as a
    predicate over the word it is applied to. Python's `re.match` anchors only
    at the start of the word and `re.search` anywhere; `$` means the end of
    the word. Every word these are applied to comes from splitting a line at
    spaces and newlines, so no word contains a newline and `.` in a pattern
    matches any character of it. */
module Patterns {
  import opened Text

  /** `[0-9\-,.:]`, the characters of numbers such as `1,000.5` or `3-4`. */
  const NumberChars: set<char> := {'0', '1', '2', '3', '4', '5', '6', '7', '8', '9', '-', ',', '.', ':'}
  /** `[][0-9]`, digits and square brackets. */
  const BracketDigitChars: set<char> := {'0', '1', '2', '3', '4', '5', '6', '7', '8', '9', '[', ']'}
  /** `[0-9\-.]` */
  const RangeChars: set<char> := {'0', '1', '2', '3', '4', '5', '6', '7', '8', '9', '-', '.'}
  /** `[0-9\-.,]` */
  const DecimalChars: set<char> := {'0', '1', '2', '3', '4', '5', '6', '7', '8', '9', '-', '.', ','}
  /** `[A-Z\-0-9.,]` */
  const AbbrevChars: set<char> :=
    {'A', 'B', 'C', 'D', 'E', 'F', 'G', 'H', 'I', 'J', 'K', 'L', 'M', 'N', 'O', 'P', 'Q', 'R', 'S',
     'T', 'U', 'V', 'W', 'X', 'Y', 'Z', '-', '0', '1', '2', '3', '4', '5', '6', '7', '8', '9', '.', ','}
  /** The separators of `re.split('[-]|[,]|[.]|[:]|[\\\\]|[/]|[%]', w)`. */
  const NumberSeparators: set<char> := {'-', ',', '.', ':', '\\', '/', '%'}
  /** The separators of `re.split('[,]|[:]|[\\\\]|[/]|[%]', w)`. */
  const GroupSeparators: set<char> := {',', ':', '\\', '/', '%'}

  /** `^[0-9]+$` */
  predicate Digits(s: string) { |s| > 0 && AllDigits(s) }

  /** `^[A-Za-z]+$` */
  predicate Letters(s: string) { |s| > 0 && AllLetters(s) }

  /** `^[A-Z]` (and `[A-Z]` under `re.match`): the word starts with a capital. */
  predicate StartsUpper(s: string) { |s| > 0 && IsUpper(s[0]) }

  /** `^[0-9]+([-,.:]?[0-9]?)*$` and `^[0-9]+([-,.:]*[0-9]*)*$` both describe
      a digit followed by any run of digits and `-,.:`. */
  predicate NumberLike(w: string) {
    |w| > 0 && IsDigit(w[0]) && AllIn(w, NumberChars)
  }

  /** `^[0-9]+\\/[0-9]+$`: an escaped fraction such as `1\/2`. */
  predicate EscapedFraction(w: string) {
    exists a :: 0 < a && a + 2 < |w| && AllDigits(w[..a]) && w[a] == '\\' && w[a + 1] == '/' && AllDigits(w[a + 2..])
  }

  /** `re_match_words('^[0-9]+$', parts)`: some part is non-empty and every
      non-empty part is all digits. */
  predicate MatchWords(parts: seq<string>) {
    && (exists j :: 0 <= j < |parts| && parts[j] != "")
    && (forall j :: 0 <= j < |parts| && parts[j] != "" ==> Digits(parts[j]))
  }

  /** A group of digits inside a hyphenated word, such as `1,000` or `3\/4`. */
  predicate NumberGroup(part: string) {
    MatchWords(Split(part, GroupSeparators))
  }

  /** `re_match_letters_numbers(['^[A-Za-z]+$', '^[0-9]+$'], parts)`: parts at
      even positions are letters, parts at odd positions are number groups;
      empty parts are skipped. */
  predicate LettersNumbers(parts: seq<string>) {
    forall j :: 0 <= j < |parts| && parts[j] != "" ==>
      if j % 2 == 0 then Letters(parts[j]) else NumberGroup(parts[j])
  }

  /** `re_match_numbers_letters(['^[0-9]+$', '^[A-Za-z]+$'], parts)`: the same
      with the roles of even and odd positions swapped. */
  predicate NumbersLetters(parts: seq<string>) {
    forall j :: 0 <= j < |parts| && parts[j] != "" ==>
      if j % 2 == 0 then NumberGroup(parts[j]) else Letters(parts[j])
  }

  /** `^([a-zA-Z]*(-)?[0-9][0-9][0-9][0-9](s?))$|^('[0-9][0-9]s)$`, a year
      such as `1980`, `1980s`, `mid-1980` or `'80s`. */
  predicate YearLike(w: string) {
    || (|w| == 4 && w[0] == '\'' && IsDigit(w[1]) && IsDigit(w[2]) && w[3] == 's')
    || (var core := if EndsWith(w, "s") then w[..|w| - 1] else w;
        && |core| >= 4
        && AllDigits(core[|core| - 4..])
        && var lead := core[..|core| - 4];
           AllLetters(lead) || (|lead| > 0 && lead[|lead| - 1] == '-' && AllLetters(lead[..|lead| - 1])))
  }

  /** `^[A-Z](.*?)[-.]+(.*?)`: a capital first letter and a later `-` or `.`. */
  predicate CapitalWithPunct(w: string) {
    StartsUpper(w) && exists j :: 1 <= j < |w| && (w[j] == '-' || w[j] == '.')
  }

  /** `^[A-Z][A-Z]+$`: at least two letters, all capitals. */
  predicate AllCaps(w: string) { |w| >= 2 && AllUpper(w) }

  /** `(.*?)[a-z](.*?)[A-Z]`: a lower-case letter somewhere before a capital. */
  predicate LowerThenUpper(w: string) {
    exists j, k :: 0 <= j < k < |w| && IsLower(w[j]) && IsUpper(w[k])
  }

  /** `^[0-9\-,.:]*[][0-9]+[0-9\-,.:]*$`, the cardinal-number test of the
      counting pass: the character class `[][0-9]` also admits square brackets. */
  predicate CardinalCounted(w: string) {
    exists a, b :: 0 <= a < b <= |w| && AllIn(w[..a], NumberChars) && AllIn(w[a..b], BracketDigitChars)
                   && AllIn(w[b..], NumberChars)
  }

  /** `^[0-9\-,.:]*[0-9]+[0-9\-,.:]*$`, the cardinal-number test of feature
      activation. */
  predicate CardinalActive(w: string) {
    exists a, b :: 0 <= a < b <= |w| && AllIn(w[..a], NumberChars) && AllDigits(w[a..b])
                   && AllIn(w[b..], NumberChars)
  }

  /** `^[0-9\-.]+[L][R][B][0-9\-.]+[R][R][B][0-9\-.]+$`, a bracketed range as
      the Penn Treebank escapes it, e.g. `1-LRB-2-RRB-3`. */
  predicate BracketedRange(w: string) {
    exists a :: 0 < a && a + 3 <= |w| && AllIn(w[..a], RangeChars) && w[a..a + 3] == "LRB" && RangeThenRrb(w[a + 3..])
  }

  /** `[0-9\-.]+[R][R][B][0-9\-.]+$`, the tail of `BracketedRange`. */
  predicate RangeThenRrb(s: string) {
    exists b :: 0 < b && b + 3 < |s| && AllIn(s[..b], RangeChars) && s[b..b + 3] == "RRB" && AllIn(s[b + 3..], RangeChars)
  }

  /** The hyphenated-adjective test of rule 110.4: a hyphenated word whose last
      part ends in -ing, -ed, -ic, -age, -like, -ive or -ven, or whose first part
      starts with pre or anti or ends in -er; or a word ending in kDa; or CR or CS. */
  predicate HyphenAdjective(w: string) {
    var parts := Split(w, {'-'});
    var first := parts[0];
    var last := parts[|parts| - 1];
    || ('-' in w
        && (|| EndsWith(last, "ing") || EndsWith(last, "ed") || EndsWith(last, "ic") || EndsWith(last, "age")
            || EndsWith(last, "like") || EndsWith(last, "ive") || EndsWith(last, "ven")
            || StartsWith(first, "pre") || StartsWith(first, "anti") || EndsWith(first, "er")))
    || EndsWith(w, "kDa")
    || w == "CR" || w == "CS"
  }

  /** `^[a-z]*[A-Z\-0-9.,]+[s]$` or the word GCS: a plural abbreviation. */
  predicate PluralAbbrev(w: string) {
    || (exists a :: 0 <= a < |w| - 1 && AllLower(w[..a]) && AllIn(w[a..|w| - 1], AbbrevChars) && w[|w| - 1] == 's')
    || w == "GCS"
  }

  /** `^[A-Z\-0-9.,]+$` but not one of I, A, `,`, `.`, `:`. */
  predicate AbbrevWord(w: string) {
    |w| > 0 && AllIn(w, AbbrevChars) && w !in ["I", "A", ",", ".", ":"]
  }

  /** The noun test of rule 110.6 as the counting pass writes it. */
  predicate NounCounted(w: string) {
    || AbbrevWord(w)
    || (exists j :: 0 <= j < |w| - 1 && (IsLower(w[j]) || w[j] == '-') && IsUpper(w[j + 1]))
    || (|w| >= 3 && IsLetter(w[0]) && w[1] == '-' && AllLower(w[2..]))
    || (exists a :: 0 < a < |w| && (forall j :: 0 <= j < a ==> IsLower(w[j]) || w[j] == '-') && AllDigits(w[a..]))
    || EndsWith(w, "coid")
    || EndsWith(w, "ness")
  }

  /** The noun test of rule 110.6 as feature activation writes it. */
  predicate NounActive(w: string) {
    || AbbrevWord(w)
    || (exists j :: 0 <= j < |w| - 1 && IsLower(w[j]) && IsUpper(w[j + 1]))
    || (|w| >= 3 && IsLetter(w[0]) && w[1] == '-'
        && forall j :: 2 <= j < |w| ==> IsLetter(w[j]) || w[j] in DecimalChars)
    || EndsWith(w, "coid")
    || EndsWith(w, "ness")
  }

  /** `^[0-9\-.,]+[\-][a-zA-Z]+$`, e.g. `3-fold`. */
  predicate NumberDashWord(w: string) {
    exists a :: 0 < a < |w| - 1 && AllIn(w[..a], DecimalChars) && w[a] == '-' && AllLetters(w[a + 1..])
  }

  /** `^[A-Z]?[a-z]+[\-][0-9\-.,]+$`, e.g. `Mex-1`. */
  predicate WordDashNumber(w: string) {
    var start := if |w| > 0 && IsUpper(w[0]) then 1 else 0;
    exists a :: start < a < |w| - 1 && AllLower(w[start..a]) && w[a] == '-' && AllIn(w[a + 1..], DecimalChars)
  }

  /** Every word the activation test for cardinals accepts, the counting test
      accepts too. */
  lemma CardinalActiveCounted(w: string)
    requires CardinalActive(w)
    ensures CardinalCounted(w)
  {
    var a, b :| 0 <= a < b <= |w| && AllIn(w[..a], NumberChars) && AllDigits(w[a..b]) && AllIn(w[b..], NumberChars);
    assert AllIn(w[a..b], BracketDigitChars);
  }

  /** The converse fails: `[1]` is counted as a cardinal but never activated. */
  lemma BracketCardinalDiffers()
    ensures CardinalCounted("[1]") && !CardinalActive("[1]")
  {
    var w := "[1]";
    assert AllIn(w[..0], NumberChars) && AllIn(w[0..3], BracketDigitChars) && AllIn(w[3..], NumberChars);
    forall a, b | 0 <= a < b <= |w|
      ensures !(AllIn(w[..a], NumberChars) && AllDigits(w[a..b]))
    {
      assert w[a..b][0] == w[a];
      if a > 0 {
        assert w[..a][0] == w[0];
      }
    }
  }
}
