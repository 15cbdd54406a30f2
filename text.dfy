/** Strings as the tagger sees them: character classes, splitting on
    single-character separators (Python's `str.split(c)` and `re.split` with a
    character alternation), joining, affix tests, ASCII case mapping and the
    code-point order Python uses to compare strings. */
module Text {

  predicate IsDigit(c: char) { '0' <= c <= '9' }
  predicate IsUpper(c: char) { 'A' <= c <= 'Z' }
  predicate IsLower(c: char) { 'a' <= c <= 'z' }
  predicate IsLetter(c: char) { IsUpper(c) || IsLower(c) }

  /** Every character of `s` satisfies the class given as a set. */
  predicate AllIn(s: string, chars: set<char>) {
    forall j :: 0 <= j < |s| ==> s[j] in chars
  }

  predicate AllDigits(s: string) { forall j :: 0 <= j < |s| ==> IsDigit(s[j]) }
  predicate AllLetters(s: string) { forall j :: 0 <= j < |s| ==> IsLetter(s[j]) }
  predicate AllLower(s: string) { forall j :: 0 <= j < |s| ==> IsLower(s[j]) }
  predicate AllUpper(s: string) { forall j :: 0 <= j < |s| ==> IsUpper(s[j]) }

  predicate ContainsChar(s: string, c: char) { c in s }
  predicate HasDigit(s: string) { exists j :: 0 <= j < |s| && IsDigit(s[j]) }

  predicate StartsWith(s: string, p: string) { |p| <= |s| && s[..|p|] == p }
  predicate EndsWith(s: string, p: string) { |p| <= |s| && s[|s| - |p|..] == p }

  /** Number of occurrences of `c` in `s` (Python's `s.count(c)`). */
  function CountChar(s: string, c: char): (n: nat)
    ensures n <= |s|
    ensures n == 0 <==> c !in s
  {
    if s == [] then 0 else (if s[0] == c then 1 else 0) + CountChar(s[1..], c)
  }

  /** Split `s` at every character of `seps`; like Python's split with a
      single-character separator it always yields at least one field, and
      empty fields are kept. */
  function Split(s: string, seps: set<char>): (r: seq<string>)
    ensures |r| >= 1
    ensures forall j :: 0 <= j < |r| ==> forall k :: 0 <= k < |r[j]| ==> r[j][k] !in seps
  {
    if s == [] then [""]
    else
      var rest := Split(s[1..], seps);
      if s[0] in seps then [""] + rest else [[s[0]] + rest[0]] + rest[1..]
  }

  /** Join `parts` with the separator `sep` between consecutive parts
      (Python's `sep.join(parts)`). */
  function Join(parts: seq<string>, sep: char): (s: string)
    ensures |parts| == 1 ==> s == parts[0]
  {
    if |parts| == 0 then ""
    else if |parts| == 1 then parts[0]
    else parts[0] + [sep] + Join(parts[1..], sep)
  }

  predicate Free(s: string, seps: set<char>) {
    forall k :: 0 <= k < |s| ==> s[k] !in seps
  }

  lemma {:induction false} SplitPrefix(p: string, s: string, seps: set<char>)
    requires Free(p, seps)
    ensures Split(p + s, seps) == [p + Split(s, seps)[0]] + Split(s, seps)[1..]
    decreases |p|
  {
    if p != [] {
      assert (p + s)[1..] == p[1..] + s;
      SplitPrefix(p[1..], s, seps);
      var rest := Split(p[1..] + s, seps);
      assert (p + s)[0] == p[0] && p[0] !in seps;
      assert Split(p + s, seps) == [[p[0]] + rest[0]] + rest[1..];
      assert [p[0]] + (p[1..] + Split(s, seps)[0]) == p + Split(s, seps)[0];
    } else {
      var r := Split(s, seps);
      assert p + s == s && p + r[0] == r[0];
      assert r == [r[0]] + r[1..];
    }
  }

  /** A string free of separators is a single field. */
  lemma SplitFree(s: string, seps: set<char>)
    requires Free(s, seps)
    ensures Split(s, seps) == [s]
  {
    SplitPrefix(s, "", seps);
    assert s + "" == s;
  }

  /** Splitting at the first separator: the field before it, then the fields
      of the rest. */
  lemma SplitAt(p: string, c: char, q: string, seps: set<char>)
    requires Free(p, seps) && c in seps
    ensures Split(p + [c] + q, seps) == [p] + Split(q, seps)
  {
    SplitPrefix(p, [c] + q, seps);
    assert p + [c] + q == p + ([c] + q);
    assert ([c] + q)[1..] == q;
    assert p + "" == p;
  }

  /** Splitting undoes joining when the separator is one of the split
      characters and no part contains any of them. */
  lemma {:induction false} SplitJoin(parts: seq<string>, sep: char, seps: set<char>)
    requires |parts| >= 1 && sep in seps
    requires forall j :: 0 <= j < |parts| ==> Free(parts[j], seps)
    ensures Split(Join(parts, sep), seps) == parts
    decreases |parts|
  {
    if |parts| == 1 {
      SplitFree(parts[0], seps);
    } else {
      var tail := Join(parts[1..], sep);
      SplitJoin(parts[1..], sep, seps);
      assert Join(parts, sep) == parts[0] + [sep] + tail;
      SplitAt(parts[0], sep, tail, seps);
      assert [parts[0]] + parts[1..] == parts;
    }
  }

  /** A split into a single field leaves the string whole. */
  lemma {:induction false} SplitOne(s: string, seps: set<char>)
    requires |Split(s, seps)| == 1
    ensures Split(s, seps)[0] == s
    decreases |s|
  {
    if s != [] {
      SplitOne(s[1..], seps);
    }
  }

  /** Every character of every field is a character of the split string. */
  lemma {:induction false} SplitChars(s: string, seps: set<char>)
    ensures forall j, k :: 0 <= j < |Split(s, seps)| && 0 <= k < |Split(s, seps)[j]| ==> Split(s, seps)[j][k] in s
    decreases |s|
  {
    if s != [] {
      SplitChars(s[1..], seps);
      var rest := Split(s[1..], seps);
      forall j, k | 0 <= j < |Split(s, seps)| && 0 <= k < |Split(s, seps)[j]|
        ensures Split(s, seps)[j][k] in s
      {
        if s[0] !in seps && j == 0 && k > 0 {
          assert Split(s, seps)[0][k] == rest[0][k - 1];
        }
      }
    }
  }

  /** A separator at the end of a string closes its last field and opens an
      empty one. */
  lemma {:induction false} SplitSnoc(s: string, c: char, seps: set<char>)
    requires c in seps
    ensures Split(s + [c], seps) == Split(s, seps) + [""]
    decreases |s|
  {
    if s == [] {
      assert s + [c] == [c] && [c][1..] == [];
    } else {
      assert (s + [c])[1..] == s[1..] + [c];
      SplitSnoc(s[1..], c, seps);
    }
  }

  /** The fields of a split are separated by exactly the separators:
      joining them back with the only separator gives the original string. */
  lemma {:induction false} JoinSplit(s: string, sep: char)
    ensures Join(Split(s, {sep}), sep) == s
    decreases |s|
  {
    if s != [] {
      var rest := Split(s[1..], {sep});
      JoinSplit(s[1..], sep);
      if s[0] == sep {
        assert Split(s, {sep}) == [""] + rest;
        assert ([""] + rest)[1..] == rest;
        assert s == [sep] + s[1..];
      } else {
        var r := [[s[0]] + rest[0]] + rest[1..];
        assert Split(s, {sep}) == r;
        if |rest| == 1 {
          assert Join(r, sep) == [s[0]] + rest[0];
        } else {
          assert r[1..] == rest[1..];
          assert Join(rest, sep) == rest[0] + [sep] + Join(rest[1..], sep);
          assert Join(r, sep) == [s[0]] + rest[0] + [sep] + Join(rest[1..], sep);
        }
      }
    }
  }

  /** Splitting at a single separator yields one field more than there are
      separators. */
  lemma {:induction false} SplitCount(s: string, c: char)
    ensures |Split(s, {c})| == CountChar(s, c) + 1
    decreases |s|
  {
    if s != [] {
      SplitCount(s[1..], c);
    }
  }

  /** ASCII case mapping; other characters are left as they are. */
  function ToUpper(c: char): (d: char)
    ensures IsLower(c) ==> IsUpper(d)
    ensures !IsLower(c) ==> d == c
  {
    if IsLower(c) then (c as int - 32) as char else c
  }

  function ToLower(c: char): (d: char)
    ensures IsUpper(c) ==> IsLower(d)
    ensures !IsUpper(c) ==> d == c
  {
    if IsUpper(c) then (c as int + 32) as char else c
  }

  function LowerString(s: string): (r: string)
    ensures |r| == |s|
    ensures forall j :: 0 <= j < |s| ==> r[j] == ToLower(s[j])
  {
    if s == [] then [] else [ToLower(s[0])] + LowerString(s[1..])
  }

  /** `w[0].upper() + w[1:].lower()`, the title-cased spelling of a word. */
  function TitleCase(w: string): (r: string)
    requires |w| > 0
    ensures |r| == |w|
    ensures r[0] == ToUpper(w[0])
    ensures forall j :: 1 <= j < |w| ==> r[j] == ToLower(w[j])
  {
    [ToUpper(w[0])] + LowerString(w[1..])
  }

  /** Python's string order: lexicographic on code points, a proper prefix
      first. */
  predicate Less(a: string, b: string)
    decreases |a|
  {
    if a == [] then b != []
    else if b == [] then false
    else if a[0] != b[0] then a[0] < b[0]
    else Less(a[1..], b[1..])
  }

  lemma {:induction false} LessIrreflexive(a: string)
    ensures !Less(a, a)
    decreases |a|
  {
    if a != [] { LessIrreflexive(a[1..]); }
  }

  lemma {:induction false} LessTransitive(a: string, b: string, c: string)
    requires Less(a, b) && Less(b, c)
    ensures Less(a, c)
    decreases |a|
  {
    if a != [] && b != [] && c != [] && a[0] == b[0] == c[0] {
      LessTransitive(a[1..], b[1..], c[1..]);
    }
  }

  lemma {:induction false} LessTotal(a: string, b: string)
    requires a != b
    ensures Less(a, b) || Less(b, a)
    decreases |a|
  {
    if a != [] && b != [] && a[0] == b[0] {
      assert a == [a[0]] + a[1..] && b == [b[0]] + b[1..];
      LessTotal(a[1..], b[1..]);
    }
  }

  lemma LessAsymmetric(a: string, b: string)
    requires Less(a, b)
    ensures !Less(b, a)
  {
    if Less(b, a) {
      LessTransitive(a, b, a);
      LessIrreflexive(a);
    }
  }
}
