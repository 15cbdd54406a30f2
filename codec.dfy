/** The line format of tagged files: words and tags joined by `_`, tokens
    separated by single spaces, the line ended by a newline except possibly
    the last line of a file. `split_sentence_to_words_and_tags` reads such a
    line and the inference pass writes one. */
module Codec {
  import opened Text
  import opened Wrappers
  import opened Statistics

  /** The characters a word or tag must avoid for a line to read back. */
  const Reserved: set<char> := {' ', '\n', '_'}

  /** Every token has a second `_`-field, so `word_tag_list[1]` exists. */
  predicate Readable(tokens: seq<string>) {
    forall j :: 0 <= j < |tokens| ==> |Fields(tokens[j])| >= 2
  }

  /** `split_sentence_to_words_and_tags(line)`: the first two fields of
      every token; `None` where a token has no `_` and the indexing fails. */
  function SplitSentence(line: string): (r: Option<(seq<string>, seq<string>)>)
  {
    var tokens := Tokens(line);
    if Readable(tokens) then Some((Words(tokens), Tags(tokens))) else None
  }

  /** A line reads into one word and one tag per token: the first two
      `_`-fields of the token. */
  lemma SplitSentenceFields(line: string)
    requires SplitSentence(line).Some?
    ensures var (words, tags) := SplitSentence(line).value;
      && |words| == |tags| == |Tokens(line)|
      && forall j :: 0 <= j < |words| ==>
           Fields(Tokens(line)[j])[0] == words[j] && Fields(Tokens(line)[j])[1] == tags[j]
  {
  }

  /** `'_'.join(word_tag)` for every pair of `zip(words, tags)`, which stops
      at the shorter list. */
  function Pairs(words: seq<string>, tags: seq<string>): (r: seq<string>)
    ensures |r| == if |words| <= |tags| then |words| else |tags|
    ensures forall j :: 0 <= j < |r| ==> r[j] == words[j] + "_" + tags[j]
  {
    var n := if |words| <= |tags| then |words| else |tags|;
    seq(n, j requires 0 <= j < n => words[j] + "_" + tags[j])
  }

  /** The line the inference pass writes: the pairs joined by spaces, then
      `last_char` (a newline, or nothing on a last line without one). */
  function FormatLine(words: seq<string>, tags: seq<string>, lastChar: string): string {
    Join(Pairs(words, tags), ' ') + lastChar
  }

  /** One token splits back into its word and tag. */
  lemma PairFields(w: string, t: string)
    requires Free(w, Reserved) && Free(t, Reserved)
    ensures Fields(w + "_" + t) == [w, t]
  {
    SplitAt(w, '_', t, {'_'});
    SplitFree(t, {'_'});
  }

  /** Reading a written line gives back the words and the tags, for a
      non-empty sentence whose words and tags avoid spaces, newlines and
      underscores. */
  lemma SplitFormat(words: seq<string>, tags: seq<string>, lastChar: string)
    requires |words| == |tags| >= 1
    requires forall j :: 0 <= j < |words| ==> Free(words[j], Reserved) && Free(tags[j], Reserved)
    requires lastChar == "" || lastChar == "\n"
    ensures SplitSentence(FormatLine(words, tags, lastChar)) == Some((words, tags))
  {
    var pairs := Pairs(words, tags);
    var seps := {' ', '\n'};
    forall j | 0 <= j < |pairs| ensures Free(pairs[j], seps) && |pairs[j]| > 0 {
      assert pairs[j] == words[j] + "_" + tags[j];
      assert pairs[j][|words[j]|] == '_';
    }
    SplitJoin(pairs, ' ', seps);
    var body := Join(pairs, ' ');
    if lastChar == "\n" {
      SplitSnoc(body, '\n', seps);
      assert (pairs + [""])[..|pairs|] == pairs;
    } else {
      assert body + lastChar == body;
    }
    assert Tokens(FormatLine(words, tags, lastChar)) == pairs;
    forall j | 0 <= j < |pairs| ensures Fields(pairs[j]) == [words[j], tags[j]] {
      PairFields(words[j], tags[j]);
    }
    assert Readable(pairs);
    assert Words(pairs) == words;
    assert Tags(pairs) == tags;
  }
}
