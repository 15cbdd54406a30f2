/** `generate_inference_file`, one line at a time: the words of a line (the
    part of each token before its first `_`, so a tagged file can be tagged
    again) are decoded with `memm_viterbi` and written back as a tagged
    line, ended like the line that was read. */
module Inference {
  import opened Text
  import opened OrderedMaps
  import opened Statistics
  import opened Codec
  import opened Viterbi
  import opened Decoder
  import opened Wrappers

  /** `last_char`: a newline when the split of the line ends in an empty
      field (the line ended in a newline, or in a space), else nothing. */
  function LastChar(line: string): (r: string)
    ensures r == "" || r == "\n"
  {
    var fields := Split(line, {' ', '\n'});
    if fields[|fields| - 1] == "" then "\n" else ""
  }

  /** A line read from a file is never empty, and so has at least one
      token. */
  lemma TokensNonEmpty(line: string)
    requires line != ""
    ensures |Tokens(line)| >= 1
  {
    var fields := Split(line, {' ', '\n'});
    if |fields| == 1 {
      SplitOne(line, {' ', '\n'});
    }
  }

  /** The words of a line hold no space, newline or underscore. */
  lemma WordsFree(line: string)
    ensures forall j :: 0 <= j < |Words(Tokens(line))| ==> Free(Words(Tokens(line))[j], Reserved)
  {
    var tokens := Tokens(line);
    forall j | 0 <= j < |tokens| ensures Free(WordOf(tokens[j]), Reserved) {
      SplitChars(tokens[j], {'_'});
      assert Free(tokens[j], {' ', '\n'});
      var w := Fields(tokens[j])[0];
      forall k | 0 <= k < |w| ensures w[k] !in Reserved {
        assert w[k] in tokens[j];
      }
    }
  }

  /** What the decoder promises of the tags of a sentence: one per word,
      each a tag the decoder can give, and `:` for `;` and `--`. */
  predicate Tagging(words: seq<string>, tags: seq<string>, ys: seq<string>) {
    && |tags| == |words|
    && (forall i :: 0 <= i < |tags| ==> Emitted(tags[i], ys))
    && (forall i :: 0 <= i < |tags| && words[i] in [";", "--"] ==> tags[i] == ":")
  }

  /** Tag one line and produce the line that is written for it. A word
      `''` (a blank line, two spaces in a row, a space before the newline)
      makes `f_xi_yi` fail on `cur_word[0]` unless the key `(100, '', v)`
      was indexed, which a training token such as `_NN` allows; the model
      takes every word non-empty and leaves that case out. */
  method InferLine(line: string, ys: seq<string>, q: Q, beam: Beam) returns (out: string, tags: seq<string>)
    requires line != "" && |ys| > 0 && Unique(ys)
    requires forall j :: 0 <= j < |Words(Tokens(line))| ==> Words(Tokens(line))[j] != ""
    ensures Tagging(Words(Tokens(line)), tags, ys)
    ensures out == FormatLine(Words(Tokens(line)), tags, LastChar(line))
  {
    TokensNonEmpty(line);
    var words := Words(Tokens(line));
    tags := TagWords(words, ys, q, beam);
    out := FormatLine(words, tags, LastChar(line));
  }

  /** `memm_viterbi` on the words of a line, keeping of its guarantees what
      the written line needs. */
  method TagWords(words: seq<string>, ys: seq<string>, q: Q, beam: Beam) returns (tags: seq<string>)
    requires |words| > 0 && |ys| > 0 && Unique(ys)
    requires forall j :: 0 <= j < |words| ==> words[j] != ""
    ensures Tagging(words, tags, ys)
  {
    ghost var path, best, pi, bp, beams, cands;
    tags, path, best, pi, bp, beams, cands := MemmViterbi(words, ys, q, beam);
  }

  /** What is written reads back as the words of the line with the tags the
      decoder gave them, whenever the tags of `Y` hold no space, newline or
      underscore. */
  lemma InferRoundTrip(line: string, ys: seq<string>, tags: seq<string>)
    requires line != "" && Tagging(Words(Tokens(line)), tags, ys)
    requires forall y :: y in ys ==> Free(y, Reserved)
    ensures SplitSentence(FormatLine(Words(Tokens(line)), tags, LastChar(line))) == Some((Words(Tokens(line)), tags))
  {
    TokensNonEmpty(line);
    WordsFree(line);
    var words := Words(Tokens(line));
    forall i | 0 <= i < |tags| ensures Free(tags[i], Reserved) {
      assert tags[i] in ys || tags[i] == "*" || tags[i] == ":";
    }
    SplitFormat(words, tags, LastChar(line));
  }
}
