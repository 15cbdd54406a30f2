/** `compare_tagged_files`: the confusion counts between a gold-tagged file
    and a predicted one, and the accuracy. Files are sequences of lines;
    tokens are paired position by position as `zip` pairs them, line by
    line, and each pair of tags `(true, predicted)` is counted once. */
module Evaluation {
  import opened Wrappers
  import opened OrderedMaps
  import opened Statistics
  import opened Codec

  type Cell = (string, string)
  type Confusion = map<Cell, nat>

  /** The running state of the comparison: the confusion dictionary and the
      two counters. */
  datatype Counts = Counts(confusion: Confusion, correct: nat, wrong: nat)

  /** Every `(t1, t2)` with both tags in `Y`. */
  function Grid(ys: seq<string>): set<Cell> {
    set t1, t2 | t1 in ys && t2 in ys :: (t1, t2)
  }

  /** The state before the first line: every cell of `Y × Y` at zero. */
  function Start(ys: seq<string>): (c: Counts)
    ensures c.confusion.Keys == Grid(ys) && c.correct == 0 && c.wrong == 0
  {
    Counts(map cell | cell in Grid(ys) :: 0, 0, 0)
  }

  /** The tag pairs of one line pair, or `None` where a zipped token has no
      `_`-separated tag and `split('_')[1]` fails. */
  function LinePairs(t: string, p: string): Option<seq<Cell>> {
    var ts := Tokens(t);
    var ps := Tokens(p);
    ZipTags(ts, ps, Min(|ts|, |ps|))
  }

  function Min(a: nat, b: nat): nat {
    if a <= b then a else b
  }

  /** The tags of the first `n` tokens of both lines, side by side, or `None`
      where one of those tokens has no tag. */
  function ZipTags(ts: seq<string>, ps: seq<string>, n: nat): Option<seq<Cell>>
    requires n <= |ts| && n <= |ps|
  {
    if n == 0 then Some([])
    else
      var done := ZipTags(ts, ps, n - 1);
      if done.Some? && |Fields(ts[n - 1])| >= 2 && |Fields(ps[n - 1])| >= 2
      then Some(done.value + [(TagOf(ts[n - 1]), TagOf(ps[n - 1]))])
      else None
  }

  /** The zipped tags are the tags of the tokens, read exactly when every
      zipped token has a tag. */
  lemma {:induction false} ZipTagsSpec(ts: seq<string>, ps: seq<string>, n: nat)
    requires n <= |ts| && n <= |ps|
    ensures ZipTags(ts, ps, n).Some? <==> Readable(ts[..n]) && Readable(ps[..n])
    ensures ZipTags(ts, ps, n).Some? ==>
      |ZipTags(ts, ps, n).value| == n &&
      forall j :: 0 <= j < n ==> ZipTags(ts, ps, n).value[j] == (TagOf(ts[j]), TagOf(ps[j]))
    decreases n
  {
    if n > 0 {
      ZipTagsSpec(ts, ps, n - 1);
      assert ts[..n][n - 1] == ts[n - 1] && ps[..n][n - 1] == ps[n - 1];
      assert Readable(ts[..n]) ==> Readable(ts[..n - 1]);
      assert Readable(ps[..n]) ==> Readable(ps[..n - 1]);
    }
  }

  type LineReader = (string, string) -> Option<seq<Cell>>

  /** The outcome of every one of the first `n` lines, read by `line`;
      `None` for a line without a predicted counterpart. */
  function LineResults(trueLines: seq<string>, predLines: seq<string>, n: nat, line: LineReader): (r: seq<Option<seq<Cell>>>)
    requires n <= |trueLines|
    ensures |r| == n
    decreases n
  {
    if n == 0 then []
    else
      var s := n - 1;
      LineResults(trueLines, predLines, s, line) + [if s < |predLines| then line(trueLines[s], predLines[s]) else None]
  }

  lemma {:induction false} LineResultsAt(trueLines: seq<string>, predLines: seq<string>, n: nat, s: nat, line: LineReader)
    requires s < n <= |trueLines|
    ensures LineResults(trueLines, predLines, n, line)[s] == if s < |predLines| then line(trueLines[s], predLines[s]) else None
    decreases n
  {
    if s < n - 1 {
      LineResultsAt(trueLines, predLines, n - 1, s, line);
    }
  }

  /** The tag pairs of the first `s` lines in order, or `None` as soon as
      one line fails. */
  function Concat(rs: seq<Option<seq<Cell>>>, s: nat): Option<seq<Cell>>
    requires s <= |rs|
  {
    if s == 0 then Some([])
    else
      var done := Concat(rs, s - 1);
      if done.Some? && rs[s - 1].Some? then Some(done.value + rs[s - 1].value) else None
  }

  function FilePairs(trueLines: seq<string>, predLines: seq<string>): Option<seq<Cell>> {
    Concat(LineResults(trueLines, predLines, |trueLines|, LinePairs), |trueLines|)
  }

  /** Counting one pair: its cell goes up by one (a cell outside `Y × Y`
      starts at one), and so does `correct` or `wrong`. */
  function Count(c: Counts, cell: Cell): Counts {
    var n := if cell in c.confusion then c.confusion[cell] + 1 else 1;
    if cell.0 != cell.1 then Counts(c.confusion[cell := n], c.correct, c.wrong + 1)
    else Counts(c.confusion[cell := n], c.correct + 1, c.wrong)
  }

  function CountAll(c: Counts, cells: seq<Cell>): Counts
    decreases |cells|
  {
    if cells == [] then c else Count(CountAll(c, cells[..|cells| - 1]), cells[|cells| - 1])
  }

  /** Number of pairs whose two tags agree. */
  function Agree(cells: seq<Cell>): (n: nat)
    ensures n <= |cells|
    decreases |cells|
  {
    if cells == [] then 0
    else Agree(cells[..|cells| - 1]) + (if cells[|cells| - 1].0 == cells[|cells| - 1].1 then 1 else 0)
  }

  /** The outcome of `compare_tagged_files`: the confusion dictionary and
      `correct / (correct + wrong)`, or `None` where the files cannot be
      compared or no pair was compared (a division by zero). */
  function Evaluate(trueLines: seq<string>, predLines: seq<string>, ys: seq<string>): Option<(Confusion, real)> {
    match FilePairs(trueLines, predLines)
      case None => None
      case Some(cells) => Report(CountAll(Start(ys), cells))
  }

  /** `return dict_for_confusion_matrix, float(correct / (correct + wrong))`,
      `None` for the division by zero. */
  function Report(c: Counts): Option<(Confusion, real)> {
    if c.correct + c.wrong == 0 then None
    else Some((c.confusion, c.correct as real / (c.correct + c.wrong) as real))
  }

  /** After counting, every cell holds its start value plus the number of
      times it was counted, and the counters split the pairs by agreement. */
  lemma {:induction false} CountAllSpec(c: Counts, cells: seq<Cell>)
    ensures CountAll(c, cells).confusion.Keys == c.confusion.Keys + set x | x in cells
    ensures forall x :: x in CountAll(c, cells).confusion ==>
      CountAll(c, cells).confusion[x] == (if x in c.confusion then c.confusion[x] else 0) + Occ(cells, x)
    ensures CountAll(c, cells).correct == c.correct + Agree(cells)
    ensures CountAll(c, cells).wrong == c.wrong + |cells| - Agree(cells)
    decreases |cells|
  {
    if cells != [] {
      var init := cells[..|cells| - 1];
      CountAllSpec(c, init);
      LastSplit(cells);
      OccPositive(init, cells[|cells| - 1]);
    }
  }

  /** Each pair lands in exactly one cell: over any list of distinct cells
      that holds every pair, the counts add up to the number of pairs. */
  function SumOcc(grid: seq<Cell>, cells: seq<Cell>): nat
    decreases |grid|
  {
    if grid == [] then 0 else SumOcc(grid[..|grid| - 1], cells) + Occ(cells, grid[|grid| - 1])
  }

  lemma {:induction false} SumOccAll(grid: seq<Cell>, cells: seq<Cell>)
    requires Unique(grid) && forall x :: x in cells ==> x in grid
    ensures SumOcc(grid, cells) == |cells|
    decreases |cells|
  {
    if cells == [] {
      SumOccNone(grid);
    } else {
      var init := cells[..|cells| - 1];
      var x := cells[|cells| - 1];
      LastSplit(cells);
      assert x in cells;
      SumOccAll(grid, init);
      SumOccStep(grid, init, x);
    }
  }

  lemma {:induction false} SumOccNone(grid: seq<Cell>)
    ensures SumOcc(grid, []) == 0
    decreases |grid|
  {
    if grid != [] {
      SumOccNone(grid[..|grid| - 1]);
    }
  }

  lemma {:induction false} SumOccStep(grid: seq<Cell>, cells: seq<Cell>, x: Cell)
    requires Unique(grid)
    ensures SumOcc(grid, cells + [x]) == SumOcc(grid, cells) + (if x in grid then 1 else 0)
    decreases |grid|
  {
    if grid != [] {
      var init := grid[..|grid| - 1];
      SumOccStep(init, cells, x);
      OccAppend(cells, [x], x);
      assert Occ(cells + [x], grid[|grid| - 1]) == Occ(cells, grid[|grid| - 1]) + (if x == grid[|grid| - 1] then 1 else 0) by {
        OccAppend(cells, [x], grid[|grid| - 1]);
        assert [x][..0] == [];
      }
      assert x in grid <==> x in init || x == grid[|grid| - 1];
    }
  }

  /** What the comparison reports, for files that can be compared: a result
      exactly when some pair was compared; every cell of `Y × Y` and every
      pair seen has a count, which is the number of times it was seen; and
      the accuracy is the share of pairs whose tags agree. */
  lemma EvaluateMeaning(trueLines: seq<string>, predLines: seq<string>, ys: seq<string>,
                        cells: seq<Cell>, r: Option<(Confusion, real)>)
    requires FilePairs(trueLines, predLines) == Some(cells)
    requires r == Evaluate(trueLines, predLines, ys)
    ensures r.Some? <==> |cells| > 0
    ensures r.Some? ==> r.value.0.Keys == Grid(ys) + set x | x in cells
    ensures r.Some? ==> forall x :: x in r.value.0 ==> r.value.0[x] == Occ(cells, x)
    ensures r.Some? ==> r.value.1 == Agree(cells) as real / |cells| as real && 0.0 <= r.value.1 <= 1.0
  {
    var c := CountAll(Start(ys), cells);
    CountAllSpec(Start(ys), cells);
    assert c.correct == Agree(cells) && c.correct + c.wrong == |cells|;
    if |cells| > 0 {
      assert r == Some((c.confusion, c.correct as real / (c.correct + c.wrong) as real));
      Share(Agree(cells), |cells|);
    }
  }

  lemma Share(a: nat, b: nat)
    requires a <= b && b > 0
    ensures 0.0 <= a as real / b as real <= 1.0
  {
  }

  /** `compare_tagged_files(path_true, path_predicted, class_statistics)`
      over the lines of the two files. */
  method CompareTaggedFiles(trueLines: seq<string>, predLines: seq<string>, ys: seq<string>)
    returns (r: Option<(Confusion, real)>)
    ensures r == Evaluate(trueLines, predLines, ys)
  {
    var counted := CountFiles(trueLines, predLines, Start(ys));
    if counted.None? {
      return None;
    }
    r := Report(counted.value);
  }

  /** The loop over the line pairs, from the counts `c0`: the counts after
      every pair of the files, or `None` where the files cannot be
      compared. */
  method CountFiles(trueLines: seq<string>, predLines: seq<string>, c0: Counts) returns (r: Option<Counts>)
    ensures FilePairs(trueLines, predLines).None? ==> r.None?
    ensures FilePairs(trueLines, predLines).Some? ==> r == Some(CountAll(c0, FilePairs(trueLines, predLines).value))
  {
    ghost var rs := LineResults(trueLines, predLines, |trueLines|, LinePairs);
    var c := c0;
    ghost var done: seq<Cell> := [];
    var s := 0;
    while s < |trueLines|
      invariant 0 <= s <= |trueLines|
      invariant Concat(rs, s) == Some(done)
      invariant c == CountAll(c0, done)
    {
      if s >= |predLines| {
        LineFails(rs, trueLines, predLines, s);
        return None;
      }
      var next := CompareLines(c, trueLines, predLines, s);
      if next.None? {
        LineFails(rs, trueLines, predLines, s);
        return None;
      }
      ghost var more := rs[s].value;
      ConcatStep(rs, s, done, more);
      CountAllAppend(c0, done, more);
      c := next.value;
      done := done + more;
      s := s + 1;
    }
    return Some(c);
  }

  lemma ConcatStep(rs: seq<Option<seq<Cell>>>, s: nat, done: seq<Cell>, more: seq<Cell>)
    requires s < |rs| && Concat(rs, s) == Some(done) && rs[s] == Some(more)
    ensures Concat(rs, s + 1) == Some(done + more)
  {
  }

  /** A line pair that does not read, or a missing predicted line, makes
      the files fail. */
  lemma LineFails(rs: seq<Option<seq<Cell>>>, trueLines: seq<string>, predLines: seq<string>, s: nat)
    requires rs == LineResults(trueLines, predLines, |trueLines|, LinePairs)
    requires s < |trueLines| && (s < |predLines| ==> rs[s].None?)
    ensures Concat(rs, |trueLines|).None?
  {
    LineResultsAt(trueLines, predLines, |trueLines|, s, LinePairs);
    NoneFrom(rs, s, |trueLines|);
  }

  /** One line pair: split both lines into tokens and count their tag pairs. */
  method CompareLines(c: Counts, trueLines: seq<string>, predLines: seq<string>, s: nat) returns (r: Option<Counts>)
    requires s < |trueLines| && s < |predLines|
    ensures var rs := LineResults(trueLines, predLines, |trueLines|, LinePairs);
      && (rs[s].None? ==> r.None?)
      && (rs[s].Some? ==> r == Some(CountAll(c, rs[s].value)))
  {
    LineResultsAt(trueLines, predLines, |trueLines|, s, LinePairs);
    r := CompareLine(c, Tokens(trueLines[s]), Tokens(predLines[s]));
  }

  /** The loop over `zip(splited_true, splited_predicted)` of one line pair. */
  method CompareLine(c: Counts, ts: seq<string>, ps: seq<string>) returns (r: Option<Counts>)
    ensures ZipTags(ts, ps, Min(|ts|, |ps|)).None? ==> r.None?
    ensures ZipTags(ts, ps, Min(|ts|, |ps|)).Some? ==> r == Some(CountAll(c, ZipTags(ts, ps, Min(|ts|, |ps|)).value))
  {
    var d := c;
    var j := 0;
    while j < |ts| && j < |ps|
      invariant 0 <= j <= |ts| && j <= |ps|
      invariant ZipTags(ts, ps, j).Some?
      invariant d == CountAll(c, ZipTags(ts, ps, j).value)
    {
      if |Fields(ts[j])| < 2 || |Fields(ps[j])| < 2 {
        ZipTagsNone(ts, ps, j, Min(|ts|, |ps|));
        return None;
      }
      var cell := (TagOf(ts[j]), TagOf(ps[j]));
      CountAllStep(c, ZipTags(ts, ps, j).value, cell);
      d := Count(d, cell);
      j := j + 1;
    }
    return Some(d);
  }

  lemma CountAllStep(c: Counts, cells: seq<Cell>, cell: Cell)
    ensures CountAll(c, cells + [cell]) == Count(CountAll(c, cells), cell)
  {
    assert (cells + [cell])[..|cells|] == cells;
  }

  /** Counting two runs of pairs one after the other is counting them
      joined. */
  lemma {:induction false} CountAllAppend(c: Counts, a: seq<Cell>, b: seq<Cell>)
    ensures CountAll(CountAll(c, a), b) == CountAll(c, a + b)
    decreases |b|
  {
    if b == [] {
      assert a + b == a;
    } else {
      CountAllAppend(c, a, b[..|b| - 1]);
      assert (a + b)[..|a + b| - 1] == a + b[..|b| - 1];
    }
  }

  /** A token without a tag makes every longer zip fail. */
  lemma {:induction false} ZipTagsNone(ts: seq<string>, ps: seq<string>, j: nat, n: nat)
    requires j < n <= |ts| && n <= |ps|
    requires |Fields(ts[j])| < 2 || |Fields(ps[j])| < 2
    ensures ZipTags(ts, ps, n).None?
    decreases n
  {
    if n > j + 1 {
      ZipTagsNone(ts, ps, j, n - 1);
    }
  }

  /** A line that fails makes every longer prefix fail. */
  lemma {:induction false} NoneFrom(rs: seq<Option<seq<Cell>>>, s: nat, s': nat)
    requires s < s' <= |rs| && rs[s].None?
    ensures Concat(rs, s').None?
    decreases s' - s
  {
    if s' > s + 1 {
      NoneFrom(rs, s, s' - 1);
    }
  }
}
