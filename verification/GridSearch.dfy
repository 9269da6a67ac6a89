/**
 * The parameter grid and the search over it: the combinations, the two loops that keep the best
 * score, and the ranking of the reported results.
 */
module GridSearch {
  import opened Options
  import opened RealSeq

  // ----- The grid

  /** One parameter with the values to try, in the order of the grid dictionary. */
  datatype Axis<V> = Axis(name: string, values: seq<V>)

  ghost predicate DistinctNames<V>(axes: seq<Axis<V>>) {
    forall i, j :: 0 <= i < j < |axes| ==> axes[i].name != axes[j].name
  }

  /** The number of combinations: the product of the list lengths. */
  function Count<V>(axes: seq<Axis<V>>): nat {
    if |axes| == 0 then 1 else Count(axes[..|axes| - 1]) * |axes[|axes| - 1].values|
  }

  /** Each row followed by each value, the values varying fastest. */
  function Extend<V>(rows: seq<seq<V>>, values: seq<V>): (p: seq<seq<V>>)
    ensures |p| == |rows| * |values|
  {
    seq(|rows| * |values|, i requires 0 <= i < |rows| * |values| =>
      DivideIndex(i, |rows|, |values|);
      rows[i / |values|] + [values[i % |values|]])
  }

  /** `itertools.product` of the value lists: the last list varies fastest. */
  function Product<V>(axes: seq<Axis<V>>): (p: seq<seq<V>>)
    ensures |p| == Count(axes)
  {
    if |axes| == 0 then [[]]
    else Extend(Product(axes[..|axes| - 1]), axes[|axes| - 1].values)
  }

  lemma {:induction false} ProductWidth<V>(axes: seq<Axis<V>>, i: nat)
    requires i < Count(axes)
    ensures |Product(axes)[i]| == |axes|
  {
    if |axes| > 0 {
      var init, width := axes[..|axes| - 1], |axes[|axes| - 1].values|;
      DivideIndex(i, Count(init), width);
      ProductWidth(init, i / width);
    }
  }

  /** The dictionary of combination i. */
  function Combination<V>(axes: seq<Axis<V>>, i: nat): map<string, V>
    requires i < Count(axes)
  {
    ProductWidth(axes, i);
    Dict(axes, Product(axes)[i])
  }

  lemma {:induction false} DivideIndex(i: nat, rows: nat, width: nat)
    requires i < rows * width
    ensures width > 0 && i / width < rows && i == (i / width) * width + i % width
  {
    if i / width >= rows {
      MulMonotone(rows, i / width, width);
    }
  }

  lemma {:induction false} MulMonotone(a: nat, b: nat, c: nat)
    requires a <= b
    ensures a * c <= b * c
  {}

  /** The dictionary of one combination; `dict(zip(names, combo))`. */
  function Dict<V>(axes: seq<Axis<V>>, combo: seq<V>): map<string, V>
    requires |combo| == |axes|
  {
    if |axes| == 0 then map[]
    else Dict(axes[..|axes| - 1], combo[..|combo| - 1])[axes[|axes| - 1].name := combo[|combo| - 1]]
  }

  method GetCombinations<V>(axes: seq<Axis<V>>) returns (combinations: seq<map<string, V>>)
    ensures |combinations| == Count(axes)
    ensures forall i :: 0 <= i < |combinations| ==> combinations[i] == Combination(axes, i)
  {
    combinations := [];
    var product := Product(axes);
    for i := 0 to |product|
      invariant |combinations| == i
      invariant forall j :: 0 <= j < i ==> combinations[j] == Combination(axes, j)
    {
      ProductWidth(axes, i);
      combinations := combinations + [Dict(axes, product[i])];
    }
  }

  /** One index into each value list. */
  ghost predicate IsChoice<V>(axes: seq<Axis<V>>, digits: seq<nat>) {
    |digits| == |axes| && forall j :: 0 <= j < |axes| ==> digits[j] < |axes[j].values|
  }

  /** The position of a choice in the product: its mixed-radix value. */
  function Rank<V>(axes: seq<Axis<V>>, digits: seq<nat>): nat
    requires |digits| == |axes|
  {
    if |axes| == 0 then 0
    else Rank(axes[..|axes| - 1], digits[..|digits| - 1]) * |axes[|axes| - 1].values| + digits[|digits| - 1]
  }

  function Pick<V>(axes: seq<Axis<V>>, digits: seq<nat>): (c: seq<V>)
    requires IsChoice(axes, digits)
    ensures |c| == |axes|
  {
    seq(|axes|, j requires 0 <= j < |axes| => axes[j].values[digits[j]])
  }

  /** The choice at a position, digit by digit. */
  function Unrank<V>(axes: seq<Axis<V>>, i: nat): (digits: seq<nat>)
    requires i < Count(axes)
    ensures IsChoice(axes, digits)
  {
    if |axes| == 0 then []
    else
      var init, width := axes[..|axes| - 1], |axes[|axes| - 1].values|;
      DivideIndex(i, Count(init), width);
      Unrank(init, i / width) + [i % width]
  }

  /** One more digit: the rank so far times the length of the next list, plus the digit. */
  lemma {:induction false} RankAppend<V>(axes: seq<Axis<V>>, high: seq<nat>, d: nat)
    requires |axes| > 0 && |high| == |axes| - 1
    ensures Rank(axes, high + [d]) == Rank(axes[..|axes| - 1], high) * |axes[|axes| - 1].values| + d
  {
    assert (high + [d])[..|high|] == high;
  }

  lemma {:induction false} RankUnrank<V>(axes: seq<Axis<V>>, i: nat)
    requires i < Count(axes)
    ensures Rank(axes, Unrank(axes, i)) == i
  {
    if |axes| > 0 {
      var init, width := axes[..|axes| - 1], |axes[|axes| - 1].values|;
      DivideIndex(i, Count(init), width);
      var row, column := i / width, i % width;
      RankUnrank(init, row);
      RankAppend(axes, Unrank(init, row), column);
      calc {
        Rank(axes, Unrank(axes, i));
      ==
        Rank(axes, Unrank(init, row) + [column]);
      ==
        row * width + column;
      ==
        i;
      }
    }
  }

  /** The order of the product is lexicographic: the first differing digit decides. */
  lemma {:induction false} RankLexicographic<V>(axes: seq<Axis<V>>, d: seq<nat>, e: seq<nat>, j: nat)
    requires IsChoice(axes, d) && IsChoice(axes, e)
    requires j < |axes| && d[..j] == e[..j] && d[j] < e[j]
    ensures Rank(axes, d) < Rank(axes, e)
  {
    var n := |axes| - 1;
    RankLast(axes, d);
    RankLast(axes, e);
    if j < n {
      SamePrefix(d, e, j, n);
      RankLexicographic(axes[..n], d[..n], e[..n], j);
      LaterRow(Rank(axes[..n], d[..n]), Rank(axes[..n], e[..n]), |axes[n].values|, d[n], e[n]);
    }
  }

  lemma {:induction false} SamePrefix(d: seq<nat>, e: seq<nat>, j: nat, n: nat)
    requires j <= n <= |d| && n <= |e| && d[..j] == e[..j]
    ensures d[..n][..j] == e[..n][..j]
  {
    assert d[..n][..j] == d[..j] && e[..n][..j] == e[..j];
  }

  /** The last digit of a choice, and the choice without it. */
  lemma {:induction false} RankLast<V>(axes: seq<Axis<V>>, d: seq<nat>)
    requires |axes| > 0 && IsChoice(axes, d)
    ensures var n := |axes| - 1;
      && IsChoice(axes[..n], d[..n]) && d[n] < |axes[n].values|
      && Rank(axes, d) == Rank(axes[..n], d[..n]) * |axes[n].values| + d[n]
  {}

  lemma {:induction false} LaterRow(row: nat, later: nat, width: nat, column: nat, other: nat)
    requires row < later && column < width
    ensures row * width + column < later * width + other
  {
    MulMonotone(row + 1, later, width);
  }

  /** Every choice stands in the product, at its own rank. */
  lemma {:induction false} ProductAtRank<V>(axes: seq<Axis<V>>, digits: seq<nat>)
    requires IsChoice(axes, digits)
    ensures Rank(axes, digits) < Count(axes)
    ensures Product(axes)[Rank(axes, digits)] == Pick(axes, digits)
  {
    if |axes| > 0 {
      var init, last := axes[..|axes| - 1], axes[|axes| - 1];
      var high, d := digits[..|digits| - 1], digits[|digits| - 1];
      ProductAtRank(init, high);
      var row, width := Rank(init, high), |last.values|;
      RowColumn(row, d, Count(init), width);
      assert Pick(axes, digits) == Pick(init, high) + [last.values[d]];
    }
  }

  lemma {:induction false} RowColumn(row: nat, d: nat, rows: nat, width: nat)
    requires row < rows && d < width
    ensures row * width + d < rows * width
    ensures (row * width + d) / width == row && (row * width + d) % width == d
  {
    MulMonotone(row + 1, rows, width);
    var i := row * width + d;
    assert i == (i / width) * width + i % width;
    if i / width < row {
      MulMonotone(i / width + 1, row, width);
    } else if i / width > row {
      MulMonotone(row + 1, i / width, width);
    }
  }

  /** The product holds exactly the choices of one value per list, in rank order. */
  lemma {:induction false} ProductExact<V>(axes: seq<Axis<V>>, i: nat)
    requires i < Count(axes)
    ensures Product(axes)[i] == Pick(axes, Unrank(axes, i))
  {
    RankUnrank(axes, i);
    ProductAtRank(axes, Unrank(axes, i));
  }

  lemma {:induction false} DictLookup<V>(axes: seq<Axis<V>>, combo: seq<V>)
    requires |combo| == |axes| && DistinctNames(axes)
    ensures Dict(axes, combo).Keys == set j | 0 <= j < |axes| :: axes[j].name
    ensures forall j :: 0 <= j < |axes| ==>
        axes[j].name in Dict(axes, combo) && Dict(axes, combo)[axes[j].name] == combo[j]
  {
    if |axes| > 0 {
      var n := |axes| - 1;
      var inner, outer := Dict(axes[..n], combo[..n]), Dict(axes, combo);
      DictLookup(axes[..n], combo[..n]);
      assert outer == inner[axes[n].name := combo[n]];
      forall j | 0 <= j < |axes| ensures axes[j].name in outer && outer[axes[j].name] == combo[j] {
        if j < n {
          assert axes[..n][j].name in inner && inner[axes[..n][j].name] == combo[..n][j];
        }
      }
      forall x ensures x in outer.Keys <==> exists j :: 0 <= j < |axes| && axes[j].name == x {
        NameBefore(axes, n, x);
      }
    }
  }

  /** The names of the first n axes are the names before the n-th. */
  lemma {:induction false} NameBefore<V>(axes: seq<Axis<V>>, n: nat, x: string)
    requires n < |axes|
    ensures x in (set j | 0 <= j < n :: axes[..n][j].name) <==> exists j :: 0 <= j < n && axes[j].name == x
  {
    if exists j :: 0 <= j < n && axes[j].name == x {
      var j :| 0 <= j < n && axes[j].name == x;
      assert axes[..n][j].name == x;
    }
  }

  /** An assignment of one listed value to each parameter, and nothing else. */
  ghost predicate InGrid<V>(axes: seq<Axis<V>>, m: map<string, V>) {
    && m.Keys == (set j | 0 <= j < |axes| :: axes[j].name)
    && forall j :: 0 <= j < |axes| ==> axes[j].name in m && m[axes[j].name] in axes[j].values
  }

  lemma {:induction false} CombinationInGrid<V>(axes: seq<Axis<V>>, i: nat)
    requires DistinctNames(axes) && i < Count(axes)
    ensures InGrid(axes, Combination(axes, i))
  {
    ProductExact(axes, i);
    ProductWidth(axes, i);
    DictLookup(axes, Product(axes)[i]);
  }

  /** The combinations are exactly the grid: nothing is missed and nothing is made up. */
  lemma {:induction false} CombinationsExact<V>(axes: seq<Axis<V>>, m: map<string, V>)
    requires DistinctNames(axes)
    ensures InGrid(axes, m) <==> exists i :: 0 <= i < Count(axes) && m == Combination(axes, i)
  {
    if InGrid(axes, m) {
      GridPointHasRank(axes, m);
    }
    if exists i :: 0 <= i < Count(axes) && m == Combination(axes, i) {
      var i :| 0 <= i < Count(axes) && m == Combination(axes, i);
      CombinationInGrid(axes, i);
    }
  }

  lemma {:induction false} GridPointHasRank<V>(axes: seq<Axis<V>>, m: map<string, V>)
    requires DistinctNames(axes) && InGrid(axes, m)
    ensures exists i :: 0 <= i < Count(axes) && m == Combination(axes, i)
  {
    var digits := DigitsOf(axes, m);
    ProductAtRank(axes, digits);
    var combo := Pick(axes, digits);
    DictLookup(axes, combo);
    SameDict(axes, m, combo);
    assert m == Combination(axes, Rank(axes, digits));
  }

  /** A grid point is the dictionary of the values it has. */
  lemma {:induction false} SameDict<V>(axes: seq<Axis<V>>, m: map<string, V>, combo: seq<V>)
    requires DistinctNames(axes) && InGrid(axes, m) && |combo| == |axes|
    requires forall j :: 0 <= j < |axes| ==> m[axes[j].name] == combo[j]
    ensures m == Dict(axes, combo)
  {
    var d := Dict(axes, combo);
    DictLookup(axes, combo);
    assert m.Keys == d.Keys;
    forall x | x in m.Keys ensures m[x] == d[x] {
      var j :| 0 <= j < |axes| && axes[j].name == x;
    }
  }

  lemma {:induction false} DigitsOf<V>(axes: seq<Axis<V>>, m: map<string, V>) returns (digits: seq<nat>)
    requires InGrid(axes, m)
    ensures IsChoice(axes, digits)
    ensures forall j :: 0 <= j < |axes| ==> m[axes[j].name] == axes[j].values[digits[j]]
  {
    digits := [];
    for j := 0 to |axes|
      invariant |digits| == j
      invariant forall k :: 0 <= k < j ==> digits[k] < |axes[k].values| && m[axes[k].name] == axes[k].values[digits[k]]
    {
      var d: nat :| d < |axes[j].values| && axes[j].values[d] == m[axes[j].name];
      digits := digits + [d];
    }
  }

  // ----- Scores and results

  /** A score; a combination without trades scores minus infinity. */
  datatype Score = NegInf | Fin(value: real)

  predicate Better(a: Score, b: Score) {
    a.Fin? && (b.Fin? ==> a.value > b.value)
  }

  /** What a backtest leaves: the engine's result object, or a worker's dictionary with that many trades. */
  datatype Outcome = Report | Sheet(trades: nat)

  datatype Entry<P> = Entry(params: P, score: Score, outcome: Outcome)

  /** What the parallel run delivers for one combination. */
  datatype Item<P> = Crashed | Errored(params: P) | Done(entry: Entry<P>)

  /** A call that may raise. */
  datatype Attempt<+T> = Raises | Gives(value: T)

  /** What the engine gives for one combination when it is awaited in the process itself. */
  datatype Scoring<P> = Scoring(params: P, score: Score)

  function EntryOf<P>(s: Scoring<P>): Entry<P> { Entry(s.params, s.score, Report) }

  /** The entries of the items that neither crashed nor reported an error, in order. */
  function Successful<P>(items: seq<Item<P>>): seq<Entry<P>> {
    if |items| == 0 then []
    else
      var last := items[|items| - 1];
      Successful(items[..|items| - 1]) + if last.Done? then [last.entry] else []
  }

  /** The kept entries are those of all finished items, in the order of the items. */
  lemma {:induction false} SuccessfulExact<P>(items: seq<Item<P>>) returns (at: seq<nat>)
    ensures |at| == |Successful(items)|
    ensures forall k :: 0 <= k < |at| ==> at[k] < |items| && items[at[k]] == Done(Successful(items)[k])
    ensures forall k, l :: 0 <= k < l < |at| ==> at[k] < at[l]
    ensures forall i :: 0 <= i < |items| && items[i].Done? ==> exists k :: 0 <= k < |at| && at[k] == i
  {
    at := [];
    if |items| > 0 {
      var n := |items| - 1;
      var init := items[..n];
      at := SuccessfulExact(init);
      ghost var before := at;
      if items[n].Done? {
        at := at + [n];
        assert at[|before|] == n;
      }
      forall i | 0 <= i < |items| && items[i].Done? ensures exists k :: 0 <= k < |at| && at[k] == i {
        if i < n {
          assert init[i].Done?;
          var k :| 0 <= k < |before| && before[k] == i;
          assert at[k] == i;
        }
      }
    }
  }

  predicate NoneRaised<P>(runs: seq<Attempt<Scoring<P>>>) {
    forall i :: 0 <= i < |runs| ==> runs[i].Gives?
  }

  function Scored<P>(runs: seq<Attempt<Scoring<P>>>): (entries: seq<Entry<P>>)
    requires NoneRaised(runs)
    ensures |entries| == |runs|
  {
    seq(|runs|, i requires 0 <= i < |runs| => EntryOf(runs[i].value))
  }

  /** An outcome kept as the best result; of dictionaries only those that list trades. */
  function Kept(o: Outcome): Option<Outcome> {
    if o.Sheet? && o.trades == 0 then None else Some(o)
  }

  /** `score`, `params` and `best` are those of the first entry no other beats, if any beats minus infinity. */
  ghost predicate IsFirstBest<P>(results: seq<Entry<P>>, score: Score, params: Option<P>, best: Option<Outcome>) {
    && (forall i :: 0 <= i < |results| ==> !Better(results[i].score, score))
    && (if score == NegInf then params == None && best == None
        else exists k :: FirstBestAt(results, score, params, best, k))
  }

  ghost predicate FirstBestAt<P>(results: seq<Entry<P>>, score: Score, params: Option<P>, best: Option<Outcome>,
          k: nat)
  {
    && k < |results| && results[k].score == score && params == Some(results[k].params)
    && best == Kept(results[k].outcome)
    && forall j :: 0 <= j < k ==> Better(score, results[j].score)
  }

  /** Two lists of results with the same parameters and scores. */
  ghost predicate SameScores<P>(results: seq<Entry<P>>, others: seq<Entry<P>>) {
    && |results| == |others|
    && forall i :: 0 <= i < |results| ==>
         results[i].params == others[i].params && results[i].score == others[i].score
  }

  lemma {:induction false} FirstBestUnique<P>(results: seq<Entry<P>>, s: Score, p: Option<P>, b: Option<Outcome>,
          others: seq<Entry<P>>, t: Score, q: Option<P>, c: Option<Outcome>)
    requires SameScores(results, others)
    requires IsFirstBest(results, s, p, b) && IsFirstBest(others, t, q, c)
    ensures s == t && p == q
    ensures results == others ==> b == c
  {
    if s != NegInf {
      var k: nat :| FirstBestAt(results, s, p, b, k);
      assert !Better(others[k].score, t);
    }
    if t != NegInf {
      var l: nat :| FirstBestAt(others, t, q, c, l);
      assert !Better(results[l].score, s);
    }
    assert s == t;
    if s != NegInf {
      var k: nat :| FirstBestAt(results, s, p, b, k);
      var l: nat :| FirstBestAt(others, t, q, c, l);
      assert k == l;
    }
  }

  lemma {:induction false} FirstBestExtends<P>(results: seq<Entry<P>>, e: Entry<P>, score: Score, params: Option<P>,
          best: Option<Outcome>)
    requires IsFirstBest(results, score, params, best)
    ensures if Better(e.score, score) then IsFirstBest(results + [e], e.score, Some(e.params), Kept(e.outcome))
            else IsFirstBest(results + [e], score, params, best)
  {
    var longer := results + [e];
    if Better(e.score, score) {
      assert FirstBestAt(longer, e.score, Some(e.params), Kept(e.outcome), |results|);
    } else if score != NegInf {
      var k: nat :| FirstBestAt(results, score, params, best, k);
      assert FirstBestAt(longer, score, params, best, k);
    }
  }

  /**
   * In values: a finite score is reported as soon as there is one, it is attained, no result exceeds it,
   * and it is the first to reach it, with its own parameters.
   */
  lemma {:induction false} BestIsMaximum<P>(results: seq<Entry<P>>, score: Score, params: Option<P>,
          best: Option<Outcome>)
    requires IsFirstBest(results, score, params, best)
    ensures forall i :: 0 <= i < |results| && results[i].score.Fin? ==>
        score.Fin? && results[i].score.value <= score.value
    ensures score.Fin? ==> exists k ::
        && 0 <= k < |results| && results[k].score == score
        && params == Some(results[k].params)
        && best == (if results[k].outcome == Sheet(0) then None else Some(results[k].outcome))
        && forall j :: 0 <= j < k && results[j].score.Fin? ==> results[j].score.value < score.value
    ensures score.NegInf? ==> params == None && best == None
  {
    if score != NegInf {
      var k: nat :| FirstBestAt(results, score, params, best, k);
      forall j | 0 <= j < k && results[j].score.Fin? ensures results[j].score.value < score.value {
        assert Better(score, results[j].score);
      }
    }
    forall i | 0 <= i < |results| && results[i].score.Fin?
      ensures score.Fin? && results[i].score.value <= score.value
    {
      assert !Better(results[i].score, score);
    }
  }

  /** The share of `total` combinations that `done` ones are. */
  function Progress(done: nat, total: nat): (p: real)
    requires done <= total
    ensures p * total as real == done as real && (total == 0 ==> p == 0.0)
    ensures 0.0 <= p <= 1.0 && (p == 1.0 <==> done == total > 0)
  {
    if total == 0 then 0.0
    else
      DivideCompares(done as real, total as real, 0.0);
      DivideCompares(done as real, total as real, 1.0);
      done as real / total as real
  }

  /** What a result loop has when it is through. */
  datatype Search<P> =
    Search(results: seq<Entry<P>>, score: Score, params: Option<P>, best: Option<Outcome>, progress: real)

  ghost predicate Finds<P>(results: seq<Entry<P>>, s: Search<P>) {
    s.results == results && IsFirstBest(results, s.score, s.params, s.best)
  }

  /** The collection loop of the parallel run. `progress` is the progress reported after the loop. */
  method CollectParallel<P>(items: seq<Item<P>>) returns (s: Search<P>)
    ensures Finds(Successful(items), s)
    ensures |s.results| <= |items| && s.progress == Progress(|s.results|, |items|)
  {
    var results: seq<Entry<P>>, score, params, best := [], NegInf, None, None;
    var progress, total := 0.0, |items|;
    for i := 0 to |items|
      invariant results == Successful(items[..i]) && |results| <= i
      invariant IsFirstBest(results, score, params, best)
      invariant progress == Progress(|results|, total)
    {
      assert items[..i + 1][..i] == items[..i];
      var item := items[i];
      if item.Crashed? || item.Errored? {
        continue;
      }
      FirstBestExtends(results, item.entry, score, params, best);
      results := results + [item.entry];
      if Better(item.entry.score, score) {
        score := item.entry.score;
        params := Some(item.entry.params);
        best := if item.entry.outcome.Report? then Some(item.entry.outcome) else None;
        if best.None? && item.entry.outcome.trades > 0 {
          best := Some(item.entry.outcome);
        }
      }
      progress := Progress(|results|, total);
    }
    assert items[..|items|] == items;
    s := Search(results, score, params, best, progress);
  }

  lemma {:induction false} ScoredExtends<P>(runs: seq<Attempt<Scoring<P>>>, i: nat)
    requires i < |runs| && NoneRaised(runs[..i]) && runs[i].Gives?
    ensures NoneRaised(runs[..i + 1])
    ensures Scored(runs[..i + 1]) == Scored(runs[..i]) + [EntryOf(runs[i].value)]
  {
    assert runs[..i + 1] == runs[..i] + [runs[i]];
  }

  /** The one-by-one loop; an exception of the engine ends it. */
  method RunSequential<P>(runs: seq<Attempt<Scoring<P>>>) returns (s: Attempt<Search<P>>)
    ensures s.Gives? <==> NoneRaised(runs)
    ensures s.Gives? ==> Finds(Scored(runs), s.value) && s.value.progress == Progress(|runs|, |runs|)
  {
    var results: seq<Entry<P>>, score, params, best := [], NegInf, None, None;
    var progress, total := 0.0, |runs|;
    for i := 0 to |runs|
      invariant NoneRaised(runs[..i]) && results == Scored(runs[..i])
      invariant IsFirstBest(results, score, params, best)
      invariant progress == Progress(i, total)
    {
      progress := Progress(i + 1, total);
      if runs[i].Raises? {
        return Raises;
      }
      var entry := EntryOf(runs[i].value);
      FirstBestExtends(results, entry, score, params, best);
      ScoredExtends(runs, i);
      results := results + [entry];
      if Better(entry.score, score) {
        score := entry.score;
        params := Some(entry.params);
        best := Some(entry.outcome);
      }
    }
    assert runs[..|runs|] == runs;
    s := Gives(Search(results, score, params, best, progress));
  }

  /** The same scores, delivered by a pool and given by the engine one by one. */
  ghost predicate SameRuns<P>(items: seq<Item<P>>, runs: seq<Attempt<Scoring<P>>>) {
    && |items| == |runs|
    && forall i :: 0 <= i < |items| ==>
         && (items[i].Done? <==> runs[i].Gives?)
         && (items[i].Done? ==>
              items[i].entry.params == runs[i].value.params && items[i].entry.score == runs[i].value.score)
  }

  lemma {:induction false} SuccessfulOfDone<P>(items: seq<Item<P>>, runs: seq<Attempt<Scoring<P>>>)
    requires SameRuns(items, runs) && NoneRaised(runs)
    ensures SameScores(Successful(items), Scored(runs))
  {
    if |items| > 0 {
      SuccessfulOfDone(items[..|items| - 1], runs[..|runs| - 1]);
    }
  }

  /** On the same error-free scores the two loops report the same scores and the same best. */
  lemma {:induction false} LoopsAgree<P>(items: seq<Item<P>>, runs: seq<Attempt<Scoring<P>>>, s: Search<P>,
          t: Search<P>)
    requires SameRuns(items, runs) && NoneRaised(runs)
    requires Finds(Successful(items), s) && Finds(Scored(runs), t)
    ensures SameScores(s.results, t.results) && s.score == t.score && s.params == t.params
  {
    SuccessfulOfDone(items, runs);
    FirstBestUnique(s.results, s.score, s.params, s.best, t.results, t.score, t.params, t.best);
  }

  // ----- The ranking

  /** Entry i is reported before entry j: a better score, or an equal one seen earlier. */
  predicate Before<P>(results: seq<Entry<P>>, i: nat, j: nat)
    requires i < |results| && j < |results|
  {
    Better(results[i].score, results[j].score) || (results[i].score == results[j].score && i < j)
  }

  predicate Indices<P>(results: seq<Entry<P>>, order: seq<nat>) {
    forall a :: 0 <= a < |order| ==> order[a] < |results|
  }

  ghost predicate Ordered<P>(results: seq<Entry<P>>, order: seq<nat>) {
    Indices(results, order) && forall a, b :: 0 <= a < b < |order| ==> Before(results, order[a], order[b])
  }

  ghost predicate Lists(order: seq<nat>, i: nat) {
    exists a :: 0 <= a < |order| && order[a] == i
  }

  ghost predicate Covers(order: seq<nat>, n: nat) {
    forall i: nat :: i < n ==> Lists(order, i)
  }

  /** `order` lists the indices of the results as a stable sort by descending score leaves them. */
  ghost predicate IsRanking<P>(results: seq<Entry<P>>, order: seq<nat>) {
    |order| == |results| && Ordered(results, order) && Covers(order, |results|)
  }

  /** Insertion of one index, behind everything reported before it. */
  function Insert<P>(results: seq<Entry<P>>, order: seq<nat>, i: nat): (r: seq<nat>)
    requires i < |results| && Indices(results, order)
    ensures |r| == |order| + 1 && Indices(results, r)
  {
    if |order| > 0 && Before(results, i, order[|order| - 1]) then
      Insert(results, order[..|order| - 1], i) + [order[|order| - 1]]
    else order + [i]
  }

  /** Insertion keeps everything and adds the one index. */
  lemma {:induction false} InsertLists<P>(results: seq<Entry<P>>, order: seq<nat>, i: nat, x: nat)
    requires i < |results| && Indices(results, order)
    ensures Lists(Insert(results, order, i), x) <==> Lists(order, x) || x == i
  {
    if |order| > 0 && Before(results, i, order[|order| - 1]) {
      var init, last := order[..|order| - 1], order[|order| - 1];
      InsertLists(results, init, i, x);
      ListsAppend(init, last, x);
      ListsAppend(Insert(results, init, i), last, x);
      assert order == init + [last];
    } else {
      ListsAppend(order, i, x);
    }
  }

  lemma {:induction false} ListsAppend(order: seq<nat>, i: nat, x: nat)
    ensures Lists(order + [i], x) <==> Lists(order, x) || x == i
  {
    var longer := order + [i];
    assert longer[|order|] == i;
    if Lists(order, x) {
      var a :| 0 <= a < |order| && order[a] == x;
      assert longer[a] == x;
    }
  }

  lemma {:induction false} BeforeTransitive<P>(results: seq<Entry<P>>, i: nat, j: nat, k: nat)
    requires i < |results| && j < |results| && k < |results|
    requires Before(results, i, j) && Before(results, j, k)
    ensures Before(results, i, k)
  {}

  /** An index behind the last of an ordered list is behind all of it. */
  lemma {:induction false} BehindAll<P>(results: seq<Entry<P>>, order: seq<nat>, i: nat)
    requires i < |results| && Ordered(results, order) && |order| > 0 && Before(results, order[|order| - 1], i)
    ensures Ordered(results, order + [i])
  {
    forall a | 0 <= a < |order| ensures Before(results, order[a], i) {
      if a < |order| - 1 { BeforeTransitive(results, order[a], order[|order| - 1], i); }
    }
  }

  lemma {:induction false} InsertOrdered<P>(results: seq<Entry<P>>, order: seq<nat>, i: nat)
    requires i < |results| && Ordered(results, order) && !Lists(order, i)
    ensures Ordered(results, Insert(results, order, i))
  {
    if |order| > 0 {
      var init, last := order[..|order| - 1], order[|order| - 1];
      if Before(results, i, last) {
        ListsAppend(init, last, i);
        assert order == init + [last];
        InsertOrdered(results, init, i);
        var inner := Insert(results, init, i);
        forall a | 0 <= a < |inner| ensures Before(results, inner[a], last) {
          assert Lists(inner, inner[a]);
          InsertLists(results, init, i, inner[a]);
        }
      } else {
        assert order[|order| - 1] != i by { assert Lists(order, order[|order| - 1]); }
        BehindAll(results, order, i);
      }
    }
  }

  /** Sorting by descending score, stably: each result goes behind everything that beats or precedes it. */
  method RankResults<P>(results: seq<Entry<P>>) returns (order: seq<nat>)
    ensures IsRanking(results, order)
  {
    order := [];
    for i := 0 to |results|
      invariant |order| == i && Ordered(results, order)
      invariant forall x: nat :: Lists(order, x) <==> x < i
    {
      InsertOrdered(results, order, i);
      forall x: nat ensures Lists(Insert(results, order, i), x) <==> Lists(order, x) || x == i {
        InsertLists(results, order, i, x);
      }
      order := Insert(results, order, i);
    }
  }

  /** `sorted(all_results, key=lambda x: -x["score"])[:10]`, given the sorted order. */
  function TopTen<P>(results: seq<Entry<P>>, order: seq<nat>): seq<Entry<P>>
    requires |order| == |results| && Indices(results, order)
  {
    seq(if |order| < 10 then |order| else 10, a requires 0 <= a < |order| => results[order[a]])
  }

  /** A ranking is determined by the results: the stable sort has one outcome. */
  lemma {:induction false} RankingUnique<P>(results: seq<Entry<P>>, p: seq<nat>, q: seq<nat>, k: nat)
    requires IsRanking(results, p) && IsRanking(results, q) && k <= |results|
    ensures p[..k] == q[..k]
  {
    if k > 0 {
      RankingUnique(results, p, q, k - 1);
      RankingNext(results, p, q, k - 1);
      RankingNext(results, q, p, k - 1);
      assert p[..k] == p[..k - 1] + [p[k - 1]] && q[..k] == q[..k - 1] + [q[k - 1]];
    }
  }

  /** After a common prefix, the next index of one ranking does not come before that of the other. */
  lemma {:induction false} RankingNext<P>(results: seq<Entry<P>>, p: seq<nat>, q: seq<nat>, k: nat)
    requires IsRanking(results, p) && IsRanking(results, q) && k < |results| && p[..k] == q[..k]
    ensures p[k] == q[k] || Before(results, p[k], q[k])
  {
    assert Lists(p, q[k]);
    var b :| 0 <= b < |p| && p[b] == q[k];
    forall j | 0 <= j < k ensures p[j] == q[j] {
      assert p[..k][j] == q[..k][j];
    }
    assert b >= k;
  }

  /** The best parameters head the reported list, and nothing left out beats anything reported. */
  lemma {:induction false} TopTenIsBest<P>(results: seq<Entry<P>>, order: seq<nat>, score: Score, params: Option<P>,
          best: Option<Outcome>)
    requires IsRanking(results, order) && IsFirstBest(results, score, params, best)
    ensures var top := TopTen(results, order);
      && (score != NegInf ==> top != [] && top[0].score == score && params == Some(top[0].params))
      && (forall a, b :: 0 <= a < b < |top| ==> !Better(top[b].score, top[a].score))
      && forall i :: 0 <= i < |results| ==>
           results[i] in top || forall a :: 0 <= a < |top| ==> !Better(results[i].score, top[a].score)
  {
    var top := TopTen(results, order);
    if score != NegInf {
      var k: nat :| FirstBestAt(results, score, params, best, k);
      HeadIsFirstBest(results, order, score, params, best, k);
    }
    forall a, b | 0 <= a < b < |top| ensures !Better(top[b].score, top[a].score) {
      assert Before(results, order[a], order[b]);
    }
    forall i | 0 <= i < |results|
      ensures results[i] in top || forall a :: 0 <= a < |top| ==> !Better(results[i].score, top[a].score)
    {
      LeftOut(results, order, i);
    }
  }

  /**
   * In values: the report has ten results, or all if there are fewer; finite scores come first and fall,
   * and no result that is left out exceeds one that is reported.
   */
  lemma {:induction false} TopTenDescends<P>(results: seq<Entry<P>>, order: seq<nat>)
    requires IsRanking(results, order)
    ensures var top := TopTen(results, order);
      && |top| == (if |results| < 10 then |results| else 10)
      && (forall a, b :: 0 <= a < b < |top| && top[b].score.Fin? ==>
            top[a].score.Fin? && top[a].score.value >= top[b].score.value)
      && forall i :: 0 <= i < |results| && results[i].score.Fin? && results[i] !in top ==>
           forall a :: 0 <= a < |top| ==> top[a].score.Fin? && top[a].score.value >= results[i].score.value
  {
    var top := TopTen(results, order);
    forall a, b | 0 <= a < b < |top| && top[b].score.Fin?
      ensures top[a].score.Fin? && top[a].score.value >= top[b].score.value
    {
      assert Before(results, order[a], order[b]);
    }
    forall i | 0 <= i < |results| && results[i].score.Fin? && results[i] !in top
      ensures forall a :: 0 <= a < |top| ==> top[a].score.Fin? && top[a].score.value >= results[i].score.value
    {
      LeftOut(results, order, i);
    }
  }

  lemma {:induction false} LeftOut<P>(results: seq<Entry<P>>, order: seq<nat>, i: nat)
    requires IsRanking(results, order) && i < |results|
    ensures var top := TopTen(results, order);
      results[i] in top || forall a :: 0 <= a < |top| ==> !Better(results[i].score, top[a].score)
  {
    var top := TopTen(results, order);
    assert Lists(order, i);
    var b :| 0 <= b < |order| && order[b] == i;
    if b < |top| {
      assert top[b] == results[i];
    } else {
      forall a | 0 <= a < |top| ensures !Better(results[i].score, top[a].score) {
        assert Before(results, order[a], order[b]);
      }
    }
  }

  lemma {:induction false} HeadIsFirstBest<P>(results: seq<Entry<P>>, order: seq<nat>, score: Score,
          params: Option<P>, best: Option<Outcome>, k: nat)
    requires IsRanking(results, order) && IsFirstBest(results, score, params, best)
    requires FirstBestAt(results, score, params, best, k)
    ensures order[0] == k
  {
    assert Lists(order, k);
    var b :| 0 <= b < |order| && order[b] == k;
    FirstBestLeads(results, score, params, best, k, order[0]);
    assert b == 0;
  }

  lemma {:induction false} FirstBestLeads<P>(results: seq<Entry<P>>, score: Score, params: Option<P>,
          best: Option<Outcome>, k: nat, i: nat)
    requires IsFirstBest(results, score, params, best) && FirstBestAt(results, score, params, best, k)
    requires i < |results|
    ensures !Before(results, i, k)
  {
    assert !Better(results[i].score, score);
  }

  // ----- The result of a task

  datatype Status = Completed | Failed

  /** `bestMetrics` names the outcome the metrics are read from. */
  datatype TaskResult<P> = TaskResult(
    status: Status,
    bestScore: Option<Score>,
    bestParams: Option<P>,
    bestMetrics: Option<Outcome>,
    allResults: seq<Entry<P>>)

  /** Reads attributes of the engine's result object, so it raises on `None` and on a dictionary. */
  function ConvertToMetrics(best: Option<Outcome>): Attempt<Outcome> {
    if best.Some? && best.value.Report? then Gives(best.value) else Raises
  }

  /** Everything that gave results, or nothing when the only combination of the task raised. */
  datatype Delivery<P> = Pooled(items: seq<Item<P>>) | InProcess(runs: seq<Attempt<Scoring<P>>>)

  /** A completed task reports the first best of the results and the ten that head their ranking. */
  ghost predicate Reports<P>(results: seq<Entry<P>>, r: TaskResult<P>) {
    && r.status == Completed && r.bestScore.Some?
    && IsFirstBest(results, r.bestScore.value, r.bestParams, r.bestMetrics)
    && exists order :: IsRanking(results, order) && r.allResults == TopTen(results, order)
  }

  /**
   * What a completed task says, in values: the reported score is the greatest one and the parameters are
   * those of the first combination that reaches it; the reported results fall from there.
   */
  lemma {:induction false} ReportMaximises<P>(results: seq<Entry<P>>, r: TaskResult<P>)
    requires Reports(results, r)
    ensures forall i :: 0 <= i < |results| && results[i].score.Fin? ==>
        r.bestScore.value.Fin? && results[i].score.value <= r.bestScore.value.value
    ensures r.bestScore.value.Fin? ==> exists k ::
        && 0 <= k < |results|
        && results[k].score == r.bestScore.value && r.bestParams == Some(results[k].params)
        && r.bestMetrics == (if results[k].outcome == Sheet(0) then None else Some(results[k].outcome))
        && forall j :: 0 <= j < k && results[j].score.Fin? ==> results[j].score.value < r.bestScore.value.value
    ensures r.bestScore.value.NegInf? ==> r.bestParams == None && r.bestMetrics == None
    ensures |r.allResults| == if |results| < 10 then |results| else 10
    ensures forall a, b :: 0 <= a < b < |r.allResults| && r.allResults[b].score.Fin? ==>
        r.allResults[a].score.Fin? && r.allResults[a].score.value >= r.allResults[b].score.value
    ensures r.bestScore.value.Fin? ==> |r.allResults| > 0 && r.allResults[0].score == r.bestScore.value
  {
    BestIsMaximum(results, r.bestScore.value, r.bestParams, r.bestMetrics);
    var order :| IsRanking(results, order) && r.allResults == TopTen(results, order);
    TopTenDescends(results, order);
    TopTenIsBest(results, order, r.bestScore.value, r.bestParams, r.bestMetrics);
  }

  /** More than one combination goes to the pool; one, or none, is run in the process. */
  method RunTask<P>(d: Delivery<P>) returns (r: TaskResult<P>)
    requires if d.Pooled? then |d.items| > 1 else |d.runs| <= 1
    ensures d.Pooled? ==> Reports(Successful(d.items), r)
    ensures d.InProcess? && NoneRaised(d.runs) ==> Reports(Scored(d.runs), r)
    ensures d.InProcess? && !NoneRaised(d.runs) ==> r == TaskResult(Failed, None, None, None, [])
  {
    var s: Search<P>;
    if d.Pooled? {
      s := CollectParallel(d.items);
    } else {
      var attempt := RunSequential(d.runs);
      if attempt.Raises? {
        return TaskResult(Failed, None, None, None, []);
      }
      s := attempt.value;
    }
    var metrics: Option<Outcome> := None;
    if s.best.Some? {
      if s.best.value.Sheet? && s.best.value.trades > 0 {
        metrics := s.best;
      } else {
        var converted := ConvertToMetrics(s.best);
        if converted.Raises? {
          return TaskResult(Failed, Some(s.score), s.params, None, []);
        }
        metrics := Some(converted.value);
      }
    }
    var order := RankResults(s.results);
    r := TaskResult(Completed, Some(s.score), s.params, metrics, TopTen(s.results, order));
  }

  ghost predicate SomeFinite<P>(results: seq<Entry<P>>) {
    exists i :: 0 <= i < |results| && results[i].score != NegInf
  }

  /** There is a best result exactly when some score is above minus infinity. */
  lemma {:induction false} BestIffFinite<P>(results: seq<Entry<P>>, score: Score, params: Option<P>,
          best: Option<Outcome>)
    requires IsFirstBest(results, score, params, best)
    ensures score != NegInf <==> SomeFinite(results)
  {
    if score != NegInf {
      var k: nat :| FirstBestAt(results, score, params, best, k);
      assert results[k].score != NegInf;
    } else {
      forall i | 0 <= i < |results| ensures results[i].score == NegInf {
        assert !Better(results[i].score, NegInf);
      }
    }
  }

  /** The sequential variant converts the best result unconditionally: without one it fails. */
  method RunTaskSequential<P>(runs: seq<Attempt<Scoring<P>>>) returns (r: TaskResult<P>)
    ensures NoneRaised(runs) && SomeFinite(Scored(runs)) ==> Reports(Scored(runs), r)
    ensures NoneRaised(runs) && !SomeFinite(Scored(runs)) ==> r == TaskResult(Failed, Some(NegInf), None, None, [])
    ensures !NoneRaised(runs) ==> r == TaskResult(Failed, None, None, None, [])
  {
    var attempt := RunSequential(runs);
    if attempt.Raises? {
      return TaskResult(Failed, None, None, None, []);
    }
    var s := attempt.value;
    BestIffFinite(s.results, s.score, s.params, s.best);
    AllReports(s.results, s.score, s.params, s.best);
    var converted := ConvertToMetrics(s.best);
    if converted.Raises? {
      return TaskResult(Failed, Some(s.score), s.params, None, []);
    }
    var order := RankResults(s.results);
    r := TaskResult(Completed, Some(s.score), s.params, Some(converted.value), TopTen(s.results, order));
  }

  /** Results of the engine alone have a result object as their best. */
  lemma {:induction false} AllReports<P>(results: seq<Entry<P>>, score: Score, params: Option<P>,
          best: Option<Outcome>)
    requires IsFirstBest(results, score, params, best)
    requires forall i :: 0 <= i < |results| ==> results[i].outcome == Report
    ensures best == if score == NegInf then None else Some(Report)
  {
    if score != NegInf {
      var k: nat :| FirstBestAt(results, score, params, best, k);
    }
  }

  /** Both variants on the same combinations: the pool delivers what the engine gives one by one. */
  ghost predicate SameTask<P>(d: Delivery<P>, runs: seq<Attempt<Scoring<P>>>) {
    match d
    case Pooled(items) => |items| > 1 && SameRuns(items, runs)
    case InProcess(own) => |own| <= 1 && own == runs
  }

  /**
   * The two variants end with the same status exactly when nothing raised and some score is above minus
   * infinity, or when the one combination there is raised.
   */
  method CompareVariants<P>(d: Delivery<P>, runs: seq<Attempt<Scoring<P>>>)
    returns (p: TaskResult<P>, q: TaskResult<P>)
    requires SameTask(d, runs)
    ensures p.status == q.status
       <==> if NoneRaised(runs) then SomeFinite(Scored(runs)) else d.InProcess?
    ensures NoneRaised(runs) && SomeFinite(Scored(runs)) ==>
        p.bestScore == q.bestScore && p.bestParams == q.bestParams
  {
    p := RunTask(d);
    q := RunTaskSequential(runs);
    if NoneRaised(runs) && SomeFinite(Scored(runs)) {
      var results := if d.Pooled? then Successful(d.items) else Scored(runs);
      if d.Pooled? {
        SuccessfulOfDone(d.items, runs);
      }
      FirstBestUnique(results, p.bestScore.value, p.bestParams, p.bestMetrics,
                      Scored(runs), q.bestScore.value, q.bestParams, q.bestMetrics);
    }
  }

  /** A grid is empty exactly when some value list is. */
  lemma {:induction false} EmptyGridIff<V>(axes: seq<Axis<V>>)
    ensures Count(axes) == 0 <==> exists j :: 0 <= j < |axes| && axes[j].values == []
  {
    if |axes| > 0 {
      var init := axes[..|axes| - 1];
      EmptyGridIff(init);
      if Count(init) == 0 {
        var j :| 0 <= j < |init| && init[j].values == [];
        assert axes[j].values == [];
      } else if exists j :: 0 <= j < |axes| && axes[j].values == [] {
        var j :| 0 <= j < |axes| && axes[j].values == [];
        assert j == |axes| - 1 || init[j].values == [];
      }
      ProductZero(Count(init), |axes[|axes| - 1].values|);
    }
  }

  lemma {:induction false} ProductZero(a: nat, b: nat)
    ensures a * b == 0 <==> a == 0 || b == 0
  {}

  /** On a grid with an empty value list `run_task` completes, without a best result, and the variant fails. */
  method SearchEmptyGrid<V>(axes: seq<Axis<V>>, j: nat)
    returns (p: TaskResult<map<string, V>>, q: TaskResult<map<string, V>>)
    requires j < |axes| && axes[j].values == []
    ensures p.status == Completed && p.bestParams == None && p.bestMetrics == None && p.allResults == []
    ensures q.status == Failed
  {
    EmptyGridIff(axes);
    var combinations := GetCombinations(axes);
    var runs := seq(|combinations|, i requires 0 <= i < |combinations| => Gives(Scoring(combinations[i], NegInf)));
    p := RunTask(InProcess(runs));
    q := RunTaskSequential(runs);
  }
}
