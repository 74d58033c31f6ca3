/**
  `calculateTotalScore`: the weighted mean of a university's slider scores over the
  AI-generated columns. Weights are exact reals here; the one-decimal rendering of the
  result is not modelled.
*/
module WeightedTotal {
  import opened Options
  import opened DecideTypes

  /** `columns.filter(col => col.aiGenerated)`. */
  function AiColumns(columns: seq<Column>): (r: seq<Column>)
    ensures |r| <= |columns|
    ensures forall c :: c in r <==> c in columns && c.aiGenerated
  {
    if columns == [] then []
    else if columns[0].aiGenerated then [columns[0]] + AiColumns(columns[1..])
    else AiColumns(columns[1..])
  }

  /** Appending a column appends it to the AI columns exactly when it is AI-generated. */
  lemma {:induction false} AiColumnsAppend(columns: seq<Column>, c: Column)
    ensures AiColumns(columns + [c]) == AiColumns(columns) + (if c.aiGenerated then [c] else [])
  {
    if columns != [] {
      assert (columns + [c])[1..] == columns[1..] + [c];
      AiColumnsAppend(columns[1..], c);
    }
  }

  /** `university.scores[id] || 0`. */
  function ScoreIn(u: University, id: string): int
  {
    if id in u.scores then u.scores[id] else 0
  }

  function WeightSum(columns: seq<Column>): real
  {
    if columns == [] then 0.0 else columns[0].weight + WeightSum(columns[1..])
  }

  function WeightedScoreSum(u: University, columns: seq<Column>): real
  {
    if columns == [] then 0.0
    else ScoreIn(u, columns[0].id) as real * columns[0].weight + WeightedScoreSum(u, columns[1..])
  }

  /** `null` when no column is AI-generated or their weights do not add up to a positive
      total; otherwise the weighted mean of the scores. */
  function TotalScore(u: University, columns: seq<Column>): Option<real>
  {
    var scoreColumns := AiColumns(columns);
    if scoreColumns == [] then None
    else
      var totalWeight := WeightSum(scoreColumns);
      if totalWeight > 0.0 then Some(WeightedScoreSum(u, scoreColumns) / totalWeight) else None
  }

  lemma {:induction false} AiColumnsIdempotent(columns: seq<Column>)
    ensures AiColumns(AiColumns(columns)) == AiColumns(columns)
  {
    if columns != [] {
      AiColumnsIdempotent(columns[1..]);
    }
  }

  /** Only the AI-generated columns take part: dropping the others changes nothing. */
  lemma TotalScoreIgnoresOtherColumns(u: University, columns: seq<Column>)
    ensures TotalScore(u, AiColumns(columns)) == TotalScore(u, columns)
  {
    AiColumnsIdempotent(columns);
  }

  lemma StepAtLeast(lo: real, c: real, w: real, tw: real, ws: real, total: real, sum: real)
    requires lo * tw <= ws && lo <= c && 0.0 <= w
    requires total == w + tw && sum == c * w + ws
    ensures lo * total <= sum
  {
    assert 0.0 <= (c - lo) * w;
  }

  lemma StepAtMost(hi: real, c: real, w: real, tw: real, ws: real, total: real, sum: real)
    requires ws <= hi * tw && c <= hi && 0.0 <= w
    requires total == w + tw && sum == c * w + ws
    ensures sum <= hi * total
  {
    assert 0.0 <= (hi - c) * w;
  }

  lemma {:induction false} WeightedScoreSumAtLeast(u: University, columns: seq<Column>, lo: real)
    requires forall i :: 0 <= i < |columns| ==> 0.0 <= columns[i].weight && lo <= ScoreIn(u, columns[i].id) as real
    ensures lo * WeightSum(columns) <= WeightedScoreSum(u, columns)
  {
    if columns != [] {
      var c := columns[0];
      WeightedScoreSumAtLeast(u, columns[1..], lo);
      StepAtLeast(lo, ScoreIn(u, c.id) as real, c.weight, WeightSum(columns[1..]), WeightedScoreSum(u, columns[1..]),
                  WeightSum(columns), WeightedScoreSum(u, columns));
    }
  }

  lemma {:induction false} WeightedScoreSumAtMost(u: University, columns: seq<Column>, hi: real)
    requires forall i :: 0 <= i < |columns| ==> 0.0 <= columns[i].weight && ScoreIn(u, columns[i].id) as real <= hi
    ensures WeightedScoreSum(u, columns) <= hi * WeightSum(columns)
  {
    if columns != [] {
      var c := columns[0];
      WeightedScoreSumAtMost(u, columns[1..], hi);
      StepAtMost(hi, ScoreIn(u, c.id) as real, c.weight, WeightSum(columns[1..]), WeightedScoreSum(u, columns[1..]),
                 WeightSum(columns), WeightedScoreSum(u, columns));
    }
  }

  lemma DivBetween(x: real, w: real, lo: real, hi: real)
    requires w > 0.0 && lo * w <= x <= hi * w
    ensures lo <= x / w <= hi
  {
    var q := x / w;
    assert q * w == x;
    assert (q - lo) * w >= 0.0;
    assert (hi - q) * w >= 0.0;
  }

  lemma AiColumnsWithin(u: University, columns: seq<Column>, lo: int, hi: int)
    requires forall c :: c in columns && c.aiGenerated ==> 0.0 <= c.weight && lo <= ScoreIn(u, c.id) <= hi
    ensures var sc := AiColumns(columns);
      forall i :: 0 <= i < |sc| ==> 0.0 <= sc[i].weight && lo as real <= ScoreIn(u, sc[i].id) as real <= hi as real
  {
    var sc := AiColumns(columns);
    forall i | 0 <= i < |sc|
      ensures 0.0 <= sc[i].weight && lo as real <= ScoreIn(u, sc[i].id) as real <= hi as real
    {
      assert sc[i] in sc;
    }
  }

  /** With non-negative weights, the total lies between the least and the greatest score
      of the AI-generated columns (a missing score counting as 0). */
  lemma TotalScoreBetween(u: University, columns: seq<Column>, lo: int, hi: int)
    requires forall c :: c in columns && c.aiGenerated ==> 0.0 <= c.weight && lo <= ScoreIn(u, c.id) <= hi
    ensures TotalScore(u, columns).Some? ==> lo as real <= TotalScore(u, columns).value <= hi as real
  {
    var sc := AiColumns(columns);
    if sc != [] && WeightSum(sc) > 0.0 {
      AiColumnsWithin(u, columns, lo, hi);
      MeanWithin(u, sc, lo as real, hi as real);
    }
  }

  lemma MeanWithin(u: University, columns: seq<Column>, lo: real, hi: real)
    requires WeightSum(columns) > 0.0
    requires forall i :: 0 <= i < |columns| ==>
      0.0 <= columns[i].weight && lo <= ScoreIn(u, columns[i].id) as real <= hi
    ensures lo <= WeightedScoreSum(u, columns) / WeightSum(columns) <= hi
  {
    WeightedScoreSumAtLeast(u, columns, lo);
    WeightedScoreSumAtMost(u, columns, hi);
    DivBetween(WeightedScoreSum(u, columns), WeightSum(columns), lo, hi);
  }

  /** There is a total exactly when some AI-generated column exists and, if all their
      weights are non-negative, at least one of them has a positive weight. */
  lemma {:induction false} WeightSumPositive(columns: seq<Column>)
    requires forall c :: c in columns ==> 0.0 <= c.weight
    ensures WeightSum(columns) >= 0.0
    ensures WeightSum(columns) > 0.0 <==> exists c :: c in columns && c.weight > 0.0
  {
    if columns != [] {
      assert forall x :: x in columns[1..] ==> x in columns;
      WeightSumPositive(columns[1..]);
      assert forall c :: c in columns ==> c == columns[0] || c in columns[1..];
    }
  }

  lemma TotalScoreDefined(u: University, columns: seq<Column>)
    requires forall c :: c in columns ==> 0.0 <= c.weight
    ensures TotalScore(u, columns).Some? <==> exists c :: c in columns && c.aiGenerated && c.weight > 0.0
  {
    var sc := AiColumns(columns);
    WeightSumPositive(sc);
  }
}
