/**
  `calculateScoreForUniversity`: the sentiment score of a university over the topic
  columns, and the re-ranking that `handlePrioritize` and `toggleColumnPriority` perform
  with it.
*/
module SentimentScoring {
  import opened Options
  import opened DecideTypes
  import opened Priorities
  import StableSort
  import WeightedTotal

  /** What one fact adds to its criterion: +1 if positive, -1 if negative, else nothing. */
  function Delta(f: Fact): int
  {
    if f.sentiment == Positive then 1 else if f.sentiment == Negative then -1 else 0
  }

  /** The running `criterionScore` after the facts `facts`, counted in order. */
  function NetSentiment(facts: seq<Fact>): int
  {
    if facts == [] then 0 else NetSentiment(facts[..|facts| - 1]) + Delta(facts[|facts| - 1])
  }

  /** The sentiments of the facts, in order. */
  function SentimentsOf(facts: seq<Fact>): (r: seq<Sentiment>)
    ensures |r| == |facts| && forall i :: 0 <= i < |facts| ==> r[i] == facts[i].sentiment
  {
    seq(|facts|, i requires 0 <= i < |facts| => facts[i].sentiment)
  }

  /** The net sentiment is the number of positive facts minus the number of negative
      ones; neutral facts do not count. */
  lemma {:induction false} NetSentimentCounts(facts: seq<Fact>)
    ensures NetSentiment(facts)
      == multiset(SentimentsOf(facts))[Positive] as int - multiset(SentimentsOf(facts))[Negative] as int
  {
    if facts != [] {
      var n := |facts| - 1;
      var p := facts[..n];
      NetSentimentCounts(p);
      assert SentimentsOf(facts) == SentimentsOf(p) + [facts[n].sentiment];
    }
  }

  /** `Math.max(lo, Math.min(hi, x))`. */
  function Clamp(x: int, lo: int, hi: int): (r: int)
    requires lo <= hi
    ensures lo <= r <= hi
    ensures lo <= x <= hi ==> r == x
    ensures x < lo ==> r == lo
    ensures hi < x ==> r == hi
  {
    if x < lo then lo else if hi < x then hi else x
  }

  /** One criterion's score: five plus the net sentiment, clamped to 0..10. */
  function CriterionScore(facts: seq<Fact>): (r: int)
    ensures 0 <= r <= 10
  {
    Clamp(5 + NetSentiment(facts), 0, 10)
  }

  /** `university.facts?.[topicId] || []`. */
  function FactsFor(facts: Option<Facts>, topicId: string): seq<Fact>
  {
    if facts.Some? && topicId in facts.value then facts.value[topicId] else []
  }

  function TopicWeight(priorities: map<string, Priority>, topic: Column): int
  {
    Weight(PriorityOf(priorities, topic.id))
  }

  /** The running `totalWeight` after the topics `topics`. */
  function TotalWeight(topics: seq<Column>, priorities: map<string, Priority>): (w: int)
    ensures w >= |topics|
  {
    if topics == [] then 0
    else TotalWeight(topics[..|topics| - 1], priorities) + TopicWeight(priorities, topics[|topics| - 1])
  }

  /** The running `weightedSum` after the topics `topics`. */
  function WeightedSum(facts: Option<Facts>, topics: seq<Column>, priorities: map<string, Priority>): int
  {
    if topics == [] then 0
    else
      var t := topics[|topics| - 1];
      WeightedSum(facts, topics[..|topics| - 1], priorities) + CriterionScore(FactsFor(facts, t.id)) * TopicWeight(priorities, t)
  }

  /** The score of `u`: 0 without facts or topics, else the priority-weighted mean of the
      criterion scores. */
  function UniversityScore(u: University, topics: seq<Column>, priorities: map<string, Priority>): real
  {
    if u.facts.None? then 0.0
    else
      var w := TotalWeight(topics, priorities);
      if w > 0 then WeightedSum(u.facts, topics, priorities) as real / w as real else 0.0
  }

  method CalculateScoreForUniversity(u: University, topics: seq<Column>, priorities: map<string, Priority>)
    returns (score: real)
    ensures score == UniversityScore(u, topics, priorities)
  {
    if u.facts.None? {
      return 0.0;
    }
    var totalWeight := 0;
    var weightedSum := 0;
    var i := 0;
    while i < |topics|
      invariant 0 <= i <= |topics|
      invariant totalWeight == TotalWeight(topics[..i], priorities)
      invariant weightedSum == WeightedSum(u.facts, topics[..i], priorities)
    {
      var topic := topics[i];
      var priority := PriorityOf(priorities, topic.id);
      var weight := if priority == High then 3 else if priority == Medium then 2 else 1;
      totalWeight := totalWeight + weight;
      var facts := FactsFor(u.facts, topic.id);
      var criterionScore := NetSentimentOf(facts);
      var normalizedScore := if 5 + criterionScore < 0 then 0 else if 10 < 5 + criterionScore then 10 else 5 + criterionScore;
      weightedSum := weightedSum + normalizedScore * weight;
      assert topics[..i + 1][..i] == topics[..i];
      i := i + 1;
    }
    assert topics[..i] == topics;
    score := if totalWeight > 0 then weightedSum as real / totalWeight as real else 0.0;
  }

  /** The inner loop of `calculateScoreForUniversity`: one criterion's `criterionScore`. */
  method NetSentimentOf(facts: seq<Fact>) returns (criterionScore: int)
    ensures criterionScore == NetSentiment(facts)
  {
    criterionScore := 0;
    for j := 0 to |facts|
      invariant criterionScore == NetSentiment(facts[..j])
    {
      if facts[j].sentiment == Positive {
        criterionScore := criterionScore + 1;
      }
      if facts[j].sentiment == Negative {
        criterionScore := criterionScore - 1;
      }
      assert facts[..j + 1][..j] == facts[..j];
    }
    assert facts[..|facts|] == facts;
  }

  /** One step of a weighted sum stays between the bounds. */
  lemma StepBetween(lo: int, hi: int, c: int, w: int, tw: int, ws: int)
    requires lo * tw <= ws <= hi * tw && lo <= c <= hi && 0 <= w
    ensures lo * (tw + w) <= ws + c * w <= hi * (tw + w)
  {
    assert 0 <= (c - lo) * w;
    assert 0 <= (hi - c) * w;
    assert lo * (tw + w) == lo * tw + lo * w;
    assert hi * (tw + w) == hi * tw + hi * w;
  }

  lemma {:induction false} WeightedSumBetween(facts: Option<Facts>, topics: seq<Column>, priorities: map<string, Priority>, lo: int, hi: int)
    requires forall t :: t in topics ==> lo <= CriterionScore(FactsFor(facts, t.id)) <= hi
    ensures lo * TotalWeight(topics, priorities) <= WeightedSum(facts, topics, priorities)
    ensures WeightedSum(facts, topics, priorities) <= hi * TotalWeight(topics, priorities)
  {
    if topics != [] {
      var n := |topics| - 1;
      var t := topics[n];
      assert forall x :: x in topics[..n] ==> x in topics;
      WeightedSumBetween(facts, topics[..n], priorities, lo, hi);
      var c, w := CriterionScore(FactsFor(facts, t.id)), TopicWeight(priorities, t);
      assert TotalWeight(topics, priorities) == TotalWeight(topics[..n], priorities) + w;
      assert WeightedSum(facts, topics, priorities) == WeightedSum(facts, topics[..n], priorities) + c * w;
      StepBetween(lo, hi, c, w, TotalWeight(topics[..n], priorities), WeightedSum(facts, topics[..n], priorities));
    }
  }

  lemma ProductToReal(a: int, b: int)
    ensures (a * b) as real == a as real * b as real
  {
  }

  lemma MeanBetween(s: int, w: int, lo: int, hi: int)
    requires 0 < w && lo * w <= s <= hi * w
    ensures lo as real <= s as real / w as real <= hi as real
  {
    ProductToReal(lo, w);
    ProductToReal(hi, w);
    WeightedTotal.DivBetween(s as real, w as real, lo as real, hi as real);
  }

  /** The score is a weighted mean of the criterion scores, so it lies between their
      least and greatest value; in particular it equals the common value when all
      criteria agree. */
  lemma UniversityScoreBetween(u: University, topics: seq<Column>, priorities: map<string, Priority>, lo: int, hi: int)
    requires u.facts.Some? && topics != []
    requires forall t :: t in topics ==> lo <= CriterionScore(FactsFor(u.facts, t.id)) <= hi
    ensures lo as real <= UniversityScore(u, topics, priorities) <= hi as real
  {
    WeightedSumBetween(u.facts, topics, priorities, lo, hi);
    MeanBetween(WeightedSum(u.facts, topics, priorities), TotalWeight(topics, priorities), lo, hi);
  }

  /** The score is in 0..10, and it is 0 without facts or without topics. */
  lemma UniversityScoreBounds(u: University, topics: seq<Column>, priorities: map<string, Priority>)
    ensures 0.0 <= UniversityScore(u, topics, priorities) <= 10.0
    ensures u.facts.None? || topics == [] ==> UniversityScore(u, topics, priorities) == 0.0
  {
    if u.facts.Some? && topics != [] {
      UniversityScoreBetween(u, topics, priorities, 0, 10);
    }
  }

  /** `columns.filter(c => c.category === 'topic')`. */
  function TopicColumns(columns: seq<Column>): (r: seq<Column>)
    ensures forall c :: c in r <==> c in columns && c.category == Topic
  {
    if columns == [] then []
    else if columns[0].category == Topic then [columns[0]] + TopicColumns(columns[1..])
    else TopicColumns(columns[1..])
  }

  /** Appending a column appends it to the topic columns exactly when it is a topic
      column, so the filter keeps the order and the multiplicity of the topic columns. */
  lemma {:induction false} TopicColumnsAppend(columns: seq<Column>, c: Column)
    ensures TopicColumns(columns + [c]) == TopicColumns(columns) + (if c.category == Topic then [c] else [])
  {
    if columns != [] {
      assert (columns + [c])[1..] == columns[1..] + [c];
      TopicColumnsAppend(columns[1..], c);
    }
  }

  /** `{ ...u, score: calculateScoreForUniversity(u, topics, priorities) }`. */
  function Rescore(u: University, topics: seq<Column>, priorities: map<string, Priority>): University
  {
    u.(score := Some(UniversityScore(u, topics, priorities)))
  }

  function Rescored(universities: seq<University>, topics: seq<Column>, priorities: map<string, Priority>): (r: seq<University>)
    ensures |r| == |universities|
    ensures forall i :: 0 <= i < |r| ==> r[i] == Rescore(universities[i], topics, priorities)
  {
    seq(|universities|, i requires 0 <= i < |universities| => Rescore(universities[i], topics, priorities))
  }

  /** `(b.score || 0) - (a.score || 0)` sorts by this key, ascending. */
  function RankKey(u: University): real
  {
    if u.score.Some? then -u.score.value else 0.0
  }

  /** The re-ranked list: every university rescored, then stably sorted by descending score. */
  function Ranked(universities: seq<University>, topics: seq<Column>, priorities: map<string, Priority>): seq<University>
  {
    StableSort.SortBy(Rescored(universities, topics, priorities), RankKey)
  }

  /** After re-ranking, the list is a permutation of the rescored input, every row carries
      its own freshly computed score (in 0..10), the scores do not increase down the list,
      and rows of equal score keep their previous order. */
  lemma RankedCorrect(universities: seq<University>, topics: seq<Column>, priorities: map<string, Priority>)
    ensures var r := Ranked(universities, topics, priorities);
      && |r| == |universities|
      && multiset(r) == multiset(Rescored(universities, topics, priorities))
      && (forall i :: 0 <= i < |r| ==>
            r[i].score == Some(UniversityScore(r[i], topics, priorities)) &&
            0.0 <= r[i].score.value <= 10.0)
      && (forall i, j :: 0 <= i < j < |r| ==> r[i].score.value >= r[j].score.value)
      && (forall k :: StableSort.WithKey(r, RankKey, k) ==
                      StableSort.WithKey(Rescored(universities, topics, priorities), RankKey, k))
  {
    var s := Rescored(universities, topics, priorities);
    StableSort.SortByCorrect(s, RankKey);
    var r := Ranked(universities, topics, priorities);
    assert |r| == |multiset(r)| == |multiset(s)| == |s|;
    forall i | 0 <= i < |r|
      ensures r[i].score == Some(UniversityScore(r[i], topics, priorities))
      ensures 0.0 <= r[i].score.value <= 10.0
    {
      assert r[i] in multiset(s);
      RescoredMember(universities, topics, priorities, r[i]);
    }
    forall i, j | 0 <= i < j < |r|
      ensures r[i].score.value >= r[j].score.value
    {
      assert RankKey(r[i]) <= RankKey(r[j]);
    }
  }

  /** Every rescored row carries its own score, in 0..10. */
  lemma RescoredMember(universities: seq<University>, topics: seq<Column>, priorities: map<string, Priority>,
                       x: University)
    requires x in multiset(Rescored(universities, topics, priorities))
    ensures x.score == Some(UniversityScore(x, topics, priorities)) && 0.0 <= x.score.value <= 10.0
  {
    var s := Rescored(universities, topics, priorities);
    assert x in s;
    var k :| 0 <= k < |s| && s[k] == x;
    UniversityScoreBounds(universities[k], topics, priorities);
  }

  /** The re-scoring `map` followed by the sort, as both ranking handlers do it. */
  method RankUniversities(universities: seq<University>, topics: seq<Column>, priorities: map<string, Priority>)
    returns (ranked: seq<University>)
    ensures ranked == Ranked(universities, topics, priorities)
  {
    var withScores: seq<University> := [];
    for i := 0 to |universities|
      invariant |withScores| == i
      invariant forall k :: 0 <= k < i ==> withScores[k] == Rescore(universities[k], topics, priorities)
    {
      var u := universities[i];
      var score := CalculateScoreForUniversity(u, topics, priorities);
      withScores := withScores + [u.(score := Some(score))];
    }
    assert withScores == Rescored(universities, topics, priorities);
    ranked := StableSort.SortBy(withScores, RankKey);
  }
}
