/**
  Column priorities: how a raw label becomes a priority, how the clean-up orders its
  topics (high -> medium -> low), how a priority weighs in the sentiment score and how
  the priority button cycles it.
*/
module Priorities {
  import opened Options
  import opened DecideTypes
  import StableSort

  /** `topic.priority || 'medium'`: a missing or empty label counts as medium. */
  function ParsePriority(raw: Option<string>): (p: Priority)
    ensures p == Medium <==> raw.None? || raw == Some("") || raw == Some("medium")
    ensures p == High <==> raw == Some("high")
    ensures p == Low <==> raw == Some("low")
    ensures p.Unrecognized? <==> raw.Some? && raw.value !in {"", "high", "medium", "low"}
    ensures p.Unrecognized? ==> p.raw == raw.value
  {
    match raw
    case None => Medium
    case Some(s) =>
      if s == "" then Medium
      else if s == "high" then High
      else if s == "medium" then Medium
      else if s == "low" then Low
      else Unrecognized(s)
  }

  /** `{ high: 0, medium: 1, low: 2 }[label] ?? 1`: an unknown label ranks as medium. */
  function PriorityRank(p: Priority): (r: int)
    ensures 0 <= r <= 2
    ensures r == 0 <==> p == High
    ensures r == 2 <==> p == Low
  {
    match p
    case High => 0
    case Medium => 1
    case Low => 2
    case Unrecognized(_) => 1
  }

  function TopicRank(t: TopicSuggestion): real
  {
    PriorityRank(ParsePriority(t.priority)) as real
  }

  /** The clean-up's `sortedTopics`: a stable sort of the topics by rank. */
  function SortTopics(topics: seq<TopicSuggestion>): seq<TopicSuggestion>
  {
    StableSort.SortBy(topics, TopicRank)
  }

  /** Sorted topics are a permutation of the topics in which a lower rank always comes
      first, and topics of equal rank keep their relative order. */
  lemma SortTopicsCorrect(topics: seq<TopicSuggestion>)
    ensures multiset(SortTopics(topics)) == multiset(topics)
    ensures var r := SortTopics(topics);
      forall i, j :: 0 <= i < |r| && 0 <= j < |r| && TopicRank(r[i]) < TopicRank(r[j]) ==> i < j
    ensures forall k :: StableSort.WithKey(SortTopics(topics), TopicRank, k) ==
                        StableSort.WithKey(topics, TopicRank, k)
  {
    StableSort.SortByCorrect(topics, TopicRank);
  }

  /** Every high topic precedes every topic ranked medium (an unknown label included),
      and every such topic precedes every low topic. */
  lemma SortTopicsHighMediumLow(topics: seq<TopicSuggestion>)
    ensures var r := SortTopics(topics);
      forall i, j :: 0 <= i < |r| && 0 <= j < |r| &&
        ParsePriority(r[i].priority) == High && ParsePriority(r[j].priority) != High
        ==> i < j
    ensures var r := SortTopics(topics);
      forall i, j :: 0 <= i < |r| && 0 <= j < |r| &&
        ParsePriority(r[i].priority) != Low && ParsePriority(r[j].priority) == Low
        ==> i < j
  {
    SortTopicsCorrect(topics);
  }

  /** `priorities[id] || 'medium'`: a column without a priority counts as medium. */
  function PriorityOf(priorities: map<string, Priority>, id: string): Priority
  {
    if id in priorities then priorities[id] else Medium
  }

  /** `high ? 3 : medium ? 2 : 1`. */
  function Weight(p: Priority): (w: int)
    ensures 1 <= w <= 3
    ensures w == 3 <==> p == High
    ensures w == 2 <==> p == Medium
  {
    if p == High then 3 else if p == Medium then 2 else 1
  }

  /** `low -> medium`, `medium -> high`, anything else -> `low`. */
  function Toggle(p: Priority): (q: Priority)
    ensures q != p
    ensures q.Low? || q.Medium? || q.High?
    ensures Weight(q) == (if p == Low then 2 else if p == Medium then 3 else 1)
  {
    if p == Low then Medium else if p == Medium then High else Low
  }

  /** The priority map after the button of column `id` is pressed. */
  function Toggled(priorities: map<string, Priority>, id: string): (r: map<string, Priority>)
    ensures r.Keys == priorities.Keys + {id}
    ensures r[id] == Toggle(PriorityOf(priorities, id))
    ensures forall c :: c in priorities && c != id ==> r[c] == priorities[c]
  {
    priorities[id := Toggle(PriorityOf(priorities, id))]
  }

  /** Three presses bring a recognised priority back; a column without one goes to high. */
  lemma ToggleCycle(priorities: map<string, Priority>, id: string)
    ensures id !in priorities ==> Toggled(priorities, id)[id] == High
    ensures id in priorities && !priorities[id].Unrecognized? ==>
      Toggled(Toggled(Toggled(priorities, id), id), id) == priorities
    ensures id in priorities && priorities[id].Unrecognized? ==>
      Toggled(priorities, id)[id] == Low
  {
    if id in priorities && !priorities[id].Unrecognized? {
      var t3 := Toggled(Toggled(Toggled(priorities, id), id), id);
      assert t3.Keys == priorities.Keys;
      assert t3[id] == priorities[id];
    }
  }

  /** An unknown label is ordered as medium but weighed as low. */
  lemma UnrecognizedOrderedAsMediumWeighedAsLow(s: string)
    requires s !in {"", "high", "medium", "low"}
    ensures PriorityRank(ParsePriority(Some(s))) == PriorityRank(Medium)
    ensures Weight(ParsePriority(Some(s))) == Weight(Low)
  {
  }

  /** No topic among `topics[i+1..n]` has the same id as `topics[i]`. */
  ghost predicate LastWithItsId(topics: seq<TopicSuggestion>, i: nat, n: nat)
    requires i < n <= |topics|
  {
    forall j :: i < j < n ==> topics[j].id != topics[i].id
  }

  /** `priorities` is what the clean-up seeds from `sortedTopics`: a key for every topic id,
      holding the parsed label of the last topic with that id. */
  ghost predicate SeededFrom(priorities: map<string, Priority>, sortedTopics: seq<TopicSuggestion>)
  {
    && priorities.Keys == (set k | 0 <= k < |sortedTopics| :: sortedTopics[k].id)
    && forall i :: 0 <= i < |sortedTopics| && LastWithItsId(sortedTopics, i, |sortedTopics|) ==>
      priorities[sortedTopics[i].id] == ParsePriority(sortedTopics[i].priority)
  }

  /** The clean-up's `newPriorities`: every sorted topic's id mapped to its parsed label,
      topic after topic, so that when two topics share an id the later one wins. */
  function SeedMap(sortedTopics: seq<TopicSuggestion>): map<string, Priority>
    decreases |sortedTopics|
  {
    if sortedTopics == [] then map[]
    else
      var last := sortedTopics[|sortedTopics| - 1];
      SeedMap(sortedTopics[..|sortedTopics| - 1])[last.id := ParsePriority(last.priority)]
  }

  /** The seeded map has a key for every topic id and holds the label of the last topic
      with that id. */
  lemma SeedMapSeeded(sortedTopics: seq<TopicSuggestion>)
    ensures SeededFrom(SeedMap(sortedTopics), sortedTopics)
  {
    SeedMapKeys(sortedTopics);
    forall i | 0 <= i < |sortedTopics| && LastWithItsId(sortedTopics, i, |sortedTopics|)
      ensures SeedMap(sortedTopics)[sortedTopics[i].id] == ParsePriority(sortedTopics[i].priority)
    {
      SeedMapLast(sortedTopics, i);
    }
  }

  lemma {:induction false} SeedMapKeys(sortedTopics: seq<TopicSuggestion>)
    ensures SeedMap(sortedTopics).Keys == set k | 0 <= k < |sortedTopics| :: sortedTopics[k].id
    decreases |sortedTopics|
  {
    if sortedTopics != [] {
      var n := |sortedTopics| - 1;
      var d := sortedTopics[..n];
      SeedMapKeys(d);
      assert forall k :: 0 <= k < n ==> d[k] == sortedTopics[k];
      assert (set k | 0 <= k < n + 1 :: sortedTopics[k].id) == (set k | 0 <= k < n :: d[k].id) + {sortedTopics[n].id};
    }
  }

  lemma {:induction false} SeedMapLast(sortedTopics: seq<TopicSuggestion>, i: nat)
    requires i < |sortedTopics| && LastWithItsId(sortedTopics, i, |sortedTopics|)
    ensures sortedTopics[i].id in SeedMap(sortedTopics)
    ensures SeedMap(sortedTopics)[sortedTopics[i].id] == ParsePriority(sortedTopics[i].priority)
    decreases |sortedTopics|
  {
    var n := |sortedTopics| - 1;
    if i < n {
      var d := sortedTopics[..n];
      assert d[i] == sortedTopics[i];
      assert LastWithItsId(d, i, n);
      SeedMapLast(d, i);
      assert sortedTopics[n].id != sortedTopics[i].id;
    }
  }

  /** The loop of the clean-up that builds `newPriorities`. */
  method InitialPriorities(sortedTopics: seq<TopicSuggestion>) returns (priorities: map<string, Priority>)
    ensures priorities == SeedMap(sortedTopics)
  {
    priorities := map[];
    for n := 0 to |sortedTopics|
      invariant priorities == SeedMap(sortedTopics[..n])
    {
      var topic := sortedTopics[n];
      assert sortedTopics[..n + 1][..n] == sortedTopics[..n];
      priorities := priorities[topic.id := ParsePriority(topic.priority)];
    }
    assert sortedTopics[..|sortedTopics|] == sortedTopics;
  }
}
