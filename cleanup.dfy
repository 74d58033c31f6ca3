/**
  The pieces of the clean-up handler that compute values: the per-topic text map typed into
  the streaming column, its merge into the streaming text, the columns shown while the
  animation runs, the final columns, and the attaching of structured facts to the
  visible rows.
*/
module CleanUp {
  import opened Options
  import opened DecideTypes
  import opened Text
  import opened Export
  import opened ListOps
  import opened SentimentScoring

  /** The animation phase of the clean-up. */
  datatype CleanupPhase = Idle | Reading | Analyzing | Creating | Migrating | Collapsing | Complete

  function NormalizedId(n: NormalizedUniversity): string
  {
    n.id
  }

  /** The facts of a topic as the streaming cell shows them, one fact text per line. */
  function FactsText(facts: seq<Fact>): string
  {
    Join(FactTexts(facts), "\n")
  }

  /** An entry the text map takes in: it has facts and a non-empty id. */
  predicate Streams(n: NormalizedUniversity)
  {
    n.facts.Some? && n.id != ""
  }

  predicate HasTopic(n: NormalizedUniversity, topicId: string)
  {
    Streams(n) && topicId in n.facts.value
  }

  /** The `textMap` built for one topic, entry by entry: every streaming entry's id gets a
      slot, filled with the entry's fact texts when it has facts for the topic. */
  function TextMap(data: seq<NormalizedUniversity>, topicId: string): map<string, Option<string>>
    decreases |data|
  {
    if data == [] then map[]
    else
      var m := TextMap(data[..|data| - 1], topicId);
      var n := data[|data| - 1];
      if HasTopic(n, topicId) then m[n.id := Some(FactsText(n.facts.value[topicId]))]
      else if Streams(n) && n.id !in m then m[n.id := None]
      else m
  }

  /** `data[i]` has facts for the topic and no later entry with its id does. */
  ghost predicate LastWithTopic(data: seq<NormalizedUniversity>, i: nat, topicId: string)
    requires i < |data|
  {
    HasTopic(data[i], topicId)
    && forall j :: i < j < |data| ==> !(HasTopic(data[j], topicId) && data[j].id == data[i].id)
  }

  /** The text map has a slot exactly for the ids of the streaming entries. */
  lemma {:induction false} TextMapKeys(data: seq<NormalizedUniversity>, topicId: string)
    ensures TextMap(data, topicId).Keys == set k | 0 <= k < |data| && Streams(data[k]) :: data[k].id
    decreases |data|
  {
    if data != [] {
      var d := data[..|data| - 1];
      TextMapKeys(d, topicId);
      var n := data[|data| - 1];
      assert forall k :: 0 <= k < |d| ==> d[k] == data[k];
      if Streams(n) {
        assert (set k | 0 <= k < |data| && Streams(data[k]) :: data[k].id)
          == (set k | 0 <= k < |d| && Streams(d[k]) :: d[k].id) + {n.id};
      } else {
        assert (set k | 0 <= k < |data| && Streams(data[k]) :: data[k].id)
          == (set k | 0 <= k < |d| && Streams(d[k]) :: d[k].id);
      }
    }
  }

  /** An id's slot holds the fact texts of the last entry with that id and facts for the
      topic; later entries without facts for the topic do not clear it. */
  lemma {:induction false} TextMapLast(data: seq<NormalizedUniversity>, topicId: string, i: nat)
    requires i < |data| && LastWithTopic(data, i, topicId)
    ensures data[i].id in TextMap(data, topicId)
    ensures TextMap(data, topicId)[data[i].id] == Some(FactsText(data[i].facts.value[topicId]))
    decreases |data|
  {
    if i < |data| - 1 {
      var d := data[..|data| - 1];
      assert d[i] == data[i];
      assert LastWithTopic(d, i, topicId);
      TextMapLast(d, topicId, i);
    }
  }

  /** An id none of whose entries has facts for the topic gets an empty slot. */
  lemma {:induction false} TextMapNone(data: seq<NormalizedUniversity>, topicId: string, id: string)
    requires id in TextMap(data, topicId)
    requires forall k :: 0 <= k < |data| && data[k].id == id ==> !HasTopic(data[k], topicId)
    ensures TextMap(data, topicId)[id] == None
    decreases |data|
  {
    var d := data[..|data| - 1];
    var n := data[|data| - 1];
    if id in TextMap(d, topicId) {
      assert forall k :: 0 <= k < |d| ==> d[k] == data[k];
      TextMapNone(d, topicId, id);
    }
  }

  /** The loop of the clean-up that builds `textMap` for one topic. */
  method BuildTextMap(data: seq<NormalizedUniversity>, topicId: string) returns (textMap: map<string, Option<string>>)
    ensures textMap == TextMap(data, topicId)
  {
    textMap := map[];
    for i := 0 to |data|
      invariant textMap == TextMap(data[..i], topicId)
    {
      var uni := data[i];
      assert data[..i + 1][..i] == data[..i];
      if uni.facts.Some? && uni.id != "" {
        if uni.id !in textMap {
          textMap := textMap[uni.id := None];
        }
        if topicId in uni.facts.value {
          textMap := textMap[uni.id := Some(FactsText(uni.facts.value[topicId]))];
        }
      }
    }
    assert data[..|data|] == data;
  }

  /** The streaming text after one topic: every id of the text map gets the topic's slot,
      created empty first when the id had none; nothing else changes. */
  function MergeText(prev: map<string, map<string, Option<string>>>, textMap: map<string, Option<string>>, topicId: string)
    : (r: map<string, map<string, Option<string>>>)
    ensures r.Keys == prev.Keys + textMap.Keys
    ensures forall uniId :: uniId in textMap ==> topicId in r[uniId] && r[uniId][topicId] == textMap[uniId]
    ensures forall uniId :: uniId in textMap ==>
      r[uniId].Keys == (if uniId in prev then prev[uniId].Keys else {}) + {topicId}
    ensures forall uniId, t :: uniId in textMap && uniId in prev && t in prev[uniId] && t != topicId ==>
      r[uniId][t] == prev[uniId][t]
    ensures forall uniId :: uniId in prev && uniId !in textMap ==> r[uniId] == prev[uniId]
  {
    map uniId | uniId in prev.Keys + textMap.Keys ::
      if uniId in textMap then (if uniId in prev then prev[uniId] else map[])[topicId := textMap[uniId]]
      else prev[uniId]
  }

  /** A topic as a streaming column head. */
  function StreamingHead(t: TopicSuggestion): (h: ColumnHead)
    ensures h.id == t.id && h.name == t.name && h.category == Topic
  {
    ColumnHead(t.id, t.name, Topic)
  }

  /** The streaming text after the topics, one after the other, each merged in with the
      text map built for it. */
  function StreamedText(prev: map<string, map<string, Option<string>>>, data: seq<NormalizedUniversity>,
                        topics: seq<TopicSuggestion>): map<string, map<string, Option<string>>>
    decreases |topics|
  {
    if topics == [] then prev
    else
      var last := topics[|topics| - 1];
      MergeText(StreamedText(prev, data, topics[..|topics| - 1]), TextMap(data, last.id), last.id)
  }

  /** After the topics every id of a streaming entry has a slot for each of them, holding
      the texts of the last entry with that id and facts for the topic; an id none of
      whose entries has facts for a topic has an empty slot for it. */
  lemma {:induction false} StreamedTextSlots(prev: map<string, map<string, Option<string>>>,
                                             data: seq<NormalizedUniversity>, topics: seq<TopicSuggestion>,
                                             j: nat, i: nat)
    requires j < |topics| && i < |data| && Streams(data[i])
    requires forall l :: j < l < |topics| ==> topics[l].id != topics[j].id
    ensures data[i].id in StreamedText(prev, data, topics)
    ensures topics[j].id in StreamedText(prev, data, topics)[data[i].id]
    ensures LastWithTopic(data, i, topics[j].id) ==>
      StreamedText(prev, data, topics)[data[i].id][topics[j].id] == Some(FactsText(data[i].facts.value[topics[j].id]))
    ensures (forall k :: 0 <= k < |data| && data[k].id == data[i].id ==> !HasTopic(data[k], topics[j].id)) ==>
      StreamedText(prev, data, topics)[data[i].id][topics[j].id] == None
    decreases |topics|
  {
    var n := |topics| - 1;
    var last := topics[n];
    var before := StreamedText(prev, data, topics[..n]);
    var textMap := TextMap(data, last.id);
    TextMapKeys(data, last.id);
    assert data[i].id in textMap;
    if j < n {
      var d := topics[..n];
      assert d[j] == topics[j];
      StreamedTextSlots(prev, data, d, j, i);
      assert topics[j].id != last.id;
    } else {
      if LastWithTopic(data, i, last.id) {
        TextMapLast(data, last.id, i);
      }
      if forall k :: 0 <= k < |data| && data[k].id == data[i].id ==> !HasTopic(data[k], last.id) {
        TextMapNone(data, last.id, data[i].id);
      }
    }
  }

  const SchoolColumn: Column := Column("name", "School", 1.0, false, Content)

  /** A topic as a final table column: weight 1, not generated, category topic. */
  function TopicColumn(t: TopicSuggestion): (c: Column)
    ensures c.id == t.id && c.name == t.name && c.category == Topic
  {
    Column(t.id, t.name, 1.0, false, Topic)
  }

  function TopicColumnsOf(topics: seq<TopicSuggestion>): (r: seq<Column>)
    ensures |r| == |topics| && forall k :: 0 <= k < |topics| ==> r[k] == TopicColumn(topics[k])
  {
    seq(|topics|, k requires 0 <= k < |topics| => TopicColumn(topics[k]))
  }

  /** The columns after the clean-up: the school name, then the topics in priority order. */
  function FinalColumns(sortedTopics: seq<TopicSuggestion>): seq<Column>
  {
    [SchoolColumn] + TopicColumnsOf(sortedTopics)
  }

  lemma {:induction false} TopicColumnsKeepsTopics(columns: seq<Column>)
    requires forall k :: 0 <= k < |columns| ==> columns[k].category == Topic
    ensures TopicColumns(columns) == columns
  {
    if columns != [] {
      TopicColumnsKeepsTopics(columns[1..]);
      assert columns == [columns[0]] + columns[1..];
    }
  }

  /** After the clean-up the criteria the scoring uses are exactly the sorted topics, in
      their order. */
  lemma FinalCriteria(sortedTopics: seq<TopicSuggestion>)
    ensures TopicColumns(FinalColumns(sortedTopics)) == TopicColumnsOf(sortedTopics)
  {
    var cols := FinalColumns(sortedTopics);
    assert cols[1..] == TopicColumnsOf(sortedTopics);
    TopicColumnsKeepsTopics(TopicColumnsOf(sortedTopics));
  }

  /** `universities.map(...)` of the clean-up: a row before `visibleRowCount` whose id is
      found among the normalized entries takes the facts of the first such entry; every
      row keeps its position and all its other fields. */
  function AttachFacts(universities: seq<University>, normalized: seq<NormalizedUniversity>, visibleRowCount: nat)
    : (r: seq<University>)
    ensures |r| == |universities|
    ensures forall i :: 0 <= i < |universities| ==> r[i].(facts := universities[i].facts) == universities[i]
    ensures forall i :: 0 <= i < |universities| && i >= visibleRowCount ==> r[i] == universities[i]
    ensures forall i :: 0 <= i < |universities| && IndexOf(normalized, universities[i].id, NormalizedId) == -1 ==>
      r[i] == universities[i]
    ensures forall i :: 0 <= i < visibleRowCount && i < |universities| ==>
      var k := IndexOf(normalized, universities[i].id, NormalizedId);
      k >= 0 ==> normalized[k].id == universities[i].id && r[i].facts == normalized[k].facts
  {
    seq(|universities|, i requires 0 <= i < |universities| =>
      var k := IndexOf(normalized, universities[i].id, NormalizedId);
      if k >= 0 && i < visibleRowCount then universities[i].(facts := normalized[k].facts)
      else universities[i])
  }

  /** The columns the table shows: while topic columns are being created the school name,
      pros and cons stay beside them, while the old columns collapse only the school name
      does, and otherwise the visible columns are shown. */
  function DisplayColumns(phase: CleanupPhase, visibleColumns: seq<Column>, streamingTopics: seq<ColumnHead>)
    : (r: seq<ColumnHead>)
    ensures phase in {Creating, Collapsing} ==> |r| >= 1 && r[0] == ColumnHead("name", "School", Content)
    ensures phase == Creating ==>
      && |r| == 3 + |streamingTopics|
      && r[..3] == [ColumnHead("name", "School", Content), ColumnHead("pros", "Pros", Content),
                    ColumnHead("cons", "Cons", Content)]
      && r[3..] == streamingTopics
    ensures phase == Collapsing ==> r[1..] == streamingTopics
    ensures phase !in {Creating, Collapsing} ==>
      |r| == |visibleColumns| && forall j :: 0 <= j < |r| ==> r[j] == Head(visibleColumns[j])
  {
    if phase == Creating then
      [ColumnHead("name", "School", Content), ColumnHead("pros", "Pros", Content),
       ColumnHead("cons", "Cons", Content)] + streamingTopics
    else if phase == Collapsing then [ColumnHead("name", "School", Content)] + streamingTopics
    else seq(|visibleColumns|, j requires 0 <= j < |visibleColumns| => Head(visibleColumns[j]))
  }

  /** The collapse ends on the heads of the final table: the school name and one streaming
      head per sorted topic, which the collapsing phase shows, are the heads the table shows
      once the clean-up is complete and every final column is visible. */
  lemma {:induction false} CollapseShowsFinalColumns(sortedTopics: seq<TopicSuggestion>, visibleColumns: seq<Column>,
                                                     phase: CleanupPhase)
    requires phase !in {Creating, Collapsing}
    ensures DisplayColumns(Collapsing, visibleColumns,
              seq(|sortedTopics|, j requires 0 <= j < |sortedTopics| => StreamingHead(sortedTopics[j])))
      == DisplayColumns(phase, FinalColumns(sortedTopics), [])
  {
    var heads := seq(|sortedTopics|, j requires 0 <= j < |sortedTopics| => StreamingHead(sortedTopics[j]));
    var shown := DisplayColumns(phase, FinalColumns(sortedTopics), []);
    forall j | 0 <= j < |sortedTopics|
      ensures shown[j + 1] == heads[j]
    {
      assert FinalColumns(sortedTopics)[j + 1] == TopicColumn(sortedTopics[j]);
    }
  }
}
