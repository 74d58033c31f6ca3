/**
  The "Decide" table component as an object: its state fields are those the component's
  handlers replace, and every handler is a method that replaces them. Rendering, the
  network and the timers are left out: a response the component waits for is a
  parameter of the method that handles it, and a step of the clean-up between two timer
  waits is a method of its own.
*/
module DecideTable {
  import opened Options
  import opened DecideTypes
  import opened StableSort
  import opened ListOps
  import opened Priorities
  import opened SentimentScoring
  import opened WeightedTotal
  import opened Export
  import opened CleanUp

  datatype TableState = Initial | Analyzing | Scoring | ReadyForRecommendation | Recommended

  datatype TablePhase = Building | Ready | Complete

  /** The clean-up service's answer and the summary fetched on mount, topics already sorted. */
  datatype Preloaded = Preloaded(
    topics: seq<TopicSuggestion>,
    sortedTopics: seq<TopicSuggestion>,
    normalizedData: seq<NormalizedUniversity>,
    recommendation: Option<string>,
    title: Option<string>)

  const InitialColumns: seq<Column> := [
    SchoolColumn,
    Column("pros", "Pros", 1.0, false, Content),
    Column("cons", "Cons", 1.0, false, Content),
    Column("col_cost", "Cost", 0.8, true, Model),
    Column("col_program", "Program", 0.9, true, Model),
    Column("col_location", "Location", 0.6, true, Model),
    Column("col_culture", "Culture", 0.7, true, Model)
  ]

  const DefaultTitle: string := "Choosing a University"

  /** The column `handlePrioritize` appends. */
  const RankingColumn: Column := Column("priority-notes", "Ranking", 1.0, false, Content)

  /** The weight an AI-suggested column starts with. */
  const SuggestedWeight: real := 0.5

  function Min(a: int, b: int): (m: int)
    ensures m <= a && m <= b && (m == a || m == b)
  {
    if a <= b then a else b
  }

  /** A non-empty optional text (`x || fallback` keeps `x` exactly then). */
  predicate Given(x: Option<string>)
  {
    x.Some? && x.value != ""
  }

  /** The initial columns hold four AI-generated ones. */
  lemma InitialAiColumns()
    ensures |AiColumns(InitialColumns)| == 4
  {
    FirstThreeThenFourAi(InitialColumns);
  }

  lemma FirstThreeThenFourAi(cs: seq<Column>)
    requires |cs| == 7
    requires !cs[0].aiGenerated && !cs[1].aiGenerated && !cs[2].aiGenerated
    requires cs[3].aiGenerated && cs[4].aiGenerated && cs[5].aiGenerated && cs[6].aiGenerated
    ensures |AiColumns(cs)| == 4
  {
    assert cs[..0] == [];
    AiCountStep(cs, 0);
    AiCountStep(cs, 1);
    AiCountStep(cs, 2);
    AiCountStep(cs, 3);
    AiCountStep(cs, 4);
    AiCountStep(cs, 5);
    AiCountStep(cs, 6);
    assert cs[..7] == cs;
  }

  lemma AiCountStep(columns: seq<Column>, k: nat)
    requires k < |columns|
    ensures |AiColumns(columns[..k + 1])| == |AiColumns(columns[..k])| + (if columns[k].aiGenerated then 1 else 0)
  {
    assert columns[..k + 1] == columns[..k] + [columns[k]];
    AiColumnsAppend(columns[..k], columns[k]);
  }

  /** `handleUpdateScore`: the university with the id gets `score` under the column;
      every other university, and every other score, stays as it was. */
  function WithScore(universities: seq<University>, universityId: string, columnId: string, score: int)
    : (r: seq<University>)
    ensures |r| == |universities|
    ensures forall i :: 0 <= i < |r| && universities[i].id != universityId ==> r[i] == universities[i]
    ensures forall i :: 0 <= i < |r| && universities[i].id == universityId ==>
      && r[i].(scores := universities[i].scores) == universities[i]
      && r[i].scores.Keys == universities[i].scores.Keys + {columnId}
      && r[i].scores[columnId] == score
      && forall k :: k in universities[i].scores && k != columnId ==> r[i].scores[k] == universities[i].scores[k]
  {
    seq(|universities|, i requires 0 <= i < |universities| =>
      if universities[i].id == universityId
      then universities[i].(scores := universities[i].scores[columnId := score])
      else universities[i])
  }

  /** Setting the same score twice is setting it once. */
  lemma WithScoreIdempotent(universities: seq<University>, universityId: string, columnId: string, score: int)
    ensures var once := WithScore(universities, universityId, columnId, score);
      WithScore(once, universityId, columnId, score) == once
  {
    var once := WithScore(universities, universityId, columnId, score);
    var twice := WithScore(once, universityId, columnId, score);
    forall i | 0 <= i < |once|
      ensures twice[i] == once[i]
    {
      if universities[i].id == universityId {
        assert once[i].scores[columnId := score] == once[i].scores;
      }
    }
  }

  /** A score change under a column that is not AI-generated leaves every total score as it
      was. */
  lemma WithScoreKeepsTotals(universities: seq<University>, universityId: string, columnId: string, score: int,
                             columns: seq<Column>)
    requires forall c :: c in columns && c.aiGenerated ==> c.id != columnId
    ensures var r := WithScore(universities, universityId, columnId, score);
      forall i :: 0 <= i < |r| ==> TotalScore(r[i], columns) == TotalScore(universities[i], columns)
  {
    var r := WithScore(universities, universityId, columnId, score);
    forall i | 0 <= i < |r|
      ensures TotalScore(r[i], columns) == TotalScore(universities[i], columns)
    {
      if universities[i].id == universityId {
        SameScoresSameSum(r[i], universities[i], AiColumns(columns));
      }
    }
  }

  lemma {:induction false} SameScoresSameSum(u: University, v: University, columns: seq<Column>)
    requires forall c :: c in columns ==> ScoreIn(u, c.id) == ScoreIn(v, c.id)
    ensures WeightedScoreSum(u, columns) == WeightedScoreSum(v, columns)
  {
    if columns != [] {
      SameScoresSameSum(u, v, columns[1..]);
    }
  }

  /** `handleUpdateWeight`: the column with the id gets the weight; nothing else changes. */
  function WithWeight(columns: seq<Column>, columnId: string, weight: real): (r: seq<Column>)
    ensures |r| == |columns|
    ensures forall j :: 0 <= j < |r| ==> r[j].(weight := columns[j].weight) == columns[j]
    ensures forall j :: 0 <= j < |r| ==> r[j].weight == if columns[j].id == columnId then weight else columns[j].weight
  {
    seq(|columns|, j requires 0 <= j < |columns| =>
      if columns[j].id == columnId then columns[j].(weight := weight) else columns[j])
  }

  /** A new weight on a column that is not AI-generated leaves every total score as it was. */
  lemma WithWeightKeepsAiColumns(columns: seq<Column>, columnId: string, weight: real)
    requires forall c :: c in columns && c.aiGenerated ==> c.id != columnId
    ensures AiColumns(WithWeight(columns, columnId, weight)) == AiColumns(columns)
  {
    WithWeightKeepsAiColumnsAt(columns, columnId, weight);
  }

  lemma {:induction false} WithWeightKeepsAiColumnsAt(columns: seq<Column>, columnId: string, weight: real)
    requires forall j :: 0 <= j < |columns| && columns[j].aiGenerated ==> columns[j].id != columnId
    ensures AiColumns(WithWeight(columns, columnId, weight)) == AiColumns(columns)
  {
    if columns != [] {
      assert WithWeight(columns, columnId, weight)[1..] == WithWeight(columns[1..], columnId, weight);
      WithWeightKeepsAiColumnsAt(columns[1..], columnId, weight);
    }
  }

  /** The scores an AI-suggested column brings: each university gets its suggested score,
      zero when none was suggested. */
  function WithSuggestedScores(universities: seq<University>, columnId: string, suggested: map<string, int>)
    : (r: seq<University>)
    ensures |r| == |universities|
    ensures forall i :: 0 <= i < |r| ==>
      && r[i].(scores := universities[i].scores) == universities[i]
      && r[i].scores.Keys == universities[i].scores.Keys + {columnId}
      && r[i].scores[columnId] == (if universities[i].id in suggested then suggested[universities[i].id] else 0)
      && forall k :: k in universities[i].scores && k != columnId ==> r[i].scores[k] == universities[i].scores[k]
  {
    seq(|universities|, i requires 0 <= i < |universities| =>
      var u := universities[i];
      u.(scores := u.scores[columnId := if u.id in suggested then suggested[u.id] else 0]))
  }

  class Table {
    var universities: seq<University>
    var columns: seq<Column>
    var visibleColumnCount: nat
    var visibleRowCount: nat
    var tableState: TableState
    var tablePhase: TablePhase
    var recommendation: string
    var cardTitle: string
    var modelSummary: string
    var columnPriorities: map<string, Priority>
    var cleanupPhase: CleanupPhase
    var streamingTopics: seq<ColumnHead>
    var streamingText: map<string, map<string, Option<string>>>
    var isCleanedUp: bool
    var isPrioritized: bool
    var showExportMenu: bool
    var draggedColumnId: Option<string>
    var draggedRowIndex: Option<nat>
    var preloaded: Option<Preloaded>
    /** The rows and the visible row count `handleCleanUp` captured when it started: it
        builds the cleaned-up rows from these, not from the rows current when it ends. */
    var cleanupRows: seq<University>
    var cleanupVisibleRows: nat
    /** The columns and rows `handleAddAIColumn` captured when it started: the suggested
        column is appended to these, not to those current when the answer arrives. */
    var suggestionColumns: seq<Column>
    var suggestionRows: seq<University>
    /** The recommendation text shown once every column is visible. */
    const cannedRecommendation: string

    /** The visible rows are rows of the table, and so is a dragged row. */
    ghost predicate Valid()
      reads this
    {
      && visibleRowCount <= |universities|
      && (draggedRowIndex.Some? ==> draggedRowIndex.value < |universities|)
    }

    constructor (initialUniversities: seq<University>, initialRecommendation: string)
      requires |initialUniversities| >= 3
      ensures Valid() && HasEnoughData()
      ensures universities == initialUniversities && columns == InitialColumns
      ensures visibleColumnCount == 3 && visibleRowCount == 3
      ensures tableState == Scoring && tablePhase == Building
      ensures recommendation == "" && cardTitle == DefaultTitle && modelSummary == ""
      ensures columnPriorities == map[] && cleanupPhase == Idle
      ensures streamingTopics == [] && streamingText == map[]
      ensures !isCleanedUp && !isPrioritized && !showExportMenu
      ensures draggedColumnId == None && draggedRowIndex == None && preloaded == None
      ensures cleanupRows == initialUniversities && cleanupVisibleRows == 3
      ensures suggestionColumns == InitialColumns && suggestionRows == initialUniversities
      ensures cannedRecommendation == initialRecommendation
    {
      universities := initialUniversities;
      columns := InitialColumns;
      visibleColumnCount := 3;
      visibleRowCount := 3;
      tableState := Scoring;
      tablePhase := Building;
      recommendation := "";
      cardTitle := DefaultTitle;
      modelSummary := "";
      columnPriorities := map[];
      cleanupPhase := Idle;
      streamingTopics := [];
      streamingText := map[];
      isCleanedUp := false;
      isPrioritized := false;
      showExportMenu := false;
      draggedColumnId := None;
      draggedRowIndex := None;
      preloaded := None;
      cleanupRows := initialUniversities;
      cleanupVisibleRows := 3;
      suggestionColumns := InitialColumns;
      suggestionRows := initialUniversities;
      cannedRecommendation := initialRecommendation;
      InitialAiColumns();
    }

    /** At least four AI-generated columns and at least three visible rows. */
    predicate HasEnoughData()
      reads this
    {
      |AiColumns(columns)| >= 4 && visibleRowCount >= 3
    }

    function VisibleColumns(): (r: seq<Column>)
      reads this
      ensures |r| == Min(visibleColumnCount, |columns|) && r == columns[..|r|]
    {
      columns[..Min(visibleColumnCount, |columns|)]
    }

    function VisibleUniversities(): (r: seq<University>)
      reads this
      requires Valid()
      ensures |r| == visibleRowCount && r == universities[..visibleRowCount]
    {
      universities[..visibleRowCount]
    }

    /** `getDisplayColumns()` */
    function DisplayedColumns(): seq<ColumnHead>
      reads this
    {
      DisplayColumns(cleanupPhase, VisibleColumns(), streamingTopics)
    }

    /** The effect that moves the table from building to ready once it has enough data. */
    method SyncPhase()
      modifies this`tablePhase
      ensures tablePhase == if old(tablePhase) == Building && HasEnoughData() then Ready else old(tablePhase)
    {
      if HasEnoughData() && tablePhase == Building {
        tablePhase := Ready;
      }
    }

    /** `handleShowNextColumn`: one more column, never more than there are; revealing the
        last one brings up the canned recommendation if there is none yet. */
    method ShowNextColumn()
      modifies this`visibleColumnCount, this`recommendation, this`tableState
      ensures visibleColumnCount == Min(old(visibleColumnCount) + 1, |columns|)
      ensures visibleColumnCount <= old(visibleColumnCount) + 1
      ensures old(visibleColumnCount) + 1 == |columns| && old(recommendation) == "" ==>
        recommendation == cannedRecommendation && tableState == Recommended
      ensures !(old(visibleColumnCount) + 1 == |columns| && old(recommendation) == "") ==>
        recommendation == old(recommendation) && tableState == old(tableState)
    {
      var previous := visibleColumnCount;
      visibleColumnCount := Min(previous + 1, |columns|);
      if previous + 1 == |columns| && recommendation == "" {
        recommendation := cannedRecommendation;
        tableState := Recommended;
      }
    }

    /** `handleRevealColumn`: every column up to the clicked one is shown. */
    method RevealColumn(columnIndex: nat)
      modifies this`visibleColumnCount
      ensures visibleColumnCount == columnIndex + 1
    {
      visibleColumnCount := columnIndex + 1;
    }

    /** `handleRevealRow`: the clicked university trades places with the first hidden row,
        which then becomes visible. An unknown id changes nothing. */
    method RevealRow(universityId: string)
      requires Valid()
      requires IndexOf(universities, universityId, UniversityId) >= 0 ==> visibleRowCount < |universities|
      modifies this`universities, this`visibleRowCount
      ensures Valid()
      ensures multiset(universities) == multiset(old(universities))
      ensures var k := IndexOf(old(universities), universityId, UniversityId);
        if k == -1 then universities == old(universities) && visibleRowCount == old(visibleRowCount)
        else
          && universities == Swap(old(universities), old(visibleRowCount), k)
          && universities[old(visibleRowCount)].id == universityId
          && visibleRowCount == old(visibleRowCount) + 1
          && (k >= old(visibleRowCount) ==>
                universities[..old(visibleRowCount)] == old(universities)[..old(visibleRowCount)])
    {
      var clickedIndex := IndexOf(universities, universityId, UniversityId);
      if clickedIndex == -1 {
        return;
      }
      var updated := universities;
      var temp := updated[visibleRowCount];
      updated := updated[visibleRowCount := updated[clickedIndex]];
      updated := updated[clickedIndex := temp];
      SwapPermutes(universities, visibleRowCount, clickedIndex);
      universities := updated;
      visibleRowCount := visibleRowCount + 1;
    }

    /** `handleAcceptSuggestedRow`: one more visible row, never more than there are. */
    method AcceptSuggestedRow()
      requires Valid()
      modifies this`visibleRowCount
      ensures Valid()
      ensures visibleRowCount == Min(old(visibleRowCount) + 1, |universities|)
    {
      visibleRowCount := Min(visibleRowCount + 1, |universities|);
    }

    /** `handleAddRow`: an empty university with a fresh id is appended and every row,
        the new one included, is shown. */
    method AddRow(freshId: string)
      requires Valid()
      modifies this`universities, this`visibleRowCount
      ensures Valid()
      ensures universities == old(universities) + [University(freshId, "", "", "", map[], None, None)]
      ensures visibleRowCount == |universities|
    {
      var newUniversity := University(freshId, "", "", "", map[], None, None);
      visibleRowCount := |universities| + 1;
      universities := universities + [newUniversity];
    }

    /** The start of `handleAddAIColumn`, before the suggestion is requested: the state
        becomes analyzing, and the columns and rows of this moment are what the handler
        works on once the answer arrives. */
    method BeginColumnSuggestion()
      modifies this`tableState, this`suggestionColumns, this`suggestionRows
      ensures tableState == TableState.Analyzing
      ensures suggestionColumns == columns && suggestionRows == universities
    {
      tableState := TableState.Analyzing;
      suggestionColumns := columns;
      suggestionRows := universities;
    }

    /** `handleAddAIColumn` once the suggestion arrived: the column is appended with weight
        0.5 to the captured columns, every captured university gets its suggested score,
        and the table is ready for a recommendation when the captured columns already held
        two AI columns. A column or row change made while the request ran is lost. */
    method AddSuggestedColumn(freshId: string, name: string, suggested: map<string, int>)
      modifies this`columns, this`universities, this`tableState
      ensures columns == suggestionColumns + [Column(freshId, name, SuggestedWeight, true, Model)]
      ensures |AiColumns(columns)| == |AiColumns(suggestionColumns)| + 1
      ensures universities == WithSuggestedScores(suggestionRows, freshId, suggested)
      ensures tableState == if |AiColumns(suggestionColumns)| >= 2 then ReadyForRecommendation else Scoring
      ensures visibleRowCount == old(visibleRowCount) && draggedRowIndex == old(draggedRowIndex)
      ensures Valid() <==>
        (visibleRowCount <= |suggestionRows| && (draggedRowIndex.Some? ==> draggedRowIndex.value < |suggestionRows|))
    {
      var newColumn := Column(freshId, name, SuggestedWeight, true, Model);
      AiColumnsAppend(suggestionColumns, newColumn);
      var enough := |AiColumns(suggestionColumns)| >= 2;
      columns := suggestionColumns + [newColumn];
      universities := WithSuggestedScores(suggestionRows, freshId, suggested);
      if enough {
        tableState := ReadyForRecommendation;
      } else {
        tableState := Scoring;
      }
    }

    /** The preload on mount, once the clean-up and summary answers arrived. */
    method ReceivePreload(topics: seq<TopicSuggestion>, normalizedData: seq<NormalizedUniversity>,
                          summaryRecommendation: Option<string>, summaryTitle: Option<string>)
      modifies this`preloaded
      ensures preloaded == Some(Preloaded(topics, SortTopics(topics), normalizedData, summaryRecommendation, summaryTitle))
    {
      var sortedTopics := SortTopics(topics);
      preloaded := Some(Preloaded(topics, sortedTopics, normalizedData, summaryRecommendation, summaryTitle));
    }

    /** The start of `handleCleanUp`: nothing happens without preloaded data. Otherwise
        the rows and the visible row count of this moment are what the clean-up works on. */
    method BeginCleanUp() returns (started: bool)
      modifies this`cleanupPhase, this`cleanupRows, this`cleanupVisibleRows
      ensures started <==> preloaded.Some?
      ensures cleanupPhase == if started then Creating else old(cleanupPhase)
      ensures cleanupRows == if started then old(universities) else old(cleanupRows)
      ensures cleanupVisibleRows == if started then old(visibleRowCount) else old(cleanupVisibleRows)
    {
      if preloaded.None? {
        return false;
      }
      cleanupPhase := Creating;
      cleanupRows := universities;
      cleanupVisibleRows := visibleRowCount;
      return true;
    }

    /** One topic of the clean-up: its column joins the streaming columns and its fact
        texts are typed into the streaming text. */
    method StreamTopic(topic: TopicSuggestion)
      requires preloaded.Some?
      modifies this`streamingTopics, this`streamingText
      ensures streamingTopics == old(streamingTopics) + [StreamingHead(topic)]
      ensures streamingText == MergeText(old(streamingText), TextMap(preloaded.value.normalizedData, topic.id), topic.id)
    {
      streamingTopics := streamingTopics + [StreamingHead(topic)];
      var textMap := BuildTextMap(preloaded.value.normalizedData, topic.id);
      streamingText := MergeText(streamingText, textMap, topic.id);
    }

    /** The loop of the clean-up: every sorted topic is streamed, in order. */
    method StreamTopics()
      requires preloaded.Some?
      modifies this`streamingTopics, this`streamingText
      ensures var p := preloaded.value;
        && streamingTopics == old(streamingTopics) + seq(|p.sortedTopics|, j requires 0 <= j < |p.sortedTopics| =>
                                                           StreamingHead(p.sortedTopics[j]))
        && streamingText == StreamedText(old(streamingText), p.normalizedData, p.sortedTopics)
    {
      var topics := preloaded.value.sortedTopics;
      for i := 0 to |topics|
        invariant streamingTopics == old(streamingTopics) + seq(i, j requires 0 <= j < i => StreamingHead(topics[j]))
        invariant streamingText == StreamedText(old(streamingText), preloaded.value.normalizedData, topics[..i])
      {
        assert topics[..i + 1][..i] == topics[..i];
        StreamTopic(topics[i]);
      }
      assert topics[..|topics|] == topics;
    }

    method Collapse()
      modifies this`cleanupPhase
      ensures cleanupPhase == Collapsing
    {
      cleanupPhase := Collapsing;
    }

    /** The state the clean-up leaves behind, given the preloaded data, the rows and
        visible row count it captured, and the recommendation and title current when it
        ends: the school name and the sorted topics are the columns, all shown; the rows
        are the captured ones, those then visible carrying their structured facts; the
        priorities are seeded from the topics; the preloaded recommendation and title
        replace the current ones if given. */
    ghost predicate CleanedUpFrom(p: Preloaded, capturedRows: seq<University>, capturedVisibleRows: nat,
                                  oldRecommendation: string, oldTitle: string)
      reads this`columns, this`universities, this`visibleColumnCount
      reads this`columnPriorities, this`isCleanedUp, this`cleanupPhase, this`recommendation, this`cardTitle
    {
      && columns == FinalColumns(p.sortedTopics)
      && TopicColumns(columns) == TopicColumnsOf(p.sortedTopics)
      && universities == AttachFacts(capturedRows, p.normalizedData, capturedVisibleRows)
      && visibleColumnCount == |columns|
      && columnPriorities == SeedMap(p.sortedTopics)
      && isCleanedUp && cleanupPhase == CleanupPhase.Complete
      && recommendation == (if Given(p.recommendation) then p.recommendation.value else oldRecommendation)
      && cardTitle == (if Given(p.title) then p.title.value else oldTitle)
    }

    /** The end of the clean-up. The captured rows replace the current ones, so a row
        edit made while the clean-up ran is lost, and the visible row count is left as it
        is: the table stays valid exactly when the captured rows still cover it. */
    method FinishCleanUp()
      requires preloaded.Some?
      modifies this`columns, this`universities, this`visibleColumnCount, this`columnPriorities
      modifies this`isCleanedUp, this`cleanupPhase, this`recommendation, this`cardTitle
      ensures CleanedUpFrom(preloaded.value, cleanupRows, cleanupVisibleRows, old(recommendation), old(cardTitle))
      ensures visibleRowCount == old(visibleRowCount) && draggedRowIndex == old(draggedRowIndex)
      ensures |universities| == |cleanupRows|
      ensures Valid() <==>
        (visibleRowCount <= |cleanupRows| && (draggedRowIndex.Some? ==> draggedRowIndex.value < |cleanupRows|))
    {
      var p := preloaded.value;
      var seeded := InitialPriorities(p.sortedTopics);
      var newColumns := FinalColumns(p.sortedTopics);
      FinalCriteria(p.sortedTopics);
      var updated := AttachFacts(cleanupRows, p.normalizedData, cleanupVisibleRows);
      var newRecommendation := if Given(p.recommendation) then p.recommendation.value else recommendation;
      var newTitle := if Given(p.title) then p.title.value else cardTitle;
      InstallCleanUp(newColumns, updated, seeded, newRecommendation, newTitle);
    }

    /** The state updates that end the clean-up, all at once. */
    method InstallCleanUp(newColumns: seq<Column>, updated: seq<University>, seeded: map<string, Priority>,
                          newRecommendation: string, newTitle: string)
      modifies this`columns, this`universities, this`visibleColumnCount, this`columnPriorities
      modifies this`isCleanedUp, this`cleanupPhase, this`recommendation, this`cardTitle
      ensures columns == newColumns && universities == updated && visibleColumnCount == |newColumns|
      ensures columnPriorities == seeded && isCleanedUp && cleanupPhase == CleanupPhase.Complete
      ensures recommendation == newRecommendation && cardTitle == newTitle
    {
      columns := newColumns;
      universities := updated;
      visibleColumnCount := |newColumns|;
      columnPriorities := seeded;
      isCleanedUp := true;
      cleanupPhase := CleanupPhase.Complete;
      recommendation := newRecommendation;
      cardTitle := newTitle;
    }

    method ResetStreaming()
      modifies this`streamingTopics, this`streamingText
      ensures streamingTopics == [] && streamingText == map[]
    {
      streamingTopics := [];
      streamingText := map[];
    }

    /** `handlePrioritize`: the ranking column is appended and shown with all others, and
        the universities are rescored on the topic columns and sorted by descending score. */
    method Prioritize()
      requires Valid()
      modifies this`columns, this`visibleColumnCount, this`universities, this`isPrioritized
      ensures Valid()
      ensures columns == old(columns) + [RankingColumn] && visibleColumnCount == |columns|
      ensures universities == Ranked(old(universities), TopicColumns(old(columns)), columnPriorities)
      ensures isPrioritized
    {
      var criteriaColumns := TopicColumns(columns);
      RankedCorrect(universities, criteriaColumns, columnPriorities);
      var sorted := RankUniversities(universities, criteriaColumns, columnPriorities);
      columns := columns + [RankingColumn];
      visibleColumnCount := |columns|;
      universities := sorted;
      isPrioritized := true;
    }

    /** `toggleColumnPriority`: the column's priority moves one step round the cycle and the
        universities are rescored with the new priorities and sorted by descending score. */
    method ToggleColumnPriority(columnId: string)
      requires Valid()
      modifies this`columnPriorities, this`universities
      ensures Valid()
      ensures columnPriorities == Toggled(old(columnPriorities), columnId)
      ensures universities == Ranked(old(universities), TopicColumns(columns), columnPriorities)
    {
      var newPriorities := Toggled(columnPriorities, columnId);
      columnPriorities := newPriorities;
      var criteriaColumns := TopicColumns(columns);
      RankedCorrect(universities, criteriaColumns, newPriorities);
      universities := RankUniversities(universities, criteriaColumns, newPriorities);
    }

    method ColumnDragStart(columnId: string)
      modifies this`draggedColumnId
      ensures draggedColumnId == Some(columnId)
    {
      draggedColumnId := Some(columnId);
    }

    /** `handleColumnDrop`: the dragged column is taken out and put back in at the target's
        index. Nothing moves when no column (or one with an empty id) is dragged, when it
        is dropped on itself, or when either id is unknown. The drag ends either way. */
    method ColumnDrop(targetColumnId: string)
      modifies this`columns, this`draggedColumnId
      ensures draggedColumnId == None
      ensures |columns| == |old(columns)| && multiset(columns) == multiset(old(columns))
      ensures var d := old(draggedColumnId);
        var from := if d.Some? then IndexOf(old(columns), d.value, ColumnId) else -1;
        var to := IndexOf(old(columns), targetColumnId, ColumnId);
        if d.None? || d.value == "" || d.value == targetColumnId || from == -1 || to == -1
        then columns == old(columns)
        else columns == Move(old(columns), from, to) && columns[to].id == d.value
    {
      if draggedColumnId.None? || draggedColumnId.value == "" || draggedColumnId.value == targetColumnId {
        draggedColumnId := None;
        return;
      }
      var newColumns := columns;
      var draggedIndex := IndexOf(newColumns, draggedColumnId.value, ColumnId);
      var targetIndex := IndexOf(newColumns, targetColumnId, ColumnId);
      if draggedIndex == -1 || targetIndex == -1 {
        draggedColumnId := None;
        return;
      }
      var removed := newColumns[draggedIndex];
      newColumns := newColumns[..draggedIndex] + newColumns[draggedIndex + 1..];
      newColumns := newColumns[..targetIndex] + [removed] + newColumns[targetIndex..];
      assert newColumns == Move(columns, draggedIndex, targetIndex);
      columns := newColumns;
      draggedColumnId := None;
    }

    method ColumnDragEnd()
      modifies this`draggedColumnId
      ensures draggedColumnId == None
    {
      draggedColumnId := None;
    }

    /** `handleRowDragStart`: a drag that starts inside a text field is refused. */
    method RowDragStart(rowIndex: nat, insideTextField: bool)
      requires Valid() && rowIndex < |universities|
      modifies this`draggedRowIndex
      ensures Valid()
      ensures draggedRowIndex == if insideTextField then old(draggedRowIndex) else Some(rowIndex)
    {
      if insideTextField {
        return;
      }
      draggedRowIndex := Some(rowIndex);
    }

    /** `handleRowDrop`: the dragged row is taken out and put back in at the target index,
        or at the end when the target lies beyond it. Nothing moves when no row is dragged
        or it is dropped on itself. The drag ends either way. */
    method RowDrop(targetRowIndex: nat)
      requires Valid()
      modifies this`universities, this`draggedRowIndex
      ensures Valid()
      ensures draggedRowIndex == None
      ensures |universities| == |old(universities)| && multiset(universities) == multiset(old(universities))
      ensures var d := old(draggedRowIndex);
        if d.None? || d.value == targetRowIndex then universities == old(universities)
        else
          var to := Min(targetRowIndex, |old(universities)| - 1);
          universities == Move(old(universities), d.value, to) && universities[to] == old(universities)[d.value]
    {
      if draggedRowIndex.None? || draggedRowIndex.value == targetRowIndex {
        draggedRowIndex := None;
        return;
      }
      var from := draggedRowIndex.value;
      var newUniversities := universities;
      var removed := newUniversities[from];
      newUniversities := newUniversities[..from] + newUniversities[from + 1..];
      var to := Min(targetRowIndex, |newUniversities|);
      newUniversities := newUniversities[..to] + [removed] + newUniversities[to..];
      assert newUniversities == Move(universities, from, to);
      universities := newUniversities;
      draggedRowIndex := None;
    }

    method RowDragEnd()
      modifies this`draggedRowIndex
      ensures draggedRowIndex == None
    {
      draggedRowIndex := None;
    }

    /** `handleUpdateWeight` */
    method UpdateWeight(columnId: string, weight: real)
      modifies this`columns
      ensures columns == WithWeight(old(columns), columnId, weight)
    {
      columns := WithWeight(columns, columnId, weight);
    }

    /** `handleUpdateScore` */
    method UpdateScore(universityId: string, columnId: string, score: int)
      requires Valid()
      modifies this`universities
      ensures Valid()
      ensures universities == WithScore(old(universities), universityId, columnId, score)
    {
      universities := WithScore(universities, universityId, columnId, score);
    }

    /** `handleCompleteModel` up to its request: the phase becomes complete, and the total
        score of every visible university over the visible columns goes with the request. */
    method CompleteModel() returns (totals: seq<Option<real>>)
      requires Valid()
      modifies this`tablePhase
      ensures tablePhase == TablePhase.Complete
      ensures |totals| == visibleRowCount
      ensures forall i :: 0 <= i < |totals| ==> totals[i] == TotalScore(universities[i], VisibleColumns())
    {
      tablePhase := TablePhase.Complete;
      var visible := VisibleUniversities();
      var cols := VisibleColumns();
      totals := seq(|visible|, i requires 0 <= i < |visible| => TotalScore(visible[i], cols));
    }

    /** The rest of `handleCompleteModel`, once the summary arrived: a missing or empty
        title falls back to the default one. */
    method ReceiveModelSummary(title: Option<string>, summaryRecommendation: Option<string>)
      modifies this`cardTitle, this`recommendation, this`modelSummary
      ensures cardTitle == if Given(title) then title.value else DefaultTitle
      ensures recommendation == if summaryRecommendation.Some? then summaryRecommendation.value else ""
      ensures modelSummary == ""
    {
      cardTitle := if Given(title) then title.value else DefaultTitle;
      recommendation := if summaryRecommendation.Some? then summaryRecommendation.value else "";
      modelSummary := "";
    }

    /** `handleBackToTable` */
    method BackToTable()
      modifies this`tablePhase
      ensures tablePhase == Ready
    {
      tablePhase := Ready;
    }

    /** `handleExportCSV`: the file's text, after which the export menu closes. */
    method ExportCsv() returns (csv: string)
      modifies this`showExportMenu
      ensures csv == CsvText(DisplayedColumns(), universities)
      ensures !showExportMenu
    {
      csv := CsvText(DisplayedColumns(), universities);
      showExportMenu := false;
    }

    /** `handleCopyToClipboard`: the clipboard's text, after which the export menu closes. */
    method CopyToClipboard() returns (text: string)
      modifies this`showExportMenu
      ensures text == TsvText(DisplayedColumns(), universities)
      ensures !showExportMenu
    {
      text := TsvText(DisplayedColumns(), universities);
      showExportMenu := false;
    }
  }
}
