# Decide table: a verified model

This project models the "Decide" table of `app/table/page.tsx`. The table is a React component in which a student compares universities. It has these parts:

- rows of universities, each with pros, cons, integer scores per criterion and, after a clean-up, sentiment-tagged facts per topic;
- columns, some AI-generated with a weight, plus topic columns after the clean-up;
- a map from each topic column to its priority (low, medium or high);
- two visibility counters and a phase flag.

The component's state becomes the fields of the class `DecideTable.Table`. Each handler becomes a method that replaces those fields and states the new state. The computations the handlers rely on are pure functions in their own modules, with lemmas about them:

- `SentimentScoring`: the sentiment score of a university over the topic columns (`calculateScoreForUniversity`) and the re-ranking by that score.
- `WeightedTotal`: the weighted mean over the AI-generated columns (`calculateTotalScore`).
- `Priorities`: priority labels, the priority cycle of the column button, the topic order high → medium → low, and the priority map seeded by the clean-up.
- `StableSort`: `Array.prototype.sort` as a stable sort on a real key. ECMA-262 requires a stable sort since its 2019 edition.
- `ListOps`: `findIndex`, the two-splice move of a drag and drop, and the swap of the reveal-row handler.
- `Labels`: `simplifyLabel`, an ordered keyword test on the ASCII-lower-cased name.
- `CleanUp`: the clean-up's text map, streaming merge, final columns and fact attachment.
- `Export`: the CSV and tab-separated exports, and a reader for each that gives the export back.
- `Text`: `join`, `split` and the decimal rendering of an integer score.

JavaScript semantics are written out where they matter:

- `x || d` falls back to `d` on a missing, empty or zero value.
- `findIndex` returns -1 when nothing matches.
- `splice` clamps an insertion index beyond the end.
- "Unknown" priority labels are kept as `Unrecognized(label)`. The clean-up seeds priorities from whatever label the service sends. The topic order treats such a label as medium (`?? 1`), while the weight and the toggle treat it as low (the final `: 1` and `: 'low'` branches). `Priorities.UnrecognizedOrderedAsMediumWeighedAsLow` states both.

Weights and the mean are exact `real`s. Scores are mathematical integers.

## Model

| member | source | states |
|---|---|---|
| DecideTable.Table.constructor | app/table/page.tsx:185-225 | The initial state: the given universities, the seven initial columns, three visible columns and rows, phase building, state scoring, empty priorities and streaming state, no preload, nothing dragged. |
| DecideTable.InitialAiColumns | app/table/page.tsx:48-84 | Four of the initial columns are AI-generated (cost, program, location, culture). |
| DecideTable.Table.HasEnoughData | app/table/page.tsx:329-330 | `hasEnoughData`: at least four AI columns and at least three visible rows. `SyncPhase` states the phase change it drives; `InitialAiColumns` and the constructor state that the initial table has enough data. |
| DecideTable.Table.SyncPhase | app/table/page.tsx:329-337 | The phase goes from building to ready exactly when at least four AI columns exist and at least three rows are visible. Otherwise it stays. |
| DecideTable.Table.ShowNextColumn | app/table/page.tsx:505-512 | One more column is visible, capped at the number of columns. The canned recommendation is shown, and the state set to recommended, exactly when that reveals the last column and no recommendation exists yet. |
| DecideTable.Table.RevealColumn | app/table/page.tsx:557-559 | Every column up to the clicked index is visible. |
| DecideTable.Table.RevealRow | app/table/page.tsx:562-576 | An unknown id changes nothing. A found row is swapped with the row at visibleRowCount, which then holds the clicked id. The visible count grows by one and the multiset of rows is kept. The rows already visible are untouched when the clicked row was hidden. |
| DecideTable.Table.AcceptSuggestedRow | app/table/page.tsx:579-582 | One more visible row, never more than there are rows. |
| DecideTable.Table.AddRow | app/table/page.tsx:633-643 | An empty university with the fresh id is appended, and every row becomes visible. |
| DecideTable.Table.BeginColumnSuggestion | app/table/page.tsx:409-411 | Before the suggestion is requested the table state becomes analyzing, and the columns and rows of that moment are captured: the asynchronous handler's closure works on these. |
| DecideTable.Table.AddSuggestedColumn | app/table/page.tsx:435-457 | The suggested column is appended to the captured columns with weight 0.5, AI-generated, category model, so the AI column count grows by one. Every captured university gets the suggested score for it, or 0, so a column or row change made while the request ran is lost. The state becomes ready-for-recommendation exactly when the captured columns held at least two AI columns. The table stays valid exactly when the captured rows still cover the visible and dragged rows. |
| DecideTable.WithSuggestedScores | app/table/page.tsx:447-454 | Each university differs from before only at the new column's score, which is the suggested value, or 0 when there is none. |
| DecideTable.Table.ReceivePreload | app/table/page.tsx:301-317 | The preloaded answer is stored with its topics sorted by priority. |
| DecideTable.Table.BeginCleanUp | app/table/page.tsx:720-724 | Without preloaded data nothing happens. Otherwise the clean-up phase becomes creating, and the rows and visible row count of that moment are captured: the asynchronous handler's closure works on these. |
| DecideTable.Table.StreamTopic | app/table/page.tsx:729-753 | One topic: its column head is appended to the streaming topics, and its text map is merged into the streaming text. |
| DecideTable.Table.StreamTopics | app/table/page.tsx:728-756 | After the loop, the streaming heads are the sorted topics, in order, and the streaming text is the topics' merges applied one after the other. |
| DecideTable.Table.Collapse | app/table/page.tsx:759 | The clean-up phase becomes collapsing. |
| DecideTable.Table.FinishCleanUp | app/table/page.tsx:762-806 | The columns are School followed by one topic column per sorted topic, and those topic columns are exactly the criteria the scoring sees. The rows become the rows captured at the start, with facts attached to those then visible, so a row move or a row reveal made during the clean-up is lost. The visible row count is kept, and the table stays valid exactly when the captured rows still cover it and any dragged row. The priorities are seeded from the topics. Every column is shown, the table is marked cleaned up and the phase complete. The recommendation and title are taken from the preload only when given. |
| DecideTable.Table.InstallCleanUp | app/table/page.tsx:763-806 | The state updates that end the clean-up: the columns, rows, priorities, recommendation and title become the given values, every column is visible, and the table is marked cleaned up with the phase complete. `FinishCleanUp` states what those values are. |
| DecideTable.Table.ResetStreaming | app/table/page.tsx:810-811 | The streaming topics and text are emptied. |
| DecideTable.Table.Prioritize | app/table/page.tsx:919-946 | Exactly one Ranking column is appended and every column is shown. The universities become their ranking under the current topic columns and priorities (see `SentimentScoring.RankedCorrect`). The table is marked prioritized. |
| DecideTable.Table.ToggleColumnPriority | app/table/page.tsx:1051-1068 | The priorities become the toggled map, and the universities are re-ranked under the new priorities. |
| DecideTable.Table.ColumnDragStart | app/table/page.tsx:949-951 | The dragged column id is recorded. |
| DecideTable.Table.ColumnDrop | app/table/page.tsx:958-982 | Nothing moves when nothing, or the empty id, is dragged, when it is dropped on itself, or when either id is missing. Otherwise the dragged column is moved to the target's index and lands there. The length and multiset of columns are kept either way, and the drag ends. |
| DecideTable.Table.ColumnDragEnd | app/table/page.tsx:984-987 | The drag ends. |
| DecideTable.Table.RowDragStart | app/table/page.tsx:990-998 | A drag that starts inside a text field is refused. Otherwise the row index is recorded. |
| DecideTable.Table.RowDrop | app/table/page.tsx:1005-1020 | Nothing moves when no row is dragged or it is dropped on itself. Otherwise the row is moved to the target index, clamped to the last one as `splice` does. The length and multiset are kept and the drag ends. |
| DecideTable.Table.RowDragEnd | app/table/page.tsx:1022-1025 | The drag ends. |
| DecideTable.Table.UpdateWeight | app/table/page.tsx:1113-1117 | The columns become `WithWeight` of the old ones. |
| DecideTable.WithWeight | app/table/page.tsx:1113-1117 | Only the weight of the columns with the id changes, to the new weight. Every other field and column is kept. |
| DecideTable.WithWeightKeepsAiColumns | app/table/page.tsx:1113-1117 | Reweighting a column that is not AI-generated leaves the AI columns, and so every total, unchanged. |
| DecideTable.Table.UpdateScore | app/table/page.tsx:1171-1177 | The universities become `WithScore` of the old ones. |
| DecideTable.WithScore | app/table/page.tsx:1171-1177 | Only `scores[columnId]` of the universities with the id changes, to the new score. Every other university, key and field is kept. |
| DecideTable.WithScoreIdempotent | app/table/page.tsx:1171-1177 | Setting the same score twice is the same as setting it once. |
| DecideTable.WithScoreKeepsTotals | app/table/page.tsx:1171-1177 | A score for a column that is not AI-generated changes no university's total. |
| DecideTable.Table.CompleteModel | app/table/page.tsx:1120-1136 | The phase becomes complete. The totals sent to the summary service are, for each visible row, its weighted total over the visible columns. |
| DecideTable.Table.ReceiveModelSummary | app/table/page.tsx:1153-1157 | The title is the one received, or the default title when it is missing or empty. The recommendation is the one received, or empty. The summary is cleared. |
| DecideTable.Table.BackToTable | app/table/page.tsx:1166-1168 | The phase becomes ready. |
| DecideTable.Table.ExportCsv | app/table/page.tsx:860-890 | The CSV text is built from the displayed columns and all universities, and the export menu closes. |
| DecideTable.Table.CopyToClipboard | app/table/page.tsx:892-916 | The tab-separated text is built from the displayed columns and all universities, and the export menu closes. |
| SentimentScoring.NetSentimentCounts | app/table/page.tsx:839-843 | The net sentiment of a criterion is the number of positive facts minus the number of negative ones. Neutral facts do not count. |
| SentimentScoring.CriterionScore | app/table/page.tsx:846 | A criterion's score, 5 plus the net sentiment clamped to 0..10, lies in 0..10. |
| SentimentScoring.Clamp | app/table/page.tsx:846 | `max(lo, min(hi, x))`: x itself inside the range, the nearer bound outside it. |
| SentimentScoring.TotalWeight | app/table/page.tsx:833-835 | Every topic adds a weight of at least 1, so the total weight is at least the number of topics. |
| SentimentScoring.NetSentimentOf | app/table/page.tsx:839-843 | The fact loop computes the net sentiment. |
| SentimentScoring.CalculateScoreForUniversity | app/table/page.tsx:822-851 | The topic loop computes the university's score: the priority-weighted mean of its criterion scores, or 0 without facts or topics. |
| SentimentScoring.WeightedSumBetween | app/table/page.tsx:832-848 | When every criterion score lies in lo..hi, the weighted sum lies between lo and hi times the total weight. |
| SentimentScoring.UniversityScore | app/table/page.tsx:822-851 | The university's sentiment score. `UniversityScoreBounds` and `UniversityScoreBetween` state its range and its early 0, `CalculateScoreForUniversity` that the loop computes it. |
| SentimentScoring.UniversityScoreBetween | app/table/page.tsx:827-850 | With facts and at least one topic, the score lies within the bounds of the criterion scores. |
| SentimentScoring.UniversityScoreBounds | app/table/page.tsx:827-850 | Every university's score lies in 0..10. It is 0 when the university has no facts or there are no topic columns. |
| SentimentScoring.TopicColumns | app/table/page.tsx:936 | `filter(c => c.category === 'topic')`: a column is in the result exactly when it is a topic column of the input. |
| SentimentScoring.TopicColumnsAppend | app/table/page.tsx:936 | Filtering an appended column adds it at the end exactly when it is a topic column, so the filter keeps the order and multiplicity of the topic columns. |
| SentimentScoring.Ranked | app/table/page.tsx:937-943 | The re-ranked universities. `RankedCorrect` states that they are a permutation of the rescored rows, by non-increasing score and stable. |
| SentimentScoring.RankedCorrect | app/table/page.tsx:937-943 | The ranking is a permutation of the rescored universities. Every row carries its own score in 0..10, scores do not increase down the list, and equal scores keep their order. |
| SentimentScoring.RescoredMember | app/table/page.tsx:937-940 | Every rescored university carries its own score, in 0..10. |
| SentimentScoring.RankUniversities | app/table/page.tsx:937-942 | Rescoring and sorting the list computes the ranking. |
| WeightedTotal.AiColumns | app/table/page.tsx:350 | `filter(col => col.aiGenerated)`: exactly the AI-generated columns. |
| WeightedTotal.AiColumnsAppend | app/table/page.tsx:350 | Filtering an appended column adds it exactly when it is AI-generated. |
| WeightedTotal.AiColumnsIdempotent | app/table/page.tsx:350 | Filtering twice is filtering once. |
| WeightedTotal.TotalScore | app/table/page.tsx:349-360 | `calculateTotalScore` as the exact weighted mean. `TotalScoreDefined` states when it is null, `TotalScoreBetween` that it stays within the score bounds, `TotalScoreIgnoresOtherColumns` that only AI columns count. |
| WeightedTotal.TotalScoreIgnoresOtherColumns | app/table/page.tsx:349-360 | The total over any columns equals the total over their AI columns. |
| WeightedTotal.TotalScoreDefined | app/table/page.tsx:351-359 | With weights that are not negative, a total exists exactly when some AI column has a positive weight. |
| WeightedTotal.TotalScoreBetween | app/table/page.tsx:349-360 | When every AI column's score (missing counts as 0) lies in lo..hi, so does the total. |
| WeightedTotal.WeightSumPositive | app/table/page.tsx:353 | The weight sum is not negative, and it is positive exactly when some weight is positive. |
| WeightedTotal.MeanWithin | app/table/page.tsx:354-359 | A weighted mean lies within the bounds of its terms. |
| Priorities.ParsePriority | app/table/page.tsx:789 | The label of a topic, falling back to medium: medium exactly for a missing, empty or `"medium"` label, high exactly for `"high"`, low exactly for `"low"`. Every other label is kept as unrecognized. |
| Priorities.PriorityRank | app/table/page.tsx:302-306 | The rank is 0 exactly for high and 2 exactly for low. Everything else, unknown labels included, ranks 1. |
| Priorities.SortTopics | app/table/page.tsx:302-307 | The topic sort. `SortTopicsCorrect` states that it is a stable permutation in rank order, `SortTopicsHighMediumLow` that high topics come first and low ones last. |
| Priorities.SortTopicsCorrect | app/table/page.tsx:302-307 | The sorted topics are a permutation of the topics, a lower rank always comes first, and topics of equal rank keep their relative order. |
| Priorities.SortTopicsHighMediumLow | app/table/page.tsx:302-307 | Every high topic precedes every other topic, and every topic that is not low precedes every low one. |
| Priorities.PriorityOf | app/table/page.tsx:833 | The priority of a column, a column without one counting as medium, as the `'medium'` fallback of the scoring loop and of the toggle says. `Priorities.Weight` then gives it weight 2, and `Priorities.Toggled` and `Priorities.ToggleCycle` state its toggle. |
| Priorities.Weight | app/table/page.tsx:834 | The weight is 3 exactly for high, 2 exactly for medium, 1 otherwise. |
| Priorities.Toggle | app/table/page.tsx:1053 | The priority always changes to low, medium or high: low to medium, medium to high, anything else to low. |
| Priorities.Toggled | app/table/page.tsx:1052-1054 | The priority of the pressed column is toggled, a missing one counting as medium. No other column's priority changes, and no other key appears. |
| Priorities.ToggleCycle | app/table/page.tsx:1052-1054 | Three presses restore a recognised priority. A column without one goes to high. An unknown label goes to low. |
| Priorities.UnrecognizedOrderedAsMediumWeighedAsLow | app/table/page.tsx:304-305 | An unknown label is sorted as medium but weighed as low. |
| Priorities.SeedMapSeeded | app/table/page.tsx:787-790 | The seeded map has exactly the topic ids as keys. Each id holds the parsed priority of the last topic with that id. |
| Priorities.SeedMapKeys | app/table/page.tsx:787-790 | The seeded map's keys are exactly the topic ids. |
| Priorities.SeedMapLast | app/table/page.tsx:787-790 | A topic that is the last with its id sets that id's priority. |
| Priorities.InitialPriorities | app/table/page.tsx:787-790 | The loop builds the seeded map. |
| StableSort.Insert | app/table/page.tsx:942 | Inserting adds exactly the element to the multiset. |
| StableSort.SortBy | app/table/page.tsx:942 | Sorting keeps the multiset. |
| StableSort.InsertSorted | app/table/page.tsx:942 | Inserting into a sorted list keeps it sorted. |
| StableSort.InsertWithKey | app/table/page.tsx:942 | Inserting appends the element to the elements of its key, and leaves the elements of other keys unchanged. |
| StableSort.SortByCorrect | app/table/page.tsx:942 | The sort is sorted, a permutation, and stable: for each key the elements with that key keep their order. |
| ListOps.IndexOf | app/table/page.tsx:967-968 | `findIndex`: -1 exactly when no element has the id. Otherwise the first element with the id. |
| ListOps.Move | app/table/page.tsx:976-977 | Removing at `from` and inserting at `to` keeps the length and the multiset, and puts the moved element at `to`. |
| ListOps.MoveAt | app/table/page.tsx:976-977 | Element by element: the moved one sits at `to`, the elements between shift by one, and the rest stay. |
| ListOps.Swap | app/table/page.tsx:568-571 | The two positions trade elements, and every other position is kept. |
| ListOps.SwapPermutes | app/table/page.tsx:568-571 | A swap keeps the multiset. |
| Labels.ToLowerAscii | app/table/page.tsx:364 | Lower-casing keeps the length and lowers each character. |
| Labels.ContainsIff | app/table/page.tsx:365 | `includes` holds exactly when the word occurs at some position. |
| Labels.FirstWord | app/table/page.tsx:378 | `split(' ')[0]`: the longest prefix without a space. |
| Labels.SimplifyLabel | app/table/page.tsx:363-379 | The label is one of the four categories or the name's first word. |
| Labels.MentionsIff | app/table/page.tsx:365-376 | The keyword test on the lower-cased name holds exactly when the name mentions one of the words. |
| Labels.SimplifyLabelSpec | app/table/page.tsx:363-379 | Each category is chosen exactly when its words are mentioned and no earlier category's are. With none mentioned the label is the first word. |
| Labels.NotMentionedFirstWord | app/table/page.tsx:363-379 | When a name mentions none of a category's words, its first word is not that category's label. |
| Labels.SimplifyLabelCaseInsensitive | app/table/page.tsx:363-379 | Names equal up to case get the same category label. |
| Labels.LabelsLowered | app/table/page.tsx:366-376 | Each category label lower-cases to one of its own keywords. |
| CleanUp.TextMap | app/table/page.tsx:736-744 | The text map of one topic. `TextMapKeys`, `TextMapLast` and `TextMapNone` state its keys and the text of each slot. |
| CleanUp.TextMapKeys | app/table/page.tsx:736-744 | The text map has a key exactly for each entry with facts and an id. |
| CleanUp.TextMapLast | app/table/page.tsx:736-744 | The last entry with an id and facts for the topic sets that id's text, its fact texts joined by newlines. |
| CleanUp.TextMapNone | app/table/page.tsx:736-744 | An id none of whose entries has facts for the topic holds no text. |
| CleanUp.BuildTextMap | app/table/page.tsx:736-744 | The loop builds the text map. |
| CleanUp.MergeText | app/table/page.tsx:746-753 | Each university in the text map gets the topic's slot set, and its other topics kept. Universities outside it are unchanged, and no other key appears. |
| CleanUp.StreamedTextSlots | app/table/page.tsx:728-756 | After streaming every topic, each streaming university has a slot per topic holding the text of its last entry with facts for it, or nothing when no entry has any. |
| CleanUp.TopicColumnsKeepsTopics | app/table/page.tsx:936 | Filtering a list of topic columns gives it back. |
| CleanUp.FinalColumns | app/table/page.tsx:763-772 | The columns after the clean-up. `FinalCriteria` states that their criteria are the sorted topics' columns, `CollapseShowsFinalColumns` that their heads are the school name and the streaming heads. |
| CleanUp.FinalCriteria | app/table/page.tsx:763-772 | The scoring criteria of the final columns are exactly the topic columns of the sorted topics. |
| CleanUp.AttachFacts | app/table/page.tsx:775-784 | Only `facts` can change. Rows from visibleRowCount on, and rows whose id is not found, are unchanged. A visible row whose id is found takes the facts of the first entry with that id. |
| CleanUp.CollapseShowsFinalColumns | app/table/page.tsx:1028-1047 | `getDisplayColumns` while the old columns collapse shows the school name and one streaming head per sorted topic. These are exactly the heads the table shows once the clean-up is complete and every final column is visible, so the collapse ends on the final table. |
| Export.DoubleQuotes | app/table/page.tsx:866-867 | Doubling quotes never shortens the text. |
| Export.ScoreText | app/table/page.tsx:877 | A score cell is empty exactly when the score is missing or zero. |
| Export.Cell | app/table/page.tsx:864-877 | One export cell: the name unquoted, pros, cons, the ranking note and a topic's facts quoted, the score otherwise. `Export.ReadFieldRender` and `Export.RecordsReadable` state that each cell reads back from its rendering, `Export.ScoreCellReadsBack` that a score cell reads back as the score. |
| Export.ReadRaw | app/table/page.tsx:865 | Reading an unquoted field splits the text at the first comma or newline. |
| Export.ReadQuotedDoubled | app/table/page.tsx:866-867 | A quoted field with its quotes doubled (section 2, rule 7 of RFC 4180) reads back as the original text. |
| Export.ReadRawPlain | app/table/page.tsx:865 | An unquoted field free of comma, quote and newline reads back unchanged. |
| Export.ReadFieldRender | app/table/page.tsx:864-877 | Every readable cell reads back from its rendering. |
| Export.ReadRecordRender | app/table/page.tsx:878 | A comma-joined record of readable cells reads back. |
| Export.ReadCsvRender | app/table/page.tsx:879-881 | Newline-joined records read back. |
| Export.CsvRoundTrip | app/table/page.tsx:860-881 | With at least one column and at least one university, and names that contain no comma, quote or newline, a CSV reader gives back exactly the header cells and every university's cells. With no university the source writes the header line and a line feed, a case this lemma does not cover. |
| Export.CsvText | app/table/page.tsx:860-881 | The CSV text. Its meaning is stated by `Export.CsvRoundTrip`: read back, it gives the header cells followed by one record of `Export.Cell`s per university. |
| Export.RecordsReadable | app/table/page.tsx:862-879 | Under the same condition every cell of the export is readable. |
| Export.ScoreCellReadsBack | app/table/page.tsx:877 | A non-zero score cell reads back as the score. |
| Export.ValuesSplit | app/table/page.tsx:910 | Splitting a tab-joined row at tabs gives back its values. |
| Export.TsvRoundTrip | app/table/page.tsx:892-913 | With at least one column and at least one university, and values free of tabs and newlines, splitting the text at newlines and then at tabs gives back the header names and every university's values. |
| Export.TsvText | app/table/page.tsx:892-913 | The clipboard text. Its meaning is stated by `Export.TsvRoundTrip`: split back, it gives the header names and the values of the same cells as the CSV. |
| Export.NoNewlineInValues | app/table/page.tsx:910 | A row of tab- and newline-free values holds no newline. |
| Text.SplitJoin | app/table/page.tsx:910-911 | `split` undoes `join` on parts free of the separator. |
| Text.NatToStringRoundTrip | app/table/page.tsx:877 | The decimal digits of a natural number denote it. |
| Text.IntToStringRoundTrip | app/table/page.tsx:877 | Reading a rendered integer gives it back. |
| Text.ParseInt | app/table/page.tsx:877 | A text reads as an integer exactly when it is digits, optionally after a minus sign. |

## Left out

- The API routes under `app/api/` are not part of this model. They forward prompts to a language model.
- `tryParsePartialJSON` (app/table/page.tsx:646-717) is a best-effort scraper. Its meaning rests on regular-expression and `JSON.parse` behaviour.
- Network, timers and asynchrony are not modelled. These include the preload fetches and stream draining, `fetch` in every handler, the `setTimeout` pauses of the clean-up, the Blob download and the clipboard write. A response the component waits for becomes a parameter of the method that handles it: `ReceivePreload`, `AddSuggestedColumn`, `ReceiveModelSummary`.
- Error paths after a failed request are not modelled. These are the `'initial'` state of a failed column suggestion and the return of the clean-up to `'idle'`. The model has no failing request.
- `handleCleanUp` is modelled as its steps between two awaits: `BeginCleanUp`, `StreamTopic`/`StreamTopics`, `Collapse`, `FinishCleanUp` and `ResetStreaming`. No single method runs them end to end.
- `handleGetRecommendation` and `handleManualUniversitySubmit` set state only from a network answer, so they are not modelled.
- The network part of `handleAddAIColumn` is not modelled. `BeginColumnSuggestion` is the step before the request and captures the columns and rows the closure holds. `AddSuggestedColumn` takes the suggestion as parameters and builds on that capture.
- `Date.now()` ids are a parameter (`freshId`). The initial universities and the canned recommendation text are constructor parameters.
- `toFixed(1)` in `calculateTotalScore` is not modelled: `TotalScore` is the exact real mean. Floating-point rounding of weights and means is likewise not modelled.
- Only ASCII letters are lower-cased in `Labels.ToLowerAscii`. JavaScript's `toLowerCase` also folds other scripts.
- The JSX rendering is not modelled. This covers the sliders, the charts, the priority dots and the hover and drag-over highlight state.
- The inline edits of a row's name, pros and cons are not modelled, nor the loading flags, the notes view and the text-selection menu. Those edits assign to the shared row objects in place, which the clean-up's captured rows also hold, so unlike a row move or reveal they would survive a clean-up running at the time.
- The other pages are not part of this model.
- Objects are modelled as maps, so JavaScript prototype keys (`"constructor"` as an id, say) behave as ordinary missing keys.
- `Export.ReadCsv` reads LF-only line ends, as the export writes them.
- DecideTable.Table.RevealRow: requires that the first hidden row exists when the id is found. The code writes past the end of the array otherwise. Its callers only offer ids of hidden rows.
- DecideTable.Table.RowDragStart: requires that the row index is in range, as the table only offers indices of rendered rows.
