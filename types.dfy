/**
  The entities of the "Decide" table: universities (rows), columns, the facts the
  language model extracts per topic, and the priority labels a topic can carry.
*/
module DecideTypes {
  import opened Options

  /** `'positive' | 'negative' | 'neutral'`; the scoring code tests only the first two,
      so Neutral stands for every other label as well. */
  datatype Sentiment = Positive | Negative | Neutral

  datatype Fact = Fact(text: string, sentiment: Sentiment)

  /** topic id -> the facts found for that topic */
  type Facts = map<string, seq<Fact>>

  /** A column priority. The language model may send any label; `Unrecognized` keeps
      such a (non-empty) label, which the code treats differently in different places. */
  datatype Priority = Low | Medium | High | Unrecognized(raw: string)

  datatype Category = Content | Model | Status | Topic

  datatype Column = Column(id: string, name: string, weight: real, aiGenerated: bool, category: Category)

  /** What the header row and the export need of a column: the streaming topic columns
      shown during the clean-up animation carry only these three fields. */
  datatype ColumnHead = ColumnHead(id: string, name: string, category: Category)

  /** One row. `scores` maps column ids to the 0..10 slider values; `facts` is attached by
      the clean-up; `score` is the sentiment score written by the re-ranking handlers. */
  datatype University = University(
    id: string,
    name: string,
    pros: string,
    cons: string,
    scores: map<string, int>,
    facts: Option<Facts>,
    score: Option<real>)

  /** A topic as the clean-up service returns it; `priority` is its raw label, if any. */
  datatype TopicSuggestion = TopicSuggestion(id: string, name: string, priority: Option<string>)

  /** One entry of the clean-up service's `normalizedData`. */
  datatype NormalizedUniversity = NormalizedUniversity(id: string, name: string, facts: Option<Facts>)

  function Head(c: Column): ColumnHead
  {
    ColumnHead(c.id, c.name, c.category)
  }

  function UniversityId(u: University): string
  {
    u.id
  }

  function ColumnId(c: Column): string
  {
    c.id
  }
}
