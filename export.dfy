/**
  The two exports of the table: the CSV download and the tab-separated clipboard text.
  Both walk the displayed columns for every university and pick the same cell; the CSV
  renders a cell either as it is (name, score) or quoted with inner quotes doubled (pros,
  cons, ranking note, facts), the clipboard text always takes the cell as it is.

  Alongside the writer sits a reader for the CSV grammar of RFC 4180 (with the line feed
  the export writes as record separator), and the proof that it reads every export back
  when the names written unquoted are free of commas, quotes and line feeds.
*/
module Export {
  import opened Options
  import opened DecideTypes
  import opened Text

  /** One CSV cell: `Quoted` is written between double quotes, `Raw` as it is. */
  datatype Field = Quoted(text: string) | Raw(text: string)

  /** `s.replace(/"/g, '""')` */
  function DoubleQuotes(s: string): (r: string)
    ensures |r| >= |s|
  {
    if s == [] then []
    else (if s[0] == '"' then "\"\"" else [s[0]]) + DoubleQuotes(s[1..])
  }

  function Render(f: Field): string
  {
    match f
    case Quoted(t) => "\"" + DoubleQuotes(t) + "\""
    case Raw(t) => t
  }

  /** The ranking note of the row at `index`. */
  function RankingNote(index: nat): (r: string)
    ensures index == 0 ==> r == "Best option based on your priorities"
    ensures index == 1 ==> r == "Strong alternative"
    ensures index >= 2 ==> r == "Consider if priorities shift"
  {
    if index == 0 then "Best option based on your priorities"
    else if index == 1 then "Strong alternative"
    else "Consider if priorities shift"
  }

  function FactTexts(facts: seq<Fact>): (r: seq<string>)
    ensures |r| == |facts| && forall k :: 0 <= k < |facts| ==> r[k] == facts[k].text
  {
    seq(|facts|, k requires 0 <= k < |facts| => facts[k].text)
  }

  /** `uni.scores[col.id] || ''`: a missing score and a zero score both export as empty. */
  function ScoreText(u: University, id: string): (r: string)
    ensures r == "" <==> id !in u.scores || u.scores[id] == 0
  {
    if id in u.scores && u.scores[id] != 0 then IntToString(u.scores[id]) else ""
  }

  /** The cell of university `u` (the row at `index`) under column `col`. The column id is
      tested first, then a topic column with facts for it, then the score. */
  function Cell(u: University, col: ColumnHead, index: nat): Field
  {
    if col.id == "name" then Raw(u.name)
    else if col.id == "pros" then Quoted(u.pros)
    else if col.id == "cons" then Quoted(u.cons)
    else if col.id == "priority-notes" then Quoted(RankingNote(index))
    else if col.category == Topic && u.facts.Some? && col.id in u.facts.value then
      Quoted(Join(FactTexts(u.facts.value[col.id]), "; "))
    else Raw(ScoreText(u, col.id))
  }

  function RowFields(u: University, columns: seq<ColumnHead>, index: nat): (r: seq<Field>)
    ensures |r| == |columns| && forall j :: 0 <= j < |columns| ==> r[j] == Cell(u, columns[j], index)
  {
    seq(|columns|, j requires 0 <= j < |columns| => Cell(u, columns[j], index))
  }

  function HeaderFields(columns: seq<ColumnHead>): (r: seq<Field>)
    ensures |r| == |columns| && forall j :: 0 <= j < |columns| ==> r[j] == Raw(columns[j].name)
  {
    seq(|columns|, j requires 0 <= j < |columns| => Raw(columns[j].name))
  }

  /** The fields of every row, the row's position standing for `universities.indexOf(uni)`. */
  function BodyFields(columns: seq<ColumnHead>, universities: seq<University>): (r: seq<seq<Field>>)
    ensures |r| == |universities|
    ensures forall i :: 0 <= i < |universities| ==> r[i] == RowFields(universities[i], columns, i)
  {
    seq(|universities|, i requires 0 <= i < |universities| => RowFields(universities[i], columns, i))
  }

  function Rendered(fields: seq<Field>): (r: seq<string>)
    ensures |r| == |fields| && forall j :: 0 <= j < |fields| ==> r[j] == Render(fields[j])
  {
    seq(|fields|, j requires 0 <= j < |fields| => Render(fields[j]))
  }

  function RecordText(fields: seq<Field>): string
  {
    Join(Rendered(fields), ",")
  }

  function RecordLines(records: seq<seq<Field>>): (r: seq<string>)
    ensures |r| == |records| && forall i :: 0 <= i < |records| ==> r[i] == RecordText(records[i])
  {
    seq(|records|, i requires 0 <= i < |records| => RecordText(records[i]))
  }

  function RecordsText(records: seq<seq<Field>>): string
  {
    Join(RecordLines(records), "\n")
  }

  /** The CSV file: the header line, a line feed, and the rows joined by line feeds. */
  function CsvText(columns: seq<ColumnHead>, universities: seq<University>): string
  {
    RecordText(HeaderFields(columns)) + "\n" + RecordsText(BodyFields(columns, universities))
  }

  function ValuesText(fields: seq<Field>): string
  {
    Join(seq(|fields|, j requires 0 <= j < |fields| => fields[j].text), "\t")
  }

  /** The clipboard text: the same cells, unquoted, separated by tabs and line feeds. */
  function TsvText(columns: seq<ColumnHead>, universities: seq<University>): string
  {
    var body := BodyFields(columns, universities);
    ValuesText(HeaderFields(columns)) + "\n"
      + Join(seq(|body|, i requires 0 <= i < |body| => ValuesText(body[i])), "\n")
  }

  // ---------------------------------------------------------------------------------
  // An RFC 4180 reader

  /** Reads the rest of a quoted field, after its opening quote: a doubled quote stands
      for one quote, a single quote closes the field. */
  function ReadQuoted(s: string): (r: Option<(string, string)>)
    ensures r.Some? ==> |r.value.1| < |s|
  {
    if s == [] then None
    else if s[0] == '"' then
      if |s| >= 2 && s[1] == '"' then
        match ReadQuoted(s[2..])
        case None => None
        case Some((t, rest)) => Some(("\"" + t, rest))
      else Some(([], s[1..]))
    else
      match ReadQuoted(s[1..])
      case None => None
      case Some((t, rest)) => Some(([s[0]] + t, rest))
  }

  /** Reads an unquoted field: everything up to the next comma or line feed. */
  function ReadRaw(s: string): (r: (string, string))
    ensures r.0 + r.1 == s
    ensures r.1 == [] || r.1[0] == ',' || r.1[0] == '\n'
  {
    if s == [] || s[0] == ',' || s[0] == '\n' then ([], s)
    else
      var tail := ReadRaw(s[1..]);
      assert ([s[0]] + tail.0) + tail.1 == [s[0]] + (tail.0 + tail.1) == s;
      ([s[0]] + tail.0, tail.1)
  }

  function ReadField(s: string): (r: Option<(Field, string)>)
    ensures r.Some? ==> |r.value.1| <= |s|
  {
    if s != [] && s[0] == '"' then
      match ReadQuoted(s[1..])
      case None => None
      case Some((t, rest)) => Some((Quoted(t), rest))
    else
      var (t, rest) := ReadRaw(s);
      Some((Raw(t), rest))
  }

  /** Reads the comma-separated fields of one record; what follows is empty or starts a
      new line. */
  function ReadRecord(s: string): (r: Option<(seq<Field>, string)>)
    ensures r.Some? ==> |r.value.0| >= 1 && |r.value.1| <= |s|
    ensures r.Some? ==> r.value.1 == [] || r.value.1[0] == '\n'
    decreases |s|
  {
    match ReadField(s)
    case None => None
    case Some((f, rest)) =>
      if rest != [] && rest[0] == ',' then
        match ReadRecord(rest[1..])
        case None => None
        case Some((fs, rest')) => Some(([f] + fs, rest'))
      else if rest == [] || rest[0] == '\n' then Some(([f], rest))
      else None
  }

  /** Reads a whole document: records separated by line feeds. */
  function ReadCsv(s: string): (r: Option<seq<seq<Field>>>)
    ensures r.Some? ==> |r.value| >= 1
    decreases |s|
  {
    match ReadRecord(s)
    case None => None
    case Some((fs, rest)) =>
      if rest == [] then Some([fs])
      else
        match ReadCsv(rest[1..])
        case None => None
        case Some(records) => Some([fs] + records)
  }

  // ---------------------------------------------------------------------------------
  // Reading the export back

  /** Text that may stand unquoted in a field. */
  predicate PlainText(t: string)
  {
    forall k :: 0 <= k < |t| ==> t[k] != ',' && t[k] != '"' && t[k] != '\n'
  }

  predicate Readable(f: Field)
  {
    f.Raw? ==> PlainText(f.text)
  }

  predicate FieldBoundary(rest: string)
  {
    rest == [] || rest[0] == ',' || rest[0] == '\n'
  }

  lemma {:induction false} ReadQuotedDoubled(t: string, rest: string)
    requires FieldBoundary(rest)
    ensures ReadQuoted(DoubleQuotes(t) + "\"" + rest) == Some((t, rest))
  {
    var s := DoubleQuotes(t) + "\"" + rest;
    if t == [] {
      assert s == "\"" + rest;
    } else {
      ReadQuotedDoubled(t[1..], rest);
      var tail := DoubleQuotes(t[1..]) + "\"" + rest;
      if t[0] == '"' {
        assert s == "\"\"" + tail;
        assert s[2..] == tail;
      } else {
        assert s == [t[0]] + tail;
        assert s[1..] == tail;
      }
      assert t == [t[0]] + t[1..];
    }
  }

  lemma {:induction false} ReadRawPlain(t: string, rest: string)
    requires PlainText(t) && FieldBoundary(rest)
    ensures ReadRaw(t + rest) == (t, rest)
  {
    if t == [] {
      assert t + rest == rest;
    } else {
      assert (t + rest)[1..] == t[1..] + rest;
      ReadRawPlain(t[1..], rest);
      assert t == [t[0]] + t[1..];
    }
  }

  /** Every readable field is read back from its rendering, whatever field or record
      follows it. */
  lemma ReadFieldRender(f: Field, rest: string)
    requires Readable(f) && FieldBoundary(rest)
    ensures ReadField(Render(f) + rest) == Some((f, rest))
  {
    match f
    case Quoted(t) => ReadQuotedField(t, rest);
    case Raw(t) => ReadRawField(t, rest);
  }

  lemma ReadQuotedField(t: string, rest: string)
    requires FieldBoundary(rest)
    ensures ReadField(Render(Quoted(t)) + rest) == Some((Quoted(t), rest))
  {
    var s := Render(Quoted(t)) + rest;
    ReadQuotedDoubled(t, rest);
    assert s == "\"" + (DoubleQuotes(t) + "\"" + rest);
    assert s[0] == '"' && s[1..] == DoubleQuotes(t) + "\"" + rest;
  }

  lemma ReadRawField(t: string, rest: string)
    requires PlainText(t) && FieldBoundary(rest)
    ensures ReadField(Render(Raw(t)) + rest) == Some((Raw(t), rest))
  {
    var s := Render(Raw(t)) + rest;
    ReadRawPlain(t, rest);
    assert s == t + rest;
    assert s == [] || s[0] != '"';
  }

  lemma {:induction false} ReadRecordRender(fields: seq<Field>, rest: string)
    requires |fields| >= 1
    requires forall j :: 0 <= j < |fields| ==> Readable(fields[j])
    requires rest == [] || rest[0] == '\n'
    ensures ReadRecord(RecordText(fields) + rest) == Some((fields, rest))
  {
    if |fields| == 1 {
      RecordTextSingle(fields);
      ReadFieldRender(fields[0], rest);
    } else {
      var tail := RecordText(fields[1..]);
      RecordTextCons(fields);
      var after := "," + tail + rest;
      assert RecordText(fields) + rest == Render(fields[0]) + after;
      assert after[1..] == tail + rest;
      ReadRecordRender(fields[1..], rest);
      ReadRecordCons(fields[0], after, fields[1..], rest);
      assert fields == [fields[0]] + fields[1..];
    }
  }

  lemma RecordTextSingle(fields: seq<Field>)
    requires |fields| == 1
    ensures RecordText(fields) == Render(fields[0]) && fields == [fields[0]]
  {
    assert Rendered(fields) == [Render(fields[0])];
  }

  lemma RecordTextCons(fields: seq<Field>)
    requires |fields| >= 2
    ensures RecordText(fields) == Render(fields[0]) + "," + RecordText(fields[1..])
  {
    assert Rendered(fields)[1..] == Rendered(fields[1..]);
  }

  lemma ReadRecordCons(f: Field, after: string, fs: seq<Field>, rest: string)
    requires Readable(f) && after != [] && after[0] == ','
    requires ReadRecord(after[1..]) == Some((fs, rest))
    ensures ReadRecord(Render(f) + after) == Some(([f] + fs, rest))
  {
    ReadFieldRender(f, after);
  }

  lemma {:induction false} ReadCsvRender(records: seq<seq<Field>>)
    requires |records| >= 1
    requires forall i :: 0 <= i < |records| ==> |records[i]| >= 1
    requires forall i, j :: 0 <= i < |records| && 0 <= j < |records[i]| ==> Readable(records[i][j])
    ensures ReadCsv(RecordsText(records)) == Some(records)
  {
    if |records| == 1 {
      ReadRecordRender(records[0], "");
      assert RecordLines(records) == [RecordText(records[0])];
      assert RecordsText(records) == RecordText(records[0]) == RecordText(records[0]) + "";
      assert ReadRecord(RecordsText(records)) == Some((records[0], ""));
      assert records == [records[0]];
    } else {
      var tail := RecordsText(records[1..]);
      assert RecordLines(records)[1..] == RecordLines(records[1..]);
      assert RecordsText(records) == RecordText(records[0]) + ("\n" + tail);
      ReadCsvRender(records[1..]);
      ReadCsvCons(records[0], "\n" + tail, records[1..]);
      assert records == [records[0]] + records[1..];
    }
  }

  lemma ReadCsvCons(fields: seq<Field>, after: string, records: seq<seq<Field>>)
    requires |fields| >= 1 && forall j :: 0 <= j < |fields| ==> Readable(fields[j])
    requires after != [] && after[0] == '\n' && ReadCsv(after[1..]) == Some(records)
    ensures ReadCsv(RecordText(fields) + after) == Some([fields] + records)
  {
    ReadRecordRender(fields, after);
  }

  lemma ScoreTextPlain(u: University, id: string)
    ensures PlainText(ScoreText(u, id))
  {
  }

  /** The CSV export is read back, by the RFC 4180 reader, as the header of column names
      followed by one record per university holding its cells, provided there is a column
      and a university and the column and university names (the only text written
      unquoted besides scores) contain no comma, quote or line feed. */
  lemma CsvRoundTrip(columns: seq<ColumnHead>, universities: seq<University>)
    requires |columns| >= 1 && |universities| >= 1
    requires forall j :: 0 <= j < |columns| ==> PlainText(columns[j].name)
    requires forall i :: 0 <= i < |universities| ==> PlainText(universities[i].name)
    ensures ReadCsv(CsvText(columns, universities))
      == Some([HeaderFields(columns)] + BodyFields(columns, universities))
  {
    var records := [HeaderFields(columns)] + BodyFields(columns, universities);
    RecordsReadable(columns, universities);
    var body := BodyFields(columns, universities);
    assert RecordLines(records) == [RecordText(records[0])] + RecordLines(body);
    assert RecordsText(records) == CsvText(columns, universities);
    ReadCsvRender(records);
  }

  lemma RecordsReadable(columns: seq<ColumnHead>, universities: seq<University>)
    requires forall j :: 0 <= j < |columns| ==> PlainText(columns[j].name)
    requires forall i :: 0 <= i < |universities| ==> PlainText(universities[i].name)
    ensures var records := [HeaderFields(columns)] + BodyFields(columns, universities);
      forall i, j :: 0 <= i < |records| && 0 <= j < |records[i]| ==> Readable(records[i][j])
  {
    var records := [HeaderFields(columns)] + BodyFields(columns, universities);
    forall i, j | 0 <= i < |records| && 0 <= j < |records[i]|
      ensures Readable(records[i][j])
    {
      if i > 0 {
        var u := universities[i - 1];
        assert records[i][j] == Cell(u, columns[j], i - 1);
        ScoreTextPlain(u, columns[j].id);
      }
    }
  }

  /** A non-zero score is exported as text that reads back as that score. */
  lemma ScoreCellReadsBack(u: University, col: ColumnHead, index: nat)
    requires col.id !in {"name", "pros", "cons", "priority-notes"}
    requires !(col.category == Topic && u.facts.Some? && col.id in u.facts.value)
    requires col.id in u.scores && u.scores[col.id] != 0
    ensures Cell(u, col, index).Raw?
    ensures ParseInt(Cell(u, col, index).text) == Some(u.scores[col.id])
  {
    IntToStringRoundTrip(u.scores[col.id]);
  }

  predicate TabFree(t: string)
  {
    '\t' !in t && '\n' !in t
  }

  lemma ValuesSplit(fields: seq<Field>)
    requires |fields| >= 1 && forall j :: 0 <= j < |fields| ==> TabFree(fields[j].text)
    ensures Split(ValuesText(fields), '\t') == seq(|fields|, j requires 0 <= j < |fields| => fields[j].text)
  {
    SplitJoin(seq(|fields|, j requires 0 <= j < |fields| => fields[j].text), '\t');
  }

  /** The clipboard text splits, at line feeds and then at tabs, into the header of
      column names and the cell texts of each university, provided there is a column and
      a university, and no cell text or column name contains a tab or line feed. */
  lemma TsvRoundTrip(columns: seq<ColumnHead>, universities: seq<University>)
    requires |columns| >= 1 && |universities| >= 1
    requires forall j :: 0 <= j < |columns| ==> TabFree(columns[j].name)
    requires forall i, j :: 0 <= i < |universities| && 0 <= j < |columns| ==>
      TabFree(Cell(universities[i], columns[j], i).text)
    ensures var lines := Split(TsvText(columns, universities), '\n');
      && |lines| == |universities| + 1
      && Split(lines[0], '\t') == seq(|columns|, j requires 0 <= j < |columns| => columns[j].name)
      && forall i :: 0 <= i < |universities| ==>
          Split(lines[i + 1], '\t')
          == seq(|columns|, j requires 0 <= j < |columns| => Cell(universities[i], columns[j], i).text)
  {
    var body := BodyFields(columns, universities);
    var header := HeaderFields(columns);
    var rows := seq(|body|, i requires 0 <= i < |body| => ValuesText(body[i]));
    var parts := [ValuesText(header)] + rows;
    forall k | 0 <= k < |parts|
      ensures '\n' !in parts[k]
    {
      if k == 0 {
        NoNewlineInValues(header);
      } else {
        NoNewlineInValues(body[k - 1]);
      }
    }
    assert TsvText(columns, universities) == Join(parts, "\n");
    SplitJoin(parts, '\n');
    ValuesSplit(header);
    forall i | 0 <= i < |universities|
      ensures Split(parts[i + 1], '\t')
        == seq(|columns|, j requires 0 <= j < |columns| => Cell(universities[i], columns[j], i).text)
    {
      ValuesSplit(body[i]);
    }
  }

  lemma {:induction false} JoinNoNewline(parts: seq<string>, sep: string)
    requires '\n' !in sep && forall k :: 0 <= k < |parts| ==> '\n' !in parts[k]
    ensures '\n' !in Join(parts, sep)
  {
    if |parts| >= 2 {
      JoinNoNewline(parts[1..], sep);
    }
  }

  lemma NoNewlineInValues(fields: seq<Field>)
    requires forall j :: 0 <= j < |fields| ==> TabFree(fields[j].text)
    ensures '\n' !in ValuesText(fields)
  {
    JoinNoNewline(seq(|fields|, j requires 0 <= j < |fields| => fields[j].text), "\t");
  }
}
