/**
 * The report written by `create_file_with_mentions`: a header line, then one
 * line `mentioned,YYYY-MM-DD,count` per record, each ended by a newline.
 * The writer does no escaping; the parsers here exist to state what the
 * text determines.
 */
module Report {
  import opened Options
  import Decimal
  import Fields
  import Dates

  /** The three values a mention contributes to its report line. */
  datatype Row = Row(mentioned: string, when: Dates.Date, times: int)

  const HeaderLine: string := "mentioned,when,times_same_month"

  /** Text that survives the comma-separated, newline-terminated format unescaped. */
  predicate Plain(s: string) {
    ',' !in s && '\n' !in s
  }

  /** `str(mention)`: the three fields joined by ','. */
  function FormatRow(r: Row): (line: string)
    ensures line == r.mentioned + [','] + Dates.Format(r.when) + [','] + Decimal.IntToString(r.times)
    ensures '\n' in line <==> '\n' in r.mentioned
  {
    var date, count := Dates.Format(r.when), Decimal.IntToString(r.times);
    Fields.JoinThree(r.mentioned, date, count, ',');
    assert '\n' !in date && '\n' !in count;
    Fields.Join([r.mentioned, date, count], ',')
  }

  /** Reads one report line back into its three fields. */
  function ParseRow(line: string): (r: Option<Row>)
    ensures r.Some? ==> |Fields.Split(line, ',')| == 3
  {
    var fs := Fields.Split(line, ',');
    if |fs| != 3 then None
    else
      match (Dates.Parse(fs[1]), Decimal.ParseInt(fs[2]))
      case (Some(d), Some(n)) => Some(Row(fs[0], d, n))
      case _ => None
  }

  /** Without a comma in `mentioned`, the line's comma-separated fields are exactly the entity, the date and the count. */
  lemma RowFields(r: Row)
    requires ',' !in r.mentioned
    ensures Fields.Split(FormatRow(r), ',') == [r.mentioned, Dates.Format(r.when), Decimal.IntToString(r.times)]
  {
    var date, count := Dates.Format(r.when), Decimal.IntToString(r.times);
    assert ',' !in date;
    assert ',' !in count;
    Fields.SplitJoin([r.mentioned, date, count], ',');
  }

  /** A line reads back as the row it was written from, when `mentioned` needs no escaping. */
  lemma RowRoundTrip(r: Row)
    ensures Plain(r.mentioned) ==> ParseRow(FormatRow(r)) == Some(r)
  {
    if Plain(r.mentioned) {
      RowFields(r);
      Dates.FormatRoundTrip(r.when);
      Decimal.IntRoundTrip(r.times);
    }
  }

  /** The whole file content: header line, then the body. */
  function FileText(rows: seq<Row>): (text: string)
    ensures |text| > |HeaderLine| && text[..|HeaderLine| + 1] == HeaderLine + "\n"
    ensures rows == [] ==> text == HeaderLine + "\n"
  {
    HeaderLine + "\n" + Fields.Terminated(Lines(rows), '\n')
  }

  function Lines(rows: seq<Row>): (ls: seq<string>)
    ensures |ls| == |rows| && forall i :: 0 <= i < |rows| ==> ls[i] == FormatRow(rows[i])
  {
    seq(|rows|, i requires 0 <= i < |rows| => FormatRow(rows[i]))
  }

  /** Reads the record lines of a file back, stopping at the first that does not parse. */
  function ParseLines(ls: seq<string>): (r: Option<seq<Row>>)
    ensures r.Some? ==> |r.value| == |ls|
  {
    if ls == [] then Some([])
    else
      match (ParseLines(ls[..|ls| - 1]), ParseRow(ls[|ls| - 1]))
      case (Some(rs), Some(row)) => Some(rs + [row])
      case _ => None
  }

  /** Reads a whole file: the header, the record lines, and nothing after the last newline. */
  function ParseFile(text: string): (r: Option<seq<Row>>)
    ensures r.Some? ==> |Fields.Split(text, '\n')| == |r.value| + 2
  {
    var ls := Fields.Split(text, '\n');
    if |ls| >= 2 && ls[0] == HeaderLine && ls[|ls| - 1] == [] then ParseLines(ls[1..|ls| - 1])
    else None
  }

  lemma {:induction false} ParseLinesRoundTrip(rows: seq<Row>)
    requires forall i :: 0 <= i < |rows| ==> Plain(rows[i].mentioned)
    ensures ParseLines(Lines(rows)) == Some(rows)
  {
    if rows != [] {
      var init, last := rows[..|rows| - 1], rows[|rows| - 1];
      assert rows == init + [last];
      var ls := Lines(rows);
      assert ls[..|ls| - 1] == Lines(init);
      assert ls[|ls| - 1] == FormatRow(last);
      ParseLinesRoundTrip(init);
      RowRoundTrip(last);
      assert ParseLines(ls[..|ls| - 1]) == Some(init);
      assert ParseRow(ls[|ls| - 1]) == Some(last);
    }
  }

  lemma HeaderHasNoNewline()
    ensures '\n' !in HeaderLine
  {
  }

  lemma NoNewlineInLines(rows: seq<Row>)
    requires forall i :: 0 <= i < |rows| ==> '\n' !in rows[i].mentioned
    ensures forall i :: 0 <= i < |rows| ==> '\n' !in Lines(rows)[i]
  {
  }

  /** Splitting the file at newlines gives the header, the record lines and an empty tail. */
  lemma SplitFileText(rows: seq<Row>)
    requires forall i :: 0 <= i < |rows| ==> '\n' !in rows[i].mentioned
    ensures Fields.Split(FileText(rows), '\n') == [HeaderLine] + Lines(rows) + [[]]
  {
    var fs := [HeaderLine] + Lines(rows);
    NoNewlineInLines(rows);
    HeaderHasNoNewline();
    assert forall i :: 0 <= i < |fs| ==> '\n' !in fs[i] by {
      forall i | 0 <= i < |fs| ensures '\n' !in fs[i] {
        if i > 0 {
          assert fs[i] == Lines(rows)[i - 1];
        }
      }
    }
    Fields.TerminatedAsJoin(HeaderLine, Lines(rows), '\n');
    var j := Fields.Join(fs, '\n');
    Fields.SplitJoin(fs, '\n');
    Fields.SplitAtSeparator(j, [], '\n');
    assert j + "\n" == j + ['\n'] + [];
  }

  /**
   * Reading the written file back gives exactly the rows written, in order,
   * provided no `mentioned` value contains a comma or a newline.
   */
  lemma FileRoundTrip(rows: seq<Row>)
    requires forall i :: 0 <= i < |rows| ==> Plain(rows[i].mentioned)
    ensures ParseFile(FileText(rows)) == Some(rows)
  {
    SplitFileText(rows);
    var ls := Fields.Split(FileText(rows), '\n');
    assert ls[1..|ls| - 1] == Lines(rows);
    ParseLinesRoundTrip(rows);
  }
}
