/**
 * `create_file_with_mentions` (the text it writes) and `record_mentions`
 * (fetch, filter, extract, count, write) composed over an already fetched
 * list of statuses.
 */
module Pipeline {
  import opened Options
  import opened Tweets
  import opened Mentions
  import Report
  import Fields

  /**
   * The text `create_file_with_mentions` writes: the header line, then
   * `str(mention)` and a newline for each record, in list order.
   */
  method CreateFileWithMentions(ms: seq<Mention>) returns (content: string)
    ensures content == Report.FileText(Rows(ms))
  {
    ghost var lines := Report.Lines(Rows(ms));
    var header := Report.HeaderLine + "\n";
    content := header;
    for i := 0 to |ms|
      invariant content == header + Fields.Terminated(lines[..i], '\n')
    {
      var line := ms[i].ToString();
      assert line == lines[i];
      Fields.TerminatedPrefix(header, lines, i, '\n');
      content := content + line + "\n";
    }
    assert lines[..|ms|] == lines;
  }

  /** `record_mentions` over the statuses the timeline yielded: the content of the report file. */
  method RecordMentions(statuses: seq<Status>) returns (content: string)
    ensures content == Report.FileText(Annotate(Extracted(Kept(statuses))))
  {
    var tweets := GrabTweets(statuses);
    var mentions := InitMentions(tweets);
    content := CreateFileWithMentions(mentions);
  }

  /** Every entity of a kept tweet is a user mention or hashtag of some retained status. */
  lemma {:induction false} ExtractedFromStatuses(ss: seq<Status>, k: nat)
    requires k < |Extracted(Kept(ss))|
    ensures exists s :: s in ss && Retained(s) &&
              (Extracted(Kept(ss))[k].mentioned in s.userMentions ||
               Extracted(Kept(ss))[k].mentioned in s.hashtags)
  {
    var ts := Kept(ss);
    ExtractedProvenance(ts, k);
    var i :| 0 <= i < |ts| && Extracted(ts)[k].when == ts[i].createdAt &&
              (Extracted(ts)[k].mentioned in ts[i].screenNames ||
               Extracted(ts)[k].mentioned in ts[i].hashtags);
    KeptOnlyRetained(ss, ts[i]);
  }

  /**
   * End to end: when no screen name or hashtag of the retained statuses holds a
   * comma or a newline, the written report reads back as exactly one row per
   * extracted record, and no row carries a count below 1.
   */
  lemma ReportReadsBack(ss: seq<Status>)
    requires forall s, x :: s in ss && Retained(s) && (x in s.userMentions || x in s.hashtags) ==> Report.Plain(x)
    ensures Report.ParseFile(Report.FileText(Annotate(Extracted(Kept(ss))))) == Some(Annotate(Extracted(Kept(ss))))
    ensures forall r :: r in Annotate(Extracted(Kept(ss))) ==> r.times >= 1
  {
    var occ := Extracted(Kept(ss));
    var rows := Annotate(occ);
    forall i | 0 <= i < |rows| ensures Report.Plain(rows[i].mentioned) {
      ExtractedFromStatuses(ss, i);
    }
    Report.FileRoundTrip(rows);
    AnnotateAtLeastOne(occ);
  }

  /**
   * The two-month example run through the whole pipeline: the January 20 and
   * February statuses have no hashtag, so the filter drops them and only the
   * first status is counted.
   */
  lemma FilteredScenario()
    ensures var jan5, jan20, feb3 := Dates.Date(2024, 1, 5), Dates.Date(2024, 1, 20), Dates.Date(2024, 2, 3);
            Annotate(Extracted(Kept([Status(jan5, ["alice"], ["#x"]), Status(jan20, ["alice"], []), Status(feb3, ["alice"], [])])))
            == [Report.Row("alice", jan5, 1), Report.Row("#x", jan5, 1)]
  {
    var jan5 := Dates.Date(2024, 1, 5);
    ScenarioKept();
    var t := Tweet(jan5, ["alice"], ["#x"]);
    var occ := [Occurrence("alice", jan5), Occurrence("#x", jan5)];
    assert Extracted([t]) == occ by {
      assert [t][..0] == [];
      assert TweetOccurrences(t) == occ;
    }
    assert occ[..1] == [occ[0]] && [occ[0]][..0] == [];
    assert CountInMonth(occ, "alice", Dates.Date(2024, 1, 1)) == 1;
    assert CountInMonth(occ, "#x", Dates.Date(2024, 1, 1)) == 1;
  }

  lemma ScenarioKept()
    ensures var jan5, jan20, feb3 := Dates.Date(2024, 1, 5), Dates.Date(2024, 1, 20), Dates.Date(2024, 2, 3);
            Kept([Status(jan5, ["alice"], ["#x"]), Status(jan20, ["alice"], []), Status(feb3, ["alice"], [])])
            == [Tweet(jan5, ["alice"], ["#x"])]
  {
    var jan5, jan20, feb3 := Dates.Date(2024, 1, 5), Dates.Date(2024, 1, 20), Dates.Date(2024, 2, 3);
    var s1, s2, s3 := Status(jan5, ["alice"], ["#x"]), Status(jan20, ["alice"], []), Status(feb3, ["alice"], []);
    var ss := [s1, s2, s3];
    assert ToTweet(s1) == Tweet(jan5, ["alice"], ["#x"]) by {
      assert ["alice"][..0] == [] && ["#x"][..0] == [];
    }
    assert ss[..2] == [s1, s2] && [s1, s2][..1] == [s1] && [s1][..0] == [];
    assert Kept([s1]) == [ToTweet(s1)];
    assert Kept([s1, s2]) == [ToTweet(s1)];
  }
}
