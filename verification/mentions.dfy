/**
 * The mention records of `init_mentions`: one per screen name and one per
 * hashtag of every kept tweet, each annotated in place with how many records
 * of the same calendar month name the same entity.
 */
module Mentions {
  import opened Dates
  import opened Tweets
  import Report
  import Decimal

  /** The immutable part of a mention record: the entity named and the tweet's date. */
  datatype Occurrence = Occurrence(mentioned: string, when: Date)

  // ---------------------------------------------------------------------------
  // Specification on values
  // ---------------------------------------------------------------------------

  /** One occurrence per name, all stamped with the same date. */
  function Tagged(names: seq<string>, when: Date): (occ: seq<Occurrence>)
    ensures |occ| == |names|
    ensures forall k :: 0 <= k < |names| ==> occ[k] == Occurrence(names[k], when)
  {
    seq(|names|, k requires 0 <= k < |names| => Occurrence(names[k], when))
  }

  /** The records of one tweet: its screen names first, then its hashtags, all with its date. */
  function TweetOccurrences(t: Tweet): (occ: seq<Occurrence>)
    ensures |occ| == |t.screenNames| + |t.hashtags|
    ensures forall k :: 0 <= k < |t.screenNames| ==>
              occ[k] == Occurrence(t.screenNames[k], t.createdAt)
    ensures forall k :: 0 <= k < |t.hashtags| ==>
              occ[|t.screenNames| + k] == Occurrence(t.hashtags[k], t.createdAt)
  {
    Tagged(t.screenNames, t.createdAt) + Tagged(t.hashtags, t.createdAt)
  }

  /** The number of screen names plus hashtags over all tweets. */
  function EntityCount(ts: seq<Tweet>): nat {
    if ts == [] then 0
    else EntityCount(ts[..|ts| - 1]) + |ts[|ts| - 1].screenNames| + |ts[|ts| - 1].hashtags|
  }

  /** The flattened records of all tweets, tweet by tweet in order. */
  function Extracted(ts: seq<Tweet>): (occ: seq<Occurrence>)
    ensures |occ| == EntityCount(ts)
  {
    if ts == [] then []
    else Extracted(ts[..|ts| - 1]) + TweetOccurrences(ts[|ts| - 1])
  }

  /** The occurrence names `name` within the month `key`. */
  predicate Matches(o: Occurrence, name: string, key: Date) {
    o.mentioned == name && FirstOfMonth(o.when) == key
  }

  /** The number of occurrences that name `name` and fall in the month `key`. */
  function CountInMonth(occ: seq<Occurrence>, name: string, key: Date): (n: nat)
    ensures n <= |occ|
  {
    if occ == [] then 0
    else CountInMonth(occ[..|occ| - 1], name, key) + if Matches(occ[|occ| - 1], name, key) then 1 else 0
  }

  /** Each occurrence with the count of its own entity in its own month. */
  function Annotate(occ: seq<Occurrence>): (rows: seq<Report.Row>)
    ensures |rows| == |occ|
    ensures forall i :: 0 <= i < |occ| ==>
              rows[i].mentioned == occ[i].mentioned && rows[i].when == occ[i].when
  {
    seq(|occ|, i requires 0 <= i < |occ| =>
      Report.Row(occ[i].mentioned, occ[i].when,
                 CountInMonth(occ, occ[i].mentioned, FirstOfMonth(occ[i].when))))
  }

  // ---------------------------------------------------------------------------
  // Properties of the specification
  // ---------------------------------------------------------------------------

  /** Flattening distributes over concatenation of tweet lists: tweet order is kept. */
  lemma {:induction false} ExtractedAppend(a: seq<Tweet>, b: seq<Tweet>)
    ensures Extracted(a + b) == Extracted(a) + Extracted(b)
  {
    if b != [] {
      var init := b[..|b| - 1];
      assert (a + b)[..|a + b| - 1] == a + init;
      ExtractedAppend(a, init);
    } else {
      assert a + b == a;
    }
  }

  lemma TweetOccurrencesProvenance(t: Tweet, j: nat)
    requires j < |TweetOccurrences(t)|
    ensures TweetOccurrences(t)[j].when == t.createdAt
    ensures TweetOccurrences(t)[j].mentioned in t.screenNames || TweetOccurrences(t)[j].mentioned in t.hashtags
  {
    var occ := TweetOccurrences(t);
    if j < |t.screenNames| {
      assert occ[j].mentioned == t.screenNames[j];
    } else {
      assert occ[j].mentioned == t.hashtags[j - |t.screenNames|];
    }
  }

  /** Every record carries the date of a tweet and one of that tweet's screen names or hashtags. */
  lemma {:induction false} ExtractedProvenance(ts: seq<Tweet>, k: nat)
    requires k < |Extracted(ts)|
    ensures exists i :: 0 <= i < |ts| && Extracted(ts)[k].when == ts[i].createdAt &&
              (Extracted(ts)[k].mentioned in ts[i].screenNames ||
               Extracted(ts)[k].mentioned in ts[i].hashtags)
  {
    var init := ts[..|ts| - 1];
    var e, n := Extracted(ts), |Extracted(init)|;
    assert e == Extracted(init) + TweetOccurrences(ts[|ts| - 1]);
    if k < n {
      ExtractedProvenance(init, k);
      var i :| 0 <= i < |init| && Extracted(init)[k].when == init[i].createdAt &&
                (Extracted(init)[k].mentioned in init[i].screenNames ||
                 Extracted(init)[k].mentioned in init[i].hashtags);
      assert e[k] == Extracted(init)[k] && ts[i] == init[i];
    } else {
      TweetOccurrencesProvenance(ts[|ts| - 1], k - n);
      assert e[k] == TweetOccurrences(ts[|ts| - 1])[k - n];
    }
  }

  /** The count is the size of the set of positions naming the entity within the month. */
  lemma {:induction false} CountInMonthIsCardinality(occ: seq<Occurrence>, name: string, key: Date)
    ensures CountInMonth(occ, name, key) == |set j | 0 <= j < |occ| && Matches(occ[j], name, key)|
  {
    var s := set j | 0 <= j < |occ| && Matches(occ[j], name, key);
    if occ == [] {
      assert s == {};
    } else {
      var n := |occ| - 1;
      var init := occ[..n];
      CountInMonthIsCardinality(init, name, key);
      var s0 := set j | 0 <= j < n && Matches(init[j], name, key);
      assert s - {n} == s0 by {
        forall j | 0 <= j < n ensures init[j] == occ[j] { }
      }
      if Matches(occ[n], name, key) {
        assert s == s0 + {n};
      } else {
        assert s == s0;
      }
    }
  }

  /** A record that names the entity within the month contributes to the count. */
  lemma {:induction false} CountInMonthPositive(occ: seq<Occurrence>, k: nat)
    requires k < |occ|
    ensures CountInMonth(occ, occ[k].mentioned, FirstOfMonth(occ[k].when)) >= 1
  {
    if k < |occ| - 1 {
      var init := occ[..|occ| - 1];
      assert init[k] == occ[k];
      CountInMonthPositive(init, k);
    }
  }

  /** Every annotated record counts at least itself, so the default 0 never survives. */
  lemma AnnotateAtLeastOne(occ: seq<Occurrence>)
    ensures forall i :: 0 <= i < |occ| ==> Annotate(occ)[i].times >= 1
  {
    forall i | 0 <= i < |occ| ensures Annotate(occ)[i].times >= 1 {
      CountInMonthPositive(occ, i);
    }
  }

  /**
   * Two records with the same entity in the same month get the same count,
   * and that count includes both of them.
   */
  lemma AnnotateSameEntitySameMonth(occ: seq<Occurrence>, i: nat, j: nat)
    requires i < |occ| && j < |occ|
    requires occ[i].mentioned == occ[j].mentioned
    requires FirstOfMonth(occ[i].when) == FirstOfMonth(occ[j].when)
    ensures Annotate(occ)[i].times == Annotate(occ)[j].times
    ensures Annotate(occ)[i].times >= if i == j then 1 else 2
  {
    var name, key := occ[i].mentioned, FirstOfMonth(occ[i].when);
    CountInMonthIsCardinality(occ, name, key);
    var s := set k | 0 <= k < |occ| && Matches(occ[k], name, key);
    assert i in s && j in s;
    if i != j {
      assert s == {i, j} + (s - {i, j});
    }
  }

  lemma {:induction false} CountInMonthAppend(a: seq<Occurrence>, b: seq<Occurrence>, name: string, key: Date)
    ensures CountInMonth(a + b, name, key) == CountInMonth(a, name, key) + CountInMonth(b, name, key)
  {
    if b == [] {
      assert a + b == a;
    } else {
      var init := b[..|b| - 1];
      assert (a + b)[..|a + b| - 1] == a + init;
      CountInMonthAppend(a, init, name, key);
    }
  }

  lemma {:induction false} CountInOtherMonths(b: seq<Occurrence>, name: string, key: Date)
    requires forall j :: 0 <= j < |b| ==> FirstOfMonth(b[j].when) != key
    ensures CountInMonth(b, name, key) == 0
  {
    if b != [] {
      CountInOtherMonths(b[..|b| - 1], name, key);
    }
  }

  /**
   * Month isolation: when no record of `b` shares a month with a record of
   * `a`, annotating them together is annotating each alone.
   */
  lemma MonthIsolation(a: seq<Occurrence>, b: seq<Occurrence>)
    requires forall i, j :: 0 <= i < |a| && 0 <= j < |b| ==>
               FirstOfMonth(a[i].when) != FirstOfMonth(b[j].when)
    ensures Annotate(a + b) == Annotate(a) + Annotate(b)
  {
    var ab := a + b;
    forall i | 0 <= i < |ab| ensures Annotate(ab)[i] == (Annotate(a) + Annotate(b))[i] {
      var name, key := ab[i].mentioned, FirstOfMonth(ab[i].when);
      CountInMonthAppend(a, b, name, key);
      if i < |a| {
        assert ab[i] == a[i];
        CountInOtherMonths(b, name, key);
      } else {
        assert ab[i] == b[i - |a|];
        forall j | 0 <= j < |a| ensures FirstOfMonth(a[j].when) != key {
          assert FirstOfMonth(a[j].when) != FirstOfMonth(b[i - |a|].when);
        }
        CountInOtherMonths(a, name, key);
      }
    }
  }

  lemma {:induction false} CountInMonthIgnoresDay(occ: seq<Occurrence>, occ': seq<Occurrence>, name: string, key: Date)
    requires |occ| == |occ'|
    requires forall j :: 0 <= j < |occ| ==>
               occ[j].mentioned == occ'[j].mentioned && FirstOfMonth(occ[j].when) == FirstOfMonth(occ'[j].when)
    ensures CountInMonth(occ, name, key) == CountInMonth(occ', name, key)
  {
    if occ != [] {
      CountInMonthIgnoresDay(occ[..|occ| - 1], occ'[..|occ'| - 1], name, key);
    }
  }

  /** The day of the month plays no part: moving records within their month changes no count. */
  lemma AnnotateIgnoresDay(occ: seq<Occurrence>, occ': seq<Occurrence>)
    requires |occ| == |occ'|
    requires forall j :: 0 <= j < |occ| ==>
               occ[j].mentioned == occ'[j].mentioned && FirstOfMonth(occ[j].when) == FirstOfMonth(occ'[j].when)
    ensures forall i :: 0 <= i < |occ| ==> Annotate(occ)[i].times == Annotate(occ')[i].times
  {
    forall i | 0 <= i < |occ| ensures Annotate(occ)[i].times == Annotate(occ')[i].times {
      CountInMonthIgnoresDay(occ, occ', occ[i].mentioned, FirstOfMonth(occ[i].when));
    }
  }

  /**
   * Two January tweets and one February tweet naming "alice": the January
   * records count 2, the February one 1, and "#x" counts 1.
   */
  lemma TwoMonthScenario()
    ensures var jan5, jan20, feb3 := Date(2024, 1, 5), Date(2024, 1, 20), Date(2024, 2, 3);
            Annotate(Extracted([Tweet(jan5, ["alice"], ["#x"]), Tweet(jan20, ["alice"], []), Tweet(feb3, ["alice"], [])]))
            == [Report.Row("alice", jan5, 2), Report.Row("#x", jan5, 1),
                Report.Row("alice", jan20, 2), Report.Row("alice", feb3, 1)]
  {
    var jan5, jan20, feb3 := Date(2024, 1, 5), Date(2024, 1, 20), Date(2024, 2, 3);
    var o1, o2, o3, o4 := Occurrence("alice", jan5), Occurrence("#x", jan5), Occurrence("alice", jan20), Occurrence("alice", feb3);
    ScenarioExtraction();
    var jan, feb := Date(2024, 1, 1), Date(2024, 2, 1);
    CountInFour(o1, o2, o3, o4, "alice", jan);
    CountInFour(o1, o2, o3, o4, "#x", jan);
    CountInFour(o1, o2, o3, o4, "alice", feb);
    AnnotateFour(o1, o2, o3, o4);
  }

  lemma ScenarioExtraction()
    ensures var jan5, jan20, feb3 := Date(2024, 1, 5), Date(2024, 1, 20), Date(2024, 2, 3);
            Extracted([Tweet(jan5, ["alice"], ["#x"]), Tweet(jan20, ["alice"], []), Tweet(feb3, ["alice"], [])])
            == [Occurrence("alice", jan5), Occurrence("#x", jan5), Occurrence("alice", jan20), Occurrence("alice", feb3)]
  {
    var jan5, jan20, feb3 := Date(2024, 1, 5), Date(2024, 1, 20), Date(2024, 2, 3);
    var t1, t2, t3 := Tweet(jan5, ["alice"], ["#x"]), Tweet(jan20, ["alice"], []), Tweet(feb3, ["alice"], []);
    var ts := [t1, t2, t3];
    var o1, o2, o3, o4 := Occurrence("alice", jan5), Occurrence("#x", jan5), Occurrence("alice", jan20), Occurrence("alice", feb3);
    assert TweetOccurrences(t1) == [o1, o2];
    assert TweetOccurrences(t2) == [o3];
    assert TweetOccurrences(t3) == [o4];
    assert ts[..2] == [t1, t2] && [t1, t2][..1] == [t1] && [t1][..0] == [];
    assert Extracted([t1]) == [o1, o2];
    assert Extracted([t1, t2]) == [o1, o2, o3];
  }

  lemma AnnotateFour(a: Occurrence, b: Occurrence, c: Occurrence, d: Occurrence)
    ensures var occ := [a, b, c, d];
            Annotate(occ) == [
              Report.Row(a.mentioned, a.when, CountInMonth(occ, a.mentioned, FirstOfMonth(a.when))),
              Report.Row(b.mentioned, b.when, CountInMonth(occ, b.mentioned, FirstOfMonth(b.when))),
              Report.Row(c.mentioned, c.when, CountInMonth(occ, c.mentioned, FirstOfMonth(c.when))),
              Report.Row(d.mentioned, d.when, CountInMonth(occ, d.mentioned, FirstOfMonth(d.when)))]
  {
  }

  lemma CountInFour(a: Occurrence, b: Occurrence, c: Occurrence, d: Occurrence, name: string, key: Date)
    ensures CountInMonth([a, b, c, d], name, key) ==
            (if Matches(a, name, key) then 1 else 0) + (if Matches(b, name, key) then 1 else 0) +
            (if Matches(c, name, key) then 1 else 0) + (if Matches(d, name, key) then 1 else 0)
  {
    assert [a, b, c, d][..3] == [a, b, c] && [a, b, c][..2] == [a, b] && [a, b][..1] == [a] && [a][..0] == [];
    var n1 := if Matches(a, name, key) then 1 else 0;
    var n2 := n1 + if Matches(b, name, key) then 1 else 0;
    var n3 := n2 + if Matches(c, name, key) then 1 else 0;
    assert CountInMonth([a], name, key) == n1;
    assert CountInMonth([a, b], name, key) == n2;
    assert CountInMonth([a, b, c], name, key) == n3;
  }

  // ---------------------------------------------------------------------------
  // The mutable record and the in-place computation
  // ---------------------------------------------------------------------------

  /** `Mention`: the entity and date are set once; `mentionTimes` is updated in place. */
  class Mention {
    const mentioned: string
    const when: Date
    var mentionTimes: int

    constructor(mentioned: string, when: Date, mentionTimes: int := 0)
      ensures this.mentioned == mentioned && this.when == when && this.mentionTimes == mentionTimes
    {
      this.mentioned := mentioned;
      this.when := when;
      this.mentionTimes := mentionTimes;
    }

    function Snapshot(): Report.Row
      reads this
    {
      Report.Row(mentioned, when, mentionTimes)
    }

    /**
     * `str(mention)`: the entity, the date as YYYY-MM-DD and the count, joined
     * by commas; it reads back as the same three values when the entity
     * contains no comma or newline.
     */
    function ToString(): (s: string)
      reads this
      ensures s == mentioned + [','] + Dates.Format(when) + [','] + Decimal.IntToString(mentionTimes)
      ensures Report.Plain(mentioned) ==>
                Report.ParseRow(s) == Options.Some(Report.Row(mentioned, when, mentionTimes))
    {
      Report.RowRoundTrip(Snapshot());
      Report.FormatRow(Snapshot())
    }
  }

  /** The entities and dates of a list of mentions (both fixed at construction). */
  function Occurrences(ms: seq<Mention>): (occ: seq<Occurrence>)
    ensures |occ| == |ms|
    ensures forall i :: 0 <= i < |ms| ==> occ[i] == Occurrence(ms[i].mentioned, ms[i].when)
  {
    seq(|ms|, i requires 0 <= i < |ms| => Occurrence(ms[i].mentioned, ms[i].when))
  }

  /** The current report rows of a list of mentions. */
  function Rows(ms: seq<Mention>): (rows: seq<Report.Row>)
    reads set m | m in ms
    ensures |rows| == |ms|
    ensures forall i :: 0 <= i < |ms| ==> rows[i] == ms[i].Snapshot()
  {
    seq(|ms|, i reads set m | m in ms requires 0 <= i < |ms| => ms[i].Snapshot())
  }

  /** `[m for m in ms if m.when.date().replace(day=1) == key]`. */
  function WithinMonth(ms: seq<Mention>, key: Date): (group: seq<Mention>)
    ensures forall i :: 0 <= i < |group| ==> group[i] in ms && FirstOfMonth(group[i].when) == key
    ensures forall i :: 0 <= i < |ms| && FirstOfMonth(ms[i].when) == key ==> ms[i] in group
  {
    if ms == [] then []
    else
      var last := ms[|ms| - 1];
      WithinMonth(ms[..|ms| - 1], key) + if FirstOfMonth(last.when) == key then [last] else []
  }

  /** `len([x for x in group if x.mentioned == name])`. */
  function CountNamed(group: seq<Mention>, name: string): (n: nat)
    ensures n <= |group|
  {
    if group == [] then 0
    else CountNamed(group[..|group| - 1], name) + if group[|group| - 1].mentioned == name then 1 else 0
  }

  lemma {:induction false} CountNamedAppend(a: seq<Mention>, b: seq<Mention>, name: string)
    ensures CountNamed(a + b, name) == CountNamed(a, name) + CountNamed(b, name)
  {
    if b == [] {
      assert a + b == a;
    } else {
      var init := b[..|b| - 1];
      assert (a + b)[..|a + b| - 1] == a + init;
      CountNamedAppend(a, init, name);
    }
  }

  /** Counting within the month group is counting over all records restricted to that month. */
  lemma {:induction false} WithinMonthCount(ms: seq<Mention>, key: Date, name: string)
    ensures CountNamed(WithinMonth(ms, key), name) == CountInMonth(Occurrences(ms), name, key)
  {
    if ms != [] {
      var init, last := ms[..|ms| - 1], ms[|ms| - 1];
      WithinMonthCount(init, key, name);
      var tail := if FirstOfMonth(last.when) == key then [last] else [];
      assert WithinMonth(ms, key) == WithinMonth(init, key) + tail;
      CountNamedAppend(WithinMonth(init, key), tail, name);
      var occ := Occurrences(ms);
      assert occ[..|occ| - 1] == Occurrences(init);
      assert occ[|occ| - 1] == Occurrence(last.mentioned, last.when);
      assert CountNamed(tail, name) == if Matches(occ[|occ| - 1], name, key) then 1 else 0;
    }
  }

  lemma ExtractedPrefix(ts: seq<Tweet>, i: nat)
    requires i < |ts|
    ensures Extracted(ts[..i + 1]) == Extracted(ts[..i]) + TweetOccurrences(ts[i])
  {
    assert ts[..i + 1][..i] == ts[..i];
  }

  lemma TaggedPrefix(names: seq<string>, k: nat, when: Date)
    requires k < |names|
    ensures Tagged(names[..k + 1], when) == Tagged(names[..k], when) + [Occurrence(names[k], when)]
  {
  }

  lemma OccurrencesAppend(ms: seq<Mention>, m: Mention)
    ensures Occurrences(ms + [m]) == Occurrences(ms) + [Occurrence(m.mentioned, m.when)]
  {
  }

  /** One inner loop of the first pass: a new record per name, all with the tweet's date. */
  method AppendMentions(ms: seq<Mention>, names: seq<string>, when: Date) returns (ms': seq<Mention>)
    requires forall i :: 0 <= i < |ms| ==> ms[i].mentionTimes == 0
    ensures forall i :: 0 <= i < |ms'| ==> (i < |ms| || fresh(ms'[i])) && ms'[i].mentionTimes == 0
    ensures Occurrences(ms') == Occurrences(ms) + Tagged(names, when)
    ensures |ms'| == |ms| + |names| && forall i :: 0 <= i < |ms| ==> ms'[i] == ms[i]
  {
    ms' := ms;
    for k := 0 to |names|
      invariant forall i :: 0 <= i < |ms'| ==> (i < |ms| || fresh(ms'[i])) && ms'[i].mentionTimes == 0
      invariant Occurrences(ms') == Occurrences(ms) + Tagged(names[..k], when)
      invariant |ms'| == |ms| + k && forall i :: 0 <= i < |ms| ==> ms'[i] == ms[i]
    {
      var m := new Mention(names[k], when);
      TaggedPrefix(names, k, when);
      OccurrencesAppend(ms', m);
      ms' := ms' + [m];
    }
    assert names[..|names|] == names;
  }

  lemma SeqAssoc<T>(a: seq<T>, b: seq<T>, c: seq<T>)
    ensures a + b + c == a + (b + c)
  {
  }

  /** One iteration of the first pass: the tweet's screen names, then its hashtags. */
  method AppendTweet(ms: seq<Mention>, tweet: Tweet) returns (ms': seq<Mention>)
    requires forall i :: 0 <= i < |ms| ==> ms[i].mentionTimes == 0
    ensures forall i :: 0 <= i < |ms'| ==> (i < |ms| || fresh(ms'[i])) && ms'[i].mentionTimes == 0
    ensures Occurrences(ms') == Occurrences(ms) + TweetOccurrences(tweet)
    ensures |ms'| >= |ms| && forall i :: 0 <= i < |ms| ==> ms'[i] == ms[i]
  {
    var ms1 := AppendMentions(ms, tweet.screenNames, tweet.createdAt);
    ms' := AppendMentions(ms1, tweet.hashtags, tweet.createdAt);
    SeqAssoc(Occurrences(ms), Tagged(tweet.screenNames, tweet.createdAt), Tagged(tweet.hashtags, tweet.createdAt));
    forall i | 0 <= i < |ms'| ensures (i < |ms| || fresh(ms'[i])) && ms'[i].mentionTimes == 0 {
      if i < |ms1| {
        assert ms'[i] == ms1[i];
      }
    }
  }

  /**
   * The first pass of `init_mentions`: for each tweet, a new record per screen
   * name, then one per hashtag, appended in order with the default count 0.
   */
  method ExtractMentions(tweets: seq<Tweet>) returns (ms: seq<Mention>)
    ensures forall i :: 0 <= i < |ms| ==> fresh(ms[i]) && ms[i].mentionTimes == 0
    ensures Occurrences(ms) == Extracted(tweets)
  {
    ms := [];
    for i := 0 to |tweets|
      invariant forall i :: 0 <= i < |ms| ==> fresh(ms[i]) && ms[i].mentionTimes == 0
      invariant Occurrences(ms) == Extracted(tweets[..i])
    {
      var next := AppendTweet(ms, tweets[i]);
      ExtractedPrefix(tweets, i);
      forall j | 0 <= j < |next| ensures fresh(next[j]) && next[j].mentionTimes == 0 {
        if j < |ms| {
          assert next[j] == ms[j];
        }
      }
      ms := next;
    }
    assert tweets[..|tweets|] == tweets;
  }

  /** The record holds the number of records of `occ` naming its entity in its month. */
  ghost predicate Counted(m: Mention, occ: seq<Occurrence>)
    reads m
  {
    m.mentionTimes == CountInMonth(occ, m.mentioned, FirstOfMonth(m.when))
  }

  /**
   * One key of the second pass of `init_mentions`: every record of month
   * `key` is given the number of records of that month naming its entity;
   * the records of other months keep their counts.
   */
  method CountMonth(ms: seq<Mention>, key: Date)
    modifies set m | m in ms
    ensures forall i :: 0 <= i < |ms| && FirstOfMonth(ms[i].when) == key ==> Counted(ms[i], Occurrences(ms))
    ensures forall i :: 0 <= i < |ms| && FirstOfMonth(ms[i].when) != key ==> ms[i].mentionTimes == old(ms[i].mentionTimes)
  {
    ghost var occ := Occurrences(ms);
    var group := WithinMonth(ms, key);
    for k := 0 to |group|
      invariant forall j :: 0 <= j < k ==> Counted(group[j], occ)
      invariant forall i :: 0 <= i < |ms| && FirstOfMonth(ms[i].when) != key ==> ms[i].mentionTimes == old(ms[i].mentionTimes)
    {
      var mention := group[k];
      label Step:
      var count := CountNamed(group, mention.mentioned);
      WithinMonthCount(ms, key, mention.mentioned);
      assert count == CountInMonth(occ, mention.mentioned, FirstOfMonth(mention.when));
      mention.mentionTimes := count;
      forall j | 0 <= j < k + 1 ensures Counted(group[j], occ) {
        if group[j] != mention {
          assert Counted(group[j], occ) == old@Step(Counted(group[j], occ));
        }
      }
    }
    forall i | 0 <= i < |ms| && FirstOfMonth(ms[i].when) == key ensures Counted(ms[i], occ) {
      var j :| 0 <= j < |group| && group[j] == ms[i];
    }
  }

  /**
   * The second pass of `init_mentions`: for every month key present, every
   * record of that month is given the number of records of that month that
   * name the same entity. Keys are taken from a set, in no fixed order.
   */
  method CountSameMonth(ms: seq<Mention>)
    modifies set m | m in ms
    ensures forall i :: 0 <= i < |ms| ==> Counted(ms[i], Occurrences(ms))
  {
    ghost var occ := Occurrences(ms);
    var keys := set m | m in ms :: FirstOfMonth(m.when);
    ghost var done: set<Date> := {};
    while keys != {}
      invariant keys !! done
      invariant forall i :: 0 <= i < |ms| ==> FirstOfMonth(ms[i].when) in keys + done
      invariant forall i :: 0 <= i < |ms| && FirstOfMonth(ms[i].when) in done ==> Counted(ms[i], occ)
      decreases keys
    {
      var key :| key in keys;
      CountMonth(ms, key);
      keys := keys - {key};
      done := done + {key};
    }
  }

  /**
   * `init_mentions`: the new records, in extraction order, each carrying the
   * count of its entity in its month.
   */
  method InitMentions(tweets: seq<Tweet>) returns (ms: seq<Mention>)
    ensures forall m :: m in ms ==> fresh(m)
    ensures Rows(ms) == Annotate(Extracted(tweets))
  {
    ms := ExtractMentions(tweets);
    CountSameMonth(ms);
    ghost var occ := Occurrences(ms);
    forall i | 0 <= i < |ms| ensures Rows(ms)[i] == Annotate(occ)[i] {
      assert Counted(ms[i], occ);
    }
  }
}
