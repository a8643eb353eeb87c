/**
 * The statuses fetched from an account's timeline and the filter that keeps
 * only those with at least one user mention and at least one hashtag
 * (`grab_tweets_with_mentions`).
 */
module Tweets {
  import opened Dates

  /** A fetched status: creation date, the `screen_name` of each user mention, the `text` of each hashtag. */
  datatype Status = Status(createdAt: Date, userMentions: seq<string>, hashtags: seq<string>)

  /** The record kept for a retained status; `ToTweet` builds both name lists duplicate-free, like the source's sets. */
  datatype Tweet = Tweet(createdAt: Date, screenNames: seq<string>, hashtags: seq<string>)

  /** The retain condition: a status is skipped if it lacks user mentions OR lacks hashtags. */
  predicate Retained(s: Status)
    ensures Retained(s) <==> s.userMentions != [] && s.hashtags != []
  {
    !(|s.userMentions| < 1 || |s.hashtags| < 1)
  }

  predicate Distinct(xs: seq<string>) {
    forall i, j :: 0 <= i < j < |xs| ==> xs[i] != xs[j]
  }

  /** `set(xs)` listed in first-occurrence order: same members, no duplicates. */
  function Dedup(xs: seq<string>): (r: seq<string>)
    ensures forall x :: x in r <==> x in xs
    ensures Distinct(r)
    ensures |r| <= |xs|
  {
    if xs == [] then []
    else
      var r := Dedup(xs[..|xs| - 1]);
      if xs[|xs| - 1] in r then r else r + [xs[|xs| - 1]]
  }

  /** A duplicate-free list has as many elements as its set of members. */
  lemma {:induction false} DistinctCardinality(xs: seq<string>)
    requires Distinct(xs)
    ensures |set x | x in xs| == |xs|
  {
    if xs != [] {
      var init := xs[..|xs| - 1];
      DistinctCardinality(init);
      assert (set x | x in xs) == (set x | x in init) + {xs[|xs| - 1]};
      assert xs[|xs| - 1] !in (set x | x in init);
    }
  }

  /** Deduplication yields exactly as many names as the Python set holds. */
  lemma DedupCardinality(xs: seq<string>)
    ensures |Dedup(xs)| == |set x | x in xs|
  {
    var r := Dedup(xs);
    DistinctCardinality(r);
    assert (set x | x in r) == (set x | x in xs);
  }

  /** The tweet record built from a retained status. */
  function ToTweet(s: Status): (t: Tweet)
    ensures t.createdAt == s.createdAt
    ensures forall x :: x in t.screenNames <==> x in s.userMentions
    ensures forall x :: x in t.hashtags <==> x in s.hashtags
    ensures Distinct(t.screenNames) && Distinct(t.hashtags)
  {
    Tweet(s.createdAt, Dedup(s.userMentions), Dedup(s.hashtags))
  }

  /** The tweets kept from a sequence of statuses, in fetch order. */
  function Kept(ss: seq<Status>): (ts: seq<Tweet>)
    ensures |ts| <= |ss|
  {
    if ss == [] then []
    else
      var last := ss[|ss| - 1];
      Kept(ss[..|ss| - 1]) + if Retained(last) then [ToTweet(last)] else []
  }

  /** A single status yields its tweet when retained, and nothing otherwise. */
  lemma KeptSingle(s: Status)
    ensures Kept([s]) == if Retained(s) then [ToTweet(s)] else []
  {
    assert [s][..0] == [];
  }

  /** Filtering distributes over concatenation: kept tweets stay in fetch order, one per retained status. */
  lemma {:induction false} KeptAppend(a: seq<Status>, b: seq<Status>)
    ensures Kept(a + b) == Kept(a) + Kept(b)
  {
    if b == [] {
      assert a + b == a;
    } else {
      var init := b[..|b| - 1];
      assert (a + b)[..|a + b| - 1] == a + init;
      KeptAppend(a, init);
    }
  }

  /** Every kept tweet comes from a retained status, so it has a mention and a hashtag. */
  lemma {:induction false} KeptOnlyRetained(ss: seq<Status>, t: Tweet)
    requires t in Kept(ss)
    ensures exists s :: s in ss && Retained(s) && t == ToTweet(s)
    ensures |t.screenNames| >= 1 && |t.hashtags| >= 1
  {
    var init, last := ss[..|ss| - 1], ss[|ss| - 1];
    if t in Kept(init) {
      KeptOnlyRetained(init, t);
      var s :| s in init && Retained(s) && t == ToTweet(s);
      assert s in ss;
    } else {
      assert Retained(last) && t == ToTweet(last);
      assert last.userMentions[0] in t.screenNames;
      assert last.hashtags[0] in t.hashtags;
    }
  }

  /** Every retained status is kept; statuses with no mention or no hashtag never are. */
  lemma {:induction false} KeptAllRetained(ss: seq<Status>, s: Status)
    requires s in ss
    ensures Retained(s) ==> ToTweet(s) in Kept(ss)
  {
    var init, last := ss[..|ss| - 1], ss[|ss| - 1];
    if s != last {
      assert s in init by {
        assert ss == init + [last];
      }
      KeptAllRetained(init, s);
    }
  }

  /**
   * The loop of `grab_tweets_with_mentions` over the statuses the timeline
   * cursor yields: skip a status without mentions or hashtags, append the
   * others in order.
   */
  method GrabTweets(statuses: seq<Status>) returns (tweets: seq<Tweet>)
    ensures tweets == Kept(statuses)
  {
    tweets := [];
    for i := 0 to |statuses|
      invariant tweets == Kept(statuses[..i])
    {
      var status := statuses[i];
      assert statuses[..i + 1][..i] == statuses[..i];
      if |status.userMentions| < 1 || |status.hashtags| < 1 {
        continue;
      }
      var tweet := Tweet(status.createdAt, Dedup(status.userMentions), Dedup(status.hashtags));
      tweets := tweets + [tweet];
    }
    assert statuses[..|statuses|] == statuses;
  }
}
