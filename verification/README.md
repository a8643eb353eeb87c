# BlueBird mention frequencies, modelled in Dafny

BlueBird reads an account's Twitter timeline and keeps only the statuses that
carry at least one user mention and at least one hashtag. It flattens every
kept status into `Mention` records, one per screen name and then one per
hashtag, each stamped with the status's creation date. Within each calendar
month it then sets every record's `mention_times` in place to the number of
records of that month naming the same entity. Finally it writes a CSV text:
the header `mentioned,when,times_same_month`, then one line
`mentioned,YYYY-MM-DD,count` per record.

The model follows `bluebird.py` part by part:

- `tweets.dfy`: a fetched `Status`, the retain condition, `set(...)` of names
  as `Dedup`, and the loop of `grab_tweets_with_mentions` as the method
  `GrabTweets`, proved equal to the function `Kept`.
- `mentions.dfy`:
  - the `Mention` class, with `mentionTimes` as its only mutable field;
  - `init_mentions` as the methods `ExtractMentions` (the first, appending
    pass) and `CountSameMonth` (the second pass, which updates objects in
    place), composed by `InitMentions`;
  - the value-level specification they are proved against: `Extracted`,
    `CountInMonth` and `Annotate`, with lemmas about it.
- `report.dfy`, `dates.dfy`, `decimal.dfy`, `fields.dfy`: the text of
  `str(mention)` and of the written file, with parsers. These exist only to
  state what the text determines: the file reads back as the rows it was
  written from.
- `pipeline.dfy`: `create_file_with_mentions` (the content it writes) and
  `record_mentions` over a list of statuses that has already been fetched.

The aggregation pass changes only `mention_times`. In the model, `mentioned`
and `when` are `const` fields and the list is an immutable `seq`, so length,
order, entities and dates are unchanged by construction. `CountSameMonth` can
write nothing but `mentionTimes`.

Take three posts naming `alice`: two in January 2024 (the first also tagged
`#x`) and one in February. Given to `init_mentions` directly, they yield
counts 2, 1, 2, 1 (`Mentions.TwoMonthScenario`). In the code, however, the filter
at `bluebird.py:40-41` drops the second and third posts, because they have no
hashtag. Through the whole pipeline only the first post is counted
(`Pipeline.FilteredScenario`). The model follows the code.

## Model

| member | source | states |
|---|---|---|
| Tweets.Retained | bluebird.py:40-41 | a status is kept exactly when its user-mention list and its hashtag list are both non-empty |
| Tweets.ToTweet | bluebird.py:42-46 | the tweet record keeps the status's date; its screen names and hashtags are duplicate-free lists of exactly the status's user mentions and hashtags |
| Tweets.KeptOnlyRetained | bluebird.py:40-47 | a kept tweet comes from a status with at least one user mention and at least one hashtag, and it holds at least one name of each kind |
| Tweets.KeptAllRetained | bluebird.py:40-47 | every status with a user mention and a hashtag is kept; with the lemma above, a status having only one kind is dropped |
| Tweets.Kept | bluebird.py:39-50 | the filter yields no more tweets than there were fetched statuses |
| Tweets.KeptSingle | bluebird.py:40-47 | one status yields its tweet record when it has a mention and a hashtag, and nothing otherwise |
| Tweets.KeptAppend | bluebird.py:39-47 | filtering distributes over concatenation, so kept tweets come one per retained status, in fetch order |
| Tweets.GrabTweets | bluebird.py:36-50 | the loop that skips or appends each status returns exactly the kept tweets, in fetch order |
| Tweets.Dedup | bluebird.py:44-45 | `set(...)` of names: the same members as the input, with no duplicates, and never longer |
| Tweets.DedupCardinality | bluebird.py:44-45 | the deduplicated list has exactly as many names as the Python set |
| Mentions.Tagged | bluebird.py:62-65 | one record per name, in order, all with the tweet's date |
| Mentions.TweetOccurrences | bluebird.py:61-65 | a tweet yields its screen names first, then its hashtags, \|screen_names\| + \|hashtags\| records in all, each with `created_at` |
| Mentions.Extracted | bluebird.py:59-65 | the flattened list has one record per screen name and hashtag over all tweets |
| Mentions.ExtractedAppend | bluebird.py:61-65 | flattening distributes over concatenation, so tweet order is preserved |
| Mentions.TweetOccurrencesProvenance | bluebird.py:62-65 | each record of a tweet has its date and one of its screen names or hashtags |
| Mentions.ExtractedProvenance | bluebird.py:61-65 | every flattened record has the date of some tweet and names one of that tweet's screen names or hashtags |
| Mentions.CountInMonth | bluebird.py:72-73 | the count never exceeds the number of records |
| Mentions.CountInMonthIsCardinality | bluebird.py:67-73 | the count is the size of the set of positions whose record names the entity and falls in the month |
| Mentions.Annotate | bluebird.py:67-73 | every record keeps its entity and date, in the same order and number |
| Mentions.CountInMonthPositive | bluebird.py:71-73 | a record counts itself, so its own count is at least 1 |
| Mentions.AnnotateAtLeastOne | bluebird.py:67-73 | after aggregation no record keeps the default count 0 from line 22: every count is at least 1 |
| Mentions.AnnotateSameEntitySameMonth | bluebird.py:68-73 | two records with the same entity and month key get equal counts, and two distinct such records give a count of at least 2 |
| Mentions.CountInMonthAppend | bluebird.py:72-73 | counting over a concatenation is the sum of the counts |
| Mentions.CountInOtherMonths | bluebird.py:68-69 | records of other months contribute nothing to a month's count |
| Mentions.MonthIsolation | bluebird.py:67-73 | when two lists share no month, annotating them together is annotating each alone: other months never affect a count |
| Mentions.CountInMonthIgnoresDay | bluebird.py:67-69 | moving records within their month changes no count |
| Mentions.AnnotateIgnoresDay | bluebird.py:67-73 | only year and month matter: records with the same entities and month keys get the same counts |
| Mentions.TwoMonthScenario | bluebird.py:59-73 | two January "alice" records count 2, the February one counts 1, and "#x" counts 1 |
| Mentions.ScenarioExtraction | bluebird.py:59-65 | the three example tweets flatten to four records in tweet order, screen names before hashtags |
| Mentions.Mention.constructor | bluebird.py:22-25 | a new record holds the given entity, date and count (0 by default) |
| Mentions.Mention.ToString | bluebird.py:27-28 | `str(mention)` is the entity, ',', the YYYY-MM-DD date, ',', and the decimal count, for every entity; it reads back as those three values when the entity has no comma or newline |
| Mentions.Occurrences | bluebird.py:59-65 | the entity and date of each record of the `mentions` list, in list order, one per record |
| Mentions.Rows | bluebird.py:67-75 | the current entity, date and `mention_times` of each record of the `mentions` list, in list order, one per record |
| Mentions.WithinMonth | bluebird.py:68-69 | the group holds records of the list whose month key is `key`, and every such record |
| Mentions.CountNamed | bluebird.py:72-73 | the count within a group never exceeds the group's size |
| Mentions.CountNamedAppend | bluebird.py:72-73 | counting over a concatenated group is the sum of the counts |
| Mentions.WithinMonthCount | bluebird.py:68-73 | counting one entity within the month group equals counting it over all records restricted to that month |
| Mentions.AppendMentions | bluebird.py:62-65 | the inner loop appends one fresh record per name, with count 0 and the tweet's date, after the existing ones, which it leaves in place |
| Mentions.AppendTweet | bluebird.py:61-65 | one outer iteration appends exactly the tweet's records, screen names first and then hashtags |
| Mentions.ExtractMentions | bluebird.py:59-65 | the first pass creates fresh records with count 0 whose entities and dates are exactly the flattened tweets |
| Mentions.CountMonth | bluebird.py:68-73 | one month key: each record of that month gets the number of records of that month naming its entity, and records of other months keep their counts |
| Mentions.CountSameMonth | bluebird.py:67-73 | after the pass over all month keys, in any order, every record holds the count of its entity in its month across the whole list |
| Mentions.InitMentions | bluebird.py:53-75 | `init_mentions` returns fresh records whose rows are exactly the annotated flattening of the tweets |
| Dates.FirstOfMonth | bluebird.py:67-69 | the month key of a date keeps its year and month and has day 1 |
| Dates.SameMonthKey | bluebird.py:67-69 | `replace(day=1)` makes two dates equal exactly when year and month agree |
| Dates.Format | bluebird.py:28 | the date text is digits and '-' only; for years below 10000 with month and day below 100 it is 10 characters with '-' at positions 4 and 7 |
| Dates.FormatRoundTrip | bluebird.py:28 | the formatted date reads back as the same year, month and day |
| Decimal.NatToString | bluebird.py:28 | `str` of a non-negative count: at least one digit, only digits, and no leading zero unless the number is 0 |
| Decimal.NatToStringValue | bluebird.py:28 | the digits of `str(n)` denote `n` |
| Decimal.IntToString | bluebird.py:28 | `str(int)`: a leading '-' exactly for negative values, then digits |
| Decimal.IntRoundTrip | bluebird.py:28 | `str` of a count reads back as the same integer, negatives included |
| Decimal.ZeroPad | bluebird.py:28 | zero-padded rendering is all digits, as long as the requested width or the number's own digits, whichever is more |
| Decimal.ZeroPadRoundTrip | bluebird.py:28 | zero padding is read back as the same number |
| Fields.SplitJoin | bluebird.py:28 | joining fields that avoid the separator can be undone by splitting |
| Fields.Terminated | bluebird.py:90-91 | writing each line followed by a newline: empty exactly for no lines, at least one character per line, and ending in the newline otherwise |
| Fields.TerminatedAsJoin | bluebird.py:89-91 | the header, a newline and the terminated lines are the newline-join of header and lines, followed by one newline |
| Fields.TerminatedPrefix | bluebird.py:90-91 | writing one more line and a newline extends the text by exactly that line |
| Report.FormatRow | bluebird.py:27-28 | the line is the entity, ',', the YYYY-MM-DD date, ',', and the decimal count, for every entity (no escaping); it contains a newline exactly when the entity does |
| Report.RowFields | bluebird.py:28 | without a comma in the entity, the line's comma-separated fields are the entity, the date text and the count text, in that order |
| Report.RowRoundTrip | bluebird.py:28 | a line reads back as the row it was written from when the entity has no comma or newline |
| Report.HeaderHasNoNewline | bluebird.py:89 | the header `mentioned,when,times_same_month` written first is a single line |
| Report.FileText | bluebird.py:89-91 | the text starts with the header line and a newline; an empty list gives only that |
| Report.Lines | bluebird.py:90-91 | one line per record, in list order, each the record's `str` |
| Report.NoNewlineInLines | bluebird.py:28 | lines of records whose entity holds no newline contain no newline, commas included |
| Report.SplitFileText | bluebird.py:89-91 | when no entity holds a newline (commas allowed), the text splits on newlines into the header, one line per record in order, and an empty tail |
| Report.ParseLinesRoundTrip | bluebird.py:90-91 | when no entity holds a comma or newline, the record lines read back as the rows |
| Report.FileRoundTrip | bluebird.py:89-91 | the written text reads back as exactly the rows written, when no entity holds a comma or newline |
| Pipeline.CreateFileWithMentions | bluebird.py:88-91 | the writing loop produces exactly the header line, then each record's `str` and a newline, in list order |
| Pipeline.RecordMentions | bluebird.py:103-109 | the content written is the report of the annotated flattening of the kept statuses |
| Pipeline.ExtractedFromStatuses | bluebird.py:40-65 | every written entity is a user mention or hashtag of some retained status |
| Pipeline.ReportReadsBack | bluebird.py:103-109 | end to end, when no name of a retained status holds a comma or newline, the report reads back as one row per record, and every count is at least 1 |
| Pipeline.ScenarioKept | bluebird.py:40-47 | of the three example statuses only the first, which has a hashtag, is kept |
| Pipeline.FilteredScenario | bluebird.py:40-73 | through the filter, the example yields only "alice" and "#x" on January 5, each counted once |

## Left out

- Credentials and OAuth setup (`bluebird.py:12-18`): file input and a foreign library.
- The `tweepy.Cursor` pagination, the 200-status cap and the API call (`bluebird.py:39`): these are network I/O. The model takes the fetched statuses as a sequence.
- Progress output, the `mention_num` counter that only feeds it, and the interactive entry point (`bluebird.py:48-49`, `112-116`): console I/O.
- Opening, truncating and writing the file, and the path building with `os.path` (`bluebird.py:83-88`, `105-109`). The model produces the file's content; the returned path is not modelled.
- Time of day: a `datetime` is reduced to its date, the only part the code uses.
- Calendar validity of dates (month 1-12, day in range) is not enforced: the model accepts any naturals.
- Dates.Format: always zero-pads the year to four digits. Platform `strftime('%Y')` may print years below 1000 without padding, and locale details are not modelled.
- Tweets.Dedup: a Python `set` has no fixed iteration order. The model fixes first-occurrence order, so record order within one tweet's screen names (or hashtags) is one possible order, not the only one. Counts do not depend on it.
- Mentions.CountSameMonth: the month keys come from a set and are taken in an unspecified order, as in Python. The contract holds for every order.
- Report.FileRoundTrip: requires entities without comma or newline. The writer does no CSV escaping, so other entities produce lines that do not parse back.
