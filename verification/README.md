# Tech watch automation, modelled in Dafny

The system is a weekly batch job. It reads a fixed table of syndication
feeds grouped by topic category. It keeps each feed's recent entries and
turns them into article records. It stores the articles it has not stored
before in a Notion database. When something new was stored, it emails a
summary grouped by category.

This project models the four steps of `tech_watch_automation.py`:

- `collector.dfy` (module `Collector`) models `fetch_rss_articles`. A feed
  is its URL plus the outcome of parsing it: a failure, or an optional title
  and a list of entries. An entry has an optional title, link and summary,
  and optional `published` and `updated` times. The clock (`now`, in
  seconds) and the run date are parameters. The nested loop is the method
  `FetchRssArticles`, proved equal to the specification function
  `Collected`. Its inner loop is the method `AppendEntries`, proved equal to
  the specification function `FromEntries`.
- `notion.dfy` (module `Notion`) models `add_to_notion`. The remote
  database is the class `Database`. It holds the set of stored URLs and the
  log of requests it received. What the network answers to each query and
  each create request is a parameter (`net`, indexed by article position).
  An answer is a status code or an exception. The loop `AddToNotion` is
  proved equal to the specification function `SubmitAll`.
- `summary.dfy` (module `Summary`) models the grouping and rendering of
  `send_email_summary`. The email body is a structured value: one
  `Section(category, count, shown)` per category, in first-seen order. The
  count is the group's full size and at most ten articles are shown.
- `pipeline.dfy` (module `Pipeline`) models `main`. Each category's fetch
  reads the clock anew, so each has its own cutoff. The run stops early when
  nothing was collected and asks for the email only when at least one
  article was added.
- `records.dfy` and `wrappers.dfy` hold the shared article record, Python's
  slice `s[:n]` and an `Option` type.

The script has no language detection, keyword filter or sort step, and
neither has the model.

## Model

| member | source | states |
|---|---|---|
| `Records.Prefix` | tech_watch_automation.py:76 | A slice `s[:n]` is the prefix of `s` of length min(n, len(s)). |
| `Collector.NewRecord` | tech_watch_automation.py:73-80 | Title defaults to "Sans titre" and URL to "". Summary is the first min(300, len) characters of the entry summary, or "". Source, category and date are the feed name, the category argument and the run date. |
| `Collector.EntryStep` | tech_watch_automation.py:67-71 | The time is `published`, else `updated`. An entry is skipped iff that time exists and is strictly earlier than the cutoff. Building the date raises iff that time is one `datetime` rejects. An entry with neither time is always kept. |
| `Collector.FromEntries` | tech_watch_automation.py:66-82 | A feed yields at most one record per entry looked at. |
| `Collector.FromEntriesKeepsRecentEntries` | tech_watch_automation.py:66-81 | Every record of a feed is the record built from one of its entries whose time is absent or not earlier than the cutoff. |
| `Collector.RecentEntryKept` | tech_watch_automation.py:66-81 | An entry whose time is absent or not earlier than the cutoff, with no raising entry up to it, yields its record. |
| `Collector.FromEntriesShape` | tech_watch_automation.py:73-80 | Every record of a feed carries the feed's source, the category and the run date, with a summary of at most 300 characters. |
| `Collector.FeedRecordsSource` | tech_watch_automation.py:63-64 | Every record of a parsed feed has the feed's title as its source, or the feed URL when the feed has no title. |
| `Collector.FeedRecords` | tech_watch_automation.py:62-66 | One feed contributes at most 5 records. A feed that fails to parse contributes none. |
| `Collector.CollectedShape` | tech_watch_automation.py:61-87 | The output has at most 5 records per feed. Every record has the category argument, the run date and a summary of at most 300 characters. |
| `Collector.FromEntriesAppend` | tech_watch_automation.py:66-85 | Entries are processed in order. The records of `xs + ys` are those of `xs` followed by those of `ys`, unless an entry of `xs` raises. |
| `Collector.RaiseKeepsEarlierRecords` | tech_watch_automation.py:62-85 | When an entry raises, the rest of its feed is abandoned. The records appended before it stay. |
| `Collector.UntimedEntriesAllKept` | tech_watch_automation.py:67-68 | Entries with neither `published` nor `updated` all yield records, in order, whatever the cutoff. |
| `Collector.LaterEntriesIgnored` | tech_watch_automation.py:66 | Entries past the fifth never change a feed's records, whatever their age. |
| `Collector.CollectedAppend` | tech_watch_automation.py:61-87 | The output is the concatenation, in feed order, of each feed's records. |
| `Collector.FailedFeedSkipped` | tech_watch_automation.py:62-85 | A feed that fails contributes nothing and does not stop the feeds after it. |
| `Collector.OneStaleOfThree` | tech_watch_automation.py:66-81 | Three entries, one older than the 7-day cutoff, yield two records. |
| `Collector.AppendEntries` | tech_watch_automation.py:66-81 | The inner loop appends exactly the records `FromEntries` specifies, and stops at the first entry that raises. |
| `Collector.FetchRssArticles` | tech_watch_automation.py:56-87 | The collection loop returns exactly `Collected` for the cutoff `now - max_age_days` days. |
| `Notion.Database.QueryUrl` | tech_watch_automation.py:107-118 | A URL is found iff the query is answered 200 and the URL is stored. The query is logged. |
| `Notion.Database.CreatePage` | tech_watch_automation.py:153-159 | A page is created, and its URL stored, iff the answer is 200. The request is logged. |
| `Notion.Submit` | tech_watch_automation.py:104-167 | One submission only grows the log and the stored URLs. The count grows by at most one, and then the article's URL is stored. It grows iff the query did not raise, was not a 200 answer for a stored URL, and the create was answered 200. |
| `Notion.SubmitAll` | tech_watch_automation.py:104-169 | Submitting n articles only grows the log and the stored URLs, and adds at most n to the count. |
| `Notion.AddedCountsSuccessfulCreates` | tech_watch_automation.py:159-160 | The count of added articles equals the number of creations answered 200 during the run. |
| `Notion.GainedUrlsWereCreated` | tech_watch_automation.py:153-160 | The URLs the database gains during the run are exactly those of the creations answered 200. |
| `Notion.UrlsPersist` | tech_watch_automation.py:153-160 | Stored URLs only accumulate along the run. |
| `Notion.KnownUrlNotCounted` | tech_watch_automation.py:117-120 | An article whose URL is already stored, with its query answered 200, is neither created nor counted. |
| `Notion.SecondSubmissionNotCounted` | tech_watch_automation.py:106-120 | Once an article was added, a later article with the same URL whose query is answered 200 is not counted. |
| `Notion.UnansweredQueryStillCreates` | tech_watch_automation.py:117-159 | A query answered with a status other than 200 does not deduplicate. Creation is attempted, and counted iff answered 200. |
| `Notion.AddToNotion` | tech_watch_automation.py:90-169 | With an empty API key: returns 0 and sends no request. Otherwise the database state and count are exactly `SubmitAll`. The count is at most the number of articles. |
| `Summary.Group` | tech_watch_automation.py:179-184 | A category's group holds only articles of that category, all taken from the input. |
| `Summary.GroupIsComplete` | tech_watch_automation.py:179-184 | Every article of a category belongs to that category's group. |
| `Summary.GroupKeepsOrder` | tech_watch_automation.py:179-184 | Grouping keeps relative order: the group of a concatenation is the concatenation of the groups. |
| `Summary.CategoriesCover` | tech_watch_automation.py:179-184 | The categories listed are distinct and are exactly those of the articles. |
| `Summary.CategoriesInFirstSeenOrder` | tech_watch_automation.py:179-184 | Categories are listed in first-seen order. If one is listed before another, every article of the later one has an article of the earlier one before it. |
| `Summary.Render` | tech_watch_automation.py:216-222 | A heading shows the full size of its group. The articles shown are the first min(10, size) of the group. |
| `Summary.Sections` | tech_watch_automation.py:216-229 | One section per category, in the given order, each rendered as `Render` states. |
| `Summary.DigestCountsAll` | tech_watch_automation.py:216-219 | The heading counts add up to the number of articles. |
| `Summary.GroupByCategory` | tech_watch_automation.py:179-184 | The grouping loop keys exactly the categories, in first-seen order. Each key maps to the group of its category. |
| `Summary.RenderDigest` | tech_watch_automation.py:216-229 | The rendering loop produces exactly the sections of all categories in first-seen order. |
| `Summary.SendEmailSummary` | tech_watch_automation.py:172-266 | With an empty sender, recipient or password: returns false and hands nothing to the transport. Otherwise it hands over the digest of all articles with the added count, and returns the transport's outcome. |
| `Pipeline.CollectedCategoriesListed` | tech_watch_automation.py:275-280 | Every collected article carries the run date, a summary of at most 300 characters and the name of a category of the feed table. |
| `Pipeline.RunWatch` | tech_watch_automation.py:269-298 | Collects every category with the 7-day limit, measured from that category's own clock reading. With nothing collected, storage and email are not invoked. Otherwise storage runs over all collected articles. The summary is requested, over all collected articles, iff the added count is positive. |

## Left out

- Fetching and parsing feeds, HTTP requests and SMTP are not modelled. Their outcomes are parameters: parse results, status codes or exceptions, and a boolean transport result.
- The clock and the environment are parameters: the clock read by each category's fetch (`nows`), the run date and the credentials. The feed table `RSS_FEEDS` is a parameter of `RunWatch`, not a constant.
- Times are whole seconds on the clock of `now`. The sub-second part of `datetime.now()` is not modelled. Neither is the fact that feed times are UTC while `datetime.now()` is local time.
- The script calls `datetime.now()` separately for each category's cutoff and for each record's date. The model gives each category its own clock reading for the cutoff, but takes one run date for all records.
- Exceptions inside a feed are modelled only as a time tuple that `datetime` rejects. Fetch failures are modelled as a parse failure. An overflow while computing the cutoff, which raises outside the per-feed `try`, is not modelled.
- An exception from `response.json()` on a 200 query answer is not modelled.
- The database is a set of URLs, so pages stored twice under one URL are not told apart.
- The page payload is not modelled: the 2000-character title truncation, the status and priority defaults, the database id and the headers.
- HTML and CSS text, category emojis, the subject line, the plain-text part and all `print` logging are not modelled. The message keeps the sender, the recipient, the added count and the sections.
- `test_config.py` is not part of this model. It only checks the environment and connectivity.
