/**
 * Feed collection: `fetch_rss_articles`. Each feed is given by its URL and
 * by what parsing it produced; the clock is a parameter (`now`, in seconds)
 * and so is the run date that every record carries.
 */
module Collector {
  import opened Wrappers
  import opened Records

  /** Only this many entries of a feed are ever looked at. */
  const EntriesPerFeed: nat := 5
  /** A record's summary keeps at most this many characters. */
  const SummaryLimit: nat := 300
  const DefaultTitle: string := "Sans titre"
  /** The default of `max_age_days`, the value the run uses. */
  const DefaultMaxAgeDays: int := 7
  const SecondsPerDay: int := 86400

  /**
   * A parsed time tuple of an entry: either one that `datetime` accepts,
   * given as seconds on the clock of `now`, or one it rejects (building the
   * date raises).
   */
  datatype Stamp = At(seconds: int) | OutOfRange

  /** A feed entry; every field may be absent. */
  datatype Entry = Entry(
    title: Option<string>,
    link: Option<string>,
    summary: Option<string>,
    published: Option<Stamp>,
    updated: Option<Stamp>)

  /** The outcome of fetching and parsing one feed URL. */
  datatype Parse = Failed | Parsed(title: Option<string>, entries: seq<Entry>)

  datatype Feed = Feed(url: string, parse: Parse)

  /** What a record takes from outside its own entry. */
  datatype Scope = Scope(source: string, category: string, today: string, cutoff: int)

  /** What happens to one entry: a record, a skip for age, or an exception. */
  datatype Step = Keep(article: Article) | Skip | Raise

  /** `now - timedelta(days=maxAgeDays)`, in seconds. */
  function Cutoff(now: int, maxAgeDays: int): int {
    now - maxAgeDays * SecondsPerDay
  }

  /** The entry's time: `published`, falling back to `updated` when absent. */
  function EntryTime(e: Entry): Option<Stamp> {
    if e.published.Some? then e.published else e.updated
  }

  /** Building a date from the entry's time raises. */
  predicate Raises(e: Entry) {
    EntryTime(e) == Some(OutOfRange)
  }

  predicate HasRaise(es: seq<Entry>) {
    exists k :: 0 <= k < |es| && Raises(es[k])
  }

  /** The record built for an entry that is kept. */
  function NewRecord(e: Entry, sc: Scope): (a: Article)
    ensures e.title.Some? ==> a.title == e.title.value
    ensures e.title.None? ==> a.title == DefaultTitle
    ensures e.link.Some? ==> a.url == e.link.value
    ensures e.link.None? ==> a.url == ""
    ensures e.summary.None? ==> a.summary == ""
    ensures e.summary.Some? ==>
      a.summary <= e.summary.value && |a.summary| == Min(SummaryLimit, |e.summary.value|)
    ensures a.source == sc.source && a.category == sc.category && a.date == sc.today
  {
    Article(
      e.title.GetOr(DefaultTitle),
      e.link.GetOr(""),
      Prefix(e.summary.GetOr(""), SummaryLimit),
      sc.source,
      sc.category,
      sc.today)
  }

  /** The fate of one entry, stated in terms of its raw `published` and `updated` fields. */
  function EntryStep(e: Entry, sc: Scope): (r: Step)
    ensures r.Raise? <==>
      (e.published == Some(OutOfRange) || (e.published.None? && e.updated == Some(OutOfRange)))
    ensures r.Skip? <==>
      (e.published.Some? && e.published.value.At? && e.published.value.seconds < sc.cutoff) ||
      (e.published.None? && e.updated.Some? && e.updated.value.At? && e.updated.value.seconds < sc.cutoff)
    ensures e.published.None? && e.updated.None? ==> r.Keep?
    ensures r.Keep? ==> r.article == NewRecord(e, sc)
  {
    match EntryTime(e)
    case None => Keep(NewRecord(e, sc))
    case Some(OutOfRange) => Raise
    case Some(At(t)) => if t < sc.cutoff then Skip else Keep(NewRecord(e, sc))
  }

  /** The records built from `es`, in order, up to the first entry that raises. */
  function FromEntries(es: seq<Entry>, sc: Scope): (r: seq<Article>)
    ensures |r| <= |es|
  {
    if es == [] then []
    else
      match EntryStep(es[0], sc)
      case Raise => []
      case Skip => FromEntries(es[1..], sc)
      case Keep(a) => [a] + FromEntries(es[1..], sc)
  }

  /** Every record of a feed carries the feed's source, the category and the run date, and a short summary. */
  lemma {:induction false} FromEntriesShape(es: seq<Entry>, sc: Scope)
    ensures forall a :: a in FromEntries(es, sc) ==>
      a.source == sc.source && a.category == sc.category && a.date == sc.today &&
      |a.summary| <= SummaryLimit
  {
    if es != [] {
      FromEntriesShape(es[1..], sc);
    }
  }

  /** The entry has no time, or one not earlier than `cutoff`. */
  predicate Recent(e: Entry, cutoff: int) {
    EntryTime(e).None? || (EntryTime(e).value.At? && EntryTime(e).value.seconds >= cutoff)
  }

  /**
   * Every record of a feed is the record of one of its entries whose time
   * is absent or not earlier than the cutoff.
   */
  lemma {:induction false} FromEntriesKeepsRecentEntries(es: seq<Entry>, sc: Scope)
    ensures forall a :: a in FromEntries(es, sc) ==>
      exists k :: 0 <= k < |es| && a == NewRecord(es[k], sc) && Recent(es[k], sc.cutoff)
  {
    if es != [] {
      var rest := es[1..];
      FromEntriesKeepsRecentEntries(rest, sc);
      forall a | a in FromEntries(es, sc)
        ensures exists k :: 0 <= k < |es| && a == NewRecord(es[k], sc) && Recent(es[k], sc.cutoff)
      {
        if a in FromEntries(rest, sc) {
          var k :| 0 <= k < |rest| && a == NewRecord(rest[k], sc) && Recent(rest[k], sc.cutoff);
          assert rest[k] == es[k + 1];
        } else {
          assert EntryStep(es[0], sc) == Keep(a);
        }
      }
    }
  }

  /** A recent entry that no earlier entry has abandoned yields its record. */
  lemma RecentEntryKept(es: seq<Entry>, k: nat, sc: Scope)
    requires k < |es| && !HasRaise(es[..k + 1]) && Recent(es[k], sc.cutoff)
    ensures NewRecord(es[k], sc) in FromEntries(es, sc)
  {
    var before, at, after := es[..k], [es[k]], es[k + 1..];
    assert es == before + (at + after);
    assert before == es[..k + 1][..k];
    assert !Raises(es[k]) by {
      assert es[..k + 1][k] == es[k];
    }
    FromEntriesAppend(before, at + after, sc);
    assert (at + after)[0] == es[k] && (at + after)[1..] == after;
    assert EntryStep(es[k], sc) == Keep(NewRecord(es[k], sc));
  }

  /** The feed's display name: its declared title, else its URL. */
  function SourceName(url: string, title: Option<string>): string {
    title.GetOr(url)
  }

  /** The records one feed contributes. */
  function FeedRecords(f: Feed, category: string, today: string, cutoff: int): (r: seq<Article>)
    ensures |r| <= EntriesPerFeed
    ensures f.parse.Failed? ==> r == []
  {
    match f.parse
    case Failed => []
    case Parsed(title, entries) =>
      FromEntries(Prefix(entries, EntriesPerFeed),
                  Scope(SourceName(f.url, title), category, today, cutoff))
  }

  /** Every record of a parsed feed names the feed's title as its source, or the feed URL when it has none. */
  lemma FeedRecordsSource(f: Feed, category: string, today: string, cutoff: int)
    requires f.parse.Parsed?
    ensures forall a :: a in FeedRecords(f, category, today, cutoff) ==>
      a.source == if f.parse.title.Some? then f.parse.title.value else f.url
  {
    FromEntriesShape(Prefix(f.parse.entries, EntriesPerFeed),
                     Scope(SourceName(f.url, f.parse.title), category, today, cutoff));
  }

  /** The records of all `feeds`, feed by feed. */
  function Collected(category: string, today: string, cutoff: int, feeds: seq<Feed>): seq<Article> {
    if feeds == [] then []
    else
      Collected(category, today, cutoff, feeds[..|feeds| - 1]) +
      FeedRecords(feeds[|feeds| - 1], category, today, cutoff)
  }

  /**
   * At most five records per feed, each carrying the category and the run
   * date, with a summary of at most 300 characters.
   */
  lemma {:induction false} CollectedShape(category: string, today: string, cutoff: int, feeds: seq<Feed>)
    ensures |Collected(category, today, cutoff, feeds)| <= EntriesPerFeed * |feeds|
    ensures forall a :: a in Collected(category, today, cutoff, feeds) ==>
      a.category == category && a.date == today && |a.summary| <= SummaryLimit
  {
    if feeds != [] {
      CollectedShape(category, today, cutoff, feeds[..|feeds| - 1]);
      var f := feeds[|feeds| - 1];
      if f.parse.Parsed? {
        FromEntriesShape(Prefix(f.parse.entries, EntriesPerFeed),
                         Scope(SourceName(f.url, f.parse.title), category, today, cutoff));
      }
    }
  }

  /**
   * Entries are processed in order: the records of `xs + ys` are those of
   * `xs` followed by those of `ys`, unless an entry of `xs` raises, which
   * abandons everything after it.
   */
  lemma {:induction false} FromEntriesAppend(xs: seq<Entry>, ys: seq<Entry>, sc: Scope)
    ensures FromEntries(xs + ys, sc) ==
      if HasRaise(xs) then FromEntries(xs, sc) else FromEntries(xs, sc) + FromEntries(ys, sc)
  {
    if xs == [] {
      assert xs + ys == ys;
      assert !HasRaise(xs);
    } else {
      assert (xs + ys)[0] == xs[0];
      assert (xs + ys)[1..] == xs[1..] + ys;
      FromEntriesAppend(xs[1..], ys, sc);
      if Raises(xs[0]) {
        assert HasRaise(xs);
      } else {
        assert HasRaise(xs) == HasRaise(xs[1..]) by {
          if HasRaise(xs) {
            var k :| 0 <= k < |xs| && Raises(xs[k]);
            assert k > 0 && Raises(xs[1..][k - 1]);
          }
          if HasRaise(xs[1..]) {
            var k :| 0 <= k < |xs[1..]| && Raises(xs[1..][k]);
            assert Raises(xs[k + 1]);
          }
        }
      }
    }
  }

  /**
   * An entry that raises abandons the rest of its feed, but the records
   * appended before it stay.
   */
  lemma RaiseKeepsEarlierRecords(es: seq<Entry>, j: nat, sc: Scope)
    requires j < |es| && Raises(es[j]) && !HasRaise(es[..j])
    ensures FromEntries(es, sc) == FromEntries(es[..j], sc)
  {
    assert es[..j] + es[j..] == es;
    FromEntriesAppend(es[..j], es[j..], sc);
    assert es[j..][0] == es[j];
  }

  /** Entries with neither `published` nor `updated` are never filtered out. */
  lemma {:induction false} UntimedEntriesAllKept(es: seq<Entry>, sc: Scope)
    requires forall k :: 0 <= k < |es| ==> es[k].published.None? && es[k].updated.None?
    ensures |FromEntries(es, sc)| == |es|
    ensures forall k :: 0 <= k < |es| ==> FromEntries(es, sc)[k] == NewRecord(es[k], sc)
  {
    if es != [] {
      UntimedEntriesAllKept(es[1..], sc);
      assert EntryStep(es[0], sc) == Keep(NewRecord(es[0], sc));
      var r := FromEntries(es, sc);
      assert r == [NewRecord(es[0], sc)] + FromEntries(es[1..], sc);
      forall k | 0 <= k < |es|
        ensures r[k] == NewRecord(es[k], sc)
      {
        if k > 0 {
          assert r[k] == FromEntries(es[1..], sc)[k - 1];
          assert es[1..][k - 1] == es[k];
        }
      }
    }
  }

  /** Entries past the fifth never matter, whatever their age. */
  lemma LaterEntriesIgnored(url: string, title: Option<string>, es: seq<Entry>, extra: seq<Entry>,
                            category: string, today: string, cutoff: int)
    requires |es| >= EntriesPerFeed
    ensures FeedRecords(Feed(url, Parsed(title, es + extra)), category, today, cutoff) ==
            FeedRecords(Feed(url, Parsed(title, es)), category, today, cutoff)
  {
    assert Prefix(es + extra, EntriesPerFeed) == Prefix(es, EntriesPerFeed);
  }

  /** The collected records are the concatenation, in feed order, of each feed's records. */
  lemma {:induction false} CollectedAppend(category: string, today: string, cutoff: int,
                                           xs: seq<Feed>, ys: seq<Feed>)
    ensures Collected(category, today, cutoff, xs + ys) ==
            Collected(category, today, cutoff, xs) + Collected(category, today, cutoff, ys)
    decreases |ys|
  {
    if ys == [] {
      assert xs + ys == xs;
    } else {
      var zs := ys[..|ys| - 1];
      var last := FeedRecords(ys[|ys| - 1], category, today, cutoff);
      assert (xs + ys)[..|xs + ys| - 1] == xs + zs;
      assert (xs + ys)[|xs + ys| - 1] == ys[|ys| - 1];
      CollectedAppend(category, today, cutoff, xs, zs);
      calc {
        Collected(category, today, cutoff, xs + ys);
        Collected(category, today, cutoff, xs + zs) + last;
        Collected(category, today, cutoff, xs) + Collected(category, today, cutoff, zs) + last;
        Collected(category, today, cutoff, xs) + Collected(category, today, cutoff, ys);
      }
    }
  }

  /** A feed that cannot be fetched contributes nothing and does not stop the feeds after it. */
  lemma FailedFeedSkipped(category: string, today: string, cutoff: int, feeds: seq<Feed>, i: nat)
    requires i < |feeds| && feeds[i].parse.Failed?
    ensures Collected(category, today, cutoff, feeds) ==
            Collected(category, today, cutoff, feeds[..i]) + Collected(category, today, cutoff, feeds[i + 1..])
  {
    var before, failed, after := feeds[..i], [feeds[i]], feeds[i + 1..];
    assert feeds == (before + failed) + after;
    assert Collected(category, today, cutoff, failed) == [] by {
      assert failed[..0] == [];
    }
    CollectedAppend(category, today, cutoff, before + failed, after);
    CollectedAppend(category, today, cutoff, before, failed);
  }

  /** A feed with three entries, one of them older than the cutoff, yields two records. */
  lemma OneStaleOfThree(url: string, now: int, t: string, l: string)
    ensures
      var recent := Entry(Some(t), Some(l), None, Some(At(now)), None);
      var stale := Entry(Some(t), Some(l), None, Some(At(now - 8 * SecondsPerDay)), None);
      |FeedRecords(Feed(url, Parsed(None, [recent, stale, recent])), "Cloud", "2024-01-01",
                   Cutoff(now, DefaultMaxAgeDays))| == 2
  {
    var recent := Entry(Some(t), Some(l), None, Some(At(now)), None);
    var stale := Entry(Some(t), Some(l), None, Some(At(now - 8 * SecondsPerDay)), None);
    var sc := Scope(url, "Cloud", "2024-01-01", Cutoff(now, DefaultMaxAgeDays));
    var es := [recent, stale, recent];
    assert Prefix(es, EntriesPerFeed) == es;
    assert EntryStep(recent, sc).Keep? && EntryStep(stale, sc).Skip?;
    assert es[1..] == [stale, recent] && es[1..][1..] == [recent] && [recent][1..] == [];
    assert FromEntries([recent], sc) == [NewRecord(recent, sc)];
    assert FromEntries([stale, recent], sc) == [NewRecord(recent, sc)];
  }

  /**
   * The inner loop over one feed's first entries: appends the record of
   * every entry recent enough, and stops at the first entry whose date
   * cannot be built, keeping what it appended before.
   */
  method AppendEntries(articles: seq<Article>, batch: seq<Entry>, sc: Scope)
    returns (result: seq<Article>)
    ensures result == articles + FromEntries(batch, sc)
  {
    result := articles;
    var j := 0;
    while j < |batch|
      invariant 0 <= j <= |batch|
      invariant !HasRaise(batch[..j])
      invariant result == articles + FromEntries(batch[..j], sc)
    {
      var entry := batch[j];
      var published := if entry.published.Some? then entry.published else entry.updated;
      if published.Some? && published.value.OutOfRange? {
        // building the date raises: the rest of this feed is abandoned
        RaiseKeepsEarlierRecords(batch, j, sc);
        return;
      }
      assert batch[..j + 1] == batch[..j] + [entry];
      FromEntriesAppend(batch[..j], [entry], sc);
      assert [entry][1..] == [];
      if !(published.Some? && published.value.seconds < sc.cutoff) {
        result := result + [NewRecord(entry, sc)];
      }
      j := j + 1;
    }
    assert batch[..|batch|] == batch;
  }

  /**
   * The collection loop: feed by feed, at most five entries each. A feed
   * that cannot be fetched contributes nothing and the loop goes on.
   */
  method FetchRssArticles(category: string, feeds: seq<Feed>, now: int, maxAgeDays: int, today: string)
    returns (articles: seq<Article>)
    ensures articles == Collected(category, today, Cutoff(now, maxAgeDays), feeds)
  {
    articles := [];
    var cutoff := Cutoff(now, maxAgeDays);
    for i := 0 to |feeds|
      invariant articles == Collected(category, today, cutoff, feeds[..i])
    {
      assert feeds[..i + 1][..i] == feeds[..i];
      var feed := feeds[i];
      if feed.parse.Parsed? {
        var sc := Scope(SourceName(feed.url, feed.parse.title), category, today, cutoff);
        articles := AppendEntries(articles, Prefix(feed.parse.entries, EntriesPerFeed), sc);
      }
    }
    assert feeds[..|feeds|] == feeds;
  }
}
