/**
 * The run: `main`. Collects every category's feeds, stores the collected
 * articles and mails the summary when something was added. Configuration,
 * the clock and every remote outcome are parameters.
 */
module Pipeline {
  import opened Wrappers
  import opened Records
  import opened Collector
  import opened Notion
  import opened Summary

  /** One entry of the feed table: a category and its feeds, in order. */
  datatype Category = Category(name: string, feeds: seq<Feed>)

  /** The credentials the run reads from its environment. */
  datatype Settings = Settings(notionApiKey: string, emailFrom: string, emailTo: string, emailPassword: string)

  /** The outcome of `send_email_summary`: its result and the message handed to the transport, if any. */
  datatype Delivery = Delivery(sent: bool, message: Option<Email>)

  /** What a run did: the articles collected, the count added, and the summary call, when it was made. */
  datatype Report = Report(collected: seq<Article>, added: nat, delivery: Option<Delivery>)

  /**
   * The articles of every category, category by category, with the default
   * age limit. Category `i` reads the clock for its own cutoff: `nows[i]`.
   */
  function CollectAll(table: seq<Category>, nows: seq<int>, today: string): seq<Article>
    requires |table| <= |nows|
  {
    if table == [] then []
    else
      var n := |table| - 1;
      CollectAll(table[..n], nows, today) +
      Collected(table[n].name, today, Cutoff(nows[n], DefaultMaxAgeDays), table[n].feeds)
  }

  /** Every collected article carries the name of one of the table's categories. */
  lemma {:induction false} CollectedCategoriesListed(table: seq<Category>, nows: seq<int>, today: string)
    requires |table| <= |nows|
    ensures forall a :: a in CollectAll(table, nows, today) ==>
      a.date == today && |a.summary| <= SummaryLimit &&
      exists k :: 0 <= k < |table| && table[k].name == a.category
  {
    if table != [] {
      var n := |table| - 1;
      CollectedCategoriesListed(table[..n], nows, today);
      CollectedShape(table[n].name, today, Cutoff(nows[n], DefaultMaxAgeDays), table[n].feeds);
      forall a | a in CollectAll(table, nows, today)
        ensures exists k :: 0 <= k < |table| && table[k].name == a.category
      {
        if a in CollectAll(table[..n], nows, today) {
          var k :| 0 <= k < n && table[..n][k].name == a.category;
          assert table[k].name == a.category;
        } else {
          assert table[n].name == a.category;
        }
      }
    }
  }

  /**
   * One run; `nows[i]` is the clock when category `i` is fetched. With
   * nothing collected it stops before storage and email. Otherwise it
   * stores everything collected, and asks for the summary of all collected
   * articles only when at least one was added.
   */
  method RunWatch(settings: Settings, table: seq<Category>, nows: seq<int>, today: string,
                  db: Database, net: nat -> Exchange, transportOk: bool)
    returns (report: Report)
    requires |nows| == |table|
    modifies db
    ensures report.collected == CollectAll(table, nows, today)
    ensures report.collected == [] ==>
      report.added == 0 && report.delivery == None && db.urls == old(db.urls) && db.log == old(db.log)
    ensures report.collected != [] && settings.notionApiKey == "" ==>
      report.added == 0 && db.urls == old(db.urls) && db.log == old(db.log)
    ensures report.collected != [] && settings.notionApiKey != "" ==>
      Store(db.urls, db.log, report.added) ==
        SubmitAll(Store(old(db.urls), old(db.log), 0), report.collected, net)
    ensures report.added <= |report.collected|
    ensures report.delivery.Some? <==> report.added > 0
    ensures report.delivery.Some? ==>
      var s := settings;
      if s.emailFrom == "" || s.emailTo == "" || s.emailPassword == "" then
        report.delivery.value == Delivery(false, None)
      else
        report.delivery.value ==
          Delivery(transportOk, Some(Email(s.emailFrom, s.emailTo, report.added, Digest(report.collected))))
  {
    var all := [];
    for i := 0 to |table|
      invariant all == CollectAll(table[..i], nows, today)
      invariant unchanged(db)
    {
      assert table[..i + 1][..i] == table[..i];
      var articles := FetchRssArticles(table[i].name, table[i].feeds, nows[i], DefaultMaxAgeDays, today);
      all := all + articles;
    }
    assert table[..|table|] == table;
    if all == [] {
      return Report(all, 0, None);
    }
    var added := AddToNotion(db, settings.notionApiKey, all, net);
    var delivery := None;
    if added > 0 {
      var sent, message := SendEmailSummary(all, added, settings.emailFrom, settings.emailTo,
                                            settings.emailPassword, transportOk);
      delivery := Some(Delivery(sent, message));
    }
    report := Report(all, added, delivery);
  }
}
