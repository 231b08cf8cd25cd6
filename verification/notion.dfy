/**
 * Dedupe-and-store: `add_to_notion`. The remote database is a class holding
 * the URLs of its pages and the log of requests it received; what the
 * network answers to each request is a parameter.
 */
module Notion {
  import opened Records

  const StatusOk: int := 200

  /** The answer to one HTTP request: a status code, or an exception from the transport. */
  datatype Reply = Status(code: int) | Raised

  /** The answers the network gives to the query and to the create request of one article. */
  datatype Exchange = Exchange(query: Reply, create: Reply)

  /** A request the database received, with the answer it produced. */
  datatype Request = Query(url: string, reply: Reply) | Create(article: Article, reply: Reply)

  /** The remote database, as far as the run can observe it. */
  class Database {
    /** The URL property of every page stored. */
    var urls: set<string>
    /** Every request received, in order. */
    var log: seq<Request>

    constructor (stored: set<string>)
      ensures urls == stored && log == []
    {
      urls := stored;
      log := [];
    }

    /**
     * Query filtered on URL equality. `found` is a 200 answer with a
     * non-empty result list; `raised` is an exception from the transport.
     */
    method QueryUrl(url: string, reply: Reply) returns (found: bool, raised: bool)
      modifies this`log
      ensures found <==> reply == Status(StatusOk) && url in urls
      ensures raised <==> reply.Raised?
      ensures log == old(log) + [Query(url, reply)]
    {
      log := log + [Query(url, reply)];
      found := reply == Status(StatusOk) && url in urls;
      raised := reply.Raised?;
    }

    /** Page creation: the page is stored exactly when the answer is 200. */
    method CreatePage(a: Article, reply: Reply) returns (created: bool)
      modifies this
      ensures created <==> reply == Status(StatusOk)
      ensures urls == if created then old(urls) + {a.url} else old(urls)
      ensures log == old(log) + [Create(a, reply)]
    {
      log := log + [Create(a, reply)];
      created := reply == Status(StatusOk);
      if created {
        urls := urls + {a.url};
      }
    }
  }

  /** The database's observable state together with the run's count of added articles. */
  datatype Store = Store(urls: set<string>, log: seq<Request>, added: nat)

  /**
   * Submitting one article: query its URL; an exception or a 200 answer
   * listing a page skips it; otherwise create it, and count it only when
   * the creation is answered 200.
   */
  function Submit(s: Store, a: Article, x: Exchange): (r: Store)
    ensures s.urls <= r.urls && s.log < r.log
    ensures r.added == s.added || (r.added == s.added + 1 && a.url in r.urls)
    ensures r.added == s.added + 1 <==>
      !x.query.Raised? && !(x.query == Status(StatusOk) && a.url in s.urls) && x.create == Status(StatusOk)
  {
    var queried := s.(log := s.log + [Query(a.url, x.query)]);
    if x.query.Raised? || (x.query == Status(StatusOk) && a.url in s.urls) then queried
    else
      var tried := queried.(log := queried.log + [Create(a, x.create)]);
      if x.create == Status(StatusOk) then tried.(urls := tried.urls + {a.url}, added := tried.added + 1)
      else tried
  }

  /** Submitting `articles` in order, the `i`-th answered by `net(i)`. */
  function SubmitAll(s: Store, articles: seq<Article>, net: nat -> Exchange): (r: Store)
    ensures s.urls <= r.urls && s.log <= r.log
    ensures r.added <= s.added + |articles|
  {
    if articles == [] then s
    else
      var n := |articles| - 1;
      Submit(SubmitAll(s, articles[..n], net), articles[n], net(n))
  }

  /** The number of creations answered 200 in a request log. */
  function Successes(log: seq<Request>): nat {
    if log == [] then 0
    else
      var last := log[|log| - 1];
      Successes(log[..|log| - 1]) + if last.Create? && last.reply == Status(StatusOk) then 1 else 0
  }

  /** The URLs of the creations answered 200 in a request log. */
  function CreatedUrls(log: seq<Request>): set<string> {
    if log == [] then {}
    else
      var last := log[|log| - 1];
      CreatedUrls(log[..|log| - 1]) + if last.Create? && last.reply == Status(StatusOk) then {last.article.url} else {}
  }

  lemma {:induction false} SuccessesAppend(xs: seq<Request>, ys: seq<Request>)
    ensures Successes(xs + ys) == Successes(xs) + Successes(ys)
    decreases |ys|
  {
    if ys == [] {
      assert xs + ys == xs;
    } else {
      var n := |ys| - 1;
      assert (xs + ys)[..|xs + ys| - 1] == xs + ys[..n];
      assert (xs + ys)[|xs + ys| - 1] == ys[n];
      SuccessesAppend(xs, ys[..n]);
    }
  }

  lemma {:induction false} CreatedUrlsAppend(xs: seq<Request>, ys: seq<Request>)
    ensures CreatedUrls(xs + ys) == CreatedUrls(xs) + CreatedUrls(ys)
    decreases |ys|
  {
    if ys == [] {
      assert xs + ys == xs;
    } else {
      var n := |ys| - 1;
      assert (xs + ys)[..|xs + ys| - 1] == xs + ys[..n];
      assert (xs + ys)[|xs + ys| - 1] == ys[n];
      CreatedUrlsAppend(xs, ys[..n]);
    }
  }

  /** One submission appends the requests it sent; the count and the URLs change only by what they did. */
  lemma SubmitStep(s: Store, a: Article, x: Exchange)
    ensures var r := Submit(s, a, x);
      r.log == s.log + r.log[|s.log|..] &&
      r.added == s.added + Successes(r.log[|s.log|..]) &&
      r.urls == s.urls + CreatedUrls(r.log[|s.log|..])
  {
    var r := Submit(s, a, x);
    var q := [Query(a.url, x.query)];
    assert q[..0] == [];
    assert Successes(q) == 0 && CreatedUrls(q) == {};
    if r.log == s.log + q {
      assert r.log[|s.log|..] == q;
    } else {
      var c := q + [Create(a, x.create)];
      assert r.log == s.log + c && r.log[|s.log|..] == c && c[..1] == q;
    }
  }

  /** The requests sent while submitting the last article split the run's new requests. */
  lemma SubmitAllLog(s: Store, articles: seq<Article>, net: nat -> Exchange)
    requires articles != []
    ensures var prev := SubmitAll(s, articles[..|articles| - 1], net);
      var r := SubmitAll(s, articles, net);
      r == Submit(prev, articles[|articles| - 1], net(|articles| - 1)) &&
      r.log[|s.log|..] == prev.log[|s.log|..] + r.log[|prev.log|..]
  {
    var n := |articles| - 1;
    var prev := SubmitAll(s, articles[..n], net);
    var r := SubmitAll(s, articles, net);
    SubmitStep(prev, articles[n], net(n));
    assert prev.log == s.log + prev.log[|s.log|..];
  }

  /** The count of added articles is exactly the number of creations the database answered 200 during the run. */
  lemma {:induction false} AddedCountsSuccessfulCreates(s: Store, articles: seq<Article>, net: nat -> Exchange)
    ensures var r := SubmitAll(s, articles, net);
      r.added == s.added + Successes(r.log[|s.log|..])
  {
    var r := SubmitAll(s, articles, net);
    if articles == [] {
      assert r.log[|s.log|..] == [];
    } else {
      var n := |articles| - 1;
      var prev := SubmitAll(s, articles[..n], net);
      AddedCountsSuccessfulCreates(s, articles[..n], net);
      SubmitAllLog(s, articles, net);
      SubmitStep(prev, articles[n], net(n));
      SuccessesAppend(prev.log[|s.log|..], r.log[|prev.log|..]);
    }
  }

  /** The URLs the database gains during the run are exactly those of the creations answered 200. */
  lemma {:induction false} GainedUrlsWereCreated(s: Store, articles: seq<Article>, net: nat -> Exchange)
    ensures var r := SubmitAll(s, articles, net);
      r.urls == s.urls + CreatedUrls(r.log[|s.log|..])
  {
    var r := SubmitAll(s, articles, net);
    if articles == [] {
      assert r.log[|s.log|..] == [];
    } else {
      var n := |articles| - 1;
      var prev := SubmitAll(s, articles[..n], net);
      GainedUrlsWereCreated(s, articles[..n], net);
      SubmitAllLog(s, articles, net);
      SubmitStep(prev, articles[n], net(n));
      CreatedUrlsAppend(prev.log[|s.log|..], r.log[|prev.log|..]);
    }
  }

  /** Stored URLs only accumulate along the run. */
  lemma {:induction false} UrlsPersist(s: Store, articles: seq<Article>, net: nat -> Exchange, i: nat, j: nat)
    requires i <= j <= |articles|
    ensures SubmitAll(s, articles[..i], net).urls <= SubmitAll(s, articles[..j], net).urls
    decreases j - i
  {
    if i < j {
      UrlsPersist(s, articles, net, i, j - 1);
      assert articles[..j][..j - 1] == articles[..j - 1];
    }
  }

  /** Whether the `i`-th article was counted as added. */
  predicate CountedAt(s: Store, articles: seq<Article>, net: nat -> Exchange, i: nat)
    requires i < |articles|
  {
    SubmitAll(s, articles[..i + 1], net).added == SubmitAll(s, articles[..i], net).added + 1
  }

  /**
   * A URL already in the database when its query is answered 200 is
   * neither created again nor counted.
   */
  lemma KnownUrlNotCounted(s: Store, articles: seq<Article>, net: nat -> Exchange, j: nat)
    requires j < |articles| && net(j).query == Status(StatusOk)
    requires articles[j].url in SubmitAll(s, articles[..j], net).urls
    ensures !CountedAt(s, articles, net, j)
    ensures SubmitAll(s, articles[..j + 1], net).urls == SubmitAll(s, articles[..j], net).urls
  {
    assert articles[..j + 1][..j] == articles[..j];
  }

  /**
   * Idempotence: once an article was added, a later article with the same
   * URL whose query is answered 200 is not added again.
   */
  lemma SecondSubmissionNotCounted(s: Store, articles: seq<Article>, net: nat -> Exchange, i: nat, j: nat)
    requires i < j < |articles| && articles[i].url == articles[j].url
    requires CountedAt(s, articles, net, i) && net(j).query == Status(StatusOk)
    ensures !CountedAt(s, articles, net, j)
  {
    assert articles[..i + 1][..i] == articles[..i];
    assert articles[i].url in SubmitAll(s, articles[..i + 1], net).urls;
    UrlsPersist(s, articles, net, i + 1, j);
    KnownUrlNotCounted(s, articles, net, j);
  }

  /**
   * Deduplication relies on the query alone: when the query is not
   * answered 200, creation is attempted even for a URL already stored.
   */
  lemma UnansweredQueryStillCreates(s: Store, a: Article, x: Exchange)
    requires x.query.Status? && x.query.code != StatusOk
    ensures Submit(s, a, x).log == s.log + [Query(a.url, x.query), Create(a, x.create)]
    ensures Submit(s, a, x).added == s.added + (if x.create == Status(StatusOk) then 1 else 0)
  {
    assert s.log + [Query(a.url, x.query)] + [Create(a, x.create)] ==
           s.log + [Query(a.url, x.query), Create(a, x.create)];
  }

  /**
   * The storage loop. Without an API key nothing is sent and nothing is
   * added; otherwise every article is submitted in turn.
   */
  method AddToNotion(db: Database, apiKey: string, articles: seq<Article>, net: nat -> Exchange)
    returns (addedCount: nat)
    modifies db
    ensures apiKey == "" ==> addedCount == 0 && db.urls == old(db.urls) && db.log == old(db.log)
    ensures apiKey != "" ==>
      Store(db.urls, db.log, addedCount) == SubmitAll(Store(old(db.urls), old(db.log), 0), articles, net)
    ensures addedCount <= |articles|
  {
    if apiKey == "" {
      return 0;
    }
    ghost var start := Store(db.urls, db.log, 0);
    addedCount := 0;
    for i := 0 to |articles|
      invariant Store(db.urls, db.log, addedCount) == SubmitAll(start, articles[..i], net)
    {
      assert articles[..i + 1][..i] == articles[..i];
      var article := articles[i];
      var exchange := net(i);
      var found, raised := db.QueryUrl(article.url, exchange.query);
      if !raised && !found {
        var created := db.CreatePage(article, exchange.create);
        if created {
          addedCount := addedCount + 1;
        }
      }
    }
    assert articles[..|articles|] == articles;
  }
}
