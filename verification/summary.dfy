/**
 * The summary email: `send_email_summary`. Articles are grouped by
 * category in the order categories are first met; each group is rendered
 * as a section with its full size and at most ten of its articles. The
 * rendered message is a structured value, not HTML text, and the SMTP
 * outcome is a parameter.
 */
module Summary {
  import opened Wrappers
  import opened Records

  /** At most this many articles of a category are shown. */
  const ShownPerCategory: nat := 10

  /** One category heading: its name, the size of its group, and the articles shown. */
  datatype Section = Section(category: string, count: nat, shown: seq<Article>)

  /** The message handed to the mail transport. */
  datatype Email = Email(sender: string, recipient: string, addedCount: nat, sections: seq<Section>)

  predicate Distinct(cats: seq<string>) {
    forall i, j :: 0 <= i < j < |cats| ==> cats[i] != cats[j]
  }

  /** The categories of `articles`, each once, in the order they are first met. */
  function Categories(articles: seq<Article>): seq<string> {
    if articles == [] then []
    else
      var cats := Categories(articles[..|articles| - 1]);
      var c := articles[|articles| - 1].category;
      if c in cats then cats else cats + [c]
  }

  /** The articles of category `c`, in their original order. */
  function Group(articles: seq<Article>, c: string): (r: seq<Article>)
    ensures |r| <= |articles|
    ensures forall a :: a in r ==> a.category == c && a in articles
  {
    if articles == [] then []
    else
      var g := Group(articles[..|articles| - 1], c);
      if articles[|articles| - 1].category == c then g + [articles[|articles| - 1]] else g
  }

  /** Grouping keeps relative order: the group of a concatenation is the concatenation of the groups. */
  lemma {:induction false} GroupKeepsOrder(xs: seq<Article>, ys: seq<Article>, c: string)
    ensures Group(xs + ys, c) == Group(xs, c) + Group(ys, c)
    decreases |ys|
  {
    if ys == [] {
      assert xs + ys == xs;
    } else {
      var n := |ys| - 1;
      assert (xs + ys)[..|xs + ys| - 1] == xs + ys[..n];
      assert (xs + ys)[|xs + ys| - 1] == ys[n];
      GroupKeepsOrder(xs, ys[..n], c);
    }
  }

  /** No article of category `c` is left out of its group. */
  lemma {:induction false} GroupIsComplete(articles: seq<Article>, c: string)
    ensures forall a :: a in articles && a.category == c ==> a in Group(articles, c)
  {
    if articles != [] {
      var n := |articles| - 1;
      GroupIsComplete(articles[..n], c);
      forall a | a in articles && a.category == c
        ensures a in Group(articles, c)
      {
        if a != articles[n] {
          var k :| 0 <= k < |articles| && articles[k] == a;
          assert articles[..n][k] == a;
        }
      }
    }
  }

  /** The section of category `c`. */
  function Render(articles: seq<Article>, c: string): (s: Section)
    ensures s.category == c && s.count == |Group(articles, c)|
    ensures s.shown <= Group(articles, c) && |s.shown| == Min(ShownPerCategory, s.count)
  {
    var g := Group(articles, c);
    Section(c, |g|, Prefix(g, ShownPerCategory))
  }

  /** The sections of `cats`, in order. */
  function Sections(articles: seq<Article>, cats: seq<string>): (r: seq<Section>)
    ensures |r| == |cats|
    ensures forall k :: 0 <= k < |r| ==> r[k] == Render(articles, cats[k])
  {
    if cats == [] then []
    else Sections(articles, cats[..|cats| - 1]) + [Render(articles, cats[|cats| - 1])]
  }

  /** The rendered body of the summary. */
  function Digest(articles: seq<Article>): seq<Section> {
    Sections(articles, Categories(articles))
  }

  /** The sum of the section headings' counts. */
  function Total(sections: seq<Section>): nat {
    if sections == [] then 0
    else Total(sections[..|sections| - 1]) + sections[|sections| - 1].count
  }

  /** Every category listed occurs in the articles, and every article's category is listed, once. */
  lemma {:induction false} CategoriesCover(articles: seq<Article>)
    ensures Distinct(Categories(articles))
    ensures forall c :: c in Categories(articles) <==>
      exists k :: 0 <= k < |articles| && articles[k].category == c
  {
    if articles != [] {
      var n := |articles| - 1;
      var prefix := articles[..n];
      CategoriesCover(prefix);
      forall c
        ensures c in Categories(articles) <==> exists k :: 0 <= k < |articles| && articles[k].category == c
      {
        if exists k :: 0 <= k < |articles| && articles[k].category == c {
          var k :| 0 <= k < |articles| && articles[k].category == c;
          if k < n {
            assert prefix[k].category == c;
          }
        }
        if c in Categories(prefix) {
          var k :| 0 <= k < |prefix| && prefix[k].category == c;
          assert articles[k].category == c;
        }
      }
    }
  }

  /** Some article before position `k` has category `c`. */
  predicate SeenBefore(articles: seq<Article>, k: int, c: string) {
    exists m :: 0 <= m < k && m < |articles| && articles[m].category == c
  }

  /**
   * First-seen order: when category `cats[i]` is listed before `cats[j]`,
   * every article of `cats[j]` has an article of `cats[i]` before it.
   */
  lemma {:induction false} CategoriesInFirstSeenOrder(articles: seq<Article>, i: nat, j: nat, k: nat)
    requires i < j < |Categories(articles)|
    requires k < |articles| && articles[k].category == Categories(articles)[j]
    ensures SeenBefore(articles, k, Categories(articles)[i])
  {
    var cats := Categories(articles);
    var n := |articles| - 1;
    var prefix := articles[..n];
    var older := Categories(prefix);
    CategoriesCover(prefix);
    assert cats[..|older|] == older;
    assert older[i] == cats[i];
    if k < n {
      assert prefix[k].category == cats[j];
      assert j < |older|;
      CategoriesInFirstSeenOrder(prefix, i, j, k);
      var m :| 0 <= m < k && m < |prefix| && prefix[m].category == older[i];
      assert articles[m].category == cats[i];
    } else if j < |older| {
      var k' :| 0 <= k' < |prefix| && prefix[k'].category == older[j];
      CategoriesInFirstSeenOrder(prefix, i, j, k');
      var m :| 0 <= m < k' && m < |prefix| && prefix[m].category == older[i];
      assert articles[m].category == cats[i];
    } else {
      assert cats[i] in older;
      var m :| 0 <= m < |prefix| && prefix[m].category == cats[i];
      assert articles[m].category == cats[i];
    }
  }

  lemma {:induction false} NoGroupOutside(articles: seq<Article>, c: string)
    requires c !in Categories(articles)
    ensures Group(articles, c) == []
  {
    if articles != [] {
      NoGroupOutside(articles[..|articles| - 1], c);
    }
  }

  lemma {:induction false} TotalOfNothing(cats: seq<string>)
    ensures Total(Sections([], cats)) == 0
  {
    if cats != [] {
      TotalOfNothing(cats[..|cats| - 1]);
    }
  }

  lemma {:induction false} TotalGrows(articles: seq<Article>, a: Article, cats: seq<string>)
    requires Distinct(cats)
    ensures Total(Sections(articles + [a], cats)) ==
            Total(Sections(articles, cats)) + if a.category in cats then 1 else 0
  {
    assert (articles + [a])[..|articles|] == articles;
    if cats != [] {
      var n := |cats| - 1;
      TotalGrows(articles, a, cats[..n]);
      assert a.category in cats <==> a.category in cats[..n] || a.category == cats[n];
      assert cats[n] !in cats[..n];
    }
  }

  /** When `cats` lists every category once, the counts of their sections add up to all articles. */
  lemma {:induction false} TotalIsLength(articles: seq<Article>, cats: seq<string>)
    requires Distinct(cats)
    requires forall k :: 0 <= k < |articles| ==> articles[k].category in cats
    ensures Total(Sections(articles, cats)) == |articles|
  {
    if articles == [] {
      TotalOfNothing(cats);
    } else {
      var n := |articles| - 1;
      assert articles[..n] + [articles[n]] == articles;
      TotalIsLength(articles[..n], cats);
      TotalGrows(articles[..n], articles[n], cats);
    }
  }

  /** Every article is counted in exactly one heading: the counts of the digest add up to all articles. */
  lemma DigestCountsAll(articles: seq<Article>)
    ensures Total(Digest(articles)) == |articles|
  {
    CategoriesCover(articles);
    TotalIsLength(articles, Categories(articles));
  }

  /** The grouping loop: fills the per-category lists, keyed in first-seen order. */
  method GroupByCategory(articles: seq<Article>) returns (order: seq<string>, byCategory: map<string, seq<Article>>)
    ensures order == Categories(articles)
    ensures forall c :: c in byCategory <==> c in order
    ensures forall c :: c in byCategory ==> byCategory[c] == Group(articles, c)
  {
    order, byCategory := [], map[];
    for i := 0 to |articles|
      invariant order == Categories(articles[..i])
      invariant forall c :: c in byCategory <==> c in order
      invariant forall c :: c in byCategory ==> byCategory[c] == Group(articles[..i], c)
    {
      assert articles[..i + 1][..i] == articles[..i];
      var cat := articles[i].category;
      if cat !in byCategory {
        NoGroupOutside(articles[..i], cat);
        byCategory := byCategory[cat := []];
        order := order + [cat];
      }
      byCategory := byCategory[cat := byCategory[cat] + [articles[i]]];
    }
    assert articles[..|articles|] == articles;
  }

  /** The rendering loop: one section per category, in first-seen order. */
  method RenderDigest(articles: seq<Article>) returns (sections: seq<Section>)
    ensures sections == Digest(articles)
  {
    var order, byCategory := GroupByCategory(articles);
    sections := [];
    for k := 0 to |order|
      invariant sections == Sections(articles, order[..k])
    {
      assert order[..k + 1][..k] == order[..k];
      var group := byCategory[order[k]];
      sections := sections + [Section(order[k], |group|, Prefix(group, ShownPerCategory))];
    }
    assert order[..|order|] == order;
  }

  /**
   * Without a sender, a recipient or a password nothing is sent. Otherwise
   * the message carries the digest of all `articles` and the added count,
   * and `sent` is what the transport reports.
   */
  method SendEmailSummary(articles: seq<Article>, addedCount: nat, sender: string, recipient: string,
                          password: string, transportOk: bool)
    returns (sent: bool, message: Option<Email>)
    ensures sender == "" || recipient == "" || password == "" ==> !sent && message == None
    ensures sender != "" && recipient != "" && password != "" ==>
      message == Some(Email(sender, recipient, addedCount, Digest(articles))) && sent == transportOk
  {
    if sender == "" || recipient == "" || password == "" {
      return false, None;
    }
    var sections := RenderDigest(articles);
    message := Some(Email(sender, recipient, addedCount, sections));
    sent := transportOk;
  }
}
