/** `GET /api/feed` (src/app/api/feed/route.ts): one page of the public capsules
    that have unlocked. */
module Feed {
  import opened Wrappers
  import opened Db
  import Lists

  const PageSize: nat := 12

  /** The query string: `language`, `sort` and `page` as given; `page` is
      `None` when absent or empty and otherwise the number it reads as. */
  datatype Query = Query(language: Option<string>, sort: Option<string>, page: Option<int>)

  datatype Sort = Recent | Popular

  /** Line 12: only the exact value 'popular' picks the popularity order. */
  function SortOf(q: Query): (r: Sort)
    ensures r == Popular <==> q.sort == Some("popular")
  {
    if q.sort == Some("popular") then Popular else Recent
  }

  /** Line 13: `Number(page || '1')`. */
  function PageOf(q: Query): (r: int)
    ensures q.page.None? ==> r == 1
    ensures q.page.Some? ==> r == q.page.value
  {
    match q.page
    case None => 1
    case Some(n) => n
  }

  /** Lines 18-23: exactly the public, unlocked, live capsules, and among
      them exactly those in the language asked for when one is given (an
      empty language means none). */
  predicate Where(c: Capsule, language: Option<string>): (r: bool)
    ensures (language.None? || language == Some("")) ==>
      (r <==> c.accessMode == Public && c.isUnlocked && !c.isDeleted)
    ensures language.Some? && language.value != [] ==>
      (r <==> c.accessMode == Public && c.isUnlocked && !c.isDeleted && c.language == language)
  {
    && c.accessMode == Public && c.isUnlocked && !c.isDeleted
    && (language.Some? && language.value != [] ==> c.language == language)
  }

  function CommentCount(comments: map<nat, nat>, id: nat): nat
  {
    if id in comments then comments[id] else 0
  }

  /** `[{ unlockDate: desc }, { createdAt: desc }]`. */
  predicate RecentFirst(a: Capsule, b: Capsule)
  {
    a.unlockDate > b.unlockDate || (a.unlockDate == b.unlockDate && a.createdAt >= b.createdAt)
  }

  /** `[{ comments: { _count: desc } }, { unlockDate: desc }]`. */
  predicate PopularFirst(comments: map<nat, nat>, a: Capsule, b: Capsule)
  {
    var ca, cb := CommentCount(comments, a.id), CommentCount(comments, b.id);
    ca > cb || (ca == cb && a.unlockDate >= b.unlockDate)
  }

  /** The `orderBy` chosen by the sort. */
  function Order(comments: map<nat, nat>, s: Sort): (Capsule, Capsule) -> bool
  {
    if s == Popular then (a: Capsule, b: Capsule) => PopularFirst(comments, a, b)
    else (a: Capsule, b: Capsule) => RecentFirst(a, b)
  }

  /** Both orders are consistent comparators. */
  lemma OrderIsTotalPreorder(comments: map<nat, nat>, s: Sort)
    ensures Lists.TotalPreorder(Order(comments, s))
  {
  }

  /** One feed entry, with its comment count (the author join is not modelled). */
  datatype Item = Item(id: nat, title: string, description: Option<string>, language: Option<string>,
                       unlockDate: int, createdAt: int, comments: nat)

  predicate ItemRecentFirst(a: Item, b: Item)
  {
    a.unlockDate > b.unlockDate || (a.unlockDate == b.unlockDate && a.createdAt >= b.createdAt)
  }

  predicate ItemPopularFirst(a: Item, b: Item)
  {
    a.comments > b.comments || (a.comments == b.comments && a.unlockDate >= b.unlockDate)
  }

  function ToItem(comments: map<nat, nat>, c: Capsule): Item
  {
    Item(c.id, c.title, c.description, c.language, c.unlockDate, c.createdAt, CommentCount(comments, c.id))
  }

  /** The entries of a page, capsule by capsule. */
  function Items(comments: map<nat, nat>, w: seq<Capsule>): (r: seq<Item>)
    ensures |r| == |w|
    ensures forall i :: 0 <= i < |w| ==> r[i] == ToItem(comments, w[i])
  {
    seq(|w|, i requires 0 <= i < |w| => ToItem(comments, w[i]))
  }

  /** The response body's `pagination` and `capsules`. */
  datatype Page = Page(capsules: seq<Item>, total: nat, pages: nat, currentPage: int, pageSize: nat)

  /** Line 71: `Math.ceil(total / 12)`. */
  function Pages(total: nat): (pages: nat)
    ensures pages * PageSize >= total
    ensures pages > 0 ==> (pages - 1) * PageSize < total
    ensures total == 0 <==> pages == 0
  {
    (total + PageSize - 1) / PageSize
  }

  /** The matching capsules in feed order, before the page window. */
  function Matching(rows: seq<Capsule>, comments: map<nat, nat>, q: Query): seq<Capsule>
  {
    Lists.SortBy(Lists.Filter(rows, (c: Capsule) => Where(c, q.language)), Order(comments, SortOf(q)))
  }

  /** The handler; a page below 1 gives a negative `skip`, which the store
      refuses, and the handler answers 500. */
  function Get(rows: seq<Capsule>, comments: map<nat, nat>, q: Query): (r: Result<Page, int>)
    ensures r.Err? <==> PageOf(q) < 1
    ensures r.Err? ==> r.error == 500
    ensures r.Ok? ==>
      && |r.value.capsules| <= PageSize
      && r.value.pageSize == PageSize
      && r.value.currentPage == PageOf(q)
      && r.value.pages == Pages(r.value.total)
  {
    var page := PageOf(q);
    var skip := (page - 1) * PageSize;
    if skip < 0 then Err(500)
    else
      var all := Matching(rows, comments, q);
      var window := Lists.Window(all, skip, PageSize);
      var total := |Lists.Filter(rows, (c: Capsule) => Where(c, q.language))|;
      Ok(Page(Items(comments, window), total, Pages(total), page, PageSize))
  }

  /** Every entry on a page passes the filter, the page is the window
      `skip = (page - 1) * 12` of the ordered matches, and the total counts the
      same matches. */
  lemma PageContents(rows: seq<Capsule>, comments: map<nat, nat>, q: Query)
    requires PageOf(q) >= 1
    ensures var p := Get(rows, comments, q).value;
      var all := Matching(rows, comments, q);
      var skip := (PageOf(q) - 1) * PageSize;
      && p.total == |all|
      && |p.capsules| == |Lists.Window(all, skip, PageSize)|
      && (forall i :: 0 <= i < |p.capsules| ==>
            skip + i < |all| && p.capsules[i] == ToItem(comments, all[skip + i]) && Where(all[skip + i], q.language))
  {
    PageItems(rows, comments, q);
    MatchesPass(rows, comments, q);
    var all := Matching(rows, comments, q);
    var skip := (PageOf(q) - 1) * PageSize;
    var w := Lists.Window(all, skip, PageSize);
    var p := Get(rows, comments, q).value;
    forall i | 0 <= i < |p.capsules|
      ensures skip + i < |all| && p.capsules[i] == ToItem(comments, all[skip + i]) && Where(all[skip + i], q.language)
    {
      assert p.capsules[i] == ToItem(comments, w[i]);
      assert w[i] == all[skip + i];
    }
  }

  /** The page's entries are the window's capsules as items, and the total
      is the number of ordered matches. */
  lemma PageItems(rows: seq<Capsule>, comments: map<nat, nat>, q: Query)
    requires PageOf(q) >= 1
    ensures var p := Get(rows, comments, q).value;
      var all := Matching(rows, comments, q);
      var w := Lists.Window(all, (PageOf(q) - 1) * PageSize, PageSize);
      && p.total == |all|
      && |p.capsules| == |w|
      && forall i :: 0 <= i < |w| ==> p.capsules[i] == ToItem(comments, w[i])
  {
    var f := Lists.Filter(rows, (c: Capsule) => Where(c, q.language));
    assert |Matching(rows, comments, q)| == |f|;
  }

  /** Every capsule of the ordered matches passes the filter. */
  lemma MatchesPass(rows: seq<Capsule>, comments: map<nat, nat>, q: Query)
    ensures var all := Matching(rows, comments, q);
      forall i :: 0 <= i < |all| ==> Where(all[i], q.language)
  {
    var f := Lists.Filter(rows, (c: Capsule) => Where(c, q.language));
    var all := Matching(rows, comments, q);
    Lists.SortByMembers(f, Order(comments, SortOf(q)));
    assert forall i :: 0 <= i < |all| ==> all[i] in f;
  }

  /** The entries of a page are in the chosen order. */
  lemma GetOrdered(rows: seq<Capsule>, comments: map<nat, nat>, q: Query)
    requires PageOf(q) >= 1
    ensures var p := Get(rows, comments, q).value;
      forall i, j :: 0 <= i < j < |p.capsules| ==>
        (if SortOf(q) == Popular
         then ItemPopularFirst(p.capsules[i], p.capsules[j])
         else ItemRecentFirst(p.capsules[i], p.capsules[j]))
  {
    var le := Order(comments, SortOf(q));
    var f := Lists.Filter(rows, (c: Capsule) => Where(c, q.language));
    var all := Matching(rows, comments, q);
    var skip := (PageOf(q) - 1) * PageSize;
    OrderIsTotalPreorder(comments, SortOf(q));
    Lists.SortBySorted(f, le);
    Lists.WindowSorted(all, skip, PageSize, le);
    PageContents(rows, comments, q);
    var w := Lists.Window(all, skip, PageSize);
    var p := Get(rows, comments, q).value;
    forall i, j | 0 <= i < j < |p.capsules|
      ensures le(w[i], w[j])
    {
    }
  }

  /** Pages 1 to `pages` are non-empty; pages after the last are empty. */
  lemma PageCoverage(rows: seq<Capsule>, comments: map<nat, nat>, q: Query)
    requires PageOf(q) >= 1
    ensures var p := Get(rows, comments, q).value;
      && (PageOf(q) <= p.pages ==> |p.capsules| > 0)
      && (PageOf(q) > p.pages ==> p.capsules == [])
      && (PageOf(q) < p.pages ==> |p.capsules| == PageSize)
  {
    PageContents(rows, comments, q);
  }
}
