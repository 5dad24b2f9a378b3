/**
 * GET /api/stories: the listing engine. The query's filters are applied one
 * after another, the survivors are ranked in place (priority first, then
 * boosted, then most votes), and one page of the ranking is returned with
 * pagination metadata.
 */
module StoriesApi {
  import opened Wrappers
  import opened JsString
  import opened JsArray
  import opened StoryRecord

  const DefaultPage := 1
  const DefaultLimit := 10
  /** A story with more votes than this counts as featured. */
  const FeaturedVoteThreshold := 35

  /** The query string; a parameter that was not sent is None. */
  datatype Query = Query(
    page: Option<int>,
    limit: Option<int>,
    category: Option<string>,
    featured: Option<string>,
    userId: Option<string>)

  datatype Pagination = Pagination(
    currentPage: int,
    /** `Math.ceil(total / limit)`; None when `limit` is 0 (Infinity or NaN, which JSON writes as null). */
    totalPages: Option<int>,
    totalStories: nat,
    hasNext: bool,
    hasPrev: bool)

  /** The filters echoed back, each null unless it was given. */
  datatype FilterEcho = FilterEcho(category: Option<string>, featured: Option<string>, userId: Option<string>)

  datatype ListResponse =
    | Listed(stories: seq<Story>, pagination: Pagination, filters: FilterEcho)
    | MethodNotAllowed

  function StatusCode(r: ListResponse): int {
    if r.Listed? then 200 else 405
  }

  /** JavaScript truthiness of an optional string parameter: sent and not empty. */
  predicate Given(o: Option<string>) {
    o.Some? && o.value != ""
  }

  function Echo(o: Option<string>): (r: Option<string>)
    ensures r.Some? <==> Given(o)
  {
    if Given(o) then o else None
  }

  predicate InCategory(category: string, s: Story) {
    IncludesIgnoringCase(s.category, category)
  }

  predicate IsFeatured(s: Story) {
    s.isPriority || s.isBoosted || s.votes > FeaturedVoteThreshold
  }

  predicate ByAuthor(userId: string, s: Story) {
    s.authorId == userId
  }

  /** A story passes every filter that the query supplies. */
  predicate Matches(q: Query, s: Story) {
    && (Given(q.category) ==> InCategory(q.category.value, s))
    && (q.featured == Some("true") ==> IsFeatured(s))
    && (Given(q.userId) ==> ByAuthor(q.userId.value, s))
  }

  function CategoryTest(category: string): Story -> bool {
    (st: Story) => InCategory(category, st)
  }

  function AuthorTest(userId: string): Story -> bool {
    (st: Story) => ByAuthor(userId, st)
  }

  /** The `category` step: the stories whose category contains the term, ignoring case. */
  function FilterCategory(s: seq<Story>, category: string): (r: seq<Story>)
    ensures forall i :: 0 <= i < |r| ==> r[i] in s && InCategory(category, r[i])
    ensures forall i :: 0 <= i < |s| && InCategory(category, s[i]) ==> s[i] in r
  {
    FilterMembers(s, CategoryTest(category));
    Filter(s, CategoryTest(category))
  }

  /** The `featured=true` step: priority, boosted or more than 35 votes. */
  function FilterFeatured(s: seq<Story>): (r: seq<Story>)
    ensures forall i :: 0 <= i < |r| ==> r[i] in s && IsFeatured(r[i])
    ensures forall i :: 0 <= i < |s| && IsFeatured(s[i]) ==> s[i] in r
  {
    FilterMembers(s, IsFeatured);
    Filter(s, IsFeatured)
  }

  /** The `userId` step: the stories of that author. */
  function FilterAuthor(s: seq<Story>, userId: string): (r: seq<Story>)
    ensures forall i :: 0 <= i < |r| ==> r[i] in s && ByAuthor(userId, r[i])
    ensures forall i :: 0 <= i < |s| && ByAuthor(userId, s[i]) ==> s[i] in r
  {
    FilterMembers(s, AuthorTest(userId));
    Filter(s, AuthorTest(userId))
  }

  /** The filter pipeline: each supplied filter narrows the previous result. */
  function Filtered(all: seq<Story>, q: Query): (r: seq<Story>)
    ensures forall i :: 0 <= i < |r| ==> r[i] in all && Matches(q, r[i])
    ensures forall i :: 0 <= i < |all| && Matches(q, all[i]) ==> all[i] in r
  {
    var byCategory := if Given(q.category) then FilterCategory(all, q.category.value) else all;
    var byFeatured := if q.featured == Some("true") then FilterFeatured(byCategory) else byCategory;
    if Given(q.userId) then FilterAuthor(byFeatured, q.userId.value) else byFeatured
  }

  /** The three steps of the pipeline, each a test that passes everything when its parameter is absent. */
  function PassCategory(q: Query): Story -> bool {
    (st: Story) => Given(q.category) ==> InCategory(q.category.value, st)
  }

  function PassFeatured(q: Query): Story -> bool {
    (st: Story) => q.featured == Some("true") ==> IsFeatured(st)
  }

  function PassAuthor(q: Query): Story -> bool {
    (st: Story) => Given(q.userId) ==> ByAuthor(q.userId.value, st)
  }

  function MatchTest(q: Query): Story -> bool {
    (st: Story) => Matches(q, st)
  }

  /** Running the filters one after another is a single filter by `Matches`. */
  lemma FilteredIsOneFilter(all: seq<Story>, q: Query)
    ensures Filtered(all, q) == Filter(all, MatchTest(q))
  {
    var c, f, u := PassCategory(q), PassFeatured(q), AuthorTest(q.userId.GetOr(""));
    var byCategory := if Given(q.category) then FilterCategory(all, q.category.value) else all;
    if Given(q.category) {
      FilterSameTest(all, CategoryTest(q.category.value), c);
    } else {
      FilterKeepsAll(all, c);
    }
    var byFeatured := if q.featured == Some("true") then FilterFeatured(byCategory) else byCategory;
    if q.featured == Some("true") {
      FilterSameTest(byCategory, IsFeatured, f);
    } else {
      FilterKeepsAll(byCategory, f);
    }
    if Given(q.userId) {
      FilterSameTest(byFeatured, AuthorTest(q.userId.value), PassAuthor(q));
    } else {
      FilterKeepsAll(byFeatured, PassAuthor(q));
    }
    var cf := (st: Story) => c(st) && f(st);
    FilterFilter(all, c, f, cf);
    FilterFilter(all, cf, PassAuthor(q), MatchTest(q));
  }

  /** Filtering keeps the input order: it distributes over concatenation. */
  lemma FilteredAppend(a: seq<Story>, b: seq<Story>, q: Query)
    ensures Filtered(a + b, q) == Filtered(a, q) + Filtered(b, q)
  {
    var c, f, u := CategoryTest(q.category.GetOr("")), IsFeatured, AuthorTest(q.userId.GetOr(""));
    FilterAppend(a, b, c);
    var a1 := if Given(q.category) then Filter(a, c) else a;
    var b1 := if Given(q.category) then Filter(b, c) else b;
    FilterAppend(a1, b1, f);
    var a2 := if q.featured == Some("true") then Filter(a1, f) else a1;
    var b2 := if q.featured == Some("true") then Filter(b1, f) else b1;
    FilterAppend(a2, b2, u);
  }

  /** Filters that every story passes (in particular, filters not given) remove nothing. */
  lemma FilteredKeepsMatching(all: seq<Story>, q: Query)
    requires forall i :: 0 <= i < |all| ==> Matches(q, all[i])
    ensures Filtered(all, q) == all
  {
    if Given(q.category) {
      FilterKeepsAll(all, CategoryTest(q.category.value));
    }
    if q.featured == Some("true") {
      FilterKeepsAll(all, IsFeatured);
    }
    if Given(q.userId) {
      FilterKeepsAll(all, AuthorTest(q.userId.value));
    }
  }

  /** `a` belongs strictly before `b`: priority, then boost, then votes, compared in that order. */
  predicate RanksBefore(a: Story, b: Story) {
    || (a.isPriority && !b.isPriority)
    || (a.isPriority == b.isPriority && a.isBoosted && !b.isBoosted)
    || (a.isPriority == b.isPriority && a.isBoosted == b.isBoosted && a.votes > b.votes)
  }

  /** The ranking comparator: priority first, then boosted, then more votes. */
  function RankCmp(a: Story, b: Story): (c: int)
    ensures c < 0 <==> RanksBefore(a, b)
    ensures c > 0 <==> RanksBefore(b, a)
    ensures c == 0 <==> a.isPriority == b.isPriority && a.isBoosted == b.isBoosted && a.votes == b.votes
  {
    if a.isPriority && !b.isPriority then -1
    else if !a.isPriority && b.isPriority then 1
    else if a.isBoosted && !b.isBoosted then -1
    else if !a.isBoosted && b.isBoosted then 1
    else b.votes - a.votes
  }

  /** The ranking comparator is consistent, so the sort is well defined. */
  lemma RankCmpConsistent()
    ensures TotalPreorder(RankCmp)
  {
  }

  /** The filtered stories in ranked order. */
  function Ranked(all: seq<Story>, q: Query): seq<Story> {
    StableSort(Filtered(all, q), RankCmp)
  }

  /**
   * The ranking puts every priority story before every other; among equal
   * priority, boosted before not boosted; among equals in both, votes do not
   * increase. It is a permutation of the filtered stories.
   */
  lemma RankedOrder(all: seq<Story>, q: Query)
    ensures multiset(Ranked(all, q)) == multiset(Filtered(all, q))
    ensures forall i, j :: 0 <= i < j < |Ranked(all, q)| ==>
              var a, b := Ranked(all, q)[i], Ranked(all, q)[j];
              && (b.isPriority ==> a.isPriority)
              && (a.isPriority == b.isPriority && b.isBoosted ==> a.isBoosted)
              && (a.isPriority == b.isPriority && a.isBoosted == b.isBoosted ==> a.votes >= b.votes)
  {
    SortPermutes(Filtered(all, q), RankCmp);
    RankCmpConsistent();
    SortSorted(Filtered(all, q), RankCmp);
    var r := Ranked(all, q);
    forall i, j | 0 <= i < j < |r|
      ensures RankCmp(r[i], r[j]) <= 0
    {
    }
  }

  /** Stories the comparator ties keep the order the filters left them in. */
  lemma RankedStable(all: seq<Story>, q: Query, tied: Story -> bool)
    requires forall a, b :: tied(a) && tied(b) ==> RankCmp(a, b) == 0
    ensures Filter(Ranked(all, q), tied) == Filter(Filtered(all, q), tied)
  {
    SortStable(Filtered(all, q), RankCmp, tied);
  }

  /** `Math.ceil(n / d)` over the integers; None when `d` is 0. */
  function CeilDiv(n: nat, d: int): (r: Option<int>)
    ensures r.None? <==> d == 0
    ensures d > 0 ==> (r.value - 1) * d < n <= r.value * d
    ensures d < 0 ==> r.value * d <= n < (r.value - 1) * d
  {
    if d == 0 then None
    else if d > 0 then
      var k := (n + d - 1) / d;
      assert n + d - 1 == k * d + (n + d - 1) % d;
      assert (k - 1) * d == k * d - d;
      Some(k)
    else
      var k := n / -d;
      assert n == k * -d + n % -d;
      Some(-k)
  }

  /** Page `page` of `limit` items: `slice((page - 1) * limit, (page - 1) * limit + limit)`. */
  function PageOf<T>(s: seq<T>, page: int, limit: int): (r: seq<T>)
    ensures 0 <= limit ==> |r| <= limit
    ensures forall i :: 0 <= i < |r| ==> r[i] in s
  {
    var start := (page - 1) * limit;
    Slice(s, start, start + limit)
  }

  /** The metadata of page `page` of `limit` items out of `total`. */
  function PaginationOf(total: nat, page: int, limit: int): (p: Pagination)
    ensures p.currentPage == page && p.totalStories == total
    ensures p.totalPages == CeilDiv(total, limit)
    ensures p.hasPrev <==> page > 1
    ensures p.hasNext <==> page * limit < total
  {
    assert (page - 1) * limit + limit == page * limit;
    var endIndex := (page - 1) * limit + limit;
    Pagination(page, CeilDiv(total, limit), total, endIndex < total, page > 1)
  }

  lemma MulMonotone(a: int, b: int, c: nat)
    requires a <= b
    ensures a * c <= b * c
  {
  }

  /** For a real page size, page `page` is the window starting at `(page - 1) * limit`, clipped to the list. */
  lemma PageWindow<T>(s: seq<T>, page: int, limit: int)
    requires page >= 1 && limit >= 1
    ensures var start := (page - 1) * limit;
            && 0 <= start
            && PageOf(s, page, limit) == if start < |s| then s[start..if start + limit < |s| then start + limit else |s|] else []
  {
    MulMonotone(0, page - 1, limit);
  }

  /**
   * The metadata: `totalPages` is the ceiling of `total / limit`, and there
   * is a next page exactly when this page comes before the last one.
   */
  lemma PaginationMeaning(total: nat, page: int, limit: int)
    requires page >= 1 && limit >= 1
    ensures var p := PaginationOf(total, page, limit);
            && p.totalPages.Some?
            && (p.totalPages.value - 1) * limit < total <= p.totalPages.value * limit
            && (p.hasNext <==> page < p.totalPages.value)
  {
    var pages := CeilDiv(total, limit).value;
    assert (page - 1) * limit + limit == page * limit;
    if page < pages {
      MulMonotone(page, pages - 1, limit);
    } else {
      MulMonotone(pages, page, limit);
    }
  }

  /** A page past the last one is empty and has no next page. */
  lemma PastLastPage<T>(s: seq<T>, page: int, limit: int)
    requires limit >= 1
    requires page >= 1 && page > CeilDiv(|s|, limit).value
    ensures PageOf(s, page, limit) == []
    ensures !PaginationOf(|s|, page, limit).hasNext
  {
    PaginationMeaning(|s|, page, limit);
    PageWindow(s, page, limit);
    MulMonotone(CeilDiv(|s|, limit).value, page - 1, limit);
  }

  /** Page 0 ends where the list starts, so it is always empty. */
  lemma PageZeroIsEmpty<T>(s: seq<T>, limit: int)
    requires limit >= 0
    ensures PageOf(s, 0, limit) == []
  {
    SliceEmptyWindow(s, -limit, 0);
  }

  /** A negative page counts back from the end of the list: page -1 is the second-to-last window of `limit`. */
  lemma NegativePageFromEnd<T>(s: seq<T>, page: int, limit: int)
    requires page <= -1 && limit >= 1 && (1 - page) * limit <= |s|
    ensures PageOf(s, page, limit) == s[|s| + (page - 1) * limit..|s| + page * limit]
  {
    var start := (page - 1) * limit;
    assert start + limit == page * limit;
    MulMonotone(page, -1, limit);
    SliceCountsFromEnd(s, start, start + limit);
    SliceCountsFromEnd(s, |s| + start, start + limit);
  }

  /** Pages 1 to `n`, one after another. */
  function PagesThrough<T>(s: seq<T>, limit: int, n: nat): seq<T> {
    if n == 0 then [] else PagesThrough(s, limit, n - 1) + PageOf(s, n, limit)
  }

  lemma PrefixSplit<T>(s: seq<T>, lo: int, end: int)
    requires 0 <= lo <= end <= |s|
    ensures s[..lo] + s[lo..end] == s[..end]
  {
  }

  lemma {:induction false} PagesThroughPrefix<T>(s: seq<T>, limit: int, n: nat)
    requires limit >= 1
    ensures PagesThrough(s, limit, n) == s[..if n * limit < |s| then n * limit else |s|]
  {
    if n > 0 {
      PagesThroughPrefix(s, limit, n - 1);
      PageWindow(s, n, limit);
      var lo, hi := (n - 1) * limit, n * limit;
      assert lo + limit == hi;
      if lo < |s| {
        var end := if hi < |s| then hi else |s|;
        PrefixSplit(s, lo, end);
      }
    }
  }

  /** Reading pages 1 to `totalPages` in turn gives back the whole list, each story once. */
  lemma PagesCoverList<T>(s: seq<T>, limit: int)
    requires limit >= 1
    ensures PagesThrough(s, limit, CeilDiv(|s|, limit).value) == s
  {
    PagesThroughPrefix(s, limit, CeilDiv(|s|, limit).value);
  }

  /** The whole GET response. */
  function Listing(all: seq<Story>, q: Query): (r: ListResponse)
    ensures r.Listed?
    ensures r.pagination.currentPage == q.page.GetOr(DefaultPage)
    ensures r.pagination.totalStories == |Filtered(all, q)|
    ensures 0 <= q.limit.GetOr(DefaultLimit) ==> |r.stories| <= q.limit.GetOr(DefaultLimit)
    ensures (r.filters.category.Some? <==> Given(q.category)) && (r.filters.category.Some? ==> r.filters.category == q.category)
    ensures (r.filters.featured.Some? <==> Given(q.featured)) && (r.filters.featured.Some? ==> r.filters.featured == q.featured)
    ensures (r.filters.userId.Some? <==> Given(q.userId)) && (r.filters.userId.Some? ==> r.filters.userId == q.userId)
  {
    var page, limit := q.page.GetOr(DefaultPage), q.limit.GetOr(DefaultLimit);
    var ranked := Ranked(all, q);
    Listed(PageOf(ranked, page, limit), PaginationOf(|ranked|, page, limit),
           FilterEcho(Echo(q.category), Echo(q.featured), Echo(q.userId)))
  }

  /**
   * Every listed story is one of the catalogue's and passes every filter;
   * `totalStories` counts all the stories that pass, not just this page.
   */
  lemma ListingSound(all: seq<Story>, q: Query)
    ensures var r := Listing(all, q);
            && r.pagination.totalStories == |Filtered(all, q)|
            && forall i :: 0 <= i < |r.stories| ==> r.stories[i] in all && Matches(q, r.stories[i])
  {
    var f, r := Filtered(all, q), Listing(all, q).stories;
    SortPermutes(f, RankCmp);
    forall i | 0 <= i < |r|
      ensures r[i] in all && Matches(q, r[i])
    {
      assert r[i] in multiset(Ranked(all, q));
      var k :| 0 <= k < |f| && f[k] == r[i];
    }
  }


  /** Without `page` and `limit` the response is the first ten ranked stories. */
  lemma ListingDefaults(all: seq<Story>, q: Query)
    requires q.page.None? && q.limit.None?
    ensures var r, n := Listing(all, q), |Ranked(all, q)|;
            && r.pagination.currentPage == 1
            && !r.pagination.hasPrev
            && r.stories == Ranked(all, q)[..if n < 10 then n else 10]
            && (r.pagination.hasNext <==> n > 10)
  {
    PageWindow(Ranked(all, q), 1, 10);
  }

  /** The filter pipeline as the handler runs it, narrowing one list step by step. */
  method ApplyFilters(all: seq<Story>, q: Query) returns (filtered: seq<Story>)
    ensures filtered == Filtered(all, q)
  {
    filtered := all;
    if Given(q.category) {
      filtered := FilterCategory(filtered, q.category.value);
    }
    if q.featured == Some("true") {
      filtered := FilterFeatured(filtered);
    }
    if Given(q.userId) {
      filtered := FilterAuthor(filtered, q.userId.value);
    }
  }

  /** The request handler: GET lists, any other method is refused with 405. */
  method Handle(httpMethod: string, all: seq<Story>, q: Query) returns (resp: ListResponse)
    ensures httpMethod != "GET" ==> resp == MethodNotAllowed
    ensures httpMethod == "GET" ==> resp == Listing(all, q)
  {
    if httpMethod != "GET" {
      return MethodNotAllowed;
    }
    var page, limit := q.page.GetOr(DefaultPage), q.limit.GetOr(DefaultLimit);
    var filtered := ApplyFilters(all, q);
    var stories := new Story[|filtered|](i requires 0 <= i < |filtered| => filtered[i]);
    assert stories[..] == filtered;
    SortInPlace(stories, RankCmp);
    var ranked := stories[..];
    assert ranked == Ranked(all, q);
    resp := Listed(PageOf(ranked, page, limit), PaginationOf(|ranked|, page, limit),
                   FilterEcho(Echo(q.category), Echo(q.featured), Echo(q.userId)));
  }
}
