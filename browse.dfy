/**
 * The browse page (src/components/Stories.js): a case-insensitive search over
 * title, content and author, a mode filter, one of four explicit sorts over a
 * copy of the filtered list, and a 200-character excerpt of each story.
 */
module Browse {
  import opened Wrappers
  import opened JsString
  import opened JsArray
  import StoryRecord

  /**
   * A story as the page reads it: the component guards the text fields and
   * the vote count against being absent.
   */
  datatype Card = Card(
    id: int,
    title: Option<string>,
    content: Option<string>,
    author: Option<string>,
    votes: Option<int>,
    isPriority: bool,
    isBoosted: bool,
    createdAt: int)

  /** The card for a story served by the listing endpoint, where every field is present. */
  function FromStory(s: StoryRecord.Story): Card {
    Card(s.id, Some(s.title), Some(s.content), Some(s.author), Some(s.votes), s.isPriority, s.isBoosted, s.createdAt)
  }

  /** `field?.toLowerCase().includes(term.toLowerCase())`, false when the field is absent. */
  predicate FieldMatches(field: Option<string>, term: string) {
    field.Some? && IncludesIgnoringCase(field.value, term)
  }

  predicate MatchesSearch(c: Card, term: string) {
    FieldMatches(c.title, term) || FieldMatches(c.content, term) || FieldMatches(c.author, term)
  }

  /** The filter callback: the search, narrowed by the 'priority' or 'boosted' mode. */
  predicate Keep(c: Card, mode: string, term: string)
    ensures Keep(c, mode, term) <==>
              && MatchesSearch(c, term)
              && (mode == "priority" ==> c.isPriority)
              && (mode == "boosted" ==> c.isBoosted)
  {
    if mode == "all" then MatchesSearch(c, term)
    else if mode == "priority" then MatchesSearch(c, term) && c.isPriority
    else if mode == "boosted" then MatchesSearch(c, term) && c.isBoosted
    else MatchesSearch(c, term)
  }

  function KeepTest(mode: string, term: string): Card -> bool {
    (c: Card) => Keep(c, mode, term)
  }

  /** `filteredStories`. */
  function FilteredCards(cards: seq<Card>, mode: string, term: string): (r: seq<Card>)
    ensures forall i :: 0 <= i < |r| ==>
              && r[i] in cards
              && MatchesSearch(r[i], term)
              && (mode == "priority" ==> r[i].isPriority)
              && (mode == "boosted" ==> r[i].isBoosted)
    ensures forall i :: 0 <= i < |cards| ==>
              MatchesSearch(cards[i], term)
              && (mode == "priority" ==> cards[i].isPriority)
              && (mode == "boosted" ==> cards[i].isBoosted)
              ==> cards[i] in r
  {
    FilterMembers(cards, KeepTest(mode, term));
    Filter(cards, KeepTest(mode, term))
  }

  /** An empty search term matches exactly the cards that have a title, content or author. */
  lemma EmptySearchMatchesAnyText(c: Card)
    ensures MatchesSearch(c, "") <==> c.title.Some? || c.content.Some? || c.author.Some?
  {
    assert ToLower("") == "";
    if c.title.Some? { IncludesEmpty(ToLower(c.title.value)); }
    if c.content.Some? { IncludesEmpty(ToLower(c.content.value)); }
    if c.author.Some? { IncludesEmpty(ToLower(c.author.value)); }
  }

  /** With no search term and no mode, every served story is listed, in order. */
  lemma EmptySearchKeepsServedStories(stories: seq<StoryRecord.Story>)
    ensures FilteredCards(seq(|stories|, i requires 0 <= i < |stories| => FromStory(stories[i])), "all", "")
            == seq(|stories|, i requires 0 <= i < |stories| => FromStory(stories[i]))
  {
    var cards := seq(|stories|, i requires 0 <= i < |stories| => FromStory(stories[i]));
    forall i | 0 <= i < |cards|
      ensures KeepTest("all", "")(cards[i])
    {
      EmptySearchMatchesAnyText(cards[i]);
    }
    FilterKeepsAll(cards, KeepTest("all", ""));
  }

  function VotesOrZero(c: Card): int {
    c.votes.GetOr(0)
  }

  function TitleOrEmpty(c: Card): string {
    c.title.GetOr("")
  }

  /**
   * The comparator for `sortBy`. `collate` stands for `localeCompare`, whose
   * order depends on the user's locale.
   */
  function CardCmp(sortBy: string, collate: (string, string) -> int): (cmp: (Card, Card) -> int)
    ensures sortBy == "newest" ==> forall a, b :: cmp(a, b) < 0 <==> a.createdAt > b.createdAt
    ensures sortBy == "oldest" ==> forall a, b :: cmp(a, b) < 0 <==> a.createdAt < b.createdAt
    ensures sortBy == "votes" ==> forall a, b :: cmp(a, b) < 0 <==> VotesOrZero(a) > VotesOrZero(b)
    ensures sortBy == "title" ==> forall a, b :: cmp(a, b) == collate(TitleOrEmpty(a), TitleOrEmpty(b))
    ensures sortBy !in ["newest", "oldest", "votes", "title"] ==> forall a, b :: cmp(a, b) == 0
  {
    (a: Card, b: Card) =>
      if sortBy == "newest" then b.createdAt - a.createdAt
      else if sortBy == "oldest" then a.createdAt - b.createdAt
      else if sortBy == "votes" then VotesOrZero(b) - VotesOrZero(a)
      else if sortBy == "title" then collate(TitleOrEmpty(a), TitleOrEmpty(b))
      else 0
  }

  /** `sortedStories`: the filtered cards, sorted on a copy. */
  function SortedCards(cards: seq<Card>, mode: string, term: string, sortBy: string,
                       collate: (string, string) -> int): seq<Card>
  {
    StableSort(FilteredCards(cards, mode, term), CardCmp(sortBy, collate))
  }

  /** The page's comparators are consistent whenever the locale's collation is. */
  lemma CardCmpConsistent(sortBy: string, collate: (string, string) -> int)
    requires TotalPreorder(collate)
    ensures TotalPreorder(CardCmp(sortBy, collate))
  {
    var cmp := CardCmp(sortBy, collate);
    forall a, b
      ensures Sign(cmp(a, b)) == -Sign(cmp(b, a))
    {
      if sortBy == "title" {
        assert Sign(collate(TitleOrEmpty(a), TitleOrEmpty(b))) == -Sign(collate(TitleOrEmpty(b), TitleOrEmpty(a)));
      }
    }
    forall a, b, c | cmp(a, b) <= 0 && cmp(b, c) <= 0
      ensures cmp(a, c) <= 0
    {
      if sortBy == "title" {
        var ta, tb, tc := TitleOrEmpty(a), TitleOrEmpty(b), TitleOrEmpty(c);
        assert collate(ta, tb) <= 0 && collate(tb, tc) <= 0;
      }
    }
  }

  /** Sorting loses and duplicates no card. */
  lemma SortedCardsPermutes(cards: seq<Card>, mode: string, term: string, sortBy: string,
                            collate: (string, string) -> int)
    ensures multiset(SortedCards(cards, mode, term, sortBy, collate)) == multiset(FilteredCards(cards, mode, term))
  {
    SortPermutes(FilteredCards(cards, mode, term), CardCmp(sortBy, collate));
  }

  /**
   * 'newest' orders by creation time, latest first; 'oldest' earliest first;
   * 'votes' by vote count, most first, a missing count read as 0; 'title' by
   * the locale's collation.
   */
  lemma SortedCardsOrder(cards: seq<Card>, mode: string, term: string, sortBy: string,
                         collate: (string, string) -> int)
    requires TotalPreorder(collate)
    ensures var r := SortedCards(cards, mode, term, sortBy, collate);
            forall i, j :: 0 <= i < j < |r| ==>
              && (sortBy == "newest" ==> r[i].createdAt >= r[j].createdAt)
              && (sortBy == "oldest" ==> r[i].createdAt <= r[j].createdAt)
              && (sortBy == "votes" ==> VotesOrZero(r[i]) >= VotesOrZero(r[j]))
              && (sortBy == "title" ==> collate(TitleOrEmpty(r[i]), TitleOrEmpty(r[j])) <= 0)
  {
    var cmp := CardCmp(sortBy, collate);
    CardCmpConsistent(sortBy, collate);
    SortSorted(FilteredCards(cards, mode, term), cmp);
    var r := SortedCards(cards, mode, term, sortBy, collate);
    forall i, j | 0 <= i < j < |r|
      ensures cmp(r[i], r[j]) <= 0
    {
    }
  }

  /** An unknown sort key ties every pair, so the filtered order is kept. */
  lemma UnknownSortKeepsOrder(cards: seq<Card>, mode: string, term: string, sortBy: string,
                              collate: (string, string) -> int)
    requires sortBy !in ["newest", "oldest", "votes", "title"]
    ensures SortedCards(cards, mode, term, sortBy, collate) == FilteredCards(cards, mode, term)
  {
    SortAllTiedIsIdentity(FilteredCards(cards, mode, term), CardCmp(sortBy, collate));
  }

  const ExcerptLength := 200

  /**
   * The text shown for a story's content: the content itself when it has at
   * most 200 characters, otherwise its first 200 characters and "...".
   */
  function Excerpt(content: Option<string>): (r: Option<string>)
    ensures r.Some? <==> content.Some?
    ensures content.None? || |content.value| <= ExcerptLength ==> r == content
    ensures r.Some? ==> |r.value| <= ExcerptLength + 3
    ensures r.Some? && |content.value| > ExcerptLength ==>
              |r.value| == ExcerptLength + 3
              && content.value[..ExcerptLength] <= r.value
              && r.value[ExcerptLength..] == "..."
  {
    if content.Some? && |content.value| > ExcerptLength then Some(content.value[..ExcerptLength] + "...")
    else content
  }
}
