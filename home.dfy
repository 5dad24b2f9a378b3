/** The home page (src/components/Home.js): up to three promoted stories. */
module Home {
  import opened JsArray
  import opened StoryRecord

  const FeaturedCount := 3

  predicate IsPromoted(s: Story) {
    s.isPriority || s.isBoosted
  }

  /**
   * `featuredStories`: the first three priority or boosted stories, in input
   * order; fewer only when fewer exist.
   */
  function FeaturedStories(stories: seq<Story>): (r: seq<Story>)
    ensures |r| <= FeaturedCount
    ensures forall i :: 0 <= i < |r| ==> r[i] in stories && IsPromoted(r[i])
    ensures r <= Filter(stories, IsPromoted)
    ensures |r| == FeaturedCount || r == Filter(stories, IsPromoted)
  {
    FilterMembers(stories, IsPromoted);
    Slice(Filter(stories, IsPromoted), 0, FeaturedCount)
  }
}
