/**
 * The boost page (src/components/BoostStory.js): the price table for the
 * offered durations, the list of stories that can still be boosted, and the
 * guard that refuses to send a request before a story is chosen.
 */
module BoostStory {
  import opened Wrappers
  import opened JsString
  import opened JsArray
  import opened StoryRecord
  import StoriesApi

  /** The durations the form offers, in hours, as its option values. */
  const OfferedDurations := ["24", "72", "168"]
  /** The price of any duration the table does not list. */
  const DefaultPrice := 10

  /** `getBoostPrice`: dollars for a boost of `duration` hours. */
  function BoostPrice(duration: string): (price: nat)
    ensures price == 10 || price == 25 || price == 50
    ensures duration !in OfferedDurations ==> price == DefaultPrice
  {
    if duration == "24" then 10
    else if duration == "72" then 25
    else if duration == "168" then 50
    else DefaultPrice
  }

  /** The form's three options cost 10, 25 and 50 dollars. */
  lemma BoostPriceTable()
    ensures BoostPrice("24") == 10 && BoostPrice("72") == 25 && BoostPrice("168") == 50
  {
  }

  /** The offered durations read as hours. */
  lemma OfferedHours()
    ensures ParseInt("24") == Some(24) && ParseInt("72") == Some(72) && ParseInt("168") == Some(168)
  {
    ParseDecimal(24, "");
    assert Decimal(24) + "" == "24";
    ParseDecimal(72, "");
    assert Decimal(72) + "" == "72";
    ParseDecimal(168, "");
    assert Decimal(168) + "" == "168";
  }

  /** Among the offered durations, a longer boost never costs less. */
  lemma BoostPriceMonotone(a: string, b: string)
    requires a in OfferedDurations && b in OfferedDurations
    requires ParseInt(a).value <= ParseInt(b).value
    ensures BoostPrice(a) <= BoostPrice(b)
  {
    OfferedHours();
  }

  predicate NotBoosted(s: Story) {
    !s.isBoosted
  }

  /** The filter in `fetchStories`: the stories that are not boosted yet, in their order. */
  function BoostCandidates(stories: seq<Story>): (r: seq<Story>)
    ensures forall i :: 0 <= i < |r| ==> r[i] in stories && !r[i].isBoosted
    ensures forall i :: 0 <= i < |stories| && !stories[i].isBoosted ==> stories[i] in r
  {
    FilterMembers(stories, NotBoosted);
    Filter(stories, NotBoosted)
  }

  /** The candidates keep the input order: candidates of a concatenation are concatenated candidates. */
  lemma BoostCandidatesKeepOrder(a: seq<Story>, b: seq<Story>)
    ensures BoostCandidates(a + b) == BoostCandidates(a) + BoostCandidates(b)
  {
    FilterAppend(a, b, NotBoosted);
  }

  /**
   * `fetchStories` as written: it calls `filter` on the whole response
   * object, which has no such method; the TypeError is caught and the list
   * keeps its initial value, the empty list.
   */
  function FetchedCandidatesAsWritten(body: StoriesApi.ListResponse): (r: seq<Story>)
    ensures |r| == 0
  {
    []
  }

  /**
   * `fetchStories` as intended: the non-boosted stories of the page the
   * response carries, in the order it lists them.
   */
  function FetchedCandidates(body: StoriesApi.ListResponse): (r: seq<Story>)
    ensures body.MethodNotAllowed? ==> r == []
    ensures body.Listed? ==> forall i :: 0 <= i < |r| ==> r[i] in body.stories && !r[i].isBoosted
    ensures body.Listed? ==> forall i :: 0 <= i < |body.stories| && !body.stories[i].isBoosted ==> body.stories[i] in r
  {
    if body.Listed? then BoostCandidates(body.stories) else []
  }

  /**
   * Whenever the listing's page holds a story that is not boosted, the page
   * as written offers nothing to boost while the intended page offers it.
   */
  lemma AsWrittenOffersNothing(body: StoriesApi.ListResponse, i: nat)
    requires body.Listed? && i < |body.stories| && !body.stories[i].isBoosted
    ensures FetchedCandidatesAsWritten(body) == []
    ensures body.stories[i] in FetchedCandidates(body)
  {
  }

  /** What pressing "Boost Story" does. */
  datatype BoostAction =
    | ShowMessage(message: string)
    | RequestBoost(storyId: string, durationHours: Option<nat>)

  const NoSelectionMessage := "Please select a story to boost."

  /**
   * `handleBoostStory`: with no story selected it only sets the message;
   * otherwise it posts the selected story and the duration in hours.
   */
  function HandleBoostStory(selectedStory: string, boostDuration: string): (a: BoostAction)
    ensures a.ShowMessage? <==> selectedStory == ""
    ensures a.ShowMessage? ==> a.message == NoSelectionMessage
    ensures a.RequestBoost? ==> a.storyId == selectedStory && a.durationHours == ParseInt(boostDuration)
  {
    if selectedStory == "" then ShowMessage(NoSelectionMessage)
    else RequestBoost(selectedStory, ParseInt(boostDuration))
  }
}
