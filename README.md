# CricketTales in Dafny

CricketTales is a site where people share cricket stories, vote for them and
pay to promote them. This project models its core and proves properties of it:

- the story listing endpoint (`/api/stories`): it filters by category,
  "featured" and author. It ranks priority stories first, then boosted ones,
  then by votes. It cuts one page out of the result and describes the
  pagination.
- the browse page: a case-insensitive search, a mode filter, four sort keys
  and a 200-character excerpt.
- the voting page, whose state is a class. It holds a credit balance that a
  vote spends and a vote pack refills, and a list of stories that a vote
  updates.
- the boost page: the price table, the stories that can still be boosted and
  the guard against boosting with no story selected.
- the home page's "featured" strip.
- the submission endpoint and the boost-status endpoint, with their status
  codes and the records they build.
- the CricketPro page: trial expiry, days remaining, and which sections are
  shown.

Times are integers (milliseconds since the epoch). The current time is a
parameter. JavaScript's `Array.prototype.filter`, `slice` with negative
indices, and the stable `sort` driven by a comparator are modelled once, in
`JsArray`. `toLowerCase`, `includes` and `parseInt` on a digit prefix are
modelled once, in `JsString`. The listing endpoint's handler copies the
filtered stories into an array and sorts them in place with an insertion
sort. That sort is proved equal to the stable-sort specification, so the
handler's response is proved equal to the pure `Listing` function. The
ranking, stability and pagination lemmas are stated about `Listing`.

The code is followed where it differs from the project's design notes:

- The design notes break vote ties by recency. The listing comparator
  (`api/stories.js:110-116`) has no such tie-break: stories with equal
  priority, boost and votes keep the order the filters left them in
  (`StoriesApi.RankedStable`).
- The design notes also speak of a down-vote and of vote records. The voting
  page only ever adds a vote, and it keeps no record.

The voting page's credit counter is read and written in `Vote.js` but never
declared there, so as written each use of it would raise a ReferenceError. The model gives the page the counter it evidently means,
`VoteLedger.VotePage.credits`.

In the same way, `CricketPro.js` never declares `trialData`,
`setIsActivating`, `setActivationStatus`, `isActivating` or
`activationStatus` (lines 59, 64-65, 73, 85-101, 214-243). As written, the
trial handler and the trial form would raise a ReferenceError before any
request is sent. `CricketPro.ActivateTrial` models the handler the code
evidently means: an email field, and a status message that is not modelled.

## Model

| member | source | states |
|---|---|---|
| JsArray.Filter | api/stories.js:92-94 | the filtered list is never longer than the input; what it keeps is stated by `FilterMembers` |
| JsArray.FilterMembers | api/stories.js:92-94 | the filter keeps exactly the elements that pass the test, each taken from the input |
| JsArray.FilterAppend | api/stories.js:92-94 | filtering distributes over concatenation, so the input order is kept |
| JsArray.FilterKeepsAll | api/stories.js:89-107 | a test that every element passes removes nothing |
| JsArray.FilterFilter | api/stories.js:89-107 | filtering twice is filtering once by the conjunction of the two tests |
| JsArray.FilterSameTest | api/stories.js:89-107 | two tests that agree on every element give the same filter |
| JsArray.Slice | api/stories.js:121 | a slice holds only elements of the list and is never longer than its window; for non-negative bounds it is the clipped sub-sequence |
| JsArray.SliceCountsFromEnd | api/stories.js:121 | a bound `-k` with `k` at most the length means `length - k`; a bound before the start means the start, and an end before the start gives nothing |
| JsArray.SliceLast | api/stories.js:121 | a slice from `-k` to the end is the last `k` elements |
| JsArray.SliceDropLast | api/stories.js:121 | a slice from 0 to -1 is everything but the last element |
| JsArray.SliceEmptyWindow | api/stories.js:121 | a window ending at 0, or empty or inverted on one side of 0, gives nothing |
| JsArray.StableSort | api/stories.js:110 | the sorted list has the length of the input |
| JsArray.SortPermutes | api/stories.js:110 | sorting loses and duplicates nothing |
| JsArray.SortSorted | api/stories.js:110 | under a consistent comparator the sorted list is ordered |
| JsArray.SortStable | api/stories.js:110 | elements the comparator ties keep their relative order |
| JsArray.SortAllTiedIsIdentity | src/components/Stories.js:38-39 | a comparator that ties everything leaves the list unchanged |
| JsArray.InsertAt | api/stories.js:110 | one insertion step in place: the prefix becomes the stable insertion of the next element, the rest is untouched |
| JsArray.SortInPlace | api/stories.js:110 | the in-place sort leaves the array equal to the stable sort of its old contents |
| JsString.LowerChar | api/stories.js:93 | an upper-case ASCII letter becomes the same letter in lower case; every other character is unchanged |
| JsString.ToLower | api/stories.js:93 | lowering keeps the length, lowers each character on its own and leaves no upper-case letter |
| JsString.ToLowerIdempotent | api/stories.js:93 | lowering twice is lowering once |
| JsString.ToLowerCaseBlind | api/stories.js:93 | strings that differ only in the case of letters lower-case to the same string |
| JsString.IncludesIgnoringCaseBlind | api/stories.js:93 | changing the case of letters in the text or in the term does not change whether the term is found |
| JsString.IncludesLoweredNeedle | src/components/Stories.js:18-20 | searching for the lower-cased term finds exactly what searching for the term finds |
| JsString.IncludesIffOccurs | api/stories.js:93 | `includes` holds exactly when the needle occurs at some position |
| JsString.IncludesEmpty | src/components/Stories.js:18 | the empty string is included in every string |
| JsString.DigitPrefixLength | src/components/BoostStory.js:53 | the prefix that `parseInt` reads is all digits and stops at the first non-digit |
| JsString.ParseInt | src/components/BoostStory.js:53 | `parseInt` gives no number exactly when the string does not start with a digit; otherwise the decimal value of its leading digits |
| JsString.Decimal | src/components/BoostStory.js:53 | a number's decimal rendering is a non-empty run of digits with no leading zero |
| JsString.DecimalValue | src/components/BoostStory.js:53 | the digits of a number's rendering have that number as their value |
| JsString.ParseDecimal | src/components/BoostStory.js:53 | `parseInt` reads back a number's decimal rendering, whatever non-digit text follows it |
| StoriesApi.FilterCategory | api/stories.js:91-95 | exactly the stories whose category contains the term, ignoring case |
| StoriesApi.FilterFeatured | api/stories.js:97-101 | exactly the stories that are priority, boosted or have more than 35 votes |
| StoriesApi.FilterAuthor | api/stories.js:103-107 | exactly the stories whose author id equals the given one |
| StoriesApi.Filtered | api/stories.js:89-107 | the listed stories are exactly the catalogue's stories that pass every filter that was given |
| StoriesApi.FilteredAppend | api/stories.js:89-107 | the filter pipeline keeps the catalogue order |
| StoriesApi.FilteredKeepsMatching | api/stories.js:91-107 | filters that every story passes remove nothing |
| StoriesApi.FilteredIsOneFilter | api/stories.js:89-107 | running the filters one after another is one filter by "passes every filter that was given" |
| StoriesApi.RankCmp | api/stories.js:110-116 | negative exactly when the first story ranks before the second on priority, then boost, then votes; zero exactly when they agree on all three |
| StoriesApi.ApplyFilters | api/stories.js:89-107 | the step-by-step narrowing computes the filter pipeline |
| StoriesApi.RankCmpConsistent | api/stories.js:110-116 | the ranking comparator is antisymmetric in sign and transitive |
| StoriesApi.RankedOrder | api/stories.js:109-116 | the ranking is a permutation; priority stories come first, then boosted ones, then the most votes |
| StoriesApi.RankedStable | api/stories.js:110-116 | stories tied on priority, boost and votes keep their filtered order |
| StoriesApi.CeilDiv | api/stories.js:128 | `Math.ceil(n / d)`: no number for a zero page size; for a positive size the least `r` with `r * d >= n`; for a negative size the least `r` with `r * d <= n` |
| StoriesApi.PageOf | api/stories.js:119-121 | a page holds only stories of the ranked list, never more than `limit` of them |
| StoriesApi.PageWindow | api/stories.js:119-121 | page `p` is the window that starts at `(p - 1) * limit`, clipped to the list |
| StoriesApi.PageZeroIsEmpty | api/stories.js:119-121 | page 0 ends where the list starts, so it lists nothing |
| StoriesApi.NegativePageFromEnd | api/stories.js:119-121 | a negative page counts back from the end of the ranked list: page -1 is the second window of `limit` from the end |
| StoriesApi.PaginationOf | api/stories.js:126-132 | the metadata echoes the page and the total; `hasPrev` exactly after page 1; `hasNext` exactly when the window ends before the total |
| StoriesApi.PaginationMeaning | api/stories.js:126-131 | `totalPages` is the ceiling of total over limit, and `hasNext` holds exactly before the last page |
| StoriesApi.PastLastPage | api/stories.js:119-131 | a page past the last one is empty and has no next page |
| StoriesApi.PagesThroughPrefix | api/stories.js:119-121 | the first n pages together are the first `n * limit` ranked stories |
| StoriesApi.PagesCoverList | api/stories.js:119-131 | paging through all `totalPages` pages lists every ranked story exactly once, in order |
| StoriesApi.Listing | api/stories.js:119-138 | always a listing; the page echoed; `totalStories` counts every filtered story; at most `limit` stories; each filter echoed exactly when it was given |
| StoriesApi.ListingSound | api/stories.js:123-132 | every listed story comes from the catalogue and passes the filters; `totalStories` counts all filtered stories |
| StoriesApi.ListingDefaults | api/stories.js:7 | without `page` and `limit` the response is the first ten ranked stories, with no previous page |
| StoriesApi.Handle | api/stories.js:4-149 | GET answers with the listing; any other method is refused |
| Browse.Keep | src/components/Stories.js:17-26 | a card is kept exactly when it matches the search and, in the 'priority' or 'boosted' mode, has that flag; any other mode acts as 'all' |
| Browse.FilteredCards | src/components/Stories.js:17-26 | exactly the cards whose title, content or author contain the term, ignoring case, narrowed to priority or boosted ones in those modes |
| Browse.EmptySearchMatchesAnyText | src/components/Stories.js:18-20 | an empty search matches every card with a title, content or author |
| Browse.EmptySearchKeepsServedStories | src/components/Stories.js:17-26 | with no term and mode 'all', every served story stays, in order |
| Browse.CardCmp | src/components/Stories.js:28-41 | 'newest' puts the later story first, 'oldest' the earlier, 'votes' the one with more votes; 'title' is the collation of the titles; any other key ties all |
| Browse.CardCmpConsistent | src/components/Stories.js:28-41 | every sort key gives a consistent comparator if the locale's collation is one |
| Browse.SortedCardsPermutes | src/components/Stories.js:28 | sorting a copy loses and duplicates no card |
| Browse.SortedCardsOrder | src/components/Stories.js:29-37 | newest first, oldest first, most votes first (a missing count is 0) or by collated title |
| Browse.UnknownSortKeepsOrder | src/components/Stories.js:38-39 | an unknown sort key keeps the filtered order |
| Browse.Excerpt | src/components/Stories.js:132-135 | content up to 200 characters is shown whole; longer content shows its first 200 characters and "..." |
| VoteLedger.ChargeCents | src/components/Vote.js:69 | a pack is charged at its price in whole cents |
| VoteLedger.CastVote | src/components/Vote.js:43-47 | every entry with the voted id gains exactly one vote and is marked voted, with nothing else about it changed; every other entry is unchanged |
| VoteLedger.CastVoteTotal | src/components/Vote.js:43-47 | recording a vote adds one vote per entry with that id, and no other vote |
| VoteLedger.CastVoteOnUniqueIds | src/components/Vote.js:43-47 | with distinct ids only the chosen story changes: one more vote, marked voted; the total rises by one |
| VoteLedger.CastVoteOnAbsentId | src/components/Vote.js:43-47 | a vote for an id that is not listed changes no story |
| VoteLedger.VotePage.constructor | src/components/Vote.js:4-14 | the page starts with no stories, no purchase status and a non-negative balance |
| VoteLedger.VotePage.LoadStories | src/components/Vote.js:20-30 | the fetched stories replace the list, none voted; the balance is untouched |
| VoteLedger.VotePage.HandleVote | src/components/Vote.js:32-56 | refused exactly when no credit is left; otherwise one credit is spent and the vote recorded; the balance stays non-negative |
| VoteLedger.VotePage.ClickVote | src/components/Vote.js:164-167 | a click counts only on an enabled button; each story gains at most one vote from this page |
| VoteLedger.VotePage.PurchaseVotePack | src/components/Vote.js:58-92 | charges price times 100 cents and adds the pack's votes to the balance exactly when the payment goes through |
| BoostStory.BoostPrice | src/components/BoostStory.js:75-82 | a price is 10, 25 or 50 dollars; a duration the table does not list costs 10 |
| BoostStory.BoostPriceTable | src/components/BoostStory.js:75-82 | the form's three durations cost 10, 25 and 50 dollars |
| BoostStory.OfferedHours | src/components/BoostStory.js:53 | `parseInt` reads the offered durations as 24, 72 and 168 hours |
| BoostStory.BoostPriceMonotone | src/components/BoostStory.js:76-80 | among the offered durations a longer boost never costs less |
| BoostStory.BoostCandidates | src/components/BoostStory.js:20 | exactly the stories that are not boosted yet |
| BoostStory.BoostCandidatesKeepOrder | src/components/BoostStory.js:20 | the candidates keep the listing order |
| BoostStory.FetchedCandidatesAsWritten | src/components/BoostStory.js:16-26 | the code as written offers no story at all |
| BoostStory.FetchedCandidates | src/components/BoostStory.js:16-26 | as intended: the non-boosted stories of the page the listing endpoint returns |
| BoostStory.AsWrittenOffersNothing | src/components/BoostStory.js:20 | whenever a listing page holds a non-boosted story, the code as written offers nothing where the intended page offers that story |
| BoostStory.HandleBoostStory | src/components/BoostStory.js:38-54 | no request without a selected story; otherwise it requests that story for `parseInt` of the duration |
| Home.FeaturedStories | src/components/Home.js:5 | at most three stories, all priority or boosted, the first ones in list order; exactly three when three exist |
| StorySubmit.Submit | api/story-submit.js:4-38 | only POST is served; 400 exactly when a title, content or author is missing or empty; the created story is unvoted, published and not priority unless marked |
| BoostStatus.BoostHours | api/boost-status.js:53 | a boost lasts 24 hours for type '24h' and 168 hours for any other type |
| BoostStatus.Handle | api/boost-status.js:4-67 | GET with a story id is a '24h' report of that story starting now and ending 24 hours later, without one a 400; POST with a story id, a type and a non-zero amount creates an active, paid boost from now whose length follows its type, without them a 400; other methods are refused |
| BoostStatus.BoostLength | api/boost-status.js:53 | a '24h' boost lasts 86 400 000 ms, any other 604 800 000 ms |
| CricketPro.ActivateTrial | src/components/CricketPro.js:58-103 | nothing changes without an email or when the server refuses; otherwise the user is an active trial user with the server's expiry |
| CricketPro.ActivateTrialAsWritten | src/components/CricketPro.js:79-84 | as written, an activated trial gets no expiry |
| CricketPro.TrialWithoutExpiryNeverEnds | src/components/CricketPro.js:82 | as written, an activated trial never expires, shows 0 days remaining and never offers the subscription again |
| CricketPro.ActivateTrialFromEndpoint | api/pro-trial.js:20-29 | as intended, an activated trial expires seven days after activation, as the endpoint reports |
| CricketPro.TrialFromEndpointLastsSevenDays | api/pro-trial.js:20-29 | as intended, seven days remain at activation, and the trial expires and the subscription returns exactly once the seven days are over |
| CricketPro.IsTrialExpired | src/components/CricketPro.js:118-121 | an expired trial has an expiry and no days left |
| CricketPro.ExpiredMeansNoDaysLeft | src/components/CricketPro.js:118-129 | with an expiry set, no days are left exactly when the trial has expired or expires now |
| CricketPro.ShowsTrialOffer | src/components/CricketPro.js:202 | the trial offer is never shown beside the status banner |
| CricketPro.ShowsSubscribe | src/components/CricketPro.js:252 | only an active user whose trial has not expired misses the subscription offer, and that user sees no trial offer |
| CricketPro.CeilDays | src/components/CricketPro.js:128 | `Math.ceil` of milliseconds over a day, as the least bounding whole number of days |
| CricketPro.DaysRemaining | src/components/CricketPro.js:123-129 | 0 without an expiry; otherwise the days to the expiry, rounded up, and at least 1 exactly when the expiry is still ahead |
| CricketPro.DaysRemainingShrink | src/components/CricketPro.js:123-129 | the days remaining never grow as time passes |
| CricketPro.SectionsShown | src/components/CricketPro.js:135-252 | a new visitor sees both offers and no banner; within an activated trial only the banner; after it expires the banner and the subscription offer |
| CricketPro.SectionsAgree | src/components/CricketPro.js:135-252 | whoever is offered the trial is also offered the subscription; an active user whose trial has not expired sees neither offer |
| CricketPro.AfterTrialActivation | src/components/CricketPro.js:79-84 | after activation the trial offer is gone, subscribing reappears exactly once the expiry has passed, and no days remain exactly from the expiry on |

## Findings

| source | as written | input that shows it | evidently intended | confidence | as-written member | corrected member |
|---|---|---|---|---|---|---|
| src/components/BoostStory.js:20 | `data.filter(...)` is called on the listing endpoint's response object, which has no `filter` method. The TypeError is caught and the list stays empty. | any `/api/stories` response whose page holds a story that is not boosted, such as the catalogue's own non-boosted stories | filter `data.stories`, the page the endpoint returns, as `Vote.js:24` reads it | high; not executed | BoostStory.FetchedCandidatesAsWritten, BoostStory.AsWrittenOffersNothing | BoostStory.FetchedCandidates |
| src/components/CricketPro.js:82 | the expiry is read from `result.expiryDate`, but the trial endpoint (`api/pro-trial.js:47-53`) answers with `trial.trialEnd` and `trialEnds`, so the expiry is undefined | any accepted trial activation | take the expiry from `result.trial.trialEnd`, seven days after activation | high; not executed | CricketPro.ActivateTrialAsWritten, CricketPro.TrialWithoutExpiryNeverEnds | CricketPro.ActivateTrialFromEndpoint, CricketPro.TrialFromEndpointLastsSevenDays |

## Left out

- Network requests, JSON parsing, `alert`, `window.open`, redirects, timers and React rendering. Their outcomes become parameters, such as `paymentAccepted` and `serverAccepted`.
- The 500 responses: no modelled step throws.
- Random fields: the boost report's `isBoosted`, `impressions` and `clicks` are not modelled.
- The payment and checkout-session endpoints, the metrics endpoint, the vote endpoint, the dashboard and the story-submission form: these are not part of this model. Of the trial endpoint only the seven-day trial end it reports is modelled.
- The down-vote and vote records: `api/story-vote.js:20-26` builds a vote record whose type may be 'down', but nothing stores or applies it, and the voting page only adds votes. The boost lifecycle after creation is not modelled either.
- CricketPro.ActivateTrialFromEndpoint: the endpoint adds seven calendar days with `setDate`, which differs from seven times 24 hours across a daylight-saving change; the model uses seven times 24 hours.
- StoriesApi.Handle: `page` and `limit` arrive as query strings that JavaScript coerces. The model takes them already as integers, and does not model non-numeric strings (NaN).
- StoriesApi.PageOf: a negative `limit` is modelled as the code runs it. For example, page 1 with limit -1 slices to -1 and lists every story but the last. No property beyond the length bound for non-negative limits is claimed for that case.
- JsString.ToLower: only ASCII letters are folded; Unicode case mapping is not modelled.
- JsString.ParseInt: only a leading run of decimal digits is read; signs, whitespace and other radixes are not modelled.
- Browse.CardCmp: `localeCompare` is the parameter `collate`, because its order depends on the locale. Dates are compared as millisecond timestamps; a missing or unparsable `createdAt` would give NaN, which `sort` reads as a tie, and that is not modelled.
- Browse.Excerpt: lengths count code points, not JavaScript's UTF-16 code units.
- BoostStory.BoostPrice: only string durations are looked up; inherited object property names are not.
- StorySubmit.Submit: `isPriority` is taken as an optional boolean. Other truthy values are not modelled. `createdAt` is the clock in milliseconds rather than an ISO string.
- BoostStatus.Handle: `amount` is taken as an optional integer. Its truthiness is "sent and not 0"; other types are not modelled. Times are milliseconds rather than ISO strings.
- CricketPro.DaysRemaining: dates are exact millisecond integers. Floating-point division is not modelled; it gives the same ceiling at these magnitudes.
- VoteLedger.VotePage.PurchaseVotePack: the three-second delay and the later clearing of the status message are not modelled.
