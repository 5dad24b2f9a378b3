/**
 * The CricketPro page (src/components/CricketPro.js): whether a trial has
 * expired, how many days it has left, and which sections the page shows.
 */
module CricketPro {
  import opened Wrappers

  const DayMs := 1000 * 60 * 60 * 24
  /** The trial endpoint ends a trial seven days after it starts. */
  const TrialDays := 7

  /** The user's subscription; `expiry` is in milliseconds since the epoch, None when not set. */
  datatype ProStatus = ProStatus(isActive: bool, plan: string, expiry: Option<int>, trialUsed: bool)

  /** The status before anything is known: `{ isPro: false }`. */
  const InitialStatus := ProStatus(false, "", None, false)

  /** The status after a trial is activated with the expiry the server sends. */
  function TrialActivated(expiry: Option<int>): ProStatus {
    ProStatus(true, "trial", expiry, true)
  }

  /**
   * `handleTrialActivation`: without an email nothing changes; when the
   * server accepts, the user becomes an active trial user with the expiry
   * the server sends; when it refuses or cannot be reached, nothing changes.
   */
  function ActivateTrial(st: ProStatus, email: string, serverAccepted: bool, expiry: Option<int>): (r: ProStatus)
    ensures email == "" || !serverAccepted ==> r == st
    ensures email != "" && serverAccepted ==> r.isActive && r.trialUsed && r.plan == "trial" && r.expiry == expiry
  {
    if email == "" || !serverAccepted then st else TrialActivated(expiry)
  }

  /**
   * The handler as written: the expiry is read from `result.expiryDate`,
   * a field the trial endpoint's response does not have, so none is set.
   */
  function ActivateTrialAsWritten(st: ProStatus, email: string, serverAccepted: bool): (r: ProStatus)
    ensures email != "" && serverAccepted ==> r.isActive && r.expiry.None?
  {
    ActivateTrial(st, email, serverAccepted, None)
  }

  /**
   * The handler as intended: the expiry is the end of the trial the endpoint
   * reports, seven days after activation at `activatedAt`.
   */
  function ActivateTrialFromEndpoint(st: ProStatus, email: string, serverAccepted: bool, activatedAt: int): (r: ProStatus)
    ensures email != "" && serverAccepted ==> r.isActive && r.expiry == Some(activatedAt + TrialDays * DayMs)
  {
    ActivateTrial(st, email, serverAccepted, Some(activatedAt + TrialDays * DayMs))
  }

  /** `isTrialExpired`: an expiry is set and now is past it. */
  predicate IsTrialExpired(st: ProStatus, now: int)
    ensures IsTrialExpired(st, now) ==> st.expiry.Some? && DaysRemaining(st, now) == 0
  {
    st.expiry.Some? && now > st.expiry.value
  }

  /** `Math.ceil(n / DayMs)` over the integers. */
  function CeilDays(n: int): (d: int)
    ensures (d - 1) * DayMs < n <= d * DayMs
  {
    -((-n) / DayMs)
  }

  /** `getDaysRemaining`: whole days to the expiry, rounded up, never negative. */
  function DaysRemaining(st: ProStatus, now: int): (d: nat)
    ensures st.expiry.None? ==> d == 0
    ensures st.expiry.Some? && st.expiry.value > now ==> (d - 1) * DayMs < st.expiry.value - now <= d * DayMs
    ensures d >= 1 <==> st.expiry.Some? && st.expiry.value > now
  {
    if st.expiry.None? then 0
    else
      var days := CeilDays(st.expiry.value - now);
      if days < 0 then 0 else days
  }

  /** Days remaining never grow as time passes. */
  lemma DaysRemainingShrink(st: ProStatus, earlier: int, later: int)
    requires earlier <= later
    ensures DaysRemaining(st, later) <= DaysRemaining(st, earlier)
  {
  }

  /** A set expiry leaves no days exactly when the trial has expired or expires this very instant. */
  lemma ExpiredMeansNoDaysLeft(st: ProStatus, now: int)
    ensures st.expiry.Some? ==> (DaysRemaining(st, now) == 0 <==> IsTrialExpired(st, now) || now == st.expiry.value)
  {
  }

  /** The status banner is shown to active users. */
  predicate ShowsStatus(st: ProStatus) {
    st.isActive
  }

  /** The free-trial offer is shown while the trial is unused and the user is not active. */
  predicate ShowsTrialOffer(st: ProStatus)
    ensures ShowsTrialOffer(st) ==> !ShowsStatus(st)
  {
    !st.trialUsed && !st.isActive
  }

  /** The subscribe section is shown to inactive users and to those whose trial has expired. */
  predicate ShowsSubscribe(st: ProStatus, now: int)
    ensures !ShowsSubscribe(st, now) ==> ShowsStatus(st) && !IsTrialExpired(st, now) && !ShowsTrialOffer(st)
  {
    !st.isActive || IsTrialExpired(st, now)
  }

  /**
   * Whoever is offered the trial is also offered the subscription, and an
   * active user whose trial has not expired is offered neither.
   */
  lemma SectionsAgree(st: ProStatus, now: int)
    ensures ShowsTrialOffer(st) ==> ShowsSubscribe(st, now)
    ensures ShowsStatus(st) && !IsTrialExpired(st, now) ==> !ShowsTrialOffer(st) && !ShowsSubscribe(st, now)
  {
  }

  /**
   * What each kind of user sees: a new visitor gets both offers and no
   * banner; a user within an activated trial sees only the banner; once the
   * trial has expired the banner stays and the subscription offer returns.
   */
  lemma SectionsShown(expiry: int, now: int)
    ensures !ShowsStatus(InitialStatus) && ShowsTrialOffer(InitialStatus) && ShowsSubscribe(InitialStatus, now)
    ensures var st := TrialActivated(Some(expiry));
            && ShowsStatus(st) && !ShowsTrialOffer(st)
            && (now <= expiry ==> !ShowsSubscribe(st, now))
            && (now > expiry ==> ShowsSubscribe(st, now))
  {
  }

  /**
   * As written, an activated trial never ends: with no expiry it never
   * counts as expired, shows no days remaining, and the subscription offer
   * never comes back, however late `now` is.
   */
  lemma TrialWithoutExpiryNeverEnds(email: string, now: int)
    requires email != ""
    ensures var st := ActivateTrialAsWritten(InitialStatus, email, true);
            && !IsTrialExpired(st, now)
            && DaysRemaining(st, now) == 0
            && !ShowsSubscribe(st, now)
  {
  }

  /**
   * As intended, a trial activated at `activatedAt` shows seven days
   * remaining at once, and the subscription offer comes back exactly when
   * the seven days are over.
   */
  lemma TrialFromEndpointLastsSevenDays(email: string, activatedAt: int, now: int)
    requires email != ""
    ensures var st := ActivateTrialFromEndpoint(InitialStatus, email, true, activatedAt);
            && DaysRemaining(st, activatedAt) == TrialDays
            && (ShowsSubscribe(st, now) <==> now > activatedAt + TrialDays * DayMs)
            && (IsTrialExpired(st, now) <==> now > activatedAt + TrialDays * DayMs)
  {
  }

  /**
   * After a trial is activated the offer disappears for good; the
   * subscription reappears exactly when the expiry has passed, and until then
   * at least one day is left unless the expiry is this very instant.
   */
  lemma AfterTrialActivation(expiry: int, now: int)
    ensures var st := TrialActivated(Some(expiry));
            && ShowsStatus(st)
            && !ShowsTrialOffer(st)
            && (ShowsSubscribe(st, now) <==> now > expiry)
            && (DaysRemaining(st, now) == 0 <==> now >= expiry)
  {
  }
}
