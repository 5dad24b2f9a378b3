/**
 * /api/boost-status: GET reports a story's boost, POST records a paid boost
 * whose end time follows from its type; other methods are refused.
 */
module BoostStatus {
  import opened Wrappers

  const HourMs := 60 * 60 * 1000

  /** A POST body; a field that was not sent is None. */
  datatype BoostBody = BoostBody(storyId: Option<string>, boostType: Option<string>, amount: Option<int>)

  /** A recorded boost; times are milliseconds since the epoch, `amount` is in cents. */
  datatype Boost = Boost(
    id: int,
    storyId: string,
    boostType: string,
    amount: int,
    status: string,
    startTime: int,
    endTime: int,
    paymentStatus: string)

  datatype BoostResponse =
    | Report(storyId: string, boostType: string, boostStartTime: int, boostEndTime: int, remainingTime: string)
    | Created(boost: Boost)
    | MissingStoryId
    | MissingFields
    | MethodNotAllowed

  function StatusCode(r: BoostResponse): int {
    match r
    case Report(_, _, _, _, _) => 200
    case Created(_) => 201
    case MissingStoryId => 400
    case MissingFields => 400
    case MethodNotAllowed => 405
  }

  /** JavaScript truthiness of an optional string: sent and not empty. */
  predicate Present(o: Option<string>) {
    o.Some? && o.value != ""
  }

  /** JavaScript truthiness of an optional amount: sent and not 0. */
  predicate PresentAmount(o: Option<int>) {
    o.Some? && o.value != 0
  }

  /** Hours a boost lasts: 24 for '24h', a week for any other type. */
  function BoostHours(boostType: string): (h: nat)
    ensures h == 24 || h == 168
    ensures h == 24 <==> boostType == "24h"
  {
    if boostType == "24h" then 24 else 168
  }

  /** The handler, with the clock's reading `now` as a parameter. */
  function Handle(httpMethod: string, queryStoryId: Option<string>, body: BoostBody, now: int): (r: BoostResponse)
    ensures httpMethod != "GET" && httpMethod != "POST" <==> r.MethodNotAllowed?
    ensures httpMethod == "GET" ==> (r.MissingStoryId? <==> !Present(queryStoryId))
    ensures httpMethod == "GET" && Present(queryStoryId) ==>
              r.Report? && r.boostType == "24h" && r.boostStartTime == now && r.remainingTime == "23h 45m"
    ensures r.Report? ==>
              && httpMethod == "GET"
              && StatusCode(r) == 200
              && Some(r.storyId) == queryStoryId
              && r.boostEndTime - r.boostStartTime == 24 * HourMs
    ensures httpMethod == "POST" ==>
              (r.MissingFields? <==> !Present(body.storyId) || !Present(body.boostType) || !PresentAmount(body.amount))
    ensures httpMethod == "POST" && Present(body.storyId) && Present(body.boostType) && PresentAmount(body.amount) ==>
              r.Created? && r.boost.id == now
    ensures r.Created? ==>
              && httpMethod == "POST"
              && StatusCode(r) == 201
              && Some(r.boost.storyId) == body.storyId
              && Some(r.boost.boostType) == body.boostType
              && Some(r.boost.amount) == body.amount && r.boost.amount != 0
              && r.boost.status == "active"
              && r.boost.paymentStatus == "completed"
              && r.boost.startTime == now
              && r.boost.endTime - r.boost.startTime == (if r.boost.boostType == "24h" then 24 else 168) * HourMs
  {
    if httpMethod == "GET" then
      if !Present(queryStoryId) then MissingStoryId
      else Report(queryStoryId.value, "24h", now, now + 24 * HourMs, "23h 45m")
    else if httpMethod == "POST" then
      if !Present(body.storyId) || !Present(body.boostType) || !PresentAmount(body.amount) then MissingFields
      else
        var boostType := body.boostType.value;
        Created(Boost(now, body.storyId.value, boostType, body.amount.value, "active",
                      now, now + BoostHours(boostType) * HourMs, "completed"))
    else MethodNotAllowed
  }

  /** A '24h' boost lasts a day; every other type lasts a week. */
  lemma BoostLength(body: BoostBody, now: int)
    requires Handle("POST", None, body, now).Created?
    ensures var b := Handle("POST", None, body, now).boost;
            b.endTime - b.startTime == if body.boostType == Some("24h") then 86400000 else 604800000
  {
  }
}
