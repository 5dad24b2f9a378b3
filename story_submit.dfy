/** POST /api/story-submit: validate a submission and build the new story. */
module StorySubmit {
  import opened Wrappers

  /** The request body; a field that was not sent is None. */
  datatype SubmitBody = SubmitBody(
    title: Option<string>,
    content: Option<string>,
    author: Option<string>,
    isPriority: Option<bool>)

  const Published := "published"

  /** The story the endpoint creates; `id` and `createdAt` are the current time in milliseconds. */
  datatype SubmittedStory = SubmittedStory(
    id: int,
    title: string,
    content: string,
    author: string,
    isPriority: bool,
    votes: int,
    createdAt: int,
    status: string)

  datatype SubmitResponse =
    | Created(story: SubmittedStory)
    | MissingFields
    | MethodNotAllowed

  function StatusCode(r: SubmitResponse): int {
    match r
    case Created(_) => 201
    case MissingFields => 400
    case MethodNotAllowed => 405
  }

  /** JavaScript truthiness of an optional string: sent and not empty. */
  predicate Present(o: Option<string>) {
    o.Some? && o.value != ""
  }

  /**
   * The handler: only POST is served; a missing or empty title, content or
   * author is refused with 400 and creates nothing; otherwise the story is
   * created unvoted and published, with `isPriority` false unless sent.
   */
  function Submit(httpMethod: string, body: SubmitBody, now: int): (r: SubmitResponse)
    ensures httpMethod != "POST" <==> r.MethodNotAllowed?
    ensures httpMethod == "POST" ==>
              (r.MissingFields? <==> !Present(body.title) || !Present(body.content) || !Present(body.author))
    ensures r.Created? ==>
              && StatusCode(r) == 201
              && Some(r.story.title) == body.title
              && Some(r.story.content) == body.content
              && Some(r.story.author) == body.author
              && r.story.votes == 0
              && r.story.status == Published
              && r.story.isPriority == (body.isPriority == Some(true))
              && r.story.id == now && r.story.createdAt == now
  {
    if httpMethod != "POST" then MethodNotAllowed
    else if !Present(body.title) || !Present(body.content) || !Present(body.author) then MissingFields
    else Created(SubmittedStory(now, body.title.value, body.content.value, body.author.value,
                                body.isPriority.GetOr(false), 0, now, Published))
  }
}
