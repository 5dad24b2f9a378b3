/** The story record that GET /api/stories serves and the client components consume. */
module StoryRecord {

  /**
   * One story. `createdAt` and `updatedAt` are milliseconds since the epoch
   * (the JSON carries them as ISO-8601 strings).
   */
  datatype Story = Story(
    id: int,
    title: string,
    content: string,
    author: string,
    authorId: string,
    category: string,
    votes: int,
    views: int,
    isPriority: bool,
    isBoosted: bool,
    createdAt: int,
    updatedAt: int,
    tags: seq<string>)
}
