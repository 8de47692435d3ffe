/**
 * The records that travel between the two serverless handlers and the
 * browser: a user (src/lib/auth.ts `User`, the `users` row the auth handler
 * returns) and a catalog entry (src/lib/videos.ts `Video`, one `videos` row).
 */
module Wire {

  /** `{id, username, is_admin}`. */
  datatype User = User(id: int, username: string, isAdmin: bool)

  /**
   * One row of the `videos` table. `createdAt` stands for the `created_at`
   * timestamp the database assigns on insert, as a number that orders rows in time.
   */
  datatype Video = Video(
    id: int,
    title: string,
    tags: seq<string>,
    externalUrl: string,
    image1Url: string,
    image2Url: string,
    image3Url: string,
    createdAt: int,
    position: int)
}
