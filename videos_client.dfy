/**
 * The browser's catalog requests (src/lib/videos.ts): the query string of
 * `fetchVideos`, the `X-Is-Admin` header of `addVideo` and `deleteVideo`, the
 * `id` parameter of `deleteVideo` and the JSON body of `addVideo` — each
 * paired with how the catalog endpoint reads it.
 *
 * Percent-encoding by `URLSearchParams` and its decoding by the gateway are
 * taken to cancel out: the handler sees the pairs the client appended.
 */
module VideosClient {
  import opened Wrappers
  import opened Text
  import opened Wire
  import opened VideoTable
  import VideosHandler

  // ---------------------------------------------------------------------------
  // fetchVideos
  // ---------------------------------------------------------------------------

  /**
   * The pairs `fetchVideos(page, search, tag)` puts in the query string:
   * the page (1 when not given) first, then the search text and the tag, each
   * only when it is a non-empty string.
   */
  function QueryParams(page: Option<int>, search: string, tag: string): seq<(string, string)> {
    [("page", IntToString(page.GetOr(1)))]
      + (if search != "" then [("search", search)] else [])
      + (if tag != "" then [("tag", tag)] else [])
  }

  /** `new URLSearchParams({page})`, then the conditional `append`s. */
  method FetchVideosParams(page: Option<int>, search: string, tag: string) returns (params: seq<(string, string)>)
    ensures params == QueryParams(page, search, tag)
  {
    params := [("page", IntToString(page.GetOr(1)))];
    if search != "" {
      params := params + [("search", search)];
    }
    if tag != "" {
      params := params + [("tag", tag)];
    }
  }

  /** The query parameters as the handler receives them; a later pair for the same key wins. */
  function AsQuery(params: seq<(string, string)>): map<string, string> {
    if params == [] then map[]
    else AsQuery(params[..|params| - 1])[params[|params| - 1].0 := params[|params| - 1].1]
  }

  /** The parameters hold the page first, then search, then tag, each key once. */
  lemma QueryParamsShape(page: Option<int>, search: string, tag: string)
    ensures var params := QueryParams(page, search, tag);
      && params[0] == ("page", IntToString(page.GetOr(1)))
      && (|params| == 1 + (if search != "" then 1 else 0) + (if tag != "" then 1 else 0))
      && (search != "" ==> params[1] == ("search", search))
      && (tag != "" ==> params[|params| - 1] == ("tag", tag))
  {
  }

  /** What the handler looks up in the client's query: the page, and the search and tag as given. */
  lemma QueryReadsBack(page: Option<int>, search: string, tag: string)
    ensures var query := AsQuery(QueryParams(page, search, tag));
      && Lookup(query, "page", "1") == IntToString(page.GetOr(1))
      && Lookup(query, "search", "") == search
      && Lookup(query, "tag", "") == tag
  {
    var p := [("page", IntToString(page.GetOr(1)))];
    var ps := p + (if search != "" then [("search", search)] else []);
    var params := QueryParams(page, search, tag);
    assert AsQuery(p) == map["page" := IntToString(page.GetOr(1))] by {
      assert p[..0] == [];
    }
    assert ps[..|p|] == p;
    if tag != "" {
      assert params[..|ps|] == ps;
    } else {
      assert params == ps;
    }
  }

  /**
   * The client and the handler agree on a listing: for a page of at least 1
   * whose OFFSET fits a `bigint` the handler answers with that page of the
   * rows matching the stripped search text and tag; for any other page its
   * query fails.
   */
  lemma FetchVideosIsAnswered(rows: seq<Video>, page: Option<int>, search: string, tag: string,
                              ilike: (string, string) -> bool)
    ensures var resp := VideosHandler.ListResponse(rows, AsQuery(QueryParams(page, search, tag)), ilike);
      && (VideosHandler.ListablePage(page.GetOr(1)) ==>
            resp == VideosHandler.Reply(200, VideosHandler.ListingFor(rows, page.GetOr(1), Strip(search), Strip(tag), ilike)))
      && (!VideosHandler.ListablePage(page.GetOr(1)) ==> resp == VideosHandler.Fault)
  {
    QueryReadsBack(page, search, tag);
    ParseIntToString(page.GetOr(1));
  }

  // ---------------------------------------------------------------------------
  // addVideo and deleteVideo
  // ---------------------------------------------------------------------------

  /** `isAdmin.toString()`. */
  function AdminFlag(isAdmin: bool): string {
    if isAdmin then "true" else "false"
  }

  /** The request headers as the handler receives them, names lower-cased by the gateway. */
  function AdminHeaders(isAdmin: bool): map<string, string> {
    map["content-type" := "application/json", "x-is-admin" := AdminFlag(isAdmin)]
  }

  /** The handler grants admin access to the client's header exactly when the client says `isAdmin`. */
  lemma AdminHeaderUnderstood(isAdmin: bool)
    ensures VideosHandler.IsAdmin(AdminHeaders(isAdmin)) <==> isAdmin
  {
    LowerIsTrue(AdminFlag(isAdmin));
  }

  /** The form fields `addVideo` sends. */
  datatype VideoData = VideoData(
    title: string,
    tags: seq<string>,
    externalUrl: string,
    image1Url: string,
    image2Url: string,
    image3Url: string)

  /** `JSON.stringify(videoData)` as the handler decodes it: every key present. */
  function AddBody(data: VideoData): VideosHandler.NewVideoBody {
    VideosHandler.NewVideoBody(Some(data.title), data.tags, Some(data.externalUrl),
                               Some(data.image1Url), Some(data.image2Url), Some(data.image3Url))
  }

  /** The handler refuses the client's body exactly when one of the five texts is all whitespace. */
  lemma AddBodyRefusedIff(data: VideoData)
    ensures VideosHandler.MissingRequired(AddBody(data)) <==>
      AllSpace(data.title) || AllSpace(data.externalUrl) ||
      AllSpace(data.image1Url) || AllSpace(data.image2Url) || AllSpace(data.image3Url)
  {
    VideosHandler.MissingRequiredMeans(AddBody(data));
  }

  /** The query of `deleteVideo(videoId)`: `?id=` and the id in decimal. */
  function DeleteQuery(videoId: int): map<string, string> {
    map["id" := IntToString(videoId)]
  }

  /**
   * The handler finds the id where the client put it and reads back the same
   * number; the database takes it exactly when the id column can hold it.
   */
  lemma DeleteQueryCarriesId(videoId: int)
    ensures Lookup(DeleteQuery(videoId), "id", "") != ""
    ensures ParseInt(DeleteQuery(videoId)["id"]) == Some(videoId)
    ensures VideosHandler.IdCast(DeleteQuery(videoId)["id"]) ==
      if IdMin <= videoId <= IdMax then Some(videoId) else None
  {
    ParseIntToString(videoId);
  }
}
