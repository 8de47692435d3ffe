/**
 * The catalog page (src/pages/Index.tsx): the signed-in user, the shown
 * entries and page count, the current page, the search text and the tag
 * filter, and the three dialog flags. Each handler updates these cells in
 * turn; the page's invariant is that the search text and the tag filter are
 * never both set and that the current page is at least 1.
 *
 * The effect that reloads the list when the page, the search or the tag
 * changes is split, like every `await`, into the request it makes
 * (`FetchParams`) and the update it does with the answer (`LoadVideos`).
 */
module IndexPage {
  import opened Wrappers
  import opened Text
  import opened Wire
  import Pagination
  import VideosHandler
  import VideosClient
  import AuthClient

  /** What the awaited `fetchVideos` gives: the decoded listing, or a thrown error. */
  datatype Fetch = Received(videos: seq<Video>, totalPages: int) | Failed

  /**
   * How the page reads a catalog answer. A listing is decoded. For a handler
   * that raised, the model assumes the gateway answers with a body that is not
   * JSON, so `response.json()` throws and the reload fails.
   */
  function FetchOf(resp: VideosHandler.Response): Fetch {
    match resp
    case Reply(_, Listing(videos, _, _, _, totalPages)) => Received(videos, totalPages)
    case _ => Failed
  }

  /** The search text and the tag filter are never both in force. */
  predicate OneFilter(searchQuery: string, tagFilter: string) {
    searchQuery == "" || tagFilter == ""
  }

  class Page {
    var user: Option<User>
    var videos: seq<Video>
    var currentPage: int
    var totalPages: int
    var searchQuery: string
    var tagFilter: string
    var loginOpen: bool
    var subscribeOpen: bool
    var adminOpen: bool
    const storage: AuthClient.LocalStorage

    /** The page's invariant. */
    predicate Valid()
      reads this
    {
      OneFilter(searchQuery, tagFilter) && currentPage >= 1
    }

    /** The add-entry button and dialog are rendered only for an admin. */
    predicate AdminControlsVisible()
      reads this
    {
      user.Some? && user.value.isAdmin
    }

    /** The request the reload effect makes for the current cells. */
    function FetchParams(): seq<(string, string)>
      reads this
    {
      VideosClient.QueryParams(Some(currentPage), searchQuery, tagFilter)
    }

    /** The initial cells: no user, no entries, page 1 of 1, no filters, every dialog closed. */
    constructor (storage: AuthClient.LocalStorage)
      ensures Valid()
      ensures this.storage == storage
      ensures user == None && videos == [] && currentPage == 1 && totalPages == 1
      ensures searchQuery == "" && tagFilter == ""
      ensures !loginOpen && !subscribeOpen && !adminOpen
    {
      this.storage := storage;
      user := None;
      videos := [];
      currentPage := 1;
      totalPages := 1;
      searchQuery := "";
      tagFilter := "";
      loginOpen := false;
      subscribeOpen := false;
      adminOpen := false;
    }

    /**
     * The mount effect: a stored session sets the user; without one nothing
     * changes. A stored user that does not parse throws (`threw`), and
     * nothing changes either.
     */
    method Restore() returns (threw: bool)
      requires Valid()
      modifies this
      ensures Valid()
      ensures threw <==> AuthClient.StoredAuth(storage.items).Malformed?
      ensures AuthClient.StoredAuth(storage.items).Auth? ==> user == Some(AuthClient.StoredAuth(storage.items).user)
      ensures !AuthClient.StoredAuth(storage.items).Auth? ==> user == old(user)
      ensures videos == old(videos) && currentPage == old(currentPage) && totalPages == old(totalPages)
      ensures searchQuery == old(searchQuery) && tagFilter == old(tagFilter)
      ensures loginOpen == old(loginOpen) && subscribeOpen == old(subscribeOpen) && adminOpen == old(adminOpen)
    {
      var auth := AuthClient.GetStoredAuth(storage);
      threw := auth.Malformed?;
      if auth.Auth? {
        user := Some(auth.user);
      }
    }

    /**
     * `loadVideos` after its `await`: a listing replaces the entries and the
     * page count together; a failure is only logged and changes nothing.
     */
    method LoadVideos(fetch: Fetch)
      requires Valid()
      modifies this
      ensures Valid()
      ensures fetch.Received? ==> videos == fetch.videos && totalPages == fetch.totalPages
      ensures fetch.Failed? ==> videos == old(videos) && totalPages == old(totalPages)
      ensures user == old(user) && currentPage == old(currentPage)
      ensures searchQuery == old(searchQuery) && tagFilter == old(tagFilter)
      ensures loginOpen == old(loginOpen) && subscribeOpen == old(subscribeOpen) && adminOpen == old(adminOpen)
    {
      if fetch.Received? {
        videos := fetch.videos;
        totalPages := fetch.totalPages;
      }
    }

    /** `handleLoginSuccess`: set the user, then save the session. */
    method HandleLoginSuccess(u: User, token: string)
      requires Valid()
      modifies this, storage
      ensures Valid()
      ensures user == Some(u)
      ensures storage.items == AuthClient.Saved(old(storage.items), u, token)
      ensures videos == old(videos) && currentPage == old(currentPage) && totalPages == old(totalPages)
      ensures searchQuery == old(searchQuery) && tagFilter == old(tagFilter)
      ensures loginOpen == old(loginOpen) && subscribeOpen == old(subscribeOpen) && adminOpen == old(adminOpen)
    {
      user := Some(u);
      AuthClient.SaveAuth(storage, u, token);
    }

    /** `handleLogout`: forget the user, then clear the session. */
    method HandleLogout()
      requires Valid()
      modifies this, storage
      ensures Valid()
      ensures user == None && !AdminControlsVisible()
      ensures storage.items == AuthClient.Cleared(old(storage.items))
      ensures AuthClient.StoredAuth(storage.items) == AuthClient.NoAuth
      ensures videos == old(videos) && currentPage == old(currentPage) && totalPages == old(totalPages)
      ensures searchQuery == old(searchQuery) && tagFilter == old(tagFilter)
      ensures loginOpen == old(loginOpen) && subscribeOpen == old(subscribeOpen) && adminOpen == old(adminOpen)
    {
      user := None;
      AuthClient.ClearAuth(storage);
      AuthClient.LoadAfterClear(old(storage.items));
    }

    /** `handleSearch(query)`: search for the text, drop the tag filter, back to page 1. */
    method HandleSearch(query: string)
      requires Valid()
      modifies this
      ensures Valid()
      ensures searchQuery == query && tagFilter == "" && currentPage == 1
      ensures user == old(user) && videos == old(videos) && totalPages == old(totalPages)
      ensures loginOpen == old(loginOpen) && subscribeOpen == old(subscribeOpen) && adminOpen == old(adminOpen)
    {
      searchQuery := query;
      tagFilter := "";
      currentPage := 1;
    }

    /** `handleTagClick(tag)`: filter by the tag, drop the search text, back to page 1. */
    method HandleTagClick(tag: string)
      requires Valid()
      modifies this
      ensures Valid()
      ensures tagFilter == tag && searchQuery == "" && currentPage == 1
      ensures user == old(user) && videos == old(videos) && totalPages == old(totalPages)
      ensures loginOpen == old(loginOpen) && subscribeOpen == old(subscribeOpen) && adminOpen == old(adminOpen)
    {
      tagFilter := tag;
      searchQuery := "";
      currentPage := 1;
    }

    /** The button beside a tag filter (shown only while one is set): drop it, back to page 1, keep the search text. */
    method ClearTag()
      requires Valid()
      requires tagFilter != ""
      modifies this
      ensures Valid()
      ensures tagFilter == "" && currentPage == 1 && searchQuery == old(searchQuery)
      ensures user == old(user) && videos == old(videos) && totalPages == old(totalPages)
      ensures loginOpen == old(loginOpen) && subscribeOpen == old(subscribeOpen) && adminOpen == old(adminOpen)
    {
      tagFilter := "";
      currentPage := 1;
    }

    /** `onPageChange` of either page bar: go to the page the offered click asks for. */
    method ChangePage(click: Pagination.Click)
      requires Valid()
      requires Pagination.Offers(currentPage, totalPages, click)
      modifies this
      ensures Valid()
      ensures currentPage == Pagination.Target(old(currentPage), click)
      ensures old(currentPage) <= totalPages ==> currentPage <= totalPages
      ensures user == old(user) && videos == old(videos) && totalPages == old(totalPages)
      ensures searchQuery == old(searchQuery) && tagFilter == old(tagFilter)
      ensures loginOpen == old(loginOpen) && subscribeOpen == old(subscribeOpen) && adminOpen == old(adminOpen)
    {
      Pagination.ClickStaysPositive(currentPage, totalPages, click);
      if currentPage <= totalPages {
        Pagination.ClickStaysInRange(currentPage, totalPages, click);
      }
      currentPage := Pagination.Target(currentPage, click);
    }

    /**
     * `handleVideoClick(video)`: a signed-in visitor is sent to the entry's
     * link (`navigation`); anyone else gets the subscribe dialog instead.
     */
    method HandleVideoClick(video: Video) returns (navigation: Option<string>)
      requires Valid()
      modifies this
      ensures Valid()
      ensures user.Some? ==> navigation == Some(video.externalUrl) && subscribeOpen == old(subscribeOpen)
      ensures user.None? ==> navigation == None && subscribeOpen
      ensures user == old(user) && videos == old(videos) && currentPage == old(currentPage) && totalPages == old(totalPages)
      ensures searchQuery == old(searchQuery) && tagFilter == old(tagFilter)
      ensures loginOpen == old(loginOpen) && adminOpen == old(adminOpen)
    {
      if user.Some? {
        navigation := Some(video.externalUrl);
      } else {
        subscribeOpen := true;
        navigation := None;
      }
    }

    /** The header's sign-in button. */
    method OpenLogin()
      requires Valid()
      modifies this
      ensures Valid()
      ensures loginOpen
      ensures user == old(user) && videos == old(videos) && currentPage == old(currentPage) && totalPages == old(totalPages)
      ensures searchQuery == old(searchQuery) && tagFilter == old(tagFilter)
      ensures subscribeOpen == old(subscribeOpen) && adminOpen == old(adminOpen)
    {
      loginOpen := true;
    }

    /** The add-entry button, which exists only for an admin. */
    method OpenAdmin()
      requires Valid()
      requires AdminControlsVisible()
      modifies this
      ensures Valid()
      ensures adminOpen
      ensures user == old(user) && videos == old(videos) && currentPage == old(currentPage) && totalPages == old(totalPages)
      ensures searchQuery == old(searchQuery) && tagFilter == old(tagFilter)
      ensures loginOpen == old(loginOpen) && subscribeOpen == old(subscribeOpen)
    {
      adminOpen := true;
    }
  }

  /** A page whose filters are exclusive asks the catalog for at most one of them. */
  lemma OneFilterSent(page: int, searchQuery: string, tagFilter: string)
    requires OneFilter(searchQuery, tagFilter)
    ensures var query := VideosClient.AsQuery(VideosClient.QueryParams(Some(page), searchQuery, tagFilter));
      Lookup(query, "search", "") == "" || Lookup(query, "tag", "") == ""
  {
    VideosClient.QueryReadsBack(Some(page), searchQuery, tagFilter);
  }

  /**
   * The reload fed by the catalog endpoint: for a listable page it shows that page
   * of the listing for the stripped filter, and the page count is the number
   * of pages of matches, 0 exactly when nothing matches.
   */
  lemma ReloadShowsServerPage(rows: seq<Video>, page: int, searchQuery: string, tagFilter: string,
                              ilike: (string, string) -> bool)
    requires VideosHandler.ListablePage(page)
    ensures var fetch := FetchOf(VideosHandler.ListResponse(rows,
              VideosClient.AsQuery(VideosClient.QueryParams(Some(page), searchQuery, tagFilter)), ilike));
      var body := VideosHandler.ListingFor(rows, page, Strip(searchQuery), Strip(tagFilter), ilike);
      && fetch == Received(body.videos, body.totalPages)
      && fetch.totalPages == VideosHandler.PageCount(body.total)
      && (body.total == 0 <==> fetch.totalPages == 0)
  {
    var query := VideosClient.AsQuery(VideosClient.QueryParams(Some(page), searchQuery, tagFilter));
    var body := VideosHandler.ListingFor(rows, page, Strip(searchQuery), Strip(tagFilter), ilike);
    assert VideosHandler.ListResponse(rows, query, ilike) == VideosHandler.Reply(200, body) by {
      VideosClient.FetchVideosIsAnswered(rows, Some(page), searchQuery, tagFilter, ilike);
    }
    assert body.total >= 0 && body.totalPages == VideosHandler.PageCount(body.total);
    VideosHandler.PageCountIsCeiling(body.total);
  }

  /**
   * A page below 1, or one so far out that its OFFSET overflows a `bigint`,
   * makes the handler's query fail: the reload fails and the page keeps its entries.
   */
  lemma ReloadOutOfRangeFails(rows: seq<Video>, page: int, searchQuery: string, tagFilter: string,
                              ilike: (string, string) -> bool)
    requires !VideosHandler.ListablePage(page)
    ensures FetchOf(VideosHandler.ListResponse(rows,
              VideosClient.AsQuery(VideosClient.QueryParams(Some(page), searchQuery, tagFilter)), ilike)) == Failed
  {
    var query := VideosClient.AsQuery(VideosClient.QueryParams(Some(page), searchQuery, tagFilter));
    assert VideosHandler.ListResponse(rows, query, ilike) == VideosHandler.Fault by {
      VideosClient.FetchVideosIsAnswered(rows, Some(page), searchQuery, tagFilter, ilike);
    }
  }

  /** A session saved at sign-in is restored on the next visit with the same user, so the admin controls come back exactly for an admin. */
  lemma SignInSurvivesReload(items: map<string, string>, u: User, token: string)
    requires token != ""
    ensures AuthClient.StoredAuth(AuthClient.Saved(items, u, token)).Auth?
    ensures AuthClient.StoredAuth(AuthClient.Saved(items, u, token)).user.isAdmin <==> u.isAdmin
  {
    AuthClient.LoadAfterSave(items, u, token);
  }
}
