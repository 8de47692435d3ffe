/**
 * The catalog endpoint (backend/videos/index.py). GET lists one page of the
 * entries that match an optional title search and an optional tag. POST adds
 * an entry at the top of the order. DELETE removes an entry by id. Both
 * writes are gated by the `x-is-admin` header. OPTIONS answers the CORS
 * preflight; any other method is refused with 405.
 *
 * ILIKE matching is left abstract: `ilike(title, pattern)` stands for
 * PostgreSQL's `title ILIKE pattern`, with `pattern` the search text wrapped
 * in `%` exactly as the handler builds it.
 */
module VideosHandler {
  import opened Wrappers
  import opened Text
  import opened Wire
  import opened VideoTable

  /** Entries per page. */
  const PerPage: int := 12

  /** The decoded JSON body of a POST; a key that is absent is `None`. */
  datatype NewVideoBody = NewVideoBody(
    title: Option<string>,
    tags: seq<string>,
    externalUrl: Option<string>,
    image1Url: Option<string>,
    image2Url: Option<string>,
    image3Url: Option<string>)

  /**
   * The event the function receives. `headers` has lower-case names, as the
   * gateway delivers them; `query` is empty when there are no query parameters.
   */
  datatype Request = Request(
    httpMethod: Option<string>,
    headers: map<string, string>,
    query: map<string, string>,
    body: NewVideoBody)

  datatype Body =
    | NoContent
    | Listing(videos: seq<Video>, total: nat, page: int, perPage: int, totalPages: int)
    | Created(id: int)
    | Done
    | Failure(error: string)

  /** A status code with a body, or `Fault`: an exception escaped the handler. */
  datatype Response = Reply(statusCode: int, body: Body) | Fault

  // ---------------------------------------------------------------------------
  // GET: filtering, ordering, paging
  // ---------------------------------------------------------------------------

  /** One condition of the WHERE clause. */
  datatype Clause = TitleLike(pattern: string) | HasTag(tag: string)

  predicate Holds(v: Video, c: Clause, ilike: (string, string) -> bool) {
    match c
    case TitleLike(p) => ilike(v.title, p)
    case HasTag(t) => t in v.tags
  }

  /** The clauses joined with AND; no clause at all means TRUE. */
  predicate Satisfies(v: Video, clauses: seq<Clause>, ilike: (string, string) -> bool) {
    forall i :: 0 <= i < |clauses| ==> Holds(v, clauses[i], ilike)
  }

  /**
   * What a listing means: an empty search text or tag imposes nothing; when
   * both are given, both must hold.
   */
  predicate Selected(v: Video, search: string, tag: string, ilike: (string, string) -> bool) {
    (search == "" || ilike(v.title, "%" + search + "%")) && (tag == "" || tag in v.tags)
  }

  /** The rows a listing selects, in table order. */
  function Select(rows: seq<Video>, search: string, tag: string, ilike: (string, string) -> bool): (r: seq<Video>)
    ensures forall v :: multiset(r)[v] == if Selected(v, search, tag, ilike) then multiset(rows)[v] else 0
  {
    if rows == [] then []
    else
      assert rows == [rows[0]] + rows[1..];
      (if Selected(rows[0], search, tag, ilike) then [rows[0]] else []) + Select(rows[1..], search, tag, ilike)
  }

  /** The rows the database returns for a WHERE clause, in table order. */
  function Matching(rows: seq<Video>, clauses: seq<Clause>, ilike: (string, string) -> bool): seq<Video> {
    if rows == [] then []
    else (if Satisfies(rows[0], clauses, ilike) then [rows[0]] else []) + Matching(rows[1..], clauses, ilike)
  }

  /** A WHERE clause that agrees with the filters row by row returns exactly the selected rows. */
  lemma {:induction false} MatchingIsSelect(rows: seq<Video>, clauses: seq<Clause>, search: string, tag: string,
                                           ilike: (string, string) -> bool)
    requires forall v :: Satisfies(v, clauses, ilike) <==> Selected(v, search, tag, ilike)
    ensures Matching(rows, clauses, ilike) == Select(rows, search, tag, ilike)
  {
    if rows != [] {
      MatchingIsSelect(rows[1..], clauses, search, tag, ilike);
    }
  }

  /** The WHERE clause the handler assembles, one condition per non-empty filter. */
  method WhereClauses(searchQuery: string, tagFilter: string, ghost ilike: (string, string) -> bool)
    returns (clauses: seq<Clause>)
    ensures |clauses| <= 2
    ensures forall v :: Satisfies(v, clauses, ilike) <==> Selected(v, searchQuery, tagFilter, ilike)
  {
    clauses := [];
    if searchQuery != "" {
      clauses := clauses + [TitleLike("%" + searchQuery + "%")];
    }
    if tagFilter != "" {
      clauses := clauses + [HasTag(tagFilter)];
    }
    forall v ensures Satisfies(v, clauses, ilike) <==> Selected(v, searchQuery, tagFilter, ilike) {
      if searchQuery != "" { assert clauses[0] == TitleLike("%" + searchQuery + "%"); }
      if tagFilter != "" { assert clauses[|clauses| - 1] == HasTag(tagFilter); }
    }
  }

  /** `LIMIT limit OFFSET offset` over an ordered result. */
  function PageSlice(s: seq<Video>, offset: nat, limit: nat): (r: seq<Video>)
    ensures |r| <= limit
    ensures forall k :: 0 <= k < |r| ==> offset + k < |s| && r[k] == s[offset + k]
    ensures offset + limit <= |s| ==> |r| == limit
  {
    if offset >= |s| then []
    else if offset + limit <= |s| then s[offset..offset + limit]
    else s[offset..]
  }

  /** `(total + per_page - 1) // per_page`. */
  function PageCount(total: nat): nat {
    (total + PerPage - 1) / PerPage
  }

  /** The body of a successful listing of page `page` (at least 1). */
  function ListingFor(rows: seq<Video>, page: int, search: string, tag: string,
                      ilike: (string, string) -> bool): Body
    requires page >= 1
  {
    var matching := Select(rows, search, tag, ilike);
    Listing(PageSlice(Ordered(matching), (page - 1) * PerPage, PerPage),
            |matching|, page, PerPage, PageCount(|matching|))
  }

  /** The largest `bigint`: PostgreSQL takes OFFSET as a `bigint` and raises on a larger value. */
  const BigintMax: int := 0x7FFF_FFFF_FFFF_FFFF

  /** A page the GET branch can list: at least 1, with an OFFSET `(page - 1) * 12` that fits a `bigint`. */
  predicate ListablePage(page: int) {
    page >= 1 && (page - 1) * PerPage <= BigintMax
  }

  /**
   * The response to GET: `int(page)` raises on text that is not a number, and
   * PostgreSQL rejects an OFFSET that is negative (a page below 1) or beyond
   * `bigint`; otherwise 200 with the listing for the stripped search text and tag.
   */
  function ListResponse(rows: seq<Video>, query: map<string, string>,
                        ilike: (string, string) -> bool): Response
  {
    match ParseInt(Lookup(query, "page", "1"))
    case None => Fault
    case Some(page) =>
      if !ListablePage(page) then Fault
      else Reply(200, ListingFor(rows, page, Strip(Lookup(query, "search", "")),
                                 Strip(Lookup(query, "tag", "")), ilike))
  }

  /** The two queries of the GET branch: COUNT over the WHERE clause, then one ordered page. */
  method QueryPage(db: Table, page: int, searchQuery: string, tagFilter: string,
                   ilike: (string, string) -> bool) returns (body: Body)
    requires page >= 1
    ensures body == ListingFor(db.rows, page, searchQuery, tagFilter, ilike)
  {
    var clauses := WhereClauses(searchQuery, tagFilter, ilike);
    var matching := Matching(db.rows, clauses, ilike);
    MatchingIsSelect(db.rows, clauses, searchQuery, tagFilter, ilike);
    var total := |matching|;
    var videos := PageSlice(Ordered(matching), (page - 1) * PerPage, PerPage);
    body := Listing(videos, total, page, PerPage, (total + PerPage - 1) / PerPage);
  }

  /** The GET branch: reads the parameters, then queries the table. */
  method List(db: Table, query: map<string, string>, ilike: (string, string) -> bool)
    returns (resp: Response)
    ensures resp == ListResponse(db.rows, query, ilike)
  {
    var parsed := ParseInt(Lookup(query, "page", "1"));
    if parsed.None? {
      return Fault;
    }
    var page := parsed.value;
    var offset := (page - 1) * PerPage;
    if offset < 0 || offset > BigintMax {
      return Fault;
    }
    var searchQuery := Strip(Lookup(query, "search", ""));
    var tagFilter := Strip(Lookup(query, "tag", ""));
    var body := QueryPage(db, page, searchQuery, tagFilter, ilike);
    resp := Reply(200, body);
  }

  /** With no search text and no tag, every row is listed. */
  lemma NoFilterKeepsAll(rows: seq<Video>, ilike: (string, string) -> bool)
    ensures Select(rows, "", "", ilike) == rows
  {
    if rows != [] {
      NoFilterKeepsAll(rows[1..], ilike);
      assert rows == [rows[0]] + rows[1..];
    }
  }

  /**
   * A page holds at most twelve entries, in listing order, each of them a row
   * of the table that matches the filters; `total` counts every matching row
   * whatever the page.
   */
  lemma ListingContents(rows: seq<Video>, page: int, search: string, tag: string,
                        ilike: (string, string) -> bool)
    requires page >= 1
    ensures var body := ListingFor(rows, page, search, tag, ilike);
      && |body.videos| <= PerPage
      && SortedForListing(body.videos)
      && (forall v :: v in body.videos ==> v in rows && Selected(v, search, tag, ilike))
      && body.total == |Select(rows, search, tag, ilike)|
  {
    var matching := Select(rows, search, tag, ilike);
    var ordered := Ordered(matching);
    var body := ListingFor(rows, page, search, tag, ilike);
    forall v | v in body.videos ensures v in rows && Selected(v, search, tag, ilike) {
      var k :| 0 <= k < |body.videos| && body.videos[k] == v;
      assert v == ordered[(page - 1) * PerPage + k];
      assert v in multiset(ordered);
      assert multiset(matching)[v] > 0;
      assert v in multiset(rows);
    }
    forall i, j | 0 <= i < j < |body.videos| ensures ListsBefore(body.videos[i], body.videos[j]) {
      assert body.videos[i] == ordered[(page - 1) * PerPage + i];
      assert body.videos[j] == ordered[(page - 1) * PerPage + j];
    }
  }

  /** `total_pages` is the ceiling of total / 12, and 0 exactly when nothing matches. */
  lemma PageCountIsCeiling(total: nat)
    ensures PageCount(total) * PerPage >= total
    ensures total > 0 ==> (PageCount(total) - 1) * PerPage < total
    ensures PageCount(total) == 0 <==> total == 0
  {
  }

  /** Entry k of the listing sits on page k / 12 + 1, which is within `total_pages` when k < total. */
  lemma PageOfEntry(k: nat, total: nat)
    requires k < total
    ensures (k / PerPage) * PerPage + k % PerPage == k
    ensures k / PerPage + 1 <= PageCount(total)
  {
    var q := k / PerPage;
    assert q * PerPage <= k;
    assert (q + 1) * PerPage <= total + PerPage - 1;
    assert (total + PerPage - 1) / PerPage >= q + 1;
  }

  /** Entry k of an ordered result is entry k % 12 of the slice that starts at (k / 12) * 12. */
  lemma SliceHoldsEntry(s: seq<Video>, k: nat)
    requires k < |s|
    ensures var slice := PageSlice(s, (k / PerPage) * PerPage, PerPage);
      k % PerPage < |slice| && slice[k % PerPage] == s[k]
  {
    var offset := (k / PerPage) * PerPage;
    var r := k % PerPage;
    assert offset + r == k;
    var slice := PageSlice(s, offset, PerPage);
    if offset + PerPage <= |s| {
      assert |slice| == PerPage;
    } else {
      assert slice == s[offset..];
    }
  }

  /**
   * Pages partition the listing: the k-th matching row in listing order is
   * entry k % 12 of page k / 12 + 1, and that page is within `total_pages`.
   */
  lemma EveryMatchOnItsPage(rows: seq<Video>, search: string, tag: string,
                            ilike: (string, string) -> bool, k: nat)
    requires k < |Select(rows, search, tag, ilike)|
    ensures var page := k / PerPage + 1;
      var body := ListingFor(rows, page, search, tag, ilike);
      && page <= body.totalPages
      && k % PerPage < |body.videos|
      && body.videos[k % PerPage] == Ordered(Select(rows, search, tag, ilike))[k]
  {
    var matching := Select(rows, search, tag, ilike);
    var ordered := Ordered(matching);
    assert |ordered| == |multiset(ordered)| == |multiset(matching)| == |matching|;
    PageOfEntry(k, |matching|);
    SliceHoldsEntry(ordered, k);
    var page := k / PerPage + 1;
    assert (page - 1) * PerPage == (k / PerPage) * PerPage;
  }

  // ---------------------------------------------------------------------------
  // POST and DELETE
  // ---------------------------------------------------------------------------

  /** `headers.get('x-is-admin', 'false').lower() == 'true'`. */
  predicate IsAdmin(headers: map<string, string>) {
    LowerAscii(Lookup(headers, "x-is-admin", "false")) == "true"
  }

  /** A text field of the body after `.get(key, '').strip()`. */
  function Field(value: Option<string>): string {
    Strip(value.GetOr(""))
  }

  /** `not all([title, external_url, image1_url, image2_url, image3_url])` on the stripped texts. */
  predicate MissingRequired(body: NewVideoBody) {
    Field(body.title) == "" || Field(body.externalUrl) == "" ||
    Field(body.image1Url) == "" || Field(body.image2Url) == "" || Field(body.image3Url) == ""
  }

  predicate Blank(value: Option<string>) {
    value.None? || AllSpace(value.value)
  }

  /** A field is missing exactly when its key is absent or its text is all whitespace. */
  lemma MissingRequiredMeans(body: NewVideoBody)
    ensures MissingRequired(body) <==>
      Blank(body.title) || Blank(body.externalUrl) ||
      Blank(body.image1Url) || Blank(body.image2Url) || Blank(body.image3Url)
  {
    forall value: Option<string> ensures Field(value) == "" <==> Blank(value) {
      if value.None? { assert value.GetOr("") == ""; }
    }
  }

  /** The row a successful POST inserts: stripped texts, tags as sent, the next position. */
  function NewRow(body: NewVideoBody, id: int, rows: seq<Video>, now: int): Video {
    Video(id, Field(body.title), body.tags, Field(body.externalUrl),
          Field(body.image1Url), Field(body.image2Url), Field(body.image3Url), now, MaxPosition(rows) + 1)
  }

  /**
   * The new entry's position beats every existing one (it is 1 on an empty
   * table), so it comes first in an unfiltered listing.
   */
  lemma NewRowListsFirst(body: NewVideoBody, id: int, rows: seq<Video>, now: int)
    ensures rows == [] ==> NewRow(body, id, rows, now).position == 1
    ensures forall u :: u in rows ==> u.position < NewRow(body, id, rows, now).position
    ensures |Ordered(rows + [NewRow(body, id, rows, now)])| == |rows| + 1
    ensures Ordered(rows + [NewRow(body, id, rows, now)])[0] == NewRow(body, id, rows, now)
  {
    HighestPositionListsFirst(rows, NewRow(body, id, rows, now));
  }

  /** The response to POST and the table it leaves. */
  function AddOutcome(headers: map<string, string>, body: NewVideoBody, st: Store, now: int): (Response, Store) {
    if !IsAdmin(headers) then (Reply(403, Failure("Admin access required")), st)
    else if MissingRequired(body) then (Reply(400, Failure("Missing required fields")), st)
    else (Reply(200, Created(st.nextId)), Store(st.rows + [NewRow(body, st.nextId, st.rows, now)], st.nextId + 1))
  }

  /** The POST branch. */
  method Add(db: Table, headers: map<string, string>, body: NewVideoBody, now: int)
    returns (resp: Response)
    requires db.Valid()
    modifies db
    ensures db.Valid()
    ensures (resp, db.State()) == AddOutcome(headers, body, old(db.State()), now)
  {
    if !IsAdmin(headers) {
      return Reply(403, Failure("Admin access required"));
    }
    var title := Field(body.title);
    var externalUrl := Field(body.externalUrl);
    var image1Url := Field(body.image1Url);
    var image2Url := Field(body.image2Url);
    var image3Url := Field(body.image3Url);
    if title == "" || externalUrl == "" || image1Url == "" || image2Url == "" || image3Url == "" {
      assert MissingRequired(body);
      return Reply(400, Failure("Missing required fields"));
    }
    ghost var expected := AddOutcome(headers, body, db.State(), now);
    assert expected.1 == Store(db.rows + [NewRow(body, db.nextId, db.rows, now)], db.nextId + 1);
    var nextPosition := MaxPosition(db.rows) + 1;
    assert Video(db.nextId, title, body.tags, externalUrl, image1Url, image2Url, image3Url, now, nextPosition)
      == NewRow(body, db.nextId, db.rows, now);
    var id := db.Insert(title, body.tags, externalUrl, image1Url, image2Url, image3Url, nextPosition, now);
    resp := Reply(200, Created(id));
    assert db.State() == expected.1;
  }

  /**
   * `WHERE id = %s` with the id as text: PostgreSQL casts it to the `integer`
   * column, reading a numeral as `ParseInt` does and failing outside the
   * column's 32-bit range.
   */
  function IdCast(text: string): Option<int> {
    match ParseInt(text)
    case None => None
    case Some(n) => if IdMin <= n <= IdMax then Some(n) else None
  }

  /** The response to DELETE and the table it leaves; an id the cast refuses makes the database raise. */
  function DeleteOutcome(headers: map<string, string>, query: map<string, string>, st: Store): (Response, Store) {
    if !IsAdmin(headers) then (Reply(403, Failure("Admin access required")), st)
    else if Lookup(query, "id", "") == "" then (Reply(400, Failure("Video ID required")), st)
    else
      match IdCast(query["id"])
      case None => (Fault, st)
      case Some(id) => (Reply(200, Done), Store(WithoutId(st.rows, id), st.nextId))
  }

  /** The DELETE branch. */
  method Delete(db: Table, headers: map<string, string>, query: map<string, string>)
    returns (resp: Response)
    requires db.Valid()
    modifies db
    ensures db.Valid()
    ensures (resp, db.State()) == DeleteOutcome(headers, query, old(db.State()))
  {
    if !IsAdmin(headers) {
      return Reply(403, Failure("Admin access required"));
    }
    var videoId := Lookup(query, "id", "");
    if videoId == "" {
      return Reply(400, Failure("Video ID required"));
    }
    var id := IdCast(videoId);
    if id.None? {
      return Fault;
    }
    db.DeleteWhereId(id.value);
    resp := Reply(200, Done);
  }

  /** Without the admin header neither write touches the table. */
  lemma OnlyAdminsWrite(headers: map<string, string>, body: NewVideoBody, query: map<string, string>,
                        st: Store, now: int)
    requires !IsAdmin(headers)
    ensures AddOutcome(headers, body, st, now) == (Reply(403, Failure("Admin access required")), st)
    ensures DeleteOutcome(headers, query, st) == (Reply(403, Failure("Admin access required")), st)
  {
  }

  /** A request without parameters lists page 1 of every row. */
  lemma UnfilteredFirstPage(rows: seq<Video>, ilike: (string, string) -> bool)
    ensures ListResponse(rows, map[], ilike) == Reply(200, ListingFor(rows, 1, "", "", ilike))
  {
    assert Lookup(map[], "page", "1") == "1";
    assert IntToString(1) == "1";
    ParseIntToString(1);
    assert Lookup(map[], "search", "") == "" && Lookup(map[], "tag", "") == "";
    assert Strip("") == "" by { assert AllSpace(""); }
  }

  /** Page 1 of every row starts with the first row in listing order and counts every row. */
  lemma UnfilteredFirstEntry(rows: seq<Video>, ilike: (string, string) -> bool)
    requires rows != []
    ensures var body := ListingFor(rows, 1, "", "", ilike);
      |body.videos| >= 1 && body.videos[0] == Ordered(rows)[0] && body.total == |rows|
  {
    NoFilterKeepsAll(rows, ilike);
    var ordered := Ordered(rows);
    assert |ordered| == |multiset(ordered)| == |multiset(rows)| == |rows|;
    var slice := PageSlice(ordered, 0, PerPage);
    assert |slice| >= 1 && slice[0] == ordered[0];
  }

  /**
   * An admin's POST changes the table exactly when every required field is
   * filled; the accepted entry then heads the unfiltered first page, and the
   * count grows by one.
   */
  lemma AddedEntryListsFirst(headers: map<string, string>, body: NewVideoBody, st: Store, now: int,
                             ilike: (string, string) -> bool)
    requires IsAdmin(headers)
    ensures AddOutcome(headers, body, st, now).1 != st <==> !MissingRequired(body)
    ensures !MissingRequired(body) ==>
      var after := AddOutcome(headers, body, st, now).1;
      var resp := ListResponse(after.rows, map[], ilike);
      && AddOutcome(headers, body, st, now).0 == Reply(200, Created(st.nextId))
      && resp.Reply? && resp.statusCode == 200 && resp.body.Listing?
      && |resp.body.videos| >= 1
      && resp.body.videos[0] == NewRow(body, st.nextId, st.rows, now)
      && resp.body.total == |st.rows| + 1
  {
    if !MissingRequired(body) {
      var rows := st.rows + [NewRow(body, st.nextId, st.rows, now)];
      UnfilteredFirstPage(rows, ilike);
      UnfilteredFirstEntry(rows, ilike);
      NewRowListsFirst(body, st.nextId, st.rows, now);
    }
  }

  /**
   * An admin's DELETE of an id the column can hold answers 200 and leaves
   * exactly the rows with another id; deleting it again changes nothing.
   */
  lemma DeletedEntryGone(headers: map<string, string>, query: map<string, string>, st: Store, id: int)
    requires IsAdmin(headers) && Lookup(query, "id", "") != "" && IdCast(query["id"]) == Some(id)
    ensures var after := DeleteOutcome(headers, query, st);
      && after.0 == Reply(200, Done) && after.1.nextId == st.nextId
      && (forall v :: v in after.1.rows <==> v in st.rows && v.id != id)
      && DeleteOutcome(headers, query, after.1) == after
  {
    var after := DeleteOutcome(headers, query, st);
    forall v ensures v in after.1.rows <==> v in st.rows && v.id != id {
      assert v in after.1.rows <==> v in multiset(after.1.rows);
      assert v in st.rows <==> v in multiset(st.rows);
    }
    WithoutIdTwice(st.rows, id);
  }

  /** The whole handler: the method (default GET) picks the branch. */
  method Handle(db: Table, req: Request, ilike: (string, string) -> bool, now: int)
    returns (resp: Response)
    requires db.Valid()
    modifies db
    ensures db.Valid()
    ensures req.httpMethod.GetOr("GET") == "OPTIONS" ==>
      resp == Reply(200, NoContent) && db.State() == old(db.State())
    ensures req.httpMethod.GetOr("GET") == "GET" ==>
      resp == ListResponse(db.rows, req.query, ilike) && db.State() == old(db.State())
    ensures req.httpMethod.GetOr("GET") == "POST" ==>
      (resp, db.State()) == AddOutcome(req.headers, req.body, old(db.State()), now)
    ensures req.httpMethod.GetOr("GET") == "DELETE" ==>
      (resp, db.State()) == DeleteOutcome(req.headers, req.query, old(db.State()))
    ensures req.httpMethod.GetOr("GET") !in {"OPTIONS", "GET", "POST", "DELETE"} ==>
      resp == Reply(405, Failure("Method not allowed")) && db.State() == old(db.State())
  {
    var m := req.httpMethod.GetOr("GET");
    if m == "OPTIONS" {
      return Reply(200, NoContent);
    }
    if m == "GET" {
      resp := List(db, req.query, ilike);
      return;
    }
    if m == "POST" {
      resp := Add(db, req.headers, req.body, now);
      return;
    }
    if m == "DELETE" {
      resp := Delete(db, req.headers, req.query);
      return;
    }
    resp := Reply(405, Failure("Method not allowed"));
  }
}
