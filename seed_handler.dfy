/**
 * The seeding endpoint (backend/seed-data/index.py): on POST (the default
 * method) it fills an empty `videos` table with twelve fixed entries, at
 * positions 1 to 12, in one transaction; a table that already holds rows is
 * left alone. OPTIONS answers the CORS preflight; any other method gets 405.
 */
module SeedHandler {
  import opened Wrappers
  import opened Text
  import opened Wire
  import opened VideoTable
  import VideosHandler

  /** One sample entry: the values of one INSERT, in column order. */
  datatype Sample = Sample(
    title: string,
    tags: seq<string>,
    externalUrl: string,
    image1Url: string,
    image2Url: string,
    image3Url: string,
    position: int)

  /** Text that does not end in whitespace, so it does not strip to nothing. */
  predicate Visible(t: string) {
    t != [] && !IsSpace(t[|t| - 1])
  }

  /** An Unsplash photo URL, 400 pixels wide. */
  function Unsplash(photo: string): (url: string)
    ensures Visible(url)
  {
    "https://images.unsplash.com/photo-" + photo + "?w=400"
  }

  /** A demo link on example.com. */
  function ExampleUrl(n: nat): (url: string)
    ensures Visible(url)
  {
    "https://example.com/video" + NatDigits(n)
  }

  // The sample list, one column at a time: entry k (from 0) of each column.

  function SampleTitle(k: nat): string
    requires k < 12
  {
    if k == 0 then "Introduction to React"
    else if k == 1 then "TypeScript Basics"
    else if k == 2 then "Web Design Principles"
    else if k == 3 then "Backend Development"
    else if k == 4 then "CSS Animations"
    else if k == 5 then "Database Design"
    else if k == 6 then "Mobile Development"
    else if k == 7 then "Git and GitHub"
    else if k == 8 then "Docker Essentials"
    else if k == 9 then "Security Best Practices"
    else if k == 10 then "Testing Strategies"
    else "Performance Optimization"
  }

  function SampleTags(k: nat): seq<string>
    requires k < 12
  {
    if k == 0 then ["react", "javascript", "tutorial"]
    else if k == 1 then ["typescript", "programming", "tutorial"]
    else if k == 2 then ["design", "ui", "ux"]
    else if k == 3 then ["backend", "api", "nodejs"]
    else if k == 4 then ["css", "animation", "frontend"]
    else if k == 5 then ["database", "sql", "backend"]
    else if k == 6 then ["mobile", "react-native", "ios"]
    else if k == 7 then ["git", "version-control", "tutorial"]
    else if k == 8 then ["docker", "devops", "containers"]
    else if k == 9 then ["security", "encryption", "cybersecurity"]
    else if k == 10 then ["testing", "qa", "automation"]
    else ["performance", "optimization", "frontend"]
  }

  /** The Unsplash photo ids of the three images. */
  function SamplePhotos(k: nat): (string, string, string)
    requires k < 12
  {
    if k == 0 then ("1633356122544-f134324a6cee", "1627398242454-45a1465c2479", "1555066931-4365d14bab8c")
    else if k == 1 then ("1587620962725-abab7fe55159", "1461749280684-dccba630e2f6", "1498050108023-c5249f4df085")
    else if k == 2 then ("1561070791-2526d30994b5", "1558655146-9f40138edfeb", "1572044162444-ad60f128bdea")
    else if k == 3 then ("1558494949-ef010cbdcc31", "1629654297299-c8506221ca97", "1526374965328-7f61d4dc18c5")
    else if k == 4 then ("1507721999472-8ed4421c4af2", "1517694712202-14dd9538aa97", "1547658719-da2b51169166")
    else if k == 5 then ("1544383835-bda2bc66a55d", "1516321318423-f06f85e504b3", "1551033406-611cf9a28f67")
    else if k == 6 then ("1512941937669-90a1b58e7e9c", "1551650975-87deedd944c3", "1556656793-08538906a9f8")
    else if k == 7 then ("1556075798-4825dfaaf498", "1618401471353-b98afee0b2eb", "1522071820081-009f0129c71c")
    else if k == 8 then ("1605745341112-85968b19335b", "1667372393119-3d4c48d07fc9", "1579003593419-98f949b9398f")
    else if k == 9 then ("1614064641938-3bbee52942c7", "1550751827-4bd374c3f58b", "1563206767-5b18f218e8de")
    else if k == 10 then ("1454165804606-c3d57bc86b40", "1581291518633-83b4ebd1d83e", "1504868584819-f8e8b4b6d7e3")
    else ("1460925895917-afdab827c52f", "1519389950473-47ba0277781c", "1551288049-bebda4e38f71")
  }

  /** The position column, written out as in the list. */
  function SamplePositionOf(k: nat): int
    requires k < 12
  {
    if k == 0 then 1
    else if k == 1 then 2
    else if k == 2 then 3
    else if k == 3 then 4
    else if k == 4 then 5
    else if k == 5 then 6
    else if k == 6 then 7
    else if k == 7 then 8
    else if k == 8 then 9
    else if k == 9 then 10
    else if k == 10 then 11
    else 12
  }

  /** The sample entry inserted k-th (from 0); its link is video1 to video12 on example.com. */
  function SampleVideo(k: nat): Sample
    requires k < 12
  {
    var photos := SamplePhotos(k);
    Sample(SampleTitle(k), SampleTags(k), ExampleUrl(k + 1),
           Unsplash(photos.0), Unsplash(photos.1), Unsplash(photos.2), SamplePositionOf(k))
  }

  /** The twelve sample entries, in insertion order. */
  function SampleVideos(): (samples: seq<Sample>)
    ensures |samples| == 12
  {
    seq(12, k requires 0 <= k < 12 => SampleVideo(k))
  }

  datatype Body =
    | NoContent
    | AlreadySeeded(message: string)
    | Seeded(message: string)
    | Failure(error: string)

  datatype Response = Reply(statusCode: int, body: Body)

  /** The row one INSERT of `s` creates, with id `id` and the transaction's timestamp `now`. */
  function SampleRow(s: Sample, id: int, now: int): Video {
    Video(id, s.title, s.tags, s.externalUrl, s.image1Url, s.image2Url, s.image3Url, now, s.position)
  }

  /** The rows that inserting `samples` in order appends, taking ids from `firstId` on. */
  function SampleRows(samples: seq<Sample>, firstId: int, now: int): seq<Video> {
    seq(|samples|, i requires 0 <= i < |samples| => SampleRow(samples[i], firstId + i, now))
  }

  /** The rows the seeding loop appends. */
  function SeedRows(firstId: int, now: int): seq<Video> {
    SampleRows(SampleVideos(), firstId, now)
  }

  /** `f'Added {len(sample_videos)} sample videos'`. */
  function SeedMessage(): string {
    "Added " + IntToString(|SampleVideos()|) + " sample videos"
  }

  /**
   * What one call does, as a function of the method (default POST) and the
   * table before it: the response and the table after it.
   */
  function Outcome(httpMethod: Option<string>, st: Store, now: int): (Response, Store) {
    var m := httpMethod.GetOr("POST");
    if m == "OPTIONS" then (Reply(200, NoContent), st)
    else if m != "POST" then (Reply(405, Failure("Method not allowed")), st)
    else if |st.rows| > 0 then (Reply(200, AlreadySeeded("Database already has data")), st)
    else (Reply(200, Seeded(SeedMessage())), Store(st.rows + SeedRows(st.nextId, now), st.nextId + |SampleVideos()|))
  }

  /** The loop of the handler: one INSERT per sample, in order, in one transaction. */
  method InsertSamples(db: Table, samples: seq<Sample>, now: int)
    requires db.Valid()
    modifies db
    ensures db.Valid()
    ensures db.rows == old(db.rows) + SampleRows(samples, old(db.nextId), now)
    ensures db.nextId == old(db.nextId) + |samples|
  {
    ghost var added := SampleRows(samples, db.nextId, now);
    for i := 0 to |samples|
      invariant db.Valid()
      invariant db.rows == old(db.rows) + added[..i]
      invariant db.nextId == old(db.nextId) + i
    {
      var s := samples[i];
      var _ := db.Insert(s.title, s.tags, s.externalUrl, s.image1Url, s.image2Url, s.image3Url, s.position, now);
      assert added[..i + 1] == added[..i] + [added[i]];
    }
    assert added[..|samples|] == added;
  }

  /** The handler: a count query, then the inserts and a single commit. */
  method Handle(db: Table, httpMethod: Option<string>, now: int) returns (resp: Response)
    requires db.Valid()
    modifies db
    ensures db.Valid()
    ensures (resp, Store(db.rows, db.nextId)) == Outcome(httpMethod, Store(old(db.rows), old(db.nextId)), now)
  {
    var m := httpMethod.GetOr("POST");
    if m == "OPTIONS" {
      return Reply(200, NoContent);
    }
    if m != "POST" {
      return Reply(405, Failure("Method not allowed"));
    }
    var count := db.Count();
    if count > 0 {
      return Reply(200, AlreadySeeded("Database already has data"));
    }
    InsertSamples(db, SampleVideos(), now);
    resp := Reply(200, Seeded(SeedMessage()));
  }

  /** The success message reports twelve entries. */
  lemma SeedMessageSaysTwelve()
    ensures SeedMessage() == "Added 12 sample videos"
  {
    assert NatDigits(12) == NatDigits(1) + [DigitChar(2)];
  }

  /** Only a POST on an empty table changes anything. */
  lemma OnlyEmptyPostSeeds(httpMethod: Option<string>, st: Store, now: int)
    ensures Outcome(httpMethod, st, now).1 != st <==> httpMethod.GetOr("POST") == "POST" && st.rows == []
  {
    if httpMethod.GetOr("POST") == "POST" && st.rows == [] {
      assert |Outcome(httpMethod, st, now).1.rows| == |SampleVideos()|;
    }
  }

  /** Seeding is idempotent: a second call, at any time, changes nothing more. */
  lemma SeedTwiceIsSeedOnce(httpMethod: Option<string>, st: Store, now: int, later: int)
    ensures var once := Outcome(httpMethod, st, now).1;
      Outcome(httpMethod, once, later).1 == once
  {
    var once := Outcome(httpMethod, st, now).1;
    if httpMethod.GetOr("POST") == "POST" && st.rows == [] {
      assert |once.rows| == |SampleVideos()|;
    }
  }

  /** The k-th sample sits at position k + 1. */
  lemma SamplePosition(k: nat)
    requires k < 12
    ensures SampleVideo(k).position == k + 1
  {
    assert SampleVideo(k).position == SamplePositionOf(k);
  }

  /** No sample title ends in whitespace. */
  lemma SampleTitleVisible(k: nat)
    requires k < 12
    ensures Visible(SampleTitle(k))
  {
    if k < 6 {
      FirstTitlesVisible(k);
    } else {
      LastTitlesVisible(k);
    }
  }

  lemma FirstTitlesVisible(k: nat)
    requires k < 6
    ensures Visible(SampleTitle(k))
  {
  }

  lemma LastTitlesVisible(k: nat)
    requires 6 <= k < 12
    ensures Visible(SampleTitle(k))
  {
  }

  /** None of the samples has a blank required text. */
  lemma SampleFilled(k: nat)
    requires k < 12
    ensures Filled(SampleVideo(k))
  {
    SampleTitleVisible(k);
  }

  /** On an empty table a POST seeds, answering with the message that reports twelve entries. */
  lemma SeedingReportsTwelve(st: Store, now: int)
    requires st.rows == []
    ensures Outcome(Some("POST"), st, now) ==
      (Reply(200, Seeded("Added 12 sample videos")), Store(SeedRows(st.nextId, now), st.nextId + 12))
  {
    SeedMessageSaysTwelve();
    assert st.rows + SeedRows(st.nextId, now) == SeedRows(st.nextId, now);
  }

  /** On an empty table exactly twelve rows go in, with fresh consecutive ids and positions 1 to 12. */
  lemma SeedingInsertsTwelve(st: Store, now: int)
    requires st.rows == []
    ensures var after := Outcome(Some("POST"), st, now);
      && after.0 == Reply(200, Seeded("Added 12 sample videos"))
      && |after.1.rows| == 12
      && after.1.nextId == st.nextId + 12
      && forall i :: 0 <= i < 12 ==> after.1.rows[i].position == i + 1 && after.1.rows[i].id == st.nextId + i
  {
    SeedingReportsTwelve(st, now);
    SeedRowsNumbered(st.nextId, now);
  }

  /** The seeded rows take consecutive ids and the positions 1 to 12, in order. */
  lemma SeedRowsNumbered(firstId: int, now: int)
    ensures |SeedRows(firstId, now)| == 12
    ensures forall i :: 0 <= i < 12 ==>
      SeedRows(firstId, now)[i].position == i + 1 && SeedRows(firstId, now)[i].id == firstId + i
  {
    var rows := SeedRows(firstId, now);
    forall i | 0 <= i < 12 ensures rows[i].position == i + 1 && rows[i].id == firstId + i {
      SamplePosition(i);
    }
  }

  /** The seeded positions are pairwise distinct, so the seeded listing order is total. */
  lemma SeededPositionsDistinct(firstId: int, now: int)
    ensures forall i, j :: 0 <= i < j < |SeedRows(firstId, now)| ==>
      SeedRows(firstId, now)[i].position < SeedRows(firstId, now)[j].position
  {
    var rows := SeedRows(firstId, now);
    forall i | 0 <= i < |rows| ensures rows[i].position == i + 1 {
      SamplePosition(i);
    }
  }

  /** A sample as the JSON body of an add request would carry it. */
  function AsNewVideo(s: Sample): VideosHandler.NewVideoBody {
    VideosHandler.NewVideoBody(Some(s.title), s.tags, Some(s.externalUrl),
                               Some(s.image1Url), Some(s.image2Url), Some(s.image3Url))
  }

  /** None of the required texts of `s` ends in whitespace. */
  predicate Filled(s: Sample) {
    Visible(s.title) && Visible(s.externalUrl) && Visible(s.image1Url) && Visible(s.image2Url) && Visible(s.image3Url)
  }

  /** A visible text is not blank once stripped. */
  lemma VisibleNotBlank(t: string)
    requires Visible(t)
    ensures VideosHandler.Field(Some(t)) != ""
  {
    assert !IsSpace(t[|t| - 1]);
    assert !AllSpace(t);
  }

  /** A filled sample passes the required-field check of an add request. */
  lemma FilledPassesValidation(s: Sample)
    requires Filled(s)
    ensures !VideosHandler.MissingRequired(AsNewVideo(s))
  {
    VisibleNotBlank(s.title);
    VisibleNotBlank(s.externalUrl);
    VisibleNotBlank(s.image1Url);
    VisibleNotBlank(s.image2Url);
    VisibleNotBlank(s.image3Url);
  }

  /** Every sample has the texts that adding an entry requires: none of them is blank. */
  lemma SamplesPassValidation()
    ensures forall i :: 0 <= i < |SampleVideos()| ==> !VideosHandler.MissingRequired(AsNewVideo(SampleVideos()[i]))
  {
    var samples := SampleVideos();
    forall i | 0 <= i < |samples| ensures !VideosHandler.MissingRequired(AsNewVideo(samples[i])) {
      SampleFilled(i);
      FilledPassesValidation(samples[i]);
    }
  }
}
