/**
 * The `videos` table as the three handlers see it: a sequence of rows, an id
 * sequence (`SERIAL`), and the queries they send to it — COUNT, the
 * `ORDER BY position DESC, created_at DESC` listing, `COALESCE(MAX(position), 0)`,
 * INSERT and `DELETE ... WHERE id = ...`.
 */
module VideoTable {
  import opened Wire

  // ---------------------------------------------------------------------------
  // Listing order
  // ---------------------------------------------------------------------------

  /** `a` may be listed before `b`: higher position first, then newer first. */
  predicate ListsBefore(a: Video, b: Video) {
    a.position > b.position || (a.position == b.position && a.createdAt >= b.createdAt)
  }

  predicate SortedForListing(s: seq<Video>) {
    forall i, j :: 0 <= i < j < |s| ==> ListsBefore(s[i], s[j])
  }

  /** Putting `v` in front of an ordered sequence keeps it ordered when `v` may precede every element. */
  lemma PrependSorted(v: Video, s: seq<Video>)
    requires SortedForListing(s)
    requires forall j :: 0 <= j < |s| ==> ListsBefore(v, s[j])
    ensures SortedForListing([v] + s)
  {
    var r := [v] + s;
    forall i, j | 0 <= i < j < |r| ensures ListsBefore(r[i], r[j]) {
      if i > 0 { assert r[i] == s[i - 1] && r[j] == s[j - 1]; }
      else { assert r[j] == s[j - 1]; }
    }
  }

  /** An element that may precede the head of an ordered sequence may precede all of it. */
  lemma BeforeHeadBeforeAll(v: Video, s: seq<Video>)
    requires SortedForListing(s)
    requires s != [] ==> ListsBefore(v, s[0])
    ensures forall j :: 0 <= j < |s| ==> ListsBefore(v, s[j])
  {
  }

  /** Places `v` into an already ordered sequence, keeping it ordered and losing nothing. */
  function InsertInOrder(v: Video, s: seq<Video>): (r: seq<Video>)
    requires SortedForListing(s)
    ensures SortedForListing(r)
    ensures multiset(r) == multiset(s) + multiset{v}
  {
    if s == [] || ListsBefore(v, s[0]) then
      BeforeHeadBeforeAll(v, s);
      PrependSorted(v, s);
      [v] + s
    else
      var rest := InsertInOrder(v, s[1..]);
      assert s == [s[0]] + s[1..];
      assert forall j :: 0 <= j < |rest| ==> ListsBefore(s[0], rest[j]) by {
        forall j | 0 <= j < |rest| ensures ListsBefore(s[0], rest[j]) {
          assert rest[j] in multiset(rest);
          if rest[j] != v {
            assert rest[j] in multiset(s[1..]);
            var k :| 0 <= k < |s[1..]| && s[1..][k] == rest[j];
            assert s[k + 1] == rest[j];
          }
        }
      }
      PrependSorted(s[0], rest);
      [s[0]] + rest
  }

  /**
   * The rows in listing order (`ORDER BY position DESC, created_at DESC`):
   * ordered and a permutation of the input. Rows that tie on both keys come
   * out in one fixed order here; the database leaves their order unspecified.
   */
  function Ordered(rows: seq<Video>): (r: seq<Video>)
    ensures SortedForListing(r)
    ensures multiset(r) == multiset(rows)
  {
    if rows == [] then []
    else
      assert rows == [rows[0]] + rows[1..];
      InsertInOrder(rows[0], Ordered(rows[1..]))
  }

  /** A row whose position beats every other row's is listed first. */
  lemma HighestPositionListsFirst(rows: seq<Video>, v: Video)
    requires forall u :: u in rows ==> u.position < v.position
    ensures |Ordered(rows + [v])| == |rows| + 1
    ensures Ordered(rows + [v])[0] == v
  {
    var o := Ordered(rows + [v]);
    assert |o| == |multiset(o)| == |multiset(rows + [v])| == |rows| + 1;
    assert v in multiset(o);
    var k :| 0 <= k < |o| && o[k] == v;
    assert o[0] in multiset(rows + [v]);
    assert o[0] in rows + [v];
    if k != 0 {
      assert ListsBefore(o[0], o[k]);
    }
  }

  // ---------------------------------------------------------------------------
  // Aggregates and deletion
  // ---------------------------------------------------------------------------

  function Max(a: int, b: int): int { if a >= b then a else b }

  /** `COALESCE(MAX(position), 0)`: 0 on an empty table, else the largest position present. */
  function MaxPosition(rows: seq<Video>): (m: int)
    ensures forall v :: v in rows ==> v.position <= m
    ensures rows == [] ==> m == 0
    ensures rows != [] ==> exists v :: v in rows && v.position == m
  {
    if rows == [] then 0
    else if |rows| == 1 then rows[0].position
    else
      assert rows == [rows[0]] + rows[1..];
      Max(rows[0].position, MaxPosition(rows[1..]))
  }

  /** `DELETE FROM videos WHERE id = ...`: every row with that id goes, every other row stays, in order. */
  function WithoutId(rows: seq<Video>, id: int): (r: seq<Video>)
    ensures forall v :: multiset(r)[v] == if v.id == id then 0 else multiset(rows)[v]
  {
    if rows == [] then []
    else
      assert rows == [rows[0]] + rows[1..];
      (if rows[0].id == id then [] else [rows[0]]) + WithoutId(rows[1..], id)
  }

  /** Deleting an id a second time removes nothing more. */
  lemma {:induction false} WithoutIdTwice(rows: seq<Video>, id: int)
    ensures WithoutId(WithoutId(rows, id), id) == WithoutId(rows, id)
  {
    if rows != [] {
      var rest := WithoutId(rows[1..], id);
      WithoutIdTwice(rows[1..], id);
      if rows[0].id == id {
        assert WithoutId(rows, id) == rest;
      } else {
        var r := [rows[0]] + rest;
        assert WithoutId(rows, id) == r;
        assert r[0] == rows[0] && r[1..] == rest;
        assert WithoutId(r, id) == [rows[0]] + WithoutId(rest, id);
      }
    }
  }

  // ---------------------------------------------------------------------------
  // The table
  // ---------------------------------------------------------------------------

  /** The range of the `id` column, a `SERIAL` and so a 32-bit `integer`. */
  const IdMin: int := -0x8000_0000
  const IdMax: int := 0x7FFF_FFFF

  /** The table's contents as a value: the rows and the next value of the id sequence. */
  datatype Store = Store(rows: seq<Video>, nextId: int)

  class Table {
    /** The rows, in insertion order. */
    var rows: seq<Video>
    /** The next value of the id sequence. */
    var nextId: int

    /** Every id handed out so far is below the sequence's next value. */
    ghost predicate Valid()
      reads this
    {
      forall v :: v in rows ==> v.id < nextId
    }

    function State(): Store
      reads this
    {
      Store(rows, nextId)
    }

    constructor ()
      ensures Valid() && rows == [] && nextId == 1
    {
      rows := [];
      nextId := 1;
    }

    /** `SELECT COUNT(*) FROM videos`. */
    method Count() returns (n: nat)
      ensures n == |rows|
    {
      n := |rows|;
    }

    /**
     * `INSERT INTO videos (...) VALUES (...) RETURNING id`: appends one row
     * with a fresh id; `now` is the transaction's timestamp, which
     * `created_at` defaults to.
     */
    method Insert(title: string, tags: seq<string>, externalUrl: string,
                  image1Url: string, image2Url: string, image3Url: string,
                  position: int, now: int) returns (id: int)
      requires Valid()
      modifies this
      ensures Valid()
      ensures id == old(nextId) && nextId == old(nextId) + 1
      ensures forall v :: v in old(rows) ==> v.id != id
      ensures rows == old(rows) + [Video(id, title, tags, externalUrl, image1Url, image2Url, image3Url, now, position)]
    {
      id := nextId;
      rows := rows + [Video(id, title, tags, externalUrl, image1Url, image2Url, image3Url, now, position)];
      nextId := nextId + 1;
    }

    /** `DELETE FROM videos WHERE id = ...`. */
    method DeleteWhereId(id: int)
      requires Valid()
      modifies this
      ensures Valid()
      ensures rows == WithoutId(old(rows), id) && nextId == old(nextId)
    {
      rows := WithoutId(rows, id);
      forall v | v in rows ensures v.id < nextId {
        assert v in multiset(rows);
        assert v in multiset(old(rows));
      }
    }
  }
}
