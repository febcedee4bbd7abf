/**
 * The link store of src/service/database.ts: one `urls` table and the
 * `Database` object whose methods run one SQL statement each over it.
 *
 * The table is the `urls` field of a `Database` object, held in insertion
 * order; a statement that changes rows reassigns it. Timestamps are
 * milliseconds, which order exactly as the ISO-8601 strings the table stores.
 * The current time of `NOW()` and `new Date().toISOString()` is a parameter.
 */
module LinkStore {
  import opened Common

  type Timestamp = int

  /** A row of the `urls` table. `lastClicked` is `null` until the first click. */
  datatype Url = Url(
    id: int,
    shortUrl: string,
    redirectUrl: string,
    totalClicked: int,
    lastClicked: Option<Timestamp>,
    createdAt: Timestamp)

  /**
   * The three error classes. NotFoundError and ValidationError extend
   * DatabaseError, so every value here is an `instanceof DatabaseError`; the
   * constructor is what `instanceof` on the subclasses distinguishes.
   */
  datatype DbError =
    | DatabaseError(message: string)
    | NotFoundError(message: string)
    | ValidationError(message: string)

  const EmptyCodeMessage: string := "shortUrl cannot be empty"
  const EmptyRedirectMessage: string := "redirectUrl cannot be empty"
  const EmptyNewRedirectMessage: string := "newRedirectUrl cannot be empty"
  const InvalidIdMessage: string := "Invalid ID provided"
  const LimitMessage: string := "Limit must be between 1 and 100"
  const OffsetMessage: string := "Offset cannot be negative"

  function ExistsMessage(code: string): string
  {
    "Short URL '" + code + "' already exists"
  }

  function CodeNotFoundMessage(code: string): string
  {
    "URL with shortUrl '" + code + "' not found"
  }

  function IdNotFoundMessage(id: nat): string
  {
    "URL with ID " + NatToString(id) + " not found"
  }

  // ---------------------------------------------------------------------------
  // The table and what each statement does to it

  /** `WHERE "shortUrl" = code` matches some row. */
  predicate HasRow(urls: seq<Url>, code: string)
  {
    exists i :: 0 <= i < |urls| && urls[i].shortUrl == code
  }

  /** `WHERE id = id` matches some row. */
  predicate HasId(urls: seq<Url>, id: int)
  {
    exists i :: 0 <= i < |urls| && urls[i].id == id
  }

  /** No two rows share a short code. */
  predicate CodesUnique(urls: seq<Url>)
  {
    forall i, j :: 0 <= i < j < |urls| ==> urls[i].shortUrl != urls[j].shortUrl
  }

  /**
   * What the `id` sequence and the click counter guarantee: ids are positive,
   * distinct and below the sequence's next value, and no counter is negative.
   */
  predicate WellFormed(urls: seq<Url>, nextId: int)
  {
    && nextId >= 1
    && IdsUnique(urls)
    && (forall i :: 0 <= i < |urls| ==> 1 <= urls[i].id < nextId && urls[i].totalClicked >= 0)
  }

  /** No two rows share an id. */
  predicate IdsUnique(urls: seq<Url>)
  {
    forall i, j :: 0 <= i < j < |urls| ==> urls[i].id != urls[j].id
  }

  /** The first row, in table order, that `WHERE "shortUrl" = code` matches. */
  function FirstWithCode(urls: seq<Url>, code: string): (r: Option<Url>)
    ensures r.Some? <==> HasRow(urls, code)
    ensures r.Some? ==> r.value.shortUrl == code
    ensures r.Some? ==> exists i :: 0 <= i < |urls| && urls[i] == r.value
                                    && forall j :: 0 <= j < i ==> urls[j].shortUrl != code
  {
    if |urls| == 0 then None
    else if urls[0].shortUrl == code then Some(urls[0])
    else
      var r := FirstWithCode(urls[1..], code);
      HasRowCons(urls, code);
      assert r.Some? ==> exists i :: 0 <= i < |urls| && urls[i] == r.value
                                    && forall j :: 0 <= j < i ==> urls[j].shortUrl != code by {
        if r.Some? {
          var i :| 0 <= i < |urls[1..]| && urls[1..][i] == r.value
                   && forall j :: 0 <= j < i ==> urls[1..][j].shortUrl != code;
          assert urls[i + 1] == r.value;
          forall j | 0 <= j < i + 1 ensures urls[j].shortUrl != code {
            if j > 0 {
              assert urls[j] == urls[1..][j - 1];
            }
          }
        }
      }
      r
  }

  /** The first row, in table order, that `WHERE id = id` matches. */
  function FirstWithId(urls: seq<Url>, id: int): (r: Option<Url>)
    ensures r.Some? <==> HasId(urls, id)
    ensures r.Some? ==> r.value.id == id && r.value in urls
  {
    if |urls| == 0 then None
    else if urls[0].id == id then Some(urls[0])
    else
      HasIdCons(urls, id);
      FirstWithId(urls[1..], id)
  }

  /** `DELETE FROM urls WHERE "shortUrl" = code`: every matching row goes, the others stay in order. */
  function WithoutCode(urls: seq<Url>, code: string): (r: seq<Url>)
    ensures forall u :: u in r <==> u in urls && u.shortUrl != code
    ensures |r| <= |urls|
    ensures |r| == |urls| <==> !HasRow(urls, code)
    ensures IdsUnique(urls) ==> IdsUnique(r)
  {
    if |urls| == 0 then []
    else
      var rest := WithoutCode(urls[1..], code);
      assert forall u :: u in urls <==> u == urls[0] || u in urls[1..];
      HasRowCons(urls, code);
      KeepHead(urls, rest);
      if urls[0].shortUrl == code then rest else [urls[0]] + rest
  }

  /** `DELETE FROM urls WHERE id = id`. */
  function WithoutId(urls: seq<Url>, id: int): (r: seq<Url>)
    ensures forall u :: u in r <==> u in urls && u.id != id
    ensures |r| <= |urls|
    ensures |r| == |urls| <==> !HasId(urls, id)
    ensures IdsUnique(urls) ==> IdsUnique(r)
  {
    if |urls| == 0 then []
    else
      var rest := WithoutId(urls[1..], id);
      assert forall u :: u in urls <==> u == urls[0] || u in urls[1..];
      HasIdCons(urls, id);
      KeepHead(urls, rest);
      if urls[0].id == id then rest else [urls[0]] + rest
  }


  /** A row with the code is the head row or one in the tail. */
  lemma HasRowCons(urls: seq<Url>, code: string)
    requires |urls| > 0
    ensures HasRow(urls, code) <==> urls[0].shortUrl == code || HasRow(urls[1..], code)
  {
    if HasRow(urls, code) && urls[0].shortUrl != code {
      var i :| 0 <= i < |urls| && urls[i].shortUrl == code;
      assert urls[1..][i - 1] == urls[i];
    }
    if HasRow(urls[1..], code) {
      var i :| 0 <= i < |urls[1..]| && urls[1..][i].shortUrl == code;
      assert urls[i + 1] == urls[1..][i];
    }
  }

  /** A row with the id is the head row or one in the tail. */
  lemma HasIdCons(urls: seq<Url>, id: int)
    requires |urls| > 0
    ensures HasId(urls, id) <==> urls[0].id == id || HasId(urls[1..], id)
  {
    if HasId(urls, id) && urls[0].id != id {
      var i :| 0 <= i < |urls| && urls[i].id == id;
      assert urls[1..][i - 1] == urls[i];
    }
    if HasId(urls[1..], id) {
      var i :| 0 <= i < |urls[1..]| && urls[1..][i].id == id;
      assert urls[i + 1] == urls[1..][i];
    }
  }

  /**
   * Rows kept from the tail of a table with distinct ids never share the head
   * row's id, so the kept rows stay distinct with or without the head row.
   */
  lemma KeepHead(urls: seq<Url>, rest: seq<Url>)
    requires |urls| > 0
    requires forall u :: u in rest ==> u in urls[1..]
    requires IdsUnique(urls[1..]) ==> IdsUnique(rest)
    ensures IdsUnique(urls) ==> IdsUnique(rest) && IdsUnique([urls[0]] + rest)
  {
    if IdsUnique(urls) {
      assert IdsUnique(urls[1..]) by {
        forall i, j | 0 <= i < j < |urls[1..]| ensures urls[1..][i].id != urls[1..][j].id {
          assert urls[1..][i] == urls[i + 1] && urls[1..][j] == urls[j + 1];
        }
      }
      forall j | 0 <= j < |rest| ensures rest[j].id != urls[0].id {
        assert rest[j] in urls[1..];
        var k :| 0 <= k < |urls[1..]| && urls[1..][k] == rest[j];
        assert urls[k + 1] == rest[j];
      }
      var t := [urls[0]] + rest;
      forall i, j | 0 <= i < j < |t| ensures t[i].id != t[j].id {
        if i > 0 {
          assert t[i] == rest[i - 1];
        }
        assert t[j] == rest[j - 1];
      }
    }
  }

  /** One click on a row: the counter goes up by exactly one and the click time is recorded. */
  function Click(u: Url, now: Timestamp): Url
  {
    u.(totalClicked := u.totalClicked + 1, lastClicked := Some(now))
  }

  /** `UPDATE urls SET "totalClicked" = "totalClicked" + 1, "lastClicked" = now WHERE "shortUrl" = code`. */
  function Clicked(urls: seq<Url>, code: string, now: Timestamp): (r: seq<Url>)
    ensures |r| == |urls|
    ensures forall i :: 0 <= i < |urls| ==> r[i] == if urls[i].shortUrl == code then Click(urls[i], now) else urls[i]
  {
    if |urls| == 0 then []
    else [if urls[0].shortUrl == code then Click(urls[0], now) else urls[0]] + Clicked(urls[1..], code, now)
  }

  /** `UPDATE urls SET "redirectUrl" = target WHERE "shortUrl" = code`. */
  function Redirected(urls: seq<Url>, code: string, target: string): (r: seq<Url>)
    ensures |r| == |urls|
    ensures forall i :: 0 <= i < |urls| ==> r[i] == if urls[i].shortUrl == code then urls[i].(redirectUrl := target) else urls[i]
  {
    if |urls| == 0 then []
    else [if urls[0].shortUrl == code then urls[0].(redirectUrl := target) else urls[0]] + Redirected(urls[1..], code, target)
  }

  // ---------------------------------------------------------------------------
  // ORDER BY ... DESC and LIMIT / OFFSET

  /** The column an `ORDER BY ... DESC` sorts on. */
  datatype Column = CreatedAt | TotalClicked | LastClicked

  /** A row's value in that column; a `null` last click, never sorted here, reads as 0. */
  function Key(u: Url, c: Column): int
  {
    match c
    case CreatedAt => u.createdAt
    case TotalClicked => u.totalClicked
    case LastClicked => if u.lastClicked.Some? then u.lastClicked.value else 0
  }

  predicate SortedDesc(rows: seq<Url>, c: Column)
  {
    forall i, j :: 0 <= i < j < |rows| ==> Key(rows[i], c) >= Key(rows[j], c)
  }

  /** Places one row before the first row whose key is not larger than its own. */
  function InsertDesc(u: Url, rows: seq<Url>, c: Column): (r: seq<Url>)
    ensures multiset(r) == multiset(rows) + multiset{u}
    ensures |r| == |rows| + 1
  {
    if |rows| == 0 || Key(u, c) >= Key(rows[0], c) then
      [u] + rows
    else
      assert rows == [rows[0]] + rows[1..];
      [rows[0]] + InsertDesc(u, rows[1..], c)
  }

  /** Insertion into a descending list keeps it descending. */
  lemma {:induction false} InsertDescSorted(u: Url, rows: seq<Url>, c: Column)
    requires SortedDesc(rows, c)
    ensures SortedDesc(InsertDesc(u, rows, c), c)
  {
    if |rows| > 0 && Key(u, c) < Key(rows[0], c) {
      var rest := InsertDesc(u, rows[1..], c);
      InsertDescSorted(u, rows[1..], c);
      HeadAboveInserted(u, rows, rest, c);
      ConsSorted(rows[0], rest, c);
      assert InsertDesc(u, rows, c) == [rows[0]] + rest;
    }
  }

  /** The head of a descending list, when above the inserted row, is above everything the tail becomes. */
  lemma HeadAboveInserted(u: Url, rows: seq<Url>, rest: seq<Url>, c: Column)
    requires |rows| > 0 && SortedDesc(rows, c) && Key(u, c) < Key(rows[0], c)
    requires multiset(rest) == multiset(rows[1..]) + multiset{u}
    ensures forall j :: 0 <= j < |rest| ==> Key(rows[0], c) >= Key(rest[j], c)
  {
    forall j | 0 <= j < |rest| ensures Key(rows[0], c) >= Key(rest[j], c) {
      assert rest[j] in multiset(rest);
      if rest[j] != u {
        assert rest[j] in multiset(rows[1..]);
        var k :| 0 <= k < |rows[1..]| && rows[1..][k] == rest[j];
        assert rows[k + 1] == rest[j];
      }
    }
  }

  /** A row at least as large as every row of a descending list heads a descending list. */
  lemma ConsSorted(x: Url, rest: seq<Url>, c: Column)
    requires SortedDesc(rest, c)
    requires forall j :: 0 <= j < |rest| ==> Key(x, c) >= Key(rest[j], c)
    ensures SortedDesc([x] + rest, c)
  {
    var t := [x] + rest;
    forall i, j | 0 <= i < j < |t| ensures Key(t[i], c) >= Key(t[j], c) {
      assert t[j] == rest[j - 1];
      if i > 0 {
        assert t[i] == rest[i - 1];
      }
    }
  }

  /** The rows of the table in `ORDER BY c DESC` order: the same rows, sorted. */
  function SortDesc(rows: seq<Url>, c: Column): (r: seq<Url>)
    ensures SortedDesc(r, c)
    ensures multiset(r) == multiset(rows)
    ensures |r| == |rows|
  {
    if |rows| == 0 then []
    else
      assert rows == [rows[0]] + rows[1..];
      InsertDescSorted(rows[0], SortDesc(rows[1..], c), c);
      InsertDesc(rows[0], SortDesc(rows[1..], c), c)
  }

  /** `LIMIT limit OFFSET offset`: at most `limit` rows, starting after the first `offset`. */
  function Window(rows: seq<Url>, limit: nat, offset: nat): (r: seq<Url>)
    ensures |r| <= limit
    ensures |r| == Max(0, Min(limit, |rows| - offset))
    ensures forall i :: 0 <= i < |r| ==> r[i] == rows[offset + i]
    ensures multiset(r) <= multiset(rows)
  {
    if offset >= |rows| then []
    else
      var end := Min(offset + limit, |rows|);
      assert rows == rows[..offset] + rows[offset..end] + rows[end..];
      rows[offset..end]
  }

  /** A window of a descending list is descending and holds only rows of the list. */
  lemma WindowOfSorted(rows: seq<Url>, limit: nat, offset: nat, c: Column)
    requires SortedDesc(rows, c)
    ensures SortedDesc(Window(rows, limit, offset), c)
    ensures forall u :: u in Window(rows, limit, offset) ==> u in rows
  {
    var r := Window(rows, limit, offset);
    forall i, j | 0 <= i < j < |r| ensures Key(r[i], c) >= Key(r[j], c) {
      assert r[i] == rows[offset + i] && r[j] == rows[offset + j];
    }
    forall u | u in r ensures u in rows {
      var i :| 0 <= i < |r| && r[i] == u;
      assert rows[offset + i] == u;
    }
  }

  /** `WHERE "lastClicked" IS NOT NULL`, in table order. */
  function ClickedRows(urls: seq<Url>): (r: seq<Url>)
    ensures forall u :: u in r <==> u in urls && u.lastClicked.Some?
    ensures multiset(r) <= multiset(urls)
  {
    if |urls| == 0 then []
    else
      assert urls == [urls[0]] + urls[1..];
      assert forall u :: u in urls <==> u == urls[0] || u in urls[1..];
      (if urls[0].lastClicked.Some? then [urls[0]] else []) + ClickedRows(urls[1..])
  }

  /** Shared by the three listing queries: `limit <= 0 || limit > 100`. */
  function CheckLimit(limit: int): (err: Option<DbError>)
    ensures err.None? <==> 1 <= limit <= 100
    ensures err.Some? ==> err.value == ValidationError(LimitMessage)
  {
    if limit <= 0 || limit > 100 then Some(ValidationError(LimitMessage)) else None
  }

  // ---------------------------------------------------------------------------
  // The Database object

  class Database {
    /** The rows of `urls`, in insertion order. */
    var urls: seq<Url>
    /** The next value of the `id` column's sequence. */
    var nextId: int

    ghost predicate Valid()
      reads this
    {
      WellFormed(urls, nextId)
    }

    /**
     * `new Database()` attaches to a `urls` table that already exists; the model
     * starts from the table as first deployed: no rows, and the `id` sequence at 1.
     */
    constructor ()
      ensures Valid() && urls == [] && nextId == 1
    {
      urls := [];
      nextId := 1;
    }

    /** `getUrl`: a blank code is a ValidationError; otherwise the first matching row, or `null`. */
    function GetUrl(shortUrl: string): (r: Result<Option<Url>, DbError>)
      reads this
      ensures r.Failure? <==> IsBlank(shortUrl)
      ensures r.Failure? ==> r.error == ValidationError(EmptyCodeMessage)
      ensures r.Success? ==> (r.value.Some? <==> HasRow(urls, shortUrl))
      ensures r.Success? && r.value.Some? ==> r.value.value in urls && r.value.value.shortUrl == shortUrl
    {
      if IsBlank(shortUrl) then Failure(ValidationError(EmptyCodeMessage))
      else Success(FirstWithCode(urls, shortUrl))
    }

    /** `getUrlById`: `!id || id <= 0` is a ValidationError; otherwise the matching row, or `null`. */
    function GetUrlById(id: int): (r: Result<Option<Url>, DbError>)
      reads this
      ensures r.Failure? <==> id <= 0
      ensures r.Failure? ==> r.error == ValidationError(InvalidIdMessage)
      ensures r.Success? ==> (r.value.Some? <==> HasId(urls, id))
      ensures r.Success? && r.value.Some? ==> r.value.value in urls && r.value.value.id == id
    {
      if id <= 0 then Failure(ValidationError(InvalidIdMessage))
      else Success(FirstWithId(urls, id))
    }

    /**
     * `hasCode`: false for a blank code without a query, and false when the
     * query fails (`probeFails`), since the error is swallowed.
     */
    function HasCode(shortUrl: string, probeFails: bool): (r: bool)
      reads this
      ensures r <==> !IsBlank(shortUrl) && !probeFails && HasRow(urls, shortUrl)
    {
      if IsBlank(shortUrl) then false
      else if probeFails then false
      else FirstWithCode(urls, shortUrl).Some?
    }

    /** `getUrlCount`: `SELECT COUNT(*)`. */
    function GetUrlCount(): (n: nat)
      reads this
      ensures n == |urls|
    {
      |urls|
    }

    /** `getUrlsPaginated`: rows newest first, `limit` of them after `offset`. */
    function GetUrlsPaginated(limit: int, offset: int): (r: Result<seq<Url>, DbError>)
      reads this
      ensures r.Failure? <==> limit < 1 || limit > 100 || offset < 0
      ensures !(1 <= limit <= 100) ==> r == Failure(ValidationError(LimitMessage))
      ensures 1 <= limit <= 100 && offset < 0 ==> r == Failure(ValidationError(OffsetMessage))
      ensures r.Success? ==> |r.value| <= limit && SortedDesc(r.value, CreatedAt)
      ensures r.Success? ==> forall u :: u in r.value ==> u in urls
      ensures r.Success? ==> |r.value| == Max(0, Min(limit, |urls| - offset))
      ensures r.Success? ==> multiset(r.value) <= multiset(urls)
      ensures r.Success? ==> r.value == Window(SortDesc(urls, CreatedAt), limit, offset)
    {
      if CheckLimit(limit).Some? then Failure(CheckLimit(limit).value)
      else if offset < 0 then Failure(ValidationError(OffsetMessage))
      else
        var sorted := SortDesc(urls, CreatedAt);
        WindowOfSorted(sorted, limit, offset, CreatedAt);
        assert forall u :: u in sorted ==> u in multiset(sorted);
        Success(Window(sorted, limit, offset))
    }

    /** `getMostClickedUrls`: the `limit` rows with the most clicks, most first. */
    function GetMostClickedUrls(limit: int): (r: Result<seq<Url>, DbError>)
      reads this
      ensures r.Failure? <==> limit < 1 || limit > 100
      ensures r.Failure? ==> r.error == ValidationError(LimitMessage)
      ensures r.Success? ==> |r.value| == Min(limit, |urls|) && SortedDesc(r.value, TotalClicked)
      ensures r.Success? ==> forall u :: u in r.value ==> u in urls
      ensures r.Success? ==> multiset(r.value) <= multiset(urls)
    {
      if CheckLimit(limit).Some? then Failure(CheckLimit(limit).value)
      else
        var sorted := SortDesc(urls, TotalClicked);
        WindowOfSorted(sorted, limit, 0, TotalClicked);
        assert forall u :: u in sorted ==> u in multiset(sorted);
        Success(Window(sorted, limit, 0))
    }

    /** `getRecentlyClickedUrls`: only rows clicked at least once, most recent click first. */
    function GetRecentlyClickedUrls(limit: int): (r: Result<seq<Url>, DbError>)
      reads this
      ensures r.Failure? <==> limit < 1 || limit > 100
      ensures r.Failure? ==> r.error == ValidationError(LimitMessage)
      ensures r.Success? ==> |r.value| <= limit && SortedDesc(r.value, LastClicked)
      ensures r.Success? ==> forall u :: u in r.value ==> u in urls && u.lastClicked.Some?
      ensures r.Success? ==> |r.value| == Min(limit, |ClickedRows(urls)|)
      ensures r.Success? ==> multiset(r.value) <= multiset(ClickedRows(urls)) <= multiset(urls)
    {
      if CheckLimit(limit).Some? then Failure(CheckLimit(limit).value)
      else
        var sorted := SortDesc(ClickedRows(urls), LastClicked);
        WindowOfSorted(sorted, limit, 0, LastClicked);
        assert forall u :: u in sorted ==> u in multiset(sorted);
        Success(Window(sorted, limit, 0))
    }

    /**
     * `addUrl`: both strings must be non-blank and the code must not exist
     * (as `hasCode` reports it); then one row is inserted with no clicks.
     */
    method AddUrl(redirectUrl: string, shortUrl: Option<string>, now: Timestamp, probeFails: bool)
      returns (r: Result<Url, DbError>)
      requires Valid()
      modifies this
      ensures Valid()
      ensures IsBlankOpt(shortUrl) ==> r == Failure(ValidationError(EmptyCodeMessage))
      ensures !IsBlankOpt(shortUrl) && IsBlank(redirectUrl) ==> r == Failure(ValidationError(EmptyRedirectMessage))
      ensures !IsBlankOpt(shortUrl) && !IsBlank(redirectUrl) && old(HasCode(shortUrl.value, probeFails)) ==>
                r == Failure(ValidationError(ExistsMessage(shortUrl.value)))
      ensures r.Success? <==> !IsBlankOpt(shortUrl) && !IsBlank(redirectUrl) && !old(HasCode(shortUrl.value, probeFails))
      ensures r.Failure? ==> urls == old(urls) && nextId == old(nextId)
      ensures r.Success? ==> r.value == Url(old(nextId), shortUrl.value, redirectUrl, 0, None, now)
      ensures r.Success? ==> urls == old(urls) + [r.value] && nextId == old(nextId) + 1
      ensures r.Success? && !probeFails && old(CodesUnique(urls)) ==> CodesUnique(urls)
    {
      if IsBlankOpt(shortUrl) {
        return Failure(ValidationError(EmptyCodeMessage));
      }
      if IsBlank(redirectUrl) {
        return Failure(ValidationError(EmptyRedirectMessage));
      }
      var code := shortUrl.value;
      if HasCode(code, probeFails) {
        return Failure(ValidationError(ExistsMessage(code)));
      }
      var row := Url(nextId, code, redirectUrl, 0, None, now);
      InsertKeepsCodesUnique(urls, row);
      urls := urls + [row];
      nextId := nextId + 1;
      return Success(row);
    }

    /** `deleteUrl`: removes every row with the code; NotFoundError when there is none. */
    method DeleteUrl(shortUrl: string) returns (r: Result<bool, DbError>)
      requires Valid()
      modifies this
      ensures Valid()
      ensures IsBlank(shortUrl) ==> r == Failure(ValidationError(EmptyCodeMessage))
      ensures !IsBlank(shortUrl) && !old(HasRow(urls, shortUrl)) ==> r == Failure(NotFoundError(CodeNotFoundMessage(shortUrl)))
      ensures r.Success? <==> !IsBlank(shortUrl) && old(HasRow(urls, shortUrl))
      ensures r.Success? ==> r.value && urls == WithoutCode(old(urls), shortUrl)
      ensures r.Failure? ==> urls == old(urls)
      ensures nextId == old(nextId)
    {
      if IsBlank(shortUrl) {
        return Failure(ValidationError(EmptyCodeMessage));
      }
      if !HasRow(urls, shortUrl) {
        return Failure(NotFoundError(CodeNotFoundMessage(shortUrl)));
      }
      DeleteKeepsWellFormed(urls, shortUrl, nextId);
      urls := WithoutCode(urls, shortUrl);
      return Success(true);
    }

    /** `deleteUrlById`: `!id || id <= 0` is a ValidationError; NotFoundError when no row has the id. */
    method DeleteUrlById(id: int) returns (r: Result<bool, DbError>)
      requires Valid()
      modifies this
      ensures Valid()
      ensures id <= 0 ==> r == Failure(ValidationError(InvalidIdMessage))
      ensures id > 0 && !old(HasId(urls, id)) ==> r == Failure(NotFoundError(IdNotFoundMessage(id)))
      ensures r.Success? <==> id > 0 && old(HasId(urls, id))
      ensures r.Success? ==> r.value && urls == WithoutId(old(urls), id)
      ensures r.Failure? ==> urls == old(urls)
      ensures nextId == old(nextId)
    {
      if id <= 0 {
        return Failure(ValidationError(InvalidIdMessage));
      }
      if !HasId(urls, id) {
        return Failure(NotFoundError(IdNotFoundMessage(id)));
      }
      DeleteByIdKeepsWellFormed(urls, id, nextId);
      urls := WithoutId(urls, id);
      return Success(true);
    }

    /** `updateClickStats`: one more click, at `now`, on every row with the code. */
    method UpdateClickStats(shortUrl: string, now: Timestamp) returns (err: Option<DbError>)
      requires Valid()
      modifies this
      ensures Valid()
      ensures IsBlank(shortUrl) ==> err == Some(ValidationError(EmptyCodeMessage))
      ensures !IsBlank(shortUrl) && !old(HasRow(urls, shortUrl)) ==> err == Some(NotFoundError(CodeNotFoundMessage(shortUrl)))
      ensures err.None? <==> !IsBlank(shortUrl) && old(HasRow(urls, shortUrl))
      ensures err.None? ==> urls == Clicked(old(urls), shortUrl, now)
      ensures err.Some? ==> urls == old(urls)
      ensures nextId == old(nextId)
    {
      if IsBlank(shortUrl) {
        return Some(ValidationError(EmptyCodeMessage));
      }
      if !HasRow(urls, shortUrl) {
        return Some(NotFoundError(CodeNotFoundMessage(shortUrl)));
      }
      ClickedKeepsWellFormed(urls, shortUrl, now, nextId);
      urls := Clicked(urls, shortUrl, now);
      return None;
    }

    /** `updateRedirectUrl`: both strings non-blank; the row returned is the first one updated. */
    method UpdateRedirectUrl(shortUrl: string, newRedirectUrl: string) returns (r: Result<Url, DbError>)
      requires Valid()
      modifies this
      ensures Valid()
      ensures IsBlank(shortUrl) ==> r == Failure(ValidationError(EmptyCodeMessage))
      ensures !IsBlank(shortUrl) && IsBlank(newRedirectUrl) ==> r == Failure(ValidationError(EmptyNewRedirectMessage))
      ensures !IsBlank(shortUrl) && !IsBlank(newRedirectUrl) && !old(HasRow(urls, shortUrl)) ==>
                r == Failure(NotFoundError(CodeNotFoundMessage(shortUrl)))
      ensures r.Success? <==> !IsBlank(shortUrl) && !IsBlank(newRedirectUrl) && old(HasRow(urls, shortUrl))
      ensures r.Success? ==> urls == Redirected(old(urls), shortUrl, newRedirectUrl)
      ensures r.Success? ==> r.value == old(FirstWithCode(urls, shortUrl)).value.(redirectUrl := newRedirectUrl)
      ensures r.Success? ==> FirstWithCode(urls, shortUrl) == Some(r.value)
      ensures r.Failure? ==> urls == old(urls)
      ensures nextId == old(nextId)
    {
      if IsBlank(shortUrl) {
        return Failure(ValidationError(EmptyCodeMessage));
      }
      if IsBlank(newRedirectUrl) {
        return Failure(ValidationError(EmptyNewRedirectMessage));
      }
      if !HasRow(urls, shortUrl) {
        return Failure(NotFoundError(CodeNotFoundMessage(shortUrl)));
      }
      var first := FirstWithCode(urls, shortUrl).value;
      RedirectedKeepsWellFormed(urls, shortUrl, newRedirectUrl, nextId);
      RedirectedFirst(urls, shortUrl, newRedirectUrl);
      urls := Redirected(urls, shortUrl, newRedirectUrl);
      return Success(first.(redirectUrl := newRedirectUrl));
    }
  }

  // ---------------------------------------------------------------------------
  // Properties of the statements

  /** Inserting a row whose code is absent keeps codes unique. */
  lemma InsertKeepsCodesUnique(urls: seq<Url>, row: Url)
    ensures CodesUnique(urls) && !HasRow(urls, row.shortUrl) ==> CodesUnique(urls + [row])
  {
  }

  /** Deleting rows keeps the table well formed. */
  lemma DeleteKeepsWellFormed(urls: seq<Url>, code: string, nextId: int)
    requires WellFormed(urls, nextId)
    ensures WellFormed(WithoutCode(urls, code), nextId)
  {
    SubsequenceKeepsRange(urls, WithoutCode(urls, code), nextId);
  }

  lemma DeleteByIdKeepsWellFormed(urls: seq<Url>, id: int, nextId: int)
    requires WellFormed(urls, nextId)
    ensures WellFormed(WithoutId(urls, id), nextId)
  {
    SubsequenceKeepsRange(urls, WithoutId(urls, id), nextId);
  }

  lemma SubsequenceKeepsRange(urls: seq<Url>, kept: seq<Url>, nextId: int)
    requires forall i :: 0 <= i < |urls| ==> 1 <= urls[i].id < nextId && urls[i].totalClicked >= 0
    requires forall u :: u in kept ==> u in urls
    ensures forall i :: 0 <= i < |kept| ==> 1 <= kept[i].id < nextId && kept[i].totalClicked >= 0
  {
    forall i | 0 <= i < |kept| ensures 1 <= kept[i].id < nextId && kept[i].totalClicked >= 0 {
      assert kept[i] in urls;
    }
  }

  /** A click changes no id and only raises a counter, so the table stays well formed. */
  lemma {:induction false} ClickedKeepsWellFormed(urls: seq<Url>, code: string, now: Timestamp, nextId: int)
    requires WellFormed(urls, nextId)
    ensures WellFormed(Clicked(urls, code, now), nextId)
  {
    var r := Clicked(urls, code, now);
    forall i, j | 0 <= i < j < |r| ensures r[i].id != r[j].id {
      assert r[i].id == urls[i].id && r[j].id == urls[j].id;
    }
    forall i | 0 <= i < |r| ensures 1 <= r[i].id < nextId && r[i].totalClicked >= 0 {
      assert r[i].id == urls[i].id && r[i].totalClicked >= urls[i].totalClicked;
    }
  }

  /** A redirect changes no id and no counter. */
  lemma {:induction false} RedirectedKeepsWellFormed(urls: seq<Url>, code: string, target: string, nextId: int)
    requires WellFormed(urls, nextId)
    ensures WellFormed(Redirected(urls, code, target), nextId)
  {
    var r := Redirected(urls, code, target);
    forall i, j | 0 <= i < j < |r| ensures r[i].id != r[j].id {
      assert r[i].id == urls[i].id && r[j].id == urls[j].id;
    }
    forall i | 0 <= i < |r| ensures 1 <= r[i].id < nextId && r[i].totalClicked >= 0 {
      assert r[i].id == urls[i].id && r[i].totalClicked >= urls[i].totalClicked;
    }
  }

  /** The row `RETURNING *` yields first after the update is the first matching row, redirected. */
  lemma {:induction false} RedirectedFirst(urls: seq<Url>, code: string, target: string)
    requires HasRow(urls, code)
    ensures FirstWithCode(Redirected(urls, code, target), code) == Some(FirstWithCode(urls, code).value.(redirectUrl := target))
  {
    var r := Redirected(urls, code, target);
    if urls[0].shortUrl != code {
      assert r == [urls[0]] + Redirected(urls[1..], code, target);
      assert r[1..] == Redirected(urls[1..], code, target);
      assert HasRow(urls[1..], code) by {
        var i :| 0 <= i < |urls| && urls[i].shortUrl == code;
        assert urls[1..][i - 1] == urls[i];
      }
      RedirectedFirst(urls[1..], code, target);
    }
  }

  /** `top` holds the highest-ranking rows of `rows`: no row outside it ranks above its last row. */
  predicate IsTop(top: seq<Url>, rows: seq<Url>, c: Column)
  {
    |top| > 0 ==> forall u :: u in rows ==> u in top || Key(u, c) <= Key(top[|top| - 1], c)
  }

  /** The first k rows of a descending list are its top k. */
  lemma PrefixIsTop(rows: seq<Url>, k: nat, c: Column)
    requires SortedDesc(rows, c) && k <= |rows|
    ensures IsTop(rows[..k], rows, c)
  {
    if k > 0 {
      forall u | u in rows ensures u in rows[..k] || Key(u, c) <= Key(rows[..k][k - 1], c) {
        var j :| 0 <= j < |rows| && rows[j] == u;
        if j < k {
          assert rows[..k][j] == u;
        }
      }
    }
  }

  /** A top list of a reordering of the rows is a top list of the rows themselves. */
  lemma TopOfPermutation(top: seq<Url>, sorted: seq<Url>, rows: seq<Url>, c: Column)
    requires IsTop(top, sorted, c) && multiset(sorted) == multiset(rows)
    ensures IsTop(top, rows, c)
  {
    forall u | u in rows ensures u in sorted {
      assert u in multiset(rows);
    }
  }

  /** `getMostClickedUrls` returns the rows with the most clicks: no row left out has more clicks than the last one returned. */
  lemma MostClickedAreTop(db: Database, limit: int)
    requires 1 <= limit <= 100
    ensures db.GetMostClickedUrls(limit).Success?
    ensures IsTop(db.GetMostClickedUrls(limit).value, db.urls, TotalClicked)
  {
    var sorted := SortDesc(db.urls, TotalClicked);
    var k := Min(limit, |sorted|);
    assert db.GetMostClickedUrls(limit).value == sorted[..k];
    PrefixIsTop(sorted, k, TotalClicked);
    TopOfPermutation(sorted[..k], sorted, db.urls, TotalClicked);
  }

  /**
   * `getRecentlyClickedUrls` returns the most recently clicked rows: no
   * clicked row left out was clicked later than the last one returned.
   */
  lemma RecentlyClickedAreTop(db: Database, limit: int)
    requires 1 <= limit <= 100
    ensures db.GetRecentlyClickedUrls(limit).Success?
    ensures IsTop(db.GetRecentlyClickedUrls(limit).value, ClickedRows(db.urls), LastClicked)
  {
    var clicked := ClickedRows(db.urls);
    var sorted := SortDesc(clicked, LastClicked);
    var k := Min(limit, |sorted|);
    assert db.GetRecentlyClickedUrls(limit).value == sorted[..k];
    PrefixIsTop(sorted, k, LastClicked);
    TopOfPermutation(sorted[..k], sorted, clicked, LastClicked);
  }

  /**
   * `page` is a contiguous band of `rows` in rank order: every row outside it
   * ranks at least as high as its first row or no higher than its last.
   */
  predicate IsBand(page: seq<Url>, rows: seq<Url>, c: Column)
  {
    |page| > 0 ==> forall u :: u in rows ==>
      u in page || Key(u, c) >= Key(page[0], c) || Key(u, c) <= Key(page[|page| - 1], c)
  }

  /** A window of a descending list is a band of it: the rows before rank higher, the rows after lower. */
  lemma WindowIsBand(rows: seq<Url>, limit: nat, offset: nat, c: Column)
    requires SortedDesc(rows, c)
    ensures IsBand(Window(rows, limit, offset), rows, c)
  {
    var w := Window(rows, limit, offset);
    if |w| > 0 {
      forall u | u in rows
        ensures u in w || Key(u, c) >= Key(w[0], c) || Key(u, c) <= Key(w[|w| - 1], c)
      {
        var j :| 0 <= j < |rows| && rows[j] == u;
        assert w[0] == rows[offset] && w[|w| - 1] == rows[offset + |w| - 1];
        if offset <= j < offset + |w| {
          assert w[j - offset] == u;
        }
      }
    }
  }

  /** A band of a reordering of the rows is a band of the rows themselves. */
  lemma BandOfPermutation(page: seq<Url>, sorted: seq<Url>, rows: seq<Url>, c: Column)
    requires IsBand(page, sorted, c) && multiset(sorted) == multiset(rows)
    ensures IsBand(page, rows, c)
  {
    forall u | u in rows ensures u in sorted {
      assert u in multiset(rows);
    }
  }

  /**
   * A page of `getUrlsPaginated` holds neighbours in creation order: no row
   * of the table left off the page was created between its first and last
   * rows.
   */
  lemma PageIsBand(db: Database, limit: int, offset: int)
    requires 1 <= limit <= 100 && offset >= 0
    ensures db.GetUrlsPaginated(limit, offset).Success?
    ensures IsBand(db.GetUrlsPaginated(limit, offset).value, db.urls, CreatedAt)
  {
    var sorted := SortDesc(db.urls, CreatedAt);
    WindowIsBand(sorted, limit, offset, CreatedAt);
    BandOfPermutation(Window(sorted, limit, offset), sorted, db.urls, CreatedAt);
  }
}
