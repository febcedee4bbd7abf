/**
 * The decisions of the `/api/links` route handlers in
 * src/app/api/links/route.ts: `POST` validates the request, picks a short
 * code (the custom one, or the first of at most ten generated ones that is
 * free) and inserts the link; `GET` lists one page of links with its
 * metadata.
 *
 * A response is the status code and the body's `error` / `details` text, or
 * the created link or listed page. The regular expression `URL_REGEX` is a
 * parameter, `isValidUrl`, of which only the `http://` / `https://` prefix
 * is known; the codes `gen.generate()` returns are the parameter
 * `candidate`, the k-th call's code being `candidate(k)`.
 */
module LinksRoute {
  import opened Common
  import opened LinkStore
  import opened Pagination

  const MaxAttempts: nat := 10
  const DefaultLimit: int := 10
  const DefaultOffset: int := 0

  const UrlRequiredMessage: string := "URL is required"
  const InvalidUrlMessage: string := "Invalid URL format. URL must start with http:// or https://"
  const InvalidCodeMessage: string := "Code must be alphanumeric and between 3-20 characters"
  const CodeInUseMessage: string := "Code already in use. Please choose a different code."
  const NoUniqueCodeMessage: string := "Failed to generate unique code. Please try again."
  const CreateFailedMessage: string := "Failed to create short URL"
  const FetchFailedMessage: string := "Failed to fetch URLs"

  datatype PostResponse =
    | Created(link: Url)
    | PostRejected(status: int, error: string, details: Option<string>)

  datatype GetResponse =
    | Listed(page: PageInfo)
    | GetFailed(status: int, error: string, details: string)

  function GetStatus(r: GetResponse): int
  {
    if r.Listed? then 200 else r.status
  }

  // ---------------------------------------------------------------------------
  // Request validation

  /** What every string `URL_REGEX` accepts begins with: `^https?:\/\/`. */
  predicate HasHttpScheme(url: string)
  {
    (|url| >= 7 && url[..7] == "http://") || (|url| >= 8 && url[..8] == "https://")
  }

  /** `/^[a-zA-Z0-9]{3,20}$/`. */
  predicate IsCustomCode(code: string)
  {
    3 <= |code| <= 20 && forall i :: 0 <= i < |code| ==> IsAsciiAlnum(code[i])
  }

  /** `if (data.code)`: a custom code is given when it is present and not `""`. */
  predicate HasCustomCode(code: Option<string>)
  {
    code.Some? && code.value != ""
  }

  /** A code the store reports as taken; the route's `hasCode` probes are assumed to succeed. */
  predicate Taken(urls: seq<Url>, code: string)
  {
    !IsBlank(code) && HasRow(urls, code)
  }

  /**
   * The attempt whose generated code the `do ... while` loop keeps: the first
   * k from `from` on, below MaxAttempts, whose candidate is not taken.
   */
  function FirstFree(urls: seq<Url>, candidate: nat -> string, from: nat): (k: Option<nat>)
    ensures k.Some? ==> from <= k.value < MaxAttempts && !Taken(urls, candidate(k.value))
    ensures k.Some? ==> forall j :: from <= j < k.value ==> Taken(urls, candidate(j))
    ensures k.None? ==> forall j :: from <= j < MaxAttempts ==> Taken(urls, candidate(j))
    decreases MaxAttempts - from
  {
    if from >= MaxAttempts then None
    else if !Taken(urls, candidate(from)) then Some(from)
    else FirstFree(urls, candidate, from + 1)
  }

  /**
   * Everything `POST` decides before it calls `addUrl`: the early response,
   * or the short code to insert. A code is chosen only for a non-blank URL
   * that passed `isValidUrl`, and never one the store already holds; every
   * early response is a 400, a 409 or a 500.
   */
  function PostDecision(urls: seq<Url>, url: Option<string>, code: Option<string>,
                        isValidUrl: string -> bool, candidate: nat -> string): (d: Result<string, PostResponse>)
    ensures d.Success? ==> !IsBlankOpt(url) && isValidUrl(url.value) && !Taken(urls, d.value)
    ensures d.Failure? ==> d.error.PostRejected? && d.error.status in {400, 409, 500}
  {
    if IsBlankOpt(url) then Failure(PostRejected(400, UrlRequiredMessage, None))
    else if !isValidUrl(url.value) then Failure(PostRejected(400, InvalidUrlMessage, None))
    else if HasCustomCode(code) then
      if !IsCustomCode(code.value) then Failure(PostRejected(400, InvalidCodeMessage, None))
      else if Taken(urls, code.value) then Failure(PostRejected(409, CodeInUseMessage, None))
      else Success(code.value)
    else
      match FirstFree(urls, candidate, 0)
      case None => Failure(PostRejected(500, NoUniqueCodeMessage, None))
      case Some(k) => Success(candidate(k))
  }

  /**
   * The `catch` block for errors of the store: a ValidationError is the
   * client's fault (400, its message as `error`); any other DatabaseError is
   * a 500. The ValidationError test comes first, as it must, because a
   * ValidationError is also a DatabaseError.
   */
  function StoreErrorResponse(e: DbError): (r: PostResponse)
    ensures r.PostRejected?
    ensures r.status == 400 <==> e.ValidationError?
    ensures r.status == 500 <==> !e.ValidationError?
    ensures e.ValidationError? ==> r.error == e.message && r.details.None?
    ensures !e.ValidationError? ==> r.error == CreateFailedMessage && r.details == Some(e.message)
  {
    if e.ValidationError? then PostRejected(400, e.message, None)
    else PostRejected(500, CreateFailedMessage, Some(e.message))
  }

  // ---------------------------------------------------------------------------
  // What POST decides

  /** A missing or blank `url` is a 400 and nothing else is looked at. */
  lemma BlankUrlRejected(urls: seq<Url>, url: Option<string>, code: Option<string>,
                         isValidUrl: string -> bool, candidate: nat -> string)
    requires IsBlankOpt(url)
    ensures PostDecision(urls, url, code, isValidUrl, candidate) == Failure(PostRejected(400, UrlRequiredMessage, None))
  {
  }

  /** Only a URL that `isValidUrl` accepts gets past validation, so it begins with `http://` or `https://`. */
  lemma AcceptedUrlHasScheme(urls: seq<Url>, url: Option<string>, code: Option<string>,
                             isValidUrl: string -> bool, candidate: nat -> string)
    requires forall u :: isValidUrl(u) ==> HasHttpScheme(u)
    ensures PostDecision(urls, url, code, isValidUrl, candidate).Success? ==> url.Some? && HasHttpScheme(url.value)
    ensures !IsBlankOpt(url) && !isValidUrl(url.value) ==>
              PostDecision(urls, url, code, isValidUrl, candidate) == Failure(PostRejected(400, InvalidUrlMessage, None))
  {
  }

  /**
   * A custom code is used as given when it matches `[a-zA-Z0-9]{3,20}` and is
   * free, answered 400 when it does not match and 409 when it is taken.
   */
  lemma CustomCodeDecision(urls: seq<Url>, url: Option<string>, code: string,
                           isValidUrl: string -> bool, candidate: nat -> string)
    requires !IsBlankOpt(url) && isValidUrl(url.value) && code != ""
    ensures var d := PostDecision(urls, url, Some(code), isValidUrl, candidate);
      && (!IsCustomCode(code) ==> d == Failure(PostRejected(400, InvalidCodeMessage, None)))
      && (IsCustomCode(code) && Taken(urls, code) ==> d == Failure(PostRejected(409, CodeInUseMessage, None)))
      && (d.Success? <==> IsCustomCode(code) && !Taken(urls, code))
      && (d.Success? ==> d.value == code)
  {
  }

  /** `code: ""` is falsy: the request is decided exactly as one without a code. */
  lemma EmptyCodeIsAbsent(urls: seq<Url>, url: Option<string>, isValidUrl: string -> bool, candidate: nat -> string)
    ensures PostDecision(urls, url, Some(""), isValidUrl, candidate) == PostDecision(urls, url, None, isValidUrl, candidate)
  {
  }

  /**
   * Without a custom code the first free candidate among the first ten is
   * used, every earlier one being taken; when all ten are taken the answer is
   * a 500.
   */
  lemma GeneratedCodeDecision(urls: seq<Url>, url: Option<string>, isValidUrl: string -> bool, candidate: nat -> string)
    requires !IsBlankOpt(url) && isValidUrl(url.value)
    ensures var d := PostDecision(urls, url, None, isValidUrl, candidate);
      && (d.Success? ==> exists k :: 0 <= k < MaxAttempts && d.value == candidate(k) && !Taken(urls, candidate(k))
                                     && forall j :: 0 <= j < k ==> Taken(urls, candidate(j)))
      && ((forall j :: 0 <= j < MaxAttempts ==> Taken(urls, candidate(j))) ==>
            d == Failure(PostRejected(500, NoUniqueCodeMessage, None)))
  {
    var d := PostDecision(urls, url, None, isValidUrl, candidate);
    var f := FirstFree(urls, candidate, 0);
    if f.Some? {
      assert d.value == candidate(f.value);
    }
  }

  // ---------------------------------------------------------------------------
  // The handlers

  /**
   * `POST /api/links`. The allocation loop is the source's `do ... while`:
   * generate, probe, stop at the first free code, and give up with a 500
   * once ten codes were taken. Then `addUrl` inserts the link.
   */
  method Post(db: Database, url: Option<string>, code: Option<string>,
              isValidUrl: string -> bool, candidate: nat -> string, now: Timestamp)
    returns (resp: PostResponse)
    requires db.Valid()
    modifies db
    ensures db.Valid()
    ensures var d := PostDecision(old(db.urls), url, code, isValidUrl, candidate);
      && (d.Failure? ==> resp == d.error && db.urls == old(db.urls))
      && (d.Success? && IsBlank(d.value) ==>
            resp == StoreErrorResponse(ValidationError(EmptyCodeMessage)) && db.urls == old(db.urls))
      && (d.Success? && !IsBlank(d.value) ==>
            resp == Created(Url(old(db.nextId), d.value, url.value, 0, None, now))
            && db.urls == old(db.urls) + [resp.link])
    ensures resp.Created? ==> resp.link.redirectUrl == url.value && !old(Taken(db.urls, resp.link.shortUrl))
    ensures resp.Created? ==> db.nextId == old(db.nextId) + 1
    ensures !resp.Created? ==> db.nextId == old(db.nextId)
    ensures old(CodesUnique(db.urls)) ==> CodesUnique(db.urls)
  {
    if IsBlankOpt(url) {
      return PostRejected(400, UrlRequiredMessage, None);
    }
    if !isValidUrl(url.value) {
      return PostRejected(400, InvalidUrlMessage, None);
    }
    var shortCode: string;
    if HasCustomCode(code) {
      if !IsCustomCode(code.value) {
        return PostRejected(400, InvalidCodeMessage, None);
      }
      var taken := db.HasCode(code.value, false);
      if taken {
        return PostRejected(409, CodeInUseMessage, None);
      }
      shortCode := code.value;
    } else {
      var attempts := 0;
      shortCode := candidate(attempts);
      var taken := db.HasCode(shortCode, false);
      while taken
        invariant 0 <= attempts < MaxAttempts
        invariant shortCode == candidate(attempts)
        invariant taken == Taken(db.urls, shortCode)
        invariant FirstFree(db.urls, candidate, 0) == FirstFree(db.urls, candidate, attempts)
        decreases MaxAttempts - attempts
      {
        attempts := attempts + 1;
        if attempts >= MaxAttempts {
          return PostRejected(500, NoUniqueCodeMessage, None);
        }
        shortCode := candidate(attempts);
        taken := db.HasCode(shortCode, false);
      }
    }
    var created := db.AddUrl(url.value, Some(shortCode), now, false);
    if created.Failure? {
      return StoreErrorResponse(created.error);
    }
    return Created(created.value);
  }

  /** `parseInt(param) || fallback`: a missing or unparsable parameter (NaN) and 0 are both falsy. */
  function OrDefault(parsed: Option<int>, fallback: int): (n: int)
    ensures parsed.None? || parsed.value == 0 ==> n == fallback
    ensures parsed.Some? && parsed.value != 0 ==> n == parsed.value
  {
    if parsed.None? || parsed.value == 0 then fallback else parsed.value
  }

  /**
   * `GET /api/links`. `limitParam` and `offsetParam` are what `parseInt`
   * makes of the query parameters (None for NaN). A limit or offset the store
   * rejects surfaces as a 500, since a ValidationError is a DatabaseError.
   */
  function Get(db: Database, limitParam: Option<int>, offsetParam: Option<int>): (r: GetResponse)
    reads db
    ensures r.GetFailed? ==> r.status == 500 && r.error == FetchFailedMessage
    ensures r.Listed? ==> 1 <= r.page.limit <= 100 && r.page.offset >= 0 && r.page.total == |db.urls|
  {
    var limit := OrDefault(limitParam, DefaultLimit);
    var offset := OrDefault(offsetParam, DefaultOffset);
    match db.GetUrlsPaginated(limit, offset)
    case Failure(e) => GetFailed(500, FetchFailedMessage, e.message)
    case Success(rows) => Listed(Metadata(rows, db.GetUrlCount(), limit, offset))
  }

  /**
   * `GET` answers 200 exactly when the defaulted limit is within 1..100 and
   * the defaulted offset is not negative; the page then carries those values,
   * the newest rows after the offset, and the table's row count.
   */
  lemma GetOutcome(db: Database, limitParam: Option<int>, offsetParam: Option<int>)
    ensures var limit := OrDefault(limitParam, DefaultLimit);
      var offset := OrDefault(offsetParam, DefaultOffset);
      var r := Get(db, limitParam, offsetParam);
      && (GetStatus(r) == 200 <==> 1 <= limit <= 100 && offset >= 0)
      && (GetStatus(r) != 200 ==> GetStatus(r) == 500)
      && (!(1 <= limit <= 100) ==> r == GetFailed(500, FetchFailedMessage, LimitMessage))
      && (r.Listed? ==> r.page.limit == limit && r.page.offset == offset && r.page.total == |db.urls|)
      && (r.Listed? ==> |r.page.data| <= limit && SortedDesc(r.page.data, CreatedAt))
      && (r.Listed? ==> (r.page.hasNext <==> offset + limit < |db.urls|) && (r.page.hasPrev <==> offset > 0))
  {
  }

  /** With no parameters the first ten rows are listed. */
  lemma GetDefaults(db: Database)
    ensures Get(db, None, None).Listed?
    ensures Get(db, None, None).page.limit == 10 && Get(db, None, None).page.offset == 0
    ensures Get(db, Some(0), Some(0)) == Get(db, None, None)
  {
  }
}
