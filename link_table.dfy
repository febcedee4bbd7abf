/**
 * The two computations of the dashboard's link table
 * (src/shared/components/dashboard/ui/LinkTable.tsx): the "last clicked"
 * column's relative time and the "Showing X to Y of Z results" caption.
 * The clock and `new Date(date)` are outside the model: the caller passes the
 * elapsed milliseconds, or None when the date does not parse (its `getTime()`
 * is NaN, every comparison fails and the locale date is shown).
 */
module LinkTable {
  import opened Common
  import opened LinkStore
  import opened Pagination
  import opened DashboardActions

  const MinuteMs: int := 60000
  const HourMs: int := 3600000
  const DayMs: int := 86400000
  /** Below this many days the column still reads "N day(s) ago". */
  const DaysShown: int := 7

  datatype TimeUnit = Minute | Hour | Day

  /** What `formatTimeAgo` chooses to show; `OnDate` is `then.toLocaleDateString()`. */
  datatype TimeAgo = Never | JustNow | Ago(count: int, unit: TimeUnit) | OnDate

  /** `formatTimeAgo(date)`: floor divisions of the elapsed time, then the first unit below its threshold. */
  function FormatTimeAgo(date: Option<string>, elapsedMs: Option<int>): (r: TimeAgo)
    ensures r.Never? <==> date.None? || date.value == ""
    ensures r.Ago? ==> r.count >= 1
  {
    if date.None? || date.value == "" then Never
    else if elapsedMs.None? then OnDate
    else
      var ms := elapsedMs.value;
      var mins := ms / MinuteMs;
      var hours := ms / HourMs;
      var days := ms / DayMs;
      if mins < 1 then JustNow
      else if mins < 60 then Ago(mins, Minute)
      else if hours < 24 then Ago(hours, Hour)
      else if days < DaysShown then Ago(days, Day)
      else OnDate
  }

  function UnitName(u: TimeUnit): string
  {
    match u
    case Minute => "min"
    case Hour => "hour"
    case Day => "day"
  }

  /** `` ${n} unit${n > 1 ? "s" : ""} ago`` without the number. */
  function UnitSuffix(n: int, u: TimeUnit): string
  {
    " " + UnitName(u) + (if n > 1 then "s" else "") + " ago"
  }

  /** The suffix ends in " ago", and the letter before it is a plural "s" exactly when the count is above one. */
  lemma SuffixPlural(n: int, u: TimeUnit)
    ensures var x := UnitSuffix(n, u);
      |x| >= 5 && x[|x| - 4..] == " ago" && (x[|x| - 5] == 's' <==> n > 1)
  {
  }

  /** The string the column shows; the locale date is supplied by the caller. */
  function Text(t: TimeAgo, localeDate: string): (s: string)
    requires t.Ago? ==> t.count >= 0
    ensures t.Ago? ==> |s| >= 5 && s[|s| - 4..] == " ago"
  {
    match t
    case Never => "Never"
    case JustNow => "Just now"
    case Ago(n, u) =>
      SuffixPlural(n, u);
      ConcatEnds(NatToString(n), UnitSuffix(n, u));
      NatToString(n) + UnitSuffix(n, u)
    case OnDate => localeDate
  }

  /** Less than a minute ago, or in the future, reads "Just now", and nothing else does. */
  lemma JustNowExactly(date: string, ms: int)
    requires date != ""
    ensures FormatTimeAgo(Some(date), Some(ms)) == JustNow <==> ms < MinuteMs
  {
  }

  /** Minutes are shown from one minute up to the hour, counting whole minutes elapsed. */
  lemma MinutesExactly(date: string, ms: int, n: int)
    requires date != ""
    ensures FormatTimeAgo(Some(date), Some(ms)) == Ago(n, Minute)
        <==> MinuteMs <= ms < HourMs && n == ms / MinuteMs
    ensures FormatTimeAgo(Some(date), Some(ms)) == Ago(n, Minute) ==> 1 <= n <= 59
  {
  }

  /** Hours are shown from one hour up to the day, counting whole hours elapsed. */
  lemma HoursExactly(date: string, ms: int, n: int)
    requires date != ""
    ensures FormatTimeAgo(Some(date), Some(ms)) == Ago(n, Hour)
        <==> HourMs <= ms < DayMs && n == ms / HourMs
    ensures FormatTimeAgo(Some(date), Some(ms)) == Ago(n, Hour) ==> 1 <= n <= 23
  {
  }

  /** Days are shown from one day up to the week, counting whole days elapsed. */
  lemma DaysExactly(date: string, ms: int, n: int)
    requires date != ""
    ensures FormatTimeAgo(Some(date), Some(ms)) == Ago(n, Day)
        <==> DayMs <= ms < DaysShown * DayMs && n == ms / DayMs
    ensures FormatTimeAgo(Some(date), Some(ms)) == Ago(n, Day) ==> 1 <= n <= 6
  {
  }

  /** The locale date appears for an unparsable date or one a week old or older. */
  lemma OnDateExactly(date: string, elapsedMs: Option<int>)
    requires date != ""
    ensures FormatTimeAgo(Some(date), elapsedMs) == OnDate
        <==> elapsedMs.None? || elapsedMs.value >= DaysShown * DayMs
  {
  }

  /**
   * Every "... ago" text is the count's digits, the unit and " ago", and the
   * unit takes a plural "s" exactly when the count is above one.
   */
  lemma AgoTextPlural(n: int, u: TimeUnit, localeDate: string)
    requires n >= 1
    ensures var t := Text(Ago(n, u), localeDate);
      && |t| >= 5
      && t[..|NatToString(n)|] == NatToString(n)
      && t[|t| - 4..] == " ago"
      && (t[|t| - 5] == 's' <==> n > 1)
  {
    var digits, x := NatToString(n), UnitSuffix(n, u);
    assert Text(Ago(n, u), localeDate) == digits + x;
    SuffixPlural(n, u);
    ConcatEnds(digits, x);
  }

  /** Appending a string of five or more characters keeps the prefix and fixes the last five. */
  lemma ConcatEnds(a: string, b: string)
    requires |b| >= 5
    ensures var t := a + b;
      && t[..|a|] == a
      && t[|t| - 4..] == b[|b| - 4..]
      && t[|t| - 5] == b[|b| - 5]
  {
  }

  /** The caption's first and last row numbers. */
  datatype Caption = Caption(first: int, last: int)

  /** "Showing X to Y of Z": X is `1 + (currentPage - 1) * 10` for a non-empty page and 0 otherwise; Y is `min(currentPage * 10, total)`. */
  function RangeCaption(linksCount: nat, currentPage: int, total: int): (c: Caption)
    ensures linksCount == 0 ==> c.first == 0
    ensures linksCount > 0 && currentPage >= 1 ==> c.first >= 1
    ensures c.last <= total && c.last <= currentPage * PageSize
  {
    Caption(if linksCount > 0 then 1 + (currentPage - 1) * PageSize else 0, Min(currentPage * PageSize, total))
  }

  /**
   * Fed the page `getLinks(page)` returns, a non-empty caption names exactly
   * the rows shown: it starts one past the offset and ends at the offset plus
   * the number of rows. Past the last page the caption reads "0 to total".
   */
  lemma CaptionMatchesPage(db: Database, page: int)
    requires page >= 1
    ensures GetLinks(db, page).Success?
    ensures var p := GetLinks(db, page).value;
      var c := RangeCaption(|p.data|, page, p.total);
      && (|p.data| > 0 ==> c.first == p.offset + 1 && c.last == p.offset + |p.data| && c.first <= c.last)
      && (|p.data| == 0 ==> c.first == 0 && c.last == p.total)
  {
    GetLinksPage(db, page);
  }
}
