/**
 * The value types of the application: Company, Dividend, ScrapedResult, the
 * LocalDateTime the scraper builds, the Month lookup, and the failures the
 * core raises.
 */
module Model {
  import opened Wrappers

  /** java.time.LocalDateTime reduced to the fields the core sets. */
  datatype LocalDateTime = LocalDateTime(year: int, month: int, day: int, hour: int, minute: int)

  /** A tracked company: the exchange ticker and the display name. */
  datatype Company = Company(ticker: string, name: string)

  /** One dividend event: its date and the amount exactly as the page writes it. */
  datatype Dividend = Dividend(date: LocalDateTime, dividend: string)

  /** A company with its dividends, as scraped or as materialised from the store. */
  datatype ScrapedResult = ScrapedResult(company: Company, dividends: seq<Dividend>)

  /** The exceptions the core raises, one constructor per distinct condition. */
  datatype Failure =
    | FailedScrapingDividend(ticker: string)   // FailedScrapingDividendException: history fetch failed
    | UnexpectedMonth(token: string)           // RuntimeException("Unexpected Month enum value -> ...")
    | IndexOutOfBounds                         // a table without a body, or a row with too few tokens
    | NumberFormat(token: string)              // Integer.parseInt on a day or year token
    | InvalidDate(year: int, month: int, day: int) // DateTimeException from LocalDateTime.of
    | SummaryFetchFailed                       // RuntimeException wrapping the IOException of the summary fetch
    | MissingTitle                             // NullPointerException: no title heading on the summary page
    | AlreadyExistsTicker(ticker: string)      // RuntimeException("already exists ticker -> ...")
    | NoCompany                                // NoCompanyException
    | EmptyTicker                              // RuntimeException("ticker is empty")
    | NonUniqueResult(name: string)            // an Optional-returning query that matched several rows
    | UniqueViolation                          // the (companyId, date) unique constraint rejected an insert

  // ---------------------------------------------------------------- Month

  /** Month.strToNumber: the English three-letter abbreviation to 1..12, anything else to -1. */
  function MonthNumber(s: string): (m: int)
    ensures m == -1 || 1 <= m <= 12
  {
    if s == "Jan" then 1 else if s == "Feb" then 2 else if s == "Mar" then 3
    else if s == "Apr" then 4 else if s == "May" then 5 else if s == "Jun" then 6
    else if s == "Jul" then 7 else if s == "Aug" then 8 else if s == "Sep" then 9
    else if s == "Oct" then 10 else if s == "Nov" then 11 else if s == "Dec" then 12
    else -1
  }

  /** The abbreviation of a month number. */
  function MonthName(m: int): string
    requires 1 <= m <= 12
  {
    ["Jan", "Feb", "Mar", "Apr", "May", "Jun", "Jul", "Aug", "Sep", "Oct", "Nov", "Dec"][m - 1]
  }

  /** The lookup and the abbreviation table are inverse to each other. */
  lemma MonthNumberOfName(m: int)
    requires 1 <= m <= 12
    ensures MonthNumber(MonthName(m)) == m
  {
  }

  /** Every string the lookup accepts is the abbreviation of the month it gives. */
  lemma MonthNameOfNumber(s: string)
    requires MonthNumber(s) >= 1
    ensures MonthName(MonthNumber(s)) == s
  {
  }

  // ---------------------------------------------------------------- LocalDateTime.of

  const MinYear: int := -999_999_999
  const MaxYear: int := 999_999_999

  /** IsoChronology.isLeapYear. */
  predicate IsLeapYear(y: int)
  {
    y % 4 == 0 && (y % 100 != 0 || y % 400 == 0)
  }

  function DaysInMonth(y: int, m: int): (n: int)
    requires 1 <= m <= 12
    ensures 28 <= n <= 31
  {
    if m == 2 then (if IsLeapYear(y) then 29 else 28)
    else if m == 4 || m == 6 || m == 9 || m == 11 then 30
    else 31
  }

  predicate IsValidDate(y: int, m: int, d: int)
  {
    MinYear <= y <= MaxYear && 1 <= m <= 12 && 1 <= d <= DaysInMonth(y, m)
  }

  /** LocalDateTime.of(y, m, d, 0, 0): midnight of a valid date, a DateTimeException otherwise. */
  function DateOf(y: int, m: int, d: int): (r: Result<LocalDateTime, Failure>)
    ensures r.Ok? <==> IsValidDate(y, m, d)
    ensures r.Ok? ==> r.value == LocalDateTime(y, m, d, 0, 0)
    ensures r.Err? ==> r.error == InvalidDate(y, m, d)
  {
    if IsValidDate(y, m, d) then Ok(LocalDateTime(y, m, d, 0, 0)) else Err(InvalidDate(y, m, d))
  }

  /**
   * LocalDateTime.of against the calendar: within the supported years, the
   * first 28 days of every month exist, the 29th exists in every month but
   * February, February 29 exists exactly in leap years (divisibility, so Java's truncating % agrees), the 30th exists in
   * every month but February, the 31st exactly in the seven long months, and
   * a day or month out of range, or a year outside the range, is refused.
   */
  lemma DateOfCalendar(y: int, m: int, d: int)
    ensures MinYear <= y <= MaxYear && 1 <= m <= 12 && 1 <= d <= 28 ==> DateOf(y, m, d).Ok?
    ensures MinYear <= y <= MaxYear ==>
              (DateOf(y, 2, 29).Ok? <==> (y % 4 == 0 && (y % 100 != 0 || y % 400 == 0)))
    ensures MinYear <= y <= MaxYear && 1 <= m <= 12 && m != 2 ==> DateOf(y, m, 29).Ok?
    ensures MinYear <= y <= MaxYear ==> (DateOf(y, m, 30).Ok? <==> 1 <= m <= 12 && m != 2)
    ensures MinYear <= y <= MaxYear ==> (DateOf(y, m, 31).Ok? <==> m in {1, 3, 5, 7, 8, 10, 12})
    ensures d < 1 || d > 31 || m < 1 || m > 12 || y < MinYear || y > MaxYear ==> DateOf(y, m, d).Err?
  {
  }
}
