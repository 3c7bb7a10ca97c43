/**
 * YahooFinanceScraper: the dividend-history extractor and the company-name
 * resolver. The two pages are inputs: what the CSS selectors found on them,
 * or that the fetch failed.
 */
module Scraper {
  import opened Wrappers
  import opened Strings
  import opened Model

  /** A child element of the dividend table: the text of each of its rows. */
  datatype Element = Element(rows: seq<string>)

  /** A matched dividend table: its child elements (header, body, ...). */
  datatype Table = Table(children: seq<Element>)

  /** The history page: unreachable, or the tables the dividend-table selector matched. */
  datatype HistoryPage = HistoryUnreachable | HistoryPage(tables: seq<Table>)

  /** The summary page: unreachable, or the texts of the headings the title selector matched. */
  datatype SummaryPage = SummaryUnreachable | SummaryPage(headings: seq<string>)

  /** What the upstream site serves for each ticker. */
  datatype Upstream = Upstream(history: string -> HistoryPage, summary: string -> SummaryPage)

  // ================================================================ one row

  const Marker: string := "Dividend"

  /**
   * One row of the table body. A row not ending in the marker gives nothing.
   * Otherwise the text is split on single spaces into month, day, year and
   * amount: the day loses its commas and is parsed, then the year, then the
   * amount is taken as written; only then is an unknown month an error, and
   * last the date must exist.
   */
  function ParseRow(txt: string): Result<Option<Dividend>, Failure>
  {
    if !EndsWith(txt, Marker) then Ok(None)
    else
      var split := Split(txt);
      if |split| < 1 then Err(IndexOutOfBounds)
      else
        var month := MonthNumber(split[0]);
        if |split| < 2 then Err(IndexOutOfBounds)
        else
          var dayText := RemoveCommas(split[1]);
          match ParseInt(dayText)
          case None => Err(NumberFormat(dayText))
          case Some(day) =>
            if |split| < 3 then Err(IndexOutOfBounds)
            else
              match ParseInt(split[2])
              case None => Err(NumberFormat(split[2]))
              case Some(year) =>
                if |split| < 4 then Err(IndexOutOfBounds)
                else
                  var amount := split[3];
                  if month < 0 then Err(UnexpectedMonth(split[0]))
                  else
                    match DateOf(year, month, day)
                    case Err(f) => Err(f)
                    case Ok(date) => Ok(Some(Dividend(date, amount)))
  }

  /** A row ending in the marker never comes back empty: it gives a dividend or an error. */
  lemma ParseRowSkipsExactly(txt: string)
    ensures ParseRow(txt) == Ok(None) <==> !EndsWith(txt, Marker)
  {
  }

  /**
   * A well-formed row: tokens [m, d, y, a, ...] joined by single spaces give
   * the date (y, month(m), d without commas) at midnight and the amount a
   * verbatim.
   */
  lemma ParseRowOfTokens(m: string, d: string, y: string, a: string, rest: seq<string>)
    requires var ts := [m, d, y, a] + rest;
             (forall k :: 0 <= k < |ts| ==> ' ' !in ts[k]) && EndsWith(ts[|ts| - 1], Marker)
    requires ParseInt(RemoveCommas(d)).Some? && ParseInt(y).Some? && MonthNumber(m) >= 1
    requires IsValidDate(ParseInt(y).value, MonthNumber(m), ParseInt(RemoveCommas(d)).value)
    ensures ParseRow(Join([m, d, y, a] + rest)) ==
              Ok(Some(Dividend(LocalDateTime(ParseInt(y).value, MonthNumber(m), ParseInt(RemoveCommas(d)).value, 0, 0), a)))
  {
    RowTokens(m, d, y, a, rest);
  }

  /**
   * An unknown month fails the row, but only once the day and the year have
   * been parsed: a bad day or year is reported first.
   */
  lemma ParseRowUnknownMonth(m: string, d: string, y: string, a: string, rest: seq<string>)
    requires var ts := [m, d, y, a] + rest;
             (forall k :: 0 <= k < |ts| ==> ' ' !in ts[k]) && EndsWith(ts[|ts| - 1], Marker)
    requires MonthNumber(m) < 0
    ensures ParseInt(RemoveCommas(d)).None? ==> ParseRow(Join([m, d, y, a] + rest)) == Err(NumberFormat(RemoveCommas(d)))
    ensures ParseInt(RemoveCommas(d)).Some? && ParseInt(y).None? ==> ParseRow(Join([m, d, y, a] + rest)) == Err(NumberFormat(y))
    ensures ParseInt(RemoveCommas(d)).Some? && ParseInt(y).Some? ==> ParseRow(Join([m, d, y, a] + rest)) == Err(UnexpectedMonth(m))
  {
    RowTokens(m, d, y, a, rest);
  }

  /** The text of a row built from tokens is marked and splits back into those tokens. */
  lemma RowTokens(m: string, d: string, y: string, a: string, rest: seq<string>)
    requires var ts := [m, d, y, a] + rest;
             (forall k :: 0 <= k < |ts| ==> ' ' !in ts[k]) && EndsWith(ts[|ts| - 1], Marker)
    ensures EndsWith(Join([m, d, y, a] + rest), Marker)
    ensures Split(Join([m, d, y, a] + rest)) == [m, d, y, a] + rest
  {
    var ts := [m, d, y, a] + rest;
    JoinEndsWith(ts);
    SplitJoin(ts);
  }

  /** A join ends with its last token. */
  lemma {:induction false} JoinEndsWith(ts: seq<string>)
    requires |ts| >= 1
    ensures |ts[|ts| - 1]| <= |Join(ts)| && Join(ts)[|Join(ts)| - |ts[|ts| - 1]|..] == ts[|ts| - 1]
  {
    if |ts| > 1 {
      JoinEndsWith(ts[1..]);
    }
  }

  /** The row of the worked example: "Dec 15, 2023 0.24 Dividend". */
  lemma ParseRowExample()
    ensures ParseRow("Dec 15, 2023 0.24 Dividend") == Ok(Some(Dividend(LocalDateTime(2023, 12, 15, 0, 0), "0.24")))
  {
    ExampleTokens();
    ExampleFields();
    ParseRowOfTokens("Dec", "15,", "2023", "0.24", ["Dividend"]);
  }

  lemma ExampleFields()
    ensures var ts := ["Dec", "15,", "2023", "0.24"] + ["Dividend"];
            (forall k :: 0 <= k < |ts| ==> ' ' !in ts[k]) && EndsWith(ts[|ts| - 1], Marker)
    ensures ParseInt(RemoveCommas("15,")) == Some(15) && ParseInt("2023") == Some(2023) && MonthNumber("Dec") == 12
    ensures IsValidDate(2023, 12, 15)
  {
    ExampleSpaceFree();
    ExampleTokens();
    ExampleDay();
    ExampleYear();
    ExampleDate();
  }

  lemma ExampleDate()
    ensures MonthNumber("Dec") == 12 && IsValidDate(2023, 12, 15)
  {
  }

  lemma ExampleSpaceFree()
    ensures var ts := ["Dec", "15,", "2023", "0.24"] + ["Dividend"];
            forall k :: 0 <= k < |ts| ==> ' ' !in ts[k]
  {
    var ts := ["Dec", "15,", "2023", "0.24"] + ["Dividend"];
    assert ts == ["Dec", "15,", "2023", "0.24", "Dividend"];
    forall k | 0 <= k < |ts| ensures ' ' !in ts[k] {
      var w := ts[k];
      forall i | 0 <= i < |w| ensures w[i] != ' ' {
      }
    }
  }

  lemma ExampleTokens()
    ensures Join(["Dec", "15,", "2023", "0.24"] + ["Dividend"]) == "Dec 15, 2023 0.24 Dividend"
    ensures EndsWith("Dividend", Marker)
  {
    JoinFive("Dec", "15,", "2023", "0.24", "Dividend");
    assert ["Dec", "15,", "2023", "0.24"] + ["Dividend"] == ["Dec", "15,", "2023", "0.24", "Dividend"];
  }

  lemma JoinFive(a: string, b: string, c: string, d: string, e: string)
    ensures Join([a, b, c, d] + [e]) == a + " " + b + " " + c + " " + d + " " + e
  {
    var ts := [a, b, c, d] + [e];
    assert ts[1..] == [b, c, d, e];
    assert [b, c, d, e][1..] == [c, d, e];
    assert [c, d, e][1..] == [d, e];
    assert [d, e][1..] == [e];
    assert Join([e]) == e;
    assert Join([d, e]) == d + " " + e;
    assert Join([c, d, e]) == c + " " + (d + " " + e);
    assert Join([b, c, d, e]) == b + " " + (c + " " + (d + " " + e));
    assert Join(ts) == a + " " + (b + " " + (c + " " + (d + " " + e)));
  }

  lemma ExampleDay()
    ensures ParseInt(RemoveCommas("15,")) == Some(15)
  {
    ExampleDayText();
    assert NatToString(15) == "15" by {
      assert NatToString(1) == "1";
    }
    ParseIntToString(15);
  }

  lemma ExampleDayText()
    ensures RemoveCommas("15,") == "15"
  {
    assert "15,"[1..] == "5,";
    assert "5,"[1..] == ",";
    assert ","[1..] == [];
  }

  lemma ExampleYear()
    ensures ParseInt("2023") == Some(2023)
  {
    assert NatToString(2023) == "2023" by {
      assert NatToString(2) == "2";
      assert NatToString(20) == "20";
      assert NatToString(202) == "202";
    }
    ParseIntToString(2023);
  }

  // ================================================================ the table body

  /** What one row comes to: skipped, a dividend, or a failure. */
  type RowOutcome = Result<Option<Dividend>, Failure>

  /** The rows in order through a row parser, stopping at the first failing row. */
  function Collect(rows: seq<string>, parse: string -> RowOutcome): Result<seq<Dividend>, Failure>
  {
    if rows == [] then Ok([])
    else
      match Collect(rows[..|rows| - 1], parse)
      case Err(f) => Err(f)
      case Ok(ds) =>
        match parse(rows[|rows| - 1])
        case Err(f) => Err(f)
        case Ok(None) => Ok(ds)
        case Ok(Some(d)) => Ok(ds + [d])
  }

  /** The loop over the table body's rows. */
  function ParseRows(rows: seq<string>): Result<seq<Dividend>, Failure>
  {
    Collect(rows, ParseRow)
  }

  /** The rows ending in the marker, in order. */
  function Qualifying(rows: seq<string>): seq<string>
  {
    if rows == [] then []
    else if EndsWith(rows[|rows| - 1], Marker) then Qualifying(rows[..|rows| - 1]) + [rows[|rows| - 1]]
    else Qualifying(rows[..|rows| - 1])
  }

  lemma {:induction false} CollectOkIff(rows: seq<string>, parse: string -> RowOutcome)
    ensures Collect(rows, parse).Ok? <==> forall i :: 0 <= i < |rows| ==> parse(rows[i]).Ok?
  {
    if rows != [] {
      var p := rows[..|rows| - 1];
      CollectOkIff(p, parse);
      assert forall i :: 0 <= i < |p| ==> p[i] == rows[i];
    }
  }

  lemma {:induction false} CollectOk(rows: seq<string>, parse: string -> RowOutcome)
    requires Collect(rows, parse).Ok?
    requires forall r :: parse(r) == Ok(None) <==> !EndsWith(r, Marker)
    ensures var ds := Collect(rows, parse).value;
            |ds| == |Qualifying(rows)| &&
            forall k :: 0 <= k < |ds| ==> parse(Qualifying(rows)[k]) == Ok(Some(ds[k]))
  {
    if rows != [] {
      CollectOk(rows[..|rows| - 1], parse);
    }
  }

  lemma {:induction false} CollectFirstFailure(rows: seq<string>, parse: string -> RowOutcome)
    requires Collect(rows, parse).Err?
    ensures exists i :: 0 <= i < |rows| && parse(rows[i]) == Err(Collect(rows, parse).error) &&
                        forall j :: 0 <= j < i ==> parse(rows[j]).Ok?
  {
    var p := rows[..|rows| - 1];
    assert forall i :: 0 <= i < |p| ==> p[i] == rows[i];
    if Collect(p, parse).Err? {
      CollectFirstFailure(p, parse);
      var i :| 0 <= i < |p| && parse(p[i]) == Err(Collect(p, parse).error) && forall j :: 0 <= j < i ==> parse(p[j]).Ok?;
      assert parse(rows[i]) == Err(Collect(rows, parse).error);
    } else {
      CollectOkIff(p, parse);
      assert parse(rows[|rows| - 1]) == Err(Collect(rows, parse).error);
    }
  }

  /** Once a prefix fails, the rows after it are never looked at. */
  lemma {:induction false} CollectFailureSticks(p: seq<string>, q: seq<string>, parse: string -> RowOutcome)
    requires Collect(p, parse).Err?
    ensures Collect(p + q, parse) == Collect(p, parse)
    decreases |q|
  {
    if q != [] {
      var q' := q[..|q| - 1];
      assert (p + q)[..|p + q| - 1] == p + q';
      CollectFailureSticks(p, q', parse);
      assert Collect(p + q', parse) == Collect(p, parse);
      assert p + q != [];
    } else {
      assert p + q == p;
    }
  }

  /** The extraction succeeds exactly when no row fails. */
  lemma ParseRowsOkIff(rows: seq<string>)
    ensures ParseRows(rows).Ok? <==> forall i :: 0 <= i < |rows| ==> ParseRow(rows[i]).Ok?
  {
    CollectOkIff(rows, ParseRow);
  }

  /**
   * A successful extraction has exactly one dividend per row ending in the
   * marker, in row order, each the parse of its row.
   */
  lemma ParseRowsOk(rows: seq<string>)
    requires ParseRows(rows).Ok?
    ensures var ds := ParseRows(rows).value;
            |ds| == |Qualifying(rows)| &&
            forall k :: 0 <= k < |ds| ==> ParseRow(Qualifying(rows)[k]) == Ok(Some(ds[k]))
  {
    forall r ensures ParseRow(r) == Ok(None) <==> !EndsWith(r, Marker) {
      ParseRowSkipsExactly(r);
    }
    CollectOk(rows, ParseRow);
  }

  /** A failed extraction reports the failure of the first failing row; no partial list comes back. */
  lemma ParseRowsFirstFailure(rows: seq<string>)
    requires ParseRows(rows).Err?
    ensures exists i :: 0 <= i < |rows| && ParseRow(rows[i]) == Err(ParseRows(rows).error) &&
                        forall j :: 0 <= j < i ==> ParseRow(rows[j]).Ok?
  {
    CollectFirstFailure(rows, ParseRow);
  }

  // ================================================================ scrap(company)

  /**
   * scrap(company) as a function of the history page: a failed fetch is the
   * ticker-carrying failure; no dividend table is the company with no
   * dividends; a table without a body element fails; otherwise the rows of
   * the body element.
   */
  function ScrapedFrom(company: Company, page: HistoryPage): Result<ScrapedResult, Failure>
  {
    match page
    case HistoryUnreachable => Err(FailedScrapingDividend(company.ticker))
    case HistoryPage(tables) =>
      if tables == [] then Ok(ScrapedResult(company, []))
      else if |tables[0].children| < 2 then Err(IndexOutOfBounds)
      else
        match ParseRows(tables[0].children[1].rows)
        case Err(f) => Err(f)
        case Ok(ds) => Ok(ScrapedResult(company, ds))
  }

  /**
   * The outcomes of scrap: a fetch failure carries the ticker, a page without
   * the table is the input company with no dividends and no error, and every
   * success carries the input company with the parsed rows.
   */
  lemma ScrapedFromSpec(company: Company, page: HistoryPage)
    ensures page.HistoryUnreachable? ==> ScrapedFrom(company, page) == Err(FailedScrapingDividend(company.ticker))
    ensures page.HistoryPage? && page.tables == [] ==> ScrapedFrom(company, page) == Ok(ScrapedResult(company, []))
    ensures ScrapedFrom(company, page).Ok? ==> ScrapedFrom(company, page).value.company == company
    ensures page.HistoryPage? && page.tables != [] && |page.tables[0].children| >= 2 ==>
              var rows := page.tables[0].children[1].rows;
              (ScrapedFrom(company, page).Ok? <==> ParseRows(rows).Ok?) &&
              (ParseRows(rows).Ok? ==> ScrapedFrom(company, page).value.dividends == ParseRows(rows).value)
  {
  }

  /** scrap(company): the loop over the body rows, appending as it goes. */
  method Scrap(company: Company, upstream: Upstream) returns (r: Result<ScrapedResult, Failure>)
    ensures r == ScrapedFrom(company, upstream.history(company.ticker))
  {
    var page := upstream.history(company.ticker);
    if page.HistoryUnreachable? {
      return Err(FailedScrapingDividend(company.ticker));
    }
    if |page.tables| == 0 {
      return Ok(ScrapedResult(company, []));
    }
    var table := page.tables[0];
    if |table.children| < 2 {
      return Err(IndexOutOfBounds);
    }
    var rows := table.children[1].rows;
    var dividends: seq<Dividend> := [];
    for i := 0 to |rows|
      invariant ParseRows(rows[..i]) == Ok(dividends)
    {
      assert rows[..i + 1][..i] == rows[..i];
      var parsed := ParseRow(rows[i]);
      match parsed {
        case Err(f) =>
          CollectFailureSticks(rows[..i + 1], rows[i + 1..], ParseRow);
          assert rows[..i + 1] + rows[i + 1..] == rows;
          return Err(f);
        case Ok(None) =>
        case Ok(Some(d)) =>
          dividends := dividends + [d];
      }
    }
    assert rows[..|rows|] == rows;
    r := Ok(ScrapedResult(company, dividends));
  }

  // ================================================================ the title

  /** The regular-expression class \s: space, tab, newline, vertical tab, form feed, carriage return. */
  predicate IsRegexSpace(c: char)
  {
    c == ' ' || c == '\t' || c == '\n' || c == '\U{000B}' || c == '\U{000C}' || c == '\r'
  }

  predicate IsLineTerminator(c: char)
  {
    c == '\n' || c == '\r' || c == '\U{0085}' || c == '\U{2028}' || c == '\U{2029}'
  }

  /** Where $ (without MULTILINE) matches: at the end, or just before a final line terminator. */
  predicate DollarAt(s: string, p: nat)
    requires p <= |s|
  {
    || p == |s|
    || (p == |s| - 1 && IsLineTerminator(s[p]) && !(s[p] == '\n' && p > 0 && s[p - 1] == '\r'))
    || (p == |s| - 2 && s[p] == '\r' && s[p + 1] == '\n')
  }

  /**
   * \s+\([^)]*\)$ matches s from i to e: a run of spaces i..j, '(' at j, no
   * ')' strictly between j and k, ')' at k, and $ right after it at e.
   */
  ghost predicate GroupShape(s: string, i: nat, j: nat, k: nat)
  {
    && i < j < k < |s|
    && (forall t :: i <= t < j ==> IsRegexSpace(s[t]))
    && s[j] == '('
    && (forall t :: j < t < k ==> s[t] != ')')
    && s[k] == ')'
    && DollarAt(s, k + 1)
  }

  ghost predicate IsGroup(s: string, i: nat, e: nat)
  {
    exists j: nat, k: nat :: GroupShape(s, i, j, k) && e == k + 1
  }

  /** The end of the run of \s characters starting at i. */
  function SpaceRunEnd(s: string, i: nat): (j: nat)
    requires i <= |s|
    ensures i <= j <= |s|
    ensures forall t :: i <= t < j ==> IsRegexSpace(s[t])
    ensures j == |s| || !IsRegexSpace(s[j])
    decreases |s| - i
  {
    if i == |s| || !IsRegexSpace(s[i]) then i else SpaceRunEnd(s, i + 1)
  }

  /** The first ')' at or after j. */
  function CloseFrom(s: string, j: nat): (r: Option<nat>)
    requires j <= |s|
    ensures r.Some? ==> j <= r.value < |s| && s[r.value] == ')' && forall t :: j <= t < r.value ==> s[t] != ')'
    ensures r.None? ==> forall t :: j <= t < |s| ==> s[t] != ')'
    decreases |s| - j
  {
    if j == |s| then None else if s[j] == ')' then Some(j) else CloseFrom(s, j + 1)
  }

  /** Where a match of the group starting at i ends, if there is one. */
  function GroupEnd(s: string, i: nat): Option<nat>
    requires i <= |s|
  {
    if i == |s| || !IsRegexSpace(s[i]) then None
    else
      var j := SpaceRunEnd(s, i);
      if j == |s| || s[j] != '(' then None
      else
        match CloseFrom(s, j + 1)
        case None => None
        case Some(k) => if DollarAt(s, k + 1) then Some(k + 1) else None
  }

  /** The scan agrees with the pattern: it finds a match at i exactly when the pattern matches there. */
  lemma GroupEndCorrect(s: string, i: nat, e: nat)
    requires i <= |s|
    ensures GroupEnd(s, i) == Some(e) <==> IsGroup(s, i, e)
  {
    if GroupEnd(s, i) == Some(e) {
      var j := SpaceRunEnd(s, i);
      var k := CloseFrom(s, j + 1).value;
      assert GroupShape(s, i, j, k);
    }
    if IsGroup(s, i, e) {
      var j: nat, k: nat :| GroupShape(s, i, j, k) && e == k + 1;
      var j' := SpaceRunEnd(s, i);
      assert !IsRegexSpace(s[j]);
      assert j' <= j;
      assert j' >= j;
      var c := CloseFrom(s, j + 1);
      assert s[k] == ')';
      assert c.Some?;
      assert c.value <= k;
      assert c.value >= k;
    }
  }

  /** The leftmost position from `from` on where the group matches, and where that match ends. */
  function FirstGroup(s: string, from: nat): (r: Option<(nat, nat)>)
    requires from <= |s|
    ensures r.Some? ==> from <= r.value.0 < r.value.1 <= |s| && GroupEnd(s, r.value.0) == Some(r.value.1)
    ensures r.Some? ==> forall i :: from <= i < r.value.0 ==> GroupEnd(s, i).None?
    ensures r.None? ==> forall i :: from <= i <= |s| ==> GroupEnd(s, i).None?
    decreases |s| - from
  {
    match GroupEnd(s, from)
    case Some(e) =>
      assert from < e <= |s| by {
        var j := SpaceRunEnd(s, from);
        var k := CloseFrom(s, j + 1).value;
        assert from < j < k;
      }
      Some((from, e))
    case None => if from == |s| then None else FirstGroup(s, from + 1)
  }

  /** replaceAll("\\s+\\([^)]*\\)$", ""): the pattern can match at most once, so the leftmost match goes. */
  function RemoveTrailingGroup(s: string): string
  {
    match FirstGroup(s, 0)
    case None => s
    case Some((i, e)) => s[..i] + s[e..]
  }

  /** The title cleanup: trim, drop one trailing " (...)" group, trim again. */
  function CleanTitle(raw: string): (r: string)
    ensures r == [] || (!IsTrimmable(r[0]) && !IsTrimmable(r[|r| - 1]))
  {
    Trim(RemoveTrailingGroup(Trim(raw)))
  }

  /** A title with no trailing group comes back merely trimmed. */
  lemma CleanTitleNoGroup(raw: string)
    requires forall i: nat, e: nat :: !IsGroup(Trim(raw), i, e)
    ensures CleanTitle(raw) == Trim(raw)
  {
    var t := Trim(raw);
    match FirstGroup(t, 0)
    case None =>
      TrimIdempotent(raw);
    case Some((i, e)) =>
      GroupEndCorrect(t, i, e);
      assert false;
  }

  /**
   * A title with a trailing group loses exactly the leftmost match: the
   * spaces before the '(' through the ')', nothing after $ (a final line
   * terminator stays), then is trimmed.
   */
  lemma CleanTitleGroup(raw: string, i: nat, e: nat)
    requires IsGroup(Trim(raw), i, e)
    requires forall i': nat, e': nat :: i' < i ==> !IsGroup(Trim(raw), i', e')
    ensures i < e <= |Trim(raw)|
    ensures CleanTitle(raw) == Trim(Trim(raw)[..i] + Trim(raw)[e..])
  {
    var t := Trim(raw);
    var j: nat, k: nat :| GroupShape(t, i, j, k) && e == k + 1;
    GroupEndCorrect(t, i, e);
    var f := FirstGroup(t, 0);
    assert f.Some?;
    var i0 := f.value.0;
    GroupEndCorrect(t, i0, f.value.1);
    assert i0 <= i;
    assert i0 >= i;
  }

  /** The common case: "Apple Inc. (AAPL)" gives "Apple Inc.". */
  lemma CleanTitleExample()
    ensures CleanTitle("Apple Inc. (AAPL)") == "Apple Inc."
  {
    TrimNoop("Apple Inc. (AAPL)");
    ExampleRemoved();
    TrimNoop("Apple Inc.");
  }

  lemma ExampleRemoved()
    ensures RemoveTrailingGroup("Apple Inc. (AAPL)") == "Apple Inc."
  {
    var t := "Apple Inc. (AAPL)";
    ExampleFirstGroup();
    assert t[..10] + t[17..] == "Apple Inc.";
  }

  lemma ExampleFirstGroup()
    ensures FirstGroup("Apple Inc. (AAPL)", 0) == Some((10, 17))
  {
    ExampleNoEarlierGroup();
    ExampleGroupAt10();
    var f := FirstGroup("Apple Inc. (AAPL)", 0);
    assert f.Some?;
    assert f.value.0 >= 10;
    assert f.value.0 <= 10;
  }

  lemma ExampleNoEarlierGroup()
    ensures forall i :: 0 <= i < 10 ==> GroupEnd("Apple Inc. (AAPL)", i).None?
  {
    var t := "Apple Inc. (AAPL)";
    forall i | 0 <= i < 10 ensures GroupEnd(t, i).None? {
      if i == 5 {
        assert SpaceRunEnd(t, 6) == 6;
      } else {
        assert !IsRegexSpace(t[i]);
      }
    }
  }

  lemma ExampleGroupAt10()
    ensures GroupEnd("Apple Inc. (AAPL)", 10) == Some(17)
  {
    var t := "Apple Inc. (AAPL)";
    assert SpaceRunEnd(t, 11) == 11;
    assert CloseFrom(t, 16) == Some(16);
    assert CloseFrom(t, 14) == Some(16);
    assert CloseFrom(t, 12) == Some(16);
  }

  /** scrapCompanyByTicker: the ticker as given and the cleaned title of the first matched heading. */
  function ScrapCompanyByTicker(ticker: string, upstream: Upstream): (r: Result<Company, Failure>)
    ensures r.Ok? ==> r.value.ticker == ticker
    ensures r.Ok? ==> var n := r.value.name; n == [] || (!IsTrimmable(n[0]) && !IsTrimmable(n[|n| - 1]))
    ensures upstream.summary(ticker).SummaryUnreachable? ==> r == Err(SummaryFetchFailed)
    ensures upstream.summary(ticker) == SummaryPage([]) ==> r == Err(MissingTitle)
  {
    match upstream.summary(ticker)
    case SummaryUnreachable => Err(SummaryFetchFailed)
    case SummaryPage(headings) =>
      if headings == [] then Err(MissingTitle) else Ok(Company(ticker, CleanTitle(headings[0])))
  }

  /** A summary page with a title heading gives the ticker and the cleaned first heading. */
  lemma ScrapCompanyByTickerTitle(ticker: string, upstream: Upstream)
    requires upstream.summary(ticker).SummaryPage? && upstream.summary(ticker).headings != []
    ensures ScrapCompanyByTicker(ticker, upstream) == Ok(Company(ticker, CleanTitle(upstream.summary(ticker).headings[0])))
  {
  }
}
