/** `scrape_forex_factory` of scripts/newsScrapper.py without the browser:
    its loop reads the calendar's table rows top to bottom, keeps the label
    of the latest day-breaker row and turns every other row that has a time
    cell into one eight-column record. A row is given with the results of
    the CSS selections the loop makes on it already taken. */
module CalendarRows {
  import opened Wrappers
  import opened Text

  /** One `tr.calendar__row`: its classes, and for each selector the loop
      applies, the stripped-or-raw text it reads there, or `None` where
      `select_one` finds nothing. */
  datatype Row = Row(
    classes: seq<string>,            // row.get("class", [])
    dateSpan: Option<string>,        // text of "td.calendar__cell span"
    timeSpan: Option<string>,        // text of "td.calendar__time span"
    currencySpan: Option<string>,    // text of "td.calendar__currency span"
    impactTitle: Option<string>,     // title attribute of "td.calendar__impact span[title]"
    eventTitleSpan: Option<string>,  // text of "td.calendar__event span.calendar__event-title"
    actualSpan: Option<string>,      // text of "td.calendar__actual span"
    forecastSpan: Option<string>,    // text of "td.calendar__forecast span"
    previousSpan: Option<string>)    // text of "td.calendar__previous span"

  /** One entry of the scraped table, with the columns Date, Time, Currency,
      Impact, Event Title, Actual, Forecast and Previous. `date` is `None`
      (Python's None) while no labelled day-breaker has been seen. */
  datatype Record = Record(
    date: Option<string>,
    time: string,
    currency: string,
    impact: string,
    eventTitle: string,
    actual: string,
    forecast: string,
    previous: string)

  const DayBreakerClass := "calendar__row--day-breaker"

  /** The words the impact title carries after the severity. */
  const ImpactSuffix := " Impact Expected"

  predicate IsDayBreaker(row: Row)
  {
    DayBreakerClass in row.classes
  }

  /** A row that yields a record: not a day-breaker, and it has a time cell. */
  predicate Emits(row: Row)
  {
    !IsDayBreaker(row) && row.timeSpan.Some?
  }

  /** The date label in force after `rows` when `dateLabel` was in force before
      them: the stripped text of the last day-breaker among them that has a
      date span, and `dateLabel` if there is none. */
  function LabelAfter(rows: seq<Row>, dateLabel: Option<string>): Option<string>
  {
    if rows == [] then dateLabel
    else
      var row := rows[|rows| - 1];
      if IsDayBreaker(row) && row.dateSpan.Some? then Some(Strip(row.dateSpan.value))
      else LabelAfter(rows[..|rows| - 1], dateLabel)
  }

  /** `cell.text.strip() if cell else ""`. */
  function CellText(cell: Option<string>): string
  {
    if cell.Some? then Strip(cell.value) else ""
  }

  /** `span["title"].replace(" Impact Expected", "") if span else ""`. */
  function ImpactText(title: Option<string>): string
  {
    if title.Some? then RemoveAll(title.value, ImpactSuffix) else ""
  }

  /** The record a data row yields under the date label `date`. Every text
      column but Impact is stripped, and a missing cell gives "". */
  function RecordOf(row: Row, date: Option<string>): (r: Record)
    requires row.timeSpan.Some?
    ensures r.date == date
    ensures r.time == Strip(row.timeSpan.value)
    ensures row.currencySpan.None? ==> r.currency == ""
    ensures row.currencySpan.Some? ==> r.currency == Strip(row.currencySpan.value)
    ensures row.impactTitle.None? ==> r.impact == ""
    ensures row.impactTitle.Some? ==> r.impact == RemoveAll(row.impactTitle.value, ImpactSuffix)
    ensures row.eventTitleSpan.None? ==> r.eventTitle == ""
    ensures row.eventTitleSpan.Some? ==> r.eventTitle == Strip(row.eventTitleSpan.value)
    ensures row.actualSpan.None? ==> r.actual == ""
    ensures row.actualSpan.Some? ==> r.actual == Strip(row.actualSpan.value)
    ensures row.forecastSpan.None? ==> r.forecast == ""
    ensures row.forecastSpan.Some? ==> r.forecast == Strip(row.forecastSpan.value)
    ensures row.previousSpan.None? ==> r.previous == ""
    ensures row.previousSpan.Some? ==> r.previous == Strip(row.previousSpan.value)
    ensures Trimmed(r.time) && Trimmed(r.currency) && Trimmed(r.eventTitle)
    ensures Trimmed(r.actual) && Trimmed(r.forecast) && Trimmed(r.previous)
  {
    Record(date, Strip(row.timeSpan.value), CellText(row.currencySpan), ImpactText(row.impactTitle),
      CellText(row.eventTitleSpan), CellText(row.actualSpan), CellText(row.forecastSpan),
      CellText(row.previousSpan))
  }

  /** The records `rows` yield when `dateLabel` is in force before them: one per
      emitting row, in page order, each stamped with the label in force at
      that row. */
  function Records(rows: seq<Row>, dateLabel: Option<string>): seq<Record>
  {
    if rows == [] then []
    else
      var prefix, row := rows[..|rows| - 1], rows[|rows| - 1];
      Records(prefix, dateLabel)
        + (if Emits(row) then [RecordOf(row, LabelAfter(prefix, dateLabel))] else [])
  }

  /** The number of rows that yield a record. */
  function CountEmitting(rows: seq<Row>): nat
  {
    if rows == [] then 0
    else CountEmitting(rows[..|rows| - 1]) + (if Emits(rows[|rows| - 1]) then 1 else 0)
  }

  /** The loop over `soup.select("tr.calendar__row")`. */
  method ParseRows(rows: seq<Row>) returns (data: seq<Record>)
    ensures data == Records(rows, None)
  {
    data := [];
    var currentDate: Option<string> := None;
    for i := 0 to |rows|
      invariant data == Records(rows[..i], None)
      invariant currentDate == LabelAfter(rows[..i], None)
    {
      var row := rows[i];
      assert rows[..i + 1][..i] == rows[..i] && rows[..i + 1][i] == row;
      if DayBreakerClass in row.classes {
        if row.dateSpan.Some? {
          currentDate := Some(Strip(row.dateSpan.value));
        }
        continue;
      }
      if row.timeSpan.None? {
        continue;
      }
      var timeVal := Strip(row.timeSpan.value);
      var currency := if row.currencySpan.Some? then Strip(row.currencySpan.value) else "";
      var impact := if row.impactTitle.Some? then RemoveAll(row.impactTitle.value, ImpactSuffix) else "";
      var eventTitle := if row.eventTitleSpan.Some? then Strip(row.eventTitleSpan.value) else "";
      var actual := if row.actualSpan.Some? then Strip(row.actualSpan.value) else "";
      var forecast := if row.forecastSpan.Some? then Strip(row.forecastSpan.value) else "";
      var previous := if row.previousSpan.Some? then Strip(row.previousSpan.value) else "";
      data := data + [Record(currentDate, timeVal, currency, impact, eventTitle, actual, forecast, previous)];
    }
    assert rows[..|rows|] == rows;
  }

  /** There are exactly as many records as rows that yield one. */
  lemma {:induction false} RecordsLength(rows: seq<Row>, dateLabel: Option<string>)
    ensures |Records(rows, dateLabel)| == CountEmitting(rows)
  {
    if rows != [] {
      RecordsLength(rows[..|rows| - 1], dateLabel);
    }
  }

  /** The emitting row at index `i` yields the record at the position given
      by the number of emitting rows above it, stamped with the label in
      force just above it: records keep page order and their dates. */
  lemma {:induction false} RecordAt(rows: seq<Row>, dateLabel: Option<string>, i: nat)
    requires i < |rows| && Emits(rows[i])
    ensures CountEmitting(rows[..i]) < |Records(rows, dateLabel)|
    ensures Records(rows, dateLabel)[CountEmitting(rows[..i])]
      == RecordOf(rows[i], LabelAfter(rows[..i], dateLabel))
  {
    var prefix := rows[..|rows| - 1];
    RecordsLength(rows, dateLabel);
    if i == |rows| - 1 {
      RecordsLength(prefix, dateLabel);
      assert rows[..i] == prefix;
    } else {
      RecordAt(prefix, dateLabel, i);
      assert prefix[..i] == rows[..i] && prefix[i] == rows[i];
    }
  }

  /** A day-breaker yields nothing; it sets the label when it has a date
      span and otherwise leaves the label as it was. */
  lemma DayBreakerStep(rows: seq<Row>, row: Row, dateLabel: Option<string>)
    requires IsDayBreaker(row)
    ensures Records(rows + [row], dateLabel) == Records(rows, dateLabel)
    ensures LabelAfter(rows + [row], dateLabel)
      == if row.dateSpan.Some? then Some(Strip(row.dateSpan.value)) else LabelAfter(rows, dateLabel)
  {
    assert (rows + [row])[..|rows|] == rows;
  }

  /** Reading two stretches of rows one after the other: the second starts
      with the label the first leaves in force. */
  lemma {:induction false} RecordsAppend(xs: seq<Row>, ys: seq<Row>, dateLabel: Option<string>)
    ensures LabelAfter(xs + ys, dateLabel) == LabelAfter(ys, LabelAfter(xs, dateLabel))
    ensures Records(xs + ys, dateLabel) == Records(xs, dateLabel) + Records(ys, LabelAfter(xs, dateLabel))
  {
    if ys == [] {
      assert xs + ys == xs;
    } else {
      var ys' := ys[..|ys| - 1];
      assert (xs + ys)[..|xs + ys| - 1] == xs + ys';
      assert (xs + ys)[|xs + ys| - 1] == ys[|ys| - 1];
      RecordsAppend(xs, ys', dateLabel);
    }
  }

  /** Rows without a day-breaker yield one record per row with a time cell,
      all under the label in force before them. */
  lemma {:induction false} UnderOneLabel(rows: seq<Row>, dateLabel: Option<string>)
    requires forall k :: 0 <= k < |rows| ==> !IsDayBreaker(rows[k])
    ensures |Records(rows, dateLabel)| == CountEmitting(rows)
    ensures LabelAfter(rows, dateLabel) == dateLabel
    ensures forall r :: r in Records(rows, dateLabel) ==> r.date == dateLabel
  {
    RecordsLength(rows, dateLabel);
    if rows != [] {
      UnderOneLabel(rows[..|rows| - 1], dateLabel);
    }
  }

  /** A labelled day-breaker followed by rows without a day-breaker yields
      one record per following row with a time cell, all sharing the
      day-breaker's stripped label. */
  lemma DayBlock(db: Row, body: seq<Row>, dateLabel: Option<string>)
    requires IsDayBreaker(db) && db.dateSpan.Some?
    requires forall k :: 0 <= k < |body| ==> !IsDayBreaker(body[k])
    ensures var rs := Records([db] + body, dateLabel);
      && |rs| == CountEmitting(body)
      && forall r :: r in rs ==> r.date == Some(Strip(db.dateSpan.value))
  {
    DayBreakerStep([], db, dateLabel);
    assert [] + [db] == [db];
    RecordsAppend([db], body, dateLabel);
    UnderOneLabel(body, Some(Strip(db.dateSpan.value)));
  }

  /** An impact title of the form "<severity> Impact Expected" whose
      severity is one word gives that word. */
  lemma ImpactSeverity(word: string)
    requires forall k :: 0 <= k < |word| ==> word[k] != ' '
    ensures ImpactText(Some(word + ImpactSuffix)) == word
  {
    RemoveAllSuffix(word, ImpactSuffix);
  }

  /** A title without the phrase is kept as it is. */
  lemma ImpactWithoutPhrase(title: string)
    requires !Occurs(title, ImpactSuffix)
    ensures ImpactText(Some(title)) == title
  {
    RemoveAllAbsent(title, ImpactSuffix);
  }

  /** What the browser hands back for one page: its rows, or the error
      raised while loading it. */
  datatype Page = Rendered(rows: seq<Row>) | LoadError(message: string)

  /** What `future.result()` gives the main loop for one date: the list the
      task returned, or the exception it raised. */
  datatype TaskResult = Returned(records: seq<Record>) | Raised(message: string)

  /** The page address for a date key. */
  function CalendarUrl(dateKey: string): string
  {
    "https://www.forexfactory.com/calendar?day=" + dateKey
  }

  /** `scrape_forex_factory(date_str)`: `load` stands for the headless
      browser, which renders the page at an address or fails. */
  method ScrapeForexFactory(dateKey: string, load: string -> Page) returns (r: TaskResult)
    ensures var page := load(CalendarUrl(dateKey));
      && (page.Rendered? ==> r == Returned(Records(page.rows, None)))
      && (page.LoadError? ==> r == Raised(page.message))
  {
    var page := load(CalendarUrl(dateKey));
    match page
    case LoadError(message) =>
      r := Raised(message);
    case Rendered(rows) =>
      var data := ParseRows(rows);
      r := Returned(data);
  }
}
