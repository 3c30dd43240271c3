/** `scrape_timetable`: finds the page's column for the first candidate day
    that the page shows. A second-week column drops the first 12 period rows
    and moves back by 5; a first-week column reads every period row, the
    second week's included. One period is read per row from the cell in
    that column.

    `Scrape` and the functions under it are the specification;
    `ScrapeTimetable` is the step-by-step procedure, proved equal to it. */
module Scraper {
  import opened Optional
  import opened Seqs
  import opened Text
  import opened Calendar
  import opened Timetable

  /** Columns 0 to 4 are the first week's; later ones the second week's. */
  const LastFirstWeekColumn: nat := 4
  /** The period rows of the first week, dropped for a second-week column. */
  const FirstWeekRows: nat := 12
  /** The number of day columns per week. */
  const WeekColumns: nat := 5

  /** Positions in a class block's text nodes. */
  const SubjectNode: nat := 2
  const ClassIdNode: nat := 3
  const ClassroomNode: nat := 6
  const TeacherNode: nat := 8

  /** Why a run panics (an `unwrap` or a `drain` out of range) instead of
      returning. */
  datatype Panic =
    | DrainOutOfRange     // fewer rows than `rows.drain(0..12)` removes
    | MissingClassBlock   // no `div.timetable-class` in the selected cell
    | MissingTextNode     // fewer text nodes in that block than are read

  /** The result of one run: the day, the returned error, or a panic. */
  datatype Outcome = Done(day: Day) | DateNotFound | Panicked(reason: Panic)

  /** What one row contributes to the day. */
  datatype RowResult = Skip | Emit(period: Period) | Fail(reason: Panic)

  /** What a run of rows contributes: periods, or the first panic. */
  datatype RowsResult = Extracted(periods: seq<Period>) | RowsFailed(reason: Panic)

  /** The header text of the day `offset` days after `today`. */
  function DateText(today: Date, offset: int): string
    requires Valid(today)
  {
    Format(AddDays(today, offset))
  }

  /** The weekday name of the day `offset` days after `today`. */
  function WeekdayText(today: Date, offset: int): string
    requires Valid(today)
  {
    WeekdayName(Weekday(AddDays(today, offset)))
  }

  /** A hit of the locator: which offset matched, at which header. */
  datatype Match = Match(offsetIndex: nat, column: nat)

  /** The header text of each offset's day, in the caller's order. */
  function Candidates(today: Date, offsets: seq<int>): (c: seq<string>)
    requires Valid(today)
    ensures |c| == |offsets|
    ensures forall j :: 0 <= j < |offsets| ==> c[j] == DateText(today, offsets[j])
  {
    seq(|offsets|, j requires 0 <= j < |offsets| => DateText(today, offsets[j]))
  }

  /** The search from candidate `k` on. */
  function LocateFrom(headers: seq<string>, candidates: seq<string>, k: nat): (r: Option<Match>)
    requires k <= |candidates|
    ensures r.Some? ==> k <= r.value.offsetIndex < |candidates| && r.value.column < |headers|
    decreases |candidates| - k
  {
    if k == |candidates| then None
    else if candidates[k] in headers then Some(Match(k, FirstIndex(headers, candidates[k])))
    else LocateFrom(headers, candidates, k + 1)
  }

  /** The first offset, in the caller's order, whose date is among the
      headers, and the first header showing it. */
  function Locate(headers: seq<string>, offsets: seq<int>, today: Date): Option<Match>
    requires Valid(today)
  {
    LocateFrom(headers, Candidates(today, offsets), 0)
  }

  /** From candidate `k` on, the search finds the first candidate shown and
      its first header, and finds nothing exactly when none is shown. */
  lemma {:induction false} LocateFromFirst(headers: seq<string>, candidates: seq<string>, k: nat)
    requires k <= |candidates|
    ensures LocateFrom(headers, candidates, k).None? <==>
      forall j :: k <= j < |candidates| ==> candidates[j] !in headers
    ensures LocateFrom(headers, candidates, k).Some? ==>
      var m := LocateFrom(headers, candidates, k).value;
      headers[m.column] == candidates[m.offsetIndex] &&
      (forall j :: k <= j < m.offsetIndex ==> candidates[j] !in headers) &&
      (forall i :: 0 <= i < m.column ==> headers[i] != headers[m.column])
    decreases |candidates| - k
  {
    if k < |candidates| && candidates[k] !in headers {
      LocateFromFirst(headers, candidates, k + 1);
    }
  }

  /** Offset priority: the chosen column shows the date of the first offset
      that any header shows; no earlier offset is shown anywhere; no earlier
      header shows the same date. With no match, no offset is shown at all. */
  lemma LocateFirst(headers: seq<string>, offsets: seq<int>, today: Date)
    requires Valid(today)
    ensures Locate(headers, offsets, today).None? <==>
      forall j :: 0 <= j < |offsets| ==> DateText(today, offsets[j]) !in headers
    ensures Locate(headers, offsets, today).Some? ==>
      var m := Locate(headers, offsets, today).value;
      m.offsetIndex < |offsets| && m.column < |headers| &&
      headers[m.column] == DateText(today, offsets[m.offsetIndex]) &&
      (forall j :: 0 <= j < m.offsetIndex ==> DateText(today, offsets[j]) !in headers) &&
      (forall i :: 0 <= i < m.column ==> headers[i] != headers[m.column])
  {
    LocateFromFirst(headers, Candidates(today, offsets), 0);
  }

  /** The period read from a class block: the trimmed text nodes at the
      subject, class id, classroom and teacher positions. */
  function ClassPeriod(texts: seq<string>, periodNumber: string): Period
    requires |texts| > TeacherNode
  {
    Period(Trim(texts[SubjectNode]), Trim(texts[ClassroomNode]),
      Trim(texts[ClassIdNode]), Trim(texts[TeacherNode]), periodNumber)
  }

  /** Each field of a class block's period is the text node at its position
      with whitespace, and only whitespace, cut from both ends. */
  lemma ClassPeriodTrimmed(texts: seq<string>, periodNumber: string)
    requires |texts| > TeacherNode
    ensures var p := ClassPeriod(texts, periodNumber);
      TrimmedFrom(p.subject, texts[SubjectNode]) && TrimmedFrom(p.classId, texts[ClassIdNode]) &&
      TrimmedFrom(p.classroom, texts[ClassroomNode]) && TrimmedFrom(p.teacher, texts[TeacherNode])
  {
    TrimIsInnerSlice(texts[SubjectNode]);
    TrimIsInnerSlice(texts[ClassIdNode]);
    TrimIsInnerSlice(texts[ClassroomNode]);
    TrimIsInnerSlice(texts[TeacherNode]);
  }

  /** `field` is `text` with whitespace cut from both ends, and does not
      itself begin or end with whitespace. */
  predicate TrimmedFrom(field: string, text: string)
  {
    exists i, j :: 0 <= i <= j <= |text| && field == text[i..j] &&
      AllWhitespace(text[..i]) && AllWhitespace(text[j..]) &&
      (field == [] || (!IsWhitespace(field[0]) && !IsWhitespace(field[|field| - 1])))
  }

  /** What the selected day cell gives: the placeholder when it is inactive;
      otherwise the period of its class block, or a panic when that block or
      its text nodes are missing. */
  function CellResult(cell: Node, periodNumber: string): (r: RowResult)
    requires cell.Element?
    ensures !r.Skip?
    ensures r.Fail? <==>
      "inactive" !in cell.classes && (cell.classBlock.None? || |cell.classBlock.value| <= TeacherNode)
    ensures r.Fail? ==>
      r.reason == if cell.classBlock.None? then MissingClassBlock else MissingTextNode
    ensures r.Emit? ==> r.period.periodNumber == periodNumber
    ensures "inactive" in cell.classes ==> r.Emit? && IsPlaceholder(r.period)
    ensures "inactive" !in cell.classes && r.Emit? ==>
      var texts := cell.classBlock.value;
      TrimmedFrom(r.period.subject, texts[SubjectNode]) &&
      TrimmedFrom(r.period.classId, texts[ClassIdNode]) &&
      TrimmedFrom(r.period.classroom, texts[ClassroomNode]) &&
      TrimmedFrom(r.period.teacher, texts[TeacherNode])
  {
    if "inactive" in cell.classes then Emit(NonePeriod(periodNumber))
    else match cell.classBlock
      case None => Fail(MissingClassBlock)
      case Some(texts) =>
        if |texts| <= TeacherNode then Fail(MissingTextNode)
        else
          ClassPeriodTrimmed(texts, periodNumber);
          Emit(ClassPeriod(texts, periodNumber))
  }

  /** What one period row contributes: nothing when it has no day cell at
      `column`, otherwise what that cell gives, labelled with the row's first
      period label, trimmed. */
  function ExtractRow(row: Row, column: nat): (r: RowResult)
    requires IsPeriodRow(row)
    ensures r.Skip? <==> |DayCells(row)| <= column
    ensures r.Emit? ==> r.period.periodNumber == Trim(row.periodLabels[0])
  {
    var cells := DayCells(row);
    if |cells| <= column then Skip
    else CellResult(cells[column], Trim(row.periodLabels[0]))
  }

  predicate AllPeriodRows(rows: seq<Row>)
  {
    forall i :: 0 <= i < |rows| ==> IsPeriodRow(rows[i])
  }

  /** What one row's result adds to a run of rows. */
  function Contribution(r: RowResult): RowsResult
  {
    match r
    case Skip => Extracted([])
    case Emit(p) => Extracted([p])
    case Fail(k) => RowsFailed(k)
  }

  /** The result for two runs of rows one after the other: the first panic
      wins, otherwise the periods are concatenated. */
  function Then(first: RowsResult, second: RowsResult): RowsResult
  {
    match first
    case RowsFailed(k) => RowsFailed(k)
    case Extracted(ps) =>
      match second
      case RowsFailed(k) => RowsFailed(k)
      case Extracted(qs) => Extracted(ps + qs)
  }

  /** The rows' contributions in row order, stopping at the first panic. */
  function ExtractPeriods(rows: seq<Row>, column: nat): (r: RowsResult)
    requires AllPeriodRows(rows)
    ensures r.Extracted? ==> |r.periods| <= |rows|
  {
    if |rows| == 0 then Extracted([])
    else Then(ExtractPeriods(rows[..|rows| - 1], column), Contribution(ExtractRow(rows[|rows| - 1], column)))
  }

  /** Extracting one more row. */
  lemma ExtractPeriodsSnoc(rows: seq<Row>, n: nat, column: nat)
    requires AllPeriodRows(rows) && n < |rows|
    ensures ExtractPeriods(rows[..n + 1], column) ==
      Then(ExtractPeriods(rows[..n], column), Contribution(ExtractRow(rows[n], column)))
  {
    assert rows[..n + 1][..n] == rows[..n];
  }

  lemma ThenAssociative(x: RowsResult, y: RowsResult, z: RowsResult)
    ensures Then(Then(x, y), z) == Then(x, Then(y, z))
  {
    if x.Extracted? && y.Extracted? && z.Extracted? {
      assert x.periods + y.periods + z.periods == x.periods + (y.periods + z.periods);
    }
  }

  /** Extraction follows row order: the periods of `a + b` are those of `a`
      followed by those of `b`, and the first panic in row order wins. */
  lemma {:induction false} ExtractPeriodsAppend(a: seq<Row>, b: seq<Row>, column: nat)
    requires AllPeriodRows(a) && AllPeriodRows(b)
    ensures AllPeriodRows(a + b)
    ensures ExtractPeriods(a + b, column) == Then(ExtractPeriods(a, column), ExtractPeriods(b, column))
    decreases |b|
  {
    if |b| == 0 {
      assert a + b == a;
      match ExtractPeriods(a, column) {
        case RowsFailed(_) =>
        case Extracted(ps) => assert ps + [] == ps;
      }
    } else {
      var b' := b[..|b| - 1];
      assert (a + b)[..|a + b| - 1] == a + b';
      assert (a + b)[|a + b| - 1] == b[|b| - 1];
      ExtractPeriodsAppend(a, b', column);
      ThenAssociative(ExtractPeriods(a, column), ExtractPeriods(b', column),
        Contribution(ExtractRow(b[|b| - 1], column)));
    }
  }

  /** A panic in the first `n` rows is the panic of all of them. */
  lemma ExtractPeriodsPrefixFails(rows: seq<Row>, n: nat, column: nat)
    requires AllPeriodRows(rows) && n <= |rows|
    requires ExtractPeriods(rows[..n], column).RowsFailed?
    ensures ExtractPeriods(rows, column) == ExtractPeriods(rows[..n], column)
  {
    ExtractPeriodsAppend(rows[..n], rows[n..], column);
    assert rows[..n] + rows[n..] == rows;
  }

  /** Every extracted period is what some row, in order, contributes. */
  lemma {:induction false} ExtractPeriodsFromRows(rows: seq<Row>, column: nat)
    requires AllPeriodRows(rows)
    ensures ExtractPeriods(rows, column).Extracted? ==>
      EachFromRow(ExtractPeriods(rows, column).periods, rows, 0, column)
    decreases |rows|
  {
    if |rows| > 0 {
      var front := rows[..|rows| - 1];
      ExtractPeriodsFromRows(front, column);
      if ExtractPeriods(rows, column).Extracted? {
        forall p | p in ExtractPeriods(rows, column).periods
          ensures exists i :: 0 <= i < |rows| && ExtractRow(rows[i], column) == Emit(p)
        {
          if p in ExtractPeriods(front, column).periods {
            var i :| 0 <= i < |front| && ExtractRow(front[i], column) == Emit(p);
            assert rows[i] == front[i];
          } else {
            assert ExtractRow(rows[|rows| - 1], column) == Emit(p);
          }
        }
      }
    }
  }

  /** No row from position `n` on panics at `column`. */
  predicate NoPanicFrom(rows: seq<Row>, n: nat, column: nat)
    requires AllPeriodRows(rows)
  {
    forall i :: n <= i < |rows| ==> !ExtractRow(rows[i], column).Fail?
  }

  /** Each of `ps` is the period some row from position `n` on gives. */
  predicate EachFromRow(ps: seq<Period>, rows: seq<Row>, n: nat, column: nat)
    requires AllPeriodRows(rows)
  {
    forall p :: p in ps ==> exists i :: n <= i < |rows| && ExtractRow(rows[i], column) == Emit(p)
  }

  /** Every row from position `n` on that gives a period has it among `ps`. */
  predicate EachRowIn(ps: seq<Period>, rows: seq<Row>, n: nat, column: nat)
    requires AllPeriodRows(rows)
  {
    forall i :: n <= i < |rows| && ExtractRow(rows[i], column).Emit? ==>
      ExtractRow(rows[i], column).period in ps
  }

  lemma PeriodRowsPrefix(rows: seq<Row>, n: nat)
    requires AllPeriodRows(rows) && n <= |rows|
    ensures AllPeriodRows(rows[..n])
  {
  }

  lemma NoPanicSnoc(rows: seq<Row>, column: nat)
    requires AllPeriodRows(rows) && |rows| > 0
    ensures NoPanicFrom(rows, 0, column) <==>
      NoPanicFrom(rows[..|rows| - 1], 0, column) && !ExtractRow(rows[|rows| - 1], column).Fail?
  {
    var front := rows[..|rows| - 1];
    forall i | 0 <= i < |front|
      ensures front[i] == rows[i]
    {
    }
  }

  /** The rows give periods exactly when no row panics. */
  lemma {:induction false} ExtractPeriodsNoPanic(rows: seq<Row>, column: nat)
    requires AllPeriodRows(rows)
    ensures ExtractPeriods(rows, column).Extracted? <==> NoPanicFrom(rows, 0, column)
    decreases |rows|
  {
    if |rows| > 0 {
      var n := |rows| - 1;
      PeriodRowsPrefix(rows, n);
      ExtractPeriodsNoPanic(rows[..n], column);
      ThenContributionExtracted(ExtractPeriods(rows[..n], column), ExtractRow(rows[n], column));
      NoPanicSnoc(rows, column);
    }
  }

  lemma ThenContributionExtracted(x: RowsResult, r: RowResult)
    ensures Then(x, Contribution(r)).Extracted? <==> x.Extracted? && !r.Fail?
  {
  }

  /** Every row is read, in order: the result is that of the rows before
      row `i`, then row `i`'s own contribution, then that of the rows after. */
  lemma ExtractPeriodsSplitAt(rows: seq<Row>, i: nat, column: nat)
    requires AllPeriodRows(rows) && i < |rows|
    ensures ExtractPeriods(rows, column) ==
      Then(Then(ExtractPeriods(rows[..i], column), Contribution(ExtractRow(rows[i], column))),
        ExtractPeriods(rows[i + 1..], column))
  {
    var one := [rows[i]];
    var before, after := rows[..i], rows[i + 1..];
    assert rows == before + (one + after);
    assert one + after == rows[i..];
    ExtractPeriodsAppend(before, one + after, column);
    ExtractPeriodsAppend(one, after, column);
    assert one[..0] == [];
    var c := Contribution(ExtractRow(rows[i], column));
    assert ExtractPeriods(one, column) == c by {
      if c.Extracted? { assert [] + c.periods == c.periods; }
    }
    ThenAssociative(ExtractPeriods(before, column), c, ExtractPeriods(after, column));
  }

  /** What the run produces once the day's column is known: a column past the
      first week drops the first week's 12 rows (a panic when there are fewer)
      and moves back by 5; then the rows are read at that column. */
  function ReadDay(rows: seq<Row>, column: nat, date: string, weekday: string): Outcome
    requires AllPeriodRows(rows)
  {
    if column > LastFirstWeekColumn && |rows| < FirstWeekRows then Panicked(DrainOutOfRange)
    else
      var kept := if column > LastFirstWeekColumn then rows[FirstWeekRows..] else rows;
      var col := if column > LastFirstWeekColumn then column - WeekColumns else column;
      match ExtractPeriods(kept, col)
      case RowsFailed(k) => Panicked(k)
      case Extracted(ps) => Done(Day(date, weekday, ps))
  }

  /** `scrape_timetable` on a page, a list of offsets and the current date. */
  function Scrape(doc: Document, offsets: seq<int>, today: Date): Outcome
    requires Valid(today)
  {
    var headers := DateHeaders(doc);
    match Locate(headers, offsets, today)
    case None => DateNotFound
    case Some(m) =>
      ReadDay(PeriodRows(doc), m.column, headers[m.column], WeekdayText(today, offsets[m.offsetIndex]))
  }

  /** The '/' filter on the headers never hides a candidate date. */
  lemma CandidateShownIffInDateCells(doc: Document, today: Date, offset: int)
    requires Valid(today)
    ensures DateText(today, offset) in DateHeaders(doc) <==> DateText(today, offset) in doc.dateCells
  {
    FormatHasSlash(AddDays(today, offset));
    DateHeadersAreDateCells(doc, []);
  }

  /** The run returns the error, and produces no day, exactly when no
      candidate date is among the page's date cells. */
  lemma ScrapeNotFound(doc: Document, offsets: seq<int>, today: Date)
    requires Valid(today)
    ensures Scrape(doc, offsets, today) == DateNotFound <==>
      forall j :: 0 <= j < |offsets| ==> DateText(today, offsets[j]) !in doc.dateCells
  {
    LocateFirst(DateHeaders(doc), offsets, today);
    forall j | 0 <= j < |offsets| {
      CandidateShownIffInDateCells(doc, today, offsets[j]);
    }
  }

  /** A produced day carries the page's text for the first offset whose date
      the page shows, and the weekday computed from that offset, not read
      from the page. */
  lemma ScrapeDate(doc: Document, offsets: seq<int>, today: Date)
    requires Valid(today)
    ensures Scrape(doc, offsets, today).Done? ==>
      var day := Scrape(doc, offsets, today).day;
      day.date in doc.dateCells &&
      exists k :: 0 <= k < |offsets| &&
        day.date == DateText(today, offsets[k]) &&
        day.weekday == WeekdayText(today, offsets[k]) &&
        forall j :: 0 <= j < k ==> DateText(today, offsets[j]) !in doc.dateCells
  {
    var headers := DateHeaders(doc);
    LocateFirst(headers, offsets, today);
    DateHeadersAreDateCells(doc, []);
    if Scrape(doc, offsets, today).Done? {
      var m := Locate(headers, offsets, today).value;
      forall j | 0 <= j < m.offsetIndex
        ensures DateText(today, offsets[j]) !in doc.dateCells
      {
        CandidateShownIffInDateCells(doc, today, offsets[j]);
      }
    }
  }

  /** A first-week column reads every period row at that column: the day is
      produced exactly when no row panics; each period comes from one row,
      and every row whose cell gives a period puts it in the day. */
  lemma ReadDayFirstWeek(rows: seq<Row>, column: nat, date: string, weekday: string)
    requires AllPeriodRows(rows)
    ensures column <= LastFirstWeekColumn ==>
      (ReadDay(rows, column, date, weekday).Done? <==> NoPanicFrom(rows, 0, column))
    ensures column <= LastFirstWeekColumn ==>
      ReadDay(rows, column, date, weekday).Done? ==>
        var ps := ReadDay(rows, column, date, weekday).day.periods;
        |ps| <= |rows| && EachFromRow(ps, rows, 0, column) && EachRowIn(ps, rows, 0, column)
  {
    if column <= LastFirstWeekColumn {
      ExtractPeriodsNoPanic(rows, column);
      ExtractPeriodsMembership(rows, column);
    }
  }

  /** Draining the first week's 12 rows panics when there are fewer. */
  lemma ReadDayDrainPanics(rows: seq<Row>, column: nat, date: string, weekday: string)
    requires AllPeriodRows(rows)
    ensures column > LastFirstWeekColumn && |rows| < FirstWeekRows ==>
      ReadDay(rows, column, date, weekday) == Panicked(DrainOutOfRange)
  {
  }

  /** Two-block rebasing: with at least 12 period rows, a second-week column
      reads only the rows after the first 12, with the column moved back by
      5. The day is produced exactly when none of those rows panics; each
      period comes from one of them, and every one of them whose cell gives
      a period puts it in the day. For columns 5 to 9 this is the
      first-week reading of the rows after the first 12 at the column minus
      5, so the rows keep their order there. */
  lemma ReadDayRebasing(rows: seq<Row>, column: nat, date: string, weekday: string)
    requires AllPeriodRows(rows)
    ensures LastFirstWeekColumn < column <= LastFirstWeekColumn + WeekColumns && |rows| >= FirstWeekRows ==>
      AllPeriodRows(rows[FirstWeekRows..]) &&
      ReadDay(rows, column, date, weekday) ==
        ReadDay(rows[FirstWeekRows..], column - WeekColumns, date, weekday)
    ensures column > LastFirstWeekColumn && |rows| >= FirstWeekRows ==>
      (ReadDay(rows, column, date, weekday).Done? <==>
        NoPanicFrom(rows, FirstWeekRows, column - WeekColumns))
    ensures column > LastFirstWeekColumn && |rows| >= FirstWeekRows ==>
      ReadDay(rows, column, date, weekday).Done? ==>
        var ps := ReadDay(rows, column, date, weekday).day.periods;
        |ps| <= |rows| - FirstWeekRows &&
        EachFromRow(ps, rows, FirstWeekRows, column - WeekColumns) &&
        EachRowIn(ps, rows, FirstWeekRows, column - WeekColumns)
  {
    if column > LastFirstWeekColumn && |rows| >= FirstWeekRows {
      SecondWeekReads(rows, column, date, weekday);
      if column <= LastFirstWeekColumn + WeekColumns {
        SecondWeekIsRest(rows, column, date, weekday);
      }
    }
  }

  lemma SecondWeekReads(rows: seq<Row>, column: nat, date: string, weekday: string)
    requires AllPeriodRows(rows) && column > LastFirstWeekColumn && |rows| >= FirstWeekRows
    ensures ReadDay(rows, column, date, weekday).Done? <==>
      NoPanicFrom(rows, FirstWeekRows, column - WeekColumns)
    ensures ReadDay(rows, column, date, weekday).Done? ==>
      var ps := ReadDay(rows, column, date, weekday).day.periods;
      |ps| <= |rows| - FirstWeekRows &&
      EachFromRow(ps, rows, FirstWeekRows, column - WeekColumns) &&
      EachRowIn(ps, rows, FirstWeekRows, column - WeekColumns)
  {
    SecondWeekKept(rows, column, date, weekday);
    SuffixReads(rows, FirstWeekRows, column - WeekColumns);
  }

  lemma SecondWeekIsRest(rows: seq<Row>, column: nat, date: string, weekday: string)
    requires AllPeriodRows(rows) && |rows| >= FirstWeekRows
    requires LastFirstWeekColumn < column <= LastFirstWeekColumn + WeekColumns
    ensures AllPeriodRows(rows[FirstWeekRows..])
    ensures ReadDay(rows, column, date, weekday) ==
      ReadDay(rows[FirstWeekRows..], column - WeekColumns, date, weekday)
  {
  }

  lemma SecondWeekKept(rows: seq<Row>, column: nat, date: string, weekday: string)
    requires AllPeriodRows(rows) && column > LastFirstWeekColumn && |rows| >= FirstWeekRows
    ensures var r := ExtractPeriods(rows[FirstWeekRows..], column - WeekColumns);
      ReadDay(rows, column, date, weekday) ==
        if r.RowsFailed? then Panicked(r.reason) else Done(Day(date, weekday, r.periods))
  {
  }

  /** The rows from `n` on, read at one column, with positions counted in
      all of `rows`. */
  lemma SuffixReads(rows: seq<Row>, n: nat, column: nat)
    requires AllPeriodRows(rows) && n <= |rows|
    ensures ExtractPeriods(rows[n..], column).Extracted? <==> NoPanicFrom(rows, n, column)
    ensures ExtractPeriods(rows[n..], column).Extracted? ==>
      var ps := ExtractPeriods(rows[n..], column).periods;
      |ps| <= |rows| - n && EachFromRow(ps, rows, n, column) && EachRowIn(ps, rows, n, column)
  {
    var kept := rows[n..];
    ExtractPeriodsNoPanic(kept, column);
    ExtractPeriodsMembership(kept, column);
    forall i | n <= i < |rows|
      ensures rows[i] == kept[i - n]
    {
    }
    if ExtractPeriods(kept, column).Extracted? {
      var ps := ExtractPeriods(kept, column).periods;
      forall p | p in ps
        ensures exists i :: n <= i < |rows| && ExtractRow(rows[i], column) == Emit(p)
      {
        var i :| 0 <= i < |kept| && ExtractRow(kept[i], column) == Emit(p);
        assert rows[n + i] == kept[i];
      }
      assert EachRowIn(ps, kept, 0, column);
    }
  }

  /** The periods of rows read at one column are exactly theirs: each
      period comes from some row, and each row's period is among them. */
  lemma ExtractPeriodsMembership(rows: seq<Row>, column: nat)
    requires AllPeriodRows(rows)
    ensures ExtractPeriods(rows, column).Extracted? ==>
      var ps := ExtractPeriods(rows, column).periods;
      EachFromRow(ps, rows, 0, column) && EachRowIn(ps, rows, 0, column)
  {
    ExtractPeriodsFromRows(rows, column);
    if ExtractPeriods(rows, column).Extracted? {
      var ps := ExtractPeriods(rows, column).periods;
      forall i | 0 <= i < |rows| && ExtractRow(rows[i], column).Emit?
        ensures ExtractRow(rows[i], column).period in ps
      {
        ExtractPeriodsSplitAt(rows, i, column);
        var p := ExtractRow(rows[i], column).period;
        var q := Then(ExtractPeriods(rows[..i], column), Contribution(ExtractRow(rows[i], column)));
        assert q.Extracted? && q.periods == ExtractPeriods(rows[..i], column).periods + [p];
        assert ps[|q.periods| - 1] == p;
      }
    }
  }

  /** A second-week column never reads the first week's 12 rows: replacing
      them changes nothing. */
  lemma FirstWeekIgnored(first: seq<Row>, other: seq<Row>, rest: seq<Row>, column: nat,
      date: string, weekday: string)
    requires |first| == FirstWeekRows && |other| == FirstWeekRows
    requires AllPeriodRows(first + rest) && AllPeriodRows(other + rest)
    requires column > LastFirstWeekColumn
    ensures ReadDay(first + rest, column, date, weekday) == ReadDay(other + rest, column, date, weekday)
  {
    assert (first + rest)[FirstWeekRows..] == rest;
    assert (other + rest)[FirstWeekRows..] == rest;
  }

  /** The labelled date loop: for each offset in order, the day's text is
      compared with each header in order, and the first equal header ends
      both loops. */
  method LocateColumn(dates: seq<string>, offsetVec: seq<int>, today: Date)
    returns (dayNumber: Option<nat>, timetableDate: Option<string>, timetableDateDay: Option<string>)
    requires Valid(today)
    ensures dayNumber.None? <==> Locate(dates, offsetVec, today).None?
    ensures dayNumber.None? ==> timetableDate.None? && timetableDateDay.None?
    ensures dayNumber.Some? ==>
      var m := Locate(dates, offsetVec, today).value;
      dayNumber.value == m.column && timetableDate == Some(dates[m.column]) &&
      timetableDateDay == Some(WeekdayText(today, offsetVec[m.offsetIndex]))
  {
    dayNumber, timetableDate, timetableDateDay := None, None, None;
    ghost var candidates := Candidates(today, offsetVec);
    ghost var located := LocateFrom(dates, candidates, 0);
    var k := 0;
    label dateLoop:
    while k < |offsetVec|
      invariant k <= |offsetVec|
      invariant dayNumber.None? && timetableDate.None? && timetableDateDay.None?
      invariant located == LocateFrom(dates, candidates, k)
    {
      var currentDate := AddDays(today, offsetVec[k]);
      var currentDateStr := Format(currentDate);
      assert currentDateStr == candidates[k];
      var i := 0;
      while i < |dates|
        invariant i <= |dates|
        invariant forall j :: 0 <= j < i ==> dates[j] != currentDateStr
      {
        if dates[i] == currentDateStr {
          dayNumber := Some(i);
          timetableDate := Some(dates[i]);
          timetableDateDay := Some(WeekdayName(Weekday(currentDate)));
          FirstIndexAt(dates, currentDateStr, i);
          assert located == Some(Match(k, i));
          break dateLoop;
        }
        i := i + 1;
      }
      k := k + 1;
    }
  }

  /** The day cell reached after `j` children, `column` day cells having
      gone before it, is the one the row's result comes from. */
  lemma SelectedCell(row: Row, j: nat, column: nat)
    requires IsPeriodRow(row) && j < |row.children| && IsDayCell(row.children[j])
    requires |Filter(row.children[..j], IsDayCell)| == column
    ensures ExtractRow(row, column) == CellResult(row.children[j], Trim(row.periodLabels[0]))
  {
    FilterSnoc(row.children, j, IsDayCell);
    FilterPrefix(row.children, j + 1, IsDayCell);
  }

  /** A row whose children hold at most `column` day cells gives nothing. */
  lemma TooFewCells(row: Row, column: nat)
    requires IsPeriodRow(row)
    requires |DayCells(row)| <= column
    ensures ExtractRow(row, column) == Skip
  {
  }

  /** The walk over one row's children: element children without the
      `timetable-period` class are counted, and the one at `column` is read.
      The walk stops there, which is where the row loop would `continue` or
      go on without effect. */
  method WalkRow(element: Row, column: nat, periodNumber: string) returns (cell: RowResult)
    requires IsPeriodRow(element) && periodNumber == Trim(element.periodLabels[0])
    ensures cell == ExtractRow(element, column)
  {
    var seen := 0;
    var j := 0;
    while j < |element.children|
      invariant j <= |element.children|
      invariant seen == |Filter(element.children[..j], IsDayCell)| <= column
    {
      var child := element.children[j];
      FilterSnoc(element.children, j, IsDayCell);
      if IsDayCell(child) {
        if seen == column {
          SelectedCell(element, j, column);
          if "inactive" in child.classes {
            return Emit(NonePeriod(periodNumber));
          }
          match child.classBlock {
            case None =>
              return Fail(MissingClassBlock);
            case Some(texts) =>
              if |texts| <= TeacherNode {
                return Fail(MissingTextNode);
              }
              var className := Trim(texts[SubjectNode]);
              var classId := Trim(texts[ClassIdNode]);
              var classRoom := Trim(texts[ClassroomNode]);
              var teacher := Trim(texts[TeacherNode]);
              return Emit(Period(className, classRoom, classId, teacher, periodNumber));
          }
        }
        seen := seen + 1;
      }
      j := j + 1;
    }
    assert element.children[..j] == element.children;
    TooFewCells(element, column);
    return Skip;
  }

  /** The row loop: each row's first label, trimmed, then the row's
      contribution pushed, or the run ended by a panic. */
  method ExtractRows(rows: seq<Row>, column: nat) returns (r: RowsResult)
    requires AllPeriodRows(rows)
    ensures r == ExtractPeriods(rows, column)
  {
    var res: seq<Period> := [];
    var n := 0;
    while n < |rows|
      invariant n <= |rows|
      invariant ExtractPeriods(rows[..n], column) == Extracted(res)
    {
      var element := rows[n];
      ExtractPeriodsSnoc(rows, n, column);
      n := n + 1;
      var periodNumber := Trim(element.periodLabels[0]);
      var cell := WalkRow(element, column, periodNumber);
      match cell {
        case Skip =>
        case Emit(period) =>
          res := res + [period];
        case Fail(reason) =>
          ExtractPeriodsPrefixFails(rows, n, column);
          return RowsFailed(reason);
      }
    }
    assert rows[..n] == rows;
    r := Extracted(res);
  }

  /** The rebasing and the row loop, once the column is located. */
  method ReadRows(periodRows: seq<Row>, dayNumber: nat, date: string, weekday: string)
    returns (r: Outcome)
    requires AllPeriodRows(periodRows)
    ensures r == ReadDay(periodRows, dayNumber, date, weekday)
  {
    var rows := periodRows;
    var column := dayNumber;
    if column > LastFirstWeekColumn {
      if |rows| < FirstWeekRows {
        return Panicked(DrainOutOfRange);
      }
      rows := rows[FirstWeekRows..];
      column := column - WeekColumns;
    }
    var res := ExtractRows(rows, column);
    match res {
      case RowsFailed(k) => r := Panicked(k);
      case Extracted(periods) => r := Done(Day(date, weekday, periods));
    }
  }

  /** `scrape_timetable`: the date loop, then the rebasing and row loop. */
  method ScrapeTimetable(doc: Document, offsetVec: seq<int>, today: Date) returns (r: Outcome)
    requires Valid(today)
    ensures r == Scrape(doc, offsetVec, today)
  {
    var rows := PeriodRows(doc);
    var dates := DateHeaders(doc);

    var dayNumber, timetableDate, timetableDateDay := LocateColumn(dates, offsetVec, today);
    if dayNumber.None? {
      return DateNotFound;
    }
    r := ReadRows(rows, dayNumber.value, timetableDate.value, timetableDateDay.value);
  }
}
