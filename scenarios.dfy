/** Concrete runs of the scraper on a small two-week page. */
module Scenarios {
  import opened Optional
  import opened Seqs
  import opened Text
  import opened Calendar
  import opened Timetable
  import opened Scraper

  /** The date headers of a two-week page, preceded by a day-name cell that
      the '/' filter drops. */
  function TwoWeekCells(): seq<string>
  {
    ["Week A", "05/03/2024", "06/03/2024", "07/03/2024", "08/03/2024", "09/03/2024",
     "12/03/2024", "13/03/2024", "14/03/2024", "15/03/2024", "16/03/2024"]
  }

  function TwoWeekHeaders(): seq<string>
  {
    TwoWeekCells()[1..]
  }

  /** Only the day-name cell is dropped by the '/' filter. */
  lemma TwoWeekHeadersFiltered()
    ensures DateHeaders(Document(TwoWeekCells(), [])) == TwoWeekHeaders()
  {
    var cells := TwoWeekCells();
    assert !IsDateHeader(cells[0]) by {
      forall i | 0 <= i < |cells[0]| ensures cells[0][i] != '/' { }
    }
    forall i | 1 <= i < |cells| ensures IsDateHeader(cells[i]) {
      assert cells[i][2] == '/';
    }
    assert cells == [cells[0]] + cells[1..];
    FilterAppend([cells[0]], cells[1..], IsDateHeader);
    FilterAll(cells[1..], IsDateHeader);
  }

  /** 2024-03-07 and 2024-03-14 are Thursdays. */
  lemma ThursdaysOfMarch()
    ensures Weekday(Date(2024, 3, 7)) == 3
    ensures Weekday(Date(2024, 3, 14)) == 3
  {
    assert LeapYearsBefore(2024) == 490;
  }

  /** The day after 2024-03-06 is shown as "07/03/2024". */
  lemma DayAfterMarchSixth()
    ensures AddDays(Date(2024, 3, 6), 1) == Date(2024, 3, 7)
    ensures DateText(Date(2024, 3, 6), 1) == "07/03/2024"
    ensures WeekdayText(Date(2024, 3, 6), 1) == "Thu"
  {
    assert AddDays(Date(2024, 3, 6), 1) == AddDays(Date(2024, 3, 7), 0);
    ThursdaysOfMarch();
  }

  /** Today 2024-03-06 with offsets [1, 2, 3]: offset 1, tomorrow, is the
      first offset shown, at header 2. */
  lemma LocateWeekOne()
    ensures Locate(TwoWeekHeaders(), [1, 2, 3], Date(2024, 3, 6)) == Some(Match(0, 2))
  {
    var headers := TwoWeekHeaders();
    var today := Date(2024, 3, 6);
    DayAfterMarchSixth();
    var candidates := Candidates(today, [1, 2, 3]);
    assert candidates[0] == "07/03/2024" == headers[2];
    assert headers[0] != headers[2] && headers[1] != headers[2];
    FirstIndexAt(headers, candidates[0], 2);
  }

  /** The day after 2024-03-13 is shown as "14/03/2024". */
  lemma DayAfterMarchThirteenth()
    ensures DateText(Date(2024, 3, 13), 1) == "14/03/2024"
    ensures WeekdayText(Date(2024, 3, 13), 1) == "Thu"
  {
    assert AddDays(Date(2024, 3, 13), 1) == AddDays(Date(2024, 3, 14), 0);
    ThursdaysOfMarch();
  }

  /** Today 2024-03-13 with offsets [1, 2, 3]: offset 1 finds "14/03/2024"
      at header 7, a second-week column. */
  lemma LocateWeekTwo()
    ensures Locate(TwoWeekHeaders(), [1, 2, 3], Date(2024, 3, 13)) == Some(Match(0, 7))
  {
    var headers := TwoWeekHeaders();
    var today := Date(2024, 3, 13);
    DayAfterMarchThirteenth();
    var candidates := Candidates(today, [1, 2, 3]);
    var shown := headers[7];
    assert candidates[0] == "14/03/2024" == shown;
    assert shown[1] == '4';
    assert headers[0][1] != '4' && headers[1][1] != '4' && headers[2][1] != '4' && headers[3][1] != '4';
    assert headers[4][1] != '4' && headers[5][1] != '4' && headers[6][1] != '4';
    FirstIndexAt(headers, shown, 7);
  }

  /** A period row labelled " 1 ": its label cell, then five day cells of
      which the third is inactive. */
  function InactiveRow(): Row
  {
    var day := Element({"timetable-day"}, None);
    Row([" 1 "], [TextNode("\n"), Element({"timetable-period"}, None),
      day, day, Element({"timetable-day", "inactive"}, None), day, day])
  }

  /** A period row labelled "2" whose third day cell holds a class block. */
  function ClassRow(): Row
  {
    var day := Element({"timetable-day"}, None);
    var block := ["\n", "10MAT", " Mathematics ", "10MAT.2", "\n", "\n", " R12 ", "\n", " Ms Lee "];
    Row(["2"], [Element({"timetable-period"}, None), day, day,
      Element({"timetable-day"}, Some(block)), day, day])
  }

  /** The page, with `rows` as its table rows. */
  function Page(rows: seq<Row>): Document
  {
    Document(TwoWeekCells(), rows)
  }

  /** Column 2 of `InactiveRow` is its fifth child, the inactive cell. */
  lemma InactiveRowSelects()
    ensures ExtractRow(InactiveRow(), 2) == CellResult(InactiveRow().children[4], Trim(" 1 "))
  {
    var row := InactiveRow();
    var cs := row.children;
    FilterSnoc(cs, 0, IsDayCell);
    FilterSnoc(cs, 1, IsDayCell);
    FilterSnoc(cs, 2, IsDayCell);
    FilterSnoc(cs, 3, IsDayCell);
    assert |Filter(cs[..4], IsDayCell)| == 2;
    SelectedCell(row, 4, 2);
  }

  /** An inactive cell at the located column gives the placeholder, keeping
      the row's label, trimmed. */
  lemma InactiveCellScenario()
    ensures ExtractRow(InactiveRow(), 2) == Emit(NonePeriod("1"))
  {
    InactiveRowSelects();
    assert Trim(" 1 ") == "1";
    assert "inactive" in InactiveRow().children[4].classes;
  }

  /** The text nodes of the class block, trimmed. */
  lemma BlockTrims()
    ensures Trim(" Mathematics ") == "Mathematics"
    ensures Trim(" R12 ") == "R12"
    ensures Trim("10MAT.2") == "10MAT.2"
    ensures Trim(" Ms Lee ") == "Ms Lee"
  {
    TrimFixed("Mathematics");
    TrimFixed("R12");
    TrimFixed("10MAT.2");
    TrimFixed("Ms Lee");
  }

  /** Column 2 of `ClassRow` is its fourth child, the cell with the class
      block. */
  lemma ClassRowSelects()
    ensures ExtractRow(ClassRow(), 2) == CellResult(ClassRow().children[3], Trim("2"))
  {
    var row := ClassRow();
    var cs := row.children;
    FilterSnoc(cs, 0, IsDayCell);
    FilterSnoc(cs, 1, IsDayCell);
    FilterSnoc(cs, 2, IsDayCell);
    assert |Filter(cs[..3], IsDayCell)| == 2;
    SelectedCell(row, 3, 2);
  }

  /** A class block gives the subject, class id, classroom and teacher from
      text nodes 2, 3, 6 and 8, trimmed. */
  lemma ClassCellScenario()
    ensures ExtractRow(ClassRow(), 2) ==
      Emit(Period("Mathematics", "R12", "10MAT.2", "Ms Lee", "2"))
  {
    ClassRowSelects();
    BlockTrims();
    TrimFixed("2");
    assert "inactive" !in ClassRow().children[3].classes;
  }

  /** The class period of `ClassRow` at column 2. */
  function MathsPeriod(): Period
  {
    Period("Mathematics", "R12", "10MAT.2", "Ms Lee", "2")
  }

  /** A row with no period label, such as the header row. */
  function HeaderRow(): Row
  {
    Row([], [TextNode("\n")])
  }

  /** The period rows of the week-one page: the header row is not one. */
  lemma WeekOneRows()
    ensures PeriodRows(Page([HeaderRow(), InactiveRow(), ClassRow()])) == [InactiveRow(), ClassRow()]
  {
    var rows := [InactiveRow(), ClassRow()];
    assert [HeaderRow(), InactiveRow(), ClassRow()] == [HeaderRow()] + rows;
    FilterAppend([HeaderRow()], rows, IsPeriodRow);
    FilterAll(rows, IsPeriodRow);
  }

  /** Reading the two period rows at column 2 gives one period per row, in
      row order. */
  lemma ReadWeekOne()
    ensures AllPeriodRows([InactiveRow(), ClassRow()])
    ensures ReadDay([InactiveRow(), ClassRow()], 2, "07/03/2024", "Thu") ==
      Done(Day("07/03/2024", "Thu", [NonePeriod("1"), MathsPeriod()]))
  {
    var rows := [InactiveRow(), ClassRow()];
    InactiveCellScenario();
    ClassCellScenario();
    assert rows[..1] == [InactiveRow()];
    assert ExtractPeriods(rows, 2) == Extracted([NonePeriod("1"), MathsPeriod()]);
  }

  /** Today 2024-03-06: tomorrow's column is a first-week column, so every
      period row is read at column 2; the unlabelled header row is not a
      period row. */
  lemma ScrapeWeekOne()
    ensures Scrape(Page([HeaderRow(), InactiveRow(), ClassRow()]), [1, 2, 3], Date(2024, 3, 6)) ==
      Done(Day("07/03/2024", "Thu", [NonePeriod("1"), MathsPeriod()]))
  {
    var page := Page([HeaderRow(), InactiveRow(), ClassRow()]);
    WeekOneRows();
    TwoWeekHeadersFiltered();
    LocateWeekOne();
    DayAfterMarchSixth();
    ReadWeekOne();
  }

  /** Twelve first-week period rows followed by the second week's. */
  function TwoWeekRows(secondWeek: seq<Row>): seq<Row>
  {
    seq(FirstWeekRows, _ => InactiveRow()) + secondWeek
  }

  /** Today 2024-03-13: tomorrow's column, 7, is a second-week column, so
      the first 12 period rows are dropped and the rest are read at column
      7 - 5 = 2. */
  lemma ScrapeWeekTwo()
    ensures Scrape(Page(TwoWeekRows([ClassRow()])), [1, 2, 3], Date(2024, 3, 13)) ==
      Done(Day("14/03/2024", "Thu", [MathsPeriod()]))
  {
    var rows := TwoWeekRows([ClassRow()]);
    FilterAll(rows, IsPeriodRow);
    TwoWeekHeadersFiltered();
    LocateWeekTwo();
    DayAfterMarchThirteenth();
    ReadWeekTwo();
  }

  /** A first-week column drops no rows: on the same two-week page, column 2
      also reads row 12, a second-week row, so its class is in the day. */
  lemma FirstWeekReadsSecondWeek()
    ensures AllPeriodRows(TwoWeekRows([ClassRow()]))
    ensures var o := ReadDay(TwoWeekRows([ClassRow()]), 2, "07/03/2024", "Thu");
      o.Done? && MathsPeriod() in o.day.periods
  {
    var rows := TwoWeekRows([ClassRow()]);
    TwoWeekRowsAtColumnTwo();
    ReadDayFirstWeek(rows, 2, "07/03/2024", "Thu");
  }

  /** The rows of the two-week page with one second-week row. */
  lemma TwoWeekRowsShape()
    ensures |TwoWeekRows([ClassRow()])| == FirstWeekRows + 1
    ensures forall i :: 0 <= i < FirstWeekRows ==> TwoWeekRows([ClassRow()])[i] == InactiveRow()
    ensures TwoWeekRows([ClassRow()])[FirstWeekRows] == ClassRow()
  {
  }

  /** Every row of the two-week page gives a period at column 2; row 12
      gives the class. */
  lemma TwoWeekRowsAtColumnTwo()
    ensures AllPeriodRows(TwoWeekRows([ClassRow()]))
    ensures NoPanicFrom(TwoWeekRows([ClassRow()]), 0, 2)
    ensures ExtractRow(TwoWeekRows([ClassRow()])[FirstWeekRows], 2) == Emit(MathsPeriod())
  {
    var rows := TwoWeekRows([ClassRow()]);
    TwoWeekRowsShape();
    InactiveCellScenario();
    ClassCellScenario();
    forall i | 0 <= i < |rows|
      ensures IsPeriodRow(rows[i]) && rows[i] in {InactiveRow(), ClassRow()}
    {
    }
  }

  /** Reading a second-week column drops the first 12 rows. */
  lemma ReadWeekTwo()
    ensures AllPeriodRows(TwoWeekRows([ClassRow()]))
    ensures ReadDay(TwoWeekRows([ClassRow()]), 7, "14/03/2024", "Thu") ==
      Done(Day("14/03/2024", "Thu", [MathsPeriod()]))
  {
    var rows := TwoWeekRows([ClassRow()]);
    ClassCellScenario();
    assert rows[FirstWeekRows..] == [ClassRow()];
    assert ExtractPeriods([ClassRow()], 2) == Extracted([MathsPeriod()]);
  }

  /** The same page cut short: with only 11 period rows, dropping the first
      week's 12 panics. */
  lemma ScrapeWeekTwoTooFewRows()
    ensures Scrape(Page(seq(11, _ => InactiveRow())), [1, 2, 3], Date(2024, 3, 13)) ==
      Panicked(DrainOutOfRange)
  {
    var rows := seq(11, _ => InactiveRow());
    FilterAll(rows, IsPeriodRow);
    TwoWeekHeadersFiltered();
    LocateWeekTwo();
  }

  /** A class block whose subject text is "None" and whose class id,
      classroom and teacher nodes are blank gives exactly the placeholder. */
  lemma BlankClassIsPlaceholder()
    ensures CellResult(Element({"timetable-day"}, Some(["", "", "None", " ", "", "", " ", "", " "])), "3") ==
      Emit(NonePeriod("3"))
  {
    TrimFixed("None");
    assert Trim(" ") == "";
  }

  /** A class block whose subject text is "None" gives a period with the
      placeholder's subject but a classroom, class id and teacher: nothing
      keeps a real class from looking like an empty slot to the comparison. */
  lemma SubjectTextNone()
    ensures var p := ClassPeriod(["", "", " None ", "X", "", "", "R1", "", "T"], "3");
      p.subject == NoneSubject && !IsPlaceholder(p)
  {
    TrimFixed("None");
    TrimFixed("R1");
  }
}
