/** The records the scraper produces (`Period`, `TimetableDayData`) and the
    already-parsed timetable page it reads. The page is the part of the HTML
    the scraper's selectors reach, in document order. */
module Timetable {
  import opened Optional
  import opened Seqs
  import opened Text

  /** The subject text of a slot with no class. */
  const NoneSubject: string := "None"

  /** One slot of a day. */
  datatype Period = Period(
    subject: string,
    classroom: string,
    classId: string,
    teacher: string,
    periodNumber: string)

  /** One day of the timetable, as `TimetableDayData`. */
  datatype Day = Day(date: string, weekday: string, periods: seq<Period>)

  /** A placeholder: subject "None" and the other class fields empty. */
  predicate IsPlaceholder(p: Period)
  {
    p.subject == NoneSubject && p.classroom == "" && p.classId == "" && p.teacher == ""
  }

  /** `Period::none`: the placeholder for a slot with no class, keeping the
      slot's label. */
  function NonePeriod(periodNumber: string): (p: Period)
    ensures IsPlaceholder(p) && p.periodNumber == periodNumber
  {
    Period(NoneSubject, "", "", "", periodNumber)
  }

  /** A child node of a table row: text, or an element with its class
      attribute and the text nodes of its first `div.timetable-class`
      descendant, if it has one. */
  datatype Node =
    | TextNode(text: string)
    | Element(classes: set<string>, classBlock: Option<seq<string>>)

  /** A `tr` element: the inner HTML of each `th.timetable-period` inside it,
      and its child nodes. */
  datatype Row = Row(periodLabels: seq<string>, children: seq<Node>)

  /** A timetable page: the inner HTML of every `th.timetable-date`, and every
      `tr` as its period labels and child nodes, each in document order. */
  datatype Document = Document(dateCells: seq<string>, rows: seq<Row>)

  /** A date-header cell that holds a date rather than a day name. */
  predicate IsDateHeader(cell: string)
  {
    ContainsChar(cell, '/')
  }

  /** A row with at least one `th.timetable-period`. */
  predicate IsPeriodRow(row: Row)
  {
    |row.periodLabels| > 0
  }

  /** An element child that is not the period-label cell: a day cell. */
  predicate IsDayCell(n: Node)
  {
    n.Element? && "timetable-period" !in n.classes
  }

  /** The date headers of the page, in document order. */
  function DateHeaders(doc: Document): seq<string>
  {
    Filter(doc.dateCells, IsDateHeader)
  }

  /** The period rows of the page, in document order. */
  function PeriodRows(doc: Document): seq<Row>
  {
    Filter(doc.rows, IsPeriodRow)
  }

  /** The day cells of a row, in order; the column index counts these. */
  function DayCells(row: Row): seq<Node>
  {
    Filter(row.children, IsDayCell)
  }

  /** The header list is exactly the date cells containing '/', each as often
      as it occurs, and it keeps the order of the page. */
  lemma DateHeadersAreDateCells(doc: Document, more: seq<string>)
    ensures forall cell :: cell in DateHeaders(doc) <==> cell in doc.dateCells && IsDateHeader(cell)
    ensures forall cell ::
      multiset(DateHeaders(doc))[cell] == if IsDateHeader(cell) then multiset(doc.dateCells)[cell] else 0
    ensures DateHeaders(Document(doc.dateCells + more, doc.rows)) ==
      DateHeaders(doc) + DateHeaders(Document(more, doc.rows))
  {
    forall cell
      ensures cell in DateHeaders(doc) <==> cell in doc.dateCells && IsDateHeader(cell)
      ensures multiset(DateHeaders(doc))[cell] == if IsDateHeader(cell) then multiset(doc.dateCells)[cell] else 0
    {
      FilterMembership(doc.dateCells, IsDateHeader, cell);
      FilterCount(doc.dateCells, IsDateHeader, cell);
    }
    FilterAppend(doc.dateCells, more, IsDateHeader);
  }

  /** The period rows are exactly the rows holding a period label, in order,
      and each of them has a first label to read. */
  lemma PeriodRowsAreLabelled(doc: Document, more: seq<Row>)
    ensures forall row :: row in PeriodRows(doc) <==> row in doc.rows && |row.periodLabels| > 0
    ensures PeriodRows(Document(doc.dateCells, doc.rows + more)) ==
      PeriodRows(doc) + PeriodRows(Document(doc.dateCells, more))
  {
    forall row
      ensures row in PeriodRows(doc) <==> row in doc.rows && |row.periodLabels| > 0
    {
      FilterMembership(doc.rows, IsPeriodRow, row);
    }
    FilterAppend(doc.rows, more, IsPeriodRow);
  }
}
