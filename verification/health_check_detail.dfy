/** `GetData`: the validation chain that turns the transport results into
    one page of rows. The two external requests (the element lookup and the
    partial-table fetch) are represented by their answers, passed in as
    values; a request that throws is represented by its caught result (no
    elements, no table). */
module HealthCheckDetail {
  import opened Optional
  import opened Lines
  import opened LineParser

  const ProtocolName := "Skyline Health Check Manager"
  const ProtocolVersion := "Production"
  /** Parameter id of the table the details are read from. */
  const DetailsTable := 2000

  /** A managed element as the lookup returns it. */
  datatype ElementRef = ElementRef(agentId: int, elementId: int)

  /** The requests `GetData` sends, in the order it sends them. */
  datatype Request =
    | ElementQuery(protocolName: string, protocolVersion: string, includeStopped: bool)
    | TableQuery(agentId: int, elementId: int, tableId: int, indexKey: string)

  /** The fetched table: one value sequence per column; column 0 holds the
      test ids, column 1 the detail texts. */
  type Table = seq<seq<string>>

  /** Why no rows are produced, one reason per early return of the source. */
  datatype Rejection =
    | NoIndexKey
    | NotExactlyOneElement
    | NoTable
    | NotTwoColumns
    | NotOneTestId
    | TooFewLines

  /** Internal result: rows, a rejection, or the unguarded read of the first
      detail cell failing because the detail column is empty. */
  datatype Outcome = Parsed(rows: seq<Row>) | Rejected(reason: Rejection) | DetailsMissing

  datatype Run = Run(requests: seq<Request>, outcome: Outcome)

  datatype Page = Page(rows: seq<Row>, hasNextPage: bool)

  /** What the caller sees: a page, or an exception escaping `GetData`. */
  datatype Response = Returned(page: Page) | Threw

  const EmptyPage := Page([], false)

  /** The index argument is present and not empty. */
  predicate HasKey(key: Option<string>)
  {
    key.Some? && key.value != ""
  }

  /** The checks on the fetched table, in the source's order. */
  function CheckTable(table: Option<Table>): Outcome
  {
    if table.None? then Rejected(NoTable)
    else if |table.value| != 2 then Rejected(NotTwoColumns)
    else if |table.value[0]| != 1 then Rejected(NotOneTestId)
    else if |table.value[1]| == 0 then DetailsMissing
    else
      var lines := SplitLines(table.value[1][0]);
      if |lines| < 2 then Rejected(TooFewLines) else Parsed(ParseRows(lines))
  }

  /** The whole chain, with the requests issued along the way. */
  function Evaluate(key: Option<string>, elements: seq<ElementRef>, table: Option<Table>): (run: Run)
    ensures run.requests == [] <==> !HasKey(key)
    ensures |run.requests| == 2 <==> HasKey(key) && |elements| == 1
    ensures |run.requests| <= 2
    ensures run.outcome.Parsed? ==> |run.outcome.rows| >= 1
  {
    if !HasKey(key) then Run([], Rejected(NoIndexKey))
    else
      var lookup := [ElementQuery(ProtocolName, ProtocolVersion, false)];
      if |elements| != 1 then Run(lookup, Rejected(NotExactlyOneElement))
      else
        var el := elements[0];
        Run(lookup + [TableQuery(el.agentId, el.elementId, DetailsTable, key.value)], CheckTable(table))
  }

  /** The page the source builds for an outcome. */
  function Respond(o: Outcome): Response
  {
    match o
    case Parsed(rows) => Returned(Page(rows, false))
    case Rejected(_) => Returned(EmptyPage)
    case DetailsMissing => Threw
  }

  /** `GetData` as the caller sees it. */
  function GetData(key: Option<string>, elements: seq<ElementRef>, table: Option<Table>): (r: Response)
    ensures r.Returned? ==> !r.page.hasNextPage
    ensures r == Returned(EmptyPage) <==> Evaluate(key, elements, table).outcome.Rejected?
  {
    Respond(Evaluate(key, elements, table).outcome)
  }

  // ---------------------------------------------------------------------
  // Properties of the chain

  /** A missing or empty key gives the empty, complete page before any
      request is sent, whatever the transport would have answered. */
  lemma NoKeyShortCircuits(key: Option<string>, elements: seq<ElementRef>, table: Option<Table>,
                           elements': seq<ElementRef>, table': Option<Table>)
    requires !HasKey(key)
    ensures GetData(key, elements, table) == Returned(EmptyPage)
    ensures Evaluate(key, elements, table).requests == []
    ensures GetData(key, elements, table) == GetData(key, elements', table')
  {
  }

  /** No element or several elements: the empty page, and the table answer
      plays no part. */
  lemma ElementCountGate(key: Option<string>, elements: seq<ElementRef>, table: Option<Table>, table': Option<Table>)
    requires HasKey(key) && |elements| != 1
    ensures GetData(key, elements, table) == Returned(EmptyPage)
    ensures Evaluate(key, elements, table).requests == [ElementQuery(ProtocolName, ProtocolVersion, false)]
    ensures GetData(key, elements, table) == GetData(key, elements, table')
  {
  }

  /** With one element, the table request goes to that element's details
      table, filtered on the key exactly as given. */
  lemma TableRequest(key: Option<string>, elements: seq<ElementRef>, table: Option<Table>)
    requires HasKey(key) && |elements| == 1
    ensures Evaluate(key, elements, table).requests ==
              [ElementQuery(ProtocolName, ProtocolVersion, false),
               TableQuery(elements[0].agentId, elements[0].elementId, DetailsTable, key.value)]
  {
  }

  /** Each malformed table answer gives the empty, complete page. */
  lemma MalformedTableGivesEmptyPage(key: Option<string>, elements: seq<ElementRef>, table: Option<Table>)
    requires HasKey(key) && |elements| == 1
    ensures table.None? ==> GetData(key, elements, table) == Returned(EmptyPage)
    ensures table.Some? && |table.value| != 2 ==> GetData(key, elements, table) == Returned(EmptyPage)
    ensures table.Some? && |table.value| == 2 && |table.value[0]| != 1 ==>
              GetData(key, elements, table) == Returned(EmptyPage)
    ensures table.Some? && |table.value| == 2 && |table.value[0]| == 1 && |table.value[1]| > 0
            && |SplitLines(table.value[1][0])| < 2 ==>
              GetData(key, elements, table) == Returned(EmptyPage)
  {
  }

  /** The source reads the first detail cell without checking that the
      detail column has one: exactly when every earlier check passes and
      that column is empty, the exception escapes. */
  lemma ThrowsExactlyWhenDetailsMissing(key: Option<string>, elements: seq<ElementRef>, table: Option<Table>)
    ensures GetData(key, elements, table) == Threw <==>
              && HasKey(key) && |elements| == 1 && table.Some?
              && |table.value| == 2 && |table.value[0]| == 1 && |table.value[1]| == 0
  {
  }

  /** When every check passes, the page holds one row per detail line after
      the first, in line order, and reports no further page. */
  lemma ValidTableGivesRows(key: Option<string>, elements: seq<ElementRef>, table: Option<Table>)
    requires HasKey(key) && |elements| == 1 && table.Some?
    requires |table.value| == 2 && |table.value[0]| == 1 && |table.value[1]| > 0
    requires |SplitLines(table.value[1][0])| >= 2
    ensures GetData(key, elements, table).Returned?
    ensures !GetData(key, elements, table).page.hasNextPage
    ensures var lines := SplitLines(table.value[1][0]);
            var rows := GetData(key, elements, table).page.rows;
            && |rows| == |lines| - 1
            && forall k :: 0 <= k < |rows| ==> rows[k] == ParseLine(lines[k + 1])
  {
  }

  /** The page is empty exactly when the chain rejects: a successful run
      always yields at least one row. */
  lemma EmptyPageMeansRejected(key: Option<string>, elements: seq<ElementRef>, table: Option<Table>)
    ensures (GetData(key, elements, table).Returned? && GetData(key, elements, table).page.rows == []) <==>
              Evaluate(key, elements, table).outcome.Rejected?
  {
  }

  /** A two-column answer whose id column holds two entries gives the
      empty, complete page, whatever the detail column holds. */
  lemma TwoTestIdsGiveNoRows(key: Option<string>, elements: seq<ElementRef>, table: Option<Table>)
    requires HasKey(key) && |elements| == 1 && table.Some?
    requires |table.value| == 2 && |table.value[0]| == 2
    ensures GetData(key, elements, table) == Returned(EmptyPage)
  {
  }

  /** On a page of rows every Retrieved Value cell is a suffix of the line
      it came from: the split leaves no line feed for `.` to stop at. */
  lemma ActualCellsAreSuffixes(key: Option<string>, elements: seq<ElementRef>, table: Option<Table>)
    requires HasKey(key) && |elements| == 1 && table.Some?
    requires |table.value| == 2 && |table.value[0]| == 1 && |table.value[1]| > 0
    requires |SplitLines(table.value[1][0])| >= 2
    ensures var lines := SplitLines(table.value[1][0]);
            var rows := GetData(key, elements, table).page.rows;
            && |rows| == |lines| - 1
            && forall k :: 0 <= k < |rows| ==> ActualSuffixOf(rows[k], lines[k + 1])
  {
    var lines := SplitLines(table.value[1][0]);
    assert forall i :: 0 <= i < |lines| ==> IsLine(lines[i]);
    ActualSuffixes(lines);
    assert GetData(key, elements, table).page.rows == ParseRows(lines);
  }

  // ---------------------------------------------------------------------
  // The unguarded read of the first detail cell

  /** A table with one test id and an empty detail column passes every check
      and then makes the read of the first detail cell throw. */
  lemma EmptyDetailColumnThrows()
    ensures GetData(Some("3"), [ElementRef(1, 7)], Some([["t"], []])) == Threw
  {
  }

  /** `GetData` with the read of the first detail cell guarded like the
      other checks: it always returns a complete page, agrees with the source
      wherever the source returns, and has no rows exactly when the chain
      does not reach the parser. */
  function GetDataGuarded(key: Option<string>, elements: seq<ElementRef>, table: Option<Table>): (r: Response)
    ensures r.Returned? && !r.page.hasNextPage
    ensures GetData(key, elements, table).Returned? ==> r == GetData(key, elements, table)
    ensures r.page.rows == [] <==> !Evaluate(key, elements, table).outcome.Parsed?
  {
    var o := Evaluate(key, elements, table).outcome;
    if o.DetailsMissing? then Returned(EmptyPage) else Respond(o)
  }
}
