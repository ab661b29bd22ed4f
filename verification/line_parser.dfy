/** `ProcessRows`: every report line after the header becomes one row of the
    four output cells DMA, Index, Passing Condition and Retrieved Value. */
module LineParser {
  import opened Optional
  import opened Patterns
  import opened Operators
  import opened Text

  /** The five values pulled out of one line, before display. */
  datatype Fields = Fields(dmaName: string, index: string, threshold: string, operator: string, actual: string)

  /** One output row: DMA, Index, Passing Condition, Retrieved Value. */
  datatype Row = Row(dmaName: string, index: string, comparison: string, actual: string)

  /** `v` is what the source stores for `pat`: the group of the reported
      match, or `default` when the pattern matches nowhere in the line. */
  ghost predicate FieldOf(pat: Pattern, line: string, v: string, default: string)
  {
    (Unmatched(pat, line) && v == default) || (!Unmatched(pat, line) && Yields(pat, line, v))
  }

  /** The value the source stores when `pat` matches nowhere: "N/A" for
      the index (the source checks `indexMatch.Success`), "" for the others (the
      empty group of a failed match). */
  function Default(pat: Pattern): string
  {
    if pat == IndexKey then "N/A" else ""
  }

  /** One extractor: `line -> value`, the group of the reported match or the
      pattern's default. */
  function FieldValue(pat: Pattern, line: string): string
  {
    Extract(pat, line).GetOr(Default(pat))
  }

  /** Each extractor stores the group of the match `Regex.Match` reports, or
      its default when the pattern matches nowhere. */
  lemma FieldValueSpec(pat: Pattern, line: string)
    ensures FieldOf(pat, line, FieldValue(pat, line), Default(pat))
  {
    ExtractSpec(pat, line);
  }

  /** The five extractions, each independent of the others. */
  function ExtractFields(line: string): Fields
  {
    Fields(
      FieldValue(TestCase, line),
      FieldValue(IndexKey, line),
      FieldValue(Threshold, line),
      FieldValue(Operator, line),
      FieldValue(Actual, line))
  }

  /** The row for one report line. */
  function ParseLine(line: string): Row
  {
    var f := ExtractFields(line);
    Row(f.dmaName, f.index, Symbol(f.operator) + " " + f.threshold, f.actual)
  }

  /** Every cell of the row is what the source computes from the line: the
      DMA, index and retrieved-value groups with their defaults, and the
      operator's symbol joined to the threshold by exactly one space. */
  lemma ParseLineCells(line: string)
    ensures FieldOf(TestCase, line, ParseLine(line).dmaName, "")
    ensures FieldOf(IndexKey, line, ParseLine(line).index, "N/A")
    ensures FieldOf(Actual, line, ParseLine(line).actual, "")
    ensures exists op: string, threshold: string ::
              && FieldOf(Operator, line, op, "")
              && FieldOf(Threshold, line, threshold, "")
              && ParseLine(line).comparison == Symbol(op) + " " + threshold
  {
    FieldValueSpec(TestCase, line);
    FieldValueSpec(IndexKey, line);
    FieldValueSpec(Actual, line);
    FieldValueSpec(Operator, line);
    FieldValueSpec(Threshold, line);
    var op := FieldValue(Operator, line);
    var threshold := FieldValue(Threshold, line);
    assert FieldOf(Operator, line, op, "") && FieldOf(Threshold, line, threshold, "");
  }

  /** One row per line, in order. */
  function ParseAll(lines: seq<string>): (rows: seq<Row>)
    ensures |rows| == |lines|
    ensures forall k :: 0 <= k < |lines| ==> rows[k] == ParseLine(lines[k])
  {
    if |lines| == 0 then [] else [ParseLine(lines[0])] + ParseAll(lines[1..])
  }

  /** The rows of a report: line 0 is the header and yields nothing. */
  function ParseRows(lines: seq<string>): (rows: seq<Row>)
    ensures |rows| == if |lines| == 0 then 0 else |lines| - 1
    ensures forall k :: 0 <= k < |rows| ==> rows[k] == ParseLine(lines[k + 1])
  {
    if |lines| == 0 then [] else ParseAll(lines[1..])
  }

  /** The source's loop over the lines from index 1 on. */
  method ProcessRows(lines: seq<string>) returns (rows: seq<Row>)
    ensures |rows| == if |lines| == 0 then 0 else |lines| - 1
    ensures forall k :: 0 <= k < |rows| ==> rows[k] == ParseLine(lines[k + 1])
  {
    rows := [];
    if |lines| == 0 {
      return;
    }
    var i := 1;
    while i < |lines|
      invariant 1 <= i <= |lines|
      invariant |rows| == i - 1
      invariant forall k :: 0 <= k < |rows| ==> rows[k] == ParseLine(lines[k + 1])
    {
      MapStep(ParseLine, lines, rows, i);
      rows := rows + [ParseLine(lines[i])];
      i := i + 1;
    }
  }

  /** One turn of a loop that maps `f` over `xs` from index 1 on: appending
      the image of `xs[i]` keeps every result paired with the element after
      its own position. */
  lemma MapStep<A, B>(f: A -> B, xs: seq<A>, ys: seq<B>, i: nat)
    requires 1 <= i < |xs| && |ys| == i - 1
    requires forall k :: 0 <= k < |ys| ==> ys[k] == f(xs[k + 1])
    ensures forall k :: 0 <= k < |ys| + 1 ==> (ys + [f(xs[i])])[k] == f(xs[k + 1])
  {
  }

  /** Two sequences that agree everywhere are equal. */
  lemma Pointwise<T>(a: seq<T>, b: seq<T>)
    requires |a| == |b|
    requires forall k :: 0 <= k < |a| ==> a[k] == b[k]
    ensures a == b
  {
  }

  /** Whatever meets `ProcessRows`'s contract is the declarative
      `ParseRows` of the same lines: the loop computes exactly that. */
  lemma ProcessRowsIsParseRows(lines: seq<string>, rows: seq<Row>)
    requires |rows| == if |lines| == 0 then 0 else |lines| - 1
    requires forall k :: 0 <= k < |rows| ==> rows[k] == ParseLine(lines[k + 1])
    ensures rows == ParseRows(lines)
  {
    Pointwise(rows, ParseRows(lines));
  }

  // ---------------------------------------------------------------------
  // Properties of the cells

  /** The index cell is "N/A" when `Index\s"([^"]+)"` matches nowhere;
      otherwise it is non-empty and holds no quote. */
  lemma IndexCell(line: string)
    ensures Unmatched(IndexKey, line) ==> ParseLine(line).index == "N/A"
    ensures !Unmatched(IndexKey, line) ==> ParseLine(line).index != "" && '"' !in ParseLine(line).index
  {
    var v := FieldValue(IndexKey, line);
    FieldValueSpec(IndexKey, line);
    if !Unmatched(IndexKey, line) {
      YieldsShape(IndexKey, line, v);
      assert forall j :: 0 <= j < |v| ==> v[j] != '"';
    }
  }

  /** The DMA cell is "" exactly when `Test case for ([^,]+)` matches
      nowhere; it never holds a comma. */
  lemma DmaNameCell(line: string)
    ensures Unmatched(TestCase, line) <==> ParseLine(line).dmaName == ""
    ensures ',' !in ParseLine(line).dmaName
  {
    var v := FieldValue(TestCase, line);
    FieldValueSpec(TestCase, line);
    if !Unmatched(TestCase, line) {
      YieldsShape(TestCase, line, v);
      assert forall j :: 0 <= j < |v| ==> v[j] != ',';
    }
  }

  /** A field whose pattern matches nowhere holds the pattern's default:
      "N/A" for the index, "" for the DMA, threshold, operator and
      retrieved value. */
  lemma DefaultWhenUnmatched(pat: Pattern, line: string)
    ensures Unmatched(pat, line) ==> FieldValue(pat, line) == Default(pat)
    ensures pat != IndexKey && Unmatched(pat, line) ==> FieldValue(pat, line) == ""
  {
    FieldValueSpec(pat, line);
  }

  /** Without an operator the passing condition is the threshold behind the
      literal space of the join, and a lone space when both are missing. */
  lemma ComparisonWithoutOperator(line: string)
    ensures Unmatched(Operator, line) ==> ParseLine(line).comparison == " " + FieldValue(Threshold, line)
    ensures Unmatched(Operator, line) && Unmatched(Threshold, line) ==> ParseLine(line).comparison == " "
  {
    DefaultWhenUnmatched(Operator, line);
    DefaultWhenUnmatched(Threshold, line);
    UnknownPassesThrough("");
  }

  /** A matched operator token is a non-empty run of word characters, so the
      symbol shown identifies it (see `Operators.SymbolInjectiveOnWords`). */
  lemma OperatorToken(line: string)
    ensures !Unmatched(Operator, line) ==> ExtractFields(line).operator != "" && IsWord(ExtractFields(line).operator)
  {
    var v := FieldValue(Operator, line);
    FieldValueSpec(Operator, line);
    if !Unmatched(Operator, line) {
      YieldsShape(Operator, line, v);
    }
  }

  /** On a line without line feeds the leftmost `Actual:\s(.*)` match
      starts at the first marker and runs to the end of the line. */
  lemma ActualMatchRunsToEnd(line: string, p: nat, e: nat)
    requires '\n' !in line
    requires Leftmost(Actual, line, p, e)
    ensures e == |line|
    ensures forall q: nat :: q < p ==> !Opens(Actual, line, q)
  {
    assert forall k :: 0 <= k < |line| ==> line[k] != '\n';
    forall q: nat | q < p ensures !Opens(Actual, line, q) {
      ActualOpensIsMatch(line, q);
    }
  }

  /** The retrieved-value extractor on a line without line feeds: everything
      after the first "Actual:" and the whitespace character behind it, or
      "" when there is no such place. */
  lemma ActualValueIsSuffix(line: string)
    requires '\n' !in line
    ensures !Unmatched(Actual, line) ==>
              exists p: nat :: && p + 8 <= |line|
                               && Opens(Actual, line, p)
                               && (forall q: nat :: q < p ==> !Opens(Actual, line, q))
                               && FieldValue(Actual, line) == line[p + 8..]
    ensures Unmatched(Actual, line) ==>
              FieldValue(Actual, line) == "" && forall q: nat :: q <= |line| ==> !Opens(Actual, line, q)
  {
    var v := FieldValue(Actual, line);
    FieldValueSpec(Actual, line);
    if !Unmatched(Actual, line) {
      var p: nat, e: nat :| Leftmost(Actual, line, p, e) && CaptureStart(Actual, p) <= e <= |line|
                          && v == line[CaptureStart(Actual, p)..e];
      ActualMatchRunsToEnd(line, p, e);
      assert Matches(Actual, line, p, e);
      assert CaptureStart(Actual, p) == p + 8;
      assert v == line[p + 8..];
      assert p + 8 <= |line| && Opens(Actual, line, p);
    } else {
      forall q: nat | q <= |line| ensures !Opens(Actual, line, q) {
        ActualOpensIsMatch(line, q);
      }
    }
  }

  /** The Retrieved Value cell of `row` is a suffix of `line`. */
  predicate ActualSuffixOf(row: Row, line: string)
  {
    |row.actual| <= |line| && row.actual == line[|line| - |row.actual|..]
  }

  /** The Retrieved Value cell is a suffix of its line. */
  lemma ActualIsSuffix(line: string)
    requires '\n' !in line
    ensures ActualSuffixOf(ParseLine(line), line)
  {
    ActualValueIsSuffix(line);
    var v := FieldValue(Actual, line);
    assert ParseLine(line).actual == v;
  }

  /** On lines without line feeds, every Retrieved Value cell of the report
      is a suffix of its line. */
  lemma ActualSuffixes(lines: seq<string>)
    requires forall i :: 0 <= i < |lines| ==> '\n' !in lines[i]
    ensures forall k :: 0 <= k < |ParseRows(lines)| ==> ActualSuffixOf(ParseRows(lines)[k], lines[k + 1])
  {
    var rows := ParseRows(lines);
    forall k | 0 <= k < |rows| ensures ActualSuffixOf(rows[k], lines[k + 1]) {
      ActualIsSuffix(lines[k + 1]);
    }
  }

  /** The header line is skipped whatever it contains. */
  lemma HeaderIgnored(h1: string, h2: string, body: seq<string>)
    ensures ParseRows([h1] + body) == ParseRows([h2] + body)
  {
    assert ([h1] + body)[1..] == body;
    assert ([h2] + body)[1..] == body;
  }

  /** The extractor returns the group of a match shown to be leftmost. */
  lemma FieldFromLeftmost(pat: Pattern, line: string, p: nat, e: nat)
    requires Leftmost(pat, line, p, e)
    ensures CaptureStart(pat, p) <= e <= |line|
    ensures FieldValue(pat, line) == line[CaptureStart(pat, p)..e]
  {
    var v := line[CaptureStart(pat, p)..e];
    assert Yields(pat, line, v);
    ExtractIsTheMatch(pat, line, v);
  }
}
