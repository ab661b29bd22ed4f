# Health check result detail: a Dafny model

`HealthCheckResultDetail` is a data source for DataMiner dashboards. It is
given an index key. It looks up the single "Skyline Health Check Manager"
element and fetches the row of that element's results table (parameter 2000)
for the key. That row holds one multi-line text blob. The source turns every
line of the blob after the header into a row with four cells: DMA, Index,
Passing Condition and Retrieved Value.

This project models that pipeline in Dafny and proves what it does.

- `Lines` models the split of the blob on "\n" and "\r\n" with empty
  entries removed. It proves that joining lines with any mix of "\n" and
  "\r\n" and splitting the result gives back the lines with the empty ones
  dropped, and nothing else. So both separators are consumed whole, and a
  blank line or a leading or doubled separator only removes an empty
  entry. This holds when no line has a line feed, and a non-empty line
  followed by a lone "\n" does not end in '\r'.
- `Patterns` models the five regular expressions `ProcessRows` applies.
  - Each pattern has a declarative meaning. A match opens at a position
    (marker, whitespace, quote). Its group then ends where the greedy or
    lazy quantifier stops. The match `Regex.Match` reports is the leftmost
    one.
  - Scanners compute that match: `RunEnd`, `LazyEnd`, `MatchAt` and `Find`.
    They are proved equal to the declarative meaning.
- `Operators` models the eight-entry table of operator symbols.
- `LineParser` models `ProcessRows`.
  - Each field takes the group of the reported match, or the field's
    default.
  - The row joins the operator's symbol and the threshold with one space.
  - The loop over the lines after the header is proved to compute one row
    per line, in order.
- `LineFormat` writes a line with the five markers in the order
  `ProcessRows` extracts them. It proves what parsing that line gives back:
  - the test case, the index and the retrieved value exactly;
  - the operator's symbol, a space and the threshold, as the Passing
    Condition.

  This holds under the conditions of `Formattable`:
  - The name and the index are non-empty and hold no ',', '"', ':' or line
    feed.
  - The threshold holds no line feed and no ',' followed by a whitespace
    and "Operator". Other commas are allowed, as in the range "10, 20".
  - No ':' of the threshold has an 'O' eight characters before it or an
    'A' six before it. This is a conservative stand-in for "spells no
    "Operator:" or "Actual:"". It admits the time "00:05:00", but it also
    excludes thresholds such as "Avg 10:00" that spell neither marker.
    The threshold alone comes back without this condition
    (`FormatThreshold`).
  - The operator is a non-empty word.
  - The retrieved value holds no line feed.
- `HealthCheckDetail` models `GetData`'s chain of checks.
  - The answers of the element lookup and of the table fetch are inputs.
  - The requests the chain issues are part of its result.
  - The unguarded read of the first detail cell is its own outcome.

Every other malformed answer the model can represent makes `GetData` return the empty page
(Health_Check_Result_Detail_1.cs:140-167). A detail column with no entry
does not: it throws at Health_Check_Result_Detail_1.cs:160, where
`testDetails[0]` is read without a length check. The model follows the code,
so `GetData` answers `Threw` in that case. The guarded behaviour is shown
under "Findings".

## Model

| member | source | states |
|---|---|---|
| Lines.SplitFrom | Health_Check_Result_Detail_1/Health_Check_Result_Detail_1.cs:162 | every fragment the split produces is non-empty and holds no line feed |
| Lines.SplitLines | Health_Check_Result_Detail_1/Health_Check_Result_Detail_1.cs:162 | splitting on "\n"/"\r\n" with empty entries removed yields only non-empty fragments without line feeds |
| Lines.SplitJoinWithRoundTrip | Health_Check_Result_Detail_1/Health_Check_Result_Detail_1.cs:162 | lines joined by any mix of "\n" and "\r\n" come back unchanged from the split, so each separator is consumed whole; a line followed by a lone "\n" must not end in '\r' |
| Lines.SplitJoinWithBlanks | Health_Check_Result_Detail_1/Health_Check_Result_Detail_1.cs:162 | lines without line feeds joined by any mix of "\n" and "\r\n" split back into exactly the non-empty ones, in order: removing empty entries loses nothing else; a non-empty line followed by a lone "\n" must not end in '\r' |
| Operators.Symbol | Health_Check_Result_Detail_1/Health_Check_Result_Detail_1.cs:201 | the display form of an operator token; its contract is carried by `KnownSymbols`, `TableKeys`, `UnknownPassesThrough` and `SymbolInjectiveOnWords` |
| Operators.KnownSymbols | Health_Check_Result_Detail_1/Health_Check_Result_Detail_1.cs:68-78 | each of the eight operator names is shown as its fixed symbol |
| Operators.TableKeys | Health_Check_Result_Detail_1/Health_Check_Result_Detail_1.cs:68-78 | the table knows exactly the eight operator names |
| Operators.UnknownPassesThrough | Health_Check_Result_Detail_1/Health_Check_Result_Detail_1.cs:201 | any other token, the empty one included, is shown unchanged |
| Operators.SymbolInjectiveOnWords | Health_Check_Result_Detail_1/Health_Check_Result_Detail_1.cs:199-201 | two different word tokens are never shown as the same symbol |
| Patterns.RunEnd | Health_Check_Result_Detail_1/Health_Check_Result_Detail_1.cs:175-180 | a greedy class run stops at the first character outside the class, or at the end of the line |
| Patterns.LazyEnd | Health_Check_Result_Detail_1/Health_Check_Result_Detail_1.cs:179 | the lazy threshold group ends at the first place followed by ",", a whitespace and "Operator" with no line feed before it, and fails exactly when there is no such place |
| Patterns.MatchAt | Health_Check_Result_Detail_1/Health_Check_Result_Detail_1.cs:175-180 | a match anchored at a position is found exactly when the pattern matches there, with the group end the quantifier determines |
| Patterns.Find | Health_Check_Result_Detail_1/Health_Check_Result_Detail_1.cs:187-205 | the search reports the leftmost matching position at or after its start, or none when no position there matches |
| Patterns.Extract | Health_Check_Result_Detail_1/Health_Check_Result_Detail_1.cs:187-205 | `Regex.Match(line, pattern).Groups[1]` for a match that succeeds; its contract is carried by `ExtractSpec` and `ExtractIsTheMatch` |
| Patterns.ExtractSpec | Health_Check_Result_Detail_1/Health_Check_Result_Detail_1.cs:187-205 | an extractor yields nothing exactly when the pattern matches nowhere, and otherwise the group of the leftmost match |
| Patterns.ExtractIsTheMatch | Health_Check_Result_Detail_1/Health_Check_Result_Detail_1.cs:187-205 | the extractor's value is a given string exactly when that string is the group of the leftmost match |
| Patterns.MatchesFunctional | Health_Check_Result_Detail_1/Health_Check_Result_Detail_1.cs:175-180 | at one position each pattern matches with at most one group end, for its greedy and its lazy groups alike |
| Patterns.YieldsUnique | Health_Check_Result_Detail_1/Health_Check_Result_Detail_1.cs:187-205 | the group of the reported match is determined by the line |
| Patterns.LeftmostUnique | Health_Check_Result_Detail_1/Health_Check_Result_Detail_1.cs:187-205 | a line has at most one leftmost match, with one group end |
| Patterns.YieldsShape | Health_Check_Result_Detail_1/Health_Check_Result_Detail_1.cs:175-180 | a reported group holds only characters its class admits, and is non-empty for the `+` groups of the DMA, index and operator patterns |
| Patterns.ActualOpensIsMatch | Health_Check_Result_Detail_1/Health_Check_Result_Detail_1.cs:180 | the retrieved-value pattern matches at a position exactly when "Actual:" and a whitespace stand there |
| LineParser.FieldValue | Health_Check_Result_Detail_1/Health_Check_Result_Detail_1.cs:186-205 | one stored field of a line; its contract is carried by `FieldValueSpec` and `DefaultWhenUnmatched` |
| LineParser.FieldValueSpec | Health_Check_Result_Detail_1/Health_Check_Result_Detail_1.cs:186-205 | every stored field is the group of the reported match, or the field's default when its pattern matches nowhere |
| LineParser.ParseLine | Health_Check_Result_Detail_1/Health_Check_Result_Detail_1.cs:186-213 | the four cells of one line; its contract is carried by `ParseLineCells`, and by `FormatParseRoundTrip` for lines written by `FormatLine` |
| LineParser.ParseLineCells | Health_Check_Result_Detail_1/Health_Check_Result_Detail_1.cs:186-213 | the four cells are the DMA, index and retrieved-value fields, and the operator's symbol joined to the threshold by one space |
| LineParser.DefaultWhenUnmatched | Health_Check_Result_Detail_1/Health_Check_Result_Detail_1.cs:186-205 | an unmatched field holds "N/A" for the index and "" for the other four |
| LineParser.IndexCell | Health_Check_Result_Detail_1/Health_Check_Result_Detail_1.cs:191-192 | the index cell is "N/A" when the index pattern matches nowhere, and is otherwise non-empty and free of quotes |
| LineParser.DmaNameCell | Health_Check_Result_Detail_1/Health_Check_Result_Detail_1.cs:187-188 | the DMA cell is empty exactly when the test-case pattern matches nowhere, and never holds a comma |
| LineParser.ComparisonWithoutOperator | Health_Check_Result_Detail_1/Health_Check_Result_Detail_1.cs:211 | without an operator the passing condition is a space followed by the threshold, and a lone space when the threshold is missing too |
| LineParser.OperatorToken | Health_Check_Result_Detail_1/Health_Check_Result_Detail_1.cs:199-200 | a matched operator token is a non-empty run of word characters |
| LineParser.ActualMatchRunsToEnd | Health_Check_Result_Detail_1/Health_Check_Result_Detail_1.cs:180 | on a line without line feeds the leftmost retrieved-value match opens at the first "Actual:" marker and runs to the end of the line |
| LineParser.ActualValueIsSuffix | Health_Check_Result_Detail_1/Health_Check_Result_Detail_1.cs:204-205 | the retrieved value is everything after the first "Actual:" and its whitespace, or "" when there is none |
| LineParser.ActualIsSuffix | Health_Check_Result_Detail_1/Health_Check_Result_Detail_1.cs:204-205 | the Retrieved Value cell is a suffix of its line |
| LineParser.ActualSuffixes | Health_Check_Result_Detail_1/Health_Check_Result_Detail_1.cs:184-217 | every Retrieved Value cell of the report is a suffix of the line it came from |
| LineParser.FieldFromLeftmost | Health_Check_Result_Detail_1/Health_Check_Result_Detail_1.cs:187-205 | a field equals the group of any match shown to be the leftmost one |
| LineParser.ParseAll | Health_Check_Result_Detail_1/Health_Check_Result_Detail_1.cs:184-217 | one row per line, the k-th from the k-th line |
| LineParser.ParseRows | Health_Check_Result_Detail_1/Health_Check_Result_Detail_1.cs:184-217 | one row per line after the header, row k from line k+1 |
| LineParser.ProcessRows | Health_Check_Result_Detail_1/Health_Check_Result_Detail_1.cs:173-220 | the loop from index 1 returns as many rows as lines after the header, each parsed from its line, in order |
| LineParser.ProcessRowsIsParseRows | Health_Check_Result_Detail_1/Health_Check_Result_Detail_1.cs:184-217 | any result meeting the loop's contract is the declarative row list of the same lines |
| LineParser.HeaderIgnored | Health_Check_Result_Detail_1/Health_Check_Result_Detail_1.cs:184 | the rows do not depend on the header line |
| LineFormat.FormatTestCase | Health_Check_Result_Detail_1/Health_Check_Result_Detail_1.cs:187-188 | in a line written by `FormatLine` whose name is non-empty and plain, the DMA field is the name written after "Test case for " |
| LineFormat.FormatIndex | Health_Check_Result_Detail_1/Health_Check_Result_Detail_1.cs:191-192 | in a line written by `FormatLine` whose name is plain and whose index is non-empty and plain, the index field is the text written between the quotes |
| LineFormat.FormatThreshold | Health_Check_Result_Detail_1/Health_Check_Result_Detail_1.cs:195-196 | in a line written by `FormatLine` whose name and index are plain, and whose threshold has no line feed and no terminator inside it, the threshold field is the text written between "Threshold: " and ", Operator" |
| LineFormat.MarkerFreeThresholdComesBack | Health_Check_Result_Detail_1/Health_Check_Result_Detail_1.cs:195-196 | the threshold "Avg 10:00" falls outside `Formattable` yet comes back intact from a line written by `FormatLine` |
| LineFormat.FormatOperator | Health_Check_Result_Detail_1/Health_Check_Result_Detail_1.cs:199-200 | in a line written by `FormatLine` whose fields meet `Formattable`, the operator field is the token written after "Operator: " |
| LineFormat.FormatActual | Health_Check_Result_Detail_1/Health_Check_Result_Detail_1.cs:204-205 | in a line written by `FormatLine` whose fields meet `Formattable`, the retrieved-value field is the text written after "Actual: " |
| LineFormat.TimeThresholdAdmitted | Health_Check_Result_Detail_1/Health_Check_Result_Detail_1.cs:179 | a threshold with colons, such as "00:05:00", is admitted by the layout the round trip covers |
| LineFormat.RangeThresholdAdmitted | Health_Check_Result_Detail_1/Health_Check_Result_Detail_1.cs:179 | a two-value range with a comma, such as "10, 20" for `Between`, is admitted by the layout the round trip covers |
| LineFormat.FormatParseRoundTrip | Health_Check_Result_Detail_1/Health_Check_Result_Detail_1.cs:186-213 | parsing a line written by `FormatLine` whose fields meet `Formattable` gives back the name, the index and the value written, and the operator's symbol joined to the threshold |
| HealthCheckDetail.CheckTable | Health_Check_Result_Detail_1/Health_Check_Result_Detail_1.cs:139-170 | the checks on the fetched table in the source's order; its contract is carried by `MalformedTableGivesEmptyPage`, `ThrowsExactlyWhenDetailsMissing` and `ValidTableGivesRows` |
| HealthCheckDetail.Evaluate | Health_Check_Result_Detail_1/Health_Check_Result_Detail_1.cs:122-171 | no request is sent exactly when the key is missing or empty, and the table fetch exactly when one element was found; a parsed outcome has at least one row |
| HealthCheckDetail.GetData | Health_Check_Result_Detail_1/Health_Check_Result_Detail_1.cs:122-171 | a returned page never reports a next page, and it is the empty page exactly when some check rejected the input |
| HealthCheckDetail.NoKeyShortCircuits | Health_Check_Result_Detail_1/Health_Check_Result_Detail_1.cs:124-127 | a missing or empty key gives the empty complete page before any request is sent, whatever the transport would answer |
| HealthCheckDetail.ElementCountGate | Health_Check_Result_Detail_1/Health_Check_Result_Detail_1.cs:129-134 | zero or several elements give the empty complete page after only the lookup, and the table answer plays no part |
| HealthCheckDetail.TableRequest | Health_Check_Result_Detail_1/Health_Check_Result_Detail_1.cs:136-138 | with one element, the lookup for the health-check protocol is followed by one fetch of table 2000 of that element, filtered on the key |
| HealthCheckDetail.MalformedTableGivesEmptyPage | Health_Check_Result_Detail_1/Health_Check_Result_Detail_1.cs:140-167 | a missing table, a column count other than 2, an id count other than 1 or fewer than 2 lines give the empty complete page |
| HealthCheckDetail.ThrowsExactlyWhenDetailsMissing | Health_Check_Result_Detail_1/Health_Check_Result_Detail_1.cs:152-160 | an exception escapes exactly when every earlier check passes and the detail column is empty |
| HealthCheckDetail.ValidTableGivesRows | Health_Check_Result_Detail_1/Health_Check_Result_Detail_1.cs:160-170 | when every check passes the page holds one row per line after the header, in order, and reports no next page |
| HealthCheckDetail.EmptyPageMeansRejected | Health_Check_Result_Detail_1/Health_Check_Result_Detail_1.cs:122-171 | the page is empty exactly when the chain rejected the input, so a parsed blob always gives at least one row |
| HealthCheckDetail.TwoTestIdsGiveNoRows | Health_Check_Result_Detail_1/Health_Check_Result_Detail_1.cs:155-158 | with a key and one element, every two-column answer whose id column holds two entries gives the empty page, whatever the detail column holds |
| HealthCheckDetail.ActualCellsAreSuffixes | Health_Check_Result_Detail_1/Health_Check_Result_Detail_1.cs:160-170 | every Retrieved Value cell on a page of rows is a suffix of the detail line it came from |
| HealthCheckDetail.EmptyDetailColumnThrows | Health_Check_Result_Detail_1/Health_Check_Result_Detail_1.cs:160 | one element, one test id and an empty detail column make `GetData` throw |
| HealthCheckDetail.GetDataGuarded | Health_Check_Result_Detail_1/Health_Check_Result_Detail_1.cs:152-167 | with the first detail cell read guarded, every call returns a complete page, agrees with the source wherever the source returns, and has no rows exactly when the parser is not reached |

## Left out

- LineFormat.FormatParseRoundTrip: does not cover some lines. Names or indexes with ',', '"', ':' or a line feed are excluded: a ',' ends the name group, a '"' ends the index group, and a ':' could open a marker early. Thresholds are excluded when they hold a line feed, a ',' followed by a whitespace and "Operator" (the lazy group would end there), or a ':' with an 'O' eight characters before it or an 'A' six before it. That last condition is a conservative stand-in for a spelled "Operator:" or "Actual:", which would make the later field be read from inside the threshold. It also excludes thresholds such as "Avg 10:00" that spell neither marker; `FormatThreshold` shows that such a threshold still comes back. Those lines are still parsed by `ParseLine`, and the cell lemmas hold for them.
- The data-source plumbing is not modelled: `GetColumns`, `GetInputArguments`, `OnArgumentsProcessed`, `OnInit` and `GetNextPage`. These are bindings to the dashboard host with no logic of their own. `GetNextPage` only calls `GetData`.
- `GetElements`, `GetTablePage` and the messages they send are not modelled. Their answers are parameters: the element list, and the table or `None`. A thrown exception, which both catch, shows up as an empty list or `None`. The requests issued are recorded in `Run.requests`.
- The filter strings are not modelled: `CreateColumnFilter` and the filter array. The table request keeps only the element, the table id and the index key it filters on.
- The regular expressions use an ASCII approximation of the character classes. `\s` is space, tab, line feed, vertical tab, form feed and carriage return. `\w` is ASCII letters, digits and '_'. .NET's Unicode classes are not modelled, and neither are regex timeouts.
- `null` cell values and `null` detail strings are not modelled: table cells are plain strings.
- Characters are Dafny characters, not UTF-16 code units.
- Cells are not modelled as `GQICell` objects: a row is four strings.
- `HealthCheckDetail.ElementRef` keeps only the agent id and the element id of an element.

## Findings

| source | as written | input that shows it | evidently intended | confidence | as-written member | corrected member |
|---|---|---|---|---|---|---|
| Health_Check_Result_Detail_1/Health_Check_Result_Detail_1.cs:160 | the first detail cell is read without checking that the detail column has an entry, so an empty column throws out of `GetData` | key "3", one element, table `[["t"], []]` | the empty, complete page, as for every other malformed table | not executed; high that the read throws, medium that the empty page is intended | HealthCheckDetail.EmptyDetailColumnThrows | HealthCheckDetail.GetDataGuarded |
