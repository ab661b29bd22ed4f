/** The five fixed regular expressions of the line parser, each as a
    declarative statement of what the expression matches at a position
    (`Matches`) and as a scanner proved to agree with it (`MatchAt`), plus
    the leftmost-match search every `Regex.Match` call performs (`Find`).

      TestCase   `Test case for ([^,]+)`
      IndexKey   `Index\s"([^"]+)"`
      Threshold  `Threshold:\s(.*?),\sOperator`
      Operator   `Operator:\s(\w+)`
      Actual     `Actual:\s(.*)`

    `.` matches every character except '\n'; negated classes such as
    `[^,]` do match '\n'. */
module Patterns {
  import opened Optional
  import opened Text

  datatype Pattern = TestCase | IndexKey | Threshold | Operator | Actual

  /** The literal text each pattern starts with. */
  function Marker(pat: Pattern): string
  {
    match pat
    case TestCase => "Test case for "
    case IndexKey => "Index"
    case Threshold => "Threshold:"
    case Operator => "Operator:"
    case Actual => "Actual:"
  }

  /** Where the captured group begins for a match starting at `p`: after the
      marker, the `\s` that follows every marker but the first, and the
      opening quote of the index. */
  function CaptureStart(pat: Pattern, p: nat): nat
  {
    match pat
    case TestCase => p + 14
    case IndexKey => p + 7
    case Threshold => p + 11
    case Operator => p + 10
    case Actual => p + 8
  }

  /** Everything the pattern demands before its capture group holds at `p`. */
  predicate Opens(pat: Pattern, line: string, p: nat)
  {
    && LiteralAt(line, p, Marker(pat))
    && (pat != TestCase ==> SpaceAt(line, p + |Marker(pat)|))
    && (pat == IndexKey ==> p + 6 < |line| && line[p + 6] == '"')
  }

  /** The threshold terminator `,\sOperator` starts at `k`. */
  predicate TailAt(line: string, k: nat)
  {
    k < |line| && line[k] == ',' && SpaceAt(line, k + 1) && LiteralAt(line, k + 2, "Operator")
  }

  /** The lazy `(.*?),\sOperator` starting at `s` captures up to `e`: no line
      feed before `e`, the terminator at `e`, and no earlier terminator. */
  ghost predicate LazyCapture(line: string, s: nat, e: nat)
  {
    && s <= e <= |line|
    && (forall j :: s <= j < e ==> line[j] != '\n' && !TailAt(line, j))
    && TailAt(line, e)
  }

  /** The capture group of `pat` starting at `s` ends at `e`, under the
      greedy or lazy semantics of its quantifier. */
  ghost predicate CaptureEnds(pat: Pattern, line: string, s: nat, e: nat)
  {
    match pat
    case TestCase =>
      s < e <= |line| && (forall k :: s <= k < e ==> line[k] != ',') && (e == |line| || line[e] == ',')
    case IndexKey =>
      s < e < |line| && (forall k :: s <= k < e ==> line[k] != '"') && line[e] == '"'
    case Threshold =>
      LazyCapture(line, s, e)
    case Operator =>
      s < e <= |line| && (forall k :: s <= k < e ==> IsWordChar(line[k])) && (e == |line| || !IsWordChar(line[e]))
    case Actual =>
      s <= e <= |line| && (forall k :: s <= k < e ==> line[k] != '\n') && (e == |line| || line[e] == '\n')
  }

  /** The regular expression `pat`, anchored at `p`, matches and its group
      is `line[CaptureStart(pat, p)..e]`. */
  ghost predicate Matches(pat: Pattern, line: string, p: nat, e: nat)
  {
    Opens(pat, line, p) && CaptureEnds(pat, line, CaptureStart(pat, p), e)
  }

  ghost predicate NoMatchAt(pat: Pattern, line: string, p: nat)
  {
    forall e :: !Matches(pat, line, p, e)
  }

  /** The regular expression finds no match anywhere in `line`. */
  ghost predicate Unmatched(pat: Pattern, line: string)
  {
    forall q :: 0 <= q <= |line| ==> NoMatchAt(pat, line, q)
  }

  /** The match `Regex.Match` reports: the leftmost starting position. */
  ghost predicate Leftmost(pat: Pattern, line: string, p: nat, e: nat)
  {
    p <= |line| && Matches(pat, line, p, e) && forall q :: 0 <= q < p ==> NoMatchAt(pat, line, q)
  }

  /** `v` is the value of group 1 of the match `Regex.Match` reports. */
  ghost predicate Yields(pat: Pattern, line: string, v: string)
  {
    exists p: nat, e: nat :: Leftmost(pat, line, p, e) && CaptureStart(pat, p) <= e <= |line|
                             && v == line[CaptureStart(pat, p)..e]
  }

  // ---------------------------------------------------------------------
  // Scanners

  datatype CharClass = NotComma | NotQuote | NotNewline | Word

  predicate InClass(cls: CharClass, c: char)
  {
    match cls
    case NotComma => c != ','
    case NotQuote => c != '"'
    case NotNewline => c != '\n'
    case Word => IsWordChar(c)
  }

  /** End of the longest run of `cls` characters starting at `i` (a greedy
      quantifier over a single character class). */
  function RunEnd(cls: CharClass, line: string, i: nat): (e: nat)
    requires i <= |line|
    ensures i <= e <= |line|
    ensures forall k :: i <= k < e ==> InClass(cls, line[k])
    ensures e == |line| || !InClass(cls, line[e])
    decreases |line| - i
  {
    if i < |line| && InClass(cls, line[i]) then RunEnd(cls, line, i + 1) else i
  }

  /** The lazy threshold capture: tries the ends `k`, `k + 1`, ... in turn. */
  function LazyEnd(line: string, s: nat, k: nat): (r: Option<nat>)
    requires s <= k <= |line|
    requires forall j :: s <= j < k ==> line[j] != '\n' && !TailAt(line, j)
    ensures r.Some? ==> LazyCapture(line, s, r.value)
    ensures r.None? ==> forall e :: !LazyCapture(line, s, e)
    decreases |line| - k
  {
    if TailAt(line, k) then Some(k)
    else if k < |line| && line[k] != '\n' then LazyEnd(line, s, k + 1)
    else None
  }

  /** The pattern attempted at position `p` only: the end of its capture. */
  function MatchAt(pat: Pattern, line: string, p: nat): (r: Option<nat>)
    requires p <= |line|
    ensures r.Some? ==> Matches(pat, line, p, r.value)
    ensures r.None? ==> NoMatchAt(pat, line, p)
  {
    if !Opens(pat, line, p) then None
    else
      var s := CaptureStart(pat, p);
      match pat
      case TestCase =>
        var e := RunEnd(NotComma, line, s);
        if s < e then Some(e) else None
      case IndexKey =>
        var e := RunEnd(NotQuote, line, s);
        if s < e < |line| then Some(e) else None
      case Threshold =>
        LazyEnd(line, s, s)
      case Operator =>
        var e := RunEnd(Word, line, s);
        if s < e then Some(e) else None
      case Actual =>
        Some(RunEnd(NotNewline, line, s))
  }

  datatype Hit = Hit(pos: nat, end: nat)

  /** The leftmost match at a position `from` or later. */
  function Find(pat: Pattern, line: string, from: nat): (r: Option<Hit>)
    requires from <= |line| + 1
    ensures r.Some? ==> from <= r.value.pos <= |line| && Matches(pat, line, r.value.pos, r.value.end)
    ensures r.Some? ==> forall q :: from <= q < r.value.pos ==> NoMatchAt(pat, line, q)
    ensures r.None? ==> forall q :: from <= q <= |line| ==> NoMatchAt(pat, line, q)
    decreases |line| + 1 - from
  {
    if from > |line| then None
    else
      match MatchAt(pat, line, from)
      case Some(e) => Some(Hit(from, e))
      case None => Find(pat, line, from + 1)
  }

  /** Group 1 of `Regex.Match(line, pattern)`, or None when the match fails. */
  function Extract(pat: Pattern, line: string): Option<string>
  {
    match Find(pat, line, 0)
    case None => None
    case Some(h) => Some(line[CaptureStart(pat, h.pos)..h.end])
  }

  /** `Extract` fails exactly when the pattern matches nowhere, and otherwise
      returns the group of the leftmost match. */
  lemma ExtractSpec(pat: Pattern, line: string)
    ensures Extract(pat, line).None? <==> Unmatched(pat, line)
    ensures Extract(pat, line).Some? ==> Yields(pat, line, Extract(pat, line).value)
  {
    match Find(pat, line, 0)
    case None =>
    case Some(h) =>
      assert Leftmost(pat, line, h.pos, h.end);
      assert !NoMatchAt(pat, line, h.pos);
  }

  // ---------------------------------------------------------------------
  // The declarative semantics determines the captured value

  /** No capture of `pat` starting at `s` ends strictly inside another:
      greedy captures are maximal runs, the lazy one stops at the first
      terminator. */
  lemma CaptureEndsNotInside(pat: Pattern, line: string, s: nat, hi: nat)
    requires CaptureEnds(pat, line, s, hi)
    ensures forall k :: s <= k < hi ==> !CaptureEnds(pat, line, s, k)
  {
    forall k | s <= k < hi
      ensures !CaptureEnds(pat, line, s, k)
    {
      match pat
      case TestCase => assert line[k] != ',';
      case IndexKey => assert line[k] != '"';
      case Threshold => assert !TailAt(line, k);
      case Operator => assert IsWordChar(line[k]);
      case Actual => assert line[k] != '\n';
    }
  }

  /** Greedy and lazy quantifiers both leave one way to match at a position. */
  lemma MatchesFunctional(pat: Pattern, line: string, p: nat, e1: nat, e2: nat)
    requires Matches(pat, line, p, e1) && Matches(pat, line, p, e2)
    ensures e1 == e2
  {
    CaptureEndsNotInside(pat, line, CaptureStart(pat, p), e1);
    CaptureEndsNotInside(pat, line, CaptureStart(pat, p), e2);
  }

  /** There is one leftmost match. */
  lemma LeftmostUnique(pat: Pattern, line: string, p1: nat, e1: nat, p2: nat, e2: nat)
    requires Leftmost(pat, line, p1, e1) && Leftmost(pat, line, p2, e2)
    ensures p1 == p2 && e1 == e2
  {
    assert !NoMatchAt(pat, line, p1) && !NoMatchAt(pat, line, p2);
    if p1 == p2 {
      MatchesFunctional(pat, line, p1, e1, e2);
    }
  }

  /** The group value of the reported match is determined by the line. */
  lemma YieldsUnique(pat: Pattern, line: string, v: string, w: string)
    requires Yields(pat, line, v) && Yields(pat, line, w)
    ensures v == w
  {
    var p1: nat, e1: nat :| Leftmost(pat, line, p1, e1) && CaptureStart(pat, p1) <= e1 <= |line|
                            && v == line[CaptureStart(pat, p1)..e1];
    var p2: nat, e2: nat :| Leftmost(pat, line, p2, e2) && CaptureStart(pat, p2) <= e2 <= |line|
                            && w == line[CaptureStart(pat, p2)..e2];
    LeftmostUnique(pat, line, p1, e1, p2, e2);
  }

  /** `Extract` is the only function meeting the declarative semantics. */
  lemma ExtractIsTheMatch(pat: Pattern, line: string, v: string)
    ensures Extract(pat, line) == Some(v) <==> Yields(pat, line, v)
  {
    ExtractSpec(pat, line);
    if Yields(pat, line, v) {
      var r := Extract(pat, line);
      var p: nat, e: nat :| Leftmost(pat, line, p, e) && CaptureStart(pat, p) <= e <= |line|
                          && v == line[CaptureStart(pat, p)..e];
      assert !NoMatchAt(pat, line, p);
      assert r.Some?;
      YieldsUnique(pat, line, r.value, v);
    }
  }

  /** The characters a capture group of `pat` may hold. */
  predicate CaptureChar(pat: Pattern, c: char)
  {
    match pat
    case TestCase => c != ','
    case IndexKey => c != '"'
    case Threshold => c != '\n'
    case Operator => IsWordChar(c)
    case Actual => c != '\n'
  }

  /** Every character of a capture is one the group's class admits. */
  lemma CaptureEndsChars(pat: Pattern, line: string, s: nat, e: nat)
    requires CaptureEnds(pat, line, s, e)
    ensures forall k :: s <= k < e ==> CaptureChar(pat, line[k])
  {
    match pat
    case TestCase =>
    case IndexKey =>
    case Threshold =>
    case Operator =>
    case Actual =>
  }

  /** The text a capture spans holds only the class's characters, and is
      non-empty under a `+` quantifier. */
  lemma CaptureShape(pat: Pattern, line: string, s: nat, e: nat)
    requires s <= e <= |line|
    requires CaptureEnds(pat, line, s, e)
    ensures forall j :: 0 <= j < e - s ==> CaptureChar(pat, line[s..e][j])
    ensures pat == TestCase || pat == IndexKey || pat == Operator ==> s < e
  {
    CaptureEndsChars(pat, line, s, e);
    forall j | 0 <= j < e - s ensures CaptureChar(pat, line[s..e][j]) {
      assert line[s..e][j] == line[s + j];
    }
  }

  /** What any reported group of `pat` looks like: only its own characters,
      and at least one of them under a `+` quantifier. */
  lemma YieldsShape(pat: Pattern, line: string, v: string)
    requires Yields(pat, line, v)
    ensures forall j :: 0 <= j < |v| ==> CaptureChar(pat, v[j])
    ensures pat == TestCase || pat == IndexKey || pat == Operator ==> v != ""
  {
    var p: nat, e: nat :| Leftmost(pat, line, p, e) && CaptureStart(pat, p) <= e <= |line|
                        && v == line[CaptureStart(pat, p)..e];
    assert Matches(pat, line, p, e);
    CaptureShape(pat, line, CaptureStart(pat, p), e);
  }

  /** `Actual:\s(.*)` matches wherever its marker and a whitespace occur, so
      the reported match starts at the first such place. */
  lemma ActualOpensIsMatch(line: string, p: nat)
    requires p <= |line|
    ensures NoMatchAt(Actual, line, p) <==> !Opens(Actual, line, p)
  {
    if Opens(Actual, line, p) {
      var e := RunEnd(NotNewline, line, p + 8);
      assert Matches(Actual, line, p, e);
    }
  }

  /** Where the pattern opens, each marker character stands at its place. */
  lemma OpensChar(pat: Pattern, line: string, q: nat, j: nat)
    requires j < |Marker(pat)|
    ensures Opens(pat, line, q) ==> q + j < |line| && line[q + j] == Marker(pat)[j]
  {
    if Opens(pat, line, q) {
      assert line[q..q + |Marker(pat)|][j] == line[q + j];
    }
  }

  /** A character of the marker missing at its place rules out a match. */
  lemma NoMatchWithout(pat: Pattern, line: string, q: nat, j: nat)
    requires j < |Marker(pat)|
    requires q + j < |line| ==> line[q + j] != Marker(pat)[j]
    ensures NoMatchAt(pat, line, q)
  {
    OpensChar(pat, line, q, j);
  }

  /** The index pattern needs its opening quote six places after the start. */
  lemma NoIndexWithoutQuote(line: string, q: nat)
    requires q + 6 < |line| ==> line[q + 6] != '"'
    ensures NoMatchAt(IndexKey, line, q)
  {
  }
}
