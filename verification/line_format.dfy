/** A report line written with the five markers in the order `ProcessRows`
    extracts them, and the proof that parsing it gives back exactly the
    fields written. */
module LineFormat {
  import opened Text
  import opened Patterns
  import opened Operators
  import opened LineParser

  /** Name and index text that cannot end a field early or start a marker
      early. */
  predicate Plain(s: string)
  {
    ',' !in s && '"' !in s && ':' !in s && '\n' !in s
  }

  /** The DMA name, index, threshold, operator and retrieved value written
      behind their markers, in the order `ProcessRows` extracts them. */
  function FormatLine(name: string, index: string, threshold: string, op: string, actual: string): string
  {
    "Test case for " + name + ", Index \"" + index + "\" Threshold: " + threshold
      + ", Operator: " + op + ", Actual: " + actual
  }

  /** The fields a written line gives back unchanged. */
  predicate Formattable(name: string, index: string, threshold: string, op: string, actual: string)
  {
    && name != "" && Plain(name)
    && index != "" && Plain(index)
    && '\n' !in threshold && NoTerminatorIn(threshold) && NoMarkerColon(threshold)
    && op != "" && IsWord(op)
    && '\n' !in actual
  }

  /** No threshold terminator `,\s"Operator"` starts inside `t`, counting
      the ", Operator" that follows it on the line. Commas are allowed
      otherwise, as in the range "10, 20". */
  predicate NoTerminatorIn(t: string)
  {
    forall j :: 0 <= j < |t| ==> !TailAt(t + ", Operator", j)
  }

  /** No ':' of `t` has an 'O' eight characters before it or an 'A' six
      before it: a conservative stand-in for "no "Operator:" or "Actual:"
      spelled inside `t`". Colons such as those of "00:05:00" pass. */
  predicate NoMarkerColon(t: string)
  {
    forall i :: 0 <= i < |t| && t[i] == ':' ==> (8 <= i ==> t[i - 8] != 'O') && (6 <= i ==> t[i - 6] != 'A')
  }

  /** A time of day is a threshold the layout admits. */
  lemma TimeThresholdAdmitted()
    ensures Formattable("LinkA", "1", "00:05:00", "EqualTo", "1")
  {
  }

  /** A two-value range, as `Between` and `NotBetween` take, is a threshold
      the layout admits. */
  lemma RangeThresholdAdmitted()
    ensures Formattable("LinkA", "1", "10, 20", "Between", "15")
  {
    var u := "10, 20" + ", Operator";
    forall j | 0 <= j < 6 ensures !TailAt(u, j) {
      if j == 2 {
        assert u[4..12][0] == '2';
      } else {
        assert u[j] != ',';
      }
    }
    assert NoTerminatorIn("10, 20");
  }

  /** Every ':' in `a` has a character other than `c` standing `k` places
      before it: no marker whose `k`-th character is the colon and whose
      first character is `c` can start inside `a`. */
  predicate ColonsGuarded(a: string, k: nat, c: char)
  {
    forall i :: 0 <= i < |a| && a[i] == ':' ==> k <= i && a[i - k] != c
  }

  lemma GuardedAppend(x: string, y: string, k: nat, c: char)
    requires ColonsGuarded(x, k, c)
    requires forall i :: 0 <= i < |y| && y[i] == ':' ==> k <= i && y[i - k] != c
    ensures ColonsGuarded(x + y, k, c)
  {
    forall i | 0 <= i < |x + y| && (x + y)[i] == ':' ensures k <= i && (x + y)[i - k] != c {
      if i >= |x| {
        assert y[i - |x|] == ':';
        if i - |x| >= k {
          assert (x + y)[i - k] == y[i - |x| - k];
        }
      }
    }
  }

  lemma GuardedPlain(x: string, y: string, k: nat, c: char)
    requires ColonsGuarded(x, k, c) && ':' !in y
    ensures ColonsGuarded(x + y, k, c)
  {
    forall i | 0 <= i < |y| ensures y[i] != ':' {
      assert y[i] in y;
    }
    GuardedAppend(x, y, k, c);
  }

  /** A threshold behind its marker keeps the later markers from starting
      early: the eight characters before its first positions are the tail
      of "Threshold: ", which holds neither 'O' nor 'A'. */
  lemma GuardedThreshold(h: string, t: string, k: nat, c: char)
    requires (k == 8 && c == 'O') || (k == 6 && c == 'A')
    requires ColonsGuarded(h + "\" Threshold: ", k, c) && NoMarkerColon(t)
    ensures ColonsGuarded(h + "\" Threshold: " + t, k, c)
  {
    var lit := "\" Threshold: ";
    var x := h + lit;
    assert forall m :: 5 <= m < 13 ==> lit[m] != 'O' && lit[m] != 'A';
    forall i | 0 <= i < |x + t| && (x + t)[i] == ':' ensures k <= i && (x + t)[i - k] != c {
      if i < |x| {
        assert (x + t)[i] == x[i];
        assert (x + t)[i - k] == x[i - k];
      } else {
        var j := i - |x|;
        assert t[j] == ':';
        if j >= k {
          assert (x + t)[i - k] == t[j - k];
        } else {
          assert (x + t)[i - k] == x[i - k];
          assert x[i - k] == lit[i - k - |h|];
        }
      }
    }
  }

  // ---------------------------------------------------------------------
  // One field at a time

  lemma TestCaseFirst(name: string, r: string)
    requires name != "" && ',' !in name
    ensures FieldValue(TestCase, "Test case for " + name + "," + r) == name
  {
    var line := "Test case for " + name + "," + r;
    var e := 14 + |name|;
    assert line[0..14] == "Test case for ";
    assert line[14..e] == name;
    forall k | 14 <= k < e ensures line[k] != ',' {
      assert line[k] == name[k - 14];
    }
    assert Matches(TestCase, line, 0, e);
    FieldFromLeftmost(TestCase, line, 0, e);
  }

  lemma IndexAfter(a: string, index: string, r: string)
    requires '"' !in a && index != "" && '"' !in index
    ensures FieldValue(IndexKey, a + "Index \"" + index + "\"" + r) == index
  {
    var line := a + "Index \"" + index + "\"" + r;
    var p := |a|;
    var e := p + 7 + |index|;
    assert line[p..p + 5] == "Index";
    assert line[p + 7..e] == index;
    forall k | p + 7 <= k < e ensures line[k] != '"' {
      assert line[k] == index[k - p - 7];
    }
    assert Matches(IndexKey, line, p, e);
    forall q: nat | q < p ensures NoMatchAt(IndexKey, line, q) {
      if q + 6 < p {
        assert line[q + 6] == a[q + 6];
      }
      NoIndexWithoutQuote(line, q);
    }
    FieldFromLeftmost(IndexKey, line, p, e);
  }

  /** A slice inside the left part of a concatenation. */
  lemma SliceLeft<T>(x: seq<T>, y: seq<T>, i: nat, j: nat)
    requires i <= j <= |x|
    ensures (x + y)[i..j] == x[i..j]
  {
  }

  /** A slice inside the right part of a concatenation. */
  lemma SliceRight<T>(x: seq<T>, y: seq<T>, i: nat, j: nat)
    requires i <= j <= |y|
    ensures (x + y)[|x| + i..|x| + j] == y[i..j]
  {
  }

  /** A prefix reaching into the right part of a concatenation. */
  lemma PrefixAcross<T>(x: seq<T>, y: seq<T>, j: nat)
    requires |x| <= j <= |x| + |y|
    ensures (x + y)[..j] == x + y[..j - |x|]
  {
  }

  /** Where "Threshold:" and a whitespace open at `p`, no colon stands
      earlier, and the text from `p + 11` to `e` holds no line feed and no
      terminator and is followed by one, the threshold extractor returns
      `line[p + 11..e]`. */
  lemma ThresholdAt(line: string, p: nat, e: nat)
    requires Opens(Threshold, line, p)
    requires p + 11 <= e && TailAt(line, e)
    requires forall j :: p + 11 <= j < e ==> !TailAt(line, j)
    requires '\n' !in line[p + 11..e]
    requires p + 9 <= |line| && ':' !in line[..p + 9]
    ensures FieldValue(Threshold, line) == line[p + 11..e]
  {
    forall j | p + 11 <= j < e ensures line[j] != '\n' && !TailAt(line, j) {
      assert line[j] == line[p + 11..e][j - p - 11];
    }
    assert Matches(Threshold, line, p, e);
    forall q: nat | q < p ensures NoMatchAt(Threshold, line, q) {
      assert line[q + 9] == line[..p + 9][q + 9];
      NoMatchWithout(Threshold, line, q, 9);
    }
    FieldFromLeftmost(Threshold, line, p, e);
  }

  /** Whether a terminator starts at a position depends only on the ten
      characters from there on. */
  lemma TailInside(x: string, u: string, v: string, j: nat)
    requires j + 10 <= |u|
    ensures TailAt(x + u + v, |x| + j) == TailAt(u, j)
  {
    var k := |x| + j;
    SliceLeft(x + u, v, k + 2, k + 10);
    SliceRight(x, u, j + 2, j + 10);
    assert (x + u + v)[k] == u[j];
    assert (x + u + v)[k + 1] == u[j + 1];
  }

  /** The line the threshold lemmas talk about: some text without
      colons, the closing quote of the index, the threshold and the
      operator marker. */
  function ThresholdLine(a: string, threshold: string, r: string): string
  {
    a + "\" Threshold: " + threshold + ", Operator: " + r
  }

  lemma ThresholdLineOpens(a: string, threshold: string, r: string)
    ensures Opens(Threshold, ThresholdLine(a, threshold, r), |a| + 2)
  {
    var line := ThresholdLine(a, threshold, r);
    var p := |a| + 2;
    ThresholdLineMarker(a, threshold, r);
    assert line[p..p + 10] == line[p..p + 11][..10];
    assert line[p + 10] == line[p..p + 11][10];
  }

  lemma ThresholdLineMarker(a: string, threshold: string, r: string)
    ensures |ThresholdLine(a, threshold, r)| >= |a| + 13
    ensures ThresholdLine(a, threshold, r)[|a| + 2..|a| + 13] == "Threshold: "
  {
    var lit := "\" Threshold: ";
    var x := a + lit;
    var z := ", Operator: " + r;
    var line := x + threshold + z;
    assert line == ThresholdLine(a, threshold, r);
    var p := |a| + 2;
    SliceLeft(x + threshold, z, p, p + 11);
    SliceLeft(x, threshold, p, p + 11);
    SliceRight(a, lit, 2, 13);
    assert lit[2..13] == "Threshold: ";
    assert line[p..p + 11] == "Threshold: ";
  }

  lemma ThresholdLineValue(a: string, threshold: string, r: string)
    ensures ThresholdLine(a, threshold, r)[|a| + 13..|a| + 13 + |threshold|] == threshold
  {
    var x := a + "\" Threshold: ";
    var z := ", Operator: " + r;
    assert x + threshold + z == ThresholdLine(a, threshold, r);
    SliceLeft(x + threshold, z, |x|, |x| + |threshold|);
    SliceRight(x, threshold, 0, |threshold|);
  }

  lemma ThresholdLineTail(a: string, threshold: string, r: string)
    ensures TailAt(ThresholdLine(a, threshold, r), |a| + 13 + |threshold|)
  {
    var x := a + "\" Threshold: ";
    var z := ", Operator: " + r;
    var line := x + threshold + z;
    assert line == ThresholdLine(a, threshold, r);
    var e := |x| + |threshold|;
    SliceRight(x + threshold, z, 0, 10);
    SliceLeft(", Operator: ", r, 0, 10);
    assert line[e..e + 10] == ", Operator";
    assert line[e] == ',' && line[e + 1] == ' ';
    assert line[e + 2..e + 10] == line[e..e + 10][2..10];
  }

  lemma ThresholdLineHead(a: string, threshold: string, r: string)
    requires ':' !in a
    ensures ':' !in ThresholdLine(a, threshold, r)[..|a| + 11]
  {
    var lit := "\" Threshold: ";
    var x := a + lit;
    var z := ", Operator: " + r;
    var line := x + threshold + z;
    assert line == ThresholdLine(a, threshold, r);
    var p := |a| + 2;
    SliceLeft(x + threshold, z, 0, p + 9);
    SliceLeft(x, threshold, 0, p + 9);
    PrefixAcross(a, lit, p + 9);
    assert lit[..11] == "\" Threshold";
    assert ':' !in a + "\" Threshold";
  }

  lemma ThresholdLineNoEarlyTail(a: string, threshold: string, r: string)
    requires NoTerminatorIn(threshold)
    ensures forall j :: |a| + 13 <= j < |a| + 13 + |threshold| ==> !TailAt(ThresholdLine(a, threshold, r), j)
  {
    var x := a + "\" Threshold: ";
    var u := threshold + ", Operator";
    var v := ": " + r;
    assert ThresholdLine(a, threshold, r) == x + u + v;
    forall j | |x| <= j < |x| + |threshold| ensures !TailAt(x + u + v, j) {
      TailInside(x, u, v, j - |x|);
    }
  }

  lemma ThresholdAfter(a: string, threshold: string, r: string)
    requires ':' !in a && NoTerminatorIn(threshold) && '\n' !in threshold
    ensures FieldValue(Threshold, ThresholdLine(a, threshold, r)) == threshold
  {
    var line := ThresholdLine(a, threshold, r);
    ThresholdLineNoEarlyTail(a, threshold, r);
    ThresholdLineOpens(a, threshold, r);
    ThresholdLineValue(a, threshold, r);
    ThresholdLineTail(a, threshold, r);
    ThresholdLineHead(a, threshold, r);
    ThresholdAt(line, |a| + 2, |a| + 13 + |threshold|);
  }

  lemma OperatorAfter(a: string, op: string, r: string)
    requires ColonsGuarded(a, 8, 'O') && op != "" && IsWord(op)
    ensures FieldValue(Operator, a + "Operator: " + op + ", " + r) == op
  {
    var line := a + "Operator: " + op + ", " + r;
    var p := |a|;
    var s := p + 10;
    var e := s + |op|;
    assert line[p..p + 9] == "Operator:";
    assert line[s..e] == op;
    forall k | s <= k < e ensures IsWordChar(line[k]) {
      assert line[k] == op[k - s];
    }
    assert Matches(Operator, line, p, e);
    forall q: nat | q < p ensures NoMatchAt(Operator, line, q) {
      if q + 8 < p && a[q + 8] == ':' {
        assert line[q] == a[q];
        NoMatchWithout(Operator, line, q, 0);
      } else {
        if q + 8 < p {
          assert line[q + 8] == a[q + 8];
        }
        NoMatchWithout(Operator, line, q, 8);
      }
    }
    FieldFromLeftmost(Operator, line, p, e);
  }

  lemma ActualAfter(a: string, actual: string)
    requires ColonsGuarded(a, 6, 'A') && '\n' !in actual
    ensures FieldValue(Actual, a + "Actual: " + actual) == actual
  {
    var line := a + "Actual: " + actual;
    var p := |a|;
    var s := p + 8;
    assert line[p..p + 7] == "Actual:";
    assert line[s..] == actual;
    forall k | s <= k < |line| ensures line[k] != '\n' {
      assert line[k] == actual[k - s];
    }
    assert Matches(Actual, line, p, |line|);
    forall q: nat | q < p ensures NoMatchAt(Actual, line, q) {
      if q + 6 < p && a[q + 6] == ':' {
        assert line[q] == a[q];
        NoMatchWithout(Actual, line, q, 0);
      } else {
        if q + 6 < p {
          assert line[q + 6] == a[q + 6];
        }
        NoMatchWithout(Actual, line, q, 6);
      }
    }
    FieldFromLeftmost(Actual, line, p, |line|);
  }

  // ---------------------------------------------------------------------
  // The whole line

  /** The text before "Operator:" and before "Actual:" keeps both markers
      from starting early: its colons follow "Threshold", "Operator" or a
      threshold character that spells neither marker. */
  /** The text up to the end of the threshold keeps either marker from
      starting early. */
  lemma HeadGuarded(name: string, index: string, threshold: string, k: nat, c: char)
    requires (k == 8 && c == 'O') || (k == 6 && c == 'A')
    requires Plain(name) && Plain(index) && NoMarkerColon(threshold)
    ensures ColonsGuarded("Test case for " + name + ", Index \"" + index + "\" Threshold: " + threshold, k, c)
  {
    var head := "Test case for " + name + ", Index \"" + index;
    assert ':' !in "Test case for " && ':' !in ", Index \"";
    GuardedPlain("", "Test case for ", k, c);
    assert "" + "Test case for " == "Test case for ";
    GuardedPlain("Test case for ", name, k, c);
    GuardedPlain("Test case for " + name, ", Index \"", k, c);
    GuardedPlain("Test case for " + name + ", Index \"", index, k, c);
    var th := "\" Threshold: ";
    assert th[11] == ':' && th[3] == 'h' && th[5] == 'e';
    assert forall i :: 0 <= i < |th| && th[i] == ':' ==> i == 11;
    GuardedAppend(head, th, k, c);
    GuardedThreshold(head, threshold, k, c);
  }

  lemma PrefixesGuarded(name: string, index: string, threshold: string, op: string)
    requires Plain(name) && Plain(index) && NoMarkerColon(threshold) && IsWord(op)
    ensures ColonsGuarded("Test case for " + name + ", Index \"" + index + "\" Threshold: " + threshold + ", ", 8, 'O')
    ensures ColonsGuarded("Test case for " + name + ", Index \"" + index + "\" Threshold: " + threshold
                          + ", Operator: " + op + ", ", 6, 'A')
  {
    var head := "Test case for " + name + ", Index \"" + index;
    var th := "\" Threshold: ";
    HeadGuarded(name, index, threshold, 8, 'O');
    GuardedPlain(head + th + threshold, ", ", 8, 'O');
    HeadGuarded(name, index, threshold, 6, 'A');
    var opm := ", Operator: ";
    assert opm[10] == ':' && opm[4] == 'e';
    assert forall i :: 0 <= i < |opm| && opm[i] == ':' ==> i == 10;
    GuardedAppend(head + th + threshold, opm, 6, 'A');
    assert ':' !in op by {
      forall i | 0 <= i < |op| ensures op[i] != ':' {
        assert IsWordChar(op[i]);
      }
    }
    GuardedPlain(head + th + threshold + opm, op, 6, 'A');
    GuardedPlain(head + th + threshold + opm + op, ", ", 6, 'A');
  }

  /** The text before the index holds no quote, and the text before the
      threshold no colon, when the name and index are plain. */
  lemma HeadsPlain(name: string, index: string)
    requires Plain(name) && Plain(index)
    ensures '"' !in "Test case for " + name + ", "
    ensures ':' !in "Test case for " + name + ", Index \"" + index
  {
  }

  lemma FormatTestCase(name: string, index: string, threshold: string, op: string, actual: string)
    requires name != "" && Plain(name)
    ensures FieldValue(TestCase, FormatLine(name, index, threshold, op, actual)) == name
  {
    var r := " Index \"" + index + "\" Threshold: " + threshold + ", Operator: " + op + ", Actual: " + actual;
    assert FormatLine(name, index, threshold, op, actual) == "Test case for " + name + "," + r;
    TestCaseFirst(name, r);
  }

  lemma FormatIndex(name: string, index: string, threshold: string, op: string, actual: string)
    requires Plain(name) && index != "" && Plain(index)
    ensures FieldValue(IndexKey, FormatLine(name, index, threshold, op, actual)) == index
  {
    var a := "Test case for " + name + ", ";
    var r := " Threshold: " + threshold + ", Operator: " + op + ", Actual: " + actual;
    HeadsPlain(name, index);
    FormatLineAtIndex(name, index, threshold, op, actual);
    IndexAfter(a, index, r);
  }

  /** The written line seen around its index marker. */
  lemma FormatLineAtIndex(name: string, index: string, threshold: string, op: string, actual: string)
    ensures FormatLine(name, index, threshold, op, actual) ==
              ("Test case for " + name + ", ") + "Index \"" + index + "\""
              + (" Threshold: " + threshold + ", Operator: " + op + ", Actual: " + actual)
  {
  }

  /** The threshold comes back whatever the operator and the retrieved
      value hold, and whatever colons it has itself. */
  lemma FormatThreshold(name: string, index: string, threshold: string, op: string, actual: string)
    requires Plain(name) && Plain(index)
    requires '\n' !in threshold && NoTerminatorIn(threshold)
    ensures FieldValue(Threshold, FormatLine(name, index, threshold, op, actual)) == threshold
  {
    var a := "Test case for " + name + ", Index \"" + index;
    HeadsPlain(name, index);
    assert FormatLine(name, index, threshold, op, actual) ==
           ThresholdLine(a, threshold, op + ", Actual: " + actual);
    ThresholdAfter(a, threshold, op + ", Actual: " + actual);
  }

  /** "Avg 10:00" spells no marker, but its colon has an 'A' six places
      before it: `Formattable` rejects it, and the threshold still comes
      back. */
  lemma MarkerFreeThresholdComesBack()
    ensures !Formattable("LinkA", "1", "Avg 10:00", "EqualTo", "1")
    ensures FieldValue(Threshold, FormatLine("LinkA", "1", "Avg 10:00", "EqualTo", "1")) == "Avg 10:00"
  {
    var t := "Avg 10:00";
    assert t[6] == ':' && t[0] == 'A';
    assert forall j :: 0 <= j < |t| ==> t[j] != ',';
    assert NoTerminatorIn(t) by {
      forall j | 0 <= j < |t| ensures !TailAt(t + ", Operator", j) {
        assert (t + ", Operator")[j] == t[j];
      }
    }
    FormatThreshold("LinkA", "1", t, "EqualTo", "1");
  }

  lemma FormatOperator(name: string, index: string, threshold: string, op: string, actual: string)
    requires Formattable(name, index, threshold, op, actual)
    ensures FieldValue(Operator, FormatLine(name, index, threshold, op, actual)) == op
  {
    PrefixesGuarded(name, index, threshold, op);
    var a := "Test case for " + name + ", Index \"" + index + "\" Threshold: " + threshold + ", ";
    assert FormatLine(name, index, threshold, op, actual) == a + "Operator: " + op + ", " + ("Actual: " + actual);
    OperatorAfter(a, op, "Actual: " + actual);
  }

  lemma FormatActual(name: string, index: string, threshold: string, op: string, actual: string)
    requires Formattable(name, index, threshold, op, actual)
    ensures FieldValue(Actual, FormatLine(name, index, threshold, op, actual)) == actual
  {
    PrefixesGuarded(name, index, threshold, op);
    var a := "Test case for " + name + ", Index \"" + index + "\" Threshold: " + threshold
             + ", Operator: " + op + ", ";
    assert FormatLine(name, index, threshold, op, actual) == a + "Actual: " + actual;
    ActualAfter(a, actual);
  }

  /** Parsing a line written by `FormatLine` gives back the test
      case, the index and the retrieved value exactly, and the operator's
      symbol joined to the threshold by one space. */
  lemma FormatParseRoundTrip(name: string, index: string, threshold: string, op: string, actual: string)
    requires Formattable(name, index, threshold, op, actual)
    ensures ParseLine(FormatLine(name, index, threshold, op, actual)) ==
              Row(name, index, Symbol(op) + " " + threshold, actual)
  {
    FormatTestCase(name, index, threshold, op, actual);
    FormatIndex(name, index, threshold, op, actual);
    FormatThreshold(name, index, threshold, op, actual);
    FormatOperator(name, index, threshold, op, actual);
    FormatActual(name, index, threshold, op, actual);
  }
}
