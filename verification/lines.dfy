/** Splitting the detail blob into lines the way `String.Split` does with the
    separators "\n" and "\r\n" and empty entries removed: at every position
    "\n" is tried first, then "\r\n"; a lone '\r' stays inside its line. */
module Lines {

  /** A one-element sequence holding `cur`, or nothing when `cur` is empty
      (the removal of empty entries). */
  function Keep(cur: string): (r: seq<string>)
    ensures |r| <= 1
    ensures forall i :: 0 <= i < |r| ==> r[i] == cur && cur != ""
    ensures cur != "" ==> r == [cur]
  {
    if cur == "" then [] else [cur]
  }

  /** A fragment as the split can deliver it: non-empty, with no line feed. */
  predicate IsLine(l: string)
  {
    l != "" && '\n' !in l
  }

  /** The fragments of `s`, given that `cur` holds the characters of the
      current fragment read so far. */
  function SplitFrom(s: string, cur: string): (r: seq<string>)
    requires '\n' !in cur
    ensures forall i :: 0 <= i < |r| ==> IsLine(r[i])
    decreases |s|
  {
    if |s| == 0 then Keep(cur)
    else if s[0] == '\n' then Keep(cur) + SplitFrom(s[1..], "")
    else if |s| >= 2 && s[0] == '\r' && s[1] == '\n' then Keep(cur) + SplitFrom(s[2..], "")
    else SplitFrom(s[1..], cur + [s[0]])
  }

  /** `value.Split(new[] { "\n", "\r\n" }, StringSplitOptions.RemoveEmptyEntries)`. */
  function SplitLines(s: string): (r: seq<string>)
    ensures forall i :: 0 <= i < |r| ==> IsLine(r[i])
  {
    SplitFrom(s, "")
  }

  /** A line the split gives back unchanged when it is followed by "\n":
      non-empty, no line feed, and no trailing '\r' (which would turn the
      following "\n" into a "\r\n" separator). */
  predicate Splittable(l: string)
  {
    IsLine(l) && l[|l| - 1] != '\r'
  }

  /** Reading a separator-free stretch `l` only extends the current fragment. */
  lemma {:induction false} SplitAcrossText(l: string, t: string, cur: string)
    requires '\n' !in cur && '\n' !in l
    requires |l| > 0 && |t| > 0 && t[0] == '\n' ==> l[|l| - 1] != '\r'
    ensures SplitFrom(l + t, cur) == SplitFrom(t, cur + l)
    decreases |l|
  {
    if |l| == 0 {
      assert l + t == t;
      assert cur + l == cur;
    } else {
      var s := l + t;
      assert s[0] == l[0];
      assert s[0] != '\n';
      if |l| == 1 {
        assert s[1..] == t;
        assert !(|s| >= 2 && s[0] == '\r' && s[1] == '\n');
        assert cur + [s[0]] == cur + l;
      } else {
        assert s[1] == l[1] && l[1] != '\n';
        assert s[1..] == l[1..] + t;
        SplitAcrossText(l[1..], t, cur + [l[0]]);
        assert cur + [l[0]] + l[1..] == cur + l;
      }
    }
  }

  /** A separator the split recognises. */
  predicate IsSeparator(sep: string)
  {
    sep == "\n" || sep == "\r\n"
  }

  /** The lines joined with `seps[i]` between line `i` and line `i + 1`;
      each separator may be "\n" or "\r\n", so a blob mixing both is covered. */
  function JoinWith(lines: seq<string>, seps: seq<string>): (s: string)
    requires |seps| + 1 == |lines|
    ensures |lines| == 1 ==> s == lines[0]
    decreases |lines|
  {
    if |lines| == 1 then lines[0]
    else lines[0] + seps[0] + JoinWith(lines[1..], seps[1..])
  }

  /** Line `i` survives the separator after it: non-empty, no line feed,
      and no trailing '\r' where a lone "\n" follows. */
  predicate SplittableBefore(lines: seq<string>, seps: seq<string>, i: nat)
    requires |seps| + 1 == |lines| && i < |lines|
  {
    IsLine(lines[i]) && (i < |seps| && seps[i] == "\n" ==> Splittable(lines[i]))
  }

  /** A separator after the fragment `l` closes it, and drops it when it
      is empty. */
  lemma SeparatorEndsLine(l: string, sep: string, rest: string)
    requires '\n' !in l && IsSeparator(sep)
    ensures SplitFrom(sep + rest, l) == Keep(l) + SplitFrom(rest, "")
  {
    var t := sep + rest;
    assert t[|sep|..] == rest;
  }

  /** The lines with the empty ones removed, in order. */
  function NonEmpty(lines: seq<string>): (r: seq<string>)
    ensures |r| <= |lines|
    ensures forall i :: 0 <= i < |r| ==> r[i] != ""
    decreases |lines|
  {
    if |lines| == 0 then [] else Keep(lines[0]) + NonEmpty(lines[1..])
  }

  /** Removing empty entries from lines that have none changes nothing. */
  lemma {:induction false} NonEmptyKeepsLines(lines: seq<string>)
    requires forall i :: 0 <= i < |lines| ==> lines[i] != ""
    ensures NonEmpty(lines) == lines
    decreases |lines|
  {
    if |lines| > 0 {
      NonEmptyKeepsLines(lines[1..]);
      assert lines == [lines[0]] + lines[1..];
    }
  }

  /** Line `i`, possibly empty, survives the separator after it: no line
      feed, and no trailing '\r' where a lone "\n" follows. */
  predicate LineBefore(lines: seq<string>, seps: seq<string>, i: nat)
    requires |seps| + 1 == |lines| && i < |lines|
  {
    '\n' !in lines[i] && (i < |seps| && seps[i] == "\n" && lines[i] != "" ==> Splittable(lines[i]))
  }

  lemma LineBeforeTail(lines: seq<string>, seps: seq<string>)
    requires |seps| + 1 == |lines| && |lines| >= 2
    requires forall i :: 0 <= i < |lines| ==> LineBefore(lines, seps, i)
    ensures forall i :: 0 <= i < |lines| - 1 ==> LineBefore(lines[1..], seps[1..], i)
  {
    forall i | 0 <= i < |lines| - 1 ensures LineBefore(lines[1..], seps[1..], i) {
      assert LineBefore(lines, seps, i + 1);
    }
  }

  /** Splitting lines joined by any mix of "\n" and "\r\n" gives back the
      lines with the empty ones removed, and nothing else: a blank line or
      a leading or doubled separator only drops the empty entry. */
  lemma {:induction false} SplitJoinWithBlanks(lines: seq<string>, seps: seq<string>)
    requires |seps| + 1 == |lines|
    requires forall i :: 0 <= i < |seps| ==> IsSeparator(seps[i])
    requires forall i :: 0 <= i < |lines| ==> LineBefore(lines, seps, i)
    ensures SplitLines(JoinWith(lines, seps)) == NonEmpty(lines)
    decreases |lines|
  {
    var l := lines[0];
    assert LineBefore(lines, seps, 0);
    if |lines| == 1 {
      SplitAcrossText(l, "", "");
      assert l + "" == l;
      assert "" + l == l;
      assert NonEmpty(lines) == Keep(l) + NonEmpty([]);
    } else {
      var rest := JoinWith(lines[1..], seps[1..]);
      var t := seps[0] + rest;
      assert JoinWith(lines, seps) == l + t;
      assert IsSeparator(seps[0]);
      SplitAcrossText(l, t, "");
      assert "" + l == l;
      SeparatorEndsLine(l, seps[0], rest);
      LineBeforeTail(lines, seps);
      SplitJoinWithBlanks(lines[1..], seps[1..]);
    }
  }

  /** Splitting lines joined by any mix of "\n" and "\r\n" gives back exactly
      those lines: both separators are consumed whole. */
  lemma SplitJoinWithRoundTrip(lines: seq<string>, seps: seq<string>)
    requires |seps| + 1 == |lines|
    requires forall i :: 0 <= i < |seps| ==> IsSeparator(seps[i])
    requires forall i :: 0 <= i < |lines| ==> SplittableBefore(lines, seps, i)
    ensures SplitLines(JoinWith(lines, seps)) == lines
  {
    forall i | 0 <= i < |lines| ensures LineBefore(lines, seps, i) && lines[i] != "" {
      assert SplittableBefore(lines, seps, i);
    }
    SplitJoinWithBlanks(lines, seps);
    NonEmptyKeepsLines(lines);
  }
}
