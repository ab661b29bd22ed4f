/** The fixed table that turns an operator name from the report into the
    symbol shown in the "Passing Condition" column. */
module Operators {
  import opened Text

  const OperatorSymbols: map<string, string> := map[
    "EqualTo" := "=",
    "NotEqualTo" := "≠",
    "LessThan" := "<",
    "LessThanOrEqual" := "≤",
    "GreaterThan" := ">",
    "GreaterThanOrEqual" := "≥",
    "Between" := "Between",
    "NotBetween" := "Not Between"
  ]

  /** The display form of an operator token: its table entry, or the token
      itself when the table does not know it. */
  function Symbol(op: string): (r: string)
  {
    if op in OperatorSymbols then OperatorSymbols[op] else op
  }

  /** Each of the eight known names maps to its fixed symbol. */
  lemma KnownSymbols()
    ensures Symbol("EqualTo") == "="
    ensures Symbol("NotEqualTo") == "≠"
    ensures Symbol("LessThan") == "<"
    ensures Symbol("LessThanOrEqual") == "≤"
    ensures Symbol("GreaterThan") == ">"
    ensures Symbol("GreaterThanOrEqual") == "≥"
    ensures Symbol("Between") == "Between"
    ensures Symbol("NotBetween") == "Not Between"
  {
  }

  /** The table holds exactly the eight names. */
  lemma TableKeys()
    ensures OperatorSymbols.Keys == {"EqualTo", "NotEqualTo", "LessThan", "LessThanOrEqual",
                                     "GreaterThan", "GreaterThanOrEqual", "Between", "NotBetween"}
  {
  }

  /** Any other token, the empty one included, is shown unchanged. */
  lemma UnknownPassesThrough(op: string)
    requires op !in {"EqualTo", "NotEqualTo", "LessThan", "LessThanOrEqual",
                     "GreaterThan", "GreaterThanOrEqual", "Between", "NotBetween"}
    ensures Symbol(op) == op
  {
  }

  predicate IsWord(t: string)
  {
    forall i :: 0 <= i < |t| ==> IsWordChar(t[i])
  }

  /** On the tokens `Operator:\s(\w+)` can capture the display is
      unambiguous: two different tokens never show the same symbol. */
  lemma SymbolInjectiveOnWords(a: string, b: string)
    requires IsWord(a) && IsWord(b)
    requires Symbol(a) == Symbol(b)
    ensures a == b
  {
    if a in OperatorSymbols && b !in OperatorSymbols {
      NotAWord(a, b);
    } else if b in OperatorSymbols && a !in OperatorSymbols {
      NotAWord(b, a);
    }
  }

  /** A symbol that is not itself a known name contains a non-word character. */
  lemma NotAWord(known: string, t: string)
    requires known in OperatorSymbols && t !in OperatorSymbols
    requires t == OperatorSymbols[known]
    ensures !IsWord(t)
  {
    if known == "NotBetween" {
      assert !IsWordChar(t[3]);
    } else {
      assert !IsWordChar(t[0]);
    }
  }
}
