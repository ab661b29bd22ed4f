/** Character classes and literal matching shared by the line splitter and
    the five field extractors. */
module Text {

  /** ASCII approximation of the regular-expression class `\s`. */
  predicate IsSpace(c: char)
  {
    c == ' ' || c == '\t' || c == '\n' || c == '\r' || c == '\U{B}' || c == '\U{C}'
  }

  /** ASCII approximation of the regular-expression class `\w`. */
  predicate IsWordChar(c: char)
  {
    ('a' <= c <= 'z') || ('A' <= c <= 'Z') || ('0' <= c <= '9') || c == '_'
  }

  /** `lit` occurs in `line` starting at position `p`. */
  predicate LiteralAt(line: string, p: nat, lit: string)
  {
    p + |lit| <= |line| && line[p..p + |lit|] == lit
  }

  /** Position `i` exists and holds a whitespace character. */
  predicate SpaceAt(line: string, i: nat)
  {
    i < |line| && IsSpace(line[i])
  }
}
