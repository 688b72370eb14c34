/** Character classes of the "C" locale. */
module Chars {

  predicate IsDigit(c: char) {
    '0' <= c <= '9'
  }

  predicate IsSpace(c: char) {
    c == ' ' || '\t' <= c <= '\r'
  }

  /** The white space characters, one by one */
  const WHITE := " \t\n\U{0B}\U{0C}\r"

  lemma WhiteIsSpace(c: char)
    ensures c in WHITE <==> IsSpace(c)
  {
  }
}
