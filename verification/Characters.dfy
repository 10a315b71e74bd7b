/** Classes of characters, as the source's regular expressions and trims know them. */
module Characters {
  predicate IsDigit(c: char) { '0' <= c <= '9' }

  /** What `\s` matches and `trim` removes. */
  predicate IsSpace(c: char) {
    c in {' ', '\t', '\n', '\r', '\U{B}', '\U{C}', '\U{A0}', '\U{FEFF}', '\U{2028}', '\U{2029}'}
    || c in {'\U{1680}', '\U{202F}', '\U{205F}', '\U{3000}'} || '\U{2000}' <= c <= '\U{200A}'
  }
}
