module Characters {

  predicate Letter(c: char) {
    'a' <= c <= 'z' || 'A' <= c <= 'Z'
  }

  predicate Digit(c: char) {
    '0' <= c <= '9'
  }
}
