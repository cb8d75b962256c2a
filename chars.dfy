/**
 * The character classes of <cctype> in the "C" locale, as the tokenizer and
 * the renderer use them. Only ASCII letters and digits qualify.
 */
module Chars {

  /** std::isspace: space, tab, newline, vertical tab, form feed, carriage return. */
  predicate IsSpace(c: char) {
    c == ' ' || c == '\t' || c == '\n' || c == '\U{000B}' || c == '\U{000C}' || c == '\r'
  }

  /** std::isalpha */
  predicate IsAlpha(c: char) {
    ('a' <= c <= 'z') || ('A' <= c <= 'Z')
  }

  /** std::isdigit */
  predicate IsDigit(c: char) {
    '0' <= c <= '9'
  }

  /** std::isalnum */
  predicate IsAlnum(c: char) {
    IsAlpha(c) || IsDigit(c)
  }
}
