/** Character classes of the C locale. */
module Ascii {

  predicate IsSpace(c: char) { c == ' ' || '\t' <= c <= '\r' }
}
