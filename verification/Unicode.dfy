/** The character classes the text transformations consult. */
module Unicode {

  /** The White_Space property, as `char::is_whitespace` tests it. */
  predicate IsWhitespace(c: char) {
    || '\U{0009}' <= c <= '\U{000D}'
    || c == ' '
    || c == '\U{0085}'
    || c == '\U{00A0}'
    || c == '\U{1680}'
    || '\U{2000}' <= c <= '\U{200A}'
    || c == '\U{2028}'
    || c == '\U{2029}'
    || c == '\U{202F}'
    || c == '\U{205F}'
    || c == '\U{3000}'
  }

  /** Python also splits on the four information separators. */
  predicate IsPythonWhitespace(c: char) {
    IsWhitespace(c) || '\U{001C}' <= c <= '\U{001F}'
  }

  /** The tables that are too large to write out: alphanumerics and lowercase mappings. */
  datatype Tables = Tables(alphanumeric: char -> bool, lowercase: char -> string)

  /** The whitespace characters, one by one. */
  lemma WhitespaceIs(c: char)
    ensures IsWhitespace(c) <==>
      || c in "\t\n\U{000B}\U{000C}\r \U{0085}\U{00A0}\U{1680}"
      || c in "\U{2000}\U{2001}\U{2002}\U{2003}\U{2004}\U{2005}\U{2006}\U{2007}\U{2008}\U{2009}\U{200A}"
      || c in "\U{2028}\U{2029}\U{202F}\U{205F}\U{3000}"
    ensures IsPythonWhitespace(c) <==> IsWhitespace(c) || c in "\U{001C}\U{001D}\U{001E}\U{001F}"
  {
  }
}
