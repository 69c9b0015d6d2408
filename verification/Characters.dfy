/** Character classes shared by the argv parser and the path normalization. */
module Characters {

  /** The code points with the Unicode White_Space property. */
  predicate IsWhitespace(c: char) {
    var p := c as int;
    0x09 <= p <= 0x0D || p == 0x20 || p == 0x85 || p == 0xA0 || p == 0x1680
    || 0x2000 <= p <= 0x200A || p == 0x2028 || p == 0x2029 || p == 0x202F || p == 0x205F || p == 0x3000
  }
}
