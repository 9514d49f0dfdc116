/** Texts are byte sequences, as Go strings are; every offset below is a byte offset. */
module Bytes {

  type Byte = b: int | 0 <= b < 256
  type Text = seq<Byte>

  datatype Option<+T> = None | Some(value: T)

  const NEWLINE: Byte := 10
  const DIGIT_ZERO: Byte := 48
  const UNDERSCORE: Byte := 95
  const OPEN_BRACKET: Byte := 91
  const CLOSE_BRACKET: Byte := 93

  predicate IsDigit(b: Byte) {
    DIGIT_ZERO <= b <= DIGIT_ZERO + 9
  }

  /** `token` stands in `text` at byte offset `at`. */
  predicate OccursAt(text: Text, token: Text, at: int) {
    0 <= at && at + |token| <= |text| && text[at..at + |token|] == token
  }
}
