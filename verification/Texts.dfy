/** Go strings are byte sequences. */
module Texts {
  type Byte = b: int | 0 <= b < 256

  type Text = seq<Byte>
}
