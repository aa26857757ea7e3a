/** Code points, bytes and white space, as the Go standard library sees them. */
module Text {

  datatype Option<T> = None | Some(value: T)

  type Byte = b: int | 0 <= b < 256

  const BACKSLASH: Byte := 0x5C

  /** A Unicode scalar value: what a Go `rune` decoded from a string can be. */
  type Rune = r: int | 0 <= r < 0xD800 || 0xE000 <= r < 0x110000

  /** `unicode.IsSpace` */
  predicate IsSpace(r: int) {
    || 0x09 <= r <= 0x0D || r == 0x20 || r == 0x85 || r == 0xA0
    || r == 0x1680 || 0x2000 <= r <= 0x200A || r == 0x2028 || r == 0x2029
    || r == 0x202F || r == 0x205F || r == 0x3000
  }

  /** `strings.TrimSpace(s) == ""` */
  predicate Blank(s: string) {
    forall i :: 0 <= i < |s| ==> IsSpace(s[i] as int)
  }
}
