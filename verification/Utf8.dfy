/** Well-formed UTF-8, the type invariant of a Rust `String`. */
module Utf8 {
  import opened Bytes

  predicate Continuation(b: Byte) {
    0x80 <= b <= 0xBF
  }

  /** The number of octets of the scalar value `s` starts with, 0 when it
      starts with none. */
  function ScalarLength(s: seq<Byte>): (n: nat)
    ensures n <= |s|
  {
    if |s| >= 1 && s[0] <= 0x7F then 1
    else if |s| >= 2 && 0xC2 <= s[0] <= 0xDF && Continuation(s[1]) then 2
    else if |s| >= 3 && Continuation(s[1]) && Continuation(s[2])
            && (|| (s[0] == 0xE0 && 0xA0 <= s[1])
                || 0xE1 <= s[0] <= 0xEC
                || (s[0] == 0xED && s[1] <= 0x9F)
                || 0xEE <= s[0] <= 0xEF) then 3
    else if |s| >= 4 && Continuation(s[1]) && Continuation(s[2]) && Continuation(s[3])
            && (|| (s[0] == 0xF0 && 0x90 <= s[1])
                || 0xF1 <= s[0] <= 0xF3
                || (s[0] == 0xF4 && s[1] <= 0x8F)) then 4
    else 0
  }

  predicate IsUtf8(s: seq<Byte>) {
    |s| == 0 || (ScalarLength(s) > 0 && IsUtf8(s[ScalarLength(s)..]))
  }

  type Utf8String = s: seq<Byte> | IsUtf8(s)
}
