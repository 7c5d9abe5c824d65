/** NUL-terminated C strings as sequences of their non-NUL bytes, and the
    character arithmetic the menu code performs on them. */
module CString {

  /** One byte of a C string before its terminator: never NUL. */
  newtype CChar = c: int | 1 <= c < 256 witness 1

  type CStr = seq<CChar>

  const UpperA: int := 'A' as int
  const UpperZ: int := 'Z' as int
  const LowerA: int := 'a' as int
  const LowerZ: int := 'z' as int

  /** `(int)*s`: the first byte of `s` read through a signed `char`, so the
      terminator (0) for the empty string and -128..-1 for bytes 128..255.
      Together with the range, the second ensures says the value is the
      byte itself read modulo 256. */
  function FirstCharValue(s: CStr): (r: int)
    ensures -128 <= r < 128
    ensures r == 0 <==> |s| == 0
    ensures |s| > 0 ==> r == s[0] as int || r == s[0] as int - 256
  {
    if |s| == 0 then 0
    else if s[0] < 128 then s[0] as int
    else s[0] as int - 256
  }

  /** `tolower` in the "C" locale: only 'A'..'Z' change. */
  function ToLower(c: int): int
  {
    if UpperA <= c <= UpperZ then c + (LowerA - UpperA) else c
  }
}
