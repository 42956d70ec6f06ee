/** Bytes of C buffers and strings, and the ranges of C integers. */
module Bytes {

  /** One byte, written as the character it stands for. */
  type octet = c: char | c as int < 256 witness 'A'

  const INT_MIN: int := -0x8000_0000
  const INT_MAX: nat := 0x7FFF_FFFF
  const INT64_MIN: int := -0x8000_0000_0000_0000
  const INT64_MAX: nat := 0x7FFF_FFFF_FFFF_FFFF

  const NUL: octet := '\0'
  const LF: octet := '\n'
  const CR: octet := '\r'

  predicate IsDigit(c: char) { '0' <= c <= '9' }
  predicate IsAlpha(c: char) { 'a' <= c <= 'z' || 'A' <= c <= 'Z' }
  predicate IsAlnum(c: char) { IsAlpha(c) || IsDigit(c) }
  predicate IsBlank(c: char) { c == ' ' || c == '\t' }

  /** A C string of `max` bytes at most, as the contents of a buffer before its NUL. */
  function Truncate<T>(s: seq<T>, max: nat): (r: seq<T>)
    ensures r <= s && |r| == if |s| < max then |s| else max
  {
    if |s| <= max then s else s[..max]
  }

  datatype Option<+T> = None | Some(value: T)
}

/** The limits of src/nbs-chat/chat_file.h and the archive step. */
module Limits {
  const MAX_HANDLE_LEN: nat := 64
  const MAX_MESSAGE_LEN: nat := 1048576
  const MAX_MESSAGES: nat := 10000
  const MAX_PARTICIPANTS: nat := 256
  const ARCHIVE_THRESHOLD: nat := 2000
  const ARCHIVE_CLEAVE: nat := 1000
}
