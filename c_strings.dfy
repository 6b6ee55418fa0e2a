/** Option: the result of a C call that returns a pointer, None standing for NULL. */
module Wrappers {

  datatype Option<+T> = None | Some(value: T)
}

/**
 * The C string convention that generate_salt, encrypt_string and verify_hash
 * rely on: a character buffer holds the characters before its first NUL, and
 * strcpy/strcmp read and write nothing but those characters and the NUL.
 */
module CStrings {

  /** The terminator '\0'. */
  const NUL: char := '\0'

  /** What a `const char *` designates: the characters before the terminator, so never a NUL. */
  type CString = s: string | NUL !in s

  /**
   * The C string a buffer holds: every character before its first NUL
   * (the whole buffer when it holds no NUL).
   */
  function CStringOf(buf: seq<char>): (s: CString)
    ensures |s| <= |buf| && s == buf[..|s|]
    ensures |s| < |buf| ==> buf[|s|] == NUL
  {
    if buf == [] || buf[0] == NUL then []
    else [buf[0]] + CStringOf(buf[1..])
  }

  /** The buffer that `strcpy(dst, s)` leaves behind in its first |s| + 1 cells. */
  function Terminated(s: CString): (buf: seq<char>)
    ensures |buf| == |s| + 1 && buf[|s|] == NUL
    ensures CStringOf(buf) == s
  {
    TerminatedReadsBack(s, []);
    s + [NUL]
  }

  /**
   * Reading back a NUL-terminated copy of `s` yields `s`, whatever the buffer
   * holds after the terminator.
   */
  lemma {:induction false} TerminatedReadsBack(s: CString, rest: seq<char>)
    ensures CStringOf(s + [NUL] + rest) == s
  {
    if s != [] {
      assert (s + [NUL] + rest)[1..] == s[1..] + [NUL] + rest;
      TerminatedReadsBack(s[1..], rest);
    }
  }
}
