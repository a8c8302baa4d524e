/**
 * NUL-terminated character buffers, as the C code of src/Tag.c uses them.
 */
module CStrings {

  /** The scan of `strlen` from index `i`, which holds no NUL before it. */
  function StrLenFrom(buf: seq<char>, i: nat): (n: nat)
    requires '\0' in buf
    requires i <= |buf| && forall j :: 0 <= j < i ==> buf[j] != '\0'
    ensures i <= n < |buf| && buf[n] == '\0'
    ensures forall j :: 0 <= j < n ==> buf[j] != '\0'
    decreases |buf| - i
  {
    if buf[i] == '\0' then i else StrLenFrom(buf, i + 1)
  }

  /** `strlen`: the position of the first NUL of the buffer. */
  function StrLen(buf: seq<char>): (n: nat)
    requires '\0' in buf
    ensures n < |buf| && buf[n] == '\0'
    ensures forall j :: 0 <= j < n ==> buf[j] != '\0'
  {
    StrLenFrom(buf, 0)
  }

  /** The string a NUL-terminated buffer holds. */
  function CString(buf: seq<char>): (s: string)
    requires '\0' in buf
    ensures '\0' !in s
    ensures |s| < |buf| && buf[|s|] == '\0' && s == buf[..|s|]
  {
    buf[..StrLen(buf)]
  }

  /** A string followed by a NUL and anything else reads back as that string. */
  lemma CStringOfTerminated(s: string, rest: seq<char>)
    requires '\0' !in s
    ensures '\0' in s + ['\0'] + rest
    ensures CString(s + ['\0'] + rest) == s
  {
    var buf := s + ['\0'] + rest;
    assert buf[|s|] == '\0';
    assert forall j :: 0 <= j < |s| ==> buf[j] == s[j];
  }
}
