/**
  C strings, as sh.c and grep.c read them.
 */
module CStrings {
  /** A C string without its terminator: no character of it is NUL. */
  type CString = s: string | forall i :: 0 <= i < |s| ==> s[i] != '\0' witness ""

  /** The character a pointer i places into s reads; at the end it is the NUL. */
  function At(s: CString, i: int): char
    requires 0 <= i <= |s|
  {
    if i < |s| then s[i] else '\0'
  }
}
