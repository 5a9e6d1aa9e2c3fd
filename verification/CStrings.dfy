/** Strings that end at a NUL. */
module CStrings {
  /** No NUL inside: the string up to its terminator. */
  predicate Clean(s: string) { '\0' !in s }

  /** The character at the start of a C string. */
  function First(s: string): char { if s == "" then '\0' else s[0] }

  /** What a C program sees of a buffer of characters or octets: what stands before the first NUL. */
  function CString<T(==)>(s: seq<T>, nul: T): (r: seq<T>)
    ensures r <= s && nul !in r
  {
    if s == [] || s[0] == nul then [] else [s[0]] + CString(s[1..], nul)
  }
}
