module Strings {

  predicate HasPrefix(s: string, prefix: string) {
    |prefix| <= |s| && s[..|prefix|] == prefix
  }

  /** wstring::find, or std::search, does not fail. */
  predicate Contains(s: string, part: string) {
    exists i :: 0 <= i <= |s| && HasPrefix(s[i..], part)
  }
}
