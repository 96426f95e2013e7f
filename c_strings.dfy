/**
 * Strings as C code reads them. A `const char*` is read up to its first
 * NUL character: that is what `std::basic_string_view(p)` keeps of a
 * pointer and what a caller of `what()` sees of the `c_str()` it returns.
 */
module CStrings {

  /** The characters before the first NUL. */
  function BeforeNul(chars: seq<char>): (s: string)
    requires '\0' in chars
    ensures |s| < |chars| && s == chars[..|s|]
    ensures chars[|s|] == '\0' && '\0' !in s
  {
    if chars[0] == '\0' then [] else [chars[0]] + BeforeNul(chars[1..])
  }

  /**
   * `s.c_str()` read as a C string: the part of `s` before its first NUL,
   * which is all of `s` when `s` holds no NUL.
   */
  function AsCString(s: string): (r: string)
    ensures |r| <= |s| && '\0' !in r && r == s[..|r|]
    ensures |r| < |s| ==> s[|r|] == '\0'
    ensures '\0' !in s ==> r == s
  {
    var r := BeforeNul(s + ['\0']);
    assert r == (s + ['\0'])[..|r|];
    if |r| < |s| then
      assert (s + ['\0'])[|r|] == s[|r|];
      r
    else
      assert r == s by { assert |r| == |s|; assert (s + ['\0'])[..|s|] == s; }
      r
  }

  /** `r` is what a C string reader sees of `s`: a NUL-free prefix that stops at the end or at a NUL. */
  predicate ReadsAs(s: string, r: string) {
    |r| <= |s| && r == s[..|r|] && '\0' !in r && (|r| < |s| ==> s[|r|] == '\0')
  }

  /** Only one string is read from `s`, so `AsCString` is the reading. */
  lemma ReadingIsUnique(s: string, r: string)
    requires ReadsAs(s, r)
    ensures r == AsCString(s)
  {
  }

  /**
   * A C string read from the concatenation of two strings stops inside the
   * first one if it holds a NUL, and otherwise takes all of it and goes on
   * into the second.
   */
  lemma AsCStringConcat(a: string, b: string)
    ensures AsCString(a + b) == if '\0' in a then AsCString(a) else a + AsCString(b)
  {
    var r := if '\0' in a then AsCString(a) else a + AsCString(b);
    if '\0' !in a {
      var rb := AsCString(b);
      assert (a + b)[..|r|] == a + b[..|rb|];
      if |r| < |a + b| { assert (a + b)[|r|] == b[|rb|]; }
    } else {
      var ra := AsCString(a);
      assert (a + b)[..|ra|] == a[..|ra|];
      assert (a + b)[|ra|] == a[|ra|];
    }
    ReadingIsUnique(a + b, r);
  }
}
