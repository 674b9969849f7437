/** The .NET string and character predicates the licence core relies on. */
module Text {

  /** Char.IsWhiteSpace, which is also exactly the set the regular-expression
      class \s matches: U+0009..U+000D, U+0020, U+0085, U+00A0 and the
      Unicode space, line and paragraph separators. */
  predicate IsWhiteSpace(c: char)
    ensures '!' <= c <= '~' ==> !IsWhiteSpace(c)
  {
    || ('\t' <= c <= '\r')
    || c == ' '
    || c == '\U{0085}'
    || c == '\U{00A0}'
    || c == '\U{1680}'
    || ('\U{2000}' <= c <= '\U{200A}')
    || c == '\U{2028}'
    || c == '\U{2029}'
    || c == '\U{202F}'
    || c == '\U{205F}'
    || c == '\U{3000}'
  }

  /** string.IsNullOrWhiteSpace for a non-null string: empty or all white space. */
  predicate IsBlank(s: string)
    ensures s == [] ==> IsBlank(s)
    ensures |s| == 1 ==> (IsBlank(s) <==> IsWhiteSpace(s[0]))
  {
    forall i | 0 <= i < |s| :: IsWhiteSpace(s[i])
  }

  /** A concatenation is blank exactly when both parts are: white space
      is judged character by character. */
  lemma BlankConcat(a: string, b: string)
    ensures IsBlank(a + b) <==> IsBlank(a) && IsBlank(b)
  {
    var s := a + b;
    if IsBlank(a) && IsBlank(b) {
      forall i | 0 <= i < |s| ensures IsWhiteSpace(s[i]) {
        if i < |a| {
          assert s[i] == a[i];
        } else {
          assert s[i] == b[i - |a|];
        }
      }
    }
    if IsBlank(s) {
      forall i | 0 <= i < |a| ensures IsWhiteSpace(a[i]) {
        assert s[i] == a[i];
      }
      forall i | 0 <= i < |b| ensures IsWhiteSpace(b[i]) {
        assert s[|a| + i] == b[i];
      }
    }
  }

  /** Upper-casing of ASCII letters; every other character is kept. */
  function UpperAscii(c: char): (u: char)
    ensures 'a' <= c <= 'z' ==> 'A' <= u <= 'Z'
    ensures ('0' <= c <= '9' || 'a' <= c <= 'f') <==> ('0' <= u <= '9' || 'A' <= u <= 'F') && !('A' <= c <= 'F')
    ensures 'A' <= u <= 'Z' <==> 'a' <= c <= 'z' || 'A' <= c <= 'Z'
  {
    if 'a' <= c <= 'z' then (c as int - 32) as char else c
  }

  /** Upper-casing loses nothing on characters that are not already
      upper-case letters: a lower-case and an upper-case letter are the
      only pairs it merges. */
  lemma UpperAsciiInjective(c: char, d: char)
    requires !('A' <= c <= 'Z') && !('A' <= d <= 'Z')
    ensures UpperAscii(c) == UpperAscii(d) <==> c == d
  {
  }

  /** string.ToUpper() restricted to ASCII letters. */
  function ToUpper(s: string): (u: string)
    ensures |u| == |s|
    ensures forall i | 0 <= i < |s| :: u[i] == UpperAscii(s[i])
  {
    if s == [] then [] else [UpperAscii(s[0])] + ToUpper(s[1..])
  }

  /** string.Equals(a, b, StringComparison.OrdinalIgnoreCase), with case
      folding restricted to ASCII letters. */
  predicate EqualsIgnoreCase(a: string, b: string)
    ensures EqualsIgnoreCase(a, b) <==> ToUpper(a) == ToUpper(b)
  {
    |a| == |b| && forall i | 0 <= i < |a| :: UpperAscii(a[i]) == UpperAscii(b[i])
  }
}
