/** The customer-email shape check of the licence entity. */
module Email {
  import opened Text
  import opened Lists

  /** A character the class [^@\s] admits. */
  predicate IsAddressChar(c: char) {
    c != '@' && !IsWhiteSpace(c)
  }

  /** t is L@M.R with L, M and R non-empty runs of address characters: an
      '@' at i, a '.' at j with at least one character on either side of
      each, and every character other than that '@' an address character
      (the '.' is one). */
  ghost predicate IsAddressShape(t: string) {
    exists i, j | 0 < i && i + 1 < j && j + 1 < |t| ::
      && t[i] == '@'
      && t[j] == '.'
      && forall k | 0 <= k < |t| && k != i :: IsAddressChar(t[k])
  }

  /** What Regex.IsMatch(s, "^[^@\s]+@[^@\s]+\.[^@\s]+$") decides. Without
      RegexOptions.Multiline, `$` matches at the very end of the input or just
      before a final '\n', so one trailing line feed is accepted. */
  ghost predicate MatchesEmailPattern(s: string) {
    || IsAddressShape(s)
    || (|s| > 0 && s[|s| - 1] == '\n' && IsAddressShape(s[..|s| - 1]))
  }

  /** Every character except the one at index i is an address character. */
  predicate AddressCharsExcept(t: string, i: int) {
    forall k | 0 <= k < |t| && k != i :: IsAddressChar(t[k])
  }

  /** The regular expression evaluated directly: find the '@', check the
      other characters, and look for a '.' strictly inside the domain. */
  function HasAddressShape(t: string): (r: bool)
    ensures r <==> IsAddressShape(t)
  {
    var i := IndexOf(t, '@');
    var r := 0 < i && AddressCharsExcept(t, i) && i + 2 <= |t| - 1 && '.' in t[i + 2..|t| - 1];
    AddressShapeIff(t, i, r);
    r
  }

  /** The direct evaluation finds a shape the pattern admits. */
  lemma ShapeFromEvaluation(t: string, i: int)
    requires 0 < i < |t| && t[i] == '@' && AddressCharsExcept(t, i)
    requires i + 2 <= |t| - 1 && '.' in t[i + 2..|t| - 1]
    ensures IsAddressShape(t)
  {
    var d := t[i + 2..|t| - 1];
    var n :| 0 <= n < |d| && d[n] == '.';
    var j := i + 2 + n;
    assert t[j] == '.';
  }

  /** Any shape the pattern admits has its '@' at the first '@' of t. */
  lemma EvaluationFromShape(t: string, i': int, j': int)
    requires 0 < i' && i' + 1 < j' && j' + 1 < |t|
    requires t[i'] == '@' && t[j'] == '.' && AddressCharsExcept(t, i')
    ensures IndexOf(t, '@') == i'
    ensures '.' in t[i' + 2..|t| - 1]
  {
    var i := IndexOf(t, '@');
    assert t[i'] == '@';
    assert t[i' + 2..|t| - 1][j' - i' - 2] == '.';
  }

  lemma AddressShapeIff(t: string, i: int, r: bool)
    requires i == IndexOf(t, '@')
    requires r == (0 < i && AddressCharsExcept(t, i) && i + 2 <= |t| - 1 && '.' in t[i + 2..|t| - 1])
    ensures r <==> IsAddressShape(t)
  {
    if r {
      ShapeFromEvaluation(t, i);
    }
    if IsAddressShape(t) {
      var i', j' :| 0 < i' && i' + 1 < j' && j' + 1 < |t|
        && t[i'] == '@' && t[j'] == '.'
        && forall k | 0 <= k < |t| && k != i' :: IsAddressChar(t[k]);
      EvaluationFromShape(t, i', j');
    }
  }

  /** The last character of an admitted shape is an address character. */
  lemma ShapeEndsWithAddressChar(t: string)
    requires IsAddressShape(t)
    ensures |t| > 0 && IsAddressChar(t[|t| - 1])
  {
    var i, j :| 0 < i && i + 1 < j && j + 1 < |t|
      && t[i] == '@' && t[j] == '.'
      && forall k | 0 <= k < |t| && k != i :: IsAddressChar(t[k]);
    assert |t| - 1 != i;
  }

  /** IsValidEmail: the .NET regular-expression match, computed directly by
      dropping one final line feed and checking the remaining shape. */
  function IsValidEmail(email: string): (r: bool)
    ensures r <==> MatchesEmailPattern(email)
    ensures r ==> !IsBlank(email) && '@' in email
  {
    if |email| > 0 && email[|email| - 1] == '\n' then
      var t := email[..|email| - 1];
      assert !IsAddressShape(email) by {
        if IsAddressShape(email) {
          ShapeEndsWithAddressChar(email);
        }
      }
      HasAddressShape(t)
    else
      HasAddressShape(email)
  }
}
