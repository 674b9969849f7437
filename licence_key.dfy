/** Licence-key formatting: the first 16 hexadecimal digits of a GUID,
    upper-cased and grouped as XXXX-XXXX-XXXX-XXXX. */
module LicenseKeys {
  import opened Text

  predicate IsLowerHexDigit(c: char) {
    '0' <= c <= '9' || 'a' <= c <= 'f'
  }

  predicate IsUpperHexDigit(c: char) {
    '0' <= c <= '9' || 'A' <= c <= 'F'
  }

  /** Every character is one of [0-9A-F]. */
  predicate IsUpperHexRun(s: string) {
    forall i | 0 <= i < |s| :: IsUpperHexDigit(s[i])
  }

  /** What Guid.ToString("N") yields: 32 lower-case hexadecimal digits. */
  predicate IsGuidN(g: string) {
    |g| == 32 && forall i | 0 <= i < |g| :: IsLowerHexDigit(g[i])
  }

  /** The key shape [0-9A-F]{4}(-[0-9A-F]{4}){3}. */
  predicate IsKeyFormat(k: string) {
    && |k| == 19
    && k[4] == '-' && k[9] == '-' && k[14] == '-'
    && IsUpperHexRun(k[0..4]) && IsUpperHexRun(k[5..9])
    && IsUpperHexRun(k[10..14]) && IsUpperHexRun(k[15..19])
  }

  /** The sixteen digits of a key, its hyphens taken out. */
  function KeyDigits(k: string): (d: string)
    requires |k| == 19
    ensures |d| == 16
  {
    k[0..4] + k[5..9] + k[10..14] + k[15..19]
  }

  /** GenerateLicenseKey with the GUID supplied: upper-case the "N" form and
      join its first four groups of four digits with hyphens. */
  function FormatKey(guidN: string): (key: string)
    requires IsGuidN(guidN)
    ensures IsKeyFormat(key)
    ensures KeyDigits(key) == ToUpper(guidN[..16])
  {
    var u := ToUpper(guidN);
    var key := u[0..4] + "-" + u[4..8] + "-" + u[8..12] + "-" + u[12..16];
    assert key[0..4] == u[0..4] && key[5..9] == u[4..8];
    assert key[10..14] == u[8..12] && key[15..19] == u[12..16];
    assert u[0..4] + u[4..8] + u[8..12] + u[12..16] == u[..16];
    assert u[..16] == ToUpper(guidN[..16]);
    key
  }

  /** Two GUIDs give the same key exactly when their first 16 digits agree:
      the key keeps 64 of the GUID's 128 bits and discards the rest. */
  lemma {:induction false} FormatKeyInjective(g1: string, g2: string)
    requires IsGuidN(g1) && IsGuidN(g2)
    ensures FormatKey(g1) == FormatKey(g2) <==> g1[..16] == g2[..16]
  {
    var a, b := ToUpper(g1[..16]), ToUpper(g2[..16]);
    if FormatKey(g1) == FormatKey(g2) {
      assert a == b;
      forall i | 0 <= i < 16 ensures g1[i] == g2[i] {
        assert a[i] == UpperAscii(g1[i]) && b[i] == UpperAscii(g2[i]);
        UpperAsciiInjective(g1[i], g2[i]);
      }
      assert g1[..16] == g2[..16];
    }
    if g1[..16] == g2[..16] {
      var u1, u2 := ToUpper(g1), ToUpper(g2);
      forall i | 0 <= i < 16 ensures u1[i] == u2[i] {
        assert g1[i] == g1[..16][i] == g2[..16][i] == g2[i];
      }
      assert u1[0..4] == u2[0..4] && u1[4..8] == u2[4..8];
      assert u1[8..12] == u2[8..12] && u1[12..16] == u2[12..16];
    }
  }

  /** A key is never blank: its hyphens are not white space. */
  lemma KeyFormatNotBlank(k: string)
    requires IsKeyFormat(k)
    ensures !IsBlank(k)
  {
    assert !IsWhiteSpace(k[4]);
  }
}
