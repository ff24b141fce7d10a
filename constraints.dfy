/**
  The struct-tag rules the request records of `internal/requests` declare,
  written out as predicates: `required`, `oneof`, `numeric` and
  `excludesall` for string fields.
 */
module Constraints {

  /** `required` on a string field: not the empty string. */
  predicate Required(s: string) {
    s != ""
  }

  /** `excludesall=…`: none of `chars` occurs in `s`. */
  predicate ExcludesAll(s: string, chars: set<char>) {
    forall i :: 0 <= i < |s| ==> s[i] !in chars
  }

  /** `oneof=https http tcp+tls tcp`: the protocols `tailscale serve`
      accepts as a flag. */
  const Protocols: set<string> := {"https", "http", "tcp+tls", "tcp"}

  /** `excludesall=; \n\r\x60\x00`: the tag value is unquoted when read,
      so these are ';', space, newline, carriage return, backtick and NUL. */
  const ShellChars: set<char> := {';', ' ', '\n', '\r', '`', '\0'}

  predicate IsDigit(c: char) {
    '0' <= c <= '9'
  }

  /** One or more decimal digits. */
  predicate Digits(s: string) {
    |s| > 0 && forall i :: 0 <= i < |s| ==> IsDigit(s[i])
  }

  /** Digits, optionally followed by '.' and more digits. */
  predicate Unsigned(s: string) {
    || Digits(s)
    || exists k | 0 < k < |s| - 1 :: s[k] == '.' && Digits(s[..k]) && Digits(s[k + 1..])
  }

  /** `numeric`: an optional sign, then `Unsigned`, the validator's
      pattern ^[-+]?[0-9]+(\.[0-9]+)?$. */
  predicate Numeric(s: string) {
    if |s| > 0 && (s[0] == '-' || s[0] == '+') then Unsigned(s[1..]) else Unsigned(s)
  }

  /** A numeric value is never empty, so it always meets `required`. */
  lemma NumericIsRequired(s: string)
    requires Numeric(s)
    ensures Required(s)
  {
  }

  /** The ports of the request tests: "443" and "5432" are numeric, "abc"
      is not. */
  lemma NumericExamples()
    ensures Numeric("443") && Numeric("5432")
    ensures !Numeric("abc")
  {
    assert !Digits("abc") by { assert !IsDigit("abc"[0]); }
    assert forall k | 0 < k < 2 :: !Digits("abc"[..k]) by {
      forall k | 0 < k < 2 ensures !Digits("abc"[..k]) {
        assert "abc"[..k][0] == 'a';
      }
    }
  }
}
