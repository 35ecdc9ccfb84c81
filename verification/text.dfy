/** The few string operations the installer relies on: Python's `bytes.strip()`
    (ASCII whitespace only, since the git output is read as bytes) and a
    suffix test. */
module Text {

  /** The characters `bytes.strip()` removes when called without arguments. */
  predicate IsSpace(c: char) {
    c == ' ' || c == '\t' || c == '\n' || c == '\r' || c == '\U{000B}' || c == '\U{000C}'
  }

  /** Every character of `s` is whitespace (vacuously true of the empty string). */
  predicate AllSpace(s: string) {
    forall i :: 0 <= i < |s| ==> IsSpace(s[i])
  }

  /** `lstrip()`: the longest suffix of `s` that does not start with whitespace. */
  function TrimStart(s: string): (r: string)
    ensures |r| <= |s| && r == s[|s| - |r|..]
    ensures forall i :: 0 <= i < |s| - |r| ==> IsSpace(s[i])
    ensures r != [] ==> !IsSpace(r[0])
    decreases |s|
  {
    if |s| > 0 && IsSpace(s[0]) then TrimStart(s[1..]) else s
  }

  /** `rstrip()`: the longest prefix of `s` that does not end with whitespace. */
  function TrimEnd(s: string): (r: string)
    ensures |r| <= |s| && r == s[..|r|]
    ensures forall i :: |r| <= i < |s| ==> IsSpace(s[i])
    ensures r != [] ==> !IsSpace(r[|r| - 1])
    decreases |s|
  {
    if |s| > 0 && IsSpace(s[|s| - 1]) then TrimEnd(s[..|s| - 1]) else s
  }

  /** `strip()`: both ends trimmed. */
  function Strip(s: string): string {
    TrimEnd(TrimStart(s))
  }

  /** Stripping leaves nothing exactly when the input is all whitespace: this
      is what `not output.strip()` tests. */
  lemma StripEmptyIffAllSpace(s: string)
    ensures Strip(s) == [] <==> AllSpace(s)
  {
    var t := TrimStart(s);
    if Strip(s) == [] {
      // the remainder after lstrip() would start with a non-space
      assert t == [];
    } else {
      var r := Strip(s);
      var k := |s| - |t|;
      assert r[0] == t[0] == s[k];
      assert !IsSpace(s[k]);
    }
  }

  /** `s` ends with `suffix`. */
  predicate EndsWith(s: string, suffix: string) {
    |suffix| <= |s| && s[|s| - |suffix|..] == suffix
  }

  /** A concatenation ends with its right operand. */
  lemma EndsWithAppend(s: string, suffix: string)
    ensures EndsWith(s + suffix, suffix)
  {
    assert (s + suffix)[|s|..] == suffix;
  }

  /** A string ends with the last character of any non-empty suffix it has. */
  lemma EndsWithLast(s: string, suffix: string)
    requires EndsWith(s, suffix) && suffix != []
    ensures s[|s| - 1] == suffix[|suffix| - 1]
  {
    assert s[|s| - |suffix|..][|suffix| - 1] == s[|s| - 1];
  }

  /** Equal strings with a common prefix have equal remainders. */
  lemma CancelPrefix(p: string, a: string, b: string)
    requires p + a == p + b
    ensures a == b
  {
    assert a == (p + a)[|p|..];
    assert b == (p + b)[|p|..];
  }

  /** Concatenation is associative. */
  lemma AppendAssoc(a: string, b: string, c: string)
    ensures a + (b + c) == a + b + c
  {
  }

  /** A string appended after a left-nested concatenation of four parts can
      be regrouped part by part. */
  lemma AppendRegroup(p: string, a: string, b: string, c: string, d: string)
    ensures p + (a + b + c + d) == p + a + b + c + d
  {
    AppendAssoc(p, a + b + c, d);
    AppendAssoc(p, a + b, c);
    AppendAssoc(p, a, b);
  }
}
