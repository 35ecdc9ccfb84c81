/** The repository configuration the installer reads and writes through
    `git config`, and the rule that turns scanning on only when the user has
    not already chosen. */
module GitConfig {
  import opened Text

  /** A repository's configuration: key to value. */
  type Config = map<string, string>

  /** The key that switches the pre-commit scan on. */
  const EnableKey := "devsecops.gitleaks.enabled"

  /** What `git config --get key` prints: the value and a newline when the
      key is set, nothing when it is not. */
  function GetOutput(c: Config, key: string): string {
    if key in c then c[key] + "\n" else ""
  }

  /** The installer's test for "not set": the output of the read, stripped,
      is empty. */
  predicate FlagUnset(c: Config) {
    Strip(GetOutput(c, EnableKey)) == []
  }

  /** The flag has no value: the key is absent or holds only whitespace. */
  predicate FlagBlank(c: Config) {
    EnableKey !in c || AllSpace(c[EnableKey])
  }

  /** The flag counts as unset exactly when it has no value; any other
      value, including "false", counts as set. */
  lemma FlagUnsetIffBlank(c: Config)
    ensures FlagUnset(c) <==> FlagBlank(c)
  {
    var out := GetOutput(c, EnableKey);
    StripEmptyIffAllSpace(out);
    if EnableKey in c {
      var v := c[EnableKey];
      if AllSpace(out) {
        forall i | 0 <= i < |v|
          ensures IsSpace(v[i])
        {
          assert v[i] == out[i];
        }
      }
    }
  }

  /** A flag holding "true" reads back as set. */
  lemma TrueCountsAsSet(c: Config)
    requires EnableKey in c && c[EnableKey] == "true"
    ensures !FlagUnset(c)
  {
    FlagUnsetIffBlank(c);
    assert !IsSpace(c[EnableKey][0]);
  }

  /** The enable-flag rule: write `true` when the flag has no value,
      otherwise leave the configuration alone. */
  function EnableIfUnset(c: Config): (r: Config)
    ensures EnableKey in r
  {
    if FlagBlank(c) then c[EnableKey := "true"] else c
  }

  /** The rule follows the installer's own test and never overwrites: a
      flag that reads back as set is kept, an unset one becomes "true", and
      no other key is touched or added. */
  lemma EnableIfUnsetChanges(c: Config)
    ensures var r := EnableIfUnset(c);
            && (!FlagUnset(c) ==> r == c)
            && (FlagUnset(c) ==> r[EnableKey] == "true")
            && (EnableKey in c && !AllSpace(c[EnableKey]) ==> r[EnableKey] == c[EnableKey])
            && r.Keys == c.Keys + {EnableKey}
            && (forall k :: k in c && k != EnableKey ==> r[k] == c[k])
  {
    FlagUnsetIffBlank(c);
  }

  /** After the rule the flag reads back as set. */
  lemma EnableIfUnsetSets(c: Config)
    ensures !FlagUnset(EnableIfUnset(c))
  {
    FlagUnsetIffBlank(c);
    if FlagUnset(c) {
      TrueCountsAsSet(EnableIfUnset(c));
    }
  }

  /** Applying the rule a second time changes nothing. */
  lemma EnableIfUnsetIdempotent(c: Config)
    ensures EnableIfUnset(EnableIfUnset(c)) == EnableIfUnset(c)
  {
    var r := EnableIfUnset(c);
    if FlagBlank(c) {
      assert !IsSpace(r[EnableKey][0]);
    }
  }
}
