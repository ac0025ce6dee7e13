/**
 * Whether a collected address gets the strip mailed to it (booth.py:183-189):
 * no address, an address ending in the placeholder domain, the null address
 * and the empty string are all skipped without telling the user.
 */
module EmailPolicy {
  import opened Wrappers

  const PlaceholderDomain := "example.com"
  const NullAddress := "null@catalyst.net.nz"

  /** Python's `s.endswith(suffix)`: the last characters of `s` are those of `suffix`, one by one. */
  predicate EndsWith(s: string, suffix: string)
    ensures EndsWith(s, suffix) <==>
      |suffix| <= |s| && forall i :: 0 <= i < |suffix| ==> s[|s| - |suffix| + i] == suffix[i]
  {
    |suffix| <= |s| && s[|s| - |suffix|..] == suffix
  }

  /** `s` ends with `suffix` exactly when some string followed by `suffix` makes `s`. */
  lemma EndsWithIff(s: string, suffix: string)
    ensures EndsWith(s, suffix) <==> exists p :: s == p + suffix
  {
    if EndsWith(s, suffix) {
      var p := s[..|s| - |suffix|];
      assert s == p + suffix;
    }
    if exists p :: s == p + suffix {
      var p :| s == p + suffix;
      assert s[|s| - |suffix|..] == suffix;
    }
  }

  /**
   * The test in collect_email: `None` or a placeholder address first, then
   * the null and empty addresses. The order of the tests does not matter:
   * an address is sent to exactly when it passes all three.
   */
  predicate ShouldSend(entered: Option<string>)
    ensures ShouldSend(entered) ==> entered.Some?
    ensures entered.Some? ==> (ShouldSend(entered) <==>
      && entered.value != ""
      && entered.value != NullAddress
      && !EndsWith(entered.value, PlaceholderDomain))
  {
    if entered.None? || EndsWith(entered.value, PlaceholderDomain) then false
    else if entered.value == NullAddress || entered.value == "" then false
    else true
  }

  /**
   * An address is mailed to exactly when it is not empty, is not the null
   * address, and is not any string followed by the placeholder domain.
   */
  lemma SendPolicy(address: string)
    ensures ShouldSend(Some(address)) <==>
      address != "" && address != NullAddress && forall p :: address != p + PlaceholderDomain
  {
    EndsWithIff(address, PlaceholderDomain);
  }

  /** A cancelled prompt sends nothing. */
  lemma CancelSendsNothing()
    ensures !ShouldSend(None)
  {
  }
}
