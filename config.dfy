/** The caller's configuration and its validation (config.go). */
module Configuration {
  import opened Wrappers
  import opened Bytes
  import opened Errors

  /** Groups to listen on, the copy range, and whether errors are delivered. */
  datatype Config = Config(groups: seq<u16>, copyRange: u16, returnErrors: bool)

  const MaxGroups := 32

  const NoGroupsMsg := "No groups defined"
  const TooManyGroupsMsg := "Number of groups should be <= 32"

  /** NewConfig: the zero configuration. */
  function NewConfig(): (c: Config)
    ensures c.groups == [] && c.copyRange == 0 && !c.returnErrors
    ensures Validate(c) == Some(ConfigurationError(NoGroupsMsg))
  {
    Config([], 0, false)
  }

  /**
   * Validate has a value receiver: it only inspects the configuration.
   * It accepts exactly the group lists of length 1..32.
   */
  function Validate(c: Config): (r: Option<NflogError>)
    ensures r.None? <==> 1 <= |c.groups| <= MaxGroups
    ensures |c.groups| == 0 ==> r == Some(ConfigurationError(NoGroupsMsg))
    ensures |c.groups| > MaxGroups ==> r == Some(ConfigurationError(TooManyGroupsMsg))
    ensures r.Some? ==> r.value.ConfigurationError?
  {
    if |c.groups| == 0 then Some(ConfigurationError(NoGroupsMsg))
    else if |c.groups| > MaxGroups then Some(ConfigurationError(TooManyGroupsMsg))
    else None
  }

  /** Validity depends on the number of groups only, not on their values, the copy range or the error flag. */
  lemma ValidateDependsOnCountOnly(c: Config, d: Config)
    requires |c.groups| == |d.groups|
    ensures Validate(c) == Validate(d)
  {
  }
}
