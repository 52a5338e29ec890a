/**
 * The three error kinds of the library and their rendered text (errors.go).
 * Each kind is a string type in Go whose Error() prepends a fixed prefix.
 */
module Errors {
  import opened Wrappers

  datatype NflogError =
    | ConfigurationError(msg: string)
    | ReaderError(msg: string)
    | ParserError(msg: string)

  const ConfigurationPrefix := "nflog: invalid configuration: "
  const ReaderPrefix := "nflog: error while reading socket: "
  const ParserPrefix := "nflog: error while parsing message: "

  function Prefix(e: NflogError): (p: string)
    ensures |p| >= 7 && p[..7] == "nflog: "
  {
    match e
    case ConfigurationError(_) => ConfigurationPrefix
    case ReaderError(_) => ReaderPrefix
    case ParserError(_) => ParserPrefix
  }

  /** Error(): the kind's fixed prefix followed by the message. */
  function Error(e: NflogError): (s: string)
    ensures |s| == |Prefix(e)| + |e.msg|
    ensures s[..7] == "nflog: "
    ensures s[|s| - |e.msg|..] == e.msg
  {
    var p := Prefix(e);
    assert (p + e.msg)[..7] == p[..7];
    p + e.msg
  }

  predicate StartsWith(s: string, p: string)
  {
    |p| <= |s| && s[..|p|] == p
  }

  /** Reads a rendered error back: the prefix names the kind, the rest is the message. */
  function Classify(s: string): Option<NflogError>
  {
    if StartsWith(s, ConfigurationPrefix) then Some(ConfigurationError(s[|ConfigurationPrefix|..]))
    else if StartsWith(s, ReaderPrefix) then Some(ReaderError(s[|ReaderPrefix|..]))
    else if StartsWith(s, ParserPrefix) then Some(ParserError(s[|ParserPrefix|..]))
    else None
  }

  /** A string that starts with p carries p's characters at p's offsets. */
  lemma StartsWithChar(s: string, p: string, i: nat)
    requires i < |p|
    ensures StartsWith(s, p) ==> s[i] == p[i]
  {
    if StartsWith(s, p) {
      assert s[..|p|][i] == s[i];
    }
  }

  /** No prefix is a prefix of another one, so at most one of them can match. */
  lemma PrefixesExclusive(s: string)
    ensures !(StartsWith(s, ConfigurationPrefix) && StartsWith(s, ReaderPrefix))
    ensures !(StartsWith(s, ConfigurationPrefix) && StartsWith(s, ParserPrefix))
    ensures !(StartsWith(s, ReaderPrefix) && StartsWith(s, ParserPrefix))
  {
    // the prefixes differ at offset 7 ('i' / 'e') and at offset 19 ('r' / 'p')
    StartsWithChar(s, ConfigurationPrefix, 7);
    StartsWithChar(s, ReaderPrefix, 7);
    StartsWithChar(s, ParserPrefix, 7);
    StartsWithChar(s, ReaderPrefix, 19);
    StartsWithChar(s, ParserPrefix, 19);
  }

  /** The rendered string determines both the kind and the original message. */
  lemma {:induction false} ClassifyError(e: NflogError)
    ensures Classify(Error(e)) == Some(e)
  {
    var s := Error(e);
    assert s[..|Prefix(e)|] == Prefix(e);
    assert s[|Prefix(e)|..] == e.msg;
    PrefixesExclusive(s);
  }

  lemma {:induction false} ErrorInjective(e1: NflogError, e2: NflogError)
    requires Error(e1) == Error(e2)
    ensures e1 == e2
  {
    ClassifyError(e1);
    ClassifyError(e2);
  }
}
