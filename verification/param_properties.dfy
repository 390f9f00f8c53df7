/** What each role's policy promises, and the round trip between roles and
    their tags. */
module ParamProperties {
  import opened Common
  import opened Errors
  import opened ParamValidator

  /** Every recognised role is selected by its own tag. */
  lemma KindOfTag(k: Kind)
    requires Recognised(k)
    ensures KindOf(Tag(k)) == k
  {
  }

  /** A tag selects a recognised role exactly when it is one of the six literals. */
  lemma KindOfRecognised(paramType: string)
    ensures Recognised(KindOf(paramType)) <==>
              paramType in {"prefix", "key", "localPath", "destinationKey", "sourceKey", "localDestinationPath"}
  {
  }

  /** A prefix must be present but may be empty. */
  lemma PrefixPolicy(v: string)
    ensures Validate(None, Prefix) == Fail(NullPrefix)
    ensures Validate(Some(v), Prefix) == Pass
  {
  }

  lemma KeyPolicy()
    ensures Validate(None, Key) == Fail(NullKey)
    ensures Validate(Some(""), Key) == Fail(EmptyKey)
  {
  }

  /** The upload source path reports an empty value with the download-path error. */
  lemma LocalPathPolicy()
    ensures Validate(None, LocalPath) == Fail(NullLocalPath)
    ensures Validate(Some(""), LocalPath) == Fail(EmptyDestinationLocalPath)
    ensures Validate(Some(""), LocalPath) == Validate(Some(""), LocalDestinationPath)
  {
  }

  lemma DestinationKeyPolicy()
    ensures Validate(None, DestinationKey) == Fail(NullDestinationKey)
    ensures Validate(Some(""), DestinationKey) == Fail(EmptyDestinationKey)
  {
  }

  lemma SourceKeyPolicy()
    ensures Validate(None, SourceKey) == Fail(NullSourceKey)
    ensures Validate(Some(""), SourceKey) == Fail(EmptySourceKey)
  {
  }

  lemma LocalDestinationPathPolicy()
    ensures Validate(None, LocalDestinationPath) == Fail(NullDestinationLocalPath)
    ensures Validate(Some(""), LocalDestinationPath) == Fail(EmptyDestinationLocalPath)
  {
  }

  /** Content is never inspected: a present, non-empty value passes every role. */
  lemma NonEmptyAlwaysPasses(v: string, k: Kind)
    requires v != ""
    ensures Validate(Some(v), k) == Pass
  {
  }

  /** An unrecognised role accepts everything, null included. */
  lemma UnknownAcceptsAll(param: Option<string>, tag: string)
    ensures Validate(param, Unknown(tag)) == Pass
  {
  }
}
