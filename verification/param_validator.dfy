/** The role-tagged parameter check: each role has its own null/empty policy,
    and only a prefix may be empty. */
module ParamValidator {
  import opened Common
  import opened Errors

  /** The role a string plays in a call. `S3ParamValidator` dispatches on a raw string;
      `Unknown` holds any string that names none of the six roles. */
  datatype Kind =
    | Prefix
    | Key
    | LocalPath
    | DestinationKey
    | SourceKey
    | LocalDestinationPath
    | Unknown(tag: string)

  /** The literal a role is tagged with at the call sites. */
  function Tag(k: Kind): (tag: string)
  {
    match k
    case Prefix => "prefix"
    case Key => "key"
    case LocalPath => "localPath"
    case DestinationKey => "destinationKey"
    case SourceKey => "sourceKey"
    case LocalDestinationPath => "localDestinationPath"
    case Unknown(t) => t
  }

  /** The `switch (paramType)` of `S3ParamValidator.validate`. */
  function KindOf(paramType: string): (k: Kind)
    ensures Tag(k) == paramType
  {
    match paramType
    case "prefix" => Prefix
    case "key" => Key
    case "localPath" => LocalPath
    case "destinationKey" => DestinationKey
    case "sourceKey" => SourceKey
    case "localDestinationPath" => LocalDestinationPath
    case _ => Unknown(paramType)
  }

  /** A role that the switch recognises. */
  predicate Recognised(k: Kind)
  {
    !k.Unknown?
  }

  /** Dispatch on the role; unrecognised roles are not checked at all. */
  function Validate(param: Option<string>, kind: Kind): (c: Check<Error>)
    ensures c.Pass? <==> !Recognised(kind) || (param.Some? && (kind == Prefix || param.value != ""))
    ensures Recognised(kind) && param.None? ==> c.Fail? && c.error.IsNullValue()
    ensures Recognised(kind) && kind != Prefix && param == Some("") ==> c.Fail? && c.error.IsEmptyValue()
  {
    match kind
    case Prefix => ValidatePrefix(param)
    case Key => ValidateKey(param)
    case LocalPath => ValidateLocalPath(param)
    case DestinationKey => ValidateDestinationKey(param)
    case SourceKey => ValidateSourceKey(param)
    case LocalDestinationPath => ValidateLocalDestinationPath(param)
    case Unknown(_) => Pass
  }

  /** Null check first, then the empty check; anything else passes. */
  function NullThenEmpty(param: Option<string>, whenNull: Error, whenEmpty: Error): (c: Check<Error>)
    ensures c.Pass? <==> param.Some? && param.value != ""
  {
    match param
    case None => Fail(whenNull)
    case Some(v) => if v == "" then Fail(whenEmpty) else Pass
  }

  function ValidatePrefix(prefix: Option<string>): (c: Check<Error>)
  {
    if prefix.None? then Fail(NullPrefix) else Pass
  }

  function ValidateKey(key: Option<string>): (c: Check<Error>)
  {
    NullThenEmpty(key, NullKey, EmptyKey)
  }

  /** An empty source path reports the destination-path error, as `S3ParamValidator.validateLocalPath` does. */
  function ValidateLocalPath(localPath: Option<string>): (c: Check<Error>)
  {
    NullThenEmpty(localPath, NullLocalPath, EmptyDestinationLocalPath)
  }

  function ValidateDestinationKey(destinationKey: Option<string>): (c: Check<Error>)
  {
    NullThenEmpty(destinationKey, NullDestinationKey, EmptyDestinationKey)
  }

  function ValidateSourceKey(sourceKey: Option<string>): (c: Check<Error>)
  {
    NullThenEmpty(sourceKey, NullSourceKey, EmptySourceKey)
  }

  function ValidateLocalDestinationPath(localDestinationPath: Option<string>): (c: Check<Error>)
  {
    NullThenEmpty(localDestinationPath, NullDestinationLocalPath, EmptyDestinationLocalPath)
  }
}
