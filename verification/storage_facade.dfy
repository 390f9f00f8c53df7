/** The storage facade: every operation of the vendor-neutral contract, as a
    function of its arguments, the local files it may read, and the reply of
    each backend call it makes. Each returns its result (or the exception it
    throws) together with the calls it issued, in order. */
module StorageFacade {
  import opened Common
  import opened Errors
  import opened Backend
  import opened ExceptionHandler
  import BucketValidator
  import ParamValidator

  /** What an operation returns, or the exception it throws. */
  datatype Result<+T> = Ok(value: T) | Err(error: Error)

  /** An operation's result and the backend calls it issued. */
  datatype Run<+T> = Run(result: Result<T>, trace: seq<Call>)

  /** The metadata keys `getFileInfo` fills in. */
  const ContentLength := "Content-Length"
  const LastModified := "Last-Modified"
  const ContentType := "Content-Type"
  const ETag := "ETag"

  /** A bucket name the bucket-name check accepts. */
  predicate BucketOk(bucket: Option<string>)
  {
    BucketValidator.Validate(bucket).Pass?
  }

  /** A value every role except the prefix accepts: present and non-empty. */
  predicate Given(v: Option<string>)
  {
    v.Some? && v.value != ""
  }

  /** An existing regular file, given the set of paths that are such files. */
  predicate IsRegularFile(localFiles: set<string>, path: Option<string>)
  {
    path.Some? && path.value in localFiles
  }

  /** The exception class the two catch clauses of a validated operation
      produce for a failure, independent of message wording. */
  predicate TranslatedAs(f: Failure, e: Error)
  {
    match f
    case RuntimeFault(_) => e.StorageException? && e.cause == Some(f)
    case S3Error(code, _) =>
      if code == NoSuchBucket then e.BucketDoesNotExists? && e.Cause() == None
      else if code == NoSuchKey then e.ObjectNotFound? && e.Cause() == None
      else e.StorageException? && e.cause == Some(f)
  }

  // ---------------------------------------------------------------------------
  // Validation
  // ---------------------------------------------------------------------------

  /** `runValidations`: the bucket name first, then every entry of the
      parameter map (value to role). The map is a HashMap, so the order in
      which its entries are checked is unspecified: when several fail, the
      error reported is that of some failing entry. */
  ghost function RunValidations(bucket: Option<string>, params: map<Option<string>, ParamValidator.Kind>): (c: Check<Error>)
    ensures c.Pass? <==> BucketOk(bucket) && forall v | v in params :: ParamValidator.Validate(v, params[v]).Pass?
    ensures !BucketOk(bucket) ==> c == BucketValidator.Validate(bucket)
    ensures c.Fail? && BucketOk(bucket) ==> exists v | v in params :: c == ParamValidator.Validate(v, params[v])
  {
    var b := BucketValidator.Validate(bucket);
    if b.Fail? then b
    else if forall v | v in params :: ParamValidator.Validate(v, params[v]).Pass? then Pass
    else
      var v :| v in params && ParamValidator.Validate(v, params[v]).Fail?;
      ParamValidator.Validate(v, params[v])
  }

  /** Validation with a single role-tagged value (`Collections.singletonMap`). */
  lemma SingleValidation(bucket: Option<string>, v: Option<string>, k: ParamValidator.Kind)
    ensures RunValidations(bucket, map[v := k]) ==
              if !BucketOk(bucket) then BucketValidator.Validate(bucket) else ParamValidator.Validate(v, k)
  {
    var m := map[v := k];
    assert forall w | w in m :: w == v;
    assert v in m && m[v] == k;
  }

  /** Validation with two role-tagged values put into a HashMap in turn; equal
      values share one entry, which keeps the role put last. Both roles here
      reject null and the empty string, so the verdict is the same as checking
      each role, and a failure reports one of the two roles' errors. */
  lemma PairValidation(bucket: Option<string>, a: Option<string>, ka: ParamValidator.Kind,
                       b: Option<string>, kb: ParamValidator.Kind)
    requires ParamValidator.Recognised(ka) && ka != ParamValidator.Prefix
    requires ParamValidator.Recognised(kb) && kb != ParamValidator.Prefix
    ensures var c := RunValidations(bucket, map[a := ka][b := kb]);
            && (c.Pass? <==> BucketOk(bucket) && Given(a) && Given(b))
            && (!BucketOk(bucket) ==> c == BucketValidator.Validate(bucket))
            && (c.Fail? && BucketOk(bucket) ==>
                  c == ParamValidator.Validate(a, ka) || c == ParamValidator.Validate(b, kb))
  {
    var m := map[a := ka][b := kb];
    assert forall v | v in m :: v == a || v == b;
    assert b in m && m[b] == kb;
    if a != b {
      assert a in m && m[a] == ka;
    }
  }

  /** The two catch clauses of a validated operation: S3 failures go through
      `handle`, anything else through `handleUnknownError`. */
  function Rethrow(f: Failure, operation: string, resource: string): (e: Error)
  {
    if f.S3Error? then Handle(f, operation, resource) else HandleUnknownError(f, operation)
  }

  lemma RethrowTranslates(f: Failure, operation: string, resource: string)
    ensures TranslatedAs(f, Rethrow(f, operation, resource))
  {
  }

  // ---------------------------------------------------------------------------
  // Object operations
  // ---------------------------------------------------------------------------

  /** `listFiles(bucketName, prefix)`. */
  ghost function ListFiles(bucket: Option<string>, prefix: Option<string>, reply: Reply<seq<string>>): (r: Run<seq<string>>)
    ensures !BucketOk(bucket) ==> r == Run(Err(BucketValidator.Validate(bucket).error), [])
    ensures BucketOk(bucket) && prefix.None? ==> r == Run(Err(NullPrefix), [])
    ensures BucketOk(bucket) && prefix.Some? ==> r.trace == [ListObjectsV2Request(bucket, prefix)]
    ensures r.result.Ok? <==> BucketOk(bucket) && prefix.Some? && reply.Answer?
    ensures r.result.Ok? ==> r.result.value == reply.value
    ensures r.trace != [] && reply.Fault? ==> r.result.Err? && TranslatedAs(reply.failure, r.result.error)
  {
    SingleValidation(bucket, prefix, ParamValidator.Prefix);
    match RunValidations(bucket, map[prefix := ParamValidator.Prefix])
    case Fail(e) => Run(Err(e), [])
    case Pass =>
      var call := ListObjectsV2Request(bucket, prefix);
      match reply
      case Answer(keys) => Run(Ok(keys), [call])
      case Fault(f) =>
        RethrowTranslates(f, "list files", Show(bucket));
        Run(Err(Rethrow(f, "list files", Show(bucket))), [call])
  }

  /** `listFiles(bucketName)`: the overload that lists with the empty prefix. */
  ghost function ListAllFiles(bucket: Option<string>, reply: Reply<seq<string>>): (r: Run<seq<string>>)
    ensures r.trace == [] <==> !BucketOk(bucket)
    ensures r.trace != [] ==> r.trace == [ListObjectsV2Request(bucket, Some(""))]
    ensures r.result.Ok? <==> BucketOk(bucket) && reply.Answer?
    ensures r.result.Ok? ==> r.result.value == reply.value
    ensures !BucketOk(bucket) ==> r.result == Err(BucketValidator.Validate(bucket).error)
    ensures r.trace != [] && reply.Fault? ==> r.result.Err? && TranslatedAs(reply.failure, r.result.error)
  {
    ListFiles(bucket, Some(""), reply)
  }

  /** `fileExists(bucketName, key)`: a missing key is an answer, not an error. */
  ghost function FileExists(bucket: Option<string>, key: Option<string>, reply: Reply<HeadObjectResponse>): (r: Run<bool>)
    ensures !BucketOk(bucket) ==> r == Run(Err(BucketValidator.Validate(bucket).error), [])
    ensures BucketOk(bucket) && !Given(key) ==> r == Run(Err(ParamValidator.Validate(key, ParamValidator.Key).error), [])
    ensures BucketOk(bucket) && Given(key) ==> r.trace == [HeadObjectRequest(bucket, key)]
    ensures r.result == Ok(true) <==> BucketOk(bucket) && Given(key) && reply.Answer?
    ensures r.result == Ok(false) <==>
              BucketOk(bucket) && Given(key) && reply.Fault? && reply.failure.S3Error? && reply.failure.code == NoSuchKey
    ensures r.trace != [] && reply.Fault? && !(reply.failure.S3Error? && reply.failure.code == NoSuchKey) ==>
              r.result.Err? && TranslatedAs(reply.failure, r.result.error)
  {
    SingleValidation(bucket, key, ParamValidator.Key);
    match RunValidations(bucket, map[key := ParamValidator.Key])
    case Fail(e) => Run(Err(e), [])
    case Pass =>
      var call := HeadObjectRequest(bucket, key);
      match reply
      case Answer(_) => Run(Ok(true), [call])
      case Fault(f) =>
        if f.S3Error? && f.code == NoSuchKey then Run(Ok(false), [call])
        else
          RethrowTranslates(f, "check file existence", Show(bucket));
          Run(Err(Rethrow(f, "check file existence", Show(bucket))), [call])
  }

  /** `uploadFile(localPath, bucketName, destinationKey)`: after validation, the
      local file must exist before anything is sent. */
  ghost function UploadFile(localPath: Option<string>, bucket: Option<string>, destinationKey: Option<string>,
                            localFiles: set<string>, reply: Reply<()>): (r: Run<()>)
    ensures !BucketOk(bucket) ==> r == Run(Err(BucketValidator.Validate(bucket).error), [])
    ensures BucketOk(bucket) && !(Given(localPath) && Given(destinationKey)) ==>
              && r.trace == []
              && r.result.Err?
              && (|| Fail(r.result.error) == ParamValidator.Validate(localPath, ParamValidator.LocalPath)
                  || Fail(r.result.error) == ParamValidator.Validate(destinationKey, ParamValidator.DestinationKey))
    ensures BucketOk(bucket) && Given(localPath) && Given(destinationKey) && !IsRegularFile(localFiles, localPath) ==>
              && r.trace == []
              && r.result.Err? && r.result.error.FileDoesNotExists?
              && Mentions(r.result.error.message, localPath.value)
    ensures r.trace != [] <==>
              BucketOk(bucket) && Given(localPath) && Given(destinationKey) && IsRegularFile(localFiles, localPath)
    ensures r.trace != [] ==> r.trace == [PutObjectRequest(bucket, destinationKey, localPath)]
    ensures r.result.Ok? <==> r.trace != [] && reply.Answer?
    ensures r.trace != [] && reply.Fault? ==> r.result.Err? && TranslatedAs(reply.failure, r.result.error)
  {
    PairValidation(bucket, localPath, ParamValidator.LocalPath, destinationKey, ParamValidator.DestinationKey);
    match RunValidations(bucket, map[localPath := ParamValidator.LocalPath][destinationKey := ParamValidator.DestinationKey])
    case Fail(e) => Run(Err(e), [])
    case Pass =>
      if !IsRegularFile(localFiles, localPath) then
        MentionsInfix("File does not exist: ", Show(localPath), "");
        assert "File does not exist: " + Show(localPath) + "" == "File does not exist: " + Show(localPath);
        Run(Err(FileDoesNotExists("File does not exist: " + Show(localPath))), [])
      else
        var call := PutObjectRequest(bucket, destinationKey, localPath);
        match reply
        case Answer(_) => Run(Ok(()), [call])
        case Fault(f) =>
          RethrowTranslates(f, "upload file", Show(bucket));
          Run(Err(Rethrow(f, "upload file", Show(bucket))), [call])
  }

  /** `downloadFile(bucketName, sourceKey, localDestinationPath)`: a missing key
      is reported as a missing file, not through `handle`. */
  ghost function DownloadFile(bucket: Option<string>, sourceKey: Option<string>, localDestinationPath: Option<string>,
                              reply: Reply<()>): (r: Run<()>)
    ensures !BucketOk(bucket) ==> r == Run(Err(BucketValidator.Validate(bucket).error), [])
    ensures BucketOk(bucket) && !(Given(sourceKey) && Given(localDestinationPath)) ==>
              && r.trace == []
              && r.result.Err?
              && (|| Fail(r.result.error) == ParamValidator.Validate(sourceKey, ParamValidator.SourceKey)
                  || Fail(r.result.error) == ParamValidator.Validate(localDestinationPath, ParamValidator.LocalDestinationPath))
    ensures r.trace != [] <==> BucketOk(bucket) && Given(sourceKey) && Given(localDestinationPath)
    ensures r.trace != [] ==> r.trace == [GetObjectRequest(bucket, sourceKey, localDestinationPath)]
    ensures r.result.Ok? <==> r.trace != [] && reply.Answer?
    ensures r.trace != [] && reply.Fault? && reply.failure.S3Error? && reply.failure.code == NoSuchKey ==>
              r.result.Err? && r.result.error.FileDoesNotExists? && Mentions(r.result.error.message, sourceKey.value)
    ensures r.trace != [] && reply.Fault? && !(reply.failure.S3Error? && reply.failure.code == NoSuchKey) ==>
              r.result.Err? && TranslatedAs(reply.failure, r.result.error)
  {
    PairValidation(bucket, sourceKey, ParamValidator.SourceKey, localDestinationPath, ParamValidator.LocalDestinationPath);
    match RunValidations(bucket, map[sourceKey := ParamValidator.SourceKey][localDestinationPath := ParamValidator.LocalDestinationPath])
    case Fail(e) => Run(Err(e), [])
    case Pass =>
      var call := GetObjectRequest(bucket, sourceKey, localDestinationPath);
      match reply
      case Answer(_) => Run(Ok(()), [call])
      case Fault(f) =>
        if f.S3Error? && f.code == NoSuchKey then
          MentionsInfix("Object not found: ", Show(sourceKey), "");
          assert "Object not found: " + Show(sourceKey) + "" == "Object not found: " + Show(sourceKey);
          Run(Err(FileDoesNotExists("Object not found: " + Show(sourceKey))), [call])
        else
          RethrowTranslates(f, "download file", Show(bucket));
          Run(Err(Rethrow(f, "download file", Show(bucket))), [call])
  }

  /** `deleteFile(bucketName, key)`. */
  ghost function DeleteFile(bucket: Option<string>, key: Option<string>, reply: Reply<()>): (r: Run<()>)
    ensures !BucketOk(bucket) ==> r == Run(Err(BucketValidator.Validate(bucket).error), [])
    ensures BucketOk(bucket) && !Given(key) ==> r == Run(Err(ParamValidator.Validate(key, ParamValidator.Key).error), [])
    ensures r.trace != [] <==> BucketOk(bucket) && Given(key)
    ensures r.trace != [] ==> r.trace == [DeleteObjectRequest(bucket, key)]
    ensures r.result.Ok? <==> r.trace != [] && reply.Answer?
    ensures r.trace != [] && reply.Fault? ==> r.result.Err? && TranslatedAs(reply.failure, r.result.error)
  {
    SingleValidation(bucket, key, ParamValidator.Key);
    match RunValidations(bucket, map[key := ParamValidator.Key])
    case Fail(e) => Run(Err(e), [])
    case Pass =>
      var call := DeleteObjectRequest(bucket, key);
      match reply
      case Answer(_) => Run(Ok(()), [call])
      case Fault(f) =>
        RethrowTranslates(f, "delete file", Show(bucket));
        Run(Err(Rethrow(f, "delete file", Show(bucket))), [call])
  }

  /** `copyFile(sourceBucket, sourceKey, destBucket, destKey)`: no validation;
      only S3 failures are translated, and a missing bucket is not singled out. */
  function CopyFile(sourceBucket: Option<string>, sourceKey: Option<string>,
                    destBucket: Option<string>, destKey: Option<string>, reply: Reply<()>): (r: Run<()>)
    ensures r.trace == [CopyObjectRequest(sourceBucket, sourceKey, destBucket, destKey)]
    ensures r.result.Ok? <==> reply.Answer?
    ensures reply.Fault? && reply.failure.S3Error? && reply.failure.code == NoSuchKey ==>
              r.result.Err? && r.result.error.ObjectNotFound? && Mentions(r.result.error.message, Show(sourceKey))
    ensures reply.Fault? && reply.failure.S3Error? && reply.failure.code != NoSuchKey ==>
              && r.result.Err? && r.result.error.StorageException?
              && r.result.error.cause == Some(reply.failure)
              && Mentions(r.result.error.message, reply.failure.message)
    ensures reply.Fault? && reply.failure.RuntimeFault? ==> r.result == Err(Uncaught(reply.failure))
  {
    var call := CopyObjectRequest(sourceBucket, sourceKey, destBucket, destKey);
    match reply
    case Answer(_) => Run(Ok(()), [call])
    case Fault(f) =>
      if f.RuntimeFault? then Run(Err(Uncaught(f)), [call])
      else if f.code == NoSuchKey then
        MentionsInfix("Source object not found: ", Show(sourceKey), "");
        assert "Source object not found: " + Show(sourceKey) + "" == "Source object not found: " + Show(sourceKey);
        Run(Err(ObjectNotFound("Source object not found: " + Show(sourceKey))), [call])
      else
        MentionsInfix("Failed to copy file: ", f.message, "");
        assert "Failed to copy file: " + f.message + "" == "Failed to copy file: " + f.message;
        Run(Err(StorageException("Failed to copy file: " + f.message, Some(f))), [call])
  }

  /** `moveFile`: a copy, then `deleteFile` on the source. A failed copy stops
      the move before any delete; a failed delete leaves the copy in place. */
  ghost function MoveFile(sourceBucket: Option<string>, sourceKey: Option<string>,
                          destBucket: Option<string>, destKey: Option<string>,
                          copyReply: Reply<()>, deleteReply: Reply<()>): (r: Run<()>)
    ensures |r.trace| >= 1 && r.trace[0] == CopyObjectRequest(sourceBucket, sourceKey, destBucket, destKey)
    ensures copyReply.Fault? ==>
              r == CopyFile(sourceBucket, sourceKey, destBucket, destKey, copyReply)
    ensures copyReply.Fault? ==> forall i | 0 <= i < |r.trace| :: !r.trace[i].DeleteObjectRequest?
    ensures copyReply.Answer? ==>
              var d := DeleteFile(sourceBucket, sourceKey, deleteReply);
              r.result == d.result && r.trace[1..] == d.trace
    ensures r.result.Ok? <==> copyReply.Answer? && BucketOk(sourceBucket) && Given(sourceKey) && deleteReply.Answer?
  {
    var copy := CopyFile(sourceBucket, sourceKey, destBucket, destKey, copyReply);
    if copy.result.Err? then copy
    else
      var delete := DeleteFile(sourceBucket, sourceKey, deleteReply);
      Run(delete.result, copy.trace + delete.trace)
  }

  /** `getFileInfo(bucketName, key)`: no validation; the four metadata fields on success. */
  function GetFileInfo(bucket: Option<string>, key: Option<string>,
                       reply: Reply<HeadObjectResponse>): (r: Run<map<string, Option<string>>>)
    ensures r.trace == [HeadObjectRequest(bucket, key)]
    ensures r.result.Ok? <==> reply.Answer?
    ensures r.result.Ok? ==>
              && r.result.value.Keys == {ContentLength, LastModified, ContentType, ETag}
              && r.result.value[ContentLength] == Some(reply.value.contentLength)
              && r.result.value[LastModified] == Some(reply.value.lastModified)
              && r.result.value[ContentType] == reply.value.contentType
              && r.result.value[ETag] == reply.value.eTag
    ensures reply.Fault? && reply.failure.S3Error? && reply.failure.code == NoSuchKey ==>
              r.result.Err? && r.result.error.ObjectNotFound? && Mentions(r.result.error.message, Show(key))
    ensures reply.Fault? && reply.failure.S3Error? && reply.failure.code != NoSuchKey ==>
              r.result.Err? && r.result.error.StorageException? && r.result.error.cause == Some(reply.failure)
    ensures reply.Fault? && reply.failure.RuntimeFault? ==> r.result == Err(Uncaught(reply.failure))
  {
    var call := HeadObjectRequest(bucket, key);
    match reply
    case Answer(head) =>
      var info := map[ContentLength := Some(head.contentLength)]
                     [LastModified := Some(head.lastModified)]
                     [ContentType := head.contentType]
                     [ETag := head.eTag];
      Run(Ok(info), [call])
    case Fault(f) =>
      if f.RuntimeFault? then Run(Err(Uncaught(f)), [call])
      else if f.code == NoSuchKey then
        MentionsInfix("Object not found: ", Show(key), "");
        assert "Object not found: " + Show(key) + "" == "Object not found: " + Show(key);
        Run(Err(ObjectNotFound("Object not found: " + Show(key))), [call])
      else Run(Err(StorageException("Failed to get file info: " + f.message, Some(f))), [call])
  }

  // ---------------------------------------------------------------------------
  // Bucket operations (none validates its argument)
  // ---------------------------------------------------------------------------

  /** `listBuckets()`. */
  function ListBuckets(reply: Reply<seq<string>>): (r: Run<seq<string>>)
    ensures r.trace == [ListBucketsRequest]
    ensures r.result.Ok? <==> reply.Answer?
    ensures r.result.Ok? ==> r.result.value == reply.value
    ensures reply.Fault? && reply.failure.S3Error? ==>
              r.result.Err? && r.result.error.StorageException? && r.result.error.cause == Some(reply.failure)
    ensures reply.Fault? && reply.failure.RuntimeFault? ==> r.result == Err(Uncaught(reply.failure))
  {
    var call := ListBucketsRequest;
    match reply
    case Answer(names) => Run(Ok(names), [call])
    case Fault(f) =>
      if f.RuntimeFault? then Run(Err(Uncaught(f)), [call])
      else Run(Err(StorageException("Failed to list buckets: " + f.message, Some(f))), [call])
  }

  /** `bucketExists(bucketName)`: a missing bucket is an answer, not an error. */
  function BucketExists(bucket: Option<string>, reply: Reply<()>): (r: Run<bool>)
    ensures r.trace == [HeadBucketRequest(bucket)]
    ensures r.result == Ok(true) <==> reply.Answer?
    ensures r.result == Ok(false) <==> reply.Fault? && reply.failure.S3Error? && reply.failure.code == NoSuchBucket
    ensures reply.Fault? && reply.failure.S3Error? && reply.failure.code != NoSuchBucket ==>
              r.result.Err? && r.result.error.StorageException? && r.result.error.cause == Some(reply.failure)
    ensures reply.Fault? && reply.failure.RuntimeFault? ==> r.result == Err(Uncaught(reply.failure))
  {
    var call := HeadBucketRequest(bucket);
    match reply
    case Answer(_) => Run(Ok(true), [call])
    case Fault(f) =>
      if f.RuntimeFault? then Run(Err(Uncaught(f)), [call])
      else if f.code == NoSuchBucket then Run(Ok(false), [call])
      else Run(Err(StorageException("Failed to check bucket existence: " + f.message, Some(f))), [call])
  }

  /** `createBucket(bucketName)`. */
  function CreateBucket(bucket: Option<string>, reply: Reply<()>): (r: Run<()>)
    ensures r.trace == [CreateBucketRequest(bucket)]
    ensures r.result.Ok? <==> reply.Answer?
    ensures reply.Fault? && reply.failure.S3Error? && reply.failure.code in {BucketAlreadyOwnedByYou, BucketAlreadyExists} ==>
              && r.result.Err? && r.result.error.StorageException?
              && r.result.error.cause == Some(reply.failure)
              && Mentions(r.result.error.message, Show(bucket))
    ensures reply.Fault? && reply.failure.S3Error? ==>
              r.result.Err? && r.result.error.StorageException? && r.result.error.cause == Some(reply.failure)
    ensures reply.Fault? && reply.failure.RuntimeFault? ==> r.result == Err(Uncaught(reply.failure))
  {
    var call := CreateBucketRequest(bucket);
    match reply
    case Answer(_) => Run(Ok(()), [call])
    case Fault(f) =>
      if f.RuntimeFault? then Run(Err(Uncaught(f)), [call])
      else if f.code == BucketAlreadyOwnedByYou || f.code == BucketAlreadyExists then
        MentionsInfix("Bucket already exists: ", Show(bucket), "");
        assert "Bucket already exists: " + Show(bucket) + "" == "Bucket already exists: " + Show(bucket);
        Run(Err(StorageException("Bucket already exists: " + Show(bucket), Some(f))), [call])
      else Run(Err(StorageException("Failed to create bucket: " + f.message, Some(f))), [call])
  }

  /** `deleteBucket(bucketName)`. */
  function DeleteBucket(bucket: Option<string>, reply: Reply<()>): (r: Run<()>)
    ensures r.trace == [DeleteBucketRequest(bucket)]
    ensures r.result.Ok? <==> reply.Answer?
    ensures reply.Fault? && reply.failure.S3Error? && reply.failure.code == NoSuchBucket ==>
              r.result.Err? && r.result.error.BucketDoesNotExists? && Mentions(r.result.error.message, Show(bucket))
    ensures reply.Fault? && reply.failure.S3Error? && reply.failure.code != NoSuchBucket ==>
              r.result.Err? && r.result.error.StorageException? && r.result.error.cause == Some(reply.failure)
    ensures reply.Fault? && reply.failure.RuntimeFault? ==> r.result == Err(Uncaught(reply.failure))
  {
    var call := DeleteBucketRequest(bucket);
    match reply
    case Answer(_) => Run(Ok(()), [call])
    case Fault(f) =>
      if f.RuntimeFault? then Run(Err(Uncaught(f)), [call])
      else if f.code == NoSuchBucket then
        MentionsInfix("Bucket not found: ", Show(bucket), "");
        assert "Bucket not found: " + Show(bucket) + "" == "Bucket not found: " + Show(bucket);
        Run(Err(BucketDoesNotExists("Bucket not found: " + Show(bucket))), [call])
      else Run(Err(StorageException("Failed to delete bucket (it may not be empty): " + f.message, Some(f))), [call])
  }
}
