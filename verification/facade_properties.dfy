/** Cross-operation properties of the storage facade: validation before any
    backend call, what errors after a call carry, and the ordering of a move. */
module FacadeProperties {
  import opened Common
  import opened Errors
  import opened Backend
  import opened StorageFacade
  import BucketValidator
  import BucketNameProperties
  import ParamValidator

  // In the five validated operations, a validation error means no backend
  // call was issued, and a backend call means the bucket name matched the
  // naming pattern and every role-tagged value was present and, except the
  // prefix, non-empty.

  lemma ListFilesValidatesFirst(bucket: Option<string>, prefix: Option<string>, reply: Reply<seq<string>>)
    ensures var r := ListFiles(bucket, prefix, reply);
            r.result.Err? && r.result.error.IsValidation() ==> r.trace == []
    ensures ListFiles(bucket, prefix, reply).trace != [] ==>
              bucket.Some? && BucketValidator.MatchesPattern(bucket.value) && prefix.Some?
  {
    ValidPattern(bucket);
  }

  lemma FileExistsValidatesFirst(bucket: Option<string>, key: Option<string>, reply: Reply<HeadObjectResponse>)
    ensures var r := FileExists(bucket, key, reply);
            r.result.Err? && r.result.error.IsValidation() ==> r.trace == []
    ensures FileExists(bucket, key, reply).trace != [] ==>
              bucket.Some? && BucketValidator.MatchesPattern(bucket.value) && Given(key)
  {
    ValidPattern(bucket);
  }

  lemma UploadValidatesFirst(localPath: Option<string>, bucket: Option<string>, destinationKey: Option<string>,
                             localFiles: set<string>, reply: Reply<()>)
    ensures var r := UploadFile(localPath, bucket, destinationKey, localFiles, reply);
            r.result.Err? && r.result.error.IsValidation() ==> r.trace == []
    ensures UploadFile(localPath, bucket, destinationKey, localFiles, reply).trace != [] ==>
              && bucket.Some? && BucketValidator.MatchesPattern(bucket.value)
              && Given(localPath) && Given(destinationKey) && localPath.value in localFiles
  {
    ValidPattern(bucket);
  }

  lemma DownloadValidatesFirst(bucket: Option<string>, sourceKey: Option<string>, localDestinationPath: Option<string>,
                               reply: Reply<()>)
    ensures var r := DownloadFile(bucket, sourceKey, localDestinationPath, reply);
            r.result.Err? && r.result.error.IsValidation() ==> r.trace == []
    ensures DownloadFile(bucket, sourceKey, localDestinationPath, reply).trace != [] ==>
              bucket.Some? && BucketValidator.MatchesPattern(bucket.value) && Given(sourceKey) && Given(localDestinationPath)
  {
    ValidPattern(bucket);
  }

  lemma DeleteValidatesFirst(bucket: Option<string>, key: Option<string>, reply: Reply<()>)
    ensures var r := DeleteFile(bucket, key, reply);
            r.result.Err? && r.result.error.IsValidation() ==> r.trace == []
    ensures DeleteFile(bucket, key, reply).trace != [] ==>
              bucket.Some? && BucketValidator.MatchesPattern(bucket.value) && Given(key)
  {
    ValidPattern(bucket);
  }

  /** An accepted bucket name matches the naming pattern, and a rejected one
      is reported with a validation error. */
  lemma ValidPattern(bucket: Option<string>)
    ensures BucketOk(bucket) ==> BucketValidator.MatchesPattern(bucket.value)
    ensures !BucketOk(bucket) ==> BucketValidator.Validate(bucket).error.IsValidation()
  {
    if bucket.Some? && bucket.value != "" {
      BucketValidator.NameIffWellFormed(bucket.value);
      BucketValidator.DottedQuadIffFourGroups(bucket.value);
    }
  }

  /** After a backend call, a validated operation's error keeps the failure as
      its cause unless it is one of the not-found exceptions, which carry none. */
  lemma ErrorsAfterCallKeepCause(bucket: Option<string>, prefix: Option<string>, key: Option<string>,
                                 localPath: Option<string>, destinationKey: Option<string>,
                                 sourceKey: Option<string>, localDestinationPath: Option<string>,
                                 localFiles: set<string>,
                                 listReply: Reply<seq<string>>, headReply: Reply<HeadObjectResponse>,
                                 putReply: Reply<()>, getReply: Reply<()>, deleteReply: Reply<()>)
    ensures var r := ListFiles(bucket, prefix, listReply);
            r.trace != [] && r.result.Err? ==> KeepsCauseOrNotFound(r.result.error, listReply)
    ensures var r := FileExists(bucket, key, headReply);
            r.trace != [] && r.result.Err? ==> KeepsCauseOrNotFound(r.result.error, headReply)
    ensures var r := UploadFile(localPath, bucket, destinationKey, localFiles, putReply);
            r.trace != [] && r.result.Err? ==> KeepsCauseOrNotFound(r.result.error, putReply)
    ensures var r := DownloadFile(bucket, sourceKey, localDestinationPath, getReply);
            r.trace != [] && r.result.Err? ==> KeepsCauseOrNotFound(r.result.error, getReply)
    ensures var r := DeleteFile(bucket, key, deleteReply);
            r.trace != [] && r.result.Err? ==> KeepsCauseOrNotFound(r.result.error, deleteReply)
  {
  }

  /** The error keeps the reply's failure as cause, or is a not-found error. */
  predicate KeepsCauseOrNotFound<T>(e: Error, reply: Reply<T>)
  {
    reply.Fault? &&
    (e.Cause() == Some(reply.failure) || e.BucketDoesNotExists? || e.ObjectNotFound? || e.FileDoesNotExists?)
  }

  /** A move never issues a delete unless the copy succeeded, and the copy is
      always the first call. */
  lemma MoveDeletesOnlyAfterCopy(sourceBucket: Option<string>, sourceKey: Option<string>,
                                 destBucket: Option<string>, destKey: Option<string>,
                                 copyReply: Reply<()>, deleteReply: Reply<()>)
    ensures var r := MoveFile(sourceBucket, sourceKey, destBucket, destKey, copyReply, deleteReply);
            forall i | 0 <= i < |r.trace| && r.trace[i].DeleteObjectRequest? ::
              && i == 1
              && copyReply.Answer?
              && r.trace[0] == CopyObjectRequest(sourceBucket, sourceKey, destBucket, destKey)
              && r.trace[i] == DeleteObjectRequest(sourceBucket, sourceKey)
  {
  }

  /** After a successful copy, the delete's validation errors surface with the
      copy already issued. */
  lemma MoveValidatesOnlyAfterCopy(sourceBucket: Option<string>, sourceKey: Option<string>,
                                   destBucket: Option<string>, destKey: Option<string>,
                                   deleteReply: Reply<()>)
    requires !(BucketOk(sourceBucket) && Given(sourceKey))
    ensures var r := MoveFile(sourceBucket, sourceKey, destBucket, destKey, Answer(()), deleteReply);
            && r.trace == [CopyObjectRequest(sourceBucket, sourceKey, destBucket, destKey)]
            && r.result.Err? && r.result.error.IsValidation()
  {
    var e := BucketValidator.Validate(sourceBucket);
    if e.Fail? {
      assert e.error.IsValidation();
    }
  }

  /** A delete that fails after a successful copy surfaces the delete's
      translated error; the copy has already been issued. */
  lemma MoveIsNotAtomic(sourceBucket: Option<string>, sourceKey: Option<string>,
                        destBucket: Option<string>, destKey: Option<string>,
                        f: Failure)
    requires BucketOk(sourceBucket) && Given(sourceKey)
    ensures var r := MoveFile(sourceBucket, sourceKey, destBucket, destKey, Answer(()), Fault(f));
            && r.trace == [CopyObjectRequest(sourceBucket, sourceKey, destBucket, destKey),
                           DeleteObjectRequest(sourceBucket, sourceKey)]
            && r.result.Err? && TranslatedAs(f, r.result.error)
  {
  }

  /** The six operations without validation let runtime faults escape untranslated. */
  lemma UnvalidatedOperationsPropagateFaults(bucket: Option<string>, key: Option<string>,
                                             destBucket: Option<string>, destKey: Option<string>,
                                             f: Failure)
    requires f.RuntimeFault?
    ensures CopyFile(bucket, key, destBucket, destKey, Fault(f)).result == Err(Uncaught(f))
    ensures GetFileInfo(bucket, key, Fault(f)).result == Err(Uncaught(f))
    ensures ListBuckets(Fault(f)).result == Err(Uncaught(f))
    ensures BucketExists(bucket, Fault(f)).result == Err(Uncaught(f))
    ensures CreateBucket(bucket, Fault(f)).result == Err(Uncaught(f))
    ensures DeleteBucket(bucket, Fault(f)).result == Err(Uncaught(f))
  {
  }

  /** The validated operations translate runtime faults instead. */
  lemma ValidatedOperationsWrapFaults(bucket: Option<string>, key: Option<string>, f: Failure)
    requires f.RuntimeFault?
    requires BucketOk(bucket) && Given(key)
    ensures FileExists(bucket, key, Fault(f)).result.error.StorageException?
    ensures FileExists(bucket, key, Fault(f)).result.error.cause == Some(f)
    ensures DeleteFile(bucket, key, Fault(f)).result.error.StorageException?
    ensures DeleteFile(bucket, key, Fault(f)).result.error.cause == Some(f)
  {
  }

  /** Listing "my-bucket" with the empty prefix returns the backend's keys in
      the backend's order. */
  lemma ListScenario()
    ensures ListFiles(Some("my-bucket"), Some(""), Answer(["a.txt", "folder/b.png"])) ==
              Run(Ok(["a.txt", "folder/b.png"]), [ListObjectsV2Request(Some("my-bucket"), Some(""))])
  {
    BucketNameProperties.HyphenatedNameAccepted();
  }

  /** Uploading a path that is not a regular file fails without any backend
      call, whatever the backend would have answered. */
  lemma UploadMissingFileScenario(bucket: Option<string>, localFiles: set<string>, reply: Reply<()>)
    requires BucketOk(bucket)
    requires "does-not/exist.txt" !in localFiles
    ensures var r := UploadFile(Some("does-not/exist.txt"), bucket, Some("path/to/non-existent-folder/"), localFiles, reply);
            r.trace == [] && r.result.Err? && r.result.error.FileDoesNotExists?
  {
    assert Given(Some("does-not/exist.txt")) && Given(Some("path/to/non-existent-folder/"));
  }

  /** Moving a missing object fails with ObjectNotFound and never deletes. */
  lemma MoveMissingObjectScenario(sourceBucket: Option<string>, destBucket: Option<string>,
                                  message: string, deleteReply: Reply<()>)
    ensures var r := MoveFile(sourceBucket, Some("a.txt"), destBucket, Some("b.txt"),
                              Fault(S3Error(NoSuchKey, message)), deleteReply);
            && r.result.Err? && r.result.error.ObjectNotFound?
            && r.trace == [CopyObjectRequest(sourceBucket, Some("a.txt"), destBucket, Some("b.txt"))]
  {
  }
}
