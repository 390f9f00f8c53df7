/** The guarantees the vendor-neutral storage interface documents, checked
    against the facade's operations. */
module ContractProperties {
  import opened Common
  import opened Errors
  import opened Backend
  import opened StorageFacade

  /** The empty prefix is a legal listing argument, and the listing returns
      every key of the backend's one reply. The listing asks for one page
      only, so keys past that page are not returned. */
  lemma EmptyPrefixReturnsReply(bucket: Option<string>, keys: seq<string>)
    requires BucketOk(bucket)
    ensures ListFiles(bucket, Some(""), Answer(keys)).result == Ok(keys)
  {
  }

  /** The one-argument listing is the two-argument listing with the empty
      prefix, in its result, its errors and its calls alike. */
  lemma ListAllFilesIsEmptyPrefix(bucket: Option<string>, reply: Reply<seq<string>>)
    ensures ListAllFiles(bucket, reply) == ListFiles(bucket, Some(""), reply)
  {
  }

  /** `fileExists`: true when the object is there, false when it is absent. */
  lemma FileExistenceAnswers(bucket: Option<string>, key: Option<string>,
                             head: HeadObjectResponse, message: string)
    requires BucketOk(bucket) && Given(key)
    ensures FileExists(bucket, key, Answer(head)).result == Ok(true)
    ensures FileExists(bucket, key, Fault(S3Error(NoSuchKey, message))).result == Ok(false)
  {
  }

  /** `bucketExists`: true when the bucket is there, false when it is absent,
      and any other S3 failure is a `StorageException`. */
  lemma BucketExistenceAnswers(bucket: Option<string>, f: Failure)
    ensures BucketExists(bucket, Answer(())).result == Ok(true)
    ensures f.S3Error? && f.code == NoSuchBucket ==> BucketExists(bucket, Fault(f)).result == Ok(false)
    ensures f.S3Error? && f.code != NoSuchBucket ==> BucketExists(bucket, Fault(f)).result.error.IsStorageException()
  {
  }

  /** A missing object on download is reported as a missing file, which is not
      the `ObjectNotFoundException` the interface names, nor any `StorageException`. */
  lemma DownloadMissingObject(bucket: Option<string>, sourceKey: Option<string>, localDestinationPath: Option<string>,
                              message: string)
    requires BucketOk(bucket) && Given(sourceKey) && Given(localDestinationPath)
    ensures var e := DownloadFile(bucket, sourceKey, localDestinationPath, Fault(S3Error(NoSuchKey, message))).result.error;
            e.FileDoesNotExists? && !e.IsStorageException()
  {
  }

  /** When the backend answers a copy or a delete with NoSuchKey, the error is
      `ObjectNotFoundException`. */
  lemma MissingObjectIsObjectNotFound(bucket: Option<string>, key: Option<string>,
                                      destBucket: Option<string>, destKey: Option<string>, message: string)
    requires BucketOk(bucket) && Given(key)
    ensures CopyFile(bucket, key, destBucket, destKey, Fault(S3Error(NoSuchKey, message))).result.error.ObjectNotFound?
    ensures DeleteFile(bucket, key, Fault(S3Error(NoSuchKey, message))).result.error.ObjectNotFound?
  {
  }

  /** A successful move is a server-side copy followed by a delete of the source. */
  lemma MoveIsCopyThenDelete(sourceBucket: Option<string>, sourceKey: Option<string>,
                             destBucket: Option<string>, destKey: Option<string>)
    requires BucketOk(sourceBucket) && Given(sourceKey)
    ensures MoveFile(sourceBucket, sourceKey, destBucket, destKey, Answer(()), Answer(())) ==
              Run(Ok(()), [CopyObjectRequest(sourceBucket, sourceKey, destBucket, destKey),
                           DeleteObjectRequest(sourceBucket, sourceKey)])
  {
  }

  /** The metadata map holds Content-Length and Last-Modified (and nothing but
      the four fields read). */
  lemma FileInfoHasDocumentedKeys(bucket: Option<string>, key: Option<string>, head: HeadObjectResponse)
    ensures var info := GetFileInfo(bucket, key, Answer(head)).result.value;
            ContentLength in info && LastModified in info && |info.Keys| == 4
  {
  }

  /** Creating a bucket that already exists raises a `StorageException`. */
  lemma CreateExistingBucket(bucket: Option<string>, f: Failure)
    requires f.S3Error? && f.code in {BucketAlreadyOwnedByYou, BucketAlreadyExists}
    ensures CreateBucket(bucket, Fault(f)).result.error.IsStorageException()
  {
  }

  /** Deleting a missing bucket raises `BucketDoesNotExistsException`; any other
      S3 failure, a non-empty bucket included, raises a `StorageException`. */
  lemma DeleteBucketFailures(bucket: Option<string>, f: Failure)
    requires f.S3Error?
    ensures f.code == NoSuchBucket ==> DeleteBucket(bucket, Fault(f)).result.error.BucketDoesNotExists?
    ensures f.code != NoSuchBucket ==> DeleteBucket(bucket, Fault(f)).result.error.IsStorageException()
  {
  }
}
