# Cloud-Utils-4J storage facade, modelled in Dafny

Cloud-Utils-4J puts a small, vendor-neutral contract (`StorageOperations`) in
front of an S3-compatible object store. Its implementation
(`AwsSdkStorageOperations`) checks the bucket name and the role-tagged string
arguments before it talks to the S3 client. It then makes the client call and
translates S3 failures into the library's own exceptions. This project models
that layer:

- `BucketValidator` (`bucket_validator.dfy`) is `S3BucketValidator.validate`.
  It checks null first, then the empty string, then the naming pattern. The
  pattern is modelled by grammars that follow its parts: a length bound, a
  negative lookahead for `(\d+\.){3}\d+`, and a main group
  `[a-z0-9](-?[a-z0-9])*(\.[a-z0-9](-?[a-z0-9])*)*`. The main group is proved
  equal to a character-level reading and to a reading as dot-separated labels.
  The lookahead is proved equal to "exactly four dot-separated digit groups".
  `Text` (`text.dfy`) supplies the split into pieces. Its two round trips,
  `Join(Split(s)) == s` and `Split(Join(parts)) == parts`, show that `Split`
  is a faithful split.
  `BucketNameProperties` states what an accepted name looks like.
- `ParamValidator` (`param_validator.dfy`) is `S3ParamValidator.validate`. The
  role is a datatype with the six named roles plus `Unknown(tag)`, and
  `KindOf` is the string switch. `ParamProperties` gives each role's policy.
- `ExceptionHandler` (`exception_handler.dfy`) is `S3ExceptionHandler`.
  `handle` and `handleUnknownError` never return normally, so the model
  returns the exception they throw.
- `StorageFacade` (`storage_facade.dfy`) holds the twelve operations. Each
  one is a function of:
  - its arguments, with a null Java string as `None`;
  - the set of local paths that are existing regular files;
  - the reply to each S3 client call: an answer, or a failure.
  Each operation returns its result or the exception it throws, plus the list
  of client requests it issued (`Backend`, `backend.dfy`).
- `FacadeProperties` states properties that span operations. `ContractProperties`
  states the guarantees documented on the `StorageOperations` interface.
- `Errors` (`errors.dfy`) folds the exception classes into one datatype.
  `ObjectNotFound` counts as a `StorageException`, as the subclass does.
  Only `StorageException` carries a cause. `Uncaught` is a non-S3 fault that
  an operation lets escape untranslated.

`runValidations` walks a `HashMap` from parameter value to role. The model
builds the same map with the same puts, so two equal values share one entry
and the role put last wins. When several entries fail, the model does not say
which entry is checked first: the error is that of *some* failing entry. For
this reason the validated operations are ghost functions.

Where the code and its description disagree, the model follows the code:

- `fileExists`, and every other validated operation, wraps a non-S3 fault in a
  `StorageException` with the fault as cause. It does not propagate the fault
  unchanged.
- `handle` attaches no cause to `BucketDoesNotExists` or `ObjectNotFound`.
  So "every error after a backend call keeps the original failure as cause"
  holds only for the other errors (`FacadeProperties.ErrorsAfterCallKeepCause`).
- `copyFile` maps `NoSuchBucket` to a plain `StorageException`.
- `createBucket` reports an existing bucket as a plain `StorageException`.
- `downloadFile` reports a missing object as `FileDoesNotExists`. This is not
  the `ObjectNotFoundException` the interface names, and not a
  `StorageException` at all.
- `copyFile`, `getFileInfo` and the four bucket operations validate nothing.
  `moveFile` validates only inside its `deleteFile` step. So a name that the
  delete step rejects is rejected only after the copy has been issued
  (`FacadeProperties.MoveValidatesOnlyAfterCopy`).
- The interface promises a `StorageException` for communication errors
  (`StorageOperations.java` lines 119 and 128, and the "other errors" clauses).
  Only S3 failures are caught by `copyFile`, `getFileInfo`, `listBuckets`,
  `bucketExists`, `createBucket` and `deleteBucket`. Any other fault, such as
  a client-side network failure, escapes from them unchanged
  (`FacadeProperties.UnvalidatedOperationsPropagateFaults`).
- Some tests in `AwsSdkStorageOperationsTest.java` expect behaviour the code
  does not have. The model follows the code. These tests are:
  - lines 893-945, where `copyFile` is expected to raise `FileDoesNotExists` on
    NoSuchKey and `BucketDoesNotExists` on NoSuchBucket;
  - lines 947-1089, where `copyFile` is expected to validate its bucket names
    and keys;
  - lines 1091-1109, where a `RuntimeException` from `copyFile` is expected to
    become a `StorageException`;
  - lines 1142-1158, where `moveFile` is expected to raise `FileDoesNotExists`
    when the copy fails with NoSuchKey.

  The `moveFile` delete-failure test at lines 1160-1177 agrees with the code.
  There the S3 failure of the delete goes through `handle` and becomes a
  `StorageException`.

## Model

| member | source | states |
|---|---|---|
| BucketValidator.Validate | src/main/java/cloudutils4j/s3/utils/S3BucketValidator.java:30-42 | null fails with NullBucketName and "" with EmptyBucketName, before the pattern; a name passes exactly when it has 3 to 63 characters, is well formed (allowed characters, alphanumeric ends, separators between alphanumerics) and is not four dot-separated digit groups; any other failure is InvalidBucketName carrying the name |
| BucketValidator.NameIffWellFormed | src/main/java/cloudutils4j/s3/utils/S3BucketValidator.java:20-21 | the main group of the pattern accepts exactly the strings of `[a-z0-9.-]` that start and end with an alphanumeric and have every dot or hyphen between two alphanumerics |
| BucketValidator.NameRestIffTailOk | src/main/java/cloudutils4j/s3/utils/S3BucketValidator.java:31 | what may follow the first character of the main group is exactly a string of allowed characters in which every separator is followed by an alphanumeric |
| BucketValidator.NameIffLabels | src/main/java/cloudutils4j/s3/utils/S3BucketValidator.java:31 | the main group accepts exactly the strings whose dot-separated pieces are all labels (alphanumerics with single interior hyphens) |
| BucketValidator.DottedQuadIffFourGroups | src/main/java/cloudutils4j/s3/utils/S3BucketValidator.java:22 | the negative lookahead rejects exactly the strings made of four dot-separated non-empty digit groups |
| BucketValidator.DigitRunRestIffGroups | src/main/java/cloudutils4j/s3/utils/S3BucketValidator.java:31 | the digit-group grammar with n dots accepts exactly the strings that split into n + 1 digit groups |
| BucketNameProperties.NullThenEmpty | src/main/java/cloudutils4j/s3/utils/S3BucketValidator.java:36-38 | null is reported as NullBucketName and "" as EmptyBucketName; any other rejection is InvalidBucketName |
| BucketNameProperties.LengthBounds | src/main/java/cloudutils4j/s3/utils/S3BucketValidator.java:31-41 | accepted names have 3 to 63 characters; a non-empty name outside that range fails with InvalidBucketName |
| BucketNameProperties.CharacterSet | src/main/java/cloudutils4j/s3/utils/S3BucketValidator.java:20 | accepted names use only lowercase letters, digits, dots and hyphens |
| BucketNameProperties.ForeignCharacterRejected | src/main/java/cloudutils4j/s3/utils/S3BucketValidator.java:31-41 | a name containing any other character fails with InvalidBucketName |
| BucketNameProperties.Boundaries | src/main/java/cloudutils4j/s3/utils/S3BucketValidator.java:21 | accepted names start and end with an alphanumeric and never have two adjacent separators |
| BucketNameProperties.Soundness | src/main/java/cloudutils4j/s3/utils/S3BucketValidator.java:31 | an accepted name is a sequence of dot-separated labels and not four digit groups |
| BucketNameProperties.Completeness | src/main/java/cloudutils4j/s3/utils/S3BucketValidator.java:31-38 | every 3 to 63 character sequence of dot-separated labels that is not four digit groups is accepted |
| BucketNameProperties.OnlyFourGroupsExcluded | src/main/java/cloudutils4j/s3/utils/S3BucketValidator.java:31 | the address rule excludes nothing with other than four pieces: such a name passes exactly by length and form |
| BucketNameProperties.RejectedExamples | src/main/java/cloudutils4j/s3/utils/S3BucketValidator.java:30-42 | "InvalidBucketName", "Invalid_BucketName" and "ab" fail with InvalidBucketName |
| BucketNameProperties.DottedAddressRejected | src/main/java/cloudutils4j/s3/utils/S3BucketValidator.java:22 | "192.168.5.4" fails with InvalidBucketName |
| BucketNameProperties.ThreeDigitGroupsAccepted | src/main/java/cloudutils4j/s3/utils/S3BucketValidator.java:31 | "192.168.5", three digit groups, is accepted |
| BucketNameProperties.HyphenatedNameAccepted | src/main/java/cloudutils4j/s3/utils/S3BucketValidator.java:31 | "my-bucket" is accepted |
| ParamValidator.KindOf | src/main/java/cloudutils4j/s3/utils/S3ParamValidator.java:31-53 | the role selected by a tag is tagged with that same string, so unrecognised tags are kept as they are |
| ParamValidator.Validate | src/main/java/cloudutils4j/s3/utils/S3ParamValidator.java:29-54 | a value passes exactly when the role is unrecognised, or the value is present and (for every role but the prefix) non-empty; null fails with a null-value error and "" with an empty-value error |
| ParamProperties.KindOfTag | src/main/java/cloudutils4j/s3/utils/S3ParamValidator.java:31-49 | each of the six roles is selected by its own tag |
| ParamProperties.KindOfRecognised | src/main/java/cloudutils4j/s3/utils/S3ParamValidator.java:31-52 | a tag selects a recognised role exactly when it is one of the six literals |
| ParamProperties.PrefixPolicy | src/main/java/cloudutils4j/s3/utils/S3ParamValidator.java:62-64 | a null prefix fails with NullPrefix; every present prefix, "" included, passes |
| ParamProperties.KeyPolicy | src/main/java/cloudutils4j/s3/utils/S3ParamValidator.java:73-76 | a null key fails with NullKey, "" with EmptyKey |
| ParamProperties.LocalPathPolicy | src/main/java/cloudutils4j/s3/utils/S3ParamValidator.java:85-90 | a null local path fails with NullLocalPath, "" with EmptyDestinationLocalPath, the download role's error |
| ParamProperties.DestinationKeyPolicy | src/main/java/cloudutils4j/s3/utils/S3ParamValidator.java:99-102 | null fails with NullDestinationKey, "" with EmptyDestinationKey |
| ParamProperties.SourceKeyPolicy | src/main/java/cloudutils4j/s3/utils/S3ParamValidator.java:111-114 | null fails with NullSourceKey, "" with EmptySourceKey |
| ParamProperties.LocalDestinationPathPolicy | src/main/java/cloudutils4j/s3/utils/S3ParamValidator.java:123-126 | null fails with NullDestinationLocalPath, "" with EmptyDestinationLocalPath |
| ParamProperties.NonEmptyAlwaysPasses | src/main/java/cloudutils4j/s3/utils/S3ParamValidator.java:29-54 | content is never inspected: a present non-empty value passes every role |
| ParamProperties.UnknownAcceptsAll | src/main/java/cloudutils4j/s3/utils/S3ParamValidator.java:50-52 | an unrecognised role accepts every value, null included |
| ExceptionHandler.Handle | src/main/java/cloudutils4j/s3/utils/S3ExceptionHandler.java:30-43 | NoSuchBucket becomes BucketDoesNotExists and NoSuchKey ObjectNotFound, both naming operation and resource and without cause; an existing bucket becomes a StorageException naming the resource; any other S3 failure a StorageException naming operation, resource and backend message; all but the not-found cases keep the failure as cause |
| ExceptionHandler.HandleUnknownError | src/main/java/cloudutils4j/s3/utils/S3ExceptionHandler.java:52-54 | any fault becomes a StorageException naming the operation and the fault's message, with the fault as cause |
| StorageFacade.RunValidations | src/main/java/cloudutils4j/s3/impl/AwsSdkStorageOperations.java:60-63 | passes exactly when the bucket name and every map entry pass; a bad bucket name is reported before any entry; otherwise the error is that of some failing entry |
| StorageFacade.SingleValidation | src/main/java/cloudutils4j/s3/impl/AwsSdkStorageOperations.java:69 | with a single-entry map, the error is the bucket's if it fails, else the one role's |
| StorageFacade.PairValidation | src/main/java/cloudutils4j/s3/impl/AwsSdkStorageOperations.java:115-118 | with two roles put in turn (equal values collapsing), validation passes exactly when the bucket passes and both values are present and non-empty, and a failure reports one of the two roles' errors |
| StorageFacade.RethrowTranslates | src/main/java/cloudutils4j/s3/impl/AwsSdkStorageOperations.java:81-87 | the two catch clauses map NoSuchBucket to BucketDoesNotExists and NoSuchKey to ObjectNotFound without cause, and everything else, non-S3 faults included, to a StorageException with the failure as cause |
| StorageFacade.ListFiles | src/main/java/cloudutils4j/s3/impl/AwsSdkStorageOperations.java:67-88 | a bad bucket or null prefix fails with no call; otherwise exactly one list request for (bucket, prefix); on success the backend's keys are returned unchanged; failures are translated |
| StorageFacade.ListAllFiles | src/main/java/cloudutils4j/s3/impl/AwsSdkStorageOperations.java:91-93 | the one-argument listing sends the empty prefix and fails only on a bad bucket (with the bucket's validation error, and no call) or a backend failure (translated) |
| ContractProperties.ListAllFilesIsEmptyPrefix | src/main/java/cloudutils4j/s3/impl/AwsSdkStorageOperations.java:90-93 | the one-argument listing is listFiles with the empty prefix: the same result, the same error and the same calls |
| StorageFacade.FileExists | src/main/java/cloudutils4j/s3/impl/AwsSdkStorageOperations.java:95-111 | validation failures issue no call; after one head request, true exactly on success and false exactly on NoSuchKey; every other failure is a translated error, never false |
| StorageFacade.UploadFile | src/main/java/cloudutils4j/s3/impl/AwsSdkStorageOperations.java:113-137 | validation failures and a path that is not a regular file (FileDoesNotExists naming it) issue no call; otherwise exactly one put to (bucket, destinationKey) from the local path; failures are translated |
| StorageFacade.DownloadFile | src/main/java/cloudutils4j/s3/impl/AwsSdkStorageOperations.java:139-159 | validation failures issue no call; otherwise exactly one get of (bucket, sourceKey) into the local path; NoSuchKey becomes FileDoesNotExists naming the key; other failures are translated |
| StorageFacade.DeleteFile | src/main/java/cloudutils4j/s3/impl/AwsSdkStorageOperations.java:161-176 | validation failures issue no call; otherwise exactly one delete of (bucket, key); failures are translated |
| StorageFacade.CopyFile | src/main/java/cloudutils4j/s3/impl/AwsSdkStorageOperations.java:179-194 | always exactly one copy request; NoSuchKey becomes ObjectNotFound naming the source key; every other S3 failure, NoSuchBucket included, a StorageException with cause; a non-S3 fault escapes untranslated |
| StorageFacade.MoveFile | src/main/java/cloudutils4j/s3/impl/AwsSdkStorageOperations.java:197-201 | the copy is always the first call; a failed copy ends the move with the copy's error and no delete; after a successful copy the move's result and remaining calls are those of deleteFile on the source |
| StorageFacade.GetFileInfo | src/main/java/cloudutils4j/s3/impl/AwsSdkStorageOperations.java:204-221 | one head request; on success the map has exactly the keys Content-Length, Last-Modified, Content-Type and ETag, holding the response's fields; NoSuchKey becomes ObjectNotFound, other S3 failures a StorageException with cause, non-S3 faults escape |
| StorageFacade.ListBuckets | src/main/java/cloudutils4j/s3/impl/AwsSdkStorageOperations.java:224-233 | one request; the backend's names unchanged on success; S3 failures become a StorageException with cause; non-S3 faults escape |
| StorageFacade.BucketExists | src/main/java/cloudutils4j/s3/impl/AwsSdkStorageOperations.java:236-246 | one head-bucket request; true exactly on success, false exactly on NoSuchBucket; other S3 failures a StorageException with cause; non-S3 faults escape |
| StorageFacade.CreateBucket | src/main/java/cloudutils4j/s3/impl/AwsSdkStorageOperations.java:249-258 | one request; an existing bucket becomes a StorageException naming the bucket, with cause; every S3 failure is a StorageException with cause; non-S3 faults escape |
| StorageFacade.DeleteBucket | src/main/java/cloudutils4j/s3/impl/AwsSdkStorageOperations.java:261-270 | one request; NoSuchBucket becomes BucketDoesNotExists naming the bucket; other S3 failures a StorageException with cause; non-S3 faults escape |
| FacadeProperties.ListFilesValidatesFirst | src/main/java/cloudutils4j/s3/impl/AwsSdkStorageOperations.java:68-77 | a validation error means listFiles issued no backend call; once it calls the backend, the bucket name matched the pattern and the prefix was not null |
| FacadeProperties.FileExistsValidatesFirst | src/main/java/cloudutils4j/s3/impl/AwsSdkStorageOperations.java:96-100 | a validation error means fileExists issued no backend call; once it calls the backend, the bucket name matched the pattern and the key was present and non-empty |
| FacadeProperties.UploadValidatesFirst | src/main/java/cloudutils4j/s3/impl/AwsSdkStorageOperations.java:114-131 | a validation error means uploadFile issued no backend call; once it calls the backend, the bucket name matched the pattern, path and destination key were present and non-empty, and the path was a regular file |
| FacadeProperties.DownloadValidatesFirst | src/main/java/cloudutils4j/s3/impl/AwsSdkStorageOperations.java:140-151 | a validation error means downloadFile issued no backend call; once it calls the backend, the bucket name matched the pattern and source key and destination path were present and non-empty |
| FacadeProperties.DeleteValidatesFirst | src/main/java/cloudutils4j/s3/impl/AwsSdkStorageOperations.java:162-170 | a validation error means deleteFile issued no backend call; once it calls the backend, the bucket name matched the pattern and the key was present and non-empty |
| FacadeProperties.ErrorsAfterCallKeepCause | src/main/java/cloudutils4j/s3/utils/S3ExceptionHandler.java:34-41 | an error raised after a backend call keeps the failure as cause unless it is a not-found error |
| FacadeProperties.MoveDeletesOnlyAfterCopy | src/main/java/cloudutils4j/s3/impl/AwsSdkStorageOperations.java:198-200 | a delete in a move's trace is the second call, of the source, after the copy, and only when the copy succeeded |
| FacadeProperties.MoveValidatesOnlyAfterCopy | src/main/java/cloudutils4j/s3/impl/AwsSdkStorageOperations.java:198-200 | a source name the delete step rejects is reported as a validation error after the copy was issued |
| FacadeProperties.MoveIsNotAtomic | src/main/java/cloudutils4j/s3/impl/AwsSdkStorageOperations.java:198-200 | a failing delete after a successful copy leaves both calls in the trace and reports the delete's translated error |
| FacadeProperties.UnvalidatedOperationsPropagateFaults | src/main/java/cloudutils4j/s3/impl/AwsSdkStorageOperations.java:179-270 | copyFile, getFileInfo, listBuckets, bucketExists, createBucket and deleteBucket let non-S3 faults escape untranslated |
| FacadeProperties.ValidatedOperationsWrapFaults | src/main/java/cloudutils4j/s3/impl/AwsSdkStorageOperations.java:107-110 | fileExists and deleteFile turn non-S3 faults into a StorageException with the fault as cause |
| FacadeProperties.ListScenario | src/main/java/cloudutils4j/s3/impl/AwsSdkStorageOperations.java:77-80 | listing "my-bucket" with the empty prefix returns the backend's two keys in its order after one request |
| FacadeProperties.UploadMissingFileScenario | src/test/java/com/cloudutils4j/s3/AwsSdkStorageOperationsTest.java:411-422 | uploading "does-not/exist.txt" to any accepted bucket, when that path is not a regular file, fails with FileDoesNotExists and no backend call |
| FacadeProperties.MoveMissingObjectScenario | src/main/java/cloudutils4j/s3/impl/AwsSdkStorageOperations.java:189-190 | moving a missing object fails with ObjectNotFound and issues only the copy |
| ContractProperties.EmptyPrefixReturnsReply | src/main/java/cloudutils4j/core/StorageOperations.java:22-31 | the empty prefix is legal and returns every key of the backend's single reply (one page; see "Left out") |
| ContractProperties.FileExistenceAnswers | src/main/java/cloudutils4j/core/StorageOperations.java:33-41 | fileExists answers true for a present object and false for an absent one |
| ContractProperties.BucketExistenceAnswers | src/main/java/cloudutils4j/core/StorageOperations.java:123-130 | bucketExists answers true for a present bucket and false for an absent one; any other S3 failure raises a StorageException, while a non-S3 fault escapes unchanged (lemma FacadeProperties.UnvalidatedOperationsPropagateFaults) |
| ContractProperties.DownloadMissingObject | src/main/java/cloudutils4j/core/StorageOperations.java:55-65 | a missing object on download is FileDoesNotExists, which is neither the documented ObjectNotFoundException nor any StorageException |
| ContractProperties.MissingObjectIsObjectNotFound | src/main/java/cloudutils4j/core/StorageOperations.java:67-87 | when the backend answers a copy or a delete with NoSuchKey, the error is ObjectNotFoundException |
| ContractProperties.MoveIsCopyThenDelete | src/main/java/cloudutils4j/core/StorageOperations.java:89-99 | a successful move is a copy followed by a delete of the source |
| ContractProperties.FileInfoHasDocumentedKeys | src/main/java/cloudutils4j/core/StorageOperations.java:101-110 | the metadata map contains Content-Length and Last-Modified, four keys in all |
| ContractProperties.CreateExistingBucket | src/main/java/cloudutils4j/core/StorageOperations.java:132-138 | creating an existing bucket raises a StorageException |
| ContractProperties.DeleteBucketFailures | src/main/java/cloudutils4j/core/StorageOperations.java:140-147 | deleting a missing bucket raises BucketDoesNotExists; any other S3 failure a StorageException |

## Left out

- The S3 client and the network. Each client call is replaced by a reply given as input. No bucket or object state is modelled, so "the destination now exists" after a copy is not stated.
- StorageFacade.ListFiles: the reply is the one page that a single `ListObjectsV2` request returns. The Java code neither checks `isTruncated` nor follows a continuation token, so it lists at most one page (1,000 keys by default). The interface's "list everything" for the empty prefix is therefore not established beyond that page, and `ListAllFiles` inherits this.
- StorageFacade.DeleteFile: a NoSuchKey reply is modelled as the backend may send it. Real S3 `DeleteObject` answers success for an absent key, so against S3 itself `deleteFile` of a missing key succeeds and raises no `ObjectNotFoundException`. `ContractProperties.MissingObjectIsObjectNotFound` covers only a backend that answers NoSuchKey.
- Local file system effects. `File.exists`/`isFile` is the input set of regular-file paths. The file written by a download and the bytes read by an upload are not modelled.
- Failures raised before a request is sent are not told apart from failures of the call. `RequestBody.fromFile` and `Paths.get` are evaluated before the put or get, inside the same `try`. If they throw, the Java code sends nothing, but the model still lists the request.
- Exact message wording. Messages are built as the Java code builds them (null renders as "null"). Contracts state only which operation, resource or backend message a message mentions. Validation errors carry no message.
- Rendering of `contentLength()` and `lastModified()`. Both arrive as strings. A null `lastModified()`, which throws a `NullPointerException` in `getFileInfo`, is not modelled.
- The switch on a null role tag, which throws in Java. Every call site passes a literal.
- `BucketValidator.MatchesPattern`: the `.{3,63}$` lookahead is read as a plain length bound. In Java, `.` stops at line terminators and `$` may match before a final one. This makes no difference, because the main group accepts no line terminators.
- Which role's error wins when several role-tagged values fail. The `HashMap` iteration order is unspecified, so the model commits to none.
- Client construction (`S3ClientBuilderFactory`), the constructors of `AwsSdkStorageOperations`, and the demo program. They make no decisions.
- The exception classes `BucketAlreadyExistsException` (the library's own), `BucketIsNotEmptyException` and `NullFileNameException`. No code path throws them.
- The `return null` / `return false` statements after handler calls. They are unreachable.
- The checked/unchecked distinction between exception classes. Only the `StorageException` subtype relation is kept.
