/** Backend failures as the S3 client reports them, and the facade's own
    exception taxonomy folded into one datatype. */
module Errors {
  import opened Common

  /** The S3 exception subclasses the facade distinguishes; everything else
      that is still an S3 exception is `OtherS3`. */
  datatype S3Code =
    | NoSuchBucket
    | NoSuchKey
    | BucketAlreadyOwnedByYou
    | BucketAlreadyExists
    | OtherS3

  /** A failure raised by one backend call: an S3 exception with its message,
      or any other runtime fault (client-side, I/O, unexpected). */
  datatype Failure =
    | S3Error(code: S3Code, message: string)
    | RuntimeFault(message: string)

  /** The facade's exceptions. Validation errors carry no context besides their
      kind; the others carry their message, and `StorageException` carries an
      optional cause. `Uncaught` is a backend fault that escapes untranslated. */
  datatype Error =
    | NullBucketName
    | EmptyBucketName
    | InvalidBucketName(name: string)
    | NullPrefix
    | NullKey
    | EmptyKey
    | NullLocalPath
    | NullDestinationKey
    | EmptyDestinationKey
    | NullSourceKey
    | EmptySourceKey
    | NullDestinationLocalPath
    | EmptyDestinationLocalPath
    | FileDoesNotExists(message: string)
    | BucketDoesNotExists(message: string)
    | ObjectNotFound(message: string)
    | StorageException(message: string, cause: Option<Failure>)
    | Uncaught(fault: Failure)
  {
    /** Errors raised by the bucket-name and parameter validators. */
    predicate IsValidation()
    {
      || NullBucketName? || EmptyBucketName? || InvalidBucketName?
      || NullPrefix? || NullKey? || EmptyKey? || NullLocalPath?
      || NullDestinationKey? || EmptyDestinationKey? || NullSourceKey?
      || EmptySourceKey? || NullDestinationLocalPath? || EmptyDestinationLocalPath?
    }

    /** A required value was null (the "null value" kind of error). */
    predicate IsNullValue()
    {
      || NullBucketName? || NullPrefix? || NullKey? || NullLocalPath?
      || NullDestinationKey? || NullSourceKey? || NullDestinationLocalPath?
    }

    /** A required value was the empty string (the "empty value" kind of error). */
    predicate IsEmptyValue()
    {
      EmptyBucketName? || EmptyKey? || EmptyDestinationKey? || EmptySourceKey? || EmptyDestinationLocalPath?
    }

    /** `ObjectNotFoundException` extends `StorageException`, so both are caught
        by a handler for the latter. */
    predicate IsStorageException()
    {
      StorageException? || ObjectNotFound?
    }

    /** The chained cause: only a `StorageException` built with one has it. */
    function Cause(): (c: Option<Failure>)
    {
      if StorageException? then cause else None
    }
  }
}
