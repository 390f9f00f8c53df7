/** Translation of backend failures into the facade's exceptions. */
module ExceptionHandler {
  import opened Common
  import opened Errors

  /** `S3ExceptionHandler.handle`: never returns normally, so the model returns
      the exception it throws. The categories are tried in the order bucket,
      key, already-exists, anything else. */
  function Handle(f: Failure, operation: string, resource: string): (e: Error)
    requires f.S3Error?
    ensures f.code == NoSuchBucket ==>
              && e.BucketDoesNotExists?
              && Mentions(e.message, operation) && Mentions(e.message, resource)
    ensures f.code == NoSuchKey ==>
              && e.ObjectNotFound?
              && Mentions(e.message, operation) && Mentions(e.message, resource)
    ensures f.code in {BucketAlreadyOwnedByYou, BucketAlreadyExists} ==>
              && e.StorageException?
              && Mentions(e.message, resource)
    ensures f.code == OtherS3 ==>
              && e.StorageException?
              && Mentions(e.message, operation) && Mentions(e.message, resource)
              && Mentions(e.message, f.message)
    ensures e.Cause() == (if f.code in {NoSuchBucket, NoSuchKey} then None else Some(f))
  {
    var message := "Failed to " + operation + " for resource " + resource + ".";
    match f.code
    case NoSuchBucket =>
      var text := "Bucket not found during " + operation + ": " + resource;
      MentionsAround("Bucket not found during ", operation, ": ", resource);
      BucketDoesNotExists(text)
    case NoSuchKey =>
      var text := "Object not found during " + operation + ": " + resource;
      MentionsAround("Object not found during ", operation, ": ", resource);
      ObjectNotFound(text)
    case BucketAlreadyOwnedByYou =>
      MentionsInfix("Bucket already exists: ", resource, "");
      assert "Bucket already exists: " + resource + "" == "Bucket already exists: " + resource;
      StorageException("Bucket already exists: " + resource, Some(f))
    case BucketAlreadyExists =>
      MentionsInfix("Bucket already exists: ", resource, "");
      assert "Bucket already exists: " + resource + "" == "Bucket already exists: " + resource;
      StorageException("Bucket already exists: " + resource, Some(f))
    case OtherS3 =>
      var text := message + " S3Exception: " + f.message;
      MentionsAround("Failed to ", operation, " for resource ", resource);
      MentionsAppend("Failed to " + operation + " for resource " + resource, operation, "." + " S3Exception: " + f.message);
      MentionsAppend("Failed to " + operation + " for resource " + resource, resource, "." + " S3Exception: " + f.message);
      assert text == "Failed to " + operation + " for resource " + resource + ("." + " S3Exception: " + f.message);
      MentionsInfix(message + " S3Exception: ", f.message, "");
      assert message + " S3Exception: " + f.message + "" == text;
      StorageException(text, Some(f))
  }

  /** `S3ExceptionHandler.handleUnknownError`: any other fault becomes a
      `StorageException` that keeps the fault as its cause. */
  function HandleUnknownError(f: Failure, operation: string): (e: Error)
    ensures e.StorageException? && e.cause == Some(f)
    ensures Mentions(e.message, operation) && Mentions(e.message, f.message)
  {
    var text := "Failed to " + operation + ". Unknown error: " + f.message;
    MentionsInfix("Failed to ", operation, ". Unknown error: " + f.message);
    assert "Failed to " + operation + (". Unknown error: " + f.message) == text;
    MentionsInfix("Failed to " + operation + ". Unknown error: ", f.message, "");
    assert "Failed to " + operation + ". Unknown error: " + f.message + "" == text;
    StorageException(text, Some(f))
  }

  /** `a + x + b + y` mentions both `x` and `y`. */
  lemma MentionsAround(a: string, x: string, b: string, y: string)
    ensures Mentions(a + x + b + y, x) && Mentions(a + x + b + y, y)
  {
    MentionsInfix(a, x, b + y);
    assert a + x + (b + y) == a + x + b + y;
    MentionsInfix(a + x + b, y, "");
    assert a + x + b + y + "" == a + x + b + y;
  }
}
