/** The S3 client as the facade sees it: the requests it issues and, for each
    call, either a response or a failure. Nothing of the client's own state is
    modelled; each reply is an input to the operation that receives it. */
module Backend {
  import opened Common
  import opened Errors

  /** One request sent to the S3 client, with the arguments the facade put in it. */
  datatype Call =
    | ListObjectsV2Request(bucket: Option<string>, prefix: Option<string>)
    | HeadObjectRequest(bucket: Option<string>, key: Option<string>)
    | PutObjectRequest(bucket: Option<string>, key: Option<string>, localPath: Option<string>)
    | GetObjectRequest(bucket: Option<string>, key: Option<string>, localPath: Option<string>)
    | DeleteObjectRequest(bucket: Option<string>, key: Option<string>)
    | CopyObjectRequest(sourceBucket: Option<string>, sourceKey: Option<string>,
                        destinationBucket: Option<string>, destinationKey: Option<string>)
    | ListBucketsRequest
    | HeadBucketRequest(bucket: Option<string>)
    | CreateBucketRequest(bucket: Option<string>)
    | DeleteBucketRequest(bucket: Option<string>)

  /** What one call to the client produced. */
  datatype Reply<+T> = Answer(value: T) | Fault(failure: Failure)

  /** The object metadata fields the facade reads, already rendered as strings
      (content type and ETag may be absent). */
  datatype HeadObjectResponse = HeadObjectResponse(
    contentLength: string,
    lastModified: string,
    contentType: Option<string>,
    eTag: Option<string>)
}
