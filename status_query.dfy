/**
 * The status query `GET /results/{uid}`: a read-only case analysis of the
 * registry entry. A completed job is answered with a freshly presigned URL
 * for its stored key; the registry is never written.
 */
module StatusQuery {
  import opened Wrappers
  import opened ObjectKeys
  import opened Jobs

  /** Lifetime of a presigned URL: 36 hours, in seconds. */
  const PresignTtl: nat := 3600 * 36
  const UnknownErrorMessage: string := "Unknown error occurred"
  const StillProcessingMessage: string := "Job is still processing"

  /** The JSON object returned by the query: a status with either a URL or a message. */
  datatype Response =
    | WithUrl(status: string, url: string)
    | WithMessage(status: string, message: string)

  /** The object store's URL signer, as a function of bucket, key and lifetime. */
  type Presigner = (string, string, nat) -> string

  /** The answer for an id the registry does not hold. */
  function InvalidIdMessage(uid: JobId): string
  {
    "job-id=" + uid + " is invalid"
  }

  /** The answer to `GET /results/{uid}` against the registry `results`. */
  function GetResults(results: Results, uid: JobId, presign: Presigner): (r: Response)
    ensures r.WithUrl? <==> uid in results && results[uid].Success?
    ensures r.WithUrl? ==>
              r.status == "SUCCESS" && r.url == presign(BucketName, results[uid].result, 129600)
    ensures r.status == "ERROR" <==> uid !in results || results[uid].Error?
    ensures uid !in results ==> r.message == InvalidIdMessage(uid)
    ensures uid in results && results[uid].Error? ==>
              r.message == results[uid].message.GetOr(UnknownErrorMessage)
    ensures uid in results && results[uid].Pending? ==>
              r == WithMessage("PENDING", StillProcessingMessage)
  {
    if uid !in results then WithMessage("ERROR", InvalidIdMessage(uid))
    else
      var entry := results[uid];
      match entry
      case Success(key) => WithUrl("SUCCESS", presign(BucketName, key, PresignTtl))
      case Error(message) => WithMessage("ERROR", message.GetOr(UnknownErrorMessage))
      case Pending => WithMessage(StatusName(entry), StillProcessingMessage)
  }

  /**
   * In a well-formed registry an error is answered with the message the job
   * stored; the default text is never needed.
   */
  lemma ErrorAnswerIsStoredMessage(results: Results, uid: JobId, presign: Presigner)
    requires WellFormed(results)
    requires uid in results && results[uid].Error?
    ensures GetResults(results, uid, presign) == WithMessage("ERROR", results[uid].message.value)
  {
    assert Consistent(uid, results[uid]);
  }
}
