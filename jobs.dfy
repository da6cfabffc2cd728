/**
 * The entries of the in-memory job registry and the outcomes of the external
 * calls a job depends on.
 *
 * The server keeps one dictionary per job: `{"status": "PENDING"}`,
 * `{"status": "SUCCESS", "result": <key>}` or `{"status": "ERROR", "message": <text>}`.
 * The three shapes become the three constructors of `JobState`; the error
 * message is optional because the status query falls back to a default when
 * the dictionary has no "message".
 */
module Jobs {
  import opened Wrappers
  import opened ObjectKeys

  type Bytes = seq<bv8>

  /** Identifier of a job as stored in the registry. */
  type JobId = string

  datatype JobState =
    | Pending
    | Success(result: string)
    | Error(message: Option<string>)

  /** The registry: job id to job state. */
  type Results = map<JobId, JobState>

  /** The value of the entry's "status" field. */
  function StatusName(s: JobState): (name: string)
    ensures name == "PENDING" <==> s.Pending?
    ensures name == "SUCCESS" <==> s.Success?
    ensures name == "ERROR" <==> s.Error?
  {
    match s
    case Pending => "PENDING"
    case Success(_) => "SUCCESS"
    case Error(_) => "ERROR"
  }

  /** What the POST to the prediction service gave: a reply, or a raised exception's text. */
  datatype PostReply =
    | Replied(statusCode: int, text: string)
    | PostFailed(message: string)

  /** An external step that yields a value or raises an exception with a message. */
  datatype Attempt<+T> = Ok(value: T) | Failed(message: string)

  /** Result of the object-store upload. */
  datatype UploadOutcome = Uploaded | UploadFailed(message: string)

  /**
   * Result of listing the store at startup: the call raised, or it answered
   * with a response that may lack a "Contents" entry.
   */
  datatype Listing =
    | ListFailed(message: string)
    | Listed(contents: Option<seq<string>>)

  /** The external calls a background job makes, in order. */
  datatype ExternalCall =
    | PostPrediction(url: string, body: string)
    | UploadObject(bucket: string, key: string, data: Bytes)

  /**
   * An entry is consistent with the id it is stored under: a result key names
   * that id when re-parsed, and an error always carries its message.
   */
  predicate Consistent(id: JobId, s: JobState)
  {
    match s
    case Pending => true
    case Success(key) => JobIdOf(key) == Some(id)
    case Error(message) => message.Some?
  }

  /** The invariant every reachable registry satisfies. */
  predicate WellFormed(results: Results)
  {
    forall id | id in results :: Consistent(id, results[id])
  }
}
