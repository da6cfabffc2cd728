/**
 * What one background job (`submit_inference`) does, as functions of the
 * outcomes of its external steps: the POST to the prediction service, the
 * decoding of its reply into an image and JPEG encoding, and the upload.
 * Every exception raised on the way is caught and stored as the job's error.
 */
module Inference {
  import opened Wrappers
  import opened ObjectKeys
  import opened Jobs

  /** The prediction endpoint the prompt is posted to. */
  const PredictionsUrl: string := "http://localhost:8080/predictions/sd3"
  /** The only status code accepted from the prediction service. */
  const HttpOk: int := 200
  /** Prefix of the error raised for any other status code. */
  const TorchserveErrorPrefix: string := "Torchserve error: "

  /**
   * The state the job ends in, given the POST reply, the outcome of turning
   * the reply's text into JPEG bytes, and the outcome of the upload.
   */
  function InferenceOutcome(uid: JobId, reply: PostReply, encoding: Attempt<Bytes>,
                            upload: UploadOutcome): (s: JobState)
    ensures !s.Pending?
    ensures s.Success? <==>
              reply.Replied? && reply.statusCode == HttpOk && encoding.Ok? && upload == Uploaded
    ensures s.Success? ==> s.result == ResultKey(uid)
    ensures s.Error? ==> s.message.Some?
    ensures reply.PostFailed? ==> s == Error(Some(reply.message))
    ensures reply.Replied? && reply.statusCode != HttpOk ==>
              s == Error(Some(TorchserveErrorPrefix + reply.text))
    ensures reply.Replied? && reply.statusCode == HttpOk && encoding.Failed? ==>
              s == Error(Some(encoding.message))
    ensures reply.Replied? && reply.statusCode == HttpOk && encoding.Ok? && upload.UploadFailed? ==>
              s == Error(Some(upload.message))
  {
    match reply
    case PostFailed(message) => Error(Some(message))
    case Replied(statusCode, text) =>
      if statusCode != HttpOk then Error(Some(TorchserveErrorPrefix + text))
      else
        match encoding
        case Failed(message) => Error(Some(message))
        case Ok(_) =>
          match upload
          case UploadFailed(message) => Error(Some(message))
          case Uploaded => Success(ResultKey(uid))
  }

  /**
   * The external calls the job makes, in order: always the POST of the prompt;
   * then, only after a 200 reply whose text was encoded, the upload of those
   * bytes under the job's result key.
   */
  function CallsMade(uid: JobId, text: string, reply: PostReply,
                     encoding: Attempt<Bytes>): (calls: seq<ExternalCall>)
    ensures 1 <= |calls| <= 2
    ensures calls[0] == PostPrediction(PredictionsUrl, text)
    ensures |calls| == 2 <==> reply.Replied? && reply.statusCode == HttpOk && encoding.Ok?
    ensures |calls| == 2 ==> calls[1] == UploadObject(BucketName, ResultKey(uid), encoding.value)
  {
    var post := PostPrediction(PredictionsUrl, text);
    if reply.Replied? && reply.statusCode == HttpOk && encoding.Ok? then
      [post, UploadObject(BucketName, ResultKey(uid), encoding.value)]
    else [post]
  }

  /** On success the stored result is exactly the key the bytes were uploaded under. */
  lemma StoredKeyIsUploadedKey(uid: JobId, text: string, reply: PostReply,
                               encoding: Attempt<Bytes>, upload: UploadOutcome)
    requires InferenceOutcome(uid, reply, encoding, upload).Success?
    ensures |CallsMade(uid, text, reply, encoding)| == 2
    ensures CallsMade(uid, text, reply, encoding)[1].key
         == InferenceOutcome(uid, reply, encoding, upload).result
  {
  }

  /** A finished job's entry is consistent with its id, so the registry stays well formed. */
  lemma OutcomeConsistent(uid: JobId, reply: PostReply, encoding: Attempt<Bytes>,
                          upload: UploadOutcome)
    requires Slash !in uid
    ensures Consistent(uid, InferenceOutcome(uid, reply, encoding, upload))
  {
    if InferenceOutcome(uid, reply, encoding, upload).Success? {
      JobIdRoundTrip(uid);
    }
  }
}
