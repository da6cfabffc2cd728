/**
 * The process-wide registry `results_map` and the two pieces of code that
 * write it: the startup loop that seeds it from the store listing, and the
 * background job `submit_inference`. Both update the dictionary step by step.
 */
module Registry {
  import opened Wrappers
  import opened ObjectKeys
  import opened Jobs
  import opened Startup
  import opened Inference

  class JobRegistry {
    /** Job id to job state; the only state the server keeps. */
    var results: Results

    ghost predicate Valid()
      reads this
    {
      WellFormed(results)
    }

    /** The registry starts empty. */
    constructor ()
      ensures Valid() && results == map[]
    {
      results := map[];
    }

    /**
     * The startup block: for each listed key in order, seed
     * `results[key.split("/")[1]] = SUCCESS(key)`. A failed listing, a
     * response without contents, or a key with no '/' ends the block; the
     * exception is swallowed and what was seeded stays.
     */
    method Reconcile(listing: Listing)
      requires Valid()
      modifies this
      ensures Valid()
      ensures results == Reconciled(old(results), listing)
    {
      if listing.Listed? && listing.contents.Some? {
        var keys := listing.contents.value;
        var i := 0;
        var raised := false;
        while i < |keys| && !raised
          invariant 0 <= i <= |keys|
          invariant forall j | 0 <= j < i :: Slash in keys[j]
          invariant raised ==> i < |keys| && Slash !in keys[i]
          invariant results == Seed(old(results), keys[..i])
          invariant WellFormed(results)
          decreases |keys| - i, !raised
        {
          var jobId := JobIdOf(keys[i]);
          if jobId.None? {
            raised := true;
          } else {
            SeedStep(old(results), keys, i);
            assert Consistent(jobId.value, Success(keys[i]));
            results := results[jobId.value := Success(keys[i])];
            i := i + 1;
          }
        }
        if raised {
          SeedStops(old(results), keys, i);
        } else {
          assert keys[..i] == keys;
        }
      }
    }

    /**
     * One background job: mark the job pending, post the prompt, and end in
     * `SUCCESS` with the uploaded key or in `ERROR` with the text of whatever
     * was raised. Returns the external calls made, in order.
     */
    method SubmitInference(uid: JobId, text: string, reply: PostReply,
                           encoding: Attempt<Bytes>, upload: UploadOutcome)
      returns (calls: seq<ExternalCall>)
      requires Valid()
      requires Slash !in uid
      modifies this
      ensures Valid()
      ensures results == old(results)[uid := InferenceOutcome(uid, reply, encoding, upload)]
      ensures calls == CallsMade(uid, text, reply, encoding)
    {
      results := results[uid := Pending];
      calls := [PostPrediction(PredictionsUrl, text)];
      match reply {
        case PostFailed(message) =>
          results := results[uid := Error(Some(message))];
        case Replied(statusCode, body) =>
          if statusCode != HttpOk {
            results := results[uid := Error(Some(TorchserveErrorPrefix + body))];
          } else {
            match encoding {
              case Failed(message) =>
                results := results[uid := Error(Some(message))];
              case Ok(bytes) =>
                var filename := ResultKey(uid);
                calls := calls + [UploadObject(BucketName, filename, bytes)];
                match upload {
                  case UploadFailed(message) =>
                    results := results[uid := Error(Some(message))];
                  case Uploaded =>
                    results := results[uid := Success(filename)];
                }
            }
          }
      }
      OutcomeConsistent(uid, reply, encoding, upload);
    }
  }
}
