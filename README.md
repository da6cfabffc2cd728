# Text-to-image job registry: a Dafny model

This project models the job-tracking core of a small text-to-image service.
The service takes a prompt, returns a job id at once, and runs the job in the
background. The job posts the prompt to a TorchServe prediction endpoint,
encodes the returned pixels as JPEG, uploads them to an S3 bucket, and records
the outcome in an in-memory registry (`results_map`). Clients poll
`GET /results/{uid}`. A completed job is answered with a presigned URL that is
valid for 36 hours. At startup the registry is rebuilt from a listing of the
bucket, so completed jobs stay queryable across restarts.

Modules, one per concern of `server.py`:

- `ObjectKeys` (keys.dfy): the bucket, prefix and file-name constants. It also
  holds Python's `str.split` and `str.join` on one separator, the result key
  `sd3-outputs/<uid>/result.jpeg`, and the job id read back as
  `key.split("/")[1]`.
- `Jobs` (jobs.dfy): the three entry shapes (`Pending`, `Success(result)`,
  `Error(message)`) and the outcome types of the external calls. It also defines
  the registry invariant `WellFormed`: a stored key re-parses to the id it is
  stored under, and an error always carries a message.
- `Startup` (startup.dfy): the startup seeding as the function `Seed` /
  `Reconciled`, with lemmas on order, overwriting, stopping and isolation.
- `Inference` (inference.dfy): the end state of one background job and the
  external calls it makes, as functions of the external outcomes.
- `StatusQuery` (status_query.dfy): the read-only status query.
- `Registry` (registry.dfy): the class `JobRegistry`, whose field `results` is
  `results_map`. Its methods `Reconcile` (the startup loop) and
  `SubmitInference` (the background job) update the field step by step. Each is
  proved against the functions above and keeps `WellFormed`.
- `Lifecycle` (lifecycle.dfy): properties across operations. Jobs run one after
  another touch only their own entries. A job id never seeded or submitted is
  answered as invalid. After a restart, a completed job is answered with a URL
  presigned for the same bucket, key and 129600-second lifetime, provided the
  listing holds its key, every key listed before it holds a `/`, and no key
  listed after it names the same id.

The code differs in places from a more idealised description of the service.
The model follows the code:

- The result key ends in `/result.jpeg`.
- The `PENDING` entry is written by the background job itself, not by the
  `POST /text-to-image` handler.
- `submit_inference` overwrites any existing entry for its id. There is no
  duplicate check and no guard on transitions.
- Startup seeding overwrites an earlier entry when two keys name the same id.
- Seeding stops at the first key without a `/`, because `split("/")[1]` raises
  and the exception ends the whole block.
- Failed jobs are not kept across a restart. `Lifecycle.RunThenRestart` shows
  that their id becomes invalid.

## Model

| member | source | states |
|---|---|---|
| ObjectKeys.Split | server.py:48 | every part is free of the separator, there is at least one part, and there is exactly one part iff the text holds no separator |
| ObjectKeys.JoinSplit | server.py:48 | joining the parts of a split with the separator gives back the original key |
| ObjectKeys.SplitWhole | server.py:48 | a text without the separator splits into itself alone |
| ObjectKeys.SplitAfterPart | server.py:48 | a separator-free part followed by the separator splits off as the first part |
| ObjectKeys.SplitJoin | server.py:48 | splitting the join of separator-free parts gives the parts back |
| ObjectKeys.ResultKey | server.py:72 | the upload key is the `/`-join of `sd3-outputs`, the job id and `result.jpeg` |
| ObjectKeys.JobIdOf | server.py:48 | an id is read iff the key holds a `/`, and the id read holds no `/` |
| ObjectKeys.ResultKeyParts | server.py:72 | for an id without `/`, the result key splits into exactly prefix, id and file name |
| ObjectKeys.JobIdRoundTrip | server.py:48-72 | re-parsing the key written for a job at line 72 gives that job's id at line 48 |
| ObjectKeys.ResultKeyInjective | server.py:72 | distinct job ids get distinct result keys |
| Jobs.StatusName | server.py:122 | the stored status string is `PENDING`, `SUCCESS` or `ERROR` exactly for the matching entry shape |
| Startup.Seed | server.py:44-51 | seeding never removes an entry, and only adds ids named by listed keys |
| Startup.Reconciled | server.py:44-51 | a failed listing or a reply without contents leaves the registry as it was; otherwise no id is removed, only ids named by listed keys are added or overwritten, and every other entry keeps its value |
| Startup.SeedAppend | server.py:47-49 | seeding from keys that all parse, then from more keys, is seeding from the concatenation |
| Startup.SeedStep | server.py:47-49 | each parsable key writes `SUCCESS(key)` under its id on top of the earlier keys' entries |
| Startup.SeedStops | server.py:48-51 | a key without `/` raises, ends the loop and keeps exactly what was seeded before it |
| Startup.SeedUntouched | server.py:47-49 | an id no listed key names keeps its entry, or its absence |
| Startup.SeedLastWins | server.py:47-49 | when every key up to and including a given key holds a `/` and no later key names the same id, that key is the entry the id ends with, so a later key overwrites an earlier one |
| Startup.SeedWellFormed | server.py:48-49 | every seeded key re-parses to the id it is stored under |
| Inference.InferenceOutcome | server.py:53-83 | the job never ends `PENDING`. It ends `SUCCESS` iff the reply is 200, encoding worked and the upload worked; then the result is the job's result key. A non-200 reply gives the error `Torchserve error: ` + reply text; a raised POST, a failed decoding or encoding, or a failed upload gives that exception's own message |
| Inference.CallsMade | server.py:58-73 | the prompt is always posted to the prediction URL. The upload is made only after a 200 reply that encoded, with the encoded bytes, to the bucket under the job's result key |
| Inference.StoredKeyIsUploadedKey | server.py:72-79 | on success the stored result is the key the bytes were uploaded under |
| Inference.OutcomeConsistent | server.py:72-83 | a finished job's entry re-parses to its own id and its error has a message |
| StatusQuery.GetResults | server.py:96-124 | a URL is answered iff the entry is `SUCCESS`: status `SUCCESS`, presigned for the stored key for 129600 seconds. Status is `ERROR` iff the id is unknown or the entry is an error. An unknown id gets `job-id=<uid> is invalid`, an error gets its message or `Unknown error occurred`, a pending job gets `PENDING` with `Job is still processing` |
| Wrappers.Option.GetOr | server.py:118 | a present message is returned as it is, and the default only when there is none |
| StatusQuery.ErrorAnswerIsStoredMessage | server.py:115-119 | in a well-formed registry an error is answered with the stored message; the default is never used |
| Registry.JobRegistry.constructor | server.py:41 | the registry starts empty |
| Registry.JobRegistry.Reconcile | server.py:44-51 | the loop leaves the registry equal to `Reconciled` of the old registry and the listing, and keeps it well formed |
| Registry.JobRegistry.SubmitInference | server.py:53-83 | only the job's own entry changes, and it becomes `InferenceOutcome`. The calls made are `CallsMade`, and the registry stays well formed |
| Lifecycle.RunTasks | server.py:53-83 | after jobs run one after another, the registry holds exactly the old ids plus the jobs' ids |
| Lifecycle.RunTasksSnoc | server.py:55-83 | running one more job after others changes only that job's entry, to its outcome |
| Lifecycle.RunSequentially | server.py:53-83 | calling the background job for each task in turn leaves the registry equal to `RunTasks` of where it started, and well formed |
| Lifecycle.RunTasksIsolation | server.py:55-83 | a job with no task keeps its entry, or its absence |
| Lifecycle.RunTasksLastWins | server.py:55-83 | the last task for an id decides its entry, whatever other jobs do |
| Lifecycle.RunTasksWellFormed | server.py:72-83 | running jobs with ids free of `/` keeps the registry well formed |
| Lifecycle.NoJobLeftPending | server.py:81-83 | once its task has run, no job is left `PENDING` |
| Lifecycle.NeverIssuedIdIsInvalid | server.py:97-100 | after startup and any jobs, an id that startup did not seed and no job is for is answered as invalid, including ids named only after a key without `/` |
| Lifecycle.CompletedJobSurvivesRestart | server.py:44-79 | if the listing after a restart holds a completed job's key, every key listed before it holds a `/`, and no later key names its id, the query answers `SUCCESS` with a URL presigned for the same bucket, key and 129600-second lifetime as before the restart |
| Lifecycle.RunThenRestart | server.py:44-124 | a completed job is answered before and after a restart with a URL presigned for the same bucket, result key and 129600-second lifetime; a failed job is answered before the restart with its stored error message, and its id is invalid after it |

## Left out

- S3 client construction, `list_objects`, `upload_fileobj` and `generate_presigned_url` (server.py:29-36, 45, 73, 106-110) are external store calls. They appear only as a listing outcome, an upload outcome and a presigning function of bucket, key and lifetime. A presign that raises (an HTTP 500 from the query) is not modelled.
- StatusQuery.GetResults: the presigning function takes only bucket, key and lifetime. The signing time and the credentials that `generate_presigned_url` uses are not inputs, so two queries for the same key get equal URLs in the model, while the real service signs a different URL on each query. The restart lemmas therefore promise the same bucket, key and lifetime, not the same URL text.
- The listing holds the keys the store returned. Its limit of 1000 keys per call and its prefix-string matching belong to the store and are not modelled.
- The POST to TorchServe and the numpy/PIL decoding and JPEG encoding (server.py:58, 64-69) are a network call and image libraries. They appear as a reply (status code and text, or a raised message) and an encoding outcome (bytes or a raised message).
- FastAPI setup, CORS, routing, `BackgroundTasks`, `uvicorn.run` and the `POST /text-to-image` handler (server.py:15-26, 85-94, 147-149) are framework plumbing. The handler writes nothing to the registry. Background jobs are modelled as sequential calls, so the `PENDING` entry a concurrent query can see while a job runs is not observable in the model. Neither is a query answered "invalid" before the job's first write.
- Registry.JobRegistry.SubmitInference requires a job id without `/`. It stands for the `uuid4` string (server.py:89). Randomness and uniqueness of ids are not modelled.
- `health` and `root` (server.py:126-145) are a thin store probe and a constant reply. The debug `print` calls are logging.
- The frontend proxy routes, the page layout and the endpoint test script are not part of this model.
