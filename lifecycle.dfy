/**
 * Properties that span several operations: a completed job survives a
 * restart under the same id and key when the listing holds its key, every
 * key before it holds a '/' and no later key names its id
 * (`CompletedJobSurvivesRestart`); background jobs run one after another only
 * touch their own entries; and an id that was never seeded nor submitted is
 * always answered as invalid.
 */
module Lifecycle {
  import opened Wrappers
  import opened ObjectKeys
  import opened Jobs
  import opened Startup
  import opened Inference
  import opened StatusQuery
  import opened Registry

  /** One background job with the outcomes of its external steps. */
  datatype Task = Task(uid: JobId, text: string, reply: PostReply,
                       encoding: Attempt<Bytes>, upload: UploadOutcome)

  /** The state a task leaves its job in. */
  function TaskOutcome(t: Task): JobState
  {
    InferenceOutcome(t.uid, t.reply, t.encoding, t.upload)
  }

  /** The registry after running `tasks` one after another, each to completion. */
  function RunTasks(results: Results, tasks: seq<Task>): (r: Results)
    ensures r.Keys == results.Keys + set j | 0 <= j < |tasks| :: tasks[j].uid
    decreases |tasks|
  {
    if tasks == [] then results
    else
      var r := RunTasks(results[tasks[0].uid := TaskOutcome(tasks[0])], tasks[1..]);
      assert (set j | 0 <= j < |tasks| :: tasks[j].uid)
          == {tasks[0].uid} + set j | 0 <= j < |tasks[1..]| :: tasks[1..][j].uid by {
        forall j | 0 <= j < |tasks| && j > 0 ensures tasks[j].uid == tasks[1..][j - 1].uid {}
        forall j | 0 <= j < |tasks[1..]| ensures tasks[1..][j].uid == tasks[j + 1].uid {}
      }
      r
  }

  /** Running one more task after others updates only that task's job. */
  lemma {:induction false} RunTasksSnoc(results: Results, tasks: seq<Task>, t: Task)
    ensures RunTasks(results, tasks + [t]) == RunTasks(results, tasks)[t.uid := TaskOutcome(t)]
    decreases |tasks|
  {
    if tasks == [] {
      assert tasks + [t] == [t];
      assert [t][1..] == [];
    } else {
      assert (tasks + [t])[0] == tasks[0];
      assert (tasks + [t])[1..] == tasks[1..] + [t];
      RunTasksSnoc(results[tasks[0].uid := TaskOutcome(tasks[0])], tasks[1..], t);
    }
  }

  /**
   * The background jobs of a registry run one after another, each to
   * completion: the registry ends as `RunTasks` of where it started.
   */
  method RunSequentially(registry: JobRegistry, tasks: seq<Task>)
    requires registry.Valid()
    requires forall j | 0 <= j < |tasks| :: Slash !in tasks[j].uid
    modifies registry
    ensures registry.Valid()
    ensures registry.results == RunTasks(old(registry.results), tasks)
  {
    var i := 0;
    while i < |tasks|
      invariant 0 <= i <= |tasks|
      invariant registry.Valid()
      invariant registry.results == RunTasks(old(registry.results), tasks[..i])
    {
      var t := tasks[i];
      var _ := registry.SubmitInference(t.uid, t.text, t.reply, t.encoding, t.upload);
      RunTasksSnoc(old(registry.results), tasks[..i], t);
      assert tasks[..i + 1] == tasks[..i] + [t];
      i := i + 1;
    }
    assert tasks[..i] == tasks;
  }

  /** A job that no task is for keeps its entry, or its absence. */
  lemma {:induction false} RunTasksIsolation(results: Results, tasks: seq<Task>, id: JobId)
    requires forall j | 0 <= j < |tasks| :: tasks[j].uid != id
    ensures id in RunTasks(results, tasks) <==> id in results
    ensures id in results ==> RunTasks(results, tasks)[id] == results[id]
    decreases |tasks|
  {
    if tasks != [] {
      assert tasks[0].uid != id;
      RunTasksIsolation(results[tasks[0].uid := TaskOutcome(tasks[0])], tasks[1..], id);
    }
  }

  /** The last task for a job decides its entry, whatever the other jobs did. */
  lemma {:induction false} RunTasksLastWins(results: Results, tasks: seq<Task>, i: nat)
    requires i < |tasks|
    requires forall j | i < j < |tasks| :: tasks[j].uid != tasks[i].uid
    ensures RunTasks(results, tasks)[tasks[i].uid] == TaskOutcome(tasks[i])
    decreases |tasks|
  {
    var next := results[tasks[0].uid := TaskOutcome(tasks[0])];
    if i == 0 {
      forall j | 0 <= j < |tasks[1..]| ensures tasks[1..][j].uid != tasks[0].uid {
        assert tasks[1..][j] == tasks[j + 1];
      }
      RunTasksIsolation(next, tasks[1..], tasks[0].uid);
    } else {
      forall j | i - 1 < j < |tasks[1..]| ensures tasks[1..][j].uid != tasks[1..][i - 1].uid {
        assert tasks[1..][j] == tasks[j + 1];
      }
      RunTasksLastWins(next, tasks[1..], i - 1);
    }
  }

  /** Running tasks for ids free of '/' keeps the registry well formed. */
  lemma {:induction false} RunTasksWellFormed(results: Results, tasks: seq<Task>)
    requires WellFormed(results)
    requires forall j | 0 <= j < |tasks| :: Slash !in tasks[j].uid
    ensures WellFormed(RunTasks(results, tasks))
    decreases |tasks|
  {
    if tasks != [] {
      var t := tasks[0];
      OutcomeConsistent(t.uid, t.reply, t.encoding, t.upload);
      RunTasksWellFormed(results[t.uid := TaskOutcome(t)], tasks[1..]);
    }
  }

  /** Once its task has run, no job is left pending. */
  lemma {:induction false} NoJobLeftPending(results: Results, tasks: seq<Task>, i: nat)
    requires i < |tasks|
    ensures tasks[i].uid in RunTasks(results, tasks)
    ensures !RunTasks(results, tasks)[tasks[i].uid].Pending?
    decreases |tasks|
  {
    var next := results[tasks[0].uid := TaskOutcome(tasks[0])];
    if i > 0 {
      NoJobLeftPending(next, tasks[1..], i - 1);
      assert tasks[1..][i - 1] == tasks[i];
    } else if j :| 0 < j < |tasks| && tasks[j].uid == tasks[0].uid {
      NoJobLeftPending(next, tasks[1..], j - 1);
      assert tasks[1..][j - 1] == tasks[j];
    } else {
      forall k | 0 <= k < |tasks[1..]| ensures tasks[1..][k].uid != tasks[0].uid {
        assert tasks[1..][k] == tasks[k + 1];
      }
      RunTasksIsolation(next, tasks[1..], tasks[0].uid);
    }
  }

  /**
   * Startup seeds from the listing, then tasks run: an id that startup did
   * not seed and no task is for is answered as invalid. This covers ids named
   * only by keys after one without '/', which the seeding never reaches.
   */
  lemma NeverIssuedIdIsInvalid(listing: Listing, tasks: seq<Task>, id: JobId, presign: Presigner)
    requires id !in Reconciled(map[], listing)
    requires forall j | 0 <= j < |tasks| :: tasks[j].uid != id
    ensures GetResults(RunTasks(Reconciled(map[], listing), tasks), id, presign)
         == WithMessage("ERROR", InvalidIdMessage(id))
  {
    RunTasksIsolation(Reconciled(map[], listing), tasks, id);
  }

  /**
   * A completed job survives a restart: if the store listing after the
   * restart holds its uploaded key, every key listed before it holds a '/'
   * (otherwise seeding stops early), and no later key names the same id, the
   * status query presigns the same bucket, key and lifetime as before the
   * restart.
   */
  lemma CompletedJobSurvivesRestart(before: Results, t: Task, keys: seq<string>, i: nat,
                                    restart: Results, presign: Presigner)
    requires Slash !in t.uid
    requires TaskOutcome(t).Success?
    requires i < |keys| && keys[i] == TaskOutcome(t).result
    requires forall j | 0 <= j < i :: Slash in keys[j]
    requires forall j | i < j < |keys| :: JobIdOf(keys[j]) != Some(t.uid)
    ensures GetResults(Reconciled(restart, Listed(Some(keys))), t.uid, presign)
         == WithUrl("SUCCESS", presign(BucketName, ResultKey(t.uid), PresignTtl))
    ensures GetResults(Reconciled(restart, Listed(Some(keys))), t.uid, presign)
         == GetResults(before[t.uid := TaskOutcome(t)], t.uid, presign)
  {
    JobIdRoundTrip(t.uid);
    SeedLastWins(restart, keys, i);
  }

  /**
   * One job run to completion, then a restart whose store listing holds
   * exactly what the job uploaded. A completed job is answered before and
   * after with a URL presigned for the same bucket, key and lifetime; a
   * failed job's error is not kept and its id becomes invalid.
   */
  method RunThenRestart(t: Task, presign: Presigner) returns (before: Response, after: Response)
    requires Slash !in t.uid
    ensures TaskOutcome(t).Success? ==>
              after == WithUrl("SUCCESS", presign(BucketName, ResultKey(t.uid), PresignTtl))
              && after == before
    ensures !TaskOutcome(t).Success? ==>
              before == WithMessage("ERROR", TaskOutcome(t).message.value)
              && after == WithMessage("ERROR", InvalidIdMessage(t.uid))
  {
    var running := new JobRegistry();
    var calls := running.SubmitInference(t.uid, t.text, t.reply, t.encoding, t.upload);
    before := GetResults(running.results, t.uid, presign);
    var stored := if |calls| == 2 && t.upload == Uploaded then [calls[1].key] else [];
    var restarted := new JobRegistry();
    restarted.Reconcile(Listed(Some(stored)));
    after := GetResults(restarted.results, t.uid, presign);
    if TaskOutcome(t).Success? {
      CompletedJobSurvivesRestart(map[], t, stored, 0, map[], presign);
    }
  }
}
