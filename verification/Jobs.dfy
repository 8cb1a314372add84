/** Maintenance jobs: an immutable population of tasks, and a status that follows from them. */
module Jobs {
  import opened Wrappers
  import opened Orders
  import opened Text
  import opened Facts
  import opened Cycles

  datatype Job = Job(key: string, kind: string, requestedAt: Time, scope: string, completedAt: Option<Time>,
                     total: nat, completed: nat, requests: nat)
  {
    predicate Active() { completedAt.None? }
  }

  datatype JobTask = JobTask(job: nat, draft: TaskDraft, completedAt: Option<Time>, outcome: Option<Outcome>,
                             attempts: nat, attemptFrom: Option<Time>, attemptUntil: Option<Time>,
                             lastError: Option<string>)

  /** Ids are positions plus one. */
  datatype JobTables = JobTables(jobs: seq<Job>, tasks: seq<JobTask>)

  const NO_JOBS := JobTables([], [])

  predicate IsActiveJob(tables: JobTables, id: nat) {
    1 <= id <= |tables.jobs| && tables.jobs[id - 1].Active()
  }

  // ---- Counting ----

  function CountTasks(tasks: seq<JobTask>, job: nat): nat {
    if tasks == [] then 0
    else CountTasks(tasks[..|tasks| - 1], job) + (if tasks[|tasks| - 1].job == job then 1 else 0)
  }

  function CountDone(tasks: seq<JobTask>, job: nat): (n: nat)
    ensures n <= CountTasks(tasks, job)
  {
    if tasks == [] then 0
    else
      CountDone(tasks[..|tasks| - 1], job)
        + (if tasks[|tasks| - 1].job == job && tasks[|tasks| - 1].completedAt.Some? then 1 else 0)
  }

  ghost predicate AllDone(tasks: seq<JobTask>, job: nat) {
    forall t :: 0 <= t < |tasks| && tasks[t].job == job ==> tasks[t].completedAt.Some?
  }

  /** All tasks of a job are done exactly when the counts agree. */
  lemma {:induction false} DoneIsCounted(tasks: seq<JobTask>, job: nat)
    ensures CountDone(tasks, job) == CountTasks(tasks, job) <==> AllDone(tasks, job)
  {
    if tasks != [] {
      var init, last := tasks[..|tasks| - 1], tasks[|tasks| - 1];
      DoneIsCounted(init, job);
      if AllDone(tasks, job) {
        assert forall t :: 0 <= t < |init| ==> init[t] == tasks[t];
      }
      if AllDone(init, job) && (last.job != job || last.completedAt.Some?) {
        assert forall t :: 0 <= t < |tasks| - 1 ==> tasks[t] == init[t];
      }
    }
  }

  lemma {:induction false} CountsOfConcat(tasks: seq<JobTask>, more: seq<JobTask>, job: nat)
    ensures CountTasks(tasks + more, job) == CountTasks(tasks, job) + CountTasks(more, job)
    ensures CountDone(tasks + more, job) == CountDone(tasks, job) + CountDone(more, job)
  {
    if more == [] {
      assert tasks + more == tasks;
    } else {
      CountsOfConcat(tasks, more[..|more| - 1], job);
      assert (tasks + more)[..|tasks + more| - 1] == tasks + more[..|more| - 1];
    }
  }

  /** Completing one pending task of a job adds one to its count and leaves the others alone. */
  lemma {:induction false} CountsOfUpdate(tasks: seq<JobTask>, t: nat, task: JobTask, job: nat)
    requires t < |tasks| && task.job == tasks[t].job
    ensures CountTasks(tasks[t := task], job) == CountTasks(tasks, job)
    ensures task.completedAt.Some? == tasks[t].completedAt.Some? || task.job != job ==>
      CountDone(tasks[t := task], job) == CountDone(tasks, job)
    ensures task.completedAt.Some? && tasks[t].completedAt.None? && task.job == job ==>
      CountDone(tasks[t := task], job) == CountDone(tasks, job) + 1
    decreases |tasks|
  {
    var n := |tasks| - 1;
    if t < n {
      CountsOfUpdate(tasks[..n], t, task, job);
      assert tasks[t := task][..n] == tasks[..n][t := task];
    } else {
      assert tasks[t := task][..n] == tasks[..n];
    }
  }

  /** Tasks only ever become complete. */
  ghost predicate Progresses(tasks: seq<JobTask>, more: seq<JobTask>) {
    |tasks| == |more| && forall t :: 0 <= t < |tasks| ==>
      && tasks[t].job == more[t].job && tasks[t].draft == more[t].draft
      && (tasks[t].completedAt.Some? ==> more[t].completedAt.Some?)
  }

  /** The task at `t` is one that became complete. */
  ghost predicate Completes(tasks: seq<JobTask>, more: seq<JobTask>, job: nat, t: nat) {
    t < |tasks| == |more| && tasks[t].job == job && tasks[t].completedAt.None? && more[t].completedAt.Some?
  }

  lemma {:induction false} ProgressIsCounted(tasks: seq<JobTask>, more: seq<JobTask>, job: nat)
    requires Progresses(tasks, more)
    ensures CountTasks(tasks, job) == CountTasks(more, job) && CountDone(tasks, job) <= CountDone(more, job)
    ensures (exists t :: Completes(tasks, more, job, t)) ==> CountDone(tasks, job) < CountDone(more, job)
  {
    if tasks != [] {
      var n := |tasks| - 1;
      ProgressIsCounted(tasks[..n], more[..n], job);
      if t: nat :| Completes(tasks, more, job, t) && t < n {
        assert Completes(tasks[..n], more[..n], job, t);
      }
    }
  }

  // ---- Invariants ----

  ghost predicate JobHolds(tables: JobTables, id: nat)
    requires 1 <= id <= |tables.jobs|
  {
    var job := tables.jobs[id - 1];
    && job.total == CountTasks(tables.tasks, id) && job.completed == CountDone(tables.tasks, id)
    && (job.completedAt.Some? <==> job.completed == job.total)
  }

  ghost predicate JobsValid(tables: JobTables) {
    && (forall i, j :: 0 <= i < j < |tables.jobs| ==> !(tables.jobs[i].Active() && tables.jobs[j].Active()))
    && (forall i, j :: 0 <= i < j < |tables.jobs| ==> tables.jobs[i].key != tables.jobs[j].key)
    && (forall id :: 1 <= id <= |tables.jobs| ==> JobHolds(tables, id))
    && (forall t :: 0 <= t < |tables.tasks| ==>
         && 1 <= tables.tasks[t].job <= |tables.jobs|
         && tables.tasks[t].completedAt.Some? == tables.tasks[t].outcome.Some?)
    && (forall s, t :: 0 <= s < t < |tables.tasks| ==>
         tables.tasks[s].job != tables.tasks[t].job || tables.tasks[s].draft.key != tables.tasks[t].draft.key)
  }

  /** Main result about jobs: the status is complete exactly when every task is. */
  lemma StatusFollowsTasks(tables: JobTables, id: nat)
    requires JobsValid(tables) && 1 <= id <= |tables.jobs|
    ensures !tables.jobs[id - 1].Active() <==> AllDone(tables.tasks, id)
  {
    assert JobHolds(tables, id);
    DoneIsCounted(tables.tasks, id);
  }

  lemma NoJobsAreValid()
    ensures JobsValid(NO_JOBS)
  {
  }

  // ---- Starting a job ----

  ghost predicate DistinctKeys(drafts: seq<TaskDraft>) {
    forall i, j :: 0 <= i < j < |drafts| ==> drafts[i].key != drafts[j].key
  }

  /** The drafts under their keys. */
  ghost predicate KeyedBy(drafts: seq<TaskDraft>, byKey: map<string, TaskDraft>) {
    && |byKey| == |drafts|
    && (forall key :: key in byKey ==> byKey[key].key == key && byKey[key] in drafts)
    && (forall i :: 0 <= i < |drafts| ==> drafts[i].key in byKey && byKey[drafts[i].key] == drafts[i])
  }

  lemma KeyedOneMore(drafts: seq<TaskDraft>, byKey: map<string, TaskDraft>, draft: TaskDraft)
    requires DistinctKeys(drafts) && KeyedBy(drafts, byKey)
    ensures draft.key !in byKey ==>
      DistinctKeys(drafts + [draft]) && KeyedBy(drafts + [draft], byKey[draft.key := draft])
    ensures draft.key in byKey ==> !DistinctKeys(drafts + [draft])
  {
    var more := drafts + [draft];
    if draft.key in byKey {
      var i :| 0 <= i < |drafts| && drafts[i] == byKey[draft.key];
      assert more[i].key == more[|drafts|].key;
    } else {
      NewKey(drafts, byKey, draft);
      OneMoreKey(byKey, draft);
      forall i | 0 <= i < |more| ensures more[i] == if i < |drafts| then drafts[i] else draft {
      }
    }
  }

  lemma NewKey(drafts: seq<TaskDraft>, byKey: map<string, TaskDraft>, draft: TaskDraft)
    requires KeyedBy(drafts, byKey) && draft.key !in byKey
    ensures forall i :: 0 <= i < |drafts| ==> drafts[i].key in byKey && drafts[i].key != draft.key
  {
  }

  lemma OneMoreKey(byKey: map<string, TaskDraft>, draft: TaskDraft)
    requires draft.key !in byKey
    ensures |byKey[draft.key := draft]| == |byKey| + 1
  {
  }

  lemma RepeatStays(drafts: seq<TaskDraft>, n: nat)
    requires n <= |drafts| && !DistinctKeys(drafts[..n])
    ensures !DistinctKeys(drafts)
  {
  }

  method KeyDrafts(drafts: seq<TaskDraft>) returns (r: Option<map<string, TaskDraft>>)
    ensures r.Some? <==> DistinctKeys(drafts)
    ensures r.Some? ==> KeyedBy(drafts, r.value)
  {
    var byKey: map<string, TaskDraft> := map[];
    assert KeyedBy([], byKey) && DistinctKeys([]);
    hide DistinctKeys, KeyedBy;
    for i := 0 to |drafts|
      invariant DistinctKeys(drafts[..i]) && KeyedBy(drafts[..i], byKey)
    {
      var draft := drafts[i];
      assert drafts[..i + 1] == drafts[..i] + [draft];
      KeyedOneMore(drafts[..i], byKey, draft);
      if draft.key in byKey {
        RepeatStays(drafts, i + 1);
        return None;
      }
      byKey := byKey[draft.key := draft];
    }
    assert drafts[..|drafts|] == drafts;
    r := Some(byKey);
  }

  ghost predicate AscendingKeys(drafts: seq<TaskDraft>) {
    forall i, j :: 0 <= i < j < |drafts| ==> Less(CodePoints(drafts[i].key), CodePoints(drafts[j].key))
  }

  /** sorted(tasks, key=task_key); None when two tasks share a key. */
  method SortDrafts(drafts: seq<TaskDraft>) returns (r: Option<seq<TaskDraft>>)
    ensures r.Some? <==> DistinctKeys(drafts)
    ensures r.Some? ==>
      && DistinctKeys(r.value) && AscendingKeys(r.value) && |r.value| == |drafts|
      && forall draft :: draft in r.value <==> draft in drafts
  {
    hide *;
    var byKey := KeyDrafts(drafts);
    if byKey.None? {
      return None;
    }
    CodePointsInjective();
    var keys := Sort(byKey.value.Keys, CodePoints);
    KeysAreListed(byKey.value, keys);
    var sorted := seq(|keys|, i requires 0 <= i < |keys| => byKey.value[keys[i]]);
    SortedDrafts(drafts, byKey.value, keys, sorted);
    r := Some(sorted);
  }

  lemma KeysAreListed(byKey: map<string, TaskDraft>, keys: seq<string>)
    requires Injective(CodePoints) && keys == Sorted(byKey.Keys, CodePoints)
    ensures |keys| == |byKey.Keys| && forall key :: key in keys <==> key in byKey
    ensures forall i :: 0 <= i < |keys| ==> keys[i] in byKey
    ensures forall i, j :: 0 <= i < j < |keys| ==>
      keys[i] != keys[j] && Less(CodePoints(keys[i]), CodePoints(keys[j]))
  {
    hide Less, CodePoints, Injective;
    SortedHasNoDuplicates(byKey.Keys, CodePoints);
    forall i | 0 <= i < |keys| ensures keys[i] in byKey {
      assert keys[i] in keys;
    }
  }

  lemma SortedDrafts(drafts: seq<TaskDraft>, byKey: map<string, TaskDraft>, keys: seq<string>, sorted: seq<TaskDraft>)
    requires KeyedBy(drafts, byKey) && |keys| == |byKey.Keys| && (forall key :: key in keys <==> key in byKey)
    requires forall i, j :: 0 <= i < j < |keys| ==>
      keys[i] != keys[j] && Less(CodePoints(keys[i]), CodePoints(keys[j]))
    requires |sorted| == |keys| && forall i :: 0 <= i < |keys| ==> keys[i] in byKey && sorted[i] == byKey[keys[i]]
    ensures DistinctKeys(sorted) && AscendingKeys(sorted) && |sorted| == |drafts|
    ensures forall draft :: draft in sorted <==> draft in drafts
  {
  }

  function NewTasks(job: nat, drafts: seq<TaskDraft>): (tasks: seq<JobTask>)
    ensures |tasks| == |drafts|
    ensures forall i :: 0 <= i < |tasks| ==> tasks[i] == JobTask(job, drafts[i], None, None, 0, None, None, None)
  {
    seq(|drafts|, i requires 0 <= i < |drafts| => JobTask(job, drafts[i], None, None, 0, None, None, None))
  }

  lemma {:induction false} CountNewTasks(tasks: seq<JobTask>, job: nat, other: nat)
    requires forall t :: 0 <= t < |tasks| ==> tasks[t].job == job && tasks[t].completedAt.None?
    ensures CountTasks(tasks, other) == (if other == job then |tasks| else 0)
    ensures CountDone(tasks, other) == 0
  {
    if tasks != [] {
      CountNewTasks(tasks[..|tasks| - 1], job, other);
    }
  }

  lemma {:induction false} NoTasksYet(tasks: seq<JobTask>, job: nat)
    requires forall t :: 0 <= t < |tasks| ==> tasks[t].job < job
    ensures CountTasks(tasks, job) == 0 && CountDone(tasks, job) == 0
  {
    if tasks != [] {
      NoTasksYet(tasks[..|tasks| - 1], job);
    }
  }

  function NewJob(key: string, kind: string, requestedAt: Time, scope: string, drafts: seq<TaskDraft>): Job {
    Job(key, kind, requestedAt, scope, if drafts == [] then Some(requestedAt) else None, |drafts|, 0, 0)
  }

  lemma StartKeeps(tables: JobTables, key: string, kind: string, requestedAt: Time, scope: string, drafts: seq<TaskDraft>)
    requires JobsValid(tables) && DistinctKeys(drafts)
    requires forall i :: 0 <= i < |tables.jobs| ==> !tables.jobs[i].Active() && tables.jobs[i].key != key
    ensures JobsValid(JobTables(tables.jobs + [NewJob(key, kind, requestedAt, scope, drafts)],
      tables.tasks + NewTasks(|tables.jobs| + 1, drafts)))
  {
    hide CountTasks, CountDone;
    var n := |tables.jobs| + 1;
    var fresh' := NewTasks(n, drafts);
    var after := JobTables(tables.jobs + [NewJob(key, kind, requestedAt, scope, drafts)], tables.tasks + fresh');
    forall id | 1 <= id <= n ensures JobHolds(after, id) {
      CountsOfConcat(tables.tasks, fresh', id);
      CountNewTasks(fresh', n, id);
      if id == n {
        NoTasksYet(tables.tasks, n);
      } else {
        assert JobHolds(tables, id);
      }
    }
  }

  // ---- Claiming and completing tasks ----

  /** A task changed without being completed. */
  lemma AttemptKeeps(tables: JobTables, t: nat, task: JobTask)
    requires JobsValid(tables) && t < |tables.tasks|
    requires task.job == tables.tasks[t].job && task.draft == tables.tasks[t].draft
    requires task.completedAt == tables.tasks[t].completedAt && task.outcome == tables.tasks[t].outcome
    ensures JobsValid(tables.(tasks := tables.tasks[t := task]))
  {
    hide CountTasks, CountDone;
    var after := tables.(tasks := tables.tasks[t := task]);
    forall id | 1 <= id <= |tables.jobs| ensures JobHolds(after, id) {
      CountsOfUpdate(tables.tasks, t, task, id);
      assert JobHolds(tables, id);
    }
  }

  /** _advance_maintenance_job */
  function AdvanceJob(tables: JobTables, id: nat, at: Time): JobTables
    requires IsActiveJob(tables, id)
  {
    var total, completed := CountTasks(tables.tasks, id), CountDone(tables.tasks, id);
    var job := tables.jobs[id - 1].(completed := completed, completedAt := if completed == total then Some(at) else None);
    tables.(jobs := tables.jobs[id - 1 := job])
  }

  /** Completing a pending task and advancing its job keeps every count and every status right. */
  lemma CompleteKeeps(tables: JobTables, t: nat, task: JobTask, at: Time)
    requires JobsValid(tables) && t < |tables.tasks| && tables.tasks[t].completedAt.None?
    requires task.job == tables.tasks[t].job && task.draft == tables.tasks[t].draft
    requires task.completedAt.Some? && task.outcome.Some? && IsActiveJob(tables, task.job)
    ensures JobsValid(AdvanceJob(tables.(tasks := tables.tasks[t := task]), task.job, at))
  {
    hide CountTasks, CountDone;
    var updated := tables.(tasks := tables.tasks[t := task]);
    var after := AdvanceJob(updated, task.job, at);
    forall id | 1 <= id <= |tables.jobs| ensures JobHolds(after, id) {
      CountsOfUpdate(tables.tasks, t, task, id);
      assert JobHolds(tables, id);
    }
  }
}
