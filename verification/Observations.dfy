/** The observation archive: each method is one transaction, committed as a whole or rolled back. */
module Observations {
  import opened Wrappers
  import opened Facts
  import opened Cycles
  import Jobs

  // ---- Publications ----

  /** What a publication key is bound to besides its facts. */
  datatype Operation = Operation(kind: string, cycle: Option<nat>, task: Option<nat>, maintenanceTask: Option<nat>)

  datatype Signature = Signature(
    family: string, schemaVersion: nat, subject: string, resource: Option<int>, sourceDigest: Option<string>,
    origin: string, observedFrom: Time, observedUntil: Time, coverage: Outcome, payloadDigest: string)

  function SignatureOf(digest: Payload -> string, fact: FactDraft): Signature {
    Signature(fact.family, fact.schemaVersion, fact.subject, fact.resource, fact.sourceDigest, fact.origin,
      fact.observedFrom, fact.observedUntil, fact.coverage, digest(fact.payload))
  }

  predicate ValidOperation(key: string, operation: Operation) {
    && key != "" && operation.kind in {"sync", "import", "refresh"}
    && (operation.task.Some? ==> operation.cycle.Some? && operation.maintenanceTask.None?)
    && (operation.maintenanceTask.Some? ==> operation.cycle.None? && operation.kind == "refresh")
  }

  predicate IsDigest(text: string) {
    |text| == 64 && forall i | 0 <= i < 64 :: '0' <= text[i] <= '9' || 'a' <= text[i] <= 'f'
  }

  /** _prepare_fact */
  predicate ValidFact(supported: (string, nat) -> bool, fact: FactDraft) {
    && supported(fact.family, fact.schemaVersion) && fact.subject != ""
    && (fact.resource.Some? ==> fact.resource.value >= 1) && fact.observedFrom <= fact.observedUntil
    && (fact.sourceDigest.Some? ==> IsDigest(fact.sourceDigest.value))
  }

  predicate ValidFacts(supported: (string, nat) -> bool, facts: seq<FactDraft>, publishedAt: Time) {
    && facts != []
    && (forall i | 0 <= i < |facts| :: ValidFact(supported, facts[i]) && facts[i].observedUntil <= publishedAt)
    && (forall i, j | 0 <= i < j < |facts| :: SubjectOf(facts[i]) != SubjectOf(facts[j]))
  }

  function FindBatch(batches: seq<Batch>, key: string): (r: Option<nat>)
    ensures r.Some? ==> r.value < |batches| && batches[r.value].key == key
    ensures r.None? ==> forall i :: 0 <= i < |batches| ==> batches[i].key != key
  {
    if batches == [] then None
    else if batches[|batches| - 1].key == key then Some(|batches| - 1)
    else FindBatch(batches[..|batches| - 1], key)
  }

  function OperationOf(batch: Batch): Operation {
    Operation(batch.kind, batch.cycle, batch.task, batch.maintenanceTask)
  }

  /** _batch_facts */
  function BatchFacts(tables: FactTables, b: nat): seq<Observation>
    requires b < |tables.batches| && tables.batches[b].first + tables.batches[b].count <= |tables.observations|
  {
    var batch := tables.batches[b];
    tables.observations[batch.first..batch.first + batch.count]
  }

  /** _verify_existing_batch */
  predicate SamePublication(digest: Payload -> string, tables: FactTables, b: nat, operation: Operation, facts: seq<FactDraft>)
    requires b < |tables.batches| && tables.batches[b].first + tables.batches[b].count <= |tables.observations|
  {
    && OperationOf(tables.batches[b]) == operation && tables.batches[b].count == |facts|
    && forall i | 0 <= i < |facts| ::
         SignatureOf(digest, BatchFacts(tables, b)[i].fact) == SignatureOf(digest, facts[i])
  }

  /** The batch was published by this operation with these facts, in every field; payloads count by digest. */
  ghost predicate Repeats(digest: Payload -> string, batch: Batch, rows: seq<Observation>, operation: Operation,
                          drafts: seq<FactDraft>)
  {
    && batch.kind == operation.kind && batch.cycle == operation.cycle && batch.task == operation.task
    && batch.maintenanceTask == operation.maintenanceTask && |rows| == |drafts|
    && forall i :: 0 <= i < |rows| ==>
         && rows[i].fact.(payload := drafts[i].payload) == drafts[i]
         && digest(rows[i].fact.payload) == digest(drafts[i].payload)
  }

  lemma SameIsRepeat(digest: Payload -> string, tables: FactTables, b: nat, operation: Operation, drafts: seq<FactDraft>)
    requires b < |tables.batches| && tables.batches[b].first + tables.batches[b].count <= |tables.observations|
    requires SamePublication(digest, tables, b, operation, drafts)
    ensures Repeats(digest, tables.batches[b], BatchFacts(tables, b), operation, drafts)
  {
    var rows := BatchFacts(tables, b);
    forall i | 0 <= i < |rows|
      ensures rows[i].fact.(payload := drafts[i].payload) == drafts[i]
      ensures digest(rows[i].fact.payload) == digest(drafts[i].payload)
    {
      assert SignatureOf(digest, rows[i].fact) == SignatureOf(digest, drafts[i]);
    }
  }

  /** What was just published is found again under its key: repeating the call returns it. */
  lemma PublishedIsSame(digest: Payload -> string, before: FactTables, after: FactTables, batch: Batch,
                        operation: Operation, drafts: seq<FactDraft>)
    requires batch.first == |before.observations| && batch.count == |drafts| && operation == Operation(
        batch.kind, batch.cycle, batch.task, batch.maintenanceTask)
    requires after.batches == before.batches + [batch]
    requires after.observations == before.observations + Rows(|before.batches| + 1, drafts)
    ensures SamePublication(digest, after, |before.batches|, operation, drafts)
  {
    assert BatchFacts(after, |before.batches|) == Rows(|before.batches| + 1, drafts);
  }

  /** Every payload published is known by its digest, and a source digest names a known payload. */
  ghost predicate KeepsDigests(digest: Payload -> string, before: set<string>, after: set<string>, drafts: seq<FactDraft>) {
    && (forall d :: d in after <==> d in before || exists i :: 0 <= i < |drafts| && digest(drafts[i].payload) == d)
    && forall i :: 0 <= i < |drafts| ==> (drafts[i].sourceDigest.Some? ==> drafts[i].sourceDigest.value in after)
  }

  /** What a publication is refused for before anything is looked up. */
  lemma AdmittedExactly(supported: (string, nat) -> bool, key: string, operation: Operation, drafts: seq<FactDraft>, at: Time)
    ensures ValidOperation(key, operation) <==>
      && key != "" && (operation.kind == "sync" || operation.kind == "import" || operation.kind == "refresh")
      && !(operation.task.Some? && operation.cycle.None?) && !(operation.task.Some? && operation.maintenanceTask.Some?)
      && !(operation.maintenanceTask.Some? && operation.cycle.Some?)
      && !(operation.maintenanceTask.Some? && operation.kind != "refresh")
    ensures ValidFacts(supported, drafts, at) <==>
      && drafts != [] && (forall draft :: draft in drafts ==> IsWellFormed(supported, draft, at))
      && (forall i, j :: 0 <= i < j < |drafts| ==>
           drafts[i].family != drafts[j].family || drafts[i].subject != drafts[j].subject)
  {
    hide IsDigest, IsHex64;
    forall text ensures IsDigest(text) <==> IsHex64(text) {
      DigestIsHex(text);
    }
    if ValidFacts(supported, drafts, at) {
      forall draft | draft in drafts ensures IsWellFormed(supported, draft, at) {
        var i :| 0 <= i < |drafts| && drafts[i] == draft;
        assert ValidFact(supported, drafts[i]);
      }
    }
    if forall draft :: draft in drafts ==> IsWellFormed(supported, draft, at) {
      forall i | 0 <= i < |drafts| ensures ValidFact(supported, drafts[i]) && drafts[i].observedUntil <= at {
        assert IsWellFormed(supported, drafts[i], at);
      }
    }
  }

  /** A supported family, a subject, a positive resource, a window that ends by then, a hexadecimal digest. */
  ghost predicate IsWellFormed(supported: (string, nat) -> bool, draft: FactDraft, at: Time) {
    && supported(draft.family, draft.schemaVersion) && |draft.subject| > 0
    && !(draft.resource.Some? && draft.resource.value < 1)
    && draft.observedFrom <= draft.observedUntil <= at
    && !(draft.sourceDigest.Some? && !IsHex64(draft.sourceDigest.value))
  }

  ghost predicate IsHex64(text: string) {
    |text| == 64 && forall c :: c in text ==> c in "0123456789abcdef"
  }

  lemma DigestIsHex(text: string)
    ensures IsDigest(text) <==> IsHex64(text)
  {
    forall c ensures '0' <= c <= '9' || 'a' <= c <= 'f' <==> c in "0123456789abcdef" {
      HexCharacter(c);
    }
    if IsHex64(text) {
      assert forall i :: 0 <= i < 64 ==> text[i] in text;
    }
  }

  lemma BatchInside(tables: FactTables, b: nat)
    requires BatchesCover(tables.batches, tables.observations) && b < |tables.batches|
    ensures tables.batches[b].first + tables.batches[b].count <= |tables.observations|
  {
  }

  /** What save_discovery_page checks of its arguments. */
  predicate ArePageParts(request: string, next: Option<string>, items: seq<ItemDraft>, tasks: seq<TaskDraft>) {
    && request != "" && next != Some("")
    && (forall i | 0 <= i < |items| :: ValidItem(items[i]))
    && (forall i | 0 <= i < |tasks| :: ValidTask(tasks[i]))
  }

  /** What start_maintenance_job checks of its arguments. */
  ghost predicate IsJobRequest(key: string, kind: string, drafts: seq<TaskDraft>) {
    && key != "" && (kind == "backfill" || kind == "refresh") && Jobs.DistinctKeys(drafts)
    && (forall i :: 0 <= i < |drafts| ==> ValidTask(drafts[i]))
  }

  /** A completed task may only be completed again as it was; a pending one needs an attempt of its active job. */
  predicate CanComplete(jobs: Jobs.JobTables, task: nat, at: Time, outcome: Outcome) {
    && 1 <= task <= |jobs.tasks|
    && var before := jobs.tasks[task - 1];
    if before.completedAt.Some? then before.outcome == Some(outcome)
    else Jobs.IsActiveJob(jobs, before.job) && before.attemptFrom.Some? && before.attemptFrom.value <= at
  }

  class ObservationArchive {
    const digest: Payload -> string
    const supported: (string, nat) -> bool
    var facts: FactTables
    var sync: SyncTables
    var jobs: Jobs.JobTables
    /** The digests of the stored payloads. */
    var blobs: set<string>
    ghost var traversals: seq<Traversal>

    ghost predicate Valid()
      reads this
    {
      FactsValid(facts) && SyncValid(sync, traversals) && Jobs.JobsValid(jobs)
    }

    constructor (digest: Payload -> string, supported: (string, nat) -> bool)
      ensures Valid() && this.digest == digest && this.supported == supported
      ensures facts == NO_FACTS && sync == NO_CYCLES && jobs == Jobs.NO_JOBS
    {
      this.digest, this.supported := digest, supported;
      facts, sync, jobs, blobs, traversals := NO_FACTS, NO_CYCLES, Jobs.NO_JOBS, {}, [];
      NoFactsAreValid();
      NothingIsValid();
      Jobs.NoJobsAreValid();
    }

    /** The rows that a publication's operation refers to are there and still open. */
    predicate OperationIsOpen(operation: Operation)
      reads this
    {
      && (operation.cycle.Some? ==> IsActive(sync, operation.cycle.value))
      && (operation.task.Some? ==>
        && 1 <= operation.task.value <= |sync.tasks| && operation.cycle == Some(sync.tasks[operation.task.value - 1].cycle)
        && sync.tasks[operation.task.value - 1].completedAt.None?)
      && (operation.maintenanceTask.Some? ==>
        && 1 <= operation.maintenanceTask.value <= |jobs.tasks|
        && jobs.tasks[operation.maintenanceTask.value - 1].completedAt.None?
        && Jobs.IsActiveJob(jobs, jobs.tasks[operation.maintenanceTask.value - 1].job))
    }

    predicate SourcesAreKnown(drafts: seq<FactDraft>, known: set<string>) {
      forall i | 0 <= i < |drafts| :: drafts[i].sourceDigest.Some? ==> drafts[i].sourceDigest.value in known
    }

    function PayloadDigests(drafts: seq<FactDraft>): set<string> {
      set i | 0 <= i < |drafts| :: digest(drafts[i].payload)
    }

    /** publish: a new key appends its facts; a known key returns its original batch when everything
    matches and is refused otherwise, and neither of these changes anything. */
    method Publish(key: string, operation: Operation, publishedAt: Time, drafts: seq<FactDraft>)
      returns (r: Result<seq<Observation>>)
      requires Valid()
      modifies this
      ensures Valid() && jobs == old(jobs) && traversals == old(traversals)
      ensures r.Failure? || FindBatch(old(facts.batches), key).Some? ==>
        facts == old(facts) && sync == old(sync) && blobs == old(blobs)
      ensures ValidOperation(key, operation) && ValidFacts(supported, drafts, publishedAt) ==>
        match FindBatch(old(facts.batches), key)
        case Some(b) =>
          b < |facts.batches| && facts.batches[b].first + facts.batches[b].count <= |facts.observations|
          && (r.Ok? <==> SamePublication(digest, facts, b, operation, drafts))
          && (r.Ok? ==> r.value == BatchFacts(facts, b) && Repeats(digest, facts.batches[b], r.value, operation, drafts))
        case None =>
          && (r.Ok? <==>
            && old(OperationIsOpen(operation))
            && SourcesAreKnown(drafts, old(blobs) + PayloadDigests(drafts))
            && forall i :: 0 <= i < |drafts| ==> !Malformed(|old(facts.observations)| + i + 1, drafts[i]))
          && (r.Ok? ==>
            && r.value == Rows(|old(facts.batches)| + 1, drafts)
            && facts.observations == old(facts.observations) + r.value
            && facts.batches == old(facts.batches) + [Batch(key, operation.kind, operation.cycle, operation.task,
                 operation.maintenanceTask, publishedAt, |old(facts.observations)|, |drafts|)]
            && blobs == old(blobs) + PayloadDigests(drafts)
            && KeepsDigests(digest, old(blobs), blobs, drafts)
            && SamePublication(digest, facts, |old(facts.batches)|, operation, drafts)
            && sync == Completed(old(sync), operation.task, publishedAt)
            && (operation.task.Some? ==> Closes(old(sync), sync, operation.task.value, publishedAt))
            && (operation.task.None? ==> sync == old(sync)))
      ensures !(ValidOperation(key, operation) && ValidFacts(supported, drafts, publishedAt)) ==> r.Failure?
    {
      hide FactsValid, SyncValid, Jobs.JobsValid, SamePublication, ValidFacts, ValidOperation, Malformed, Completed,
        FindBatch, SourcesAreKnown, PayloadDigests, Rows, BatchFacts;
      if !ValidOperation(key, operation) || !ValidFacts(supported, drafts, publishedAt) {
        return Failure("invalid publication");
      }
      var existing := FindBatch(facts.batches, key);
      if existing.Some? {
        FactsCover(facts);
        BatchInside(facts, existing.value);
        if !SamePublication(digest, facts, existing.value, operation, drafts) {
          return Failure("publication key belongs to another operation or to different facts");
        }
        SameIsRepeat(digest, facts, existing.value, operation, drafts);
        return Ok(BatchFacts(facts, existing.value));
      }
      if !OperationIsOpen(operation) {
        return Failure("fact publication requires its pending task");
      }
      var known := blobs + PayloadDigests(drafts);
      if !SourcesAreKnown(drafts, known) {
        return Failure("unknown source digest");
      }
      var batch := Batch(key, operation.kind, operation.cycle, operation.task, operation.maintenanceTask, publishedAt,
        |facts.observations|, |drafts|);
      NotEmpty(supported, drafts, publishedAt);
      DigestsAreKept(blobs, drafts);
      var inserted := InsertBatch(facts, batch, drafts);
      if inserted.None? {
        return Failure("commit reference observation is malformed");
      }
      CompletionIsValid(sync, traversals, operation.task, publishedAt);
      PublishedIsSame(digest, facts, inserted.value, batch, operation, drafts);
      r := Ok(Rows(|facts.batches| + 1, drafts));
      CompletedCloses(sync, operation.task, publishedAt);
      facts, blobs, sync := inserted.value, known, Completed(sync, operation.task, publishedAt);
    }

    lemma DigestsAreKept(before: set<string>, drafts: seq<FactDraft>)
      requires SourcesAreKnown(drafts, before + PayloadDigests(drafts))
      ensures KeepsDigests(digest, before, before + PayloadDigests(drafts), drafts)
    {
    }

    // ---- Synchronization cycles ----

    /** start_cycle: the sole active cycle, or a new one that does not precede the checkpoint. */
    method StartCycle(startedAt: Time) returns (r: Result<nat>)
      requires Valid()
      modifies this`sync, this`traversals
      ensures Valid()
      ensures r.Ok? ==> IsActive(sync, r.value)
      ensures (exists i :: 0 <= i < |old(sync.cycles)| && old(sync.cycles)[i].Active()) ==> r.Ok? && sync == old(sync)
      ensures (forall i :: 0 <= i < |old(sync.cycles)| ==> !old(sync.cycles)[i].Active()) ==>
        if old(sync.checkpoint).Some? && startedAt < old(sync.checkpoint).value then r.Failure? && sync == old(sync)
        else
          && r == Ok(|sync.cycles|)
          && sync == old(sync).(cycles := old(sync.cycles) + [NewCycle(startedAt, old(sync.checkpoint))])
          && StartsAt(sync.cycles[r.value - 1], startedAt, old(sync.checkpoint))
    {
      hide FactsValid, SyncValid, Jobs.JobsValid;
      var active := FindActive(sync);
      if active > 0 {
        assert sync.cycles[active - 1].Active();
        return Ok(active);
      }
      if sync.checkpoint.Some? && startedAt < sync.checkpoint.value {
        return Failure("cycle start precedes the discovery checkpoint");
      }
      StartKeeps(sync, traversals, startedAt);
      sync := sync.(cycles := sync.cycles + [NewCycle(startedAt, sync.checkpoint)]);
      traversals := traversals + [Traversal(None, [])];
      r := Ok(|sync.cycles|);
    }

    /** begin_discovery: the cursor to request next; None after the terminal page. */
    method BeginDiscovery(id: nat, initial: string) returns (r: Result<Option<string>>)
      requires Valid()
      modifies this`sync, this`traversals
      ensures Valid()
      ensures r.Failure? <==> initial == "" || !old(IsActive(sync, id))
      ensures r.Failure? ==> sync == old(sync)
      ensures r.Ok? ==>
        var before := old(sync.cycles)[id - 1];
        if before.discoveryComplete then r.value == None && sync == old(sync)
        else if before.discoveryStarted then r.value == before.cursor && sync == old(sync)
        else
          && r.value == Some(initial)
          && sync == old(sync).(cycles := old(sync.cycles)[id - 1 := Begun(before, initial)])
    {
      hide FactsValid, SyncValid, Jobs.JobsValid;
      if initial == "" || !IsActive(sync, id) {
        return Failure("operation requires an active sync cycle");
      }
      var cycle := sync.cycles[id - 1];
      if cycle.discoveryComplete {
        return Ok(None);
      }
      if cycle.discoveryStarted {
        return Ok(cycle.cursor);
      }
      ChainOf(sync, traversals, id);
      BeginChain(cycle, traversals[id - 1], initial);
      ghost var traversal := Traversal(Some(initial), traversals[id - 1].pages);
      DiscoveryKeeps(sync, traversals, id, Begun(cycle, initial), traversal);
      sync := sync.(cycles := sync.cycles[id - 1 := Begun(cycle, initial)]);
      traversals := traversals[id - 1 := traversal];
      r := Ok(Some(initial));
    }

    /** save_discovery_page: the page, its entries and its tasks become durable together, and only for the
    cursor that the cycle is waiting for. */
    method SaveDiscoveryPage(id: nat, request: string, next: Option<string>, items: seq<ItemDraft>, tasks: seq<TaskDraft>)
      returns (r: Result<()>)
      requires Valid()
      modifies this`sync, this`traversals
      ensures Valid()
      ensures r.Failure? ==> sync == old(sync) && traversals == old(traversals)
      ensures r.Ok? ==>
        && old(IsActive(sync, id)) && request != "" && next != Some("")
        && old(sync.cycles)[id - 1].discoveryStarted && old(sync.cycles)[id - 1].cursor == Some(request)
        && sync.cycles == old(sync.cycles)[id - 1 := Advanced(old(sync.cycles)[id - 1], next, |items|)]
        && TakesPage(old(sync.cycles)[id - 1], sync.cycles[id - 1], next, |items|)
        && sync.checkpoint == old(sync.checkpoint) && TasksExtend(old(sync), sync.tasks, id, tasks)
        && AreLatest(old(sync.items), id, items, sync.items)
        && (forall i :: 0 <= i < |items| ==> (id, items[i].number) in sync.items)
      ensures r.Ok? ==> id - 1 < |old(traversals)| && traversals == old(traversals)[id - 1 :=
        Traversal(old(traversals)[id - 1].initial, old(traversals)[id - 1].pages + [Page(request, next)])]
      ensures r.Failure? && IsActive(sync, id) && ArePageParts(request, next, items, tasks)
        && sync.cycles[id - 1].discoveryStarted && sync.cycles[id - 1].cursor == Some(request)
        ==> Conflicts(sync.tasks, id, tasks)
    {
      hide FactsValid, SyncValid, Jobs.JobsValid, TasksExtend, ValidItem, IsChain, Conflicts;
      if request == "" || next == Some("") || (exists i | 0 <= i < |items| :: !ValidItem(items[i]))
         || (exists i | 0 <= i < |tasks| :: !ValidTask(tasks[i])) {
        return Failure("invalid page");
      }
      if !IsActive(sync, id) {
        return Failure("operation requires an active sync cycle");
      }
      var cycle := sync.cycles[id - 1];
      if !cycle.discoveryStarted || cycle.cursor != Some(request) {
        return Failure("discovery cursor does not match durable state");
      }
      NumbersArePositive(items);
      var entries := PutItems(sync.items, id, items);
      UniqueKeys(sync, traversals);
      var inserted := InsertTasks(sync, id, tasks);
      if inserted.None? {
        return Failure("task key has another definition");
      }
      ChainOf(sync, traversals, id);
      ExtendChain(cycle, traversals[id - 1], request, next, |items|);
      ghost var traversal := Traversal(traversals[id - 1].initial, traversals[id - 1].pages + [Page(request, next)]);
      TasksKeep(sync, traversals, id, inserted.value, tasks);
      ghost var between := sync.(tasks := inserted.value);
      DiscoveryKeeps(between, traversals, id, Advanced(cycle, next, |items|), traversal);
      ItemsAreFree(between.(cycles := sync.cycles[id - 1 := Advanced(cycle, next, |items|)]),
        traversals[id - 1 := traversal], entries);
      sync := SyncTables(sync.cycles[id - 1 := Advanced(cycle, next, |items|)], inserted.value, entries, sync.checkpoint);
      traversals := traversals[id - 1 := traversal];
      r := Ok(());
    }

    /** enqueue_tasks */
    method EnqueueTasks(id: nat, tasks: seq<TaskDraft>) returns (r: Result<()>)
      requires Valid()
      modifies this`sync
      ensures Valid()
      ensures r.Failure? ==> sync == old(sync)
      ensures r.Ok? ==>
        && old(IsActive(sync, id)) && TasksExtend(old(sync), sync.tasks, id, tasks)
        && sync == old(sync).(tasks := sync.tasks)
      ensures r.Failure? && old(IsActive(sync, id)) && (forall i :: 0 <= i < |tasks| ==> ValidTask(tasks[i])) ==>
        Conflicts(sync.tasks, id, tasks)
    {
      hide FactsValid, SyncValid, Jobs.JobsValid, TasksExtend, Conflicts, ValidTask;
      if !IsActive(sync, id) || (exists i | 0 <= i < |tasks| :: !ValidTask(tasks[i])) {
        return Failure("operation requires an active sync cycle");
      }
      UniqueKeys(sync, traversals);
      var inserted := InsertTasks(sync, id, tasks);
      if inserted.None? {
        return Failure("task key has another definition");
      }
      TasksKeep(sync, traversals, id, inserted.value, tasks);
      sync := sync.(tasks := inserted.value);
      r := Ok(());
    }

    /** complete_task: a no-op task closes without a fact; repeating the call changes nothing. */
    method CompleteTask(task: nat, at: Time) returns (r: Result<()>)
      requires Valid()
      modifies this`sync
      ensures Valid()
      ensures r.Ok? <==> 1 <= task <= |old(sync.tasks)|
      ensures r.Ok? ==> sync == if old(sync.tasks)[task - 1].completedAt.Some? then old(sync)
                                else Completed(old(sync), Some(task), at)
      ensures r.Ok? && old(sync.tasks)[task - 1].completedAt.None? ==> Closes(old(sync), sync, task, at)
      ensures r.Failure? ==> sync == old(sync)
    {
      hide FactsValid, SyncValid, Jobs.JobsValid;
      if !(1 <= task <= |sync.tasks|) {
        return Failure("unknown sync task");
      }
      if sync.tasks[task - 1].completedAt.None? {
        PendingIsActive(sync, traversals, task - 1);
        if !IsActive(sync, sync.tasks[task - 1].cycle) {
          return Failure("operation requires an active sync cycle");
        }
        CompletionIsValid(sync, traversals, Some(task), at);
        sync := Completed(sync, Some(task), at);
      }
      r := Ok(());
    }

    /** complete_cycle: only after terminal discovery and with no pending task; the checkpoint moves to the
    cycle's start and never back. */
    method CompleteCycle(id: nat, at: Time) returns (r: Result<()>)
      requires Valid()
      modifies this`sync
      ensures Valid()
      ensures r.Failure? ==> sync == old(sync)
      ensures r.Ok? <==> CycleAt(old(sync), id).Some? && (CycleAt(old(sync), id).value.Active() ==>
        && CycleAt(old(sync), id).value.discoveryComplete && !HasPending(old(sync.tasks), id)
        && at >= CycleAt(old(sync), id).value.startedAt)
      ensures r.Ok? && CycleAt(old(sync), id).value.Active() ==> AllClosed(old(sync.tasks), id)
      ensures r.Failure? && CycleAt(old(sync), id).Some? && CycleAt(old(sync), id).value.discoveryComplete ==>
        !AllClosed(old(sync.tasks), id) || at < CycleAt(old(sync), id).value.startedAt
      ensures r.Ok? && !CycleAt(old(sync), id).value.Active() ==> sync == old(sync)
      ensures r.Ok? && CycleAt(old(sync), id).value.Active() ==>
        var before := old(sync.cycles)[id - 1];
        && sync.cycles == old(sync.cycles)[id - 1 := before.(completedAt := Some(at))]
        && sync.tasks == old(sync.tasks) && sync.items == old(sync.items)
        && sync.checkpoint == Some(before.startedAt)
        && (old(sync.checkpoint).Some? ==> old(sync.checkpoint).value <= before.startedAt)
    {
      hide FactsValid, SyncValid, Jobs.JobsValid, HasPending;
      if CycleAt(sync, id).None? {
        return Failure("unknown sync cycle");
      }
      var cycle := sync.cycles[id - 1];
      PendingIsOpen(sync.tasks, id);
      if !cycle.Active() {
        return Ok(());
      }
      if !cycle.discoveryComplete {
        return Failure("discovery must finish before the cycle");
      }
      if HasPending(sync.tasks, id) {
        return Failure("all sync tasks must finish before the cycle");
      }
      if at < cycle.startedAt {
        return Failure("cycle cannot complete before it starts");
      }
      CompletionKeeps(sync, traversals, id, at);
      sync := sync.(cycles := sync.cycles[id - 1 := cycle.(completedAt := Some(at))],
        checkpoint := Raised(sync.checkpoint, cycle.startedAt));
      r := Ok(());
    }

    // ---- Maintenance jobs ----

    /** start_maintenance_job: a known key resumes its identical job, and one job runs at a time. */
    method StartMaintenanceJob(key: string, kind: string, requestedAt: Time, scope: string, drafts: seq<TaskDraft>)
      returns (r: Result<nat>)
      requires Valid()
      modifies this`jobs
      ensures Valid()
      ensures r.Failure? ==> jobs == old(jobs)
      ensures r.Failure? && IsJobRequest(key, kind, drafts) ==>
        match FindJob(jobs.jobs, key)
        case Some(i) => i < |jobs.jobs| && !JobIs(jobs, i + 1, kind, requestedAt, scope, drafts)
        case None => exists i :: 0 <= i < |jobs.jobs| && jobs.jobs[i].Active()
      ensures r.Ok? ==>
        && key != "" && 1 <= r.value <= |jobs.jobs| && jobs.jobs[r.value - 1].key == key
        && Jobs.DistinctKeys(drafts)
      ensures r.Ok? ==>
        if exists i :: 0 <= i < |old(jobs.jobs)| && old(jobs.jobs)[i].key == key then
          jobs == old(jobs) && JobIs(jobs, r.value, kind, requestedAt, scope, drafts)
        else
          && (forall i :: 0 <= i < |old(jobs.jobs)| ==> !old(jobs.jobs)[i].Active())
          && r.value == |jobs.jobs| && JobIs(jobs, r.value, kind, requestedAt, scope, drafts)
          && exists sorted {:trigger Jobs.NewTasks(|jobs.jobs|, sorted)} ::
               && |sorted| == |drafts| && (forall draft :: draft in sorted <==> draft in drafts)
               && Jobs.AscendingKeys(sorted)
               && jobs.jobs == old(jobs.jobs) + [Jobs.NewJob(key, kind, requestedAt, scope, sorted)]
               && Begins(jobs.jobs[r.value - 1], key, kind, requestedAt, scope, |drafts|)
               && jobs.tasks == old(jobs.tasks) + Jobs.NewTasks(|jobs.jobs|, sorted)
    {
      hide FactsValid, SyncValid, Jobs.JobsValid, JobIs, Jobs.DistinctKeys, Jobs.AscendingKeys;
      if key == "" || !(kind == "backfill" || kind == "refresh") || (exists i | 0 <= i < |drafts| :: !ValidTask(drafts[i])) {
        return Failure("invalid maintenance job identity");
      }
      var sorted := Jobs.SortDrafts(drafts);
      if sorted.None? {
        return Failure("maintenance task keys must be unique");
      }
      var existing := FindJob(jobs.jobs, key);
      if existing.Some? {
        var same := VerifyJob(jobs, existing.value + 1, kind, requestedAt, scope, drafts);
        if !same {
          return Failure("maintenance job key has another definition");
        }
        return Ok(existing.value + 1);
      }
      if exists i | 0 <= i < |jobs.jobs| :: jobs.jobs[i].Active() {
        return Failure("another maintenance job must finish first");
      }
      Jobs.StartKeeps(jobs, key, kind, requestedAt, scope, sorted.value);
      StartedJobIs(jobs, key, kind, requestedAt, scope, drafts, sorted.value);
      jobs := Jobs.JobTables(jobs.jobs + [Jobs.NewJob(key, kind, requestedAt, scope, sorted.value)],
        jobs.tasks + Jobs.NewTasks(|jobs.jobs| + 1, sorted.value));
      r := Ok(|jobs.jobs|);
    }

    /** take_maintenance_tasks: the first pending tasks of the job (and kind), each with one more attempt. */
    method TakeMaintenanceTasks(job: nat, limit: nat, startedAt: Time, kind: Option<string>) returns (r: Result<seq<nat>>)
      requires Valid()
      modifies this`jobs
      ensures Valid()
      ensures r.Failure? ==> jobs == old(jobs) && (limit < 1 || !old(Jobs.IsActiveJob(jobs, job)))
      ensures r.Ok? ==>
        && old(Jobs.IsActiveJob(jobs, job)) && jobs.jobs == old(jobs.jobs) && |jobs.tasks| == |old(jobs.tasks)|
        && Claims(old(jobs), job, kind, limit, r.value)
        && forall t :: 0 <= t < |jobs.tasks| ==>
             jobs.tasks[t] == if t in r.value then Attempted(old(jobs.tasks)[t], startedAt) else old(jobs.tasks)[t]
      ensures r.Ok? ==> |jobs.tasks| == |old(jobs.tasks)| && forall t :: t in r.value ==>
        t < |jobs.tasks| && IsTried(old(jobs.tasks)[t], jobs.tasks[t], job, kind, startedAt)
      ensures r.Ok? && |r.value| < limit ==> forall t :: 0 <= t < |jobs.tasks| && t !in r.value ==>
        (jobs.tasks[t].job != job || jobs.tasks[t].completedAt.Some? || (kind.Some? && jobs.tasks[t].draft.kind != kind.value))
    {
      hide FactsValid, SyncValid, Jobs.JobsValid;
      if limit < 1 || !Jobs.IsActiveJob(jobs, job) {
        return Failure("operation requires an active maintenance job");
      }
      var claimed: seq<nat> := [];
      var table, next := jobs, jobs;
      for t := 0 to |table.tasks|
        invariant Jobs.JobsValid(next) && next.jobs == table.jobs && |next.tasks| == |table.tasks|
        invariant ClaimsWithin(table, job, kind, limit, claimed, t)
        invariant forall s :: 0 <= s < |table.tasks| ==>
          next.tasks[s] == if s in claimed then Attempted(table.tasks[s], startedAt) else table.tasks[s]
        invariant jobs == table && Valid()
      {
        ClaimOneMore(table, job, kind, limit, claimed, t);
        if |claimed| < limit && IsPending(table, job, kind, t) {
          Jobs.AttemptKeeps(next, t, Attempted(next.tasks[t], startedAt));
          next := next.(tasks := next.tasks[t := Attempted(next.tasks[t], startedAt)]);
          claimed := claimed + [t];
        }
      }
      jobs := next;
      r := Ok(claimed);
    }

    /** complete_maintenance_task: the task, then its job when it was the last one. */
    method CompleteMaintenanceTask(task: nat, at: Time, outcome: Outcome) returns (r: Result<()>)
      requires Valid()
      modifies this`jobs
      ensures Valid()
      ensures r.Failure? ==> jobs == old(jobs)
      ensures r.Ok? <==> old(CanComplete(jobs, task, at, outcome))
      ensures r.Ok? && old(jobs.tasks)[task - 1].completedAt.Some? ==> jobs == old(jobs)
      ensures r.Ok? && old(jobs.tasks)[task - 1].completedAt.None? ==>
        var before := old(jobs.tasks)[task - 1];
        && jobs == Jobs.AdvanceJob(
             old(jobs).(tasks := old(jobs.tasks)[task - 1 := Finished(before, at, outcome)]), before.job, at)
        && IsFinished(before, jobs.tasks[task - 1], at, outcome)
        && IsAdvanced(old(jobs.jobs), jobs.jobs, before.job, at)
    {
      hide FactsValid, SyncValid, Jobs.JobsValid, Jobs.AdvanceJob;
      if !(1 <= task <= |jobs.tasks|) {
        return Failure("unknown maintenance task");
      }
      var before := jobs.tasks[task - 1];
      if before.completedAt.Some? {
        if before.outcome != Some(outcome) {
          return Failure("maintenance task already has another outcome");
        }
        return Ok(());
      }
      if !Jobs.IsActiveJob(jobs, before.job) || before.attemptFrom.None? || before.attemptFrom.value > at {
        return Failure("maintenance task has no active attempt");
      }
      Jobs.CompleteKeeps(jobs, task - 1, Finished(before, at, outcome), at);
      AdvancesOnly(jobs.(tasks := jobs.tasks[task - 1 := Finished(before, at, outcome)]), before.job, at);
      jobs := Jobs.AdvanceJob(jobs.(tasks := jobs.tasks[task - 1 := Finished(before, at, outcome)]), before.job, at);
      r := Ok(());
    }

    /** record_maintenance_task_error: a failed attempt publishes nothing and completes nothing. */
    method RecordMaintenanceTaskError(task: nat, until: Time, error: string) returns (r: Result<()>)
      requires Valid()
      modifies this`jobs
      ensures Valid()
      ensures r.Failure? ==> jobs == old(jobs)
      ensures r.Ok? <==>
        && error != "" && 1 <= task <= |old(jobs.tasks)| && old(jobs.tasks)[task - 1].completedAt.None?
        && old(jobs.tasks)[task - 1].attemptFrom.Some? && old(jobs.tasks)[task - 1].attemptFrom.value <= until
      ensures r.Ok? ==> jobs == old(jobs).(tasks := old(jobs.tasks)[task - 1 :=
        old(jobs.tasks)[task - 1].(attemptUntil := Some(until), lastError := Some(error))])
    {
      hide FactsValid, SyncValid, Jobs.JobsValid;
      if error == "" || !(1 <= task <= |jobs.tasks|) || jobs.tasks[task - 1].completedAt.Some?
         || jobs.tasks[task - 1].attemptFrom.None? || jobs.tasks[task - 1].attemptFrom.value > until {
        return Failure("maintenance task is not pending");
      }
      var failed := jobs.tasks[task - 1].(attemptUntil := Some(until), lastError := Some(error));
      Jobs.AttemptKeeps(jobs, task - 1, failed);
      jobs := jobs.(tasks := jobs.tasks[task - 1 := failed]);
      r := Ok(());
    }
  }

  /** A job with all its tasks still to do; without tasks it is complete at once. */
  predicate Begins(job: Jobs.Job, key: string, kind: string, requestedAt: Time, scope: string, total: nat) {
    && job.key == key && job.kind == kind && job.requestedAt == requestedAt && job.scope == scope
    && job.total == total && job.completed == 0 && job.requests == 0
    && job.completedAt == (if total == 0 then Some(requestedAt) else None)
  }

  /** A pending task of the job and kind gets one attempt more, which begins now. */
  predicate IsTried(before: Jobs.JobTask, after: Jobs.JobTask, job: nat, kind: Option<string>, at: Time) {
    && before.job == job && before.completedAt.None? && (kind.Some? ==> before.draft.kind == kind.value)
    && after.attempts - before.attempts == 1 && after.attemptFrom == Some(at)
    && after.attemptUntil.None? && after.lastError.None?
    && after.job == before.job && after.draft == before.draft && after.completedAt.None? && after.outcome == before.outcome
  }

  /** The attempt ends now, without an error, and the task with it. */
  predicate IsFinished(before: Jobs.JobTask, after: Jobs.JobTask, at: Time, outcome: Outcome) {
    && after.completedAt == Some(at) && after.outcome == Some(outcome)
    && after.attemptUntil == Some(at) && after.lastError.None?
    && after.job == before.job && after.draft == before.draft && after.attempts == before.attempts
    && after.attemptFrom == before.attemptFrom
  }

  /** Only the progress of that job changes, and it may be complete now. */
  ghost predicate IsAdvanced(before: seq<Jobs.Job>, after: seq<Jobs.Job>, id: nat, at: Time) {
    && |after| == |before| && 1 <= id <= |before|
    && (forall i :: 0 <= i < |before| && i != id - 1 ==> after[i] == before[i])
    && after[id - 1].(completed := before[id - 1].completed, completedAt := before[id - 1].completedAt) == before[id - 1]
    && (after[id - 1].completedAt.Some? ==> after[id - 1].completedAt == Some(at))
  }

  lemma AdvancesOnly(tables: Jobs.JobTables, id: nat, at: Time)
    requires Jobs.IsActiveJob(tables, id)
    ensures Jobs.AdvanceJob(tables, id, at).tasks == tables.tasks
    ensures IsAdvanced(tables.jobs, Jobs.AdvanceJob(tables, id, at).jobs, id, at)
  {
    hide Jobs.CountTasks, Jobs.CountDone;
  }

  function Attempted(task: Jobs.JobTask, startedAt: Time): Jobs.JobTask {
    task.(attempts := task.attempts + 1, attemptFrom := Some(startedAt), attemptUntil := None, lastError := None)
  }

  function Finished(task: Jobs.JobTask, at: Time, outcome: Outcome): Jobs.JobTask {
    task.(completedAt := Some(at), outcome := Some(outcome), attemptUntil := Some(at), lastError := None)
  }

  predicate IsPending(jobs: Jobs.JobTables, job: nat, kind: Option<string>, t: nat)
    requires t < |jobs.tasks|
  {
    jobs.tasks[t].job == job && jobs.tasks[t].completedAt.None? && (kind.None? || jobs.tasks[t].draft.kind == kind.value)
  }

  /** The claimed positions are the first pending ones, up to the limit. */
  ghost predicate ClaimsWithin(jobs: Jobs.JobTables, job: nat, kind: Option<string>, limit: nat, claimed: seq<nat>, n: nat)
    requires n <= |jobs.tasks|
  {
    && |claimed| <= limit
    && (forall i, j :: 0 <= i < j < |claimed| ==> claimed[i] < claimed[j])
    && (forall t :: t in claimed ==> t < n && IsPending(jobs, job, kind, t))
    && (forall t: nat :: t < n && IsPending(jobs, job, kind, t) ==>
         t in claimed || (|claimed| == limit && forall c :: c in claimed ==> c < t))
  }

  lemma ClaimOneMore(jobs: Jobs.JobTables, job: nat, kind: Option<string>, limit: nat, claimed: seq<nat>, n: nat)
    requires n < |jobs.tasks| && ClaimsWithin(jobs, job, kind, limit, claimed, n)
    ensures n !in claimed
    ensures if |claimed| < limit && IsPending(jobs, job, kind, n)
            then ClaimsWithin(jobs, job, kind, limit, claimed + [n], n + 1)
            else ClaimsWithin(jobs, job, kind, limit, claimed, n + 1)
  {
    hide IsPending;
    var more := claimed + [n];
    assert forall t :: t in more <==> t in claimed || t == n;
    assert forall i, j :: 0 <= i < j < |claimed| ==> more[i] < more[j];
    forall i | 0 <= i < |claimed| ensures claimed[i] < n {
      assert claimed[i] in claimed;
    }
  }

  ghost predicate Claims(jobs: Jobs.JobTables, job: nat, kind: Option<string>, limit: nat, claimed: seq<nat>) {
    ClaimsWithin(jobs, job, kind, limit, claimed, |jobs.tasks|)
  }

  function FindJob(jobs: seq<Jobs.Job>, key: string): (r: Option<nat>)
    ensures r.Some? ==> r.value < |jobs| && jobs[r.value].key == key
    ensures r.None? ==> forall i :: 0 <= i < |jobs| ==> jobs[i].key != key
  {
    if jobs == [] then None
    else if jobs[|jobs| - 1].key == key then Some(|jobs| - 1)
    else FindJob(jobs[..|jobs| - 1], key)
  }

  /** The job has this definition: its identity and exactly these tasks. */
  ghost predicate JobIs(jobs: Jobs.JobTables, id: nat, kind: string, requestedAt: Time, scope: string, drafts: seq<TaskDraft>) {
    && 1 <= id <= |jobs.jobs|
    && jobs.jobs[id - 1].kind == kind && jobs.jobs[id - 1].requestedAt == requestedAt
    && jobs.jobs[id - 1].scope == scope && jobs.jobs[id - 1].total == |drafts|
    && (forall t :: 0 <= t < |jobs.tasks| && jobs.tasks[t].job == id ==> jobs.tasks[t].draft in drafts)
    && (forall i :: 0 <= i < |drafts| ==> HasJobTask(jobs.tasks, id, drafts[i]))
  }

  ghost predicate HasJobTask(tasks: seq<Jobs.JobTask>, id: nat, draft: TaskDraft) {
    exists t :: 0 <= t < |tasks| && tasks[t].job == id && tasks[t].draft == draft
  }

  function JobDrafts(tasks: seq<Jobs.JobTask>, id: nat): set<TaskDraft> {
    set t | 0 <= t < |tasks| && tasks[t].job == id :: tasks[t].draft
  }

  function Drafts(drafts: seq<TaskDraft>): set<TaskDraft> {
    set i | 0 <= i < |drafts| :: drafts[i]
  }

  /** _verify_maintenance_job */
  method VerifyJob(jobs: Jobs.JobTables, id: nat, kind: string, requestedAt: Time, scope: string, drafts: seq<TaskDraft>)
    returns (same: bool)
    requires 1 <= id <= |jobs.jobs|
    ensures same <==> JobIs(jobs, id, kind, requestedAt, scope, drafts)
  {
    var job := jobs.jobs[id - 1];
    if job.kind != kind || job.requestedAt != requestedAt || job.scope != scope || job.total != |drafts| {
      return false;
    }
    SameTaskSets(jobs.tasks, id, drafts);
    same := JobDrafts(jobs.tasks, id) == Drafts(drafts);
  }

  lemma SameTaskSets(tasks: seq<Jobs.JobTask>, id: nat, drafts: seq<TaskDraft>)
    ensures JobDrafts(tasks, id) == Drafts(drafts) <==>
      && (forall t :: 0 <= t < |tasks| && tasks[t].job == id ==> tasks[t].draft in drafts)
      && (forall i :: 0 <= i < |drafts| ==> HasJobTask(tasks, id, drafts[i]))
  {
    forall draft ensures draft in JobDrafts(tasks, id) <==> HasJobTask(tasks, id, draft) {
    }
    forall draft ensures draft in Drafts(drafts) <==> draft in drafts {
    }
    if JobDrafts(tasks, id) == Drafts(drafts) {
      forall i | 0 <= i < |drafts| ensures HasJobTask(tasks, id, drafts[i]) {
        assert drafts[i] in Drafts(drafts);
      }
      forall t | 0 <= t < |tasks| && tasks[t].job == id ensures tasks[t].draft in drafts {
        assert tasks[t].draft in JobDrafts(tasks, id);
      }
    }
  }

  lemma StartedJobIs(jobs: Jobs.JobTables, key: string, kind: string, requestedAt: Time, scope: string,
                     drafts: seq<TaskDraft>, sorted: seq<TaskDraft>)
    requires Jobs.JobsValid(jobs) && |sorted| == |drafts| && forall draft :: draft in sorted <==> draft in drafts
    ensures JobIs(Jobs.JobTables(jobs.jobs + [Jobs.NewJob(key, kind, requestedAt, scope, sorted)],
      jobs.tasks + Jobs.NewTasks(|jobs.jobs| + 1, sorted)), |jobs.jobs| + 1, kind, requestedAt, scope, drafts)
  {
    var n := |jobs.jobs| + 1;
    var tasks := jobs.tasks + Jobs.NewTasks(n, sorted);
    forall i | 0 <= i < |drafts| ensures HasJobTask(tasks, n, drafts[i]) {
      assert drafts[i] in sorted;
      var k :| 0 <= k < |sorted| && sorted[k] == drafts[i];
      assert tasks[|jobs.tasks| + k].draft == drafts[i];
    }
  }

  lemma ChainOf(sync: SyncTables, traversals: seq<Traversal>, id: nat)
    requires SyncValid(sync, traversals) && 1 <= id <= |sync.cycles|
    ensures |traversals| == |sync.cycles|
    ensures IsChain(traversals[id - 1].initial, traversals[id - 1].pages, sync.cycles[id - 1])
  {
  }

  lemma NumbersArePositive(items: seq<ItemDraft>)
    requires forall i :: 0 <= i < |items| ==> ValidItem(items[i])
    ensures forall i :: 0 <= i < |items| ==> items[i].number >= 1
  {
  }

  lemma UniqueKeys(sync: SyncTables, traversals: seq<Traversal>)
    requires SyncValid(sync, traversals)
    ensures TaskKeysAreUnique(sync.tasks)
  {
  }

  lemma ItemsAreFree(sync: SyncTables, traversals: seq<Traversal>, items: map<(nat, nat), Item>)
    requires SyncValid(sync, traversals)
    ensures SyncValid(sync.(items := items), traversals)
  {
  }

  lemma PendingIsActive(sync: SyncTables, traversals: seq<Traversal>, t: nat)
    requires SyncValid(sync, traversals) && t < |sync.tasks| && sync.tasks[t].completedAt.None?
    ensures IsActive(sync, sync.tasks[t].cycle)
  {
  }

  lemma FactsCover(tables: FactTables)
    requires FactsValid(tables)
    ensures BatchesCover(tables.batches, tables.observations)
  {
  }

  lemma NotEmpty(supported: (string, nat) -> bool, facts: seq<FactDraft>, publishedAt: Time)
    requires ValidFacts(supported, facts, publishedAt)
    ensures facts != []
  {
  }

  /** No work of the cycle is left. */
  ghost predicate AllClosed(tasks: seq<Task>, cycle: nat) {
    forall t :: 0 <= t < |tasks| ==> (tasks[t].cycle == cycle ==> tasks[t].completedAt.Some?)
  }

  lemma PendingIsOpen(tasks: seq<Task>, cycle: nat)
    ensures HasPending(tasks, cycle) <==> !AllClosed(tasks, cycle)
  {
  }

  /** The cycle took one more page: its cursor is the next one, and the last page ends the discovery. */
  predicate TakesPage(before: Cycle, after: Cycle, next: Option<string>, count: nat) {
    && after.cursor == next && (after.discoveryComplete <==> next.None?)
    && after.pages - before.pages == 1 && after.discovered - before.discovered == count
    && after.startedAt == before.startedAt && after.checkpointFrom == before.checkpointFrom
    && after.completedAt == before.completedAt && after.discoveryStarted == before.discoveryStarted
    && after.requests == before.requests
  }

  /** The piece of work is closed at that time without an error, and everything else stays. */
  ghost predicate Closes(before: SyncTables, after: SyncTables, task: nat, at: Time) {
    && after.cycles == before.cycles && after.checkpoint == before.checkpoint && after.items == before.items
    && |after.tasks| == |before.tasks| && 1 <= task <= |after.tasks|
    && (forall t :: 0 <= t < |after.tasks| && t != task - 1 ==> after.tasks[t] == before.tasks[t])
    && var (old', new') := (before.tasks[task - 1], after.tasks[task - 1]);
      && new'.completedAt == Some(at) && new'.lastError.None?
      && new'.cycle == old'.cycle && new'.draft == old'.draft && new'.attempts == old'.attempts
  }

  /** A cycle that has just begun: its start is the checkpoint to come, and nothing is discovered yet. */
  predicate StartsAt(cycle: Cycle, startedAt: Time, checkpoint: Option<Time>) {
    && cycle.startedAt == startedAt && cycle.checkpointFrom == checkpoint && cycle.completedAt.None?
    && !cycle.discoveryStarted && cycle.cursor.None? && !cycle.discoveryComplete
    && cycle.pages == 0 && cycle.discovered == 0 && cycle.requests == 0
  }

  /** UPDATE sync_tasks SET completed_at = ?, last_error = NULL */
  function Completed(sync: SyncTables, task: Option<nat>, at: Time): SyncTables
    requires task.Some? ==> 1 <= task.value <= |sync.tasks|
  {
    match task
    case None => sync
    case Some(id) =>
      sync.(tasks := sync.tasks[id - 1 := sync.tasks[id - 1].(completedAt := Some(at), lastError := None)])
  }

  lemma CompletedCloses(sync: SyncTables, task: Option<nat>, at: Time)
    requires task.Some? ==> 1 <= task.value <= |sync.tasks|
    ensures task.None? ==> Completed(sync, task, at) == sync
    ensures task.Some? ==> Closes(sync, Completed(sync, task, at), task.value, at)
  {
  }

  lemma CompletionIsValid(sync: SyncTables, traversals: seq<Traversal>, task: Option<nat>, at: Time)
    requires SyncValid(sync, traversals) && (task.Some? ==> 1 <= task.value <= |sync.tasks|)
    ensures SyncValid(Completed(sync, task, at), traversals)
  {
    hide SyncValid;
    if task.Some? {
      TaskUpdateKeeps(sync, traversals, task.value - 1,
        sync.tasks[task.value - 1].(completedAt := Some(at), lastError := None));
    }
  }
}
