/** Synchronization cycles: discovery cursors, tasks, and the checkpoint that completed cycles move. */
module Cycles {
  import opened Wrappers
  import opened Facts

  // ---- Rows ----

  datatype Cycle = Cycle(
    startedAt: Time, checkpointFrom: Option<Time>, completedAt: Option<Time>,
    discoveryStarted: bool, cursor: Option<string>, discoveryComplete: bool,
    pages: nat, discovered: nat, requests: nat)
  {
    /** status = 'active' exactly while completed_at is NULL. */
    predicate Active() { completedAt.None? }
  }

  /** A prepared task: `input` is the digest of its payload. */
  datatype TaskDraft = TaskDraft(key: string, kind: string, subject: string, resource: Option<int>, input: string)

  datatype Task = Task(cycle: nat, draft: TaskDraft, completedAt: Option<Time>, attempts: nat, lastError: Option<string>)

  datatype Item = Item(kind: string, observedFrom: Time, observedUntil: Time, summary: string)

  datatype ItemDraft = ItemDraft(number: int, item: Item, summaryNumber: int)

  /** One consumed discovery page. */
  datatype Page = Page(request: string, next: Option<string>)

  /** Cycle and task ids are positions plus one. */
  datatype SyncTables = SyncTables(
    cycles: seq<Cycle>, tasks: seq<Task>, items: map<(nat, nat), Item>, checkpoint: Option<Time>)

  const NO_CYCLES := SyncTables([], [], map[], None)

  predicate ValidTask(draft: TaskDraft) {
    draft.key != "" && draft.kind != "" && draft.subject != "" && (draft.resource.Some? ==> draft.resource.value >= 1)
  }

  /** Work is refused without a key, a kind or a subject, or for a resource below 1. */
  lemma TaskIsRefusedExactly(draft: TaskDraft)
    ensures !ValidTask(draft) <==>
      || |draft.key| == 0 || |draft.kind| == 0 || |draft.subject| == 0
      || (draft.resource.Some? && draft.resource.value < 1)
  {
  }

  /** A catalog entry is refused for its number, its kind, its window, or the number in its summary. */
  lemma ItemIsRefusedExactly(draft: ItemDraft)
    ensures !ValidItem(draft) <==>
      || draft.number < 1 || draft.item.kind !in {"issue", "pull"}
      || draft.item.observedUntil < draft.item.observedFrom || draft.summaryNumber != draft.number
  {
  }

  predicate ValidItem(draft: ItemDraft) {
    && draft.number >= 1 && (draft.item.kind == "issue" || draft.item.kind == "pull")
    && draft.item.observedFrom <= draft.item.observedUntil && draft.summaryNumber == draft.number
  }

  function CycleAt(tables: SyncTables, id: nat): Option<Cycle> {
    if 1 <= id <= |tables.cycles| then Some(tables.cycles[id - 1]) else None
  }

  predicate IsActive(tables: SyncTables, id: nat) {
    CycleAt(tables, id).Some? && CycleAt(tables, id).value.Active()
  }

  // ---- Invariants ----

  ghost predicate OneActive(cycles: seq<Cycle>) {
    forall i, j :: 0 <= i < j < |cycles| ==> !(cycles[i].Active() && cycles[j].Active())
  }

  /** A cycle is complete only with terminal discovery and without pending tasks. */
  ghost predicate CompleteIsDone(cycles: seq<Cycle>, tasks: seq<Task>) {
    && (forall i :: 0 <= i < |cycles| && !cycles[i].Active() ==> cycles[i].discoveryComplete)
    && (forall t :: 0 <= t < |tasks| ==>
         && 1 <= tasks[t].cycle <= |cycles|
         && (tasks[t].completedAt.None? ==> cycles[tasks[t].cycle - 1].Active()))
  }

  ghost predicate TaskKeysAreUnique(tasks: seq<Task>) {
    forall s, t :: 0 <= s < t < |tasks| ==>
      tasks[s].cycle != tasks[t].cycle || tasks[s].draft.key != tasks[t].draft.key
  }

  /** The checkpoint is the greatest start of a complete cycle, and no active cycle starts before it. */
  ghost predicate CheckpointIsGreatest(cycles: seq<Cycle>, checkpoint: Option<Time>) {
    && (forall i :: 0 <= i < |cycles| && !cycles[i].Active() ==>
         checkpoint.Some? && cycles[i].startedAt <= checkpoint.value)
    && (checkpoint.Some? ==>
         exists i :: 0 <= i < |cycles| && !cycles[i].Active() && cycles[i].startedAt == checkpoint.value)
    && (forall i :: 0 <= i < |cycles| && cycles[i].Active() && checkpoint.Some? ==>
         cycles[i].startedAt >= checkpoint.value)
  }

  /** The saved pages of a cycle form one gap-free chain from the initial cursor to the current one. */
  ghost predicate IsChain(initial: Option<string>, pages: seq<Page>, cycle: Cycle) {
    && cycle.discoveryStarted == initial.Some? && cycle.pages == |pages|
    && (pages == [] ==> cycle.cursor == initial && !cycle.discoveryComplete)
    && (pages != [] ==>
         && initial == Some(pages[0].request)
         && pages[|pages| - 1].next == cycle.cursor
         && cycle.discoveryComplete == cycle.cursor.None?)
    && forall i :: 0 <= i < |pages| - 1 ==> pages[i].next == Some(pages[i + 1].request)
  }

  /** What is remembered of a traversal besides the row: its first cursor and its pages. */
  datatype Traversal = Traversal(initial: Option<string>, pages: seq<Page>)

  ghost predicate ChainsHold(cycles: seq<Cycle>, traversals: seq<Traversal>) {
    |traversals| == |cycles| &&
    forall i :: 0 <= i < |cycles| ==> IsChain(traversals[i].initial, traversals[i].pages, cycles[i])
  }

  ghost predicate SyncValid(tables: SyncTables, traversals: seq<Traversal>) {
    && OneActive(tables.cycles) && CompleteIsDone(tables.cycles, tables.tasks)
    && TaskKeysAreUnique(tables.tasks) && CheckpointIsGreatest(tables.cycles, tables.checkpoint)
    && ChainsHold(tables.cycles, traversals)
  }

  lemma NothingIsValid()
    ensures SyncValid(NO_CYCLES, [])
  {
  }

  // ---- Transitions ----

  /** SELECT ... WHERE status = 'active' */
  method FindActive(tables: SyncTables) returns (id: nat)
    ensures id == 0 <==> forall i :: 0 <= i < |tables.cycles| ==> !tables.cycles[i].Active()
    ensures id > 0 ==> IsActive(tables, id)
  {
    id := 0;
    for i := 0 to |tables.cycles|
      invariant id == 0 ==> forall j :: 0 <= j < i ==> !tables.cycles[j].Active()
      invariant id > 0 ==> IsActive(tables, id)
    {
      if tables.cycles[i].Active() {
        id := i + 1;
      }
    }
  }

  function NewCycle(startedAt: Time, checkpoint: Option<Time>): Cycle {
    Cycle(startedAt, checkpoint, None, false, None, false, 0, 0, 0)
  }

  lemma StartKeeps(tables: SyncTables, traversals: seq<Traversal>, startedAt: Time)
    requires SyncValid(tables, traversals)
    requires forall i :: 0 <= i < |tables.cycles| ==> !tables.cycles[i].Active()
    requires tables.checkpoint.Some? ==> startedAt >= tables.checkpoint.value
    ensures SyncValid(tables.(cycles := tables.cycles + [NewCycle(startedAt, tables.checkpoint)]),
      traversals + [Traversal(None, [])])
  {
    hide IsChain;
    assert IsChain(None, [], NewCycle(startedAt, tables.checkpoint)) by {
      EmptyChain(startedAt, tables.checkpoint);
    }
    if tables.checkpoint.Some? {
      var i :| 0 <= i < |tables.cycles| && !tables.cycles[i].Active()
        && tables.cycles[i].startedAt == tables.checkpoint.value;
      assert (tables.cycles + [NewCycle(startedAt, tables.checkpoint)])[i] == tables.cycles[i];
    }
  }

  lemma EmptyChain(startedAt: Time, checkpoint: Option<Time>)
    ensures IsChain(None, [], NewCycle(startedAt, checkpoint))
  {
  }

  /** Changing only an active cycle's discovery state. */
  lemma DiscoveryKeeps(tables: SyncTables, traversals: seq<Traversal>, id: nat, cycle: Cycle, traversal: Traversal)
    requires SyncValid(tables, traversals) && IsActive(tables, id)
    requires cycle.Active() && cycle.startedAt == tables.cycles[id - 1].startedAt
    requires IsChain(traversal.initial, traversal.pages, cycle)
    ensures SyncValid(tables.(cycles := tables.cycles[id - 1 := cycle]), traversals[id - 1 := traversal])
  {
    hide IsChain;
    if tables.checkpoint.Some? {
      var i :| 0 <= i < |tables.cycles| && !tables.cycles[i].Active()
        && tables.cycles[i].startedAt == tables.checkpoint.value;
      assert tables.cycles[id - 1 := cycle][i] == tables.cycles[i];
    }
  }

  function Begun(cycle: Cycle, initial: string): Cycle {
    cycle.(discoveryStarted := true, cursor := Some(initial))
  }

  function Advanced(cycle: Cycle, next: Option<string>, count: nat): Cycle {
    cycle.(cursor := next, discoveryComplete := next.None?, pages := cycle.pages + 1, discovered := cycle.discovered + count)
  }

  lemma BeginChain(cycle: Cycle, traversal: Traversal, initial: string)
    requires IsChain(traversal.initial, traversal.pages, cycle) && !cycle.discoveryStarted
    ensures IsChain(Some(initial), traversal.pages, Begun(cycle, initial))
  {
  }

  lemma ExtendChain(cycle: Cycle, traversal: Traversal, request: string, next: Option<string>, count: nat)
    requires IsChain(traversal.initial, traversal.pages, cycle)
    requires cycle.discoveryStarted && cycle.cursor == Some(request)
    ensures IsChain(traversal.initial, traversal.pages + [Page(request, next)], Advanced(cycle, next, count))
  {
  }

  /** Cursors handed out by a traversal never come back to an earlier one. */
  ghost predicate DistinctCursors(traversal: Traversal) {
    var pages := traversal.pages;
    && (forall i, j :: 0 <= i < j < |pages| - 1 ==> pages[i].next != pages[j].next)
    && (forall i :: 0 <= i < |pages| - 1 ==> pages[i].next != traversal.initial)
  }

  /** Main result about discovery: once it is complete, the pages lead from the initial cursor to the
  terminal response without a gap, and with distinct cursors each was consumed exactly once. */
  lemma CompleteTraversal(cycle: Cycle, traversal: Traversal)
    requires IsChain(traversal.initial, traversal.pages, cycle) && cycle.discoveryComplete
    ensures var pages := traversal.pages;
      && pages != [] && traversal.initial == Some(pages[0].request) && pages[|pages| - 1].next.None?
      && (forall i :: 0 <= i < |pages| - 1 ==> pages[i].next == Some(pages[i + 1].request))
      && (DistinctCursors(traversal) ==> forall i, j :: 0 <= i < j < |pages| ==> pages[i].request != pages[j].request)
  {
    var pages := traversal.pages;
    if DistinctCursors(traversal) {
      forall i, j | 0 <= i < j < |pages| ensures pages[i].request != pages[j].request {
        assert pages[j - 1].next == Some(pages[j].request);
        assert i > 0 ==> pages[i - 1].next == Some(pages[i].request);
      }
    }
  }

  // ---- Items and tasks of a page ----

  /** Upserting a catalog entry: a later observation window replaces an earlier one. */
  function PutItem(items: map<(nat, nat), Item>, cycle: nat, draft: ItemDraft): map<(nat, nat), Item>
    requires draft.number >= 1
  {
    var key := (cycle, draft.number);
    if key in items && items[key].observedUntil > draft.item.observedUntil then items else items[key := draft.item]
  }

  ghost predicate IsDrafted(drafts: seq<ItemDraft>, cycle: nat, key: (nat, nat), item: Item) {
    exists i :: 0 <= i < |drafts| && key == (cycle, drafts[i].number) && item == drafts[i].item
  }

  predicate IsAbout(draft: ItemDraft, cycle: nat, key: (nat, nat)) {
    cycle == key.0 && draft.number == key.1
  }

  /** Each entry is the one observed last, whether stored before or drafted, and of those the last one. */
  ghost predicate AreLatest(items: map<(nat, nat), Item>, cycle: nat, drafts: seq<ItemDraft>, r: map<(nat, nat), Item>) {
    && (forall key :: key in r <==> key in items || exists i :: 0 <= i < |drafts| && IsAbout(drafts[i], cycle, key))
    && forall key :: key in r ==> IsLatestItem(items, cycle, drafts, key, r[key])
  }

  ghost predicate IsLatestItem(items: map<(nat, nat), Item>, cycle: nat, drafts: seq<ItemDraft>, key: (nat, nat), item: Item) {
    || (key in items && item == items[key] && forall j :: 0 <= j < |drafts| && IsAbout(drafts[j], cycle, key) ==>
         drafts[j].item.observedUntil < item.observedUntil)
    || (exists i :: IsLatestDraft(items, cycle, drafts, key, item, i))
  }

  ghost predicate IsLatestDraft(items: map<(nat, nat), Item>, cycle: nat, drafts: seq<ItemDraft>, key: (nat, nat), item: Item,
                                i: nat)
  {
    && i < |drafts| && IsAbout(drafts[i], cycle, key) && item == drafts[i].item
    && (key in items ==> items[key].observedUntil <= item.observedUntil)
    && forall j :: 0 <= j < |drafts| && IsAbout(drafts[j], cycle, key) ==>
         && drafts[j].item.observedUntil <= item.observedUntil
         && (i < j ==> drafts[j].item.observedUntil < item.observedUntil)
  }

  lemma OneMoreLatest(items: map<(nat, nat), Item>, cycle: nat, drafts: seq<ItemDraft>, draft: ItemDraft,
                      r: map<(nat, nat), Item>)
    requires AreLatest(items, cycle, drafts, r) && draft.number >= 1
    ensures AreLatest(items, cycle, drafts + [draft], PutItem(r, cycle, draft))
  {
    var more, after, n := drafts + [draft], PutItem(r, cycle, draft), |drafts|;
    forall key ensures key in after <==> key in items || exists i :: 0 <= i < |more| && IsAbout(more[i], cycle, key) {
      assert IsAbout(more[n], cycle, (cycle, draft.number));
      assert forall i :: 0 <= i < n ==> more[i] == drafts[i];
    }
    forall key | key in after ensures IsLatestItem(items, cycle, more, key, after[key]) {
      LatestItemNow(items, cycle, drafts, draft, r, key);
    }
  }

  lemma LatestItemNow(items: map<(nat, nat), Item>, cycle: nat, drafts: seq<ItemDraft>, draft: ItemDraft,
                      r: map<(nat, nat), Item>, key: (nat, nat))
    requires AreLatest(items, cycle, drafts, r) && draft.number >= 1 && key in PutItem(r, cycle, draft)
    ensures IsLatestItem(items, cycle, drafts + [draft], key, PutItem(r, cycle, draft)[key])
  {
    var more, item, n := drafts + [draft], PutItem(r, cycle, draft)[key], |drafts|;
    assert forall i :: 0 <= i < n ==> more[i] == drafts[i];
    if key in r && item == r[key] && (IsAbout(draft, cycle, key) ==> draft.item.observedUntil < item.observedUntil) {
      if i :| IsLatestDraft(items, cycle, drafts, key, item, i) {
        assert IsLatestDraft(items, cycle, more, key, item, i);
      }
    } else {
      assert IsLatestDraft(items, cycle, more, key, item, n);
    }
  }

  method PutItems(items: map<(nat, nat), Item>, cycle: nat, drafts: seq<ItemDraft>) returns (r: map<(nat, nat), Item>)
    requires forall i :: 0 <= i < |drafts| ==> ValidItem(drafts[i])
    ensures AreLatest(items, cycle, drafts, r)
    ensures forall key :: key in items ==> key in r && r[key].observedUntil >= items[key].observedUntil
    ensures forall i :: 0 <= i < |drafts| ==>
      (cycle, drafts[i].number) in r && r[(cycle, drafts[i].number)].observedUntil >= drafts[i].item.observedUntil
    ensures forall key :: key in r ==>
      (key in items && r[key] == items[key]) || IsDrafted(drafts, cycle, key, r[key])
  {
    hide AreLatest, IsDrafted, PutItem;
    r := items;
    NothingDrafted(items, cycle);
    for n := 0 to |drafts|
      invariant AreLatest(items, cycle, drafts[..n], r)
    {
      OneMoreLatest(items, cycle, drafts[..n], drafts[n], r);
      assert drafts[..n + 1] == drafts[..n] + [drafts[n]];
      r := PutItem(r, cycle, drafts[n]);
    }
    assert drafts[..|drafts|] == drafts;
    LatestAreKept(items, cycle, drafts, r);
  }

  lemma NothingDrafted(items: map<(nat, nat), Item>, cycle: nat)
    ensures AreLatest(items, cycle, [], items)
  {
  }

  lemma LatestAreKept(items: map<(nat, nat), Item>, cycle: nat, drafts: seq<ItemDraft>, r: map<(nat, nat), Item>)
    requires AreLatest(items, cycle, drafts, r) && forall i :: 0 <= i < |drafts| ==> ValidItem(drafts[i])
    ensures forall key :: key in items ==> key in r && r[key].observedUntil >= items[key].observedUntil
    ensures forall i :: 0 <= i < |drafts| ==>
      (cycle, drafts[i].number) in r && r[(cycle, drafts[i].number)].observedUntil >= drafts[i].item.observedUntil
    ensures forall key :: key in r ==>
      (key in items && r[key] == items[key]) || IsDrafted(drafts, cycle, key, r[key])
  {
    forall i | 0 <= i < |drafts|
      ensures (cycle, drafts[i].number) in r
      ensures r[(cycle, drafts[i].number)].observedUntil >= drafts[i].item.observedUntil
    {
      var key := (cycle, drafts[i].number);
      assert IsAbout(drafts[i], cycle, key);
      assert IsLatestItem(items, cycle, drafts, key, r[key]);
    }
    forall key | key in r ensures (key in items && r[key] == items[key]) || IsDrafted(drafts, cycle, key, r[key]) {
      assert IsLatestItem(items, cycle, drafts, key, r[key]);
    }
  }

  function FindTask(tasks: seq<Task>, cycle: nat, key: string): (r: Option<nat>)
    ensures r.Some? ==> r.value < |tasks| && tasks[r.value].cycle == cycle && tasks[r.value].draft.key == key
    ensures r.None? ==> forall t :: 0 <= t < |tasks| ==> tasks[t].cycle != cycle || tasks[t].draft.key != key
  {
    if tasks == [] then None
    else if tasks[|tasks| - 1].cycle == cycle && tasks[|tasks| - 1].draft.key == key then Some(|tasks| - 1)
    else FindTask(tasks[..|tasks| - 1], cycle, key)
  }

  ghost predicate HasTask(tasks: seq<Task>, cycle: nat, draft: TaskDraft) {
    exists t :: 0 <= t < |tasks| && tasks[t].cycle == cycle && tasks[t].draft == draft
  }

  /** The tasks of an active cycle after adding more work. */
  ghost predicate TasksExtend(tables: SyncTables, tasks: seq<Task>, cycle: nat, drafts: seq<TaskDraft>) {
    && tables.tasks <= tasks
    && (forall t :: |tables.tasks| <= t < |tasks| ==>
         tasks[t].cycle == cycle && tasks[t].completedAt.None? && tasks[t].attempts == 0 && tasks[t].draft in drafts)
    && (forall i :: 0 <= i < |drafts| ==> HasTask(tasks, cycle, drafts[i]))
    && TaskKeysAreUnique(tasks)
  }

  /** _insert_task for each draft; None when a key has another definition. */
  method InsertTasks(tables: SyncTables, cycle: nat, drafts: seq<TaskDraft>) returns (r: Option<seq<Task>>)
    requires TaskKeysAreUnique(tables.tasks)
    ensures r.Some? ==> TasksExtend(tables, r.value, cycle, drafts)
    ensures r.None? ==> Conflicts(tables.tasks, cycle, drafts)
  {
    var tasks := tables.tasks;
    for n := 0 to |drafts|
      invariant tables.tasks <= tasks && TaskKeysAreUnique(tasks)
      invariant forall t :: |tables.tasks| <= t < |tasks| ==>
        tasks[t].cycle == cycle && tasks[t].completedAt.None? && tasks[t].attempts == 0 && tasks[t].draft in drafts[..n]
      invariant forall i :: 0 <= i < n ==> HasTask(tasks, cycle, drafts[i])
    {
      var found := FindTask(tasks, cycle, drafts[n].key);
      if found.Some? {
        if tasks[found.value].draft != drafts[n] {
          ConflictAt(tables.tasks, tasks, cycle, drafts, n, found.value);
          return None;
        }
      } else {
        var more := tasks + [Task(cycle, drafts[n], None, 0, None)];
        forall draft | HasTask(tasks, cycle, draft) ensures HasTask(more, cycle, draft) {
          var t :| 0 <= t < |tasks| && tasks[t].cycle == cycle && tasks[t].draft == draft;
          assert more[t] == tasks[t];
        }
        tasks := more;
        assert tasks[|tasks| - 1].draft == drafts[n];
      }
    }
    assert drafts[..|drafts|] == drafts;
    r := Some(tasks);
  }

  /** A draft reuses a key with another definition, of a stored task or of another draft. */
  ghost predicate Conflicts(tasks: seq<Task>, cycle: nat, drafts: seq<TaskDraft>) {
    exists i :: 0 <= i < |drafts| && (
      || (exists t :: 0 <= t < |tasks| && tasks[t].cycle == cycle && tasks[t].draft.key == drafts[i].key
            && tasks[t].draft != drafts[i])
      || (exists j :: 0 <= j < i && drafts[j].key == drafts[i].key && drafts[j] != drafts[i]))
  }

  lemma ConflictAt(before: seq<Task>, tasks: seq<Task>, cycle: nat, drafts: seq<TaskDraft>, n: nat, found: nat)
    requires n < |drafts| && found < |tasks| && before <= tasks
    requires tasks[found].cycle == cycle && tasks[found].draft.key == drafts[n].key && tasks[found].draft != drafts[n]
    requires found >= |before| ==> tasks[found].draft in drafts[..n]
    ensures Conflicts(before, cycle, drafts)
  {
  }

  lemma TasksKeep(tables: SyncTables, traversals: seq<Traversal>, id: nat, tasks: seq<Task>, drafts: seq<TaskDraft>)
    requires SyncValid(tables, traversals) && IsActive(tables, id) && TasksExtend(tables, tasks, id, drafts)
    ensures SyncValid(tables.(tasks := tasks), traversals)
  {
    hide ChainsHold, OneActive, CheckpointIsGreatest;
  }

  // ---- Completion ----

  predicate HasPending(tasks: seq<Task>, cycle: nat) {
    exists t | 0 <= t < |tasks| :: tasks[t].cycle == cycle && tasks[t].completedAt.None?
  }

  /** The upsert of the checkpoint: it never moves back. */
  function Raised(checkpoint: Option<Time>, startedAt: Time): Option<Time> {
    if checkpoint.None? || checkpoint.value <= startedAt then Some(startedAt) else checkpoint
  }

  lemma CompletionKeeps(tables: SyncTables, traversals: seq<Traversal>, id: nat, completedAt: Time)
    requires SyncValid(tables, traversals) && IsActive(tables, id)
    requires tables.cycles[id - 1].discoveryComplete && !HasPending(tables.tasks, id)
    ensures var done := tables.cycles[id - 1].(completedAt := Some(completedAt));
      var checkpoint := Raised(tables.checkpoint, done.startedAt);
      && SyncValid(tables.(cycles := tables.cycles[id - 1 := done], checkpoint := checkpoint), traversals)
      && checkpoint == Some(done.startedAt)
      && (tables.checkpoint.Some? ==> tables.checkpoint.value <= done.startedAt)
  {
    hide IsChain, TaskKeysAreUnique;
    var done := tables.cycles[id - 1].(completedAt := Some(completedAt));
    var cycles := tables.cycles[id - 1 := done];
    CompletedChain(tables.cycles[id - 1], traversals[id - 1], completedAt);
    forall t | 0 <= t < |tables.tasks| ensures tables.tasks[t].completedAt.Some? {
      var task := tables.tasks[t];
      assert task.completedAt.Some? || task.cycle == id;
    }
    assert !cycles[id - 1].Active() && cycles[id - 1].startedAt == done.startedAt;
  }

  lemma CompletedChain(cycle: Cycle, traversal: Traversal, completedAt: Time)
    requires IsChain(traversal.initial, traversal.pages, cycle)
    ensures IsChain(traversal.initial, traversal.pages, cycle.(completedAt := Some(completedAt)))
  {
  }

  /** A task completed or retried in place. */
  lemma TaskUpdateKeeps(tables: SyncTables, traversals: seq<Traversal>, t: nat, task: Task)
    requires SyncValid(tables, traversals) && t < |tables.tasks|
    requires task.cycle == tables.tasks[t].cycle && task.draft == tables.tasks[t].draft
    requires task.completedAt.None? ==> tables.tasks[t].completedAt.None?
    ensures SyncValid(tables.(tasks := tables.tasks[t := task]), traversals)
  {
    hide ChainsHold, OneActive, CheckpointIsGreatest;
  }
}
