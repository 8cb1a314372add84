/** The structured-commit backfill: a frozen population of sources and commits, cut into tasks, run in
two stages until every task is complete. */
module Backfill {
  import opened Collections
  import opened Wrappers
  import opened Orders
  import opened Text
  import opened Facts
  import opened Cycles
  import opened Jobs
  import opened Observations

  const SCAN_KIND := "commit-reference-scan-batch"
  const COMMIT_KIND := "commit-object-batch"
  const TASK_SIZE: nat := 256
  const BACKFILL_PREFIX := "backfill:"
  const NO_RESOURCE: nat := 0x7fff_ffff_ffff_ffff

  /** The payload of a task. */
  datatype Scope = ScanScope(cutoff: nat, ids: seq<nat>) | CommitScope(cutoff: nat, shas: seq<string>)

  /** What the archive's contract fixes: which families are sources, what they refer to, and how payloads,
  task inputs and keys are written. */
  datatype Contract = Contract(
    families: string -> bool, extract: FactDraft -> Option<seq<Reference>>, digest: Payload -> string,
    encode: Scope -> string, decode: string -> Option<Scope>, taskKey: (string, nat) -> string,
    scanKey: (nat, nat, nat) -> string, commitKey: (nat, nat) -> string,
    scopeOf: (seq<Observation>, Plan) -> string, requested: string -> bool, populationKey: (nat, string) -> string)
  {
    /** Inputs read back; keys of different tasks and operations differ; a scope names the request it was
    made for, and a job without a caller is named after its scope. */
    ghost predicate Sound() {
      && (forall scope :: decode(encode(scope)) == Some(scope))
      && (forall k, i, l, j :: taskKey(k, i) == taskKey(l, j) ==> k == l && i == j)
      && (forall k, i :: taskKey(k, i) != "")
      && (forall a, b, c, x, y, z :: scanKey(a, b, c) == scanKey(x, y, z) ==> a == x && b == y && c == z)
      && (forall a, b, x, y :: commitKey(a, b) == commitKey(x, y) ==> a == x && b == y)
      && (forall a, b, c, x, y :: scanKey(a, b, c) != commitKey(x, y))
      && (forall observations, plan :: requested(scopeOf(observations, plan)))
      && (forall cutoff, scope :: BACKFILL_PREFIX <= populationKey(cutoff, scope))
    }
  }

  // ---- What the baseline promises ----

  /** A complete raw fact of a family that names commits. */
  predicate IsSource(contract: Contract, fact: FactDraft) {
    fact.coverage == Complete && contract.families(fact.family)
  }

  /** The derived fact of one source. */
  function ScanFact(contract: Contract, id: nat, source: FactDraft, references: seq<Reference>): FactDraft {
    var payloadDigest := contract.digest(source.payload);
    FactDraft("commit-references", 1, "payload:" + payloadDigest, source.resource, Some(payloadDigest), "derived",
      source.observedFrom, source.observedUntil, Complete,
      Payload("StructuredCommitReferenceScan", Some(references), Some(Source(id, source.family, payloadDigest))))
  }

  /** `fact` is a scan of source `id` with exactly the references that the source names. */
  predicate IsScanOf(contract: Contract, fact: FactDraft, id: nat, source: FactDraft) {
    && IsIndexed(fact) && fact.payload.references.Some? && fact.payload.references == contract.extract(source)
    && fact.payload.source == Some(Source(id, source.family, contract.digest(source.payload)))
    && fact.sourceDigest == Some(contract.digest(source.payload))
  }

  ghost predicate HasScan(contract: Contract, observations: seq<Observation>, id: nat) {
    1 <= id <= |observations| &&
    exists i :: 0 <= i < |observations| && IsScanOf(contract, observations[i].fact, id, observations[id - 1].fact)
  }

  predicate IsCommitObject(fact: FactDraft, sha: string) {
    fact.family == "commit-object" && fact.schemaVersion == 2 && fact.subject == "commit:" + sha
  }

  ghost predicate HasCommit(observations: seq<Observation>, sha: string) {
    exists i :: 0 <= i < |observations| && IsCommitObject(observations[i].fact, sha)
  }

  predicate Mentions(contract: Contract, fact: FactDraft, sha: string) {
    contract.extract(fact).Some? && exists i | 0 <= i < |contract.extract(fact).value| ::
      contract.extract(fact).value[i].sha == sha
  }

  /** Every source up to the cutoff has a matching scan, and every commit it names a reconstruction. */
  ghost predicate Baseline(contract: Contract, observations: seq<Observation>, cutoff: nat) {
    cutoff <= |observations| && forall id :: 1 <= id <= cutoff ==> SourceDone(contract, observations, id)
  }

  ghost predicate SourceDone(contract: Contract, observations: seq<Observation>, id: nat)
    requires 1 <= id <= |observations|
  {
    var source := observations[id - 1].fact;
    source.coverage == Complete && contract.families(source.family) ==>
      && (exists i :: 0 <= i < |observations| && ScansSource(contract, observations[i].fact, id, source))
      && (contract.extract(source).Some? ==> forall k :: 0 <= k < |contract.extract(source).value| ==>
        IsReconstructed(observations, contract.extract(source).value[k].sha))
  }

  /** A complete commit-references observation with the references, the identity and the digest of the source. */
  predicate ScansSource(contract: Contract, scan: FactDraft, id: nat, source: FactDraft) {
    && scan.family == "commit-references" && scan.coverage == Complete
    && scan.payload.references.Some? && scan.payload.references == contract.extract(source)
    && scan.payload.source.Some? && scan.payload.source.value.observation == id
    && scan.payload.source.value.family == source.family
    && scan.payload.source.value.payloadDigest == contract.digest(source.payload)
    && scan.sourceDigest == Some(contract.digest(source.payload))
  }

  /** A commit-object observation of schema 2 is about the commit. */
  ghost predicate IsReconstructed(observations: seq<Observation>, sha: string) {
    exists i :: 0 <= i < |observations| && observations[i].fact.family == "commit-object"
      && observations[i].fact.schemaVersion == 2 && observations[i].fact.subject == "commit:" + sha
  }

  lemma SourceIsDone(contract: Contract, observations: seq<Observation>, id: nat)
    requires 1 <= id <= |observations|
    requires IsSource(contract, observations[id - 1].fact) ==>
      && HasScan(contract, observations, id)
      && forall sha :: Mentions(contract, observations[id - 1].fact, sha) ==> HasCommit(observations, sha)
    ensures SourceDone(contract, observations, id)
  {
    var source := observations[id - 1].fact;
    if IsSource(contract, source) {
      var i :| 0 <= i < |observations| && IsScanOf(contract, observations[i].fact, id, source);
      assert ScansSource(contract, observations[i].fact, id, source);
      if contract.extract(source).Some? {
        forall k | 0 <= k < |contract.extract(source).value|
          ensures IsReconstructed(observations, contract.extract(source).value[k].sha)
        {
          var sha := contract.extract(source).value[k].sha;
          assert Mentions(contract, source, sha);
          assert HasCommit(observations, sha);
        }
      }
    }
  }

  // ---- What the added observations say ----

  /** The fact records what reconstructing the commit gave. */
  predicate IsReconstruction(retain: string -> (Outcome, Payload), now: Time, fact: FactDraft, sha: string) {
    && IsCommitObject(fact, sha) && fact.coverage == retain(sha).0 && fact.payload == retain(sha).1
    && fact.resource.None? && fact.sourceDigest.None? && fact.origin == "git"
    && fact.observedFrom == now && fact.observedUntil == now
  }

  /** The fact is a scan of the source, about its payload, resource and window. */
  predicate IsDerived(contract: Contract, fact: FactDraft, id: nat, source: FactDraft) {
    && IsScanOf(contract, fact, id, source)
    && fact.subject == "payload:" + contract.digest(source.payload) && fact.resource == source.resource
    && fact.observedFrom == source.observedFrom && fact.observedUntil == source.observedUntil
    && fact.schemaVersion == 1 && fact.coverage == Complete && fact.origin == "derived"
  }

  ghost predicate Says(contract: Contract, retain: string -> (Outcome, Payload), now: Time, observations: seq<Observation>,
                       i: nat)
    requires i < |observations|
  {
    || (exists sha :: IsReconstruction(retain, now, observations[i].fact, sha))
    || (exists id :: DerivedFrom(contract, observations, i, id))
  }

  predicate DerivedFrom(contract: Contract, observations: seq<Observation>, i: nat, id: nat)
    requires i < |observations|
  {
    1 <= id <= i && IsDerived(contract, observations[i].fact, id, observations[id - 1].fact)
  }

  /** Everything added is a reconstruction of some commit or a scan of an earlier source. */
  ghost predicate Adds(contract: Contract, retain: string -> (Outcome, Payload), now: Time, before: seq<Observation>,
                       after: seq<Observation>)
  {
    before <= after && forall i :: |before| <= i < |after| ==> Says(contract, retain, now, after, i)
  }

  lemma AddsNothing(contract: Contract, retain: string -> (Outcome, Payload), now: Time, observations: seq<Observation>)
    ensures Adds(contract, retain, now, observations, observations)
  {
  }

  lemma AddsOn(contract: Contract, retain: string -> (Outcome, Payload), now: Time, a: seq<Observation>,
               b: seq<Observation>, c: seq<Observation>)
    requires Adds(contract, retain, now, a, b) && Adds(contract, retain, now, b, c)
    ensures Adds(contract, retain, now, a, c)
  {
    hide IsReconstruction, IsDerived;
    forall i | |a| <= i < |c| ensures Says(contract, retain, now, c, i) {
      if i < |b| {
        assert Says(contract, retain, now, b, i);
        assert forall k :: 0 <= k < |b| ==> c[k] == b[k];
        if id :| DerivedFrom(contract, b, i, id) {
          assert DerivedFrom(contract, c, i, id);
        }
      }
    }
  }

  lemma ScanAdds(contract: Contract, retain: string -> (Outcome, Payload), now: Time, before: FactTables,
                 after: FactTables, key: string, id: nat, references: seq<Reference>, ok: bool)
    requires 1 <= id <= |before.observations|
    requires var source := before.observations[id - 1].fact;
      && contract.extract(source) == Some(references)
      && OncePublished(before, after, key, [ScanFact(contract, id, source, references)], ok)
    ensures Adds(contract, retain, now, before.observations, after.observations)
  {
    hide IsReconstruction, FindBatch;
    var n, source := |before.observations|, before.observations[id - 1].fact;
    forall i | n <= i < |after.observations| ensures Says(contract, retain, now, after.observations, i) {
      assert i == n && after.observations[n].fact == ScanFact(contract, id, source, references);
      assert IsScanOf(contract, after.observations[n].fact, id, source);
      assert after.observations[id - 1] == before.observations[id - 1];
      assert DerivedFrom(contract, after.observations, n, id);
    }
    assert before.observations <= after.observations;
  }

  lemma CommitsAdd(contract: Contract, retain: string -> (Outcome, Payload), now: Time, before: FactTables,
                   after: FactTables, key: string, shas: seq<string>, drafts: seq<FactDraft>, ok: bool)
    requires |drafts| == |shas| && forall i :: 0 <= i < |shas| ==> IsReconstruction(retain, now, drafts[i], shas[i])
    requires OncePublished(before, after, key, drafts, ok)
    ensures Adds(contract, retain, now, before.observations, after.observations)
    ensures ok && FindBatch(before.batches, key).None? ==> Reconstructs(retain, now, before.observations, after.observations, shas)
  {
    hide IsReconstruction, IsDerived, Rows, FindBatch;
    var n := |before.observations|;
    forall i | n <= i < |after.observations|
      ensures i - n < |shas| && IsReconstruction(retain, now, after.observations[i].fact, shas[i - n])
    {
      assert after.observations[i].fact == drafts[i - n];
    }
    assert before.observations <= after.observations;
    forall i | n <= i < |after.observations| ensures Says(contract, retain, now, after.observations, i) {
      assert IsReconstruction(retain, now, after.observations[i].fact, shas[i - n]);
    }
  }

  /** One observation for each commit, which says what was reconstructed. */
  ghost predicate Reconstructs(retain: string -> (Outcome, Payload), now: Time, before: seq<Observation>,
                               after: seq<Observation>, shas: seq<string>)
  {
    && |after| == |before| + |shas| && before <= after
    && forall i :: 0 <= i < |shas| ==> IsReconstruction(retain, now, after[|before| + i].fact, shas[i])
  }

  /** So a commit-object observation that was added has the coverage and the payload of its commit. */
  lemma AddedCommitIsTrue(contract: Contract, retain: string -> (Outcome, Payload), now: Time, before: seq<Observation>,
                          after: seq<Observation>, i: nat, sha: string)
    requires Adds(contract, retain, now, before, after) && |before| <= i < |after|
    requires after[i].fact.family == "commit-object" && after[i].fact.subject == "commit:" + sha
    ensures after[i].fact.coverage == retain(sha).0 && after[i].fact.payload == retain(sha).1
  {
    assert Says(contract, retain, now, after, i);
    if other :| IsReconstruction(retain, now, after[i].fact, other) {
      assert ("commit:" + other)[7..] == other && ("commit:" + sha)[7..] == sha;
    }
  }

  /** The scope of the task fits its kind: complete raw facts up to the cutoff, or distinct commits. */
  ghost predicate IsExecutable(contract: Contract, observations: seq<Observation>, draft: TaskDraft) {
    match contract.decode(draft.input)
    case Some(ScanScope(cutoff, ids)) =>
      draft.kind == SCAN_KIND && ids != [] && forall i :: 0 <= i < |ids| ==>
        && 1 <= ids[i] <= cutoff && ids[i] <= |observations|
        && observations[ids[i] - 1].fact.coverage == Complete && contract.families(observations[ids[i] - 1].fact.family)
    case Some(CommitScope(_, shas)) => draft.kind == COMMIT_KIND && shas != [] && Distinct(shas)
    case None => false
  }

  lemma CommitIsExecutable(contract: Contract, observations: seq<Observation>, draft: TaskDraft, cutoff: nat,
                           shas: seq<string>)
    requires draft.kind == COMMIT_KIND && contract.decode(draft.input) == Some(CommitScope(cutoff, shas))
    requires shas != [] && Distinct(shas)
    ensures IsExecutable(contract, observations, draft)
  {
  }

  /** A commit task ends with the worst outcome of its commits, every other one complete. */
  ghost predicate OutcomeSays(contract: Contract, retain: string -> (Outcome, Payload), draft: TaskDraft, outcome: Outcome) {
    match contract.decode(draft.input)
    case Some(CommitScope(_, shas)) =>
      && (shas != [] ==> exists i :: 0 <= i < |shas| && retain(shas[i]).0 == outcome)
      && (shas == [] ==> outcome == Complete)
      && forall i :: 0 <= i < |shas| ==> OutcomeRank(retain(shas[i]).0) <= OutcomeRank(outcome)
    case _ => outcome == Complete
  }

  /** Tasks that became complete say how they ended, and the others stay as they ended. */
  ghost predicate TasksSay(contract: Contract, retain: string -> (Outcome, Payload), before: seq<JobTask>, after: seq<JobTask>) {
    && |after| == |before|
    && forall t :: 0 <= t < |before| ==> TaskSays(contract, retain, before[t], after[t])
  }

  ghost predicate TaskSays(contract: Contract, retain: string -> (Outcome, Payload), before: JobTask, after: JobTask) {
    && after.draft == before.draft
    && (before.completedAt.Some? ==> after.completedAt.Some? && after.outcome == before.outcome)
    && (before.completedAt.None? && after.completedAt.Some? ==>
      after.outcome.Some? && OutcomeSays(contract, retain, after.draft, after.outcome.value))
  }

  lemma SaysNothing(contract: Contract, retain: string -> (Outcome, Payload), tasks: seq<JobTask>)
    ensures TasksSay(contract, retain, tasks, tasks)
  {
  }

  lemma SaysOn(contract: Contract, retain: string -> (Outcome, Payload), a: seq<JobTask>, b: seq<JobTask>, c: seq<JobTask>)
    requires TasksSay(contract, retain, a, b) && TasksSay(contract, retain, b, c)
    ensures TasksSay(contract, retain, a, c)
  {
    hide OutcomeSays;
  }

  /** Nothing but pending tasks was added. */
  ghost predicate AddsPending(before: seq<JobTask>, after: seq<JobTask>) {
    before <= after && forall t :: |before| <= t < |after| ==> after[t].completedAt.None?
  }

  /** The same across the start of a job. */
  ghost predicate EndsSay(contract: Contract, retain: string -> (Outcome, Payload), before: seq<JobTask>, after: seq<JobTask>) {
    && |before| <= |after| && TasksSay(contract, retain, before, after[..|before|])
    && forall t :: |before| <= t < |after| && after[t].completedAt.Some? ==>
         after[t].outcome.Some? && OutcomeSays(contract, retain, after[t].draft, after[t].outcome.value)
  }

  lemma NothingPending(tasks: seq<JobTask>)
    ensures AddsPending(tasks, tasks)
  {
  }

  lemma StartIsPending(before: seq<JobTask>, after: seq<JobTask>)
    requires before <= after && forall t :: |before| <= t < |after| ==> after[t].completedAt.None?
    ensures AddsPending(before, after)
  {
  }

  lemma PendingEndsSay(contract: Contract, retain: string -> (Outcome, Payload), before: seq<JobTask>, started: seq<JobTask>,
                       after: seq<JobTask>)
    requires AddsPending(before, started) && TasksSay(contract, retain, started, after)
    ensures EndsSay(contract, retain, before, after)
  {
    hide OutcomeSays;
    forall t | 0 <= t < |after| ensures TaskSays(contract, retain, started[t], after[t]) {
    }
    forall t | 0 <= t < |before| ensures TaskSays(contract, retain, before[t], after[..|before|][t]) {
      assert TaskSays(contract, retain, started[t], after[t]);
    }
  }

  lemma ScanStays(contract: Contract, observations: seq<Observation>, more: seq<Observation>, id: nat)
    requires observations <= more && HasScan(contract, observations, id)
    ensures HasScan(contract, more, id)
  {
    hide IsScanOf;
    var i :| 0 <= i < |observations| && IsScanOf(contract, observations[i].fact, id, observations[id - 1].fact);
    assert more[i] == observations[i] && more[id - 1] == observations[id - 1];
  }

  lemma CommitStays(observations: seq<Observation>, more: seq<Observation>, sha: string)
    requires observations <= more && HasCommit(observations, sha)
    ensures HasCommit(more, sha)
  {
    var i :| 0 <= i < |observations| && IsCommitObject(observations[i].fact, sha);
    assert more[i] == observations[i];
  }

  // ---- The frozen population ----

  /** commit_reference_scans: sources that a valid derived scan names, with the scan's references. */
  function Scans(contract: Contract, observations: seq<Observation>, cutoff: nat): set<(Source, seq<Reference>)> {
    set i | 0 <= i < |observations| && ValidScan(contract, i + 1, observations[i].fact, cutoff) ::
      (observations[i].fact.payload.source.value, observations[i].fact.payload.references.value)
  }

  /** _commit_reference_scan_signature within the frozen range */
  predicate ValidScan(contract: Contract, id: nat, fact: FactDraft, cutoff: nat) {
    && IsIndexed(fact) && fact.payload.source.Some? && fact.payload.references.Some?
    && 1 <= fact.payload.source.value.observation <= cutoff && contract.families(fact.payload.source.value.family)
    && fact.sourceDigest == Some(fact.payload.source.value.payloadDigest) && ProvenanceOf(id, fact).Some?
  }

  lemma ScannedHasScan(contract: Contract, observations: seq<Observation>, cutoff: nat, id: nat)
    requires 1 <= id <= |observations| && contract.extract(observations[id - 1].fact).Some?
    requires var source := observations[id - 1].fact;
      (Source(id, source.family, contract.digest(source.payload)), contract.extract(source).value)
        in Scans(contract, observations, cutoff)
    ensures HasScan(contract, observations, id)
  {
    hide IsIndexed, ProvenanceOf;
    var source := observations[id - 1].fact;
    var i :| 0 <= i < |observations| && ValidScan(contract, i + 1, observations[i].fact, cutoff)
      && (observations[i].fact.payload.source.value, observations[i].fact.payload.references.value)
         == (Source(id, source.family, contract.digest(source.payload)), contract.extract(source).value);
    assert IsScanOf(contract, observations[i].fact, id, source);
  }

  /** checked_commits */
  function Checked(observations: seq<Observation>, cutoff: nat): set<string>
    requires cutoff <= |observations|
  {
    set i | 0 <= i < cutoff && observations[i].fact.family == "commit-object" && observations[i].fact.schemaVersion == 2 ::
      observations[i].fact.subject
  }

  datatype Plan = Plan(cutoff: nat, missing: seq<nat>, pending: seq<string>)

  ghost predicate PlanCovers(contract: Contract, observations: seq<Observation>, plan: Plan) {
    && plan.cutoff <= |observations|
    && (forall i, j :: 0 <= i < j < |plan.missing| ==> plan.missing[i] < plan.missing[j])
    && (forall id :: id in plan.missing ==> 1 <= id <= plan.cutoff && IsSource(contract, observations[id - 1].fact))
    && (forall i, j :: 0 <= i < j < |plan.pending| ==> plan.pending[i] != plan.pending[j])
    && forall id :: 1 <= id <= plan.cutoff ==> SourceCovered(contract, observations, id, plan)
  }

  ghost predicate SourceCovered(contract: Contract, observations: seq<Observation>, id: nat, plan: Plan)
    requires 1 <= id <= |observations|
  {
    IsSource(contract, observations[id - 1].fact) ==>
      && (HasScan(contract, observations, id) || id in plan.missing)
      && forall sha :: Mentions(contract, observations[id - 1].fact, sha) ==>
           HasCommit(observations, sha) || sha in plan.pending
  }

  /** The first place where a commit is named: its resource and the source observation. */
  type Places = map<string, (nat, nat)>

  function ResourceOf(fact: FactDraft): nat {
    if fact.resource.Some? && fact.resource.value >= 0 then fact.resource.value else NO_RESOURCE
  }

  function Earlier(places: Places, sha: string, resource: nat, id: nat): Places {
    if sha in places && (places[sha].0 < resource || (places[sha].0 == resource && places[sha].1 <= id)) then places
    else places[sha := (resource, id)]
  }

  /** The inner loop of the population scan. */
  method NotePlaces(places: Places, references: seq<Reference>, resource: nat, id: nat) returns (r: Places)
    ensures r.Keys == places.Keys + set i | 0 <= i < |references| :: references[i].sha
    ensures forall sha :: sha in r ==>
      r[sha] == PlaceAfter(places, sha, exists i :: 0 <= i < |references| && references[i].sha == sha, (resource, id))
  {
    r := places;
    for i := 0 to |references|
      invariant PlacesAfter(places, references[..i], (resource, id), r)
    {
      assert references[..i + 1] == references[..i] + [references[i]];
      NotePlace(places, references[..i], references[i], resource, id, r);
      r := Earlier(r, references[i].sha, resource, id);
    }
    assert references[..|references|] == references;
  }

  /** The places once a source at `here` with these references is noted. */
  ghost predicate PlacesAfter(places: Places, references: seq<Reference>, here: (nat, nat), r: Places) {
    && (forall sha :: sha in r <==> sha in places || Names(references, sha))
    && forall sha :: sha in r ==> r[sha] == PlaceAfter(places, sha, Names(references, sha), here)
  }

  predicate Names(references: seq<Reference>, sha: string) {
    exists i | 0 <= i < |references| :: references[i].sha == sha
  }

  lemma NotePlace(places: Places, references: seq<Reference>, reference: Reference, resource: nat, id: nat, r: Places)
    requires PlacesAfter(places, references, (resource, id), r)
    ensures PlacesAfter(places, references + [reference], (resource, id), Earlier(r, reference.sha, resource, id))
  {
    var more := references + [reference];
    forall sha ensures Names(more, sha) <==> Names(references, sha) || sha == reference.sha {
      if Names(references, sha) {
        var i :| 0 <= i < |references| && references[i].sha == sha;
        assert more[i].sha == sha;
      }
      assert more[|references|] == reference;
    }
    hide Names;
  }

  /** The place of a commit once a source at `here` is noted, which may name it. */
  ghost function PlaceAfter(places: Places, sha: string, named: bool, here: (nat, nat)): (nat, nat) {
    if sha in places && (!named || PlaceAtMost(places[sha], here)) then places[sha] else here
  }

  /** The first n observations are accounted for. */
  ghost predicate Noted(contract: Contract, observations: seq<Observation>, n: nat, missing: seq<nat>, places: Places)
    requires n <= |observations|
  {
    && (forall i, j :: 0 <= i < j < |missing| ==> missing[i] < missing[j])
    && (forall i :: 0 <= i < |missing| ==>
         && 1 <= missing[i] <= n && IsSource(contract, observations[missing[i] - 1].fact)
         && !IsScanned(contract, observations, missing[i]))
    && (forall sha :: sha in places ==> IsFirstPlace(contract, observations, n, sha, places[sha]))
    && forall id :: 1 <= id <= n ==> SourceNoted(contract, observations, id, missing, places)
  }

  /** A readable scan of the source is there. */
  ghost predicate IsScanned(contract: Contract, observations: seq<Observation>, id: nat)
    requires 1 <= id <= |observations|
  {
    exists i :: 0 <= i < |observations| && ScansSource(contract, observations[i].fact, id, observations[id - 1].fact)
      && ProvenanceOf(i + 1, observations[i].fact).Some?
  }

  predicate PlaceAtMost(a: (nat, nat), b: (nat, nat)) {
    a.0 < b.0 || (a.0 == b.0 && a.1 <= b.1)
  }

  /** The least of the places where a source names the commit: by resource, then by observation. */
  ghost predicate IsFirstPlace(contract: Contract, observations: seq<Observation>, n: nat, sha: string, place: (nat, nat))
    requires n <= |observations|
  {
    && NamesAt(contract, observations, n, sha, place.1)
    && place.0 == ResourceOf(observations[place.1 - 1].fact)
    && forall id: nat :: NamesAt(contract, observations, n, sha, id) ==>
         PlaceAtMost(place, (ResourceOf(observations[id - 1].fact), id))
  }

  predicate NamesAt(contract: Contract, observations: seq<Observation>, n: nat, sha: string, id: nat)
    requires n <= |observations|
  {
    1 <= id <= n && IsSource(contract, observations[id - 1].fact) && Mentions(contract, observations[id - 1].fact, sha)
  }

  ghost predicate SourceNoted(contract: Contract, observations: seq<Observation>, id: nat, missing: seq<nat>,
                              places: Places)
    requires 1 <= id <= |observations|
  {
    IsSource(contract, observations[id - 1].fact) ==>
      && (HasScan(contract, observations, id) || id in missing)
      && forall sha :: Mentions(contract, observations[id - 1].fact, sha) ==> sha in places
  }

  /** No source is malformed. */
  predicate SourcesAreReadable(contract: Contract, observations: seq<Observation>) {
    forall i | 0 <= i < |observations| :: IsSource(contract, observations[i].fact) ==>
      contract.extract(observations[i].fact).Some?
  }

  /** The population scan of backfill, over the frozen range; None when a source is malformed. */
  method FindPopulation(contract: Contract, observations: seq<Observation>)
    returns (r: Option<(seq<nat>, Places)>)
    ensures r.Some? ==> Noted(contract, observations, |observations|, r.value.0, r.value.1)
    ensures r.Some? <==> SourcesAreReadable(contract, observations)
  {
    hide IsSource, HasScan, Scans, Earlier, Noted;
    var scans := Scans(contract, observations, |observations|);
    var missing: seq<nat>, places: Places := [], map[];
    NothingNoted(contract, observations);
    for n := 0 to |observations|
      invariant Noted(contract, observations, n, missing, places)
      invariant SourcesAreReadable(contract, observations[..n])
    {
      var id, source := n + 1, observations[n].fact;
      var before := missing;
      if IsSource(contract, source) {
        var selected := contract.extract(source);
        if selected.None? {
          return None;
        }
        if (Source(id, source.family, contract.digest(source.payload)), selected.value) in scans {
          ScannedHasScan(contract, observations, |observations|, id);
        } else {
          UnscannedIsMissing(contract, observations, id);
          missing := missing + [id];
        }
        var noted := NotePlaces(places, selected.value, ResourceOf(source), id);
        NoteOneMore(contract, observations, n, before, missing, places, noted);
        places := noted;
      } else {
        NoteNothing(contract, observations, n, missing, places);
      }
    }
    r := Some((missing, places));
  }

  lemma UnscannedIsMissing(contract: Contract, observations: seq<Observation>, id: nat)
    requires 1 <= id <= |observations| && contract.extract(observations[id - 1].fact).Some?
    requires IsSource(contract, observations[id - 1].fact)
    requires var source := observations[id - 1].fact;
      (Source(id, source.family, contract.digest(source.payload)), contract.extract(source).value)
        !in Scans(contract, observations, |observations|)
    ensures !IsScanned(contract, observations, id)
  {
    hide ProvenanceOf;
    var source := observations[id - 1].fact;
    forall i | 0 <= i < |observations| && ScansSource(contract, observations[i].fact, id, source)
      ensures ProvenanceOf(i + 1, observations[i].fact).None?
    {
      var scan := observations[i].fact;
      assert scan.payload.source.value == Source(id, source.family, contract.digest(source.payload));
      assert ValidScan(contract, i + 1, scan, |observations|) <==> ProvenanceOf(i + 1, scan).Some?;
    }
  }

  lemma NothingNoted(contract: Contract, observations: seq<Observation>)
    ensures Noted(contract, observations, 0, [], map[])
  {
  }

  lemma NoteNothing(contract: Contract, observations: seq<Observation>, n: nat, missing: seq<nat>, places: Places)
    requires n < |observations| && Noted(contract, observations, n, missing, places)
    requires !IsSource(contract, observations[n].fact)
    ensures Noted(contract, observations, n + 1, missing, places)
  {
    hide HasScan, Mentions, IsScanned, ResourceOf;
    var m := n + 1;
    forall sha | sha in places ensures IsFirstPlace(contract, observations, m, sha, places[sha]) {
      assert IsFirstPlace(contract, observations, n, sha, places[sha]);
      assert NamesAt(contract, observations, n, sha, places[sha].1);
      assert NamesAt(contract, observations, m, sha, places[sha].1);
      forall id: nat | NamesAt(contract, observations, m, sha, id)
        ensures PlaceAtMost(places[sha], (ResourceOf(observations[id - 1].fact), id))
      {
        assert NamesAt(contract, observations, n, sha, id);
      }
    }
  }

  lemma NoteOneMore(contract: Contract, observations: seq<Observation>, n: nat, before: seq<nat>, missing: seq<nat>,
                    places: Places, noted: Places)
    requires n < |observations| && Noted(contract, observations, n, before, places)
    requires IsSource(contract, observations[n].fact) && contract.extract(observations[n].fact).Some?
    requires (missing == before + [n + 1] && !IsScanned(contract, observations, n + 1))
      || (missing == before && HasScan(contract, observations, n + 1))
    requires noted.Keys == places.Keys + set i | 0 <= i < |contract.extract(observations[n].fact).value| ::
      contract.extract(observations[n].fact).value[i].sha
    requires forall sha :: sha in noted ==> noted[sha] == PlaceAfter(places, sha,
      exists i :: 0 <= i < |contract.extract(observations[n].fact).value| && contract.extract(observations[n].fact).value[i].sha == sha,
      (ResourceOf(observations[n].fact), n + 1))
    ensures Noted(contract, observations, n + 1, missing, noted)
  {
    hide HasScan, IsSource, IsScanned, IsFirstPlace;
    forall sha | sha in noted ensures IsFirstPlace(contract, observations, n + 1, sha, noted[sha]) {
      forall id: nat | NamesAt(contract, observations, n, sha, id) ensures sha in places {
        assert SourceNoted(contract, observations, id, before, places);
      }
      FirstPlaceAfter(contract, observations, n, places, sha, noted[sha]);
    }
    hide Mentions;
    forall i | 0 <= i < |missing| ensures 1 <= missing[i] <= n + 1 && IsSource(contract, observations[missing[i] - 1].fact)
      && !IsScanned(contract, observations, missing[i])
      && (i < |before| ==> missing[i] == before[i] <= n)
    {
      assert i < |before| ==> missing[i] == before[i];
    }
    forall id | 1 <= id <= n + 1 ensures SourceNoted(contract, observations, id, missing, noted) {
      if id <= n {
        assert SourceNoted(contract, observations, id, before, places);
        assert id in before ==> id in missing;
      } else {
        assert missing == before + [n + 1] ==> missing[|before|] == n + 1;
        forall sha | Mentions(contract, observations[n].fact, sha) ensures sha in noted {
          MentionedAt(contract, observations[n].fact, sha);
        }
      }
    }
  }

  lemma FirstPlaceAfter(contract: Contract, observations: seq<Observation>, n: nat, places: Places, sha: string,
                        place: (nat, nat))
    requires n < |observations| && IsSource(contract, observations[n].fact) && contract.extract(observations[n].fact).Some?
    requires sha in places ==> IsFirstPlace(contract, observations, n, sha, places[sha])
    requires sha in places || Mentions(contract, observations[n].fact, sha)
    requires forall id: nat :: NamesAt(contract, observations, n, sha, id) ==> sha in places
    requires place == PlaceAfter(places, sha, Mentions(contract, observations[n].fact, sha),
      (ResourceOf(observations[n].fact), n + 1))
    ensures IsFirstPlace(contract, observations, n + 1, sha, place)
  {
    hide IsSource, Mentions, ResourceOf;
    var here := (ResourceOf(observations[n].fact), n + 1);
    if sha in places {
      assert NamesAt(contract, observations, n, sha, places[sha].1);
    }
    var m := n + 1;
    assert NamesAt(contract, observations, m, sha, place.1);
    forall id: nat | NamesAt(contract, observations, m, sha, id)
      ensures PlaceAtMost(place, (ResourceOf(observations[id - 1].fact), id))
    {
      if id <= n {
        assert NamesAt(contract, observations, n, sha, id);
      }
    }
  }

  lemma MentionedAt(contract: Contract, fact: FactDraft, sha: string)
    requires Mentions(contract, fact, sha)
    ensures contract.extract(fact).Some?
    ensures sha in set i | 0 <= i < |contract.extract(fact).value| :: contract.extract(fact).value[i].sha
  {
  }

  /** The order of the commit population: by first place, then by SHA. */
  function PlaceRank(places: Places): string -> seq<nat> {
    (sha: string) =>
      (if sha in places then [places[sha].0, places[sha].1] else [0, 0]) + CodePoints(sha)
  }

  lemma PlaceRankIsInjective(places: Places)
    ensures Injective(PlaceRank(places))
  {
    CodePointsInjective();
    forall x, y | PlaceRank(places)(x) == PlaceRank(places)(y) ensures x == y {
      assert PlaceRank(places)(x)[2..] == CodePoints(x);
      assert PlaceRank(places)(y)[2..] == CodePoints(y);
    }
  }

  /** The commits without a reconstruction, in their order. */
  method Unchecked(ordered: seq<string>, covered: set<string>, ghost rank: string -> seq<nat>)
    returns (pending: seq<string>)
    requires forall i, j :: 0 <= i < j < |ordered| ==> ordered[i] != ordered[j]
    requires forall i, j :: 0 <= i < j < |ordered| ==> Less(rank(ordered[i]), rank(ordered[j]))
    ensures forall i, j :: 0 <= i < j < |pending| ==> pending[i] != pending[j]
    ensures forall i, j :: 0 <= i < j < |pending| ==> Less(rank(pending[i]), rank(pending[j]))
    ensures forall sha :: sha in pending <==> sha in ordered && "commit:" + sha !in covered
  {
    hide Less;
    pending := [];
    for i := 0 to |ordered|
      invariant forall a, b :: 0 <= a < b < |pending| ==> pending[a] != pending[b]
      invariant forall a, b :: 0 <= a < b < |pending| ==> Less(rank(pending[a]), rank(pending[b]))
      invariant forall sha :: sha in pending <==> sha in ordered[..i] && "commit:" + sha !in covered
    {
      assert ordered[..i + 1] == ordered[..i] + [ordered[i]];
      if "commit:" + ordered[i] !in covered {
        assert ordered[i] !in ordered[..i];
        forall a | 0 <= a < |pending|
          ensures pending[a] != ordered[i] && Less(rank(pending[a]), rank(ordered[i]))
        {
          assert pending[a] in pending;
          var b :| 0 <= b < i && ordered[..i][b] == pending[a];
        }
        pending := pending + [ordered[i]];
      }
    }
    assert ordered[..|ordered|] == ordered;
  }

  /** The plan of a backfill over everything observed so far. */
  method PlanBackfill(contract: Contract, observations: seq<Observation>) returns (r: Option<Plan>)
    ensures r.Some? ==> r.value.cutoff == |observations| && PlanCovers(contract, observations, r.value)
    ensures r.Some? ==> PlansOnly(contract, observations, r.value)
    ensures r.Some? <==> SourcesAreReadable(contract, observations)
  {
    hide Noted, PlanCovers, PlaceRank, Injective, Checked, PlansOnly, Less;
    var found := FindPopulation(contract, observations);
    if found.None? {
      return None;
    }
    var (missing, places) := found.value;
    PlaceRankIsInjective(places);
    var ordered := Sort(places.Keys, PlaceRank(places));
    SortedHasNoDuplicates(places.Keys, PlaceRank(places));
    var pending := Unchecked(ordered, Checked(observations, |observations|), PlaceRank(places));
    PlannedCovers(contract, observations, missing, places, pending);
    PlannedOnly(contract, observations, missing, places, pending);
    r := Some(Plan(|observations|, missing, pending));
  }

  /** The plan holds nothing but sources without a scan and named commits without a reconstruction, and these
  in the order of their first places. */
  ghost predicate PlansOnly(contract: Contract, observations: seq<Observation>, plan: Plan) {
    && (forall id :: id in plan.missing ==> 1 <= id <= |observations| && !IsScanned(contract, observations, id))
    && (forall sha :: sha in plan.pending ==>
         && !HasCommit(observations, sha)
         && exists id: nat :: NamesAt(contract, observations, |observations|, sha, id))
    && forall i, j :: 0 <= i < j < |plan.pending| ==>
         InFirstOrder(contract, observations, plan.pending[i], plan.pending[j])
  }

  ghost predicate InFirstOrder(contract: Contract, observations: seq<Observation>, a: string, b: string) {
    forall p, q :: IsFirstPlace(contract, observations, |observations|, a, p) ==>
      (IsFirstPlace(contract, observations, |observations|, b, q) ==> PlannedBefore(a, p, b, q))
  }

  /** By resource, then by observation, then by SHA. */
  predicate PlannedBefore(a: string, p: (nat, nat), b: string, q: (nat, nat)) {
    p.0 < q.0 || (p.0 == q.0 && (p.1 < q.1 || (p.1 == q.1 && Less(CodePoints(a), CodePoints(b)))))
  }

  lemma RankIsPlanned(places: Places, a: string, b: string)
    requires a in places && b in places && Less(PlaceRank(places)(a), PlaceRank(places)(b))
    ensures PlannedBefore(a, places[a], b, places[b])
  {
    var x, y := PlaceRank(places)(a), PlaceRank(places)(b);
    assert x[0] == places[a].0 && x[1] == places[a].1 && y[0] == places[b].0 && y[1] == places[b].1;
    assert x[1..][1..] == CodePoints(a) && y[1..][1..] == CodePoints(b);
    assert x[1..][0] == x[1] && y[1..][0] == y[1];
  }

  lemma FirstPlaceIsUnique(contract: Contract, observations: seq<Observation>, sha: string, p: (nat, nat), q: (nat, nat))
    requires IsFirstPlace(contract, observations, |observations|, sha, p)
    requires IsFirstPlace(contract, observations, |observations|, sha, q)
    ensures p == q
  {
    hide NamesAt, ResourceOf;
  }

  lemma PlannedOnly(contract: Contract, observations: seq<Observation>, missing: seq<nat>, places: Places,
                    pending: seq<string>)
    requires Noted(contract, observations, |observations|, missing, places)
    requires forall a, b :: 0 <= a < b < |pending| ==> Less(PlaceRank(places)(pending[a]), PlaceRank(places)(pending[b]))
    requires forall sha :: sha in pending <==> sha in places && "commit:" + sha !in Checked(observations, |observations|)
    ensures PlansOnly(contract, observations, Plan(|observations|, missing, pending))
  {
    hide IsScanned, IsFirstPlace, NamesAt, PlaceRank, Less, HasCommit, Checked, PlannedBefore;
    forall sha | sha in pending
      ensures !HasCommit(observations, sha)
      ensures exists id: nat :: NamesAt(contract, observations, |observations|, sha, id)
    {
      CommitIsChecked(observations, sha);
      FirstPlaceNames(contract, observations, sha, places[sha]);
    }
    forall i, j | 0 <= i < j < |pending| ensures InFirstOrder(contract, observations, pending[i], pending[j]) {
      assert pending[i] in pending && pending[j] in pending;
      RankIsPlanned(places, pending[i], pending[j]);
      forall p | IsFirstPlace(contract, observations, |observations|, pending[i], p) ensures p == places[pending[i]] {
        FirstPlaceIsUnique(contract, observations, pending[i], p, places[pending[i]]);
      }
      forall q | IsFirstPlace(contract, observations, |observations|, pending[j], q) ensures q == places[pending[j]] {
        FirstPlaceIsUnique(contract, observations, pending[j], q, places[pending[j]]);
      }
    }
    forall id | id in missing ensures 1 <= id <= |observations| && !IsScanned(contract, observations, id) {
      var i :| 0 <= i < |missing| && missing[i] == id;
    }
  }

  lemma FirstPlaceNames(contract: Contract, observations: seq<Observation>, sha: string, place: (nat, nat))
    requires IsFirstPlace(contract, observations, |observations|, sha, place)
    ensures NamesAt(contract, observations, |observations|, sha, place.1)
  {
  }

  lemma CommitIsChecked(observations: seq<Observation>, sha: string)
    ensures HasCommit(observations, sha) ==> "commit:" + sha in Checked(observations, |observations|)
  {
  }

  lemma PlannedCovers(contract: Contract, observations: seq<Observation>, missing: seq<nat>, places: Places,
                      pending: seq<string>)
    requires Noted(contract, observations, |observations|, missing, places)
    requires forall a, b :: 0 <= a < b < |pending| ==> pending[a] != pending[b]
    requires forall sha :: sha in places ==> sha in pending || "commit:" + sha in Checked(observations, |observations|)
    ensures PlanCovers(contract, observations, Plan(|observations|, missing, pending))
  {
    hide HasScan, IsSource, Mentions, HasCommit, Checked;
    forall sha | sha in places ensures sha in pending || HasCommit(observations, sha) {
      CheckedHasCommit(observations, sha);
    }
    var plan := Plan(|observations|, missing, pending);
    forall id | 1 <= id <= |observations| ensures SourceCovered(contract, observations, id, plan) {
      assert SourceNoted(contract, observations, id, missing, places);
    }
  }

  lemma CheckedHasCommit(observations: seq<Observation>, sha: string)
    ensures "commit:" + sha in Checked(observations, |observations|) ==> HasCommit(observations, sha)
  {
    if "commit:" + sha in Checked(observations, |observations|) {
      var i :| 0 <= i < |observations| && observations[i].fact.family == "commit-object"
        && observations[i].fact.schemaVersion == 2 && observations[i].fact.subject == "commit:" + sha;
      assert IsCommitObject(observations[i].fact, sha);
    }
  }

  // ---- Tasks ----

  /** for offset in range(0, len(values), size) */
  function Chunks<T>(s: seq<T>, size: nat): (chunks: seq<seq<T>>)
    requires size > 0
    ensures forall i :: 0 <= i < |chunks| ==> chunks[i] != [] && |chunks[i]| <= size
  {
    if s == [] then []
    else if |s| <= size then [s]
    else [s[..size]] + Chunks(s[size..], size)
  }

  /** The tasks partition the population in order. */
  lemma {:induction false} ChunksPartition<T>(s: seq<T>, size: nat)
    requires size > 0
    ensures Flatten(Chunks(s, size)) == s
  {
    if |s| > size {
      ChunksPartition(s[size..], size);
      assert ([s[..size]] + Chunks(s[size..], size))[1..] == Chunks(s[size..], size);
      assert s == s[..size] + s[size..];
    } else if s != [] {
      assert [s][1..] == [];
      assert Flatten([s][1..]) == [];
    }
  }

  lemma {:induction false} ChunkOf<T>(chunks: seq<seq<T>>, x: T) returns (i: nat)
    requires x in Flatten(chunks)
    ensures i < |chunks| && x in chunks[i]
  {
    if x in chunks[0] {
      i := 0;
    } else {
      i := ChunkOf(chunks[1..], x);
      i := i + 1;
    }
  }

  function TaskFor(contract: Contract, kind: string, i: nat, scope: Scope): TaskDraft {
    TaskDraft(contract.taskKey(kind, i), kind, kind + ":" + contract.encode(scope), None, contract.encode(scope))
  }

  /** _reference_scan_tasks followed by _commit_tasks */
  function PlanTasks(contract: Contract, plan: Plan): seq<TaskDraft> {
    var scans, commits := Chunks(plan.missing, TASK_SIZE), Chunks(plan.pending, TASK_SIZE);
    seq(|scans|, i requires 0 <= i < |scans| => TaskFor(contract, SCAN_KIND, i, ScanScope(plan.cutoff, scans[i]))) +
    seq(|commits|, i requires 0 <= i < |commits| => TaskFor(contract, COMMIT_KIND, i, CommitScope(plan.cutoff, commits[i])))
  }

  /** Some task of the plan covers each missing scan and each pending commit. */
  lemma PlannedTask(contract: Contract, plan: Plan, id: nat, sha: string)
    requires contract.Sound()
    ensures id in plan.missing ==> exists draft :: draft in PlanTasks(contract, plan) && CoversScan(contract, draft, id)
    ensures sha in plan.pending ==> exists draft :: draft in PlanTasks(contract, plan) && CoversCommit(contract, draft, sha)
  {
    var scans, commits := Chunks(plan.missing, TASK_SIZE), Chunks(plan.pending, TASK_SIZE);
    var tasks := PlanTasks(contract, plan);
    ChunksPartition(plan.missing, TASK_SIZE);
    ChunksPartition(plan.pending, TASK_SIZE);
    if id in plan.missing {
      var i := ChunkOf(scans, id);
      assert tasks[i] == TaskFor(contract, SCAN_KIND, i, ScanScope(plan.cutoff, scans[i]));
      assert tasks[i] in tasks && CoversScan(contract, tasks[i], id);
    }
    if sha in plan.pending {
      var i := ChunkOf(commits, sha);
      assert tasks[|scans| + i] == TaskFor(contract, COMMIT_KIND, i, CommitScope(plan.cutoff, commits[i]));
      assert tasks[|scans| + i] in tasks && CoversCommit(contract, tasks[|scans| + i], sha);
    }
  }

  /** No task of the plan covers anything else. */
  lemma OnlyPlanned(contract: Contract, plan: Plan, draft: TaskDraft)
    requires contract.Sound() && draft in PlanTasks(contract, plan)
    ensures draft.kind == SCAN_KIND || draft.kind == COMMIT_KIND
    ensures forall id :: CoversScan(contract, draft, id) ==> id in plan.missing
    ensures forall sha :: CoversCommit(contract, draft, sha) ==> sha in plan.pending
  {
    hide CoversScan, CoversCommit, Chunks, Flatten, Contract.Sound, TaskFor;
    var scans, commits := Chunks(plan.missing, TASK_SIZE), Chunks(plan.pending, TASK_SIZE);
    ChunksPartition(plan.missing, TASK_SIZE);
    ChunksPartition(plan.pending, TASK_SIZE);
    var i :| 0 <= i < |PlanTasks(contract, plan)| && PlanTasks(contract, plan)[i] == draft;
    if i < |scans| {
      TaskCovers(contract, i, plan.cutoff, scans[i], []);
      ChunkInside(scans, i);
    } else {
      TaskCovers(contract, i - |scans|, plan.cutoff, [], commits[i - |scans|]);
      ChunkInside(commits, i - |scans|);
    }
  }

  lemma TaskCovers(contract: Contract, i: nat, cutoff: nat, ids: seq<nat>, shas: seq<string>)
    requires contract.Sound()
    ensures var scan := TaskFor(contract, SCAN_KIND, i, ScanScope(cutoff, ids));
      && scan.kind == SCAN_KIND && (forall id :: CoversScan(contract, scan, id) <==> id in ids)
      && forall sha :: !CoversCommit(contract, scan, sha)
    ensures var commit := TaskFor(contract, COMMIT_KIND, i, CommitScope(cutoff, shas));
      && commit.kind == COMMIT_KIND && (forall sha :: CoversCommit(contract, commit, sha) <==> sha in shas)
      && forall id :: !CoversScan(contract, commit, id)
  {
  }

  lemma {:induction false} ChunkInside<T>(chunks: seq<seq<T>>, i: nat)
    requires i < |chunks|
    ensures forall x :: x in chunks[i] ==> x in Flatten(chunks)
  {
    if i > 0 {
      ChunkInside(chunks[1..], i - 1);
    }
  }

  predicate CoversScan(contract: Contract, draft: TaskDraft, id: nat) {
    draft.kind == SCAN_KIND &&
    match contract.decode(draft.input) case Some(ScanScope(_, ids)) => id in ids case _ => false
  }

  predicate CoversCommit(contract: Contract, draft: TaskDraft, sha: string) {
    draft.kind == COMMIT_KIND &&
    match contract.decode(draft.input) case Some(CommitScope(_, shas)) => sha in shas case _ => false
  }

  /** The work of a task is in the archive. */
  ghost predicate TaskDone(contract: Contract, observations: seq<Observation>, draft: TaskDraft) {
    && (forall id :: CoversScan(contract, draft, id) ==> HasScan(contract, observations, id))
    && (forall sha :: CoversCommit(contract, draft, sha) ==> HasCommit(observations, sha))
  }

  lemma TaskStaysDone(contract: Contract, observations: seq<Observation>, more: seq<Observation>, draft: TaskDraft)
    requires observations <= more && TaskDone(contract, observations, draft)
    ensures TaskDone(contract, more, draft)
  {
    hide HasScan, HasCommit, CoversScan, CoversCommit;
    forall id | CoversScan(contract, draft, id) ensures HasScan(contract, more, id) {
      ScanStays(contract, observations, more, id);
    }
    forall sha | CoversCommit(contract, draft, sha) ensures HasCommit(more, sha) {
      CommitStays(observations, more, sha);
    }
  }

  /** When every task of the plan is done, the baseline holds. */
  lemma DonePlanIsBaseline(contract: Contract, observations: seq<Observation>, more: seq<Observation>, plan: Plan)
    requires contract.Sound() && PlanCovers(contract, observations, plan) && observations <= more
    requires forall draft :: draft in PlanTasks(contract, plan) ==> TaskDone(contract, more, draft)
    ensures Baseline(contract, more, plan.cutoff)
  {
    hide HasScan, HasCommit, CoversScan, CoversCommit, PlanTasks, Contract.Sound, IsSource, Mentions;
    forall id | 1 <= id <= plan.cutoff ensures SourceDone(contract, more, id) {
      hide SourceDone;
      assert SourceCovered(contract, observations, id, plan);
      assert more[id - 1] == observations[id - 1];
      if HasScan(contract, observations, id) {
        ScanStays(contract, observations, more, id);
      } else {
        PlannedTask(contract, plan, id, "");
      }
      forall sha | Mentions(contract, more[id - 1].fact, sha) && IsSource(contract, more[id - 1].fact)
        ensures HasCommit(more, sha)
      {
        if HasCommit(observations, sha) {
          CommitStays(observations, more, sha);
        } else {
          PlannedTask(contract, plan, id, sha);
        }
      }
      SourceIsDone(contract, more, id);
    }
  }

  lemma PlanKeysAreDistinct(contract: Contract, plan: Plan)
    requires contract.Sound()
    ensures Jobs.DistinctKeys(PlanTasks(contract, plan))
  {
  }

  // ---- The run ----

  /** Every completed task did its work, and every publication under a task's key holds what that key
  stands for. */
  ghost predicate Faithful(contract: Contract, facts: FactTables, jobs: Jobs.JobTables) {
    && (forall t :: 0 <= t < |jobs.tasks| && jobs.tasks[t].completedAt.Some? ==>
         TaskDone(contract, facts.observations, jobs.tasks[t].draft))
    && (forall b :: 0 <= b < |facts.batches| ==> KeyIsKept(contract, facts.observations, jobs, facts.batches[b].key))
  }

  ghost predicate KeyIsKept(contract: Contract, observations: seq<Observation>, jobs: Jobs.JobTables, key: string) {
    && (forall j: nat, t: nat, id: nat :: key == contract.scanKey(j, t, id) ==> HasScan(contract, observations, id))
    && (forall j: nat, t: nat :: key == contract.commitKey(j, t) ==>
         && 1 <= t <= |jobs.tasks|
         && forall sha :: CoversCommit(contract, jobs.tasks[t - 1].draft, sha) ==> HasCommit(observations, sha))
  }

  /** Job rows change without their drafts, and facts only grow. */
  ghost predicate Grows(facts: FactTables, jobs: Jobs.JobTables, later: FactTables, after: Jobs.JobTables) {
    && facts.observations <= later.observations && |jobs.tasks| == |after.tasks|
    && forall t :: 0 <= t < |jobs.tasks| ==> jobs.tasks[t].draft == after.tasks[t].draft
  }

  lemma KeyStaysKept(contract: Contract, facts: FactTables, jobs: Jobs.JobTables, later: FactTables,
                     after: Jobs.JobTables, key: string)
    requires KeyIsKept(contract, facts.observations, jobs, key) && Grows(facts, jobs, later, after)
    ensures KeyIsKept(contract, later.observations, after, key)
  {
    hide HasScan, HasCommit, CoversCommit;
    forall j: nat, t: nat, id: nat | key == contract.scanKey(j, t, id) ensures HasScan(contract, later.observations, id) {
      ScanStays(contract, facts.observations, later.observations, id);
    }
    forall j: nat, t: nat, sha | key == contract.commitKey(j, t) && 1 <= t <= |jobs.tasks|
        && CoversCommit(contract, after.tasks[t - 1].draft, sha)
      ensures HasCommit(later.observations, sha)
    {
      CommitStays(facts.observations, later.observations, sha);
    }
  }

  /** Faithfulness survives growth when the newly completed tasks are done and the new keys are kept. */
  lemma FaithfulGrows(contract: Contract, facts: FactTables, jobs: Jobs.JobTables, later: FactTables, after: Jobs.JobTables)
    requires Faithful(contract, facts, jobs) && Grows(facts, jobs, later, after) && facts.batches <= later.batches
    requires forall t :: 0 <= t < |after.tasks| && after.tasks[t].completedAt.Some? ==>
      jobs.tasks[t].completedAt.Some? || TaskDone(contract, later.observations, after.tasks[t].draft)
    requires forall b :: |facts.batches| <= b < |later.batches| ==>
      KeyIsKept(contract, later.observations, after, later.batches[b].key)
    ensures Faithful(contract, later, after)
  {
    hide TaskDone, KeyIsKept;
    forall t | 0 <= t < |after.tasks| && after.tasks[t].completedAt.Some?
      ensures TaskDone(contract, later.observations, after.tasks[t].draft)
    {
      if jobs.tasks[t].completedAt.Some? {
        TaskStaysDone(contract, facts.observations, later.observations, jobs.tasks[t].draft);
      }
    }
    forall b | 0 <= b < |later.batches| ensures KeyIsKept(contract, later.observations, after, later.batches[b].key) {
      if b < |facts.batches| {
        KeyStaysKept(contract, facts, jobs, later, after, facts.batches[b].key);
      }
    }
  }

  /** The archive after publishing under a key unless it is known already. */
  ghost predicate OncePublished(before: FactTables, after: FactTables, key: string, drafts: seq<FactDraft>, ok: bool) {
    if FindBatch(before.batches, key).Some? then ok && after == before
    else if !ok then after == before
    else
      && after.observations == before.observations + Rows(|before.batches| + 1, drafts)
      && |after.batches| == |before.batches| + 1 && before.batches <= after.batches
      && after.batches[|before.batches|].key == key
  }

  lemma ScanPublished(contract: Contract, before: FactTables, after: FactTables, jobs: Jobs.JobTables, job: nat, task: nat,
                      id: nat, references: seq<Reference>, ok: bool)
    requires contract.Sound() && Faithful(contract, before, jobs) && 1 <= id <= |before.observations|
    requires var source := before.observations[id - 1].fact;
      && contract.extract(source) == Some(references)
      && OncePublished(before, after, contract.scanKey(job, task, id), [ScanFact(contract, id, source, references)], ok)
    ensures Faithful(contract, after, jobs) && Grows(before, jobs, after, jobs)
    ensures ok ==> HasScan(contract, after.observations, id)
  {
    hide TaskDone, HasCommit, CoversCommit, Rows;
    var key, n := contract.scanKey(job, task, id), |before.batches|;
    var found := FindBatch(before.batches, key);
    if found.Some? {
      assert KeyIsKept(contract, before.observations, jobs, before.batches[found.value].key);
    } else if ok {
      var source := before.observations[id - 1].fact;
      assert after.observations[|before.observations|].fact == ScanFact(contract, id, source, references);
      assert IsScanOf(contract, after.observations[|before.observations|].fact, id, source);
      assert HasScan(contract, after.observations, id);
      ScanKeyIsKept(contract, after.observations, jobs, job, task, id);
      FaithfulGrows(contract, before, jobs, after, jobs);
    }
  }

  lemma ScanKeyIsKept(contract: Contract, observations: seq<Observation>, jobs: Jobs.JobTables, job: nat, task: nat, id: nat)
    requires contract.Sound() && HasScan(contract, observations, id)
    ensures KeyIsKept(contract, observations, jobs, contract.scanKey(job, task, id))
  {
    hide HasScan, HasCommit, CoversCommit;
    var key := contract.scanKey(job, task, id);
    forall j: nat, t: nat, i: nat | key == contract.scanKey(j, t, i) ensures i == id {
    }
    forall j: nat, t: nat ensures key != contract.commitKey(j, t) {
    }
  }

  // ---- What an archive takes ----

  /** The archive knows both facts of a backfill, and its publications have keys. */
  ghost predicate IsAdmitted(contract: Contract, supported: (string, nat) -> bool) {
    && supported("commit-references", 1) && supported("commit-object", 2)
    && (forall a, b, c :: contract.scanKey(a, b, c) != "") && (forall a, b :: contract.commitKey(a, b) != "")
  }

  /** The source can be read and names object IDs, its resource and window are in order, and its payload is stored. */
  ghost predicate IsRecordable(contract: Contract, known: set<string>, now: Time, source: FactDraft) {
    && contract.extract(source).Some?
    && (forall i :: 0 <= i < |contract.extract(source).value| ==> IsObjectId(contract.extract(source).value[i].sha))
    && (source.resource.Some? ==> source.resource.value >= 1)
    && source.observedFrom <= source.observedUntil <= now
    && contract.digest(source.payload) in known && IsDigest(contract.digest(source.payload))
  }

  ghost predicate AllRecordable(contract: Contract, supported: (string, nat) -> bool, observations: seq<Observation>,
                                known: set<string>, now: Time)
  {
    && IsAdmitted(contract, supported)
    && forall i :: 0 <= i < |observations| && IsSource(contract, observations[i].fact) ==>
         IsRecordable(contract, known, now, observations[i].fact)
  }

  lemma StaysRecordable(contract: Contract, supported: (string, nat) -> bool, observations: seq<Observation>,
                        known: set<string>, more: set<string>, now: Time)
    requires AllRecordable(contract, supported, observations, known, now) && known <= more
    ensures AllRecordable(contract, supported, observations, more, now)
  {
    hide IsSource, IsDigest, IsAdmitted;
  }

  lemma ScanIsValid(contract: Contract, supported: (string, nat) -> bool, known: set<string>, now: Time, id: nat,
                    source: FactDraft, task: nat)
    requires IsAdmitted(contract, supported) && IsRecordable(contract, known, now, source)
    ensures var facts := [ScanFact(contract, id, source, contract.extract(source).value)];
      && ValidFacts(supported, facts, now) && facts[0].sourceDigest == Some(contract.digest(source.payload))
      && forall i :: !Malformed(i, facts[0])
    ensures forall job :: ValidOperation(contract.scanKey(job, task, id), Operation("refresh", None, None, Some(task)))
  {
    hide Malformed, IsDigest, IsObjectId;
    var fact := ScanFact(contract, id, source, contract.extract(source).value);
    forall i ensures !Malformed(i, fact) {
      MalformedExactly(i, fact);
    }
    assert |"payload:"| > 0 && |fact.subject| > 0;
  }

  lemma ReconstructionsAreValid(contract: Contract, supported: (string, nat) -> bool,
                                retain: string -> (Outcome, Payload), now: Time, shas: seq<string>,
                                facts: seq<FactDraft>, task: nat)
    requires IsAdmitted(contract, supported) && shas != [] && Distinct(shas) && |facts| == |shas|
    requires forall i :: 0 <= i < |facts| ==> IsReconstruction(retain, now, facts[i], shas[i])
    ensures ValidFacts(supported, facts, now) && forall i, n :: 0 <= i < |facts| ==> !Malformed(n, facts[i])
    ensures forall i :: 0 <= i < |facts| ==> facts[i].sourceDigest.None?
    ensures forall job :: ValidOperation(contract.commitKey(job, task), Operation("refresh", None, None, Some(task)))
  {
    hide ProvenanceOf, IsDigest;
    forall i | 0 <= i < |facts| ensures facts[i].subject[7..] == shas[i] && |facts[i].subject| >= 7 {
      assert ("commit:" + shas[i])[7..] == shas[i];
    }
    forall i, j | 0 <= i < j < |facts| ensures SubjectOf(facts[i]) != SubjectOf(facts[j]) {
      assert shas[i] != shas[j];
    }
  }

  /** The batch may still be worked on. */
  predicate IsOpen(jobs: Jobs.JobTables, task: nat) {
    1 <= task <= |jobs.tasks| && jobs.tasks[task - 1].completedAt.None? && IsActiveJob(jobs, jobs.tasks[task - 1].job)
  }

  ghost predicate AreSources(contract: Contract, observations: seq<Observation>, n: nat, ids: seq<nat>) {
    && n <= |observations|
    && forall i :: 0 <= i < |ids| ==> 1 <= ids[i] <= n && IsSource(contract, observations[ids[i] - 1].fact)
  }

  lemma SourceStays(contract: Contract, observations: seq<Observation>, more: seq<Observation>, n: nat, ids: seq<nat>,
                    i: nat)
    requires AreSources(contract, observations, n, ids) && observations <= more && i < |ids|
    ensures 1 <= ids[i] <= n <= |more| && IsSource(contract, more[ids[i] - 1].fact)
  {
  }

  /** Pending tasks of the job, attempted at that time, whose scopes fit the first n observations. */
  ghost predicate AreClaimed(contract: Contract, observations: seq<Observation>, n: nat, jobs: Jobs.JobTables, job: nat,
                             claimed: seq<nat>, now: Time)
  {
    && n <= |observations| && Distinct(claimed)
    && forall i :: 0 <= i < |claimed| ==>
         && claimed[i] < |jobs.tasks| && IsPending(jobs, job, None, claimed[i])
         && jobs.tasks[claimed[i]].attemptFrom == Some(now)
         && IsExecutable(contract, observations[..n], jobs.tasks[claimed[i]].draft)
  }

  lemma NextIsOpen(contract: Contract, observations: seq<Observation>, n: nat, jobs: Jobs.JobTables, job: nat,
                   claimed: seq<nat>, now: Time)
    requires AreClaimed(contract, observations, n, jobs, job, claimed, now) && claimed != [] && Jobs.JobsValid(jobs)
    ensures claimed[0] < |jobs.tasks| && IsOpen(jobs, claimed[0] + 1)
    ensures jobs.tasks[claimed[0]].attemptFrom == Some(now)
    ensures IsExecutable(contract, observations[..n], jobs.tasks[claimed[0]].draft)
  {
    hide IsExecutable, Jobs.JobHolds;
    assert IsPending(jobs, job, None, claimed[0]);
    Jobs.StatusFollowsTasks(jobs, job);
  }

  lemma ClaimedInside(contract: Contract, observations: seq<Observation>, n: nat, jobs: Jobs.JobTables, job: nat,
                      claimed: seq<nat>, now: Time)
    requires AreClaimed(contract, observations, n, jobs, job, claimed, now)
    ensures n <= |observations|
  {
  }

  lemma OthersStayClaimed(contract: Contract, observations: seq<Observation>, n: nat, before: Jobs.JobTables,
                          after: Jobs.JobTables, job: nat, claimed: seq<nat>, now: Time, ok: bool)
    requires AreClaimed(contract, observations, n, before, job, claimed, now) && claimed != []
    requires claimed[0] < |before.tasks| && CompletesAtMost(before, after, claimed[0] + 1, ok)
    ensures AreClaimed(contract, observations, n, after, job, claimed[1..], now)
  {
    hide IsExecutable;
    forall i | 0 <= i < |claimed[1..]| ensures claimed[1..][i] == claimed[i + 1] != claimed[0] {
    }
  }

  /** The scopes of the pending tasks of the job fit the first n observations. */
  ghost predicate AllExecutable(contract: Contract, observations: seq<Observation>, n: nat, jobs: Jobs.JobTables, job: nat) {
    && n <= |observations|
    && forall t: nat :: t < |jobs.tasks| && IsPending(jobs, job, None, t) ==>
         IsExecutable(contract, observations[..n], jobs.tasks[t].draft)
  }

  lemma ClaimedAreExecutable(contract: Contract, observations: seq<Observation>, n: nat, before: Jobs.JobTables,
                             after: Jobs.JobTables, job: nat, claimed: seq<nat>, now: Time)
    requires AllExecutable(contract, observations, n, before, job) && SameProgress(before, after) && Distinct(claimed)
    requires forall t :: t in claimed ==> t < |after.tasks| && IsPending(after, job, None, t)
    requires forall t :: t in claimed ==> t < |after.tasks| && after.tasks[t].attemptFrom == Some(now)
    ensures AreClaimed(contract, observations, n, after, job, claimed, now)
  {
    hide IsExecutable;
    forall i | 0 <= i < |claimed|
      ensures claimed[i] < |after.tasks| && IsPending(after, job, None, claimed[i])
        && after.tasks[claimed[i]].attemptFrom == Some(now)
        && IsExecutable(contract, observations[..n], after.tasks[claimed[i]].draft)
    {
      assert claimed[i] in claimed;
      assert IsPending(before, job, None, claimed[i]);
    }
  }

  lemma StaysAllExecutable(contract: Contract, observations: seq<Observation>, n: nat, facts: FactTables,
                           before: Jobs.JobTables, later: FactTables, after: Jobs.JobTables, job: nat)
    requires AllExecutable(contract, observations, n, before, job) && Moves(facts, before, later, after)
    ensures AllExecutable(contract, observations, n, after, job)
  {
    hide IsExecutable;
    forall t: nat | t < |after.tasks| && IsPending(after, job, None, t)
      ensures IsExecutable(contract, observations[..n], after.tasks[t].draft)
    {
      assert IsPending(before, job, None, t);
    }
  }

  lemma MoreExecutable(contract: Contract, facts: FactTables, before: Jobs.JobTables, later: FactTables,
                       after: Jobs.JobTables, n: nat, job: nat)
    requires AllExecutable(contract, facts.observations, n, after, job) && Moves(facts, before, later, after)
    ensures AllExecutable(contract, later.observations, n, after, job)
  {
    hide IsExecutable;
    assert later.observations[..n] == facts.observations[..n];
  }

  lemma StillPending(before: Jobs.JobTables, after: Jobs.JobTables, job: nat, t: nat)
    requires SameProgress(before, after) && t < |before.tasks| && IsPending(before, job, None, t)
    ensures t < |after.tasks| && IsPending(after, job, None, t)
  {
  }

  lemma ActiveHasPending(jobs: Jobs.JobTables, job: nat) returns (t: nat)
    requires Jobs.JobsValid(jobs) && IsActiveJob(jobs, job)
    ensures t < |jobs.tasks| && IsPending(jobs, job, None, t)
  {
    Jobs.StatusFollowsTasks(jobs, job);
    t :| 0 <= t < |jobs.tasks| && jobs.tasks[t].job == job && jobs.tasks[t].completedAt.None?;
  }

  lemma OpenCompletes(jobs: Jobs.JobTables, task: nat, now: Time, outcome: Outcome)
    requires IsOpen(jobs, task) && jobs.tasks[task - 1].attemptFrom == Some(now)
    ensures CanComplete(jobs, task, now, outcome)
  {
  }

  /** So do those of a backfill that is planned over them. */
  lemma BackfillIsExecutable(contract: Contract, observations: seq<Observation>, jobs: Jobs.JobTables, job: nat, plan: Plan)
    requires contract.Sound() && IsBackfill(contract, observations, jobs, job, plan)
    ensures AllExecutable(contract, observations, |observations|, jobs, job)
  {
    hide IsExecutable, PlanCovers, PlanTasks, Contract.Sound;
    assert observations[..|observations|] == observations;
    forall t: nat | t < |jobs.tasks| && IsPending(jobs, job, None, t)
      ensures IsExecutable(contract, observations, jobs.tasks[t].draft)
    {
      PlannedIsExecutable(contract, observations[..plan.cutoff], plan, jobs.tasks[t].draft);
      StaysExecutable(contract, observations[..plan.cutoff], observations, jobs.tasks[t].draft);
    }
  }

  /** A task of a plan fits its kind. */
  lemma PlannedIsExecutable(contract: Contract, observations: seq<Observation>, plan: Plan, draft: TaskDraft)
    requires contract.Sound() && PlanCovers(contract, observations, plan) && draft in PlanTasks(contract, plan)
    ensures IsExecutable(contract, observations, draft)
  {
    hide Chunks, Flatten, SourceCovered;
    var scans, commits := Chunks(plan.missing, TASK_SIZE), Chunks(plan.pending, TASK_SIZE);
    ChunksPartition(plan.missing, TASK_SIZE);
    ChunksPartition(plan.pending, TASK_SIZE);
    var i :| 0 <= i < |PlanTasks(contract, plan)| && PlanTasks(contract, plan)[i] == draft;
    if i < |scans| {
      ChunkInside(scans, i);
      assert draft == TaskFor(contract, SCAN_KIND, i, ScanScope(plan.cutoff, scans[i]));
      forall k | 0 <= k < |scans[i]| ensures scans[i][k] in plan.missing {
        assert scans[i][k] in scans[i];
      }
    } else {
      ChunkIsDistinct(commits, i - |scans|);
      assert draft == TaskFor(contract, COMMIT_KIND, i - |scans|, CommitScope(plan.cutoff, commits[i - |scans|]));
    }
  }

  lemma {:induction false} ChunkIsDistinct<T>(chunks: seq<seq<T>>, i: nat)
    requires i < |chunks| && Distinct(Flatten(chunks))
    ensures Distinct(chunks[i])
  {
    var rest := Flatten(chunks[1..]);
    assert Flatten(chunks) == chunks[0] + rest;
    if i > 0 {
      forall a, b | 0 <= a < b < |rest| ensures rest[a] != rest[b] {
        var n := |chunks[0]|;
        assert Flatten(chunks)[n + a] == rest[a] && Flatten(chunks)[n + b] == rest[b];
      }
      ChunkIsDistinct(chunks[1..], i - 1);
    } else {
      forall a, b | 0 <= a < b < |chunks[0]| ensures chunks[0][a] != chunks[0][b] {
        assert Flatten(chunks)[a] == chunks[0][a] && Flatten(chunks)[b] == chunks[0][b];
      }
    }
  }

  lemma StaysExecutable(contract: Contract, observations: seq<Observation>, more: seq<Observation>, draft: TaskDraft)
    requires IsExecutable(contract, observations, draft) && observations <= more
    ensures IsExecutable(contract, more, draft)
  {
  }

  class Maintainer {
    const archive: ObservationArchive
    const contract: Contract
    /** What reconstructing a commit yields. */
    const retain: string -> (Outcome, Payload)
    const concurrency: nat

    constructor (archive: ObservationArchive, contract: Contract, retain: string -> (Outcome, Payload), concurrency: nat)
      ensures this.archive == archive && this.contract == contract && this.concurrency == concurrency
    {
      this.archive, this.contract, this.retain, this.concurrency := archive, contract, retain, concurrency;
    }

    ghost predicate Ready()
      reads archive
    {
      archive.Valid() && contract.Sound() && archive.digest == contract.digest
      && Faithful(contract, archive.facts, archive.jobs)
    }

    lemma ReadyParts()
      requires Ready()
      ensures archive.Valid() && contract.Sound() && archive.digest == contract.digest
      ensures Faithful(contract, archive.facts, archive.jobs)
    {
    }

    lemma ReadyAgain()
      requires archive.Valid() && contract.Sound() && archive.digest == contract.digest
      requires Faithful(contract, archive.facts, archive.jobs)
      ensures Ready()
    {
    }

    /** The archive takes the facts under this task, which is open. */
    ghost predicate Publishable(key: string, task: nat, now: Time, drafts: seq<FactDraft>)
      reads archive
    {
      var operation := Operation("refresh", None, None, Some(task));
      && ValidOperation(key, operation) && ValidFacts(archive.supported, drafts, now)
      && archive.OperationIsOpen(operation)
      && archive.SourcesAreKnown(drafts, archive.blobs + archive.PayloadDigests(drafts))
      && forall i :: 0 <= i < |drafts| ==> !Malformed(|archive.facts.observations| + i + 1, drafts[i])
    }

    /** publication, then publish when there is none. */
    method PublishOnce(key: string, task: nat, now: Time, drafts: seq<FactDraft>) returns (ok: bool)
      requires archive.Valid()
      modifies archive
      ensures archive.Valid() && archive.jobs == old(archive.jobs) && old(archive.blobs) <= archive.blobs
      ensures OncePublished(old(archive.facts), archive.facts, key, drafts, ok)
      ensures ok <==> FindBatch(old(archive.facts.batches), key).Some? || old(Publishable(key, task, now, drafts))
    {
      hide ObservationArchive.Valid, ValidFacts, ValidOperation, Malformed, ObservationArchive.SourcesAreKnown;
      if FindBatch(archive.facts.batches, key).Some? {
        return true;
      }
      var published := archive.Publish(key, Operation("refresh", None, None, Some(task)), now, drafts);
      ok := published.Ok?;
    }

    /** The archive takes a scan of each of the first n sources, and any reconstruction. */
    ghost predicate Takes(observations: seq<Observation>, known: set<string>, n: nat, now: Time) {
      n <= |observations| && AllRecordable(contract, archive.supported, observations[..n], known, now)
    }

    lemma TakesAll(now: Time)
      requires AllRecordable(contract, archive.supported, archive.facts.observations, archive.blobs, now)
      ensures Takes(archive.facts.observations, archive.blobs, |archive.facts.observations|, now)
    {
      hide AllRecordable;
      assert archive.facts.observations[..|archive.facts.observations|] == archive.facts.observations;
    }

    lemma StillTakes(before: seq<Observation>, known: set<string>, after: seq<Observation>, more: set<string>, n: nat,
                     now: Time)
      requires before <= after && known <= more
      ensures Takes(before, known, n, now) ==> Takes(after, more, n, now)
    {
      hide AllRecordable;
      if Takes(before, known, n, now) {
        assert after[..n] == before[..n];
        StaysRecordable(contract, archive.supported, before[..n], known, more, now);
      }
    }

    lemma RecordedScans(job: nat, task: nat, id: nat, n: nat, now: Time)
      requires Takes(archive.facts.observations, archive.blobs, n, now)
      requires 1 <= id <= n && IsSource(contract, archive.facts.observations[id - 1].fact)
      requires IsOpen(archive.jobs, task) && archive.digest == contract.digest
      ensures CanScan(job, task, id, now)
    {
      hide IsSource, IsAdmitted, ValidFacts, ValidOperation, Malformed, FindBatch, ScanFact;
      var source := archive.facts.observations[id - 1].fact;
      assert archive.facts.observations[..n][id - 1] == archive.facts.observations[id - 1];
      ScanIsValid(contract, archive.supported, archive.blobs, now, id, source, task);
    }

    lemma RecordedCommits(job: nat, task: nat, shas: seq<string>, n: nat, now: Time)
      requires Takes(archive.facts.observations, archive.blobs, n, now)
      requires IsOpen(archive.jobs, task) && shas != [] && Distinct(shas)
      ensures CanRetain(job, task, shas, now)
    {
      hide IsSource, IsAdmitted, ValidFacts, ValidOperation, Malformed, FindBatch, CommitFacts, IsCommitObject;
      CommitFactsAre(shas, now);
      ReconstructionsAreValid(contract, archive.supported, retain, now, shas, CommitFacts(shas, now), task);
    }

    /** The source can be read, and its scan is published already or can be. */
    ghost predicate CanScan(job: nat, task: nat, id: nat, now: Time)
      requires 1 <= id <= |archive.facts.observations|
      reads archive
    {
      var source, key := archive.facts.observations[id - 1].fact, contract.scanKey(job, task, id);
      && contract.extract(source).Some?
      && (|| FindBatch(archive.facts.batches, key).Some?
          || Publishable(key, task, now, [ScanFact(contract, id, source, contract.extract(source).value)]))
    }

    /** One source of a scan batch. */
    method ScanSource(job: nat, task: nat, id: nat, now: Time) returns (ok: bool)
      requires Ready() && 1 <= id <= |archive.facts.observations|
      modifies archive
      ensures Ready() && Grows(old(archive.facts), old(archive.jobs), archive.facts, archive.jobs)
      ensures archive.jobs == old(archive.jobs)
      ensures ok ==> HasScan(contract, archive.facts.observations, id)
      ensures Adds(contract, retain, now, old(archive.facts.observations), archive.facts.observations)
      ensures ok <==> old(CanScan(job, task, id, now))
      ensures old(archive.blobs) <= archive.blobs
    {
      hide *;
      ReadyParts();
      AddsNothing(contract, retain, now, archive.facts.observations);
      CanScanParts(job, task, id, now);
      var source := archive.facts.observations[id - 1].fact;
      var references := contract.extract(source);
      NothingGrows(archive.facts, archive.jobs);
      if references.None? {
        return false;
      }
      var key := contract.scanKey(job, task, id);
      ghost var before := archive.facts;
      ok := PublishOnce(key, task, now, [ScanFact(contract, id, source, references.value)]);
      ScanPublished(contract, before, archive.facts, archive.jobs, job, task, id, references.value, ok);
      ScanAdds(contract, retain, now, before, archive.facts, key, id, references.value, ok);
      ReadyAgain();
    }

    function CommitFact(sha: string, now: Time): FactDraft {
      FactDraft("commit-object", 2, "commit:" + sha, None, None, "git", now, now, retain(sha).0, retain(sha).1)
    }

    /** The batch is open, the sources are among the first n, and the archive takes their scans. */
    ghost predicate CanScanAll(task: nat, ids: seq<nat>, n: nat, now: Time)
      reads archive
    {
      && Takes(archive.facts.observations, archive.blobs, n, now) && IsOpen(archive.jobs, task)
      && AreSources(contract, archive.facts.observations, n, ids)
    }

    lemma CanScanAllParts(task: nat, ids: seq<nat>, n: nat, now: Time)
      ensures CanScanAll(task, ids, n, now) ==>
        && Takes(archive.facts.observations, archive.blobs, n, now) && IsOpen(archive.jobs, task)
        && AreSources(contract, archive.facts.observations, n, ids)
    {
      hide AllRecordable, AreSources, IsOpen;
    }

    /** structured_commits: one publication per source of the batch. */
    method StructuredCommits(job: nat, task: nat, ids: seq<nat>, now: Time, ghost n: nat) returns (ok: bool)
      requires Ready() && forall i :: 0 <= i < |ids| ==> 1 <= ids[i] <= |archive.facts.observations|
      modifies archive
      ensures Ready() && Grows(old(archive.facts), old(archive.jobs), archive.facts, archive.jobs)
      ensures archive.jobs == old(archive.jobs)
      ensures ok ==> forall i :: 0 <= i < |ids| ==> HasScan(contract, archive.facts.observations, ids[i])
      ensures Adds(contract, retain, now, old(archive.facts.observations), archive.facts.observations)
      ensures old(archive.blobs) <= archive.blobs
      ensures old(CanScanAll(task, ids, n, now)) ==> ok
    {
      hide *;
      ghost var able := CanScanAll(task, ids, n, now);
      CanScanAllParts(task, ids, n, now);
      AddsNothing(contract, retain, now, archive.facts.observations);
      NothingGrows(archive.facts, archive.jobs);
      for i := 0 to |ids|
        invariant Ready() && Grows(old(archive.facts), old(archive.jobs), archive.facts, archive.jobs)
        invariant archive.jobs == old(archive.jobs) && |archive.facts.observations| >= |old(archive.facts.observations)|
        invariant forall j :: 0 <= j < i ==> HasScan(contract, archive.facts.observations, ids[j])
        invariant Adds(contract, retain, now, old(archive.facts.observations), archive.facts.observations)
        invariant old(archive.facts.observations) <= archive.facts.observations
        invariant old(archive.blobs) <= archive.blobs && (able ==> Takes(archive.facts.observations, archive.blobs, n, now))
      {
        ghost var before, known := archive.facts, archive.blobs;
        if able {
          SourceStays(contract, old(archive.facts.observations), archive.facts.observations, n, ids, i);
          ReadyParts();
          RecordedScans(job, task, ids[i], n, now);
        }
        ok := ScanSource(job, task, ids[i], now);
        GrowsOn(old(archive.facts), before, archive.facts, archive.jobs);
        StillTakes(before.observations, known, archive.facts.observations, archive.blobs, n, now);
        AddsOn(contract, retain, now, old(archive.facts.observations), before.observations, archive.facts.observations);
        if !ok {
          return false;
        }
        forall j | 0 <= j < i ensures HasScan(contract, archive.facts.observations, ids[j]) {
          ScanStays(contract, before.observations, archive.facts.observations, ids[j]);
        }
      }
      ok := true;
    }

    ghost predicate CanRetain(job: nat, task: nat, shas: seq<string>, now: Time)
      reads archive
    {
      || FindBatch(archive.facts.batches, contract.commitKey(job, task)).Some?
      || Publishable(contract.commitKey(job, task), task, now, CommitFacts(shas, now))
    }

    lemma CanRetainParts(job: nat, task: nat, shas: seq<string>, now: Time)
      ensures CanRetain(job, task, shas, now) <==>
        || FindBatch(archive.facts.batches, contract.commitKey(job, task)).Some?
        || Publishable(contract.commitKey(job, task), task, now, CommitFacts(shas, now))
    {
    }

    lemma CanScanParts(job: nat, task: nat, id: nat, now: Time)
      requires 1 <= id <= |archive.facts.observations|
      ensures var source, key := archive.facts.observations[id - 1].fact, contract.scanKey(job, task, id);
        CanScan(job, task, id, now) <==>
          && contract.extract(source).Some?
          && (|| FindBatch(archive.facts.batches, key).Some?
              || Publishable(key, task, now, [ScanFact(contract, id, source, contract.extract(source).value)]))
    {
    }

    /** run of a commit batch: one publication with a reconstruction per SHA. */
    method RetainCommits(job: nat, task: nat, shas: seq<string>, now: Time) returns (ok: bool)
      requires Ready() && 1 <= task <= |archive.jobs.tasks|
      requires forall sha :: CoversCommit(contract, archive.jobs.tasks[task - 1].draft, sha) ==> sha in shas
      modifies archive
      ensures Ready() && Grows(old(archive.facts), old(archive.jobs), archive.facts, archive.jobs)
      ensures archive.jobs == old(archive.jobs)
      ensures ok ==> forall sha :: CoversCommit(contract, archive.jobs.tasks[task - 1].draft, sha) ==>
        HasCommit(archive.facts.observations, sha)
      ensures Adds(contract, retain, now, old(archive.facts.observations), archive.facts.observations)
      ensures ok && FindBatch(old(archive.facts.batches), contract.commitKey(job, task)).None? ==>
        Reconstructs(retain, now, old(archive.facts.observations), archive.facts.observations, shas)
      ensures ok <==> old(CanRetain(job, task, shas, now))
      ensures old(archive.blobs) <= archive.blobs
    {
      hide *;
      ReadyParts();
      CanRetainParts(job, task, shas, now);
      ghost var before := archive.facts;
      var drafts := CommitFacts(shas, now);
      ok := PublishOnce(contract.commitKey(job, task), task, now, drafts);
      CommitFactsAre(shas, now);
      CommitsPublished(contract, before, archive.facts, archive.jobs, job, task, shas, drafts, ok);
      CommitsAdd(contract, retain, now, before, archive.facts, contract.commitKey(job, task), shas, drafts, ok);
      ReadyAgain();
    }

    function CommitFacts(shas: seq<string>, now: Time): seq<FactDraft> {
      seq(|shas|, i requires 0 <= i < |shas| => CommitFact(shas[i], now))
    }

    lemma CommitFactsAre(shas: seq<string>, now: Time)
      ensures |CommitFacts(shas, now)| == |shas|
      ensures forall i :: 0 <= i < |shas| ==>
        IsCommitObject(CommitFacts(shas, now)[i], shas[i]) && IsReconstruction(retain, now, CommitFacts(shas, now)[i], shas[i])
    {
    }

    /** _execute_task for the two kinds of backfill tasks. */
    method ExecuteTask(job: nat, task: nat, now: Time, ghost n: nat) returns (ok: bool)
      requires Ready() && 1 <= task <= |archive.jobs.tasks|
      modifies archive
      ensures Ready() && Grows(old(archive.facts), old(archive.jobs), archive.facts, archive.jobs)
      ensures archive.jobs == old(archive.jobs)
      ensures ok ==> TaskDone(contract, archive.facts.observations, archive.jobs.tasks[task - 1].draft)
      ensures ok ==> IsExecutable(contract, old(archive.facts.observations), archive.jobs.tasks[task - 1].draft)
      ensures Adds(contract, retain, now, old(archive.facts.observations), archive.facts.observations)
      ensures old(archive.blobs) <= archive.blobs
      ensures old(CanExecute(task, n, now)) ==> ok
    {
      hide *;
      ghost var able := CanExecute(task, n, now);
      AddsNothing(contract, retain, now, archive.facts.observations);
      NothingGrows(archive.facts, archive.jobs);
      var draft := archive.jobs.tasks[task - 1].draft;
      var scope := contract.decode(draft.input);
      if scope.None? {
        NothingExecutes(task, n, now);
        return false;
      }
      match scope.value
      case ScanScope(cutoff, ids) =>
        ScanExecutes(task, cutoff, ids, n, now);
        if draft.kind != SCAN_KIND || !ScansExist(archive.facts.observations, cutoff, ids) {
          return false;
        }
        IdsInside(archive.facts.observations, cutoff, ids);
        ok := StructuredCommits(job, task, ids, now, n);
        if ok {
          ScanTaskDone(contract, archive.facts.observations, draft, cutoff, ids);
        }
        ScanIsExecutable(old(archive.facts.observations), draft, cutoff, ids);
      case CommitScope(cutoff, shas) =>
        CommitsExecute(job, task, cutoff, shas, n, now);
        var distinct := AllDistinct(shas);
        if draft.kind != COMMIT_KIND || shas == [] || !distinct {
          return false;
        }
        OnlyCommits(contract, draft, cutoff, shas);
        ok := RetainCommits(job, task, shas, now);
        if ok {
          CommitTaskDone(contract, archive.facts.observations, draft, cutoff, shas);
        }
        CommitIsExecutable(contract, old(archive.facts.observations), draft, cutoff, shas);
    }

    /** The batch is open and fits its kind, and the archive takes what it makes. */
    ghost predicate CanExecute(task: nat, n: nat, now: Time)
      requires 1 <= task <= |archive.jobs.tasks|
      reads archive
    {
      && Takes(archive.facts.observations, archive.blobs, n, now) && IsOpen(archive.jobs, task)
      && IsExecutable(contract, archive.facts.observations[..n], archive.jobs.tasks[task - 1].draft)
    }

    lemma CanExecuteParts(task: nat, n: nat, now: Time)
      requires 1 <= task <= |archive.jobs.tasks|
      ensures CanExecute(task, n, now) <==>
        && Takes(archive.facts.observations, archive.blobs, n, now) && IsOpen(archive.jobs, task)
        && IsExecutable(contract, archive.facts.observations[..n], archive.jobs.tasks[task - 1].draft)
    {
      hide AllRecordable, IsOpen, IsExecutable;
    }

    lemma NothingExecutes(task: nat, n: nat, now: Time)
      requires 1 <= task <= |archive.jobs.tasks| && contract.decode(archive.jobs.tasks[task - 1].draft.input).None?
      ensures !CanExecute(task, n, now)
    {
    }

    lemma ScanExecutes(task: nat, cutoff: nat, ids: seq<nat>, n: nat, now: Time)
      requires 1 <= task <= |archive.jobs.tasks|
      requires contract.decode(archive.jobs.tasks[task - 1].draft.input) == Some(ScanScope(cutoff, ids))
      ensures CanExecute(task, n, now) ==>
        && CanScanAll(task, ids, n, now) && archive.jobs.tasks[task - 1].draft.kind == SCAN_KIND
        && ScansExist(archive.facts.observations, cutoff, ids)
    {
      hide AllRecordable, IsOpen;
      if CanExecute(task, n, now) {
        var part := archive.facts.observations[..n];
        forall i | 0 <= i < |ids|
          ensures 1 <= ids[i] <= cutoff && ids[i] <= n && IsSource(contract, archive.facts.observations[ids[i] - 1].fact)
        {
          assert part[ids[i] - 1] == archive.facts.observations[ids[i] - 1];
        }
      }
    }

    lemma CommitsExecute(job: nat, task: nat, cutoff: nat, shas: seq<string>, n: nat, now: Time)
      requires 1 <= task <= |archive.jobs.tasks|
      requires contract.decode(archive.jobs.tasks[task - 1].draft.input) == Some(CommitScope(cutoff, shas))
      ensures CanExecute(task, n, now) ==>
        && archive.jobs.tasks[task - 1].draft.kind == COMMIT_KIND && shas != [] && Distinct(shas)
        && CanRetain(job, task, shas, now)
    {
      hide AllRecordable, IsOpen, CanRetain;
      if CanExecute(task, n, now) {
        RecordedCommits(job, task, shas, n, now);
      }
    }

    /** iter_structured_commit_sources returns exactly the ids of the scope. */
    predicate ScansExist(observations: seq<Observation>, cutoff: nat, ids: seq<nat>) {
      ids != [] && forall i | 0 <= i < |ids| ::
        1 <= ids[i] <= cutoff && ids[i] <= |observations| && IsSource(contract, observations[ids[i] - 1].fact)
    }

    lemma ScanIsExecutable(observations: seq<Observation>, draft: TaskDraft, cutoff: nat, ids: seq<nat>)
      requires draft.kind == SCAN_KIND && contract.decode(draft.input) == Some(ScanScope(cutoff, ids))
      requires ScansExist(observations, cutoff, ids)
      ensures IsExecutable(contract, observations, draft)
    {
    }

    lemma IdsInside(observations: seq<Observation>, cutoff: nat, ids: seq<nat>)
      requires ScansExist(observations, cutoff, ids)
      ensures forall i :: 0 <= i < |ids| ==> 1 <= ids[i] <= |observations|
    {
    }

    /** The coverage a completed task reports. */
    function OutcomeOf(draft: TaskDraft): Outcome {
      match contract.decode(draft.input)
      case Some(CommitScope(_, shas)) => AggregateCoverage(seq(|shas|, i requires 0 <= i < |shas| => retain(shas[i]).0))
      case _ => Complete
    }

    lemma OutcomeOfSays(draft: TaskDraft)
      ensures OutcomeSays(contract, retain, draft, OutcomeOf(draft))
    {
      hide OutcomeRank;
      match contract.decode(draft.input)
      case Some(CommitScope(_, shas)) =>
        var outcomes := seq(|shas|, i requires 0 <= i < |shas| => retain(shas[i]).0);
        assert OutcomeOf(draft) == AggregateCoverage(outcomes);
        forall i | 0 <= i < |shas| ensures OutcomeRank(retain(shas[i]).0) <= OutcomeRank(OutcomeOf(draft)) {
          assert outcomes[i] == retain(shas[i]).0;
        }
      case _ =>
    }

    /** _guard_task: the task is completed only after its work is in the archive. */
    method GuardTask(job: nat, task: nat, now: Time, ghost n: nat) returns (ok: bool)
      requires Ready() && 1 <= task <= |archive.jobs.tasks|
      modifies archive
      ensures Ready() && Grows(old(archive.facts), old(archive.jobs), archive.facts, archive.jobs)
      ensures CompletesAtMost(old(archive.jobs), archive.jobs, task, ok)
      ensures Adds(contract, retain, now, old(archive.facts.observations), archive.facts.observations)
      ensures TasksSay(contract, retain, old(archive.jobs.tasks), archive.jobs.tasks)
      ensures old(CanExecute(task, n, now) && archive.jobs.tasks[task - 1].attemptFrom == Some(now)) ==> ok
      ensures old(archive.facts.observations) <= archive.facts.observations
      ensures old(Takes(archive.facts.observations, archive.blobs, n, now)) ==>
        Takes(archive.facts.observations, archive.blobs, n, now)
    {
      hide *;
      ghost var able := CanExecute(task, n, now) && archive.jobs.tasks[task - 1].attemptFrom == Some(now);
      ghost var known := archive.blobs;
      CanExecuteParts(task, n, now);
      var done := ExecuteTask(job, task, now, n);
      ghost var facts, jobs := archive.facts, archive.jobs;
      ReadyParts();
      if !done {
        var recorded := archive.RecordMaintenanceTaskError(task, now, "task failed");
        ErrorRecorded(jobs, archive.jobs, task, now, "task failed", recorded.Ok?);
        ErrorSays(contract, retain, jobs, archive.jobs, task, now, "task failed", recorded.Ok?);
      } else {
        if able {
          OpenCompletes(archive.jobs, task, now, OutcomeOf(archive.jobs.tasks[task - 1].draft));
        }
        var completed := archive.CompleteMaintenanceTask(task, now, OutcomeOf(archive.jobs.tasks[task - 1].draft));
        ok := completed.Ok?;
        TaskCompleted(jobs, archive.jobs, task, now, OutcomeOf(jobs.tasks[task - 1].draft), ok);
        OutcomeOfSays(jobs.tasks[task - 1].draft);
        CompletionSays(contract, retain, jobs, archive.jobs, task, now, OutcomeOf(jobs.tasks[task - 1].draft), ok);
      }
      ok := done && ok;
      AtMostIsFaithful(contract, facts, jobs, archive.jobs, task, ok);
      GrowsTwice(old(archive.facts), old(archive.jobs), facts, jobs, archive.facts, archive.jobs);
      StillTakes(old(archive.facts.observations), known, archive.facts.observations, archive.blobs, n, now);
      ReadyAgain();
    }

    /** The body of the run loop: scan batches first, other tasks once no scan batch is pending. */
    method ClaimTasks(job: nat, now: Time) returns (claimed: seq<nat>)
      requires Ready() && concurrency >= 1
      modifies archive`jobs
      ensures Ready() && SameProgress(old(archive.jobs), archive.jobs)
      ensures forall t :: t in claimed ==> t < |archive.jobs.tasks| && IsPending(archive.jobs, job, None, t)
      ensures forall s :: 0 <= s < |archive.jobs.tasks| && IsPending(archive.jobs, job, Some(SCAN_KIND), s) ==>
        forall t :: t in claimed ==> t < |archive.jobs.tasks| && archive.jobs.tasks[t].draft.kind == SCAN_KIND
      ensures Distinct(claimed)
      ensures forall t :: t in claimed ==> t < |archive.jobs.tasks| && archive.jobs.tasks[t].attemptFrom == Some(now)
      ensures IsActiveJob(old(archive.jobs), job) && claimed == [] ==>
        forall t: nat :: t < |archive.jobs.tasks| ==> !IsPending(archive.jobs, job, None, t)
    {
      hide *;
      ReadyParts();
      NoProgress(archive.jobs);
      NoneIsDistinct();
      ghost var before := archive.jobs;
      var scans := archive.TakeMaintenanceTasks(job, concurrency, now, Some(SCAN_KIND));
      if scans.Ok? {
        ClaimKeeps(before, archive.jobs, job, Some(SCAN_KIND), concurrency, now, scans.value);
      }
      KeepsFaithful(contract, archive.facts, before, archive.jobs);
      ReadyAgain();
      if scans.Failure? {
        return [];
      }
      if scans.value != [] {
        return scans.value;
      }
      ghost var between := archive.jobs;
      StillActive(before, between, job);
      var tasks := archive.TakeMaintenanceTasks(job, concurrency, now, None);
      if tasks.Ok? {
        ClaimKeeps(between, archive.jobs, job, None, concurrency, now, tasks.value);
        ProgressOn(before, between, archive.jobs);
        StillNone(between, archive.jobs, job);
      }
      KeepsFaithful(contract, archive.facts, before, archive.jobs);
      ReadyAgain();
      claimed := if tasks.Ok? then tasks.value else [];
    }

    lemma NextCanExecute(start: seq<Observation>, job: nat, claimed: seq<nat>, n: nat, now: Time)
      requires Ready() && Takes(archive.facts.observations, archive.blobs, n, now)
      requires start <= archive.facts.observations && claimed != []
      requires AreClaimed(contract, start, n, archive.jobs, job, claimed, now)
      ensures claimed[0] < |archive.jobs.tasks| && CanExecute(claimed[0] + 1, n, now)
      ensures archive.jobs.tasks[claimed[0]].attemptFrom == Some(now)
    {
      hide *;
      ReadyParts();
      ArchiveParts(archive);
      NextIsOpen(contract, start, n, archive.jobs, job, claimed, now);
      ClaimedInside(contract, start, n, archive.jobs, job, claimed, now);
      assert archive.facts.observations[..n] == start[..n];
      CanExecuteParts(claimed[0] + 1, n, now);
    }

    /** The gathered attempts of one claim. */
    method GuardTasks(job: nat, claimed: seq<nat>, now: Time, ghost n: nat) returns (ok: bool)
      requires Ready() && forall t :: t in claimed ==> t < |archive.jobs.tasks|
      modifies archive
      ensures Ready() && Moves(old(archive.facts), old(archive.jobs), archive.facts, archive.jobs)
      ensures ok && claimed != [] ==> IsDone(archive.jobs, claimed[0])
      ensures Adds(contract, retain, now, old(archive.facts.observations), archive.facts.observations)
      ensures TasksSay(contract, retain, old(archive.jobs.tasks), archive.jobs.tasks)
      ensures old(Takes(archive.facts.observations, archive.blobs, n, now)) ==>
        Takes(archive.facts.observations, archive.blobs, n, now)
      ensures
        && old(Takes(archive.facts.observations, archive.blobs, n, now))
        && old(AreClaimed(contract, archive.facts.observations, n, archive.jobs, job, claimed, now))
        ==> ok
    {
      hide *;
      ghost var start, able := archive.facts.observations,
        Takes(archive.facts.observations, archive.blobs, n, now)
        && AreClaimed(contract, archive.facts.observations, n, archive.jobs, job, claimed, now);
      assert claimed[0..] == claimed;
      AddsNothing(contract, retain, now, archive.facts.observations);
      ok := true;
      ghost var facts, jobs := archive.facts, archive.jobs;
      MovesNothing(facts, jobs);
      SaysNothing(contract, retain, jobs.tasks);
      for i := 0 to |claimed|
        invariant Ready() && Moves(facts, jobs, archive.facts, archive.jobs)
        invariant ok && i > 0 ==> IsDone(archive.jobs, claimed[0])
        invariant Adds(contract, retain, now, facts.observations, archive.facts.observations)
        invariant TasksSay(contract, retain, jobs.tasks, archive.jobs.tasks)
        invariant start <= archive.facts.observations
        invariant old(Takes(archive.facts.observations, archive.blobs, n, now)) ==>
          Takes(archive.facts.observations, archive.blobs, n, now)
        invariant able ==> ok && AreClaimed(contract, start, n, archive.jobs, job, claimed[i..], now)
      {
        ghost var before, between := archive.facts, archive.jobs;
        assert claimed[i] in claimed;
        MovesInside(facts, jobs, archive.facts, archive.jobs);
        if able {
          NextCanExecute(start, job, claimed[i..], n, now);
        }
        var done := GuardTask(job, claimed[i] + 1, now, n);
        GuardMoves(before, between, archive.facts, archive.jobs, claimed[i] + 1, done);
        AddsOn(contract, retain, now, facts.observations, before.observations, archive.facts.observations);
        SaysOn(contract, retain, jobs.tasks, between.tasks, archive.jobs.tasks);
        MovesOn(facts, jobs, before, between, archive.facts, archive.jobs);
        if able {
          OthersStayClaimed(contract, start, n, between, archive.jobs, job, claimed[i..], now, done);
          assert claimed[i..][1..] == claimed[i + 1..];
        }
        if i > 0 && ok {
          StaysDone(before, between, archive.facts, archive.jobs, claimed[0]);
        }
        ok := ok && done;
      }
    }

    /** _run: until the job is complete, or an attempt fails. */
    method Run(job: nat, now: Time, ghost n: nat) returns (complete: bool)
      requires Ready() && concurrency >= 1 && 1 <= job <= |archive.jobs.jobs|
      modifies archive
      ensures Ready() && Moves(old(archive.facts), old(archive.jobs), archive.facts, archive.jobs)
      ensures complete ==> 1 <= job <= |archive.jobs.jobs| && !archive.jobs.jobs[job - 1].Active()
      ensures Adds(contract, retain, now, old(archive.facts.observations), archive.facts.observations)
      ensures TasksSay(contract, retain, old(archive.jobs.tasks), archive.jobs.tasks)
      ensures
        && old(Takes(archive.facts.observations, archive.blobs, n, now))
        && old(AllExecutable(contract, archive.facts.observations, n, archive.jobs, job))
        ==> complete
    {
      hide *;
      ghost var able := Takes(archive.facts.observations, archive.blobs, n, now)
        && AllExecutable(contract, archive.facts.observations, n, archive.jobs, job);
      AddsNothing(contract, retain, now, archive.facts.observations);
      ghost var facts, jobs := archive.facts, archive.jobs;
      MovesNothing(facts, jobs);
      SaysNothing(contract, retain, jobs.tasks);
      while IsActiveJob(archive.jobs, job)
        invariant Ready() && Moves(facts, jobs, archive.facts, archive.jobs)
        invariant Adds(contract, retain, now, facts.observations, archive.facts.observations)
        invariant TasksSay(contract, retain, jobs.tasks, archive.jobs.tasks)
        invariant able ==>
          && Takes(archive.facts.observations, archive.blobs, n, now)
          && AllExecutable(contract, archive.facts.observations, n, archive.jobs, job)
        decreases Left(archive.jobs, job)
      {
        ghost var before, rows := archive.facts, archive.jobs;
        ReadyParts();
        ArchiveParts(archive);
        ghost var pending := ActiveHasPending(archive.jobs, job);
        var claimed := ClaimTasks(job, now);
        ghost var between, claims := archive.facts, archive.jobs;
        ClaimMoves(before, rows, claims, job, claimed);
        ClaimSays(contract, retain, rows, claims);
        SaysOn(contract, retain, jobs.tasks, rows.tasks, claims.tasks);
        MovesOn(facts, jobs, before, rows, between, claims);
        if claimed == [] {
          if able {
            StillPending(rows, claims, job, pending);
          }
          return false;
        }
        if able {
          ClaimedAreExecutable(contract, before.observations, n, rows, claims, job, claimed, now);
        }
        var ok := GuardTasks(job, claimed, now, n);
        MovesOn(facts, jobs, between, claims, archive.facts, archive.jobs);
        AddsOn(contract, retain, now, facts.observations, between.observations, archive.facts.observations);
        SaysOn(contract, retain, jobs.tasks, claims.tasks, archive.jobs.tasks);
        if !ok {
          return false;
        }
        LeftShrinks(before, rows, claims, archive.facts, archive.jobs, job, claimed[0]);
        if able {
          MovesOn(before, rows, between, claims, archive.facts, archive.jobs);
          StaysAllExecutable(contract, before.observations, n, before, rows, archive.facts, archive.jobs, job);
          MoreExecutable(contract, before, rows, archive.facts, archive.jobs, n, job);
        }
      }
      MovesInside(facts, jobs, archive.facts, archive.jobs);
      NotActive(archive.jobs, job);
      complete := true;
    }

    /** The start of backfill: the active job when it is this backfill, the job of that key when there is one,
    and otherwise a new job over the frozen population of everything observed so far. */
    method ChooseBackfill(caller: Option<string>, now: Time) returns (job: Option<nat>, ghost plan: Plan)
      requires Ready() && AllPlanned(contract, archive.facts.observations, archive.jobs)
      modifies archive`jobs
      ensures Ready() && AllPlanned(contract, archive.facts.observations, archive.jobs)
      ensures AddsPending(old(archive.jobs.tasks), archive.jobs.tasks)
      ensures job.Some? ==>
        && IsBackfill(contract, archive.facts.observations, archive.jobs, job.value, plan)
        && Chosen(contract, old(archive.jobs.jobs), archive.jobs.jobs, caller, job.value)
      ensures job.Some? && job.value > |old(archive.jobs.jobs)| ==> plan.cutoff == |archive.facts.observations|
      ensures ActiveJob(old(archive.jobs.jobs)).Some? ==>
        && archive.jobs == old(archive.jobs)
        && (job.Some? <==> Resumes(contract, archive.jobs.jobs[ActiveJob(archive.jobs.jobs).value], caller))
      ensures ActiveJob(old(archive.jobs.jobs)).None? ==>
        (job.Some? <==> CanStart(contract, archive.facts.observations, old(archive.jobs.jobs), caller))
    {
      hide *;
      plan := Plan(0, [], []);
      ReadyParts();
      NothingPending(archive.jobs.tasks);
      CanStartParts(contract, archive.facts.observations, archive.jobs.jobs, caller);
      var active := ActiveJob(archive.jobs.jobs);
      if active.Some? {
        if !Resumes(contract, archive.jobs.jobs[active.value], caller) {
          return None, plan;
        }
        plan := PlanOf(contract, archive.facts.observations, archive.jobs, active.value, caller);
        ActiveIsChosen(contract, archive.jobs.jobs, caller);
        return Some(active.value + 1), plan;
      }
      if caller.Some? {
        if CallerKey(caller.value).None? {
          return None, plan;
        }
        var existing := FindJob(archive.jobs.jobs, CallerKey(caller.value).value);
        if existing.Some? {
          if !IsOurs(contract, archive.jobs.jobs[existing.value]) {
            return None, plan;
          }
          plan := PlanOfOurs(contract, archive.facts.observations, archive.jobs, existing.value);
          ExistingIsChosen(contract, archive.jobs.jobs, caller, existing.value);
          return Some(existing.value + 1), plan;
        }
      }
      job, plan := StartBackfill(caller, now);
    }

    method StartBackfill(caller: Option<string>, now: Time) returns (job: Option<nat>, ghost plan: Plan)
      requires Ready() && AllPlanned(contract, archive.facts.observations, archive.jobs)
      requires ActiveJob(archive.jobs.jobs).None?
      requires caller.Some? ==> CallerKey(caller.value).Some?
      modifies archive`jobs
      ensures Ready() && AllPlanned(contract, archive.facts.observations, archive.jobs)
      ensures AddsPending(old(archive.jobs.tasks), archive.jobs.tasks)
      ensures job.Some? ==>
        && IsBackfill(contract, archive.facts.observations, archive.jobs, job.value, plan)
        && Chosen(contract, old(archive.jobs.jobs), archive.jobs.jobs, caller, job.value)
      ensures job.Some? && job.value > |old(archive.jobs.jobs)| ==> plan.cutoff == |archive.facts.observations|
      ensures job.Some? <==> SourcesAreReadable(contract, archive.facts.observations)
    {
      hide *;
      ReadyParts();
      NothingPending(archive.jobs.tasks);
      plan := Plan(0, [], []);
      var planned := PlanBackfill(contract, archive.facts.observations);
      if planned.None? {
        return None, plan;
      }
      plan := planned.value;
      var drafts := PlanTasks(contract, planned.value);
      var scope := contract.scopeOf(archive.facts.observations, planned.value);
      var key := if caller.Some? then CallerKey(caller.value).value
        else contract.populationKey(|archive.facts.observations|, scope);
      NewKeyIsOurs(contract, caller, key, |archive.facts.observations|, scope);
      var existing := FindJob(archive.jobs.jobs, key);
      if existing.Some? {
        plan := PlanOfKey(contract, archive.facts.observations, archive.jobs, existing.value);
        KeyIsChosen(contract, archive.jobs.jobs, caller, existing.value);
        return Some(existing.value + 1), plan;
      }
      ghost var facts, jobs := archive.facts, archive.jobs;
      PlanIsRequest(contract, plan, key);
      var started := archive.StartMaintenanceJob(key, "backfill", now, scope, drafts);
      assert started.Ok?;
      JobHasTasks(archive.jobs, started.value, "backfill", now, scope, drafts);
      StartIsFaithful(contract, facts, jobs, archive.jobs, started.value, drafts, plan);
      StartIsPending(jobs.tasks, archive.jobs.tasks);
      StartIsPlanned(contract, facts.observations, jobs, archive.jobs, plan);
      NewIsChosen(contract, jobs.jobs, archive.jobs.jobs, caller);
      ReadyAgain();
      job := Some(started.value);
    }

    /** backfill: choose the job, and run it. */
    method RunBackfill(caller: Option<string>, now: Time) returns (complete: bool, job: Option<nat>, ghost plan: Plan)
      requires Ready() && concurrency >= 1 && AllPlanned(contract, archive.facts.observations, archive.jobs)
      modifies archive
      ensures Ready() && AllPlanned(contract, archive.facts.observations, archive.jobs)
      ensures job.Some? ==>
        && IsBackfill(contract, archive.facts.observations, archive.jobs, job.value, plan)
        && Chosen(contract, old(archive.jobs.jobs), archive.jobs.jobs, caller, job.value)
      ensures job.Some? && job.value > |old(archive.jobs.jobs)| ==> plan.cutoff == |old(archive.facts.observations)|
      ensures ActiveJob(old(archive.jobs.jobs)).Some? ==>
        (job.Some? <==> Resumes(contract, old(archive.jobs.jobs)[ActiveJob(old(archive.jobs.jobs)).value], caller))
      ensures ActiveJob(old(archive.jobs.jobs)).None? ==>
        (job.Some? <==> CanStart(contract, old(archive.facts.observations), old(archive.jobs.jobs), caller))
      ensures complete ==>
        && job.Some? && 1 <= job.value <= |archive.jobs.jobs| && !archive.jobs.jobs[job.value - 1].Active()
        && Baseline(contract, archive.facts.observations, plan.cutoff)
      ensures Adds(contract, retain, now, old(archive.facts.observations), archive.facts.observations)
      ensures EndsSay(contract, retain, old(archive.jobs.tasks), archive.jobs.tasks)
      ensures job.Some? && old(AllRecordable(contract, archive.supported, archive.facts.observations, archive.blobs, now))
        ==> complete
    {
      hide *;
      if AllRecordable(contract, archive.supported, archive.facts.observations, archive.blobs, now) {
        TakesAll(now);
      }
      ghost var first, tasks := archive.jobs.jobs, archive.jobs.tasks;
      AddsNothing(contract, retain, now, archive.facts.observations);
      job, plan := ChooseBackfill(caller, now);
      SaysNothing(contract, retain, archive.jobs.tasks);
      PendingEndsSay(contract, retain, tasks, archive.jobs.tasks, archive.jobs.tasks);
      if job.None? {
        return false, job, plan;
      }
      ghost var facts, rows := archive.facts, archive.jobs;
      BackfillIsJob(contract, facts.observations, rows, job.value, plan);
      ReadyParts();
      BackfillIsExecutable(contract, facts.observations, rows, job.value, plan);
      complete := Run(job.value, now, |facts.observations|);
      PendingEndsSay(contract, retain, tasks, rows.tasks, archive.jobs.tasks);
      MovesBackfill(contract, facts, rows, archive.facts, archive.jobs, job.value, plan);
      MovesPlanned(contract, facts, rows, archive.facts, archive.jobs);
      ChosenStays(contract, first, facts, rows, archive.facts, archive.jobs, caller, job.value);
      if complete {
        ReadyParts();
        ArchiveParts(archive);
        CompleteBackfill(contract, archive.facts, archive.jobs, job.value, plan);
      }
    }
  }

  // ---- Which job a backfill runs ----

  /** active_maintenance_job */
  function ActiveJob(jobs: seq<Jobs.Job>): (r: Option<nat>)
    ensures r.Some? ==> r.value < |jobs| && jobs[r.value].Active()
    ensures r.None? ==> forall i :: 0 <= i < |jobs| ==> !jobs[i].Active()
  {
    if jobs == [] then None
    else if jobs[|jobs| - 1].Active() then Some(|jobs| - 1)
    else ActiveJob(jobs[..|jobs| - 1])
  }

  /** _caller_key */
  function CallerKey(value: string): Option<string> {
    if value == "" || |value| > 200 then None else Some(BACKFILL_PREFIX + "caller:" + value)
  }

  /** The job was started for the request of this backfill. */
  predicate IsOurs(contract: Contract, job: Jobs.Job) {
    job.kind == "backfill" && contract.requested(job.scope)
  }

  predicate Resumes(contract: Contract, job: Jobs.Job, caller: Option<string>) {
    IsOurs(contract, job) && (caller.None? || CallerKey(caller.value) == Some(job.key))
  }

  /** With no active job: the caller's key is well-formed, its job is one of ours if there is one, and otherwise
  every source can be read. */
  predicate CanStart(contract: Contract, observations: seq<Observation>, jobs: seq<Jobs.Job>, caller: Option<string>) {
    if caller.Some? && CallerKey(caller.value).None? then false
    else if caller.Some? && FindJob(jobs, CallerKey(caller.value).value).Some? then
      IsOurs(contract, jobs[FindJob(jobs, CallerKey(caller.value).value).value])
    else SourcesAreReadable(contract, observations)
  }

  lemma CanStartParts(contract: Contract, observations: seq<Observation>, jobs: seq<Jobs.Job>, caller: Option<string>)
    ensures CanStart(contract, observations, jobs, caller) <==>
      if caller.Some? && CallerKey(caller.value).None? then false
      else if caller.Some? && FindJob(jobs, CallerKey(caller.value).value).Some? then
        IsOurs(contract, jobs[FindJob(jobs, CallerKey(caller.value).value).value])
      else SourcesAreReadable(contract, observations)
  {
  }

  /** The tasks of a plan make a valid job. */
  lemma PlanIsRequest(contract: Contract, plan: Plan, key: string)
    requires contract.Sound() && BACKFILL_PREFIX <= key
    ensures IsJobRequest(key, "backfill", PlanTasks(contract, plan))
  {
    hide DistinctKeys;
    PlanKeysAreDistinct(contract, plan);
  }

  /** A resumed job was active; another job has the caller's key, or is new when there is none with its key. */
  ghost predicate Chosen(contract: Contract, before: seq<Jobs.Job>, jobs: seq<Jobs.Job>, caller: Option<string>, job: nat) {
    && |before| <= |jobs| && 1 <= job <= |jobs| && SameJobs(before, jobs[..|before|])
    && (caller.Some? ==> CallerKey(caller.value) == Some(jobs[job - 1].key))
    && (job <= |before| && before[job - 1].Active() ==> Resumes(contract, before[job - 1], caller))
    && (job > |before| ==> forall i :: 0 <= i < |before| ==> !before[i].Active() && before[i].key != jobs[job - 1].key)
  }

  /** A caller's key has 1 to 200 characters and names the job; a job that is resumed is a backfill of this request. */
  lemma ChosenIsCalled(contract: Contract, before: seq<Jobs.Job>, jobs: seq<Jobs.Job>, caller: Option<string>, job: nat)
    requires Chosen(contract, before, jobs, caller, job)
    ensures caller.Some? ==> 1 <= |caller.value| <= 200 && jobs[job - 1].key == "backfill:caller:" + caller.value
    ensures job <= |before| && before[job - 1].Active() ==>
      && before[job - 1].kind == "backfill" && contract.requested(before[job - 1].scope)
      && (caller.Some? ==> before[job - 1].key == "backfill:caller:" + caller.value)
  {
  }

  /** Keys of that length are all admitted, and different keys name different jobs. */
  lemma CallersDiffer(a: string, b: string)
    ensures 1 <= |a| <= 200 ==> CallerKey(a).Some?
    ensures CallerKey(a).Some? && CallerKey(a) == CallerKey(b) ==> a == b
  {
    if CallerKey(a).Some? && CallerKey(a) == CallerKey(b) {
      var n := |BACKFILL_PREFIX + "caller:"|;
      assert CallerKey(a).value[n..] == a && CallerKey(b).value[n..] == b;
    }
  }

  /** Jobs that backfill starts: of its request, or named by it. */
  predicate IsBackfillJob(contract: Contract, job: Jobs.Job) {
    IsOurs(contract, job) || BACKFILL_PREFIX <= job.key
  }

  ghost predicate HasPlan(contract: Contract, observations: seq<Observation>, jobs: Jobs.JobTables, job: nat) {
    exists plan :: IsBackfill(contract, observations, jobs, job, plan)
  }

  /** Every backfill job has the tasks of a plan over the observations before it. */
  ghost predicate AllPlanned(contract: Contract, observations: seq<Observation>, jobs: Jobs.JobTables) {
    forall i :: 0 <= i < |jobs.jobs| && IsBackfillJob(contract, jobs.jobs[i]) ==>
      HasPlan(contract, observations, jobs, i + 1)
  }

  lemma PlanOfJob(contract: Contract, observations: seq<Observation>, jobs: Jobs.JobTables, i: nat) returns (plan: Plan)
    requires AllPlanned(contract, observations, jobs) && i < |jobs.jobs| && IsBackfillJob(contract, jobs.jobs[i])
    ensures IsBackfill(contract, observations, jobs, i + 1, plan)
  {
    hide IsBackfill, IsBackfillJob;
    assert HasPlan(contract, observations, jobs, i + 1);
    plan :| IsBackfill(contract, observations, jobs, i + 1, plan);
  }

  lemma PlanOf(contract: Contract, observations: seq<Observation>, jobs: Jobs.JobTables, i: nat, caller: Option<string>)
    returns (plan: Plan)
    requires AllPlanned(contract, observations, jobs) && i < |jobs.jobs| && Resumes(contract, jobs.jobs[i], caller)
    ensures IsBackfill(contract, observations, jobs, i + 1, plan)
  {
    plan := PlanOfJob(contract, observations, jobs, i);
  }

  lemma PlanOfOurs(contract: Contract, observations: seq<Observation>, jobs: Jobs.JobTables, i: nat) returns (plan: Plan)
    requires AllPlanned(contract, observations, jobs) && i < |jobs.jobs| && IsOurs(contract, jobs.jobs[i])
    ensures IsBackfill(contract, observations, jobs, i + 1, plan)
  {
    plan := PlanOfJob(contract, observations, jobs, i);
  }

  lemma PlanOfKey(contract: Contract, observations: seq<Observation>, jobs: Jobs.JobTables, i: nat) returns (plan: Plan)
    requires AllPlanned(contract, observations, jobs) && i < |jobs.jobs| && BACKFILL_PREFIX <= jobs.jobs[i].key
    ensures IsBackfill(contract, observations, jobs, i + 1, plan)
  {
    plan := PlanOfJob(contract, observations, jobs, i);
  }

  lemma ActiveIsChosen(contract: Contract, jobs: seq<Jobs.Job>, caller: Option<string>)
    requires ActiveJob(jobs).Some? && Resumes(contract, jobs[ActiveJob(jobs).value], caller)
    ensures Chosen(contract, jobs, jobs, caller, ActiveJob(jobs).value + 1)
  {
    hide ActiveJob, CallerKey, IsOurs;
    assert jobs[..|jobs|] == jobs;
  }

  lemma ExistingIsChosen(contract: Contract, jobs: seq<Jobs.Job>, caller: Option<string>, i: nat)
    requires caller.Some? && i < |jobs| && CallerKey(caller.value) == Some(jobs[i].key) && ActiveJob(jobs).None?
    ensures Chosen(contract, jobs, jobs, caller, i + 1)
  {
    hide CallerKey, IsOurs, Resumes;
    assert jobs[..|jobs|] == jobs;
  }

  lemma KeyIsChosen(contract: Contract, jobs: seq<Jobs.Job>, caller: Option<string>, i: nat)
    requires i < |jobs| && ActiveJob(jobs).None?
    requires caller.Some? ==> CallerKey(caller.value) == Some(jobs[i].key)
    ensures Chosen(contract, jobs, jobs, caller, i + 1)
  {
    hide CallerKey, IsOurs, Resumes;
    assert jobs[..|jobs|] == jobs;
  }

  lemma NewIsChosen(contract: Contract, before: seq<Jobs.Job>, jobs: seq<Jobs.Job>, caller: Option<string>)
    requires |jobs| == |before| + 1 && jobs[..|before|] == before && ActiveJob(before).None?
    requires caller.Some? ==> CallerKey(caller.value) == Some(jobs[|before|].key)
    requires FindJob(before, jobs[|before|].key).None?
    ensures Chosen(contract, before, jobs, caller, |jobs|)
  {
    hide CallerKey, IsOurs, Resumes;
  }

  lemma NewKeyIsOurs(contract: Contract, caller: Option<string>, key: string, cutoff: nat, scope: string)
    requires contract.Sound() && (caller.Some? ==> CallerKey(caller.value) == Some(key))
    requires caller.None? ==> key == contract.populationKey(cutoff, scope)
    ensures BACKFILL_PREFIX <= key
  {
  }

  lemma StartIsPlanned(contract: Contract, observations: seq<Observation>, jobs: Jobs.JobTables, after: Jobs.JobTables,
                       plan: Plan)
    requires AllPlanned(contract, observations, jobs) && jobs.tasks <= after.tasks
    requires |after.jobs| == |jobs.jobs| + 1 && after.jobs[..|jobs.jobs|] == jobs.jobs
    requires forall t :: |jobs.tasks| <= t < |after.tasks| ==> after.tasks[t].job == |after.jobs|
    requires IsBackfill(contract, observations, after, |after.jobs|, plan)
    ensures AllPlanned(contract, observations, after)
  {
    hide IsBackfill, IsBackfillJob;
    forall i | 0 <= i < |after.jobs| && IsBackfillJob(contract, after.jobs[i])
      ensures HasPlan(contract, observations, after, i + 1)
    {
      if i < |jobs.jobs| {
        assert after.jobs[i] == jobs.jobs[i];
        var old' := PlanOfJob(contract, observations, jobs, i);
        MoreTasks(contract, observations, jobs, after, i + 1, old');
      }
    }
  }

  lemma MoreTasks(contract: Contract, observations: seq<Observation>, jobs: Jobs.JobTables, after: Jobs.JobTables,
                  job: nat, plan: Plan)
    requires IsBackfill(contract, observations, jobs, job, plan)
    requires jobs.tasks <= after.tasks && |jobs.jobs| <= |after.jobs|
    requires forall t :: |jobs.tasks| <= t < |after.tasks| ==> after.tasks[t].job != job
    ensures IsBackfill(contract, observations, after, job, plan)
  {
    hide PlanCovers, PlanTasks;
    forall draft | draft in PlanTasks(contract, plan) ensures HasJobTask(after.tasks, job, draft) {
      var t :| 0 <= t < |jobs.tasks| && jobs.tasks[t].job == job && jobs.tasks[t].draft == draft;
      assert after.tasks[t] == jobs.tasks[t];
    }
  }

  lemma BackfillIsJob(contract: Contract, observations: seq<Observation>, jobs: Jobs.JobTables, job: nat, plan: Plan)
    requires IsBackfill(contract, observations, jobs, job, plan)
    ensures 1 <= job <= |jobs.jobs|
  {
  }

  lemma MovesPlanned(contract: Contract, facts: FactTables, jobs: Jobs.JobTables, later: FactTables, after: Jobs.JobTables)
    requires AllPlanned(contract, facts.observations, jobs) && Moves(facts, jobs, later, after)
    ensures AllPlanned(contract, later.observations, after)
  {
    hide IsBackfill;
    forall i | 0 <= i < |after.jobs| && IsBackfillJob(contract, after.jobs[i])
      ensures HasPlan(contract, later.observations, after, i + 1)
    {
      var plan := PlanOfJob(contract, facts.observations, jobs, i);
      MovesBackfill(contract, facts, jobs, later, after, i + 1, plan);
    }
  }

  lemma ChosenStays(contract: Contract, before: seq<Jobs.Job>, facts: FactTables, jobs: Jobs.JobTables, later: FactTables,
                    after: Jobs.JobTables, caller: Option<string>, job: nat)
    requires Chosen(contract, before, jobs.jobs, caller, job) && Moves(facts, jobs, later, after)
    ensures Chosen(contract, before, after.jobs, caller, job)
  {
    hide CallerKey, IsOurs, Resumes;
  }

  lemma ArchiveParts(archive: ObservationArchive)
    requires archive.Valid()
    ensures Jobs.JobsValid(archive.jobs)
  {
  }

  lemma NotActive(jobs: Jobs.JobTables, job: nat)
    requires 1 <= job <= |jobs.jobs| && !IsActiveJob(jobs, job)
    ensures !jobs.jobs[job - 1].Active()
  {
  }

  // ---- What every step of a run keeps ----

  /** Facts grow, jobs stay, tasks only become complete. */
  ghost predicate Moves(facts: FactTables, jobs: Jobs.JobTables, later: FactTables, after: Jobs.JobTables) {
    && facts.observations <= later.observations && SameJobs(jobs.jobs, after.jobs)
    && Jobs.Progresses(jobs.tasks, after.tasks)
  }

  /** What the stored jobs are stays. */
  ghost predicate SameJobs(jobs: seq<Jobs.Job>, after: seq<Jobs.Job>) {
    && |after| == |jobs|
    && forall i :: 0 <= i < |jobs| ==>
         after[i].key == jobs[i].key && after[i].kind == jobs[i].kind && after[i].scope == jobs[i].scope
  }

  predicate IsDone(jobs: Jobs.JobTables, t: nat) {
    t < |jobs.tasks| && jobs.tasks[t].completedAt.Some?
  }

  lemma MovesNothing(facts: FactTables, jobs: Jobs.JobTables)
    ensures Moves(facts, jobs, facts, jobs)
  {
  }

  lemma MovesOn(a: FactTables, i: Jobs.JobTables, b: FactTables, j: Jobs.JobTables, c: FactTables, k: Jobs.JobTables)
    requires Moves(a, i, b, j) && Moves(b, j, c, k)
    ensures Moves(a, i, c, k)
  {
  }

  lemma MovesInside(facts: FactTables, jobs: Jobs.JobTables, later: FactTables, after: Jobs.JobTables)
    requires Moves(facts, jobs, later, after)
    ensures |after.jobs| == |jobs.jobs| && |after.tasks| == |jobs.tasks|
  {
  }

  lemma StaysDone(facts: FactTables, jobs: Jobs.JobTables, later: FactTables, after: Jobs.JobTables, t: nat)
    requires Moves(facts, jobs, later, after) && IsDone(jobs, t)
    ensures IsDone(after, t)
  {
  }

  lemma GuardMoves(facts: FactTables, jobs: Jobs.JobTables, later: FactTables, after: Jobs.JobTables, task: nat, ok: bool)
    requires Grows(facts, jobs, later, after) && 1 <= task <= |jobs.tasks| && CompletesAtMost(jobs, after, task, ok)
    ensures Moves(facts, jobs, later, after) && (ok ==> IsDone(after, task - 1))
  {
  }

  lemma ClaimMoves(facts: FactTables, jobs: Jobs.JobTables, after: Jobs.JobTables, job: nat, claimed: seq<nat>)
    requires SameProgress(jobs, after)
    requires forall t :: t in claimed ==> t < |after.tasks| && IsPending(after, job, None, t)
    ensures Moves(facts, jobs, facts, after)
    ensures claimed != [] ==> claimed[0] < |after.tasks| && IsPending(after, job, None, claimed[0])
    ensures forall t :: t in claimed ==> t < |after.tasks|
  {
    assert claimed != [] ==> claimed[0] in claimed;
  }

  /** The pending tasks of a job. */
  ghost function Left(jobs: Jobs.JobTables, job: nat): nat {
    Jobs.CountTasks(jobs.tasks, job) - Jobs.CountDone(jobs.tasks, job)
  }

  lemma LeftShrinks(facts: FactTables, rows: Jobs.JobTables, claims: Jobs.JobTables, later: FactTables,
                    after: Jobs.JobTables, job: nat, t: nat)
    requires SameProgress(rows, claims) && Moves(facts, claims, later, after)
    requires t < |claims.tasks| && IsPending(claims, job, None, t) && IsDone(after, t)
    ensures Left(after, job) < Left(rows, job)
  {
    hide Jobs.CountTasks, Jobs.CountDone;
    Jobs.ProgressIsCounted(rows.tasks, claims.tasks, job);
    Jobs.ProgressIsCounted(claims.tasks, rows.tasks, job);
    assert Jobs.Completes(claims.tasks, after.tasks, job, t);
    Jobs.ProgressIsCounted(claims.tasks, after.tasks, job);
  }

  // ---- Backfill jobs ----

  /** The job's tasks are exactly those of a plan over the observations up to its cutoff. */
  ghost predicate IsBackfill(contract: Contract, observations: seq<Observation>, jobs: Jobs.JobTables, job: nat, plan: Plan) {
    && plan.cutoff <= |observations| && PlanCovers(contract, observations[..plan.cutoff], plan)
    && 1 <= job <= |jobs.jobs|
    && (forall draft :: draft in PlanTasks(contract, plan) ==> HasJobTask(jobs.tasks, job, draft))
    && forall t :: 0 <= t < |jobs.tasks| && jobs.tasks[t].job == job ==> jobs.tasks[t].draft in PlanTasks(contract, plan)
  }

  lemma MovesBackfill(contract: Contract, facts: FactTables, jobs: Jobs.JobTables, later: FactTables,
                      after: Jobs.JobTables, job: nat, plan: Plan)
    requires IsBackfill(contract, facts.observations, jobs, job, plan) && Moves(facts, jobs, later, after)
    ensures IsBackfill(contract, later.observations, after, job, plan)
  {
    hide PlanCovers, PlanTasks;
    assert later.observations[..plan.cutoff] == facts.observations[..plan.cutoff];
    forall draft | draft in PlanTasks(contract, plan) ensures HasJobTask(after.tasks, job, draft) {
      var t :| 0 <= t < |jobs.tasks| && jobs.tasks[t].job == job && jobs.tasks[t].draft == draft;
      assert after.tasks[t].job == job && after.tasks[t].draft == draft;
    }
  }

  /** Main result: whenever a backfill job is complete, in whatever runs and after whatever interruptions
  it got there, every source up to its cutoff has a matching scan and every commit it names has a
  reconstruction. */
  lemma CompleteBackfill(contract: Contract, facts: FactTables, jobs: Jobs.JobTables, job: nat, plan: Plan)
    requires contract.Sound() && Jobs.JobsValid(jobs) && Faithful(contract, facts, jobs)
    requires IsBackfill(contract, facts.observations, jobs, job, plan) && !jobs.jobs[job - 1].Active()
    ensures Baseline(contract, facts.observations, plan.cutoff)
  {
    hide PlanCovers, PlanTasks, TaskDone, KeyIsKept, Contract.Sound, Jobs.JobsValid, Baseline;
    Jobs.StatusFollowsTasks(jobs, job);
    forall draft | draft in PlanTasks(contract, plan) ensures TaskDone(contract, facts.observations, draft) {
      var t :| 0 <= t < |jobs.tasks| && jobs.tasks[t].job == job && jobs.tasks[t].draft == draft;
      assert jobs.tasks[t].completedAt.Some?;
    }
    DonePlanIsBaseline(contract, facts.observations[..plan.cutoff], facts.observations, plan);
  }

  lemma JobHasTasks(jobs: Jobs.JobTables, job: nat, kind: string, now: Time, scope: string, drafts: seq<TaskDraft>)
    requires JobIs(jobs, job, kind, now, scope, drafts)
    ensures forall i :: 0 <= i < |drafts| ==> HasJobTask(jobs.tasks, job, drafts[i])
    ensures forall t :: 0 <= t < |jobs.tasks| && jobs.tasks[t].job == job ==> jobs.tasks[t].draft in drafts
  {
  }

  /** Creating the job completes nothing and covers the plan. */
  lemma StartIsFaithful(contract: Contract, facts: FactTables, jobs: Jobs.JobTables, after: Jobs.JobTables, job: nat,
                        drafts: seq<TaskDraft>, plan: Plan)
    requires Faithful(contract, facts, jobs) && drafts == PlanTasks(contract, plan)
    requires plan.cutoff == |facts.observations| && PlanCovers(contract, facts.observations, plan)
    requires 1 <= job <= |after.jobs| && jobs.tasks <= after.tasks
    requires forall t :: |jobs.tasks| <= t < |after.tasks| ==> after.tasks[t].completedAt.None?
    requires forall i :: 0 <= i < |drafts| ==> HasJobTask(after.tasks, job, drafts[i])
    requires forall t :: 0 <= t < |after.tasks| && after.tasks[t].job == job ==> after.tasks[t].draft in drafts
    ensures Faithful(contract, facts, after)
    ensures IsBackfill(contract, facts.observations, after, job, plan)
  {
    hide PlanCovers, PlanTasks, TaskDone, HasScan, HasCommit, CoversCommit;
    assert facts.observations[..plan.cutoff] == facts.observations;
    forall b | 0 <= b < |facts.batches| ensures KeyIsKept(contract, facts.observations, after, facts.batches[b].key) {
      assert KeyIsKept(contract, facts.observations, jobs, facts.batches[b].key);
    }
  }

  /** Nothing but the one task changed, at most it was completed, and it is if the attempt succeeded. */
  ghost predicate CompletesAtMost(before: Jobs.JobTables, after: Jobs.JobTables, task: nat, ok: bool)
    requires 1 <= task <= |before.tasks|
  {
    && SameJobs(before.jobs, after.jobs) && Jobs.Progresses(before.tasks, after.tasks)
    && (forall t :: 0 <= t < |after.tasks| && t != task - 1 ==> after.tasks[t] == before.tasks[t])
    && (if ok then after.tasks[task - 1].completedAt.Some?
        else after.tasks[task - 1].completedAt == before.tasks[task - 1].completedAt)
  }

  lemma ErrorRecorded(before: Jobs.JobTables, after: Jobs.JobTables, task: nat, now: Time, error: string, ok: bool)
    requires 1 <= task <= |before.tasks|
    requires !ok ==> after == before
    requires ok ==> after == before.(tasks := before.tasks[task - 1 :=
      before.tasks[task - 1].(attemptUntil := Some(now), lastError := Some(error))])
    ensures CompletesAtMost(before, after, task, false)
  {
  }

  lemma TaskCompleted(before: Jobs.JobTables, after: Jobs.JobTables, task: nat, now: Time, outcome: Outcome, ok: bool)
    requires 1 <= task <= |before.tasks|
    requires !ok ==> after == before
    requires ok && before.tasks[task - 1].completedAt.Some? ==> after == before
    requires ok ==> CanComplete(before, task, now, outcome)
    requires ok && before.tasks[task - 1].completedAt.None? ==>
      && after == Jobs.AdvanceJob(before.(tasks := before.tasks[task - 1 := Finished(before.tasks[task - 1], now, outcome)]),
           before.tasks[task - 1].job, now)
    ensures CompletesAtMost(before, after, task, ok)
  {
    hide Jobs.CountTasks, Jobs.CountDone;
  }

  lemma AtMostIsFaithful(contract: Contract, facts: FactTables, before: Jobs.JobTables, after: Jobs.JobTables, task: nat, ok: bool)
    requires Faithful(contract, facts, before) && 1 <= task <= |before.tasks| && CompletesAtMost(before, after, task, ok)
    requires ok ==> TaskDone(contract, facts.observations, before.tasks[task - 1].draft)
    ensures Faithful(contract, facts, after) && Grows(facts, before, facts, after)
  {
    hide TaskDone, KeyIsKept;
    FaithfulGrows(contract, facts, before, facts, after);
  }

  lemma ErrorSays(contract: Contract, retain: string -> (Outcome, Payload), before: Jobs.JobTables, after: Jobs.JobTables,
                  task: nat, now: Time, error: string, ok: bool)
    requires 1 <= task <= |before.tasks|
    requires !ok ==> after == before
    requires ok ==> after == before.(tasks := before.tasks[task - 1 :=
      before.tasks[task - 1].(attemptUntil := Some(now), lastError := Some(error))])
    ensures TasksSay(contract, retain, before.tasks, after.tasks)
  {
    hide OutcomeSays;
  }

  lemma CompletionSays(contract: Contract, retain: string -> (Outcome, Payload), before: Jobs.JobTables,
                       after: Jobs.JobTables, task: nat, now: Time, outcome: Outcome, ok: bool)
    requires 1 <= task <= |before.tasks| && OutcomeSays(contract, retain, before.tasks[task - 1].draft, outcome)
    requires !ok ==> after == before
    requires ok && before.tasks[task - 1].completedAt.Some? ==> after == before
    requires ok ==> CanComplete(before, task, now, outcome)
    requires ok && before.tasks[task - 1].completedAt.None? ==>
      && after == Jobs.AdvanceJob(before.(tasks := before.tasks[task - 1 := Finished(before.tasks[task - 1], now, outcome)]),
           before.tasks[task - 1].job, now)
    ensures TasksSay(contract, retain, before.tasks, after.tasks)
  {
    hide OutcomeSays, Jobs.CountTasks, Jobs.CountDone;
  }

  lemma ClaimSays(contract: Contract, retain: string -> (Outcome, Payload), before: Jobs.JobTables, after: Jobs.JobTables)
    requires SameProgress(before, after)
    ensures TasksSay(contract, retain, before.tasks, after.tasks)
  {
    hide OutcomeSays;
  }

  /** Attempts change, progress does not. */
  ghost predicate SameProgress(before: Jobs.JobTables, after: Jobs.JobTables) {
    && after.jobs == before.jobs && |after.tasks| == |before.tasks|
    && forall t :: 0 <= t < |after.tasks| ==>
         && after.tasks[t].job == before.tasks[t].job && after.tasks[t].draft == before.tasks[t].draft
         && after.tasks[t].completedAt == before.tasks[t].completedAt && after.tasks[t].outcome == before.tasks[t].outcome
  }

  lemma NoProgress(jobs: Jobs.JobTables)
    ensures SameProgress(jobs, jobs)
  {
  }

  lemma ProgressOn(a: Jobs.JobTables, b: Jobs.JobTables, c: Jobs.JobTables)
    requires SameProgress(a, b) && SameProgress(b, c)
    ensures SameProgress(a, c)
  {
  }

  lemma KeepsFaithful(contract: Contract, facts: FactTables, before: Jobs.JobTables, after: Jobs.JobTables)
    requires Faithful(contract, facts, before) && SameProgress(before, after)
    ensures Faithful(contract, facts, after) && Grows(facts, before, facts, after)
  {
    hide TaskDone, KeyIsKept;
    FaithfulGrows(contract, facts, before, facts, after);
  }

  lemma ClaimKeeps(before: Jobs.JobTables, after: Jobs.JobTables, job: nat, kind: Option<string>, limit: nat, now: Time,
                   claimed: seq<nat>)
    requires after.jobs == before.jobs && |after.tasks| == |before.tasks| && Claims(before, job, kind, limit, claimed)
    requires forall t :: 0 <= t < |after.tasks| ==>
      after.tasks[t] == if t in claimed then Attempted(before.tasks[t], now) else before.tasks[t]
    ensures SameProgress(before, after)
    ensures forall t :: t in claimed ==>
      && t < |after.tasks| && IsPending(after, job, None, t)
      && (kind.Some? ==> after.tasks[t].draft.kind == kind.value)
    ensures claimed == [] && limit >= 1 ==> forall t: nat :: t < |after.tasks| ==> !IsPending(after, job, kind, t)
    ensures Distinct(claimed)
    ensures forall t :: t in claimed ==> t < |after.tasks| && after.tasks[t].attemptFrom == Some(now)
  {
  }

  lemma NoneIsDistinct()
    ensures Distinct<nat>([])
  {
  }

  lemma StillActive(before: Jobs.JobTables, after: Jobs.JobTables, job: nat)
    requires SameProgress(before, after) && IsActiveJob(before, job)
    ensures IsActiveJob(after, job)
  {
  }

  lemma StillNone(before: Jobs.JobTables, after: Jobs.JobTables, job: nat)
    requires SameProgress(before, after)
    requires forall t: nat :: t < |before.tasks| ==> !IsPending(before, job, Some(SCAN_KIND), t)
    ensures forall t: nat :: t < |after.tasks| ==> !IsPending(after, job, Some(SCAN_KIND), t)
  {
    forall t: nat | t < |after.tasks| ensures !IsPending(after, job, Some(SCAN_KIND), t) {
      assert !IsPending(before, job, Some(SCAN_KIND), t);
    }
  }

  lemma GrowsOn(first: FactTables, before: FactTables, after: FactTables, jobs: Jobs.JobTables)
    requires Grows(first, jobs, before, jobs) && Grows(before, jobs, after, jobs)
    ensures Grows(first, jobs, after, jobs) && |after.observations| >= |before.observations|
    ensures first.observations <= after.observations && before.observations <= after.observations
  {
  }

  lemma GrowsTwice(a: FactTables, i: Jobs.JobTables, b: FactTables, j: Jobs.JobTables, c: FactTables, k: Jobs.JobTables)
    requires Grows(a, i, b, j) && Grows(b, j, c, k)
    ensures Grows(a, i, c, k) && a.observations <= c.observations
  {
  }

  lemma CommitsPublished(contract: Contract, before: FactTables, after: FactTables, jobs: Jobs.JobTables, job: nat,
                         task: nat, shas: seq<string>, drafts: seq<FactDraft>, ok: bool)
    requires contract.Sound() && Faithful(contract, before, jobs) && 1 <= task <= |jobs.tasks|
    requires forall sha :: CoversCommit(contract, jobs.tasks[task - 1].draft, sha) ==> sha in shas
    requires |drafts| == |shas| && forall i :: 0 <= i < |shas| ==> IsCommitObject(drafts[i], shas[i])
    requires OncePublished(before, after, contract.commitKey(job, task), drafts, ok)
    ensures Faithful(contract, after, jobs) && Grows(before, jobs, after, jobs)
    ensures ok ==> forall sha :: CoversCommit(contract, jobs.tasks[task - 1].draft, sha) ==>
      HasCommit(after.observations, sha)
  {
    hide TaskDone, CoversCommit, IsCommitObject, Contract.Sound;
    var key, n := contract.commitKey(job, task), |before.batches|;
    var found := FindBatch(before.batches, key);
    if found.Some? {
      assert KeyIsKept(contract, before.observations, jobs, before.batches[found.value].key);
    } else if ok {
      forall sha | CoversCommit(contract, jobs.tasks[task - 1].draft, sha) ensures HasCommit(after.observations, sha) {
        assert sha in shas;
        var i :| 0 <= i < |shas| && shas[i] == sha;
        assert after.observations[|before.observations| + i].fact == drafts[i];
        assert IsCommitObject(after.observations[|before.observations| + i].fact, sha);
      }
      CommitKeyIsKept(contract, after.observations, jobs, job, task);
      FaithfulGrows(contract, before, jobs, after, jobs);
    }
  }

  lemma CommitKeyIsKept(contract: Contract, observations: seq<Observation>, jobs: Jobs.JobTables, job: nat, task: nat)
    requires contract.Sound() && 1 <= task <= |jobs.tasks|
    requires forall sha :: CoversCommit(contract, jobs.tasks[task - 1].draft, sha) ==> HasCommit(observations, sha)
    ensures KeyIsKept(contract, observations, jobs, contract.commitKey(job, task))
  {
    hide HasScan, HasCommit, CoversCommit;
    var key := contract.commitKey(job, task);
    forall j: nat, t: nat | key == contract.commitKey(j, t) ensures t == task {
    }
    forall j: nat, t: nat, i: nat ensures key != contract.scanKey(j, t, i) {
    }
  }

  lemma ScanTaskDone(contract: Contract, observations: seq<Observation>, draft: TaskDraft, cutoff: nat, ids: seq<nat>)
    requires contract.decode(draft.input) == Some(ScanScope(cutoff, ids))
    requires forall i :: 0 <= i < |ids| ==> HasScan(contract, observations, ids[i])
    ensures TaskDone(contract, observations, draft)
  {
    hide HasScan;
  }

  lemma OnlyCommits(contract: Contract, draft: TaskDraft, cutoff: nat, shas: seq<string>)
    requires contract.decode(draft.input) == Some(CommitScope(cutoff, shas))
    ensures forall sha :: CoversCommit(contract, draft, sha) ==> sha in shas
  {
  }

  lemma CommitTaskDone(contract: Contract, observations: seq<Observation>, draft: TaskDraft, cutoff: nat, shas: seq<string>)
    requires contract.decode(draft.input) == Some(CommitScope(cutoff, shas))
    requires forall sha :: CoversCommit(contract, draft, sha) ==> HasCommit(observations, sha)
    ensures TaskDone(contract, observations, draft)
  {
    hide HasCommit;
  }

  lemma NothingGrows(facts: FactTables, jobs: Jobs.JobTables)
    ensures Grows(facts, jobs, facts, jobs)
  {
  }
}
