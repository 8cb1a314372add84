/** The published observations of the GitHub archive: batches, the heads of the current view, and the
index of commit references by SHA. */
module Facts {
  import opened Wrappers

  // ---- Values ----

  datatype Outcome = Complete | Null | Partial | Forbidden | Unavailable

  function OutcomeRank(outcome: Outcome): nat {
    match outcome case Complete => 0 case Null => 0 case Partial => 1 case Forbidden => 2 case Unavailable => 3
  }

  /** The worst outcome by name; among complete and null ones the first. */
  predicate IsWorst(values: seq<Outcome>, r: Outcome) {
    && (r == Unavailable <==> Unavailable in values)
    && (r == Forbidden <==> Forbidden in values && Unavailable !in values)
    && (r == Partial <==> Partial in values && Unavailable !in values && Forbidden !in values)
    && (values != [] && (r == Complete || r == Null) ==> r == values[0])
  }

  /** _aggregate_coverage: max(values, key=rank), complete without values. */
  function AggregateCoverage(values: seq<Outcome>): (r: Outcome)
    ensures values == [] ==> r == Complete
    ensures values != [] ==> r in values
    ensures forall i :: 0 <= i < |values| ==> OutcomeRank(values[i]) <= OutcomeRank(r)
    ensures IsWorst(values, r)
  {
    if values == [] then Complete
    else if |values| == 1 then values[0]
    else
      var best := AggregateCoverage(values[..|values| - 1]);
      if OutcomeRank(values[|values| - 1]) > OutcomeRank(best) then values[|values| - 1] else best
  }

  datatype Reference = Reference(sha: string, detail: string)

  /** The raw fact that a derived fact was extracted from. */
  datatype Source = Source(observation: nat, family: string, payloadDigest: string)

  /** A JSON payload; `references` is its list of references and `source` its source identity, where
  these are well formed. */
  datatype Payload = Payload(text: string, references: Option<seq<Reference>>, source: Option<Source>)

  /** Timestamps are normalized to UTC microseconds, so that their texts order like the times. */
  type Time = nat

  datatype FactDraft = FactDraft(
    family: string, schemaVersion: nat, subject: string, resource: Option<int>, sourceDigest: Option<string>,
    origin: string, observedFrom: Time, observedUntil: Time, coverage: Outcome, payload: Payload)

  datatype Observation = Observation(batch: nat, ordinal: nat, fact: FactDraft)

  /** One publication: `first` is the position of its first observation. */
  datatype Batch = Batch(
    key: string, kind: string, cycle: Option<nat>, task: Option<nat>, maintenanceTask: Option<nat>,
    publishedAt: Time, first: nat, count: nat)

  type Subject = (string, string)

  /** Observation ids are positions plus one; heads and index refer to ids. */
  datatype FactTables = FactTables(
    batches: seq<Batch>, observations: seq<Observation>, heads: map<Subject, nat>, index: map<(nat, nat), string>)

  const NO_FACTS := FactTables([], [], map[], map[])

  function SubjectOf(fact: FactDraft): Subject { (fact.family, fact.subject) }

  // ---- The order of observations ----

  /** _observation_order(a) >= _observation_order(b) */
  predicate AtLeast(a: FactDraft, i: nat, b: FactDraft, j: nat) {
    || a.observedUntil > b.observedUntil
    || (a.observedUntil == b.observedUntil && a.observedFrom > b.observedFrom)
    || (a.observedUntil == b.observedUntil && a.observedFrom == b.observedFrom && i >= j)
  }

  /** _advance_head */
  function AdvanceHead(observations: seq<Observation>, heads: map<Subject, nat>, id: nat): map<Subject, nat>
    requires 1 <= id <= |observations| && forall subject :: subject in heads ==> 1 <= heads[subject] <= |observations|
  {
    var fact := observations[id - 1].fact;
    var subject := SubjectOf(fact);
    if subject in heads && AtLeast(observations[heads[subject] - 1].fact, heads[subject], fact, id) then heads
    else heads[subject := id]
  }

  /** The head of every subject is the maximum of its observations. */
  ghost predicate HeadsAreLatest(observations: seq<Observation>, heads: map<Subject, nat>) {
    && (forall i :: 0 <= i < |observations| ==> SubjectOf(observations[i].fact) in heads)
    && (forall subject :: subject in heads ==> IsLatest(observations, subject, heads[subject]))
  }

  ghost predicate IsLatest(observations: seq<Observation>, subject: Subject, id: nat) {
    && 1 <= id <= |observations| && SubjectOf(observations[id - 1].fact) == subject
    && forall i :: 0 <= i < |observations| && SubjectOf(observations[i].fact) == subject ==>
         EndsLast(observations, id, i + 1)
  }

  /** No window ends later; of those that end with it none starts later; of equal windows it is the last. */
  predicate EndsLast(observations: seq<Observation>, id: nat, other: nat)
    requires 1 <= id <= |observations| && 1 <= other <= |observations|
  {
    var (a, b) := (observations[id - 1].fact, observations[other - 1].fact);
    && b.observedUntil <= a.observedUntil
    && (b.observedUntil == a.observedUntil ==> b.observedFrom <= a.observedFrom)
    && (b.observedUntil == a.observedUntil && b.observedFrom == a.observedFrom ==> other <= id)
  }

  // ---- The SHA index ----

  predicate IsSha(sha: string) {
    && (|sha| == 40 || |sha| == 64)
    && forall i | 0 <= i < |sha| :: '0' <= sha[i] <= '9' || 'a' <= sha[i] <= 'f'
  }

  /** A reference with the observation it came from. */
  datatype Provenance = Provenance(reference: Reference, observation: nat, resource: Option<int>)

  /** commit_reference_provenance; None stands for ValueError. */
  function ProvenanceOf(id: nat, fact: FactDraft): (r: Option<seq<Provenance>>)
    ensures r.Some? ==>
      && fact.payload.references.Some? && |r.value| == |fact.payload.references.value|
      && forall i :: 0 <= i < |r.value| ==> r.value[i].reference == fact.payload.references.value[i]
  {
    match fact.payload.references
    case None => None
    case Some(references) =>
      if exists i | 0 <= i < |references| :: !IsSha(references[i].sha) then None
      else Some(seq(|references|, i requires 0 <= i < |references| => Provenance(references[i], id, fact.resource)))
  }

  predicate IsIndexed(fact: FactDraft) {
    fact.family == "commit-references" && fact.coverage == Complete
  }

  /** A reference list that publish refuses to index. */
  predicate Malformed(id: nat, fact: FactDraft) {
    IsIndexed(fact) && ProvenanceOf(id, fact).None?
  }

  /** A complete commit-references observation is malformed exactly without a list of references, or for a
  reference whose SHA is not one of 40 or 64 lower-case hexadecimal digits. */
  lemma MalformedExactly(id: nat, fact: FactDraft)
    ensures Malformed(id, fact) <==>
      && fact.family == "commit-references" && fact.coverage == Complete
      && (|| fact.payload.references.None?
          || exists i :: 0 <= i < |fact.payload.references.value| && !IsObjectId(fact.payload.references.value[i].sha))
  {
    forall sha ensures IsSha(sha) <==> IsObjectId(sha) {
      ObjectIds(sha);
    }
    hide IsSha, IsObjectId;
  }

  ghost predicate IsObjectId(sha: string) {
    |sha| in {40, 64} && forall c :: c in sha ==> c in "0123456789abcdef"
  }

  lemma ObjectIds(sha: string)
    ensures IsSha(sha) <==> IsObjectId(sha)
  {
    forall c ensures '0' <= c <= '9' || 'a' <= c <= 'f' <==> c in "0123456789abcdef" {
      HexCharacter(c);
    }
    assert forall i :: 0 <= i < |sha| ==> sha[i] in sha;
  }

  lemma HexCharacter(c: char)
    ensures '0' <= c <= '9' || 'a' <= c <= 'f' <==> c in "0123456789abcdef"
  {
    assert "0123456789abcdef" == ['0', '1', '2', '3', '4', '5', '6', '7', '8', '9', 'a', 'b', 'c', 'd', 'e', 'f'];
  }

  ghost predicate HasReference(observations: seq<Observation>, id: nat, ordinal: nat) {
    && 1 <= id <= |observations| && IsIndexed(observations[id - 1].fact)
    && ProvenanceOf(id, observations[id - 1].fact).Some?
    && ordinal < |ProvenanceOf(id, observations[id - 1].fact).value|
  }

  /** The index holds exactly the references of complete commit-reference observations. */
  ghost predicate IndexIsExact(observations: seq<Observation>, index: map<(nat, nat), string>) {
    && (forall i :: 0 <= i < |observations| && IsIndexed(observations[i].fact) ==>
         ProvenanceOf(i + 1, observations[i].fact).Some?)
    && (forall id: nat, ordinal: nat :: (id, ordinal) in index <==> HasReference(observations, id, ordinal))
    && (forall id: nat, ordinal: nat :: (id, ordinal) in index ==>
         index[(id, ordinal)] == ProvenanceOf(id, observations[id - 1].fact).value[ordinal].reference.sha)
  }

  /** commit_reference_index_rows */
  function IndexRows(id: nat, references: seq<Provenance>): map<(nat, nat), string> {
    map i | 0 <= i < |references| :: (id, i) := references[i].reference.sha
  }

  // ---- Batches ----

  /** Batches have distinct keys and cover the observations one after the other. */
  ghost predicate BatchesCover(batches: seq<Batch>, observations: seq<Observation>) {
    && (forall i, j :: 0 <= i < j < |batches| ==> batches[i].key != batches[j].key)
    && (forall i :: 0 <= i < |batches| ==> batches[i].count > 0 && batches[i].first + batches[i].count <= |observations|)
    && (forall i :: 0 <= i < |batches| - 1 ==> batches[i].first + batches[i].count == batches[i + 1].first)
    && (batches == [] ==> observations == [])
    && (batches != [] ==>
         && batches[0].first == 0
         && batches[|batches| - 1].first + batches[|batches| - 1].count == |observations|)
  }

  ghost predicate FactsValid(tables: FactTables) {
    && HeadsAreLatest(tables.observations, tables.heads)
    && IndexIsExact(tables.observations, tables.index)
    && BatchesCover(tables.batches, tables.observations)
  }

  // ---- Inserting one observation ----

  /** The row, its index rows, its head. */
  method InsertObservation(tables: FactTables, observation: Observation) returns (r: Option<FactTables>)
    requires HeadsAreLatest(tables.observations, tables.heads) && IndexIsExact(tables.observations, tables.index)
    ensures r.None? <==> Malformed(|tables.observations| + 1, observation.fact)
    ensures r.Some? ==>
      && r.value.observations == tables.observations + [observation] && r.value.batches == tables.batches
      && HeadsAreLatest(r.value.observations, r.value.heads) && IndexIsExact(r.value.observations, r.value.index)
  {
    hide HeadsAreLatest, IndexIsExact, ProvenanceOf, IndexRows;
    var observations := tables.observations + [observation];
    var id := |observations|;
    var index := tables.index;
    if IsIndexed(observation.fact) {
      var references := ProvenanceOf(id, observation.fact);
      if references.None? {
        return None;
      }
      index := index + IndexRows(id, references.value);
    }
    IndexOneMore(tables.observations, observation, tables.index);
    HeadsInside(tables.observations, tables.heads);
    HeadsOneMore(tables.observations, observation, tables.heads);
    r := Some(FactTables(tables.batches, observations, AdvanceHead(observations, tables.heads, id), index));
  }

  lemma HeadsInside(observations: seq<Observation>, heads: map<Subject, nat>)
    requires HeadsAreLatest(observations, heads)
    ensures forall subject :: subject in heads ==> 1 <= heads[subject] <= |observations|
  {
  }

  lemma HeadsOneMore(observations: seq<Observation>, observation: Observation, heads: map<Subject, nat>)
    requires HeadsAreLatest(observations, heads)
    ensures var more := observations + [observation];
      && (forall subject :: subject in heads ==> 1 <= heads[subject] <= |more|)
      && HeadsAreLatest(more, AdvanceHead(more, heads, |more|))
  {
    var more := observations + [observation];
    var advanced := AdvanceHead(more, heads, |more|);
    forall subject | subject in advanced ensures IsLatest(more, subject, advanced[subject]) {
      if subject in heads {
        assert IsLatest(observations, subject, heads[subject]);
      }
    }
  }

  lemma IndexOneMore(observations: seq<Observation>, observation: Observation, index: map<(nat, nat), string>)
    requires IndexIsExact(observations, index)
    requires IsIndexed(observation.fact) ==> ProvenanceOf(|observations| + 1, observation.fact).Some?
    ensures var more, id := observations + [observation], |observations| + 1;
      IndexIsExact(more,
        if IsIndexed(observation.fact) then index + IndexRows(id, ProvenanceOf(id, observation.fact).value) else index)
  {
    var more, id := observations + [observation], |observations| + 1;
    var grown := if IsIndexed(observation.fact) then index + IndexRows(id, ProvenanceOf(id, observation.fact).value) else index;
    hide ProvenanceOf, IsIndexed;
    forall i: nat, ordinal: nat
      ensures HasReference(more, i, ordinal) <==> (i, ordinal) in grown
      ensures (i, ordinal) in grown ==> grown[(i, ordinal)] == ProvenanceOf(i, more[i - 1].fact).value[ordinal].reference.sha
    {
      assert HasReference(observations, i, ordinal) <==> i <= |observations| && HasReference(more, i, ordinal);
      assert (i, ordinal) in index <==> HasReference(observations, i, ordinal);
    }
  }

  // ---- Inserting a batch ----

  function Rows(batch: nat, facts: seq<FactDraft>): (rows: seq<Observation>)
    ensures |rows| == |facts|
    ensures forall i :: 0 <= i < |rows| ==> rows[i] == Observation(batch, i, facts[i])
  {
    seq(|facts|, i requires 0 <= i < |facts| => Observation(batch, i, facts[i]))
  }

  /** The insertion loop of publish; None when a reference list is malformed and the transaction is
  rolled back. */
  method InsertBatch(tables: FactTables, batch: Batch, facts: seq<FactDraft>) returns (r: Option<FactTables>)
    requires FactsValid(tables) && facts != []
    requires batch.first == |tables.observations| && batch.count == |facts|
    requires forall i :: 0 <= i < |tables.batches| ==> tables.batches[i].key != batch.key
    ensures r.None? <==> exists i :: 0 <= i < |facts| && Malformed(|tables.observations| + i + 1, facts[i])
    ensures r.Some? ==>
      && FactsValid(r.value) && r.value.batches == tables.batches + [batch]
      && r.value.observations == tables.observations + Rows(|tables.batches| + 1, facts)
  {
    hide HeadsAreLatest, IndexIsExact, ProvenanceOf, BatchesCover, IsIndexed;
    var id := |tables.batches| + 1;
    var rows := Rows(id, facts);
    var next := tables;
    for i := 0 to |facts|
      invariant next.batches == tables.batches && next.observations == tables.observations + rows[..i]
      invariant HeadsAreLatest(next.observations, next.heads) && IndexIsExact(next.observations, next.index)
      invariant forall j :: 0 <= j < i ==> !Malformed(|tables.observations| + j + 1, facts[j])
    {
      var inserted := InsertObservation(next, Observation(id, i, facts[i]));
      if inserted.None? {
        return None;
      }
      next := inserted.value;
      assert rows[..i + 1] == rows[..i] + [rows[i]];
    }
    assert rows[..|facts|] == rows;
    CoverOneMore(tables.batches, tables.observations, batch, rows);
    r := Some(FactTables(tables.batches + [batch], next.observations, next.heads, next.index));
  }

  lemma CoverOneMore(batches: seq<Batch>, observations: seq<Observation>, batch: Batch, rows: seq<Observation>)
    requires BatchesCover(batches, observations) && rows != []
    requires batch.first == |observations| && batch.count == |rows|
    requires forall i :: 0 <= i < |batches| ==> batches[i].key != batch.key
    ensures BatchesCover(batches + [batch], observations + rows)
  {
  }

  lemma NoFactsAreValid()
    ensures FactsValid(NO_FACTS)
  {
  }
}
