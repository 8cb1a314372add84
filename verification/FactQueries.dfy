/** Reading the observation archive: the current view, the view as of a time, and commit references. */
module FactQueries {
  import opened Wrappers
  import opened Facts

  // ---- As-of and current ----

  /** The first row of a subject's window: the greatest of its observations closed by `at`. */
  function LatestUntil(observations: seq<Observation>, subject: Subject, at: Time): (r: Option<nat>)
    ensures r.Some? ==> 1 <= r.value <= |observations|
  {
    if observations == [] then None
    else
      var id := |observations|;
      var last := observations[id - 1].fact;
      var before := LatestUntil(observations[..id - 1], subject, at);
      if SubjectOf(last) != subject || last.observedUntil > at then before
      else if before.Some? && AtLeast(observations[before.value - 1].fact, before.value, last, id) then before
      else Some(id)
  }

  function SubjectsOf(observations: seq<Observation>): set<Subject> {
    set i | 0 <= i < |observations| :: SubjectOf(observations[i].fact)
  }

  /** iter_facts_as_of: one observation per subject. */
  function AsOf(observations: seq<Observation>, at: Time): map<Subject, nat> {
    map subject | subject in SubjectsOf(observations) && LatestUntil(observations, subject, at).Some? ::
      LatestUntil(observations, subject, at).value
  }

  predicate ClosedFor(fact: FactDraft, subject: Subject, at: Time) {
    SubjectOf(fact) == subject && fact.observedUntil <= at
  }

  /** What the view as of a time promises for a subject. */
  ghost predicate IsLatestUntil(observations: seq<Observation>, subject: Subject, at: Time, id: nat) {
    && 1 <= id <= |observations| && SubjectOf(observations[id - 1].fact) == subject
    && observations[id - 1].fact.observedUntil <= at
    && forall i :: 0 <= i < |observations| && ClosedFor(observations[i].fact, subject, at) ==>
         EndsLast(observations, id, i + 1)
  }

  /** The window query picks the maximum, and misses no subject that has a closed observation. */
  lemma {:induction false} LatestUntilIsMaximum(observations: seq<Observation>, subject: Subject, at: Time)
    ensures match LatestUntil(observations, subject, at)
      case Some(id) => IsLatestUntil(observations, subject, at, id)
      case None => forall i :: 0 <= i < |observations| && SubjectOf(observations[i].fact) == subject ==>
        observations[i].fact.observedUntil > at
  {
    if observations != [] {
      var init := observations[..|observations| - 1];
      hide SubjectOf;
      LatestUntilIsMaximum(init, subject, at);
      assert observations == init + [observations[|observations| - 1]];
      assert forall i :: 0 <= i < |init| ==> observations[i] == init[i];
    }
  }

  /** At or after all observation windows the incrementally kept heads are the view as of that time. */
  lemma CurrentIsAsOf(observations: seq<Observation>, heads: map<Subject, nat>, at: Time)
    requires HeadsAreLatest(observations, heads)
    requires forall i :: 0 <= i < |observations| ==> observations[i].fact.observedUntil <= at
    ensures AsOf(observations, at) == heads
  {
    hide LatestUntil;
    forall subject ensures subject in AsOf(observations, at) <==> subject in heads {
      LatestUntilIsMaximum(observations, subject, at);
      if subject in heads {
        assert IsLatest(observations, subject, heads[subject]);
      }
    }
    forall subject | subject in heads ensures AsOf(observations, at)[subject] == heads[subject] {
      LatestUntilIsMaximum(observations, subject, at);
      assert IsLatest(observations, subject, heads[subject]);
    }
  }

  /** Observations published later whose windows end after `at` leave the view as of `at` unchanged. */
  lemma {:induction false} AsOfIsStable(observations: seq<Observation>, later: seq<Observation>, at: Time)
    requires forall i :: 0 <= i < |later| ==> later[i].fact.observedUntil > at
    ensures AsOf(observations + later, at) == AsOf(observations, at)
    decreases |later|
  {
    if later == [] {
      assert observations + later == observations;
    } else {
      var init, last := later[..|later| - 1], later[|later| - 1];
      AsOfIsStable(observations, init, at);
      LateObservation(observations + init, last, at);
      assert observations + later == observations + init + [last];
    }
  }

  lemma LateObservation(observations: seq<Observation>, late: Observation, at: Time)
    requires late.fact.observedUntil > at
    ensures AsOf(observations + [late], at) == AsOf(observations, at)
  {
    var more := observations + [late];
    assert more[..|observations|] == observations;
    forall subject ensures LatestUntil(more, subject, at) == LatestUntil(observations, subject, at) {
    }
    assert SubjectsOf(more) == SubjectsOf(observations) + {SubjectOf(late.fact)};
    forall subject | LatestUntil(observations, subject, at).Some? ensures subject in SubjectsOf(observations) {
      LatestUntilIsMaximum(observations, subject, at);
    }
  }

  // ---- Commit references ----

  const CHUNK := 500
  const MANY := 5_000

  /** The references of one observation that name a selected SHA. */
  function Selected(references: seq<Provenance>, shas: Option<set<string>>): (r: seq<Provenance>)
    ensures shas.None? ==> r == references
    ensures forall p :: p in r ==> p in references
  {
    if shas.None? || references == [] then references
    else
      var last := references[|references| - 1];
      Selected(references[..|references| - 1], shas) + (if last.reference.sha in shas.value then [last] else [])
  }

  /** _indexed_references */
  function ReferencesOf(observations: seq<Observation>, id: nat, shas: Option<set<string>>): seq<Provenance>
    requires 1 <= id <= |observations|
  {
    var references := ProvenanceOf(id, observations[id - 1].fact);
    if references.None? then [] else Selected(references.value, shas)
  }

  /** The scan over all complete commit-reference observations up to the cutoff. */
  function ScanReferences(observations: seq<Observation>, cutoff: nat, shas: Option<set<string>>): seq<Provenance>
    requires cutoff <= |observations|
  {
    if cutoff == 0 then []
    else
      ScanReferences(observations, cutoff - 1, shas) +
        (if IsIndexed(observations[cutoff - 1].fact) then ReferencesOf(observations, cutoff, shas) else [])
  }

  /** A selected reference up to the cutoff: the observation it is in, and its position there. */
  predicate IsPlace(observations: seq<Observation>, cutoff: nat, shas: Option<set<string>>, place: (nat, nat))
    requires cutoff <= |observations|
  {
    1 <= place.0 <= cutoff &&
    var fact := observations[place.0 - 1].fact;
    && fact.family == "commit-references" && fact.coverage == Complete && fact.payload.references.Some?
    && place.1 < |fact.payload.references.value|
    && (shas.Some? ==> fact.payload.references.value[place.1].sha in shas.value)
  }

  predicate Precedes(a: (nat, nat), b: (nat, nat)) {
    a.0 < b.0 || (a.0 == b.0 && a.1 < b.1)
  }

  /** The result lists every selected reference once, in order of observation and then of reference, with the
  observation and the resource it comes from. */
  ghost predicate ListsReferences(observations: seq<Observation>, cutoff: nat, shas: Option<set<string>>,
                                  places: seq<(nat, nat)>, r: seq<Provenance>)
    requires cutoff <= |observations|
  {
    && |places| == |r|
    && (forall i, j :: 0 <= i < j < |places| ==> Precedes(places[i], places[j]))
    && (forall place :: place in places <==> IsPlace(observations, cutoff, shas, place))
    && forall i :: 0 <= i < |r| ==> r[i] == At(observations, cutoff, shas, places[i])
  }

  function At(observations: seq<Observation>, cutoff: nat, shas: Option<set<string>>, place: (nat, nat)): Provenance
    requires cutoff <= |observations|
  {
    if !IsPlace(observations, cutoff, shas, place) then Provenance(Reference("", ""), 0, None)
    else
      var fact := observations[place.0 - 1].fact;
      Provenance(fact.payload.references.value[place.1], place.0, fact.resource)
  }

  /** What is selected of one list. */
  lemma {:induction false} SelectedPlaces(references: seq<Provenance>, shas: Option<set<string>>) returns (places: seq<nat>)
    ensures |places| == |Selected(references, shas)|
    ensures forall i, j :: 0 <= i < j < |places| ==> places[i] < places[j]
    ensures forall k: nat :: k in places <==>
      k < |references| && (shas.Some? ==> references[k].reference.sha in shas.value)
    ensures forall i :: 0 <= i < |places| ==> places[i] < |references| && Selected(references, shas)[i] == references[places[i]]
  {
    if shas.None? || references == [] {
      places := seq(|references|, i => i);
      forall k: nat ensures k in places <==> k < |references| {
        if k < |references| {
          assert places[k] == k;
        }
      }
    } else {
      var n := |references| - 1;
      var before := SelectedPlaces(references[..n], shas);
      places := before + (if references[n].reference.sha in shas.value then [n] else []);
      forall i | 0 <= i < |before| ensures before[i] < n {
        assert before[i] in before;
      }
      forall k: nat
        ensures k in places <==> k < |references| && (shas.Some? ==> references[k].reference.sha in shas.value)
      {
        assert k in before <==> k < n && references[..n][k].reference.sha in shas.value;
      }
    }
  }

  /** What one observation contributes. */
  lemma ReferencePlaces(observations: seq<Observation>, id: nat, shas: Option<set<string>>) returns (places: seq<(nat, nat)>)
    requires 1 <= id <= |observations| && IsIndexed(observations[id - 1].fact)
    requires ProvenanceOf(id, observations[id - 1].fact).Some?
    ensures |places| == |ReferencesOf(observations, id, shas)|
    ensures forall i, j :: 0 <= i < j < |places| ==> Precedes(places[i], places[j])
    ensures forall place :: place in places <==> place.0 == id && IsPlace(observations, id, shas, place)
    ensures forall i :: 0 <= i < |places| ==> ReferencesOf(observations, id, shas)[i] == At(observations, id, shas, places[i])
  {
    hide Selected, IsPlace, At, ProvenanceOf;
    var references := ProvenanceOf(id, observations[id - 1].fact).value;
    var ks := SelectedPlaces(references, shas);
    places := Under(id, ks);
    forall place: (nat, nat) ensures place in places <==> place.0 == id && IsPlace(observations, id, shas, place) {
      PlaceIsSelected(observations, id, shas, place.1);
    }
    forall i | 0 <= i < |places| ensures ReferencesOf(observations, id, shas)[i] == At(observations, id, shas, places[i]) {
      PlaceIsSelected(observations, id, shas, ks[i]);
      assert ks[i] in ks;
    }
  }

  /** The pairs of an id with some numbers. */
  lemma Under(id: nat, ks: seq<nat>) returns (places: seq<(nat, nat)>)
    requires forall i, j :: 0 <= i < j < |ks| ==> ks[i] < ks[j]
    ensures |places| == |ks| && forall i :: 0 <= i < |ks| ==> places[i] == (id, ks[i])
    ensures forall i, j :: 0 <= i < j < |places| ==> Precedes(places[i], places[j])
    ensures forall place: (nat, nat) :: place in places <==> place.0 == id && place.1 in ks
  {
    places := seq(|ks|, i requires 0 <= i < |ks| => (id, ks[i]));
    forall place: (nat, nat) ensures place in places <==> place.0 == id && place.1 in ks {
      if place.0 == id && place.1 in ks {
        var i :| 0 <= i < |ks| && ks[i] == place.1;
        assert places[i] == place;
      }
    }
  }

  lemma PlaceIsSelected(observations: seq<Observation>, id: nat, shas: Option<set<string>>, k: nat)
    requires 1 <= id <= |observations| && IsIndexed(observations[id - 1].fact)
    requires ProvenanceOf(id, observations[id - 1].fact).Some?
    ensures var references := ProvenanceOf(id, observations[id - 1].fact).value;
      && (IsPlace(observations, id, shas, (id, k)) <==>
        k < |references| && (shas.Some? ==> references[k].reference.sha in shas.value))
      && (IsPlace(observations, id, shas, (id, k)) ==> At(observations, id, shas, (id, k)) == references[k])
  {
    hide IsSha;
  }

  /** Main result: the scan lists exactly the selected references, each once and in order. */
  lemma {:induction false} ScanListsReferences(observations: seq<Observation>, cutoff: nat, shas: Option<set<string>>)
    returns (places: seq<(nat, nat)>)
    requires cutoff <= |observations|
    requires forall i :: 0 <= i < |observations| && IsIndexed(observations[i].fact) ==>
      ProvenanceOf(i + 1, observations[i].fact).Some?
    ensures ListsReferences(observations, cutoff, shas, places, ScanReferences(observations, cutoff, shas))
  {
    hide ReferencesOf, ProvenanceOf, ListsReferences, IsPlace, At;
    if cutoff == 0 {
      places := [];
      NothingListed(observations, shas);
    } else {
      var before := ScanListsReferences(observations, cutoff - 1, shas);
      var here: seq<(nat, nat)> := [];
      if IsIndexed(observations[cutoff - 1].fact) {
        here := ReferencePlaces(observations, cutoff, shas);
      } else {
        NoPlaceHere(observations, cutoff, shas);
      }
      places := before + here;
      var new' := if IsIndexed(observations[cutoff - 1].fact) then ReferencesOf(observations, cutoff, shas) else [];
      ListsOn(observations, cutoff, shas, before, ScanReferences(observations, cutoff - 1, shas), here, new');
    }
  }

  lemma NothingListed(observations: seq<Observation>, shas: Option<set<string>>)
    ensures ListsReferences(observations, 0, shas, [], [])
  {
  }

  lemma NoPlaceHere(observations: seq<Observation>, cutoff: nat, shas: Option<set<string>>)
    requires 1 <= cutoff <= |observations| && !IsIndexed(observations[cutoff - 1].fact)
    ensures forall place: (nat, nat) :: place.0 == cutoff ==> !IsPlace(observations, cutoff, shas, place)
  {
  }

  lemma ListsOn(observations: seq<Observation>, cutoff: nat, shas: Option<set<string>>, before: seq<(nat, nat)>,
                older: seq<Provenance>, here: seq<(nat, nat)>, new': seq<Provenance>)
    requires 1 <= cutoff <= |observations| && ListsReferences(observations, cutoff - 1, shas, before, older)
    requires |here| == |new'| && forall i, j :: 0 <= i < j < |here| ==> Precedes(here[i], here[j])
    requires forall place :: place in here <==> place.0 == cutoff && IsPlace(observations, cutoff, shas, place)
    requires forall i :: 0 <= i < |here| ==> new'[i] == At(observations, cutoff, shas, here[i])
    ensures ListsReferences(observations, cutoff, shas, before + here, older + new')
  {
    hide Precedes;
    PlacesJoin(observations, cutoff, shas, before, here);
    var places, all := before + here, older + new';
    forall i | 0 <= i < |all| ensures all[i] == At(observations, cutoff, shas, places[i]) {
      if i < |before| {
        assert before[i] in before;
      }
    }
  }

  lemma PlacesJoin(observations: seq<Observation>, cutoff: nat, shas: Option<set<string>>, before: seq<(nat, nat)>,
                   here: seq<(nat, nat)>)
    requires 1 <= cutoff <= |observations|
    requires forall i, j :: 0 <= i < j < |before| ==> Precedes(before[i], before[j])
    requires forall i, j :: 0 <= i < j < |here| ==> Precedes(here[i], here[j])
    requires forall place :: place in before <==> IsPlace(observations, cutoff - 1, shas, place)
    requires forall place :: place in here <==> place.0 == cutoff && IsPlace(observations, cutoff, shas, place)
    ensures var places := before + here;
      && (forall i, j :: 0 <= i < j < |places| ==> Precedes(places[i], places[j]))
      && (forall place :: place in places <==> IsPlace(observations, cutoff, shas, place))
  {
    var places, n := before + here, |before|;
    forall i, j | 0 <= i < j < |places| ensures Precedes(places[i], places[j]) {
      assert i < n ==> places[i] == before[i] && before[i] in before;
      assert j >= n ==> places[j] == here[j - n] && here[j - n] in here;
    }
    forall place ensures place in places <==> IsPlace(observations, cutoff, shas, place) {
      assert place in places <==> place in before || place in here;
    }
  }

  /** Observations that the index names for some of the SHAs. */
  function IndexedUnder(index: map<(nat, nat), string>, cutoff: nat, shas: set<string>): set<nat> {
    set entry | entry in index && entry.0 <= cutoff && index[entry] in shas :: entry.0
  }

  lemma {:induction false} NothingSelected(references: seq<Provenance>, shas: set<string>)
    requires forall i :: 0 <= i < |references| ==> references[i].reference.sha !in shas
    ensures Selected(references, Some(shas)) == []
  {
    if references != [] {
      NothingSelected(references[..|references| - 1], shas);
    }
  }

  /** An observation that the index does not name for the SHAs contributes no reference. */
  lemma UnindexedIsEmpty(observations: seq<Observation>, index: map<(nat, nat), string>, cutoff: nat, shas: set<string>,
                         id: nat)
    requires IndexIsExact(observations, index) && 1 <= id <= cutoff <= |observations|
    requires IsIndexed(observations[id - 1].fact) && id !in IndexedUnder(index, cutoff, shas)
    ensures ReferencesOf(observations, id, Some(shas)) == []
  {
    hide ProvenanceOf;
    var references := ProvenanceOf(id, observations[id - 1].fact).value;
    forall i | 0 <= i < |references| ensures references[i].reference.sha !in shas {
      assert HasReference(observations, id, i);
      assert (id, i) in index;
    }
    NothingSelected(references, shas);
  }

  /** What the index names are complete commit-reference observations. */
  lemma IndexedIsReference(observations: seq<Observation>, index: map<(nat, nat), string>, cutoff: nat,
                           shas: set<string>, id: nat)
    requires IndexIsExact(observations, index) && id in IndexedUnder(index, cutoff, shas)
    ensures 1 <= id <= |observations| && id <= cutoff && IsIndexed(observations[id - 1].fact)
  {
    var entry :| entry in index && entry.0 <= cutoff && index[entry] in shas && entry.0 == id;
    assert HasReference(observations, entry.0, entry.1);
  }

  /** iter_commit_references: small selections go through the index in chunks, everything else scans; both
  yield the same sequence. */
  method IterCommitReferences(observations: seq<Observation>, index: map<(nat, nat), string>, cutoff: nat,
                              shas: Option<set<string>>)
    returns (r: seq<Provenance>, ghost places: seq<(nat, nat)>)
    requires IndexIsExact(observations, index)
    ensures var last := if cutoff <= |observations| then cutoff else |observations|;
      && r == ScanReferences(observations, last, shas)
      && ListsReferences(observations, last, shas, places, r)
  {
    hide IndexIsExact, ReferencesOf, IndexedUnder, IsIndexed, ScanReferences, ListsReferences;
    var last := if cutoff <= |observations| then cutoff else |observations|;
    ReferencesAreReadable(observations, index);
    places := ScanListsReferences(observations, last, shas);
    if shas == Some({}) {
      NoShas(observations, last);
      return [], places;
    }
    if shas.None? || |shas.value| > MANY {
      r := ScanAll(observations, last, shas);
      return;
    }
    var rows := SelectRows(index, cutoff, shas.value);
    r := [];
    NothingScanned(observations, shas);
    for id := 1 to last + 1
      invariant r == ScanReferences(observations, id - 1, shas)
    {
      ScanStep(observations, id, shas);
      if id in rows {
        IndexedIsReference(observations, index, cutoff, shas.value, id);
        r := r + ReferencesOf(observations, id, shas);
      } else {
        if IsIndexed(observations[id - 1].fact) {
          NotBelow(index, cutoff, last, shas.value, id);
          UnindexedIsEmpty(observations, index, last, shas.value, id);
        }
        assert r + [] == r;
      }
    }
  }

  lemma ReferencesAreReadable(observations: seq<Observation>, index: map<(nat, nat), string>)
    requires IndexIsExact(observations, index)
    ensures forall i :: 0 <= i < |observations| && IsIndexed(observations[i].fact) ==>
      ProvenanceOf(i + 1, observations[i].fact).Some?
  {
  }

  lemma NotBelow(index: map<(nat, nat), string>, cutoff: nat, last: nat, shas: set<string>, id: nat)
    requires last <= cutoff && id !in IndexedUnder(index, cutoff, shas)
    ensures id !in IndexedUnder(index, last, shas)
  {
  }

  lemma NothingScanned(observations: seq<Observation>, shas: Option<set<string>>)
    ensures ScanReferences(observations, 0, shas) == []
  {
  }

  lemma ScanStep(observations: seq<Observation>, id: nat, shas: Option<set<string>>)
    requires 1 <= id <= |observations|
    ensures ScanReferences(observations, id, shas) == ScanReferences(observations, id - 1, shas) +
      (if IsIndexed(observations[id - 1].fact) then ReferencesOf(observations, id, shas) else [])
  {
  }

  lemma {:induction false} NoShas(observations: seq<Observation>, cutoff: nat)
    requires cutoff <= |observations|
    ensures ScanReferences(observations, cutoff, Some({})) == []
  {
    if cutoff > 0 {
      NoShas(observations, cutoff - 1);
      var references := ProvenanceOf(cutoff, observations[cutoff - 1].fact);
      if references.Some? {
        NothingSelected(references.value, {});
      }
    }
  }

  /** The full scan, in observation order. */
  method ScanAll(observations: seq<Observation>, cutoff: nat, shas: Option<set<string>>) returns (r: seq<Provenance>)
    requires cutoff <= |observations|
    ensures r == ScanReferences(observations, cutoff, shas)
  {
    hide ReferencesOf, IsIndexed;
    r := [];
    for id := 1 to cutoff + 1
      invariant r == ScanReferences(observations, id - 1, shas)
    {
      r := r + (if IsIndexed(observations[id - 1].fact) then ReferencesOf(observations, id, shas) else []);
    }
  }

  /** The index queries, a chunk of SHAs at a time. */
  method SelectRows(index: map<(nat, nat), string>, cutoff: nat, shas: set<string>) returns (rows: set<nat>)
    ensures rows == IndexedUnder(index, cutoff, shas)
  {
    rows := {};
    var todo := shas;
    ghost var done: set<string> := {};
    while todo != {}
      invariant done !! todo && done + todo == shas && rows == IndexedUnder(index, cutoff, done)
      decreases |todo|
    {
      var chunk := TakeChunk(todo);
      rows := rows + IndexedUnder(index, cutoff, chunk);
      UnderUnion(index, cutoff, done, chunk);
      SmallerSet(todo, chunk);
      todo, done := todo - chunk, done + chunk;
    }
    assert done == shas;
  }

  lemma SmallerSet<T>(s: set<T>, part: set<T>)
    requires part <= s && part != {}
    ensures |s - part| < |s|
  {
  }

  lemma UnderUnion(index: map<(nat, nat), string>, cutoff: nat, a: set<string>, b: set<string>)
    ensures IndexedUnder(index, cutoff, a + b) == IndexedUnder(index, cutoff, a) + IndexedUnder(index, cutoff, b)
  {
  }

  method TakeChunk(shas: set<string>) returns (chunk: set<string>)
    requires shas != {}
    ensures chunk <= shas && chunk != {} && |chunk| <= CHUNK
  {
    chunk := {};
    var rest := shas;
    while rest != {} && |chunk| < CHUNK
      invariant chunk + rest == shas && chunk !! rest && |chunk| <= CHUNK && (chunk == {} ==> rest == shas)
      decreases |rest|
    {
      var sha :| sha in rest;
      chunk, rest := chunk + {sha}, rest - {sha};
    }
  }
}
