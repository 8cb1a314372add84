/** Acquiring commits: what each requested commit was tried with, what its status says, and what is pinned. */
module GitRetention {
  import opened Collections
  import opened Wrappers
  import opened Orders
  import opened GitClosure
  import opened GitSources

  // ---- One commit ----

  datatype AttemptKind = ManagedStore | FromSource(source: FetchSource) | UpstreamRefs

  datatype Attempt = Attempt(kind: AttemptKind, outcome: Outcome, error: Option<string>)

  /** What is known of one requested commit; the source keeps one dictionary for each part. */
  datatype Track = Track(attempts: seq<Attempt>, state: Option<State>, obtained: AttemptKind, pending: bool)

  /** One attempt and its consequences. */
  function Record(track: Track, kind: AttemptKind, state: Option<State>, error: Option<string>): Track {
    var outcome := ReconstructionOutcome(state);
    Track(
      track.attempts + [Attempt(kind, outcome, if error.Some? then error else VerificationError(state))],
      if state.Some? then state else track.state,
      if state.Some? then kind else track.obtained,
      track.pending && outcome != Available)
  }

  /** The join of outcomes: available over partial over unavailable. */
  function Better(a: Outcome, b: Outcome): Outcome {
    if a == Available || b == Available then Available else if a == Partial || b == Partial then Partial else Unavailable
  }

  function Join(attempts: seq<Attempt>): Outcome {
    if attempts == [] then Unavailable
    else Better(Join(attempts[..|attempts| - 1]), attempts[|attempts| - 1].outcome)
  }

  function Kinds(attempts: seq<Attempt>): (kinds: seq<AttemptKind>)
    ensures |kinds| == |attempts| && forall i :: 0 <= i < |attempts| ==> kinds[i] == attempts[i].kind
  {
    seq(|attempts|, i requires 0 <= i < |attempts| => attempts[i].kind)
  }

  /** The last attempt that found the commit. */
  ghost predicate ObtainedBy(attempts: seq<Attempt>, kind: AttemptKind) {
    exists i :: 0 <= i < |attempts| && attempts[i].kind == kind && attempts[i].outcome != Unavailable
      && forall j :: i < j < |attempts| ==> attempts[j].outcome == Unavailable
  }

  ghost predicate TrackIsSound(track: Track) {
    && ReconstructionOutcome(track.state) == Join(track.attempts)
    && (track.pending <==> Join(track.attempts) != Available)
    && (forall i :: 0 <= i < |track.attempts| - 1 ==> track.attempts[i].outcome != Available)
    && (track.state.Some? ==> ObtainedBy(track.attempts, track.obtained))
  }

  /** Attempts follow a schedule; only an available commit leaves it early. */
  ghost predicate Follows(track: Track, schedule: seq<AttemptKind>) {
    if track.pending then Kinds(track.attempts) == schedule else Kinds(track.attempts) <= schedule
  }

  lemma OneMoreAttempt(track: Track, kind: AttemptKind, state: Option<State>, error: Option<string>, schedule: seq<AttemptKind>)
    requires TrackIsSound(track) && track.pending && Follows(track, schedule)
    ensures TrackIsSound(Record(track, kind, state, error))
    ensures Follows(Record(track, kind, state, error), schedule + [kind])
  {
    var after := Record(track, kind, state, error);
    assert after.attempts[..|track.attempts|] == track.attempts;
    assert Kinds(after.attempts) == Kinds(track.attempts) + [kind];
    NoneWasAvailable(track.attempts);
    if state.Some? {
      assert after.attempts[|track.attempts|].kind == kind;
    } else if track.state.Some? {
      StillObtained(track.attempts, after.attempts, track.obtained);
    }
  }

  lemma StillObtained(before: seq<Attempt>, after: seq<Attempt>, kind: AttemptKind)
    requires ObtainedBy(before, kind) && |after| == |before| + 1 && after[..|before|] == before
    requires after[|before|].outcome == Unavailable
    ensures ObtainedBy(after, kind)
  {
  }

  lemma {:induction false} NoneWasAvailable(attempts: seq<Attempt>)
    ensures Join(attempts) == Available <==> exists i :: 0 <= i < |attempts| && attempts[i].outcome == Available
  {
    if attempts != [] {
      var before := attempts[..|attempts| - 1];
      NoneWasAvailable(before);
      if Join(before) == Available {
        var i :| 0 <= i < |before| && before[i].outcome == Available;
        assert attempts[i].outcome == Available;
      }
      if i :| 0 <= i < |attempts| && attempts[i].outcome == Available {
        if i < |before| {
          assert before[i].outcome == Available;
        }
      }
    }
  }

  // ---- All commits ----

  /** A `git ls-remote` of one ref: its tip when it is advertised. */
  datatype Observation = Observation(sha: Option<string>, error: Option<string>)

  /** What the world answers: the store at each reconstruction, the remotes at each fetch, one observation of
  each ref, the staged tips of the pull sources, and the commits reachable from a ref. */
  datatype World = World(
    store: nat -> Store, remotes: nat -> Remotes, observe: FetchSource -> Observation,
    tips: seq<Group> -> map<nat, (string, string)>, staging: FetchSource -> string, history: (nat, string) -> set<string>)

  type Tracks = map<string, Track>

  /** The attempts that the groups plan for a commit. */
  function Routes(groups: seq<Group>, sha: string): seq<AttemptKind> {
    if groups == [] then []
    else
      var last := groups[|groups| - 1];
      Routes(groups[..|groups| - 1], sha) + (if sha in last.targets then [FromSource(last.source)] else [])
  }

  lemma {:induction false} RoutesJoin(a: seq<Group>, b: seq<Group>, sha: string)
    ensures Routes(a + b, sha) == Routes(a, sha) + Routes(b, sha)
  {
    if b == [] {
      assert a + b == a;
    } else {
      RoutesJoin(a, b[..|b| - 1], sha);
      assert (a + b)[..|a + b| - 1] == a + b[..|b| - 1];
    }
  }

  /** The state of a commit is what some store reconstructed. */
  ghost predicate IsVerified(world: World, sha: string, state: State) {
    exists step: nat :: VerifiedAt(world, step, sha, state)
  }

  ghost predicate VerifiedAt(world: World, step: nat, sha: string, state: State) {
    && ReconstructsAtBest(world.store(step), sha, state)
    && (FailuresShow(world.store(step)) ==> Reconstructs(world.store(step), sha, state))
  }

  ghost predicate TracksFollow(world: World, tracks: Tracks, groups: seq<Group>) {
    forall sha :: sha in tracks ==> TrackFollows(world, sha, tracks[sha], [ManagedStore] + Routes(groups, sha))
  }

  ghost predicate TrackFollows(world: World, sha: string, track: Track, schedule: seq<AttemptKind>) {
    && TrackIsSound(track) && Follows(track, schedule)
    && (track.state.Some? ==> IsVerified(world, sha, track.state.value))
  }

  /** The commits in `active` got one more attempt, and no others. */
  ghost predicate AllRecorded(
    before: Tracks, after: Tracks, active: seq<string>, kind: AttemptKind, checked: map<string, State>, error: Option<string>) {
    && after.Keys == before.Keys
    && forall sha :: sha in before ==>
         after[sha] == if sha in active then Record(before[sha], kind, Get(checked, sha), error) else before[sha]
  }

  method RecordAttempts(
    before: Tracks, active: seq<string>, kind: AttemptKind, checked: map<string, State>, error: Option<string>)
    returns (after: Tracks)
    requires Distinct(active) && forall sha :: sha in active ==> sha in before
    ensures AllRecorded(before, after, active, kind, checked, error)
  {
    hide Record;
    after := before;
    for i := 0 to |active|
      invariant AllRecorded(before, after, active[..i], kind, checked, error)
    {
      var sha := active[i];
      after := after[sha := Record(after[sha], kind, Get(checked, sha), error)];
      assert active[..i + 1] == active[..i] + [sha];
    }
    assert active[..|active|] == active;
  }

  /** The commits checked are as some store reconstructed them. */
  ghost predicate AllVerified(world: World, checked: map<string, State>) {
    forall sha :: sha in checked ==> IsVerified(world, sha, checked[sha])
  }

  lemma OneMoreTrack(
    world: World, sha: string, track: Track, kind: AttemptKind, checked: map<string, State>, error: Option<string>,
    schedule: seq<AttemptKind>)
    requires TrackFollows(world, sha, track, schedule) && track.pending && AllVerified(world, checked)
    ensures TrackFollows(world, sha, Record(track, kind, Get(checked, sha), error), schedule + [kind])
  {
    hide TrackIsSound, Follows, IsVerified;
    OneMoreAttempt(track, kind, Get(checked, sha), error, schedule);
  }

  lemma LongerTrack(world: World, sha: string, track: Track, schedule: seq<AttemptKind>, more: seq<AttemptKind>)
    requires TrackFollows(world, sha, track, schedule) && (track.pending ==> more == [])
    ensures TrackFollows(world, sha, track, schedule + more)
  {
  }

  predicate IsPending(tracks: Tracks, sha: string) {
    sha in tracks && tracks[sha].pending
  }

  /** Trying a group brings every track one group further. */
  lemma GroupTried(
    world: World, before: Tracks, after: Tracks, done: seq<Group>, group: Group, active: seq<string>,
    checked: map<string, State>, error: Option<string>)
    requires TracksFollow(world, before, done) && AllVerified(world, checked)
    requires forall sha :: sha in active <==> sha in group.targets && IsPending(before, sha)
    requires AllRecorded(before, after, active, FromSource(group.source), checked, error)
    ensures TracksFollow(world, after, done + [group])
  {
    hide TrackFollows, Record, AllVerified, Routes;
    forall sha | sha in after
      ensures TrackFollows(world, sha, after[sha], [ManagedStore] + Routes(done + [group], sha))
    {
      var schedule := [ManagedStore] + Routes(done, sha);
      ScheduleGrows(done, group, sha);
      if sha in active {
        OneMoreTrack(world, sha, before[sha], FromSource(group.source), checked, error, schedule);
      } else {
        LongerTrack(world, sha, before[sha], schedule, if sha in group.targets then [FromSource(group.source)] else []);
      }
    }
  }

  lemma ScheduleGrows(done: seq<Group>, group: Group, sha: string)
    ensures [ManagedStore] + Routes(done + [group], sha) ==
      [ManagedStore] + Routes(done, sha) + (if sha in group.targets then [FromSource(group.source)] else [])
  {
    assert (done + [group])[..|done|] == done;
  }

  /** Commits that are no longer pending keep their attempts, and the others get more of them. */
  ghost predicate SettledStay(before: Tracks, after: Tracks) {
    && after.Keys == before.Keys
    && (forall sha :: sha in before ==> before[sha].attempts <= after[sha].attempts)
    && forall sha :: sha in before && !before[sha].pending ==> after[sha] == before[sha]
  }

  lemma RecordedStay(before: Tracks, after: Tracks, active: seq<string>, kind: AttemptKind, checked: map<string, State>,
                     error: Option<string>)
    requires AllRecorded(before, after, active, kind, checked, error)
    requires forall sha :: sha in active ==> IsPending(before, sha)
    ensures SettledStay(before, after)
  {
    hide Record;
    forall sha | sha in before ensures before[sha].attempts <= after[sha].attempts {
      RecordedAttempt(before[sha], kind, Get(checked, sha), error);
    }
  }

  // ---- What an attempt means ----

  /** The attempt shows what the store has of the commit. */
  ghost predicate Sees(store: Store, sha: string, attempt: Attempt) {
    if store.missing(sha) then Misses(attempt) else exists state :: Shows(store, sha, state, attempt)
  }

  ghost predicate Shows(store: Store, sha: string, state: State, attempt: Attempt) {
    && ReconstructsAtBest(store, sha, state) && (FailuresShow(store) ==> Reconstructs(store, sha, state))
    && attempt.outcome == (if state.history.None? then Available else Partial) && attempt.error == state.history
  }

  /** Nothing was found, and nothing went wrong. */
  predicate Misses(attempt: Attempt) {
    attempt.outcome == Unavailable && attempt.error.None?
  }

  /** A commit counts only if it is reachable from the ref, where one is given. */
  ghost predicate SeesBehind(world: World, step: nat, ref: Option<string>, sha: string, attempt: Attempt) {
    if ref.Some? && sha !in world.history(step, ref.value) then Misses(attempt) else Sees(world.store(step), sha, attempt)
  }

  /** The ref of a repository is known to be out of reach: the repository is missing, or it does not advertise
  the ref. */
  ghost predicate IsRefused(world: World, fetch: nat, source: FetchSource) {
    source.kind == RepositoryRef && IsOutOfReach(world.remotes(fetch), world.observe(source))
  }

  predicate IsOutOfReach(remotes: Remotes, seen: Observation) {
    if seen.error.Some? then remotes.missingRepository(seen.error.value) else seen.sha.None?
  }

  /** The pull source of the same number has staged, under `ref`, the tip that the repository advertises. */
  ghost predicate IsStaged(world: World, groups: seq<Group>, source: FetchSource, ref: string) {
    source.kind == RepositoryRef && TipIsStaged(source, world.observe(source), world.tips(groups), ref)
  }

  predicate TipIsStaged(source: FetchSource, seen: Observation, tips: map<nat, (string, string)>, ref: string) {
    var number := if source.resourceNumber.Some? then source.resourceNumber.value else 0;
    && seen.error.None? && seen.sha.Some?
    && number in tips && tips[number] == (seen.sha.value, ref)
  }

  ghost predicate IsFetched(world: World, groups: seq<Group>, fetch: nat, source: FetchSource) {
    !IsRefused(world, fetch, source) && forall ref :: !IsStaged(world, groups, source, ref)
  }

  /** When a source was tried: the step of the fetch, what was fetched together, and the step of the look. */
  datatype Try = Try(fetch: nat, fetched: seq<FetchSource>, look: nat)

  /** What is fetched is exactly what is neither refused nor staged. */
  ghost predicate IsFair(world: World, groups: seq<Group>, source: FetchSource, try: Try) {
    && (source in try.fetched <==> IsFetched(world, groups, try.fetch, source))
    && forall other :: other in try.fetched ==> IsFetched(world, groups, try.fetch, other)
  }

  /** A refused source gives the reason. A staged one shows what is reachable from the staged ref. Any other is
  fetched; if it can be, alone, it shows what is there, behind its own ref when others were fetched too. */
  ghost predicate Accounts(world: World, groups: seq<Group>, source: FetchSource, try: Try, sha: string, attempt: Attempt) {
    && (IsRefused(world, try.fetch, source) ==>
      && attempt.outcome == Unavailable && attempt.error.Some?
      && (world.observe(source).error.Some? ==> attempt.error == world.observe(source).error))
    && (forall ref :: IsStaged(world, groups, source, ref) && !IsRefused(world, try.fetch, source) ==>
      SeesBehind(world, try.look, Some(ref), sha, attempt))
    && (IsFetched(world, groups, try.fetch, source) && FetchesAreAtomic(world.remotes(try.fetch)) ==>
      if world.remotes(try.fetch).fetch([source]).Fetched? then
        SeesBehind(world, try.look, if |try.fetched| > 1 then Some(world.staging(source)) else None, sha, attempt)
      else
        attempt.outcome == Unavailable && attempt.error.Some?)
  }

  ghost predicate IsExplained(world: World, groups: seq<Group>, sha: string, attempt: Attempt) {
    match attempt.kind
    case ManagedStore => Sees(world.store(0), sha, attempt)
    case FromSource(source) =>
      exists try :: IsFair(world, groups, source, try) && Accounts(world, groups, source, try, sha, attempt)
    case UpstreamRefs => exists step: nat :: Sees(world.store(step), sha, attempt)
  }

  ghost predicate AttemptsAreExplained(world: World, groups: seq<Group>, sha: string, attempts: seq<Attempt>) {
    forall i :: 0 <= i < |attempts| ==> IsExplained(world, groups, sha, attempts[i])
  }

  ghost predicate TracksAreExplained(world: World, groups: seq<Group>, tracks: Tracks) {
    forall sha :: sha in tracks ==> AttemptsAreExplained(world, groups, sha, tracks[sha].attempts)
  }

  /** The commits among `shas` that the store of the step has, as it reconstructs them. */
  ghost predicate CheckedAt(world: World, step: nat, shas: seq<string>, checked: map<string, State>) {
    && (forall sha :: sha in checked <==> sha in shas && !world.store(step).missing(sha))
    && forall sha :: sha in checked ==> VerifiedAt(world, step, sha, checked[sha])
  }

  lemma CheckedIsSeen(world: World, step: nat, shas: seq<string>, checked: map<string, State>, sha: string, attempt: Attempt)
    requires CheckedAt(world, step, shas, checked) && sha in shas
    requires attempt.outcome == ReconstructionOutcome(Get(checked, sha)) && attempt.error == VerificationError(Get(checked, sha))
    ensures Sees(world.store(step), sha, attempt)
  {
    hide FailuresShow, FailsAlone;
    if sha in checked {
      assert VerifiedAt(world, step, sha, checked[sha]);
      assert Shows(world.store(step), sha, checked[sha], attempt);
    }
  }

  lemma RecordedAttempt(track: Track, kind: AttemptKind, state: Option<State>, error: Option<string>)
    ensures var attempts := Record(track, kind, state, error).attempts;
      && |attempts| == |track.attempts| + 1 && attempts[..|track.attempts|] == track.attempts
      && attempts[|track.attempts|] ==
        Attempt(kind, ReconstructionOutcome(state), if error.Some? then error else VerificationError(state))
  {
  }

  /** Recording explained attempts keeps all of them explained. */
  lemma RecordedAreExplained(world: World, groups: seq<Group>, before: Tracks, after: Tracks, active: seq<string>,
                             kind: AttemptKind, checked: map<string, State>, error: Option<string>)
    requires TracksAreExplained(world, groups, before) && AllRecorded(before, after, active, kind, checked, error)
    requires forall sha :: sha in active && sha in before ==> IsExplained(world, groups, sha,
      Attempt(kind, ReconstructionOutcome(Get(checked, sha)),
        if error.Some? then error else VerificationError(Get(checked, sha))))
    ensures TracksAreExplained(world, groups, after)
  {
    hide IsExplained, Record, ReconstructionOutcome, VerificationError;
    forall sha | sha in after ensures AttemptsAreExplained(world, groups, sha, after[sha].attempts) {
      assert AttemptsAreExplained(world, groups, sha, before[sha].attempts);
      if sha in active {
        RecordedAttempt(before[sha], kind, Get(checked, sha), error);
        var n := |before[sha].attempts|;
        forall i | 0 <= i < |after[sha].attempts| ensures IsExplained(world, groups, sha, after[sha].attempts[i]) {
          if i < n {
            assert after[sha].attempts[i] == after[sha].attempts[..n][i];
          }
        }
      }
    }
  }

  /** What the batch has found out of a source before it looks for commits. */
  ghost predicate IsPrepared(world: World, groups: seq<Group>, source: FetchSource, try: Try, error: Option<string>,
                             attributable: Option<string>)
  {
    && IsFair(world, groups, source, try)
    && (IsRefused(world, try.fetch, source) ==>
      error.Some? && (world.observe(source).error.Some? ==> error == world.observe(source).error))
    && (forall ref :: IsStaged(world, groups, source, ref) && !IsRefused(world, try.fetch, source) ==>
      error.None? && attributable == Some(ref))
    && (IsFetched(world, groups, try.fetch, source) ==>
      && attributable == (if |try.fetched| > 1 then Some(world.staging(source)) else None)
      && (FetchesAreAtomic(world.remotes(try.fetch)) ==>
        (error.None? <==> world.remotes(try.fetch).fetch([source]).Fetched?)))
  }

  lemma PreparedIsExplained(world: World, groups: seq<Group>, source: FetchSource, try: Try, error: Option<string>,
                            attributable: Option<string>, candidates: seq<string>, checked: map<string, State>, sha: string)
    requires IsPrepared(world, groups, source, try, error, attributable)
    requires if error.Some? then checked == map[] else CheckedAt(world, try.look, candidates, checked)
    requires error.None? ==> (sha in candidates <==> attributable.None? || sha in world.history(try.look, attributable.value))
    ensures IsExplained(world, groups, sha, Attempt(FromSource(source), ReconstructionOutcome(Get(checked, sha)),
      if error.Some? then error else VerificationError(Get(checked, sha))))
  {
    hide IsRefused, IsStaged, IsFetched, FetchesAreAtomic, IsFair, Sees, CheckedAt;
    var attempt := Attempt(FromSource(source), ReconstructionOutcome(Get(checked, sha)),
      if error.Some? then error else VerificationError(Get(checked, sha)));
    if error.None? {
      if sha in candidates {
        CheckedIsSeen(world, try.look, candidates, checked, sha, attempt);
      } else {
        UncheckedIsMissed(world, try.look, candidates, checked, sha);
      }
      assert SeesBehind(world, try.look, attributable, sha, attempt);
    }
    assert Accounts(world, groups, source, try, sha, attempt);
  }

  lemma UncheckedIsMissed(world: World, step: nat, shas: seq<string>, checked: map<string, State>, sha: string)
    requires CheckedAt(world, step, shas, checked) && sha !in shas
    ensures Get(checked, sha).None?
  {
  }

  // ---- One group ----

  /** Nothing breaks off: at every step walks end, commits that are there have trees, and fetches settle. */
  ghost predicate WorldSettles(world: World) {
    forall step: nat :: StepSettles(world, step)
  }

  ghost predicate StepSettles(world: World, step: nat) {
    && WalksEnd(world.store(step)) && FetchesSettle(world.remotes(step))
    && forall sha :: !world.store(step).missing(sha) ==> world.store(step).tree(sha).Some?
  }

  lemma Settles(world: World, step: nat, shas: seq<string>)
    requires WorldSettles(world)
    ensures WalksEnd(world.store(step)) && PresentAreReadable(world.store(step), shas)
    ensures FetchesSettle(world.remotes(step))
  {
    hide WalksEnd, FetchesSettle;
    assert StepSettles(world, step);
  }

  /** _reconstruction at one step */
  method Check(world: World, step: nat, shas: seq<string>) returns (r: Result<map<string, State>>)
    ensures WorldSettles(world) ==> r.Ok?
    ensures r.Ok? ==> AllVerified(world, r.value) && CheckedAt(world, step, shas, r.value)
  {
    hide FailuresShow, Reconstructs, ReconstructsAtBest, WalksEnd, WorldSettles, PresentAreReadable;
    if WorldSettles(world) {
      Settles(world, step, shas);
    }
    r := Reconstruction(world.store(step), shas);
    if r.Ok? {
      forall sha | sha in r.value ensures IsVerified(world, sha, r.value[sha]) {
        assert VerifiedAt(world, step, sha, r.value[sha]);
      }
    }
  }

  method ActiveTargets(tracks: Tracks, targets: seq<string>) returns (active: seq<string>)
    requires Distinct(targets)
    ensures Distinct(active) && forall sha :: sha in active <==> sha in targets && IsPending(tracks, sha)
  {
    hide IsPending;
    active := [];
    for i := 0 to |targets|
      invariant Distinct(active) && forall sha :: sha in active <==> sha in targets[..i] && IsPending(tracks, sha)
    {
      if IsPending(tracks, targets[i]) {
        active := active + [targets[i]];
      }
      assert targets[..i + 1] == targets[..i] + [targets[i]];
    }
    assert targets[..|targets|] == targets;
  }

  /** _reachable_commits */
  method ReachableCommits(world: World, step: nat, ref: string, shas: seq<string>) returns (reachable: seq<string>)
    ensures forall sha :: sha in reachable <==> sha in shas && sha in world.history(step, ref)
  {
    var history := world.history(step, ref);
    reachable := [];
    for i := 0 to |shas|
      invariant forall sha :: sha in reachable <==> sha in shas[..i] && sha in history
    {
      if shas[i] in history {
        reachable := reachable + [shas[i]];
      }
      assert shas[..i + 1] == shas[..i] + [shas[i]];
    }
    assert shas[..|shas|] == shas;
  }

  /** One source of a batch. `attributable` is the ref that its commits have to be reachable from, where the
  fetch alone does not tell. */
  method TryGroup(world: World, step: nat, before: Tracks, group: Group, error: Option<string>,
                  attributable: Option<string>, ghost done: seq<Group>, ghost groups: seq<Group>, ghost try: Try)
    returns (r: Result<Tracks>)
    requires Distinct(group.targets) && TracksFollow(world, before, done)
    requires TracksAreExplained(world, groups, before)
    requires IsPrepared(world, groups, group.source, try, error, attributable) && try.look == step
    ensures WorldSettles(world) ==> r.Ok?
    ensures r.Ok? ==> TracksFollow(world, r.value, done + [group]) && SettledStay(before, r.value)
    ensures r.Ok? ==> TracksAreExplained(world, groups, r.value)
  {
    hide TracksFollow, AllVerified, Record, WorldSettles, TracksAreExplained, IsPrepared, CheckedAt, IsExplained,
      ReconstructionOutcome, VerificationError, Get;
    var active := ActiveTargets(before, group.targets);
    var candidates := active;
    if error.None? && attributable.Some? {
      candidates := ReachableCommits(world, step, attributable.value, active);
    }
    var checked: map<string, State> := map[];
    NothingChecked(world);
    if error.None? && active != [] {
      var reconstruction := Check(world, step, candidates);
      if reconstruction.Failure? {
        return Failure(reconstruction.reason);
      }
      checked := reconstruction.value;
    }
    var after := RecordAttempts(before, active, FromSource(group.source), checked, error);
    forall sha | sha in active
      ensures IsExplained(world, groups, sha, Attempt(FromSource(group.source), ReconstructionOutcome(Get(checked, sha)),
        if error.Some? then error else VerificationError(Get(checked, sha))))
    {
      PreparedIsExplained(world, groups, group.source, try, error, attributable, candidates, checked, sha);
    }
    RecordedAreExplained(world, groups, before, after, active, FromSource(group.source), checked, error);
    RecordedStay(before, after, active, FromSource(group.source), checked, error);
    GroupTried(world, before, after, done, group, active, checked, error);
    r := Ok(after);
  }

  lemma NothingChecked(world: World)
    ensures AllVerified(world, map[])
  {
  }

  // ---- One batch ----

  /** What the preflight says of a source. */
  datatype Decision = Refused(error: string) | Equivalent(ref: string) | MustFetch

  /** _equivalent_pull_ref */
  function EquivalentPullRef(
    source: FetchSource, observation: Option<Observation>, tips: map<nat, (string, string)>): Option<string> {
    if observation.None? || observation.value.error.Some? || observation.value.sha.None? then None
    else
      var number := if source.resourceNumber.Some? then source.resourceNumber.value else 0;
      if number in tips && tips[number].0 == observation.value.sha.value then Some(tips[number].1) else None
  }

  function Decide(
    remotes: Remotes, source: FetchSource, observation: Option<Observation>, tips: map<nat, (string, string)>): Decision {
    if observation.Some? && observation.value.error.Some? && remotes.missingRepository(observation.value.error.value)
    then Refused(observation.value.error.value)
    else if observation.Some? && observation.value.error.None? && observation.value.sha.None?
    then Refused("git ls-remote found no advertised ref")
    else match EquivalentPullRef(source, observation, tips)
      case Some(ref) => Equivalent(ref)
      case None => MustFetch
  }

  datatype Preflight = Preflight(
    errors: map<FetchSource, Option<string>>, evidence: map<FetchSource, string>, fetches: seq<FetchSource>)

  ghost predicate IsSorted(preflight: Preflight, source: FetchSource, decision: Decision) {
    match decision
    case Refused(error) =>
      source in preflight.errors && preflight.errors[source] == Some(error)
      && source !in preflight.evidence && source !in preflight.fetches
    case Equivalent(ref) =>
      source in preflight.errors && preflight.errors[source] == None
      && source in preflight.evidence && preflight.evidence[source] == ref && source !in preflight.fetches
    case MustFetch => source in preflight.fetches && source !in preflight.errors && source !in preflight.evidence
  }

  /** Each source of the batch is answered without a fetch or has to be fetched. */
  ghost predicate Sorts(preflight: Preflight, decide: FetchSource -> Decision, batch: seq<Group>) {
    && (forall i :: 0 <= i < |batch| ==> IsSorted(preflight, batch[i].source, decide(batch[i].source)))
    && (forall source :: source in preflight.fetches || source in preflight.errors || source in preflight.evidence ==>
         IsSourceOf(batch, source))
  }

  ghost predicate IsSourceOf(batch: seq<Group>, source: FetchSource) {
    exists i :: 0 <= i < |batch| && batch[i].source == source
  }

  function SortOne(preflight: Preflight, source: FetchSource, decision: Decision): Preflight {
    match decision
    case Refused(error) => preflight.(errors := preflight.errors[source := Some(error)])
    case Equivalent(ref) =>
      preflight.(errors := preflight.errors[source := None], evidence := preflight.evidence[source := ref])
    case MustFetch => preflight.(fetches := preflight.fetches + [source])
  }

  lemma SortedNow(preflight: Preflight, source: FetchSource, decision: Decision)
    requires source !in preflight.errors && source !in preflight.evidence && source !in preflight.fetches
    ensures IsSorted(SortOne(preflight, source, decision), source, decision)
  {
  }

  lemma SortedStays(preflight: Preflight, source: FetchSource, decision: Decision, other: FetchSource, decided: Decision)
    requires other != source && IsSorted(preflight, other, decided)
    ensures IsSorted(SortOne(preflight, source, decision), other, decided)
  {
  }

  lemma OneMoreSorted(preflight: Preflight, decide: FetchSource -> Decision, batch: seq<Group>, group: Group)
    requires Sorts(preflight, decide, batch) && !IsSourceOf(batch, group.source)
    ensures Sorts(SortOne(preflight, group.source, decide(group.source)), decide, batch + [group])
  {
    hide IsSorted;
    var after := SortOne(preflight, group.source, decide(group.source));
    var more := batch + [group];
    SortedNow(preflight, group.source, decide(group.source));
    assert IsSourceOf(more, group.source) by {
      assert more[|batch|] == group;
    }
    forall i | 0 <= i < |batch| ensures IsSorted(after, batch[i].source, decide(batch[i].source)) {
      SortedStays(preflight, group.source, decide(group.source), batch[i].source, decide(batch[i].source));
    }
    forall source | IsSourceOf(batch, source) ensures IsSourceOf(more, source) {
      var i :| 0 <= i < |batch| && batch[i].source == source;
      assert more[i].source == source;
    }
  }

  /** A source is refused exactly when it is out of reach, taken as staged only from where its tip is, and
  fetched in every other case. */
  ghost predicate IsSifted(preflight: Preflight, remotes: Remotes, source: FetchSource, seen: Option<Observation>,
                           tips: map<nat, (string, string)>)
  {
    var refused := seen.Some? && IsOutOfReach(remotes, seen.value);
    && (source in preflight.errors && preflight.errors[source].Some? <==> refused)
    && (refused && seen.value.error.Some? ==> preflight.errors[source] == seen.value.error)
    && (source in preflight.evidence ==>
      && source in preflight.errors && seen.Some? && !refused
      && TipIsStaged(source, seen.value, tips, preflight.evidence[source]))
    && (source in preflight.errors && preflight.errors[source].None? ==> source in preflight.evidence)
    && (source in preflight.fetches <==>
      !refused && (seen.None? || forall ref :: !TipIsStaged(source, seen.value, tips, ref)))
    && (source in preflight.fetches <==> source !in preflight.errors)
  }

  lemma DecisionSifts(preflight: Preflight, remotes: Remotes, source: FetchSource, seen: Option<Observation>,
                      tips: map<nat, (string, string)>)
    requires IsSorted(preflight, source, Decide(remotes, source, seen, tips))
    ensures IsSifted(preflight, remotes, source, seen, tips)
  {
    if seen.Some? {
      if ref :| TipIsStaged(source, seen.value, tips, ref) {
        assert EquivalentPullRef(source, seen, tips) == Some(ref);
      }
    }
  }

  lemma AllAreSifted(preflight: Preflight, remotes: Remotes, batch: seq<Group>, observations: map<FetchSource, Observation>,
                     tips: map<nat, (string, string)>)
    requires Sorts(preflight, source => Decide(remotes, source, Get(observations, source), tips), batch)
    ensures forall i :: 0 <= i < |batch| ==>
      IsSifted(preflight, remotes, batch[i].source, Get(observations, batch[i].source), tips)
    ensures forall source :: source in preflight.fetches ==> IsSourceOf(batch, source)
  {
    hide IsSorted, Decide, IsSifted;
    forall i | 0 <= i < |batch|
      ensures IsSifted(preflight, remotes, batch[i].source, Get(observations, batch[i].source), tips)
    {
      DecisionSifts(preflight, remotes, batch[i].source, Get(observations, batch[i].source), tips);
    }
  }

  method SortSources(remotes: Remotes, batch: seq<Group>, observations: map<FetchSource, Observation>,
                     tips: map<nat, (string, string)>)
    returns (preflight: Preflight)
    requires forall i, j :: 0 <= i < j < |batch| ==> batch[i].source != batch[j].source
    ensures Sorts(preflight, source => Decide(remotes, source, Get(observations, source), tips), batch)
    ensures forall i :: 0 <= i < |batch| ==>
      IsSifted(preflight, remotes, batch[i].source, Get(observations, batch[i].source), tips)
    ensures forall source :: source in preflight.fetches ==> IsSourceOf(batch, source)
  {
    hide Sorts, SortOne, Decide, IsSifted;
    var decide := source => Decide(remotes, source, Get(observations, source), tips);
    preflight := Preflight(map[], map[], []);
    NothingSorted(decide);
    for i := 0 to |batch|
      invariant Sorts(preflight, decide, batch[..i])
    {
      OneMoreSorted(preflight, decide, batch[..i], batch[i]);
      preflight := SortOne(preflight, batch[i].source, Decide(remotes, batch[i].source, Get(observations, batch[i].source), tips));
      assert batch[..i + 1] == batch[..i] + [batch[i]];
    }
    assert batch[..|batch|] == batch;
    AllAreSifted(preflight, remotes, batch, observations, tips);
  }

  lemma NothingSorted(decide: FetchSource -> Decision)
    ensures Sorts(Preflight(map[], map[], []), decide, [])
  {
  }

  ghost predicate DistinctSources(groups: seq<Group>) {
    forall i, j :: 0 <= i < j < |groups| ==> groups[i].source != groups[j].source
  }

  ghost predicate AreGroups(groups: seq<Group>) {
    && DistinctSources(groups)
    && forall group :: group in groups ==> Distinct(group.targets)
  }

  method TryBatch(world: World, step: nat, before: Tracks, batch: seq<Group>, observations: map<FetchSource, Observation>,
                  tips: map<nat, (string, string)>, ghost done: seq<Group>, ghost groups: seq<Group>)
    returns (r: Result<Tracks>)
    requires AreGroups(batch) && TracksFollow(world, before, done)
    requires TracksAreExplained(world, groups, before) && ObservationsFit(world, groups, batch, observations, tips)
    ensures WorldSettles(world) ==> r.Ok?
    ensures r.Ok? ==> TracksFollow(world, r.value, done + batch) && SettledStay(before, r.value)
    ensures r.Ok? ==> TracksAreExplained(world, groups, r.value)
  {
    hide Decide, Sorts, TracksFollow, WorldSettles, FetchesSettle, WalksEnd, PresentAreReadable, TracksAreExplained,
      IsPrepared, IsSifted, ObservationsFit, FetchesAreAtomic, ErrorsAre, IsSourceOf, Distinct;
    if WorldSettles(world) {
      Settles(world, step, []);
    }
    var remotes := world.remotes(step);
    var preflight := SortSources(remotes, batch, observations, tips);
    SourcesAreSorted(preflight, source => Decide(remotes, source, Get(observations, source), tips), batch);
    var errors := preflight.errors;
    if preflight.fetches != [] {
      var fetched := FetchSourceBatch(remotes, preflight.fetches);
      if fetched.Failure? {
        return Failure(fetched.reason);
      }
      errors := errors + fetched.value;
      ErrorsMerge(remotes, preflight.fetches, preflight.errors, fetched.value);
    } else {
      NoErrors(remotes, errors);
    }
    ghost var fetches := preflight.fetches;
    var tracks := before;
    assert done + batch[..0] == done;
    for g := 0 to |batch|
      invariant TracksFollow(world, tracks, done + batch[..g]) && SettledStay(before, tracks)
      invariant TracksAreExplained(world, groups, tracks)
    {
      var source := batch[g].source;
      assert batch[g] in batch;
      var attributable :=
        if source in preflight.evidence then Some(preflight.evidence[source])
        else if |preflight.fetches| > 1 then Some(world.staging(source)) else None;
      ghost var try := Try(step, fetches, step + g);
      BatchPrepares(world, groups, step, batch, observations, tips, preflight, errors, g, attributable);
      var tried := TryGroup(world, step + g, tracks, batch[g], errors[source], attributable, done + batch[..g], groups, try);
      if tried.Failure? {
        return Failure(tried.reason);
      }
      tracks := tried.value;
      assert done + batch[..g + 1] == done + batch[..g] + [batch[g]];
    }
    assert batch[..|batch|] == batch;
    r := Ok(tracks);
  }

  /** The refs of repositories were observed, with the pull tips staged at that time, and no others. */
  ghost predicate ObservationsFit(world: World, groups: seq<Group>, batch: seq<Group>,
                                  observations: map<FetchSource, Observation>, tips: map<nat, (string, string)>)
  {
    forall i :: 0 <= i < |batch| ==> SourceIsObserved(world, groups, batch[i].source, observations, tips)
  }

  ghost predicate SourceIsObserved(world: World, groups: seq<Group>, source: FetchSource,
                                   observations: map<FetchSource, Observation>, tips: map<nat, (string, string)>)
  {
    if source.kind == RepositoryRef then
      source in observations && observations[source] == world.observe(source) && tips == world.tips(groups)
    else
      source !in observations
  }

  lemma ErrorsMerge(remotes: Remotes, sources: seq<FetchSource>, known: map<FetchSource, Option<string>>,
                    fetched: map<FetchSource, Option<string>>)
    requires forall s :: s in fetched <==> s in sources
    ensures ErrorsAre(remotes, sources, fetched) ==> ErrorsAre(remotes, sources, known + fetched)
  {
  }

  lemma NoErrors(remotes: Remotes, errors: map<FetchSource, Option<string>>)
    ensures ErrorsAre(remotes, [], errors)
  {
  }

  /** What was observed decides what is refused, staged and fetched. */
  lemma SiftedIs(world: World, groups: seq<Group>, fetch: nat, preflight: Preflight, source: FetchSource,
                 observations: map<FetchSource, Observation>, tips: map<nat, (string, string)>)
    requires IsSifted(preflight, world.remotes(fetch), source, Get(observations, source), tips)
    requires SourceIsObserved(world, groups, source, observations, tips)
    ensures source in preflight.fetches <==> IsFetched(world, groups, fetch, source)
    ensures IsRefused(world, fetch, source) ==>
      && source in preflight.errors && preflight.errors[source].Some? && source !in preflight.fetches
      && (world.observe(source).error.Some? ==> preflight.errors[source] == world.observe(source).error)
    ensures forall ref :: IsStaged(world, groups, source, ref) && !IsRefused(world, fetch, source) ==>
      && source in preflight.errors && preflight.errors[source].None? && source !in preflight.fetches
      && source in preflight.evidence && preflight.evidence[source] == ref
    ensures source in preflight.fetches ==> source !in preflight.evidence
  {
    hide IsOutOfReach;
    if source.kind == RepositoryRef {
      forall ref ensures IsStaged(world, groups, source, ref) <==> TipIsStaged(source, world.observe(source), tips, ref) {
      }
    }
  }

  lemma BatchPrepares(world: World, groups: seq<Group>, fetch: nat, batch: seq<Group>,
                      observations: map<FetchSource, Observation>, tips: map<nat, (string, string)>, preflight: Preflight,
                      errors: map<FetchSource, Option<string>>, g: nat, attributable: Option<string>)
    requires g < |batch| && ObservationsFit(world, groups, batch, observations, tips)
    requires forall i :: 0 <= i < |batch| ==>
      IsSifted(preflight, world.remotes(fetch), batch[i].source, Get(observations, batch[i].source), tips)
    requires forall source :: source in preflight.fetches ==> IsSourceOf(batch, source)
    requires forall source :: source in preflight.errors && source !in preflight.fetches ==>
      source in errors && errors[source] == preflight.errors[source]
    requires batch[g].source in errors
    requires FetchesAreAtomic(world.remotes(fetch)) ==> ErrorsAre(world.remotes(fetch), preflight.fetches, errors)
    requires attributable == if batch[g].source in preflight.evidence then Some(preflight.evidence[batch[g].source])
      else if |preflight.fetches| > 1 then Some(world.staging(batch[g].source)) else None
    ensures IsPrepared(world, groups, batch[g].source, Try(fetch, preflight.fetches, fetch + g), errors[batch[g].source],
      attributable)
  {
    hide IsSifted, SourceIsObserved, IsRefused, IsStaged, IsFetched, FetchesAreAtomic;
    var source := batch[g].source;
    forall i | 0 <= i < |batch|
      ensures batch[i].source in preflight.fetches <==> IsFetched(world, groups, fetch, batch[i].source)
    {
      SiftedIs(world, groups, fetch, preflight, batch[i].source, observations, tips);
    }
    SiftedIs(world, groups, fetch, preflight, source, observations, tips);
    FetchedIsNeither(world, groups, fetch, source);
  }

  lemma FetchedIsNeither(world: World, groups: seq<Group>, fetch: nat, source: FetchSource)
    ensures IsFetched(world, groups, fetch, source) ==>
      !IsRefused(world, fetch, source) && forall ref :: !IsStaged(world, groups, source, ref)
  {
  }

  lemma SourcesAreSorted(preflight: Preflight, decide: FetchSource -> Decision, batch: seq<Group>)
    requires Sorts(preflight, decide, batch)
    ensures forall i :: 0 <= i < |batch| ==>
      batch[i].source in preflight.errors || batch[i].source in preflight.fetches
  {
  }

  // ---- Batches with pending commits ----

  predicate IsLive(tracks: Tracks, group: Group) {
    exists sha :: sha in group.targets && IsPending(tracks, sha)
  }

  /** The groups of a batch that still have a pending commit. */
  function LiveGroups(tracks: Tracks, groups: seq<Group>): seq<Group> {
    if groups == [] then []
    else
      var last := groups[|groups| - 1];
      LiveGroups(tracks, groups[..|groups| - 1]) + (if IsLive(tracks, last) then [last] else [])
  }

  lemma {:induction false} LiveRoutes(tracks: Tracks, groups: seq<Group>, sha: string)
    requires IsPending(tracks, sha)
    ensures Routes(LiveGroups(tracks, groups), sha) == Routes(groups, sha)
  {
    if groups != [] {
      var before, last := groups[..|groups| - 1], groups[|groups| - 1];
      LiveRoutes(tracks, before, sha);
      RoutesJoin(LiveGroups(tracks, before), if IsLive(tracks, last) then [last] else [], sha);
      OneRoute(last, sha);
    }
  }

  lemma OneRoute(group: Group, sha: string)
    ensures Routes([group], sha) == if sha in group.targets then [FromSource(group.source)] else []
  {
  }

  lemma {:induction false} LiveAreGroups(tracks: Tracks, groups: seq<Group>)
    requires AreGroups(groups)
    ensures AreGroups(LiveGroups(tracks, groups))
    ensures forall group :: group in LiveGroups(tracks, groups) ==> group in groups
  {
    hide IsLive, Distinct;
    if groups != [] {
      var before, last := groups[..|groups| - 1], groups[|groups| - 1];
      LiveAreGroups(tracks, before);
      var live := LiveGroups(tracks, before);
      forall i | 0 <= i < |live| ensures live[i].source != last.source {
        assert live[i] in before;
      }
    }
  }

  /** What is tried of a batch is all that pending commits have in it. */
  lemma BatchTried(world: World, before: Tracks, after: Tracks, done: seq<Group>, planned: seq<Group>)
    requires SettledStay(before, after) && TracksFollow(world, before, done)
    requires TracksFollow(world, after, done + LiveGroups(before, planned))
    ensures TracksFollow(world, after, done + planned)
  {
    hide TrackFollows;
    forall sha | sha in after
      ensures TrackFollows(world, sha, after[sha], [ManagedStore] + Routes(done + planned, sha))
    {
      RoutesJoin(done, planned, sha);
      if before[sha].pending {
        LiveRoutes(before, planned, sha);
        RoutesJoin(done, LiveGroups(before, planned), sha);
      } else {
        LongerTrack(world, sha, before[sha], [ManagedStore] + Routes(done, sha), Routes(planned, sha));
        assert [ManagedStore] + Routes(done, sha) + Routes(planned, sha) == [ManagedStore] + Routes(done + planned, sha);
      }
    }
  }

  // ---- All batches ----

  lemma MiddleAreGroups(a: seq<Group>, middle: seq<Group>, c: seq<Group>)
    requires AreGroups(a + middle + c)
    ensures AreGroups(middle)
  {
    hide Distinct;
    var all := a + middle + c;
    forall i | 0 <= i < |middle| ensures middle[i] == all[|a| + i] && middle[i] in all {
      assert all[|a| + i] == middle[i];
    }
  }

  lemma BatchOfGroups(batches: seq<seq<Group>>, b: nat)
    requires b < |batches| && AreGroups(Flatten(batches))
    ensures AreGroups(batches[b])
  {
    hide AreGroups, Flatten;
    FlattenJoin(batches[..b + 1], batches[b + 1..]);
    assert batches == batches[..b + 1] + batches[b + 1..];
    FlattenOneMore(batches[..b], batches[b]);
    assert batches[..b + 1] == batches[..b] + [batches[b]];
    MiddleAreGroups(Flatten(batches[..b]), batches[b], Flatten(batches[b + 1..]));
  }

  /** The refs of repositories that a pending commit is still looked for in. */
  function ObserveRefs(world: World, tracks: Tracks, groups: seq<Group>): map<FetchSource, Observation> {
    map group | group in groups && group.source.kind == RepositoryRef && IsLive(tracks, group)
      :: group.source := world.observe(group.source)
  }

  method TryBatches(world: World, start: Tracks, groups: seq<Group>, batches: seq<seq<Group>>)
    returns (r: Result<Tracks>, step: nat)
    requires TracksFollow(world, start, []) && Flatten(batches) == groups && AreGroups(groups)
    requires TracksAreExplained(world, groups, start) && forall b :: 0 <= b < |batches| ==> IsOfOneKind(batches[b])
    ensures WorldSettles(world) ==> r.Ok?
    ensures r.Ok? ==> TracksFollow(world, r.value, groups) && SettledStay(start, r.value)
    ensures r.Ok? ==> TracksAreExplained(world, groups, r.value)
  {
    hide TracksFollow, Flatten, LiveGroups, AreGroups, IsLive, WorldSettles, TracksAreExplained, SettledStay, IsOfOneKind,
      ObservationsFit, AllObserved, ObserveRefs;
    var tracks := start;
    var observations: map<FetchSource, Observation> := map[];
    var tips: map<nat, (string, string)> := map[];
    var repositoryObserved := false;
    step := 1;
    NoGroups();
    StayedSettled(start);
    for b := 0 to |batches|
      invariant TracksFollow(world, tracks, Flatten(batches[..b])) && SettledStay(start, tracks)
      invariant TracksAreExplained(world, groups, tracks)
      invariant if repositoryObserved then AllObserved(world, groups, tracks, observations, tips) else observations == map[]
    {
      var batch := LiveGroups(tracks, batches[b]);
      assert batches[..b + 1] == batches[..b] + [batches[b]];
      FlattenOneMore(batches[..b], batches[b]);
      BatchOfGroups(batches, b);
      LiveAreGroups(tracks, batches[b]);
      ghost var before := tracks;
      if batch == [] {
        assert Flatten(batches[..b]) + batch == Flatten(batches[..b]);
      } else {
        if batch[0].source.kind == RepositoryRef && !repositoryObserved {
          observations := ObserveRefs(world, tracks, groups);
          tips := world.tips(groups);
          repositoryObserved := true;
          ObservedNow(world, groups, tracks);
        }
        BatchIsObserved(world, groups, batches, b, tracks, observations, tips, repositoryObserved);
        var tried := TryBatch(world, step, tracks, batch, observations, tips, Flatten(batches[..b]), groups);
        if tried.Failure? {
          return Failure(tried.reason), step;
        }
        if repositoryObserved {
          StillObserved(world, groups, before, tried.value, observations, tips);
        }
        SettledOn(start, before, tried.value);
        tracks := tried.value;
        step := step + |batch|;
      }
      StayedSettled(before);
      BatchTried(world, before, tracks, Flatten(batches[..b]), batches[b]);
    }
    assert batches[..|batches|] == batches;
    r := Ok(tracks);
  }

  ghost predicate IsOfOneKind(batch: seq<Group>) {
    forall i :: 0 <= i < |batch| ==> batch[i].source.kind == batch[0].source.kind
  }

  /** Every repository ref that a pending commit is looked for in was observed. */
  ghost predicate AllObserved(world: World, groups: seq<Group>, tracks: Tracks,
                              observations: map<FetchSource, Observation>, tips: map<nat, (string, string)>)
  {
    && tips == world.tips(groups)
    && (forall source :: source in observations ==>
         source.kind == RepositoryRef && observations[source] == world.observe(source))
    && forall group :: group in groups && group.source.kind == RepositoryRef && IsLive(tracks, group) ==>
         group.source in observations
  }

  lemma ObservedNow(world: World, groups: seq<Group>, tracks: Tracks)
    ensures AllObserved(world, groups, tracks, ObserveRefs(world, tracks, groups), world.tips(groups))
  {
    hide IsLive;
  }

  lemma StayedSettled(tracks: Tracks)
    ensures SettledStay(tracks, tracks)
  {
  }

  lemma SettledOn(a: Tracks, b: Tracks, c: Tracks)
    requires SettledStay(a, b) && SettledStay(b, c)
    ensures SettledStay(a, c)
  {
  }

  /** Pending commits only become fewer. */
  lemma StillObserved(world: World, groups: seq<Group>, before: Tracks, after: Tracks,
                      observations: map<FetchSource, Observation>, tips: map<nat, (string, string)>)
    requires SettledStay(before, after) && AllObserved(world, groups, before, observations, tips)
    ensures AllObserved(world, groups, after, observations, tips)
  {
    forall group | IsLive(after, group) ensures IsLive(before, group) {
      var sha :| sha in group.targets && IsPending(after, sha);
      assert IsPending(before, sha);
    }
  }

  lemma {:induction false} LiveAreLive(tracks: Tracks, groups: seq<Group>)
    ensures forall group :: group in LiveGroups(tracks, groups) ==> group in groups && IsLive(tracks, group)
  {
    hide IsLive;
    if groups != [] {
      LiveAreLive(tracks, groups[..|groups| - 1]);
    }
  }

  lemma BatchIsInside(batches: seq<seq<Group>>, b: nat)
    requires b < |batches|
    ensures forall group :: group in batches[b] ==> group in Flatten(batches)
  {
    hide Flatten;
    FlattenJoin(batches[..b + 1], batches[b + 1..]);
    assert batches == batches[..b + 1] + batches[b + 1..];
    FlattenOneMore(batches[..b], batches[b]);
    assert batches[..b + 1] == batches[..b] + [batches[b]];
  }

  lemma BatchIsObserved(world: World, groups: seq<Group>, batches: seq<seq<Group>>, b: nat, tracks: Tracks,
                        observations: map<FetchSource, Observation>, tips: map<nat, (string, string)>, observed: bool)
    requires b < |batches| && Flatten(batches) == groups && IsOfOneKind(batches[b])
    requires if observed then AllObserved(world, groups, tracks, observations, tips) else observations == map[]
    requires LiveGroups(tracks, batches[b]) != []
    requires LiveGroups(tracks, batches[b])[0].source.kind == RepositoryRef ==> observed
    ensures ObservationsFit(world, groups, LiveGroups(tracks, batches[b]), observations, tips)
  {
    hide Flatten, LiveGroups, IsLive;
    var live := LiveGroups(tracks, batches[b]);
    LiveAreLive(tracks, batches[b]);
    BatchIsInside(batches, b);
    forall i | 0 <= i < |live| ensures SourceIsObserved(world, groups, live[i].source, observations, tips) {
      assert live[i] in live && live[0] in live;
      assert live[i].source.kind == live[0].source.kind;
    }
  }

  lemma NoGroups()
    ensures forall batches: seq<seq<Group>> {:trigger batches[..0]} :: Flatten(batches[..0]) == []
  {
  }

  // ---- retain_commits ----

  /** What is returned for a commit. */
  datatype Retention =
    Retention(status: Outcome, attempts: seq<Attempt>, obtained: Option<AttemptKind>, verification: Option<State>)

  /** _retention_result */
  function RetentionResult(track: Track): Retention {
    Retention(ReconstructionOutcome(track.state), track.attempts,
      if track.state.Some? then Some(track.obtained) else None, track.state)
  }

  function Schedule(groups: seq<Group>, sha: string): seq<AttemptKind> {
    [ManagedStore] + Routes(groups, sha) + [UpstreamRefs]
  }

  /** What the result says of one commit: its status is the join of its attempts; it was tried with all its
  sources in order unless it became available, and never again after that; it was verified in full if it is
  available; and the attempt it was obtained by is the last one that found it. */
  ghost predicate IsRetained(world: World, groups: seq<Group>, sha: string, result: Retention) {
    && result.status == Join(result.attempts)
    && (forall i :: 0 <= i < |result.attempts| - 1 ==> result.attempts[i].outcome != Available)
    && (if result.status == Available then Kinds(result.attempts) <= Schedule(groups, sha)
        else Kinds(result.attempts) == Schedule(groups, sha))
    && (result.verification.Some? <==> result.status != Unavailable)
    && (result.status == Available <==> result.verification.Some? && result.verification.value.history.None?)
    && (result.verification.Some? ==>
         && IsVerified(world, sha, result.verification.value)
         && result.obtained.Some? && ObtainedBy(result.attempts, result.obtained.value))
  }

  lemma TrackIsRetained(world: World, groups: seq<Group>, sha: string, track: Track)
    requires TrackFollows(world, sha, track, Schedule(groups, sha))
    ensures IsRetained(world, groups, sha, RetentionResult(track))
  {
    hide IsVerified, ObtainedBy;
  }

  predicate IsSha(s: string) {
    40 <= |s| <= 64 && forall c :: c in s ==> c in "0123456789abcdef"
  }

  /** The first look, in the managed store. */
  method FirstAttempts(world: World, selected: seq<string>) returns (r: Result<Tracks>)
    requires Distinct(selected)
    ensures WorldSettles(world) ==> r.Ok?
    ensures r.Ok? ==> TracksFollow(world, r.value, []) && forall sha :: sha in r.value <==> sha in selected
    ensures r.Ok? ==> forall groups :: TracksAreExplained(world, groups, r.value)
  {
    hide AllVerified, TrackFollows, Record, WorldSettles, TracksAreExplained, CheckedAt, IsExplained, ReconstructionOutcome,
      VerificationError, Get;
    var verification := Check(world, 0, selected);
    if verification.Failure? {
      return Failure(verification.reason);
    }
    var untried: Tracks := map sha | sha in selected :: Track([], None, ManagedStore, true);
    var tracks := RecordAttempts(untried, selected, ManagedStore, verification.value, None);
    forall groups ensures TracksAreExplained(world, groups, tracks) {
      FirstAreExplained(world, groups, untried, tracks, selected, verification.value);
    }
    forall sha | sha in tracks ensures TrackFollows(world, sha, tracks[sha], [ManagedStore] + Routes([], sha)) {
      NothingFollowed(world, sha);
      OneMoreTrack(world, sha, untried[sha], ManagedStore, verification.value, None, []);
      assert [] + [ManagedStore] == [ManagedStore] + Routes([], sha);
    }
    r := Ok(tracks);
  }

  lemma FirstAreExplained(world: World, groups: seq<Group>, untried: Tracks, tracks: Tracks, selected: seq<string>,
                          checked: map<string, State>)
    requires forall sha :: sha in untried ==> untried[sha].attempts == []
    requires AllRecorded(untried, tracks, selected, ManagedStore, checked, None) && CheckedAt(world, 0, selected, checked)
    ensures TracksAreExplained(world, groups, tracks)
  {
    hide AllRecorded, CheckedAt, ReconstructionOutcome, VerificationError, Get, Sees;
    forall sha | sha in selected
      ensures IsExplained(world, groups, sha,
        Attempt(ManagedStore, ReconstructionOutcome(Get(checked, sha)), VerificationError(Get(checked, sha))))
    {
      CheckedIsSeen(world, 0, selected, checked, sha,
        Attempt(ManagedStore, ReconstructionOutcome(Get(checked, sha)), VerificationError(Get(checked, sha))));
    }
    RecordedAreExplained(world, groups, untried, tracks, selected, ManagedStore, checked, None);
  }

  lemma NothingFollowed(world: World, sha: string)
    ensures TrackFollows(world, sha, Track([], None, ManagedStore, true), [])
  {
  }

  /** The commits of a set, in any order. */
  method ListOf(shas: set<string>) returns (list: seq<string>)
    ensures Distinct(list) && forall sha :: sha in list <==> sha in shas
  {
    list := [];
    var rest := shas;
    while rest != {}
      invariant rest <= shas && Distinct(list) && forall sha :: sha in list <==> sha in shas - rest
      decreases |rest|
    {
      var sha :| sha in rest;
      assert sha !in list;
      list := list + [sha];
      rest := rest - {sha};
    }
  }

  /** The last look, after the upstream refs are synchronized. */
  method UpstreamAttempts(world: World, step: nat, before: Tracks, ghost groups: seq<Group>) returns (r: Result<Tracks>)
    requires TracksFollow(world, before, groups) && TracksAreExplained(world, groups, before)
    ensures WorldSettles(world) ==> r.Ok?
    ensures r.Ok? ==> SettledStay(before, r.value) && TracksAreExplained(world, groups, r.value)
    ensures r.Ok? ==> forall sha :: sha in r.value ==> TrackFollows(world, sha, r.value[sha], Schedule(groups, sha))
  {
    hide AllVerified, TrackFollows, Record, WorldSettles, TracksAreExplained, CheckedAt, IsExplained, ReconstructionOutcome,
      VerificationError, Get;
    var pending := ListOf(set sha | sha in before && before[sha].pending);
    var checked: map<string, State> := map[];
    NothingChecked(world);
    if pending != [] {
      var reconstruction := Check(world, step, pending);
      if reconstruction.Failure? {
        return Failure(reconstruction.reason);
      }
      checked := reconstruction.value;
    }
    var after := RecordAttempts(before, pending, UpstreamRefs, checked, None);
    UpstreamIsExplained(world, groups, step, before, after, pending, checked);
    RecordedStay(before, after, pending, UpstreamRefs, checked, None);
    forall sha | sha in after ensures TrackFollows(world, sha, after[sha], Schedule(groups, sha)) {
      var schedule := [ManagedStore] + Routes(groups, sha);
      if sha in pending {
        OneMoreTrack(world, sha, before[sha], UpstreamRefs, checked, None, schedule);
      } else {
        LongerTrack(world, sha, before[sha], schedule, [UpstreamRefs]);
      }
    }
    r := Ok(after);
  }

  lemma UpstreamIsExplained(world: World, groups: seq<Group>, step: nat, before: Tracks, after: Tracks, pending: seq<string>,
                            checked: map<string, State>)
    requires TracksAreExplained(world, groups, before)
    requires AllRecorded(before, after, pending, UpstreamRefs, checked, None)
    requires pending != [] ==> CheckedAt(world, step, pending, checked)
    ensures TracksAreExplained(world, groups, after)
  {
    hide AllRecorded, CheckedAt, ReconstructionOutcome, VerificationError, Get, Sees, TracksAreExplained;
    forall sha | sha in pending
      ensures IsExplained(world, groups, sha,
        Attempt(UpstreamRefs, ReconstructionOutcome(Get(checked, sha)), VerificationError(Get(checked, sha))))
    {
      CheckedIsSeen(world, step, pending, checked, sha,
        Attempt(UpstreamRefs, ReconstructionOutcome(Get(checked, sha)), VerificationError(Get(checked, sha))));
    }
    RecordedAreExplained(world, groups, before, after, pending, UpstreamRefs, checked, None);
  }

  function RoutesOf(selected: seq<string>, sources: map<string, seq<FetchSource>>): (routes: map<string, seq<FetchSource>>)
    ensures forall sha :: sha in routes <==> sha in selected
  {
    map sha | sha in selected :: if sha in sources then sources[sha] else []
  }

  ghost predicate InputIsValid(shas: seq<string>, sources: map<string, seq<FetchSource>>) {
    && Distinct(shas) && (forall sha :: sha in shas ==> IsSha(sha))
    && (shas != [] ==> forall sha :: sha in sources ==> sha in shas)
  }

  /** A request is refused exactly for a repeated SHA, one that is none, or sources of an unrequested one. */
  lemma InputIsRefusedExactly(shas: seq<string>, sources: map<string, seq<FetchSource>>)
    ensures !InputIsValid(shas, sources) <==>
      || (exists i, j :: 0 <= i < j < |shas| && shas[i] == shas[j])
      || (exists sha :: sha in shas && (|sha| < 40 || |sha| > 64 || exists c :: c in sha && c !in "0123456789abcdef"))
      || (shas != [] && exists sha :: sha in sources && sha !in shas)
  {
  }

  method CheckInput(shas: seq<string>, sources: map<string, seq<FetchSource>>) returns (error: Option<string>)
    ensures error.None? <==> InputIsValid(shas, sources)
  {
    hide Distinct, IsSha;
    var distinct := AllDistinct(shas);
    if !distinct || exists sha :: sha in shas && !IsSha(sha) {
      return Some("shas must contain unique Git object IDs");
    }
    if shas != [] && exists sha :: sha in sources && sha !in shas {
      return Some("commit sources contain an unrequested SHA");
    }
    return None;
  }

  ghost predicate AllRetained(world: World, groups: seq<Group>, results: map<string, Retention>) {
    forall sha :: sha in results ==> IsRetained(world, groups, sha, results[sha])
  }

  ghost predicate AllExplained(world: World, groups: seq<Group>, results: map<string, Retention>) {
    forall sha :: sha in results ==> AttemptsAreExplained(world, groups, sha, results[sha].attempts)
  }

  /** The commits that can be pinned are those that were found, and exactly they are. */
  ghost predicate PinsFound(results: map<string, Retention>, pinned: set<string>) {
    forall sha :: sha in pinned <==> sha in results && results[sha].status != Unavailable
  }

  ghost predicate AreResults(tracks: Tracks, results: map<string, Retention>) {
    && results.Keys == tracks.Keys
    && forall sha :: sha in results ==> results[sha] == RetentionResult(tracks[sha])
  }

  /** A commit that no source was looked for is one that the store had in full. */
  ghost predicate OthersAreAvailable(results: map<string, Retention>, missing: set<string>) {
    && (forall sha :: sha in results && sha !in missing ==>
         results[sha].status == Available && |results[sha].attempts| == 1)
    && forall sha :: sha in missing ==>
         sha in results && results[sha].attempts != [] && results[sha].attempts[0].outcome != Available
  }

  lemma SettledAreAvailable(world: World, first: Tracks, tried: Tracks, last: Tracks, results: map<string, Retention>)
    requires TracksFollow(world, first, []) && SettledStay(first, tried) && SettledStay(tried, last)
    requires AreResults(last, results)
    ensures results.Keys == first.Keys && OthersAreAvailable(results, PendingOf(first))
  {
    hide IsVerified;
    forall sha | sha in results && sha !in PendingOf(first)
      ensures results[sha].status == Available && |results[sha].attempts| == 1
    {
      var track := first[sha];
      assert last[sha] == track;
      assert TrackFollows(world, sha, track, [ManagedStore] + Routes([], sha));
      assert [ManagedStore] + Routes([], sha) == [ManagedStore];
      assert |track.attempts| <= 1;
    }
    forall sha | sha in PendingOf(first)
      ensures sha in results && results[sha].attempts != [] && results[sha].attempts[0].outcome != Available
    {
      var track := first[sha];
      assert TrackFollows(world, sha, track, [ManagedStore] + Routes([], sha));
      assert [ManagedStore] + Routes([], sha) == [ManagedStore];
      assert |Kinds(track.attempts)| == 1;
      assert track.attempts <= last[sha].attempts;
      NoneWasAvailable(track.attempts);
    }
  }

  method Results(world: World, tracks: Tracks, ghost groups: seq<Group>)
    returns (results: map<string, Retention>, pinned: set<string>)
    requires forall sha :: sha in tracks ==> TrackFollows(world, sha, tracks[sha], Schedule(groups, sha))
    requires TracksAreExplained(world, groups, tracks)
    ensures AllExplained(world, groups, results)
    ensures AreResults(tracks, results) && AllRetained(world, groups, results) && PinsFound(results, pinned)
  {
    hide TrackFollows, IsRetained, AttemptsAreExplained;
    results := map sha | sha in tracks :: RetentionResult(tracks[sha]);
    pinned := set sha | sha in tracks && tracks[sha].state.Some?;
    forall sha | sha in results ensures IsRetained(world, groups, sha, results[sha]) {
      TrackIsRetained(world, groups, sha, tracks[sha]);
    }
  }

  /** retain_commits. `missing` are the commits that the store could not reconstruct at first, and `groups` the
  sources that they are routed to. */
  method RetainCommits(world: World, limit: nat, shas: seq<string>, sources: map<string, seq<FetchSource>>)
    returns (r: Result<map<string, Retention>>, pinned: set<string>, ghost missing: set<string>, ghost groups: seq<Group>)
    requires limit >= 1
    ensures InputIsValid(shas, sources) && WorldSettles(world) ==> r.Ok?
    ensures r.Ok? ==> InputIsValid(shas, sources) && forall sha :: sha in r.value <==> sha in shas
    ensures r.Ok? ==> missing <= RoutesOf(shas, sources).Keys && GroupsAre(RoutesOf(shas, sources), missing, groups)
    ensures r.Ok? ==> AllRetained(world, groups, r.value) && PinsFound(r.value, pinned)
    ensures r.Ok? ==> OthersAreAvailable(r.value, missing) && AllExplained(world, groups, r.value)
    ensures r.Failure? ==> pinned == {}
  {
    hide *;
    pinned, missing, groups := {}, {}, [];
    NothingToRetain(world, shas, sources);
    var error := CheckInput(shas, sources);
    if error.Some? {
      return Failure(error.value), pinned, missing, groups;
    }
    if shas == [] {
      return Ok(map[]), pinned, missing, groups;
    }
    ValidParts(shas, sources);
    var first := FirstAttempts(world, shas);
    if first.Failure? {
      return Failure(first.reason), pinned, missing, groups;
    }
    var pending := PendingOf(first.value);
    var planned := SourceGroups(RoutesOf(shas, sources), pending);
    var batches := SourceBatches(planned, pending, limit);
    GroupsAreFit(RoutesOf(shas, sources), pending, planned);
    UniformAreOfOneKind(batches, limit);
    var tried, step := TryBatches(world, first.value, planned, batches);
    if tried.Failure? {
      return Failure(tried.reason), pinned, missing, groups;
    }
    var last := UpstreamAttempts(world, step, tried.value, planned);
    if last.Failure? {
      return Failure(last.reason), pinned, missing, groups;
    }
    missing, groups := pending, planned;
    var results, found := Results(world, last.value, planned);
    SettledAreAvailable(world, first.value, tried.value, last.value, results);
    r, pinned := Ok(results), found;
  }

  function PendingOf(tracks: Tracks): (pending: set<string>)
    ensures pending <= tracks.Keys
  {
    set sha | sha in tracks && tracks[sha].pending
  }

  lemma UniformAreOfOneKind(batches: seq<seq<Group>>, limit: nat)
    requires forall b :: 0 <= b < |batches| ==> BatchIsUniform(batches[b], limit)
    ensures forall b :: 0 <= b < |batches| ==> IsOfOneKind(batches[b])
  {
    forall b | 0 <= b < |batches| ensures IsOfOneKind(batches[b]) {
      assert BatchIsUniform(batches[b], limit);
    }
  }

  lemma ValidParts(shas: seq<string>, sources: map<string, seq<FetchSource>>)
    requires InputIsValid(shas, sources)
    ensures Distinct(shas)
  {
  }

  lemma NothingToRetain(world: World, shas: seq<string>, sources: map<string, seq<FetchSource>>)
    ensures GroupsAre(RoutesOf(shas, sources), {}, []) && AllRetained(world, [], map[]) && PinsFound(map[], {})
    ensures OthersAreAvailable(map[], {}) && AllExplained(world, [], map[])
  {
  }

  /** Groups of missing commits are all active, and fit to be tried. */
  lemma GroupsAreFit(routes: map<string, seq<FetchSource>>, missing: set<string>, groups: seq<Group>)
    requires missing <= routes.Keys && GroupsAre(routes, missing, groups)
    ensures ActiveGroups(groups, missing) == groups && AreGroups(groups)
  {
    hide SourceRank, Distinct, Less;
    forall i | 0 <= i < |groups| ensures IsActive(groups[i], missing) && Distinct(groups[i].targets) {
      assert GroupIsRouted(routes, missing, groups[i]);
      assert groups[i].targets[0] in groups[i].targets;
    }
    AllActive(groups, missing);
    forall i, j | 0 <= i < j < |groups| ensures groups[i].source != groups[j].source {
      LessIsTotal(SourceRank(groups[i].source), SourceRank(groups[j].source));
    }
  }

  lemma {:induction false} AllActive(groups: seq<Group>, pending: set<string>)
    requires forall i :: 0 <= i < |groups| ==> IsActive(groups[i], pending)
    ensures ActiveGroups(groups, pending) == groups
  {
    hide IsActive;
    if groups != [] {
      AllActive(groups[..|groups| - 1], pending);
    }
  }

  // ---- What can be reached is retained ----

  /** The attempt tells what is there: it is available exactly when the commit and all it reaches are. */
  lemma SeesWhatIsThere(store: Store, sha: string, attempt: Attempt)
    requires FailuresShow(store) && Sees(store, sha, attempt)
    ensures attempt.outcome == Available <==> !store.missing(sha) && !FailsAlone(store, sha)
    ensures attempt.outcome == Unavailable <==> store.missing(sha)
  {
    hide FailuresShow, FailsAlone;
    if !store.missing(sha) {
      var state :| Shows(store, sha, state, attempt);
    }
  }

  /** Tried at these steps, the source yields the commit: it is not refused, the staged ref reaches the commit or
  the source can be fetched and its own ref does, and the store then has all of it. */
  ghost predicate Yields(world: World, groups: seq<Group>, source: FetchSource, try: Try, sha: string) {
    && !IsRefused(world, try.fetch, source) && FailuresShow(world.store(try.look))
    && !world.store(try.look).missing(sha) && !FailsAlone(world.store(try.look), sha)
    && (forall ref :: IsStaged(world, groups, source, ref) ==> sha in world.history(try.look, ref))
    && (IsFetched(world, groups, try.fetch, source) ==>
      && FetchesAreAtomic(world.remotes(try.fetch)) && world.remotes(try.fetch).fetch([source]).Fetched?
      && (|try.fetched| > 1 ==> sha in world.history(try.look, world.staging(source))))
  }

  lemma YieldIsAvailable(world: World, groups: seq<Group>, source: FetchSource, try: Try, sha: string, attempt: Attempt)
    requires Accounts(world, groups, source, try, sha, attempt) && Yields(world, groups, source, try, sha)
    ensures attempt.outcome == Available
  {
    hide FailuresShow, FailsAlone, Sees, IsRefused, IsStaged, FetchesAreAtomic;
    assert Sees(world.store(try.look), sha, attempt) by {
      if ref :| IsStaged(world, groups, source, ref) {
        assert SeesBehind(world, try.look, Some(ref), sha, attempt);
      } else {
        assert IsFetched(world, groups, try.fetch, source);
      }
    }
    SeesWhatIsThere(world.store(try.look), sha, attempt);
  }

  lemma {:induction false} RouteOfGroup(groups: seq<Group>, group: Group, sha: string)
    requires group in groups && sha in group.targets
    ensures FromSource(group.source) in Routes(groups, sha)
  {
    if group != groups[|groups| - 1] {
      RouteOfGroup(groups[..|groups| - 1], group, sha);
    }
  }

  /** Main result: a commit is available in the end if some source that it is routed to yields it whenever it
  is tried. */
  lemma YieldedIsRetained(world: World, groups: seq<Group>, sha: string, result: Retention, group: Group)
    requires IsRetained(world, groups, sha, result) && AttemptsAreExplained(world, groups, sha, result.attempts)
    requires group in groups && sha in group.targets
    requires forall try :: IsFair(world, groups, group.source, try) ==> Yields(world, groups, group.source, try, sha)
    ensures result.status == Available
  {
    hide IsFair, Yields, Accounts, IsVerified, ObtainedBy, Routes;
    if result.status != Available {
      RouteOfGroup(groups, group, sha);
      var schedule := Schedule(groups, sha);
      var i :| 0 <= i < |Routes(groups, sha)| && Routes(groups, sha)[i] == FromSource(group.source);
      assert schedule[i + 1] == FromSource(group.source);
      var attempt := result.attempts[i + 1];
      assert Kinds(result.attempts)[i + 1] == attempt.kind;
      assert IsExplained(world, groups, sha, attempt);
      var try :| IsFair(world, groups, group.source, try) && Accounts(world, groups, group.source, try, sha, attempt);
      YieldIsAvailable(world, groups, group.source, try, sha, attempt);
      NoneWasAvailable(result.attempts);
    }
  }
}
