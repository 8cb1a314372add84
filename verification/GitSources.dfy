/** Remote refs that may reach a commit: their order, their batches, and fetching a batch. */
module GitSources {
  import opened Collections
  import opened Wrappers
  import opened Orders
  import opened Text

  datatype SourceKind = PullRef | RepositoryRef

  datatype FetchSource = FetchSource(
    kind: SourceKind, remoteUrl: string, remoteRef: string, repository: string, resourceNumber: Option<nat>)

  /** A source and the requested commits it may reach. */
  datatype Group = Group(source: FetchSource, targets: seq<string>)

  // ---- Order ----

  /** A component of a tuple: its code points above the terminator. */
  function Component(s: string): seq<nat> {
    if s == "" then [0] else [s[0] as nat + 1] + Component(s[1..])
  }

  /** The sort key: pull refs first, then repository, ref and number. The remaining fields order the
  groups that the source leaves in the order of a set. */
  function SourceRank(source: FetchSource): seq<nat> {
    [if source.kind == PullRef then 0 else 1] + Component(source.repository) + Component(source.remoteRef)
    + [match source.resourceNumber case None => 0 case Some(n) => n]
    + Component(source.remoteUrl) + [if source.resourceNumber.None? then 0 else 1]
  }

  lemma {:induction false} ComponentEnds(s: string, t: string, a: seq<nat>, b: seq<nat>)
    requires Component(s) + a == Component(t) + b
    ensures s == t && a == b
  {
    assert (Component(s) + a)[0] == (Component(t) + b)[0];
    if s == "" || t == "" {
      assert (Component(s) + a)[1..] == (Component(t) + b)[1..];
      assert s == "" ==> (Component(s) + a)[1..] == a;
      assert t == "" ==> (Component(t) + b)[1..] == b;
    } else {
      assert (Component(s) + a)[1..] == Component(s[1..]) + a;
      assert (Component(t) + b)[1..] == Component(t[1..]) + b;
      ComponentEnds(s[1..], t[1..], a, b);
      assert s == [s[0]] + s[1..] && t == [t[0]] + t[1..];
    }
  }

  function RankTail(source: FetchSource): seq<nat> {
    [match source.resourceNumber case None => 0 case Some(n) => n]
    + Component(source.remoteUrl) + [if source.resourceNumber.None? then 0 else 1]
  }

  lemma SourceRankInjective()
    ensures Injective(SourceRank)
  {
    hide Component;
    forall x: FetchSource, y: FetchSource | SourceRank(x) == SourceRank(y) ensures x == y {
      SameRankSameSource(x, y);
    }
  }

  lemma SameRankSameSource(x: FetchSource, y: FetchSource)
    requires SourceRank(x) == SourceRank(y)
    ensures x == y
  {
    hide Component;
    var a := Component(x.repository) + (Component(x.remoteRef) + RankTail(x));
    var b := Component(y.repository) + (Component(y.remoteRef) + RankTail(y));
    assert SourceRank(x) == [if x.kind == PullRef then 0 else 1] + a;
    assert SourceRank(y) == [if y.kind == PullRef then 0 else 1] + b;
    assert SourceRank(x)[0] == SourceRank(y)[0] && SourceRank(x)[1..] == a && SourceRank(y)[1..] == b;
    ComponentEnds(x.repository, y.repository, Component(x.remoteRef) + RankTail(x), Component(y.remoteRef) + RankTail(y));
    ComponentEnds(x.remoteRef, y.remoteRef, RankTail(x), RankTail(y));
    SameTail(x, y);
  }

  lemma SameTail(x: FetchSource, y: FetchSource)
    requires RankTail(x) == RankTail(y)
    ensures x.remoteUrl == y.remoteUrl && x.resourceNumber == y.resourceNumber
  {
    hide Component;
    assert RankTail(x)[0] == RankTail(y)[0];
    var a, b := [if x.resourceNumber.None? then 0 else 1], [if y.resourceNumber.None? then 0 else 1];
    assert RankTail(x)[1..] == Component(x.remoteUrl) + a && RankTail(y)[1..] == Component(y.remoteUrl) + b;
    ComponentEnds(x.remoteUrl, y.remoteUrl, a, b);
    assert a[0] == b[0];
  }

  /** Pull refs first, then by repository, ref and number; the remaining fields break ties. */
  predicate SourceBefore(a: FetchSource, b: FetchSource) {
    if a.kind != b.kind then a.kind == PullRef
    else if a.repository != b.repository then Less(CodePoints(a.repository), CodePoints(b.repository))
    else if a.remoteRef != b.remoteRef then Less(CodePoints(a.remoteRef), CodePoints(b.remoteRef))
    else if Number(a) != Number(b) then Number(a) < Number(b)
    else if a.remoteUrl != b.remoteUrl then Less(CodePoints(a.remoteUrl), CodePoints(b.remoteUrl))
    else a.resourceNumber.None? && b.resourceNumber.Some?
  }

  function Number(source: FetchSource): nat {
    if source.resourceNumber.Some? then source.resourceNumber.value else 0
  }

  /** A component is compared before what follows it. */
  lemma {:induction false} ComponentLess(s: string, t: string, a: seq<nat>, b: seq<nat>)
    ensures Less(Component(s) + a, Component(t) + b) <==>
      if s == t then Less(a, b) else Less(CodePoints(s), CodePoints(t))
  {
    var x, y := Component(s) + a, Component(t) + b;
    if s == "" || t == "" {
      assert s == "" ==> x[1..] == a && CodePoints(s) == [];
      assert t == "" ==> y[1..] == b && CodePoints(t) == [];
    } else {
      assert x[1..] == Component(s[1..]) + a && y[1..] == Component(t[1..]) + b;
      assert CodePoints(s)[1..] == CodePoints(s[1..]) && CodePoints(t)[1..] == CodePoints(t[1..]);
      assert s == [s[0]] + s[1..] && t == [t[0]] + t[1..];
      ComponentLess(s[1..], t[1..], a, b);
    }
  }

  lemma NumberLess(m: nat, n: nat, a: seq<nat>, b: seq<nat>)
    ensures Less([m] + a, [n] + b) <==> if m == n then Less(a, b) else m < n
  {
    assert ([m] + a)[1..] == a && ([n] + b)[1..] == b;
  }

  predicate TailBefore(a: FetchSource, b: FetchSource) {
    if Number(a) != Number(b) then Number(a) < Number(b)
    else if a.remoteUrl != b.remoteUrl then Less(CodePoints(a.remoteUrl), CodePoints(b.remoteUrl))
    else a.resourceNumber.None? && b.resourceNumber.Some?
  }

  lemma TailIsOrder(a: FetchSource, b: FetchSource)
    ensures Less(RankTail(a), RankTail(b)) <==> TailBefore(a, b)
  {
    hide Component, Less, CodePoints;
    var c, d := [if a.resourceNumber.None? then 0 else 1], [if b.resourceNumber.None? then 0 else 1];
    NumberLess(c[0], d[0], [], []);
    NothingLess();
    assert c + [] == c && d + [] == d;
    ComponentLess(a.remoteUrl, b.remoteUrl, c, d);
    NumberLess(Number(a), Number(b), Component(a.remoteUrl) + c, Component(b.remoteUrl) + d);
    assert RankTail(a) == [Number(a)] + (Component(a.remoteUrl) + c);
    assert RankTail(b) == [Number(b)] + (Component(b.remoteUrl) + d);
  }

  /** The rank orders the sources in this way. */
  lemma RankIsOrder(a: FetchSource, b: FetchSource)
    ensures Less(SourceRank(a), SourceRank(b)) <==> SourceBefore(a, b)
  {
    hide Component, Less, CodePoints, SourceRank, RankTail;
    TailIsOrder(a, b);
    ComponentLess(a.remoteRef, b.remoteRef, RankTail(a), RankTail(b));
    var x, y := Component(a.remoteRef) + RankTail(a), Component(b.remoteRef) + RankTail(b);
    ComponentLess(a.repository, b.repository, x, y);
    NumberLess(if a.kind == PullRef then 0 else 1, if b.kind == PullRef then 0 else 1,
      Component(a.repository) + x, Component(b.repository) + y);
    RankParts(a);
    RankParts(b);
  }

  lemma RankParts(a: FetchSource)
    ensures SourceRank(a) ==
      [if a.kind == PullRef then 0 else 1] + (Component(a.repository) + (Component(a.remoteRef) + RankTail(a)))
  {
    hide Component;
  }

  lemma NothingLess()
    ensures !Less([], [])
  {
  }

  // ---- Groups ----

  /** The commits of `missing` that are routed to a source. */
  function Routed(routes: map<string, seq<FetchSource>>, missing: set<string>, source: FetchSource): set<string>
    requires missing <= routes.Keys
  {
    set sha | sha in missing && source in routes[sha]
  }

  ghost predicate GroupIsRouted(routes: map<string, seq<FetchSource>>, missing: set<string>, group: Group)
    requires missing <= routes.Keys
  {
    && group.targets != [] && Distinct(group.targets)
    && forall sha :: sha in group.targets <==> sha in Routed(routes, missing, group.source)
  }

  /** One group for every source that a missing commit is routed to, in ascending order of rank. */
  ghost predicate GroupsAre(routes: map<string, seq<FetchSource>>, missing: set<string>, groups: seq<Group>)
    requires missing <= routes.Keys
  {
    && (forall i :: 0 <= i < |groups| ==> GroupIsRouted(routes, missing, groups[i]))
    && (forall i, j :: 0 <= i < j < |groups| ==> Less(SourceRank(groups[i].source), SourceRank(groups[j].source)))
    && (forall sha, source :: sha in missing && source in routes[sha] ==>
         exists i :: 0 <= i < |groups| && groups[i].source == source)
  }

  /** The group of a source that some missing commit is routed to. */
  method SourceGroup(routes: map<string, seq<FetchSource>>, missing: set<string>, source: FetchSource)
    returns (group: Group)
    requires missing <= routes.Keys && Routed(routes, missing, source) != {}
    ensures group.source == source && GroupIsRouted(routes, missing, group)
  {
    CodePointsInjective();
    hide CodePoints, Less, Routed;
    var routed := Routed(routes, missing, source);
    var targets := Sort(routed, CodePoints);
    SortedHasNoDuplicates(routed, CodePoints);
    var sha :| sha in routed;
    assert sha in targets;
    group := Group(source, targets);
  }

  lemma EverySourceIsRouted(routes: map<string, seq<FetchSource>>, missing: set<string>, source: FetchSource)
    requires missing <= routes.Keys
    ensures source in AllSources(routes, missing) <==> Routed(routes, missing, source) != {}
  {
    if source in AllSources(routes, missing) {
      var sha :| sha in missing && source in routes[sha];
      assert sha in Routed(routes, missing, source);
    }
    if Routed(routes, missing, source) != {} {
      var sha :| sha in Routed(routes, missing, source);
    }
  }

  function AllSources(routes: map<string, seq<FetchSource>>, missing: set<string>): set<FetchSource>
    requires missing <= routes.Keys
  {
    set sha, source | sha in missing && source in routes[sha] :: source
  }

  /** _source_groups */
  method SourceGroups(routes: map<string, seq<FetchSource>>, missing: set<string>) returns (groups: seq<Group>)
    requires missing <= routes.Keys
    ensures GroupsAre(routes, missing, groups)
  {
    SourceRankInjective();
    hide *;
    var sources := Sort(AllSources(routes, missing), SourceRank);
    groups := [];
    for i := 0 to |sources|
      invariant |groups| == i && forall k :: 0 <= k < i ==> groups[k].source == sources[k]
      invariant forall k :: 0 <= k < i ==> GroupIsRouted(routes, missing, groups[k])
    {
      assert sources[i] in sources;
      EverySourceIsRouted(routes, missing, sources[i]);
      var group := SourceGroup(routes, missing, sources[i]);
      groups := groups + [group];
    }
    SortedSources(routes, missing, sources, groups);
  }

  lemma SortedSources(routes: map<string, seq<FetchSource>>, missing: set<string>, sources: seq<FetchSource>, groups: seq<Group>)
    requires missing <= routes.Keys
    requires forall source :: source in sources <==> source in AllSources(routes, missing)
    requires forall i, j :: 0 <= i < j < |sources| ==> Less(SourceRank(sources[i]), SourceRank(sources[j]))
    requires |groups| == |sources| && forall k :: 0 <= k < |groups| ==> groups[k].source == sources[k]
    requires forall k :: 0 <= k < |groups| ==> GroupIsRouted(routes, missing, groups[k])
    ensures GroupsAre(routes, missing, groups)
  {
    hide SourceRank, Less, GroupIsRouted;
    forall sha, source | sha in missing && source in routes[sha]
      ensures exists i :: 0 <= i < |groups| && groups[i].source == source
    {
      assert source in sources;
      var i :| 0 <= i < |sources| && sources[i] == source;
      assert groups[i].source == source;
    }
  }

  // ---- Batches ----

  ghost predicate IsActive(group: Group, pending: set<string>) {
    exists sha :: sha in group.targets && sha in pending
  }

  ghost function ActiveGroups(groups: seq<Group>, pending: set<string>): seq<Group> {
    if groups == [] then []
    else
      var rest := ActiveGroups(groups[..|groups| - 1], pending);
      var last := groups[|groups| - 1];
      if IsActive(last, pending) then rest + [last] else rest
  }

  ghost predicate SameTransport(a: Group, b: Group) {
    a.source.remoteUrl == b.source.remoteUrl && a.source.kind == b.source.kind
  }

  ghost predicate BatchIsUniform(batch: seq<Group>, limit: nat) {
    && 1 <= |batch| <= limit
    && forall i :: 0 <= i < |batch| ==> SameTransport(batch[i], batch[0])
  }

  /** No batch could have taken the first group of the next. */
  ghost predicate BatchesAreGreedy(batches: seq<seq<Group>>, limit: nat) {
    forall b :: 0 <= b < |batches| - 1 ==> IsClosed(batches[b], batches[b + 1], limit)
  }

  ghost predicate IsClosed(batch: seq<Group>, next: seq<Group>, limit: nat) {
    && batch != [] && next != []
    && (|batch| == limit || !SameTransport(batch[0], next[0]))
  }

  /** The batches so far and the one being filled. */
  ghost predicate BatchesSoFar(
    batches: seq<seq<Group>>, current: seq<Group>, groups: seq<Group>, pending: set<string>, limit: nat) {
    && Flatten(batches) + current == ActiveGroups(groups, pending)
    && (forall b :: 0 <= b < |batches| ==> BatchIsUniform(batches[b], limit))
    && (current != [] ==> BatchIsUniform(current, limit))
    && (batches != [] ==> current != [] && IsClosed(batches[|batches| - 1], current, limit))
    && BatchesAreGreedy(batches, limit)
  }

  lemma BatchIsFilled(batches: seq<seq<Group>>, current: seq<Group>, groups: seq<Group>, group: Group,
      pending: set<string>, limit: nat)
    requires BatchesSoFar(batches, current, groups, pending, limit) && IsActive(group, pending) && limit >= 1
    requires current != [] ==> |current| < limit && SameTransport(group, current[0])
    ensures BatchesSoFar(batches, current + [group], groups + [group], pending, limit)
  {
    hide IsActive, SameTransport, BatchesAreGreedy, Flatten;
    ActiveOneMore(groups, group, pending);
    assert Flatten(batches) + (current + [group]) == (Flatten(batches) + current) + [group];
    if current == [] {
      SelfTransport(group);
    }
    if batches != [] {
      assert (current + [group])[0] == current[0];
    }
  }

  lemma BatchIsClosed(batches: seq<seq<Group>>, current: seq<Group>, groups: seq<Group>, group: Group,
      pending: set<string>, limit: nat)
    requires BatchesSoFar(batches, current, groups, pending, limit) && IsActive(group, pending) && limit >= 1
    requires current != [] && (|current| >= limit || !SameTransport(current[0], group))
    ensures BatchesSoFar(batches + [current], [group], groups + [group], pending, limit)
  {
    hide IsActive, SameTransport, BatchesAreGreedy, Flatten;
    ActiveOneMore(groups, group, pending);
    FlattenOneMore(batches, current);
    BatchClosed(batches, current, limit);
    SelfTransport(group);
  }

  lemma SelfTransport(group: Group)
    ensures SameTransport(group, group)
  {
  }

  lemma ActiveOneMore(groups: seq<Group>, group: Group, pending: set<string>)
    ensures ActiveGroups(groups + [group], pending) ==
      ActiveGroups(groups, pending) + (if IsActive(group, pending) then [group] else [])
  {
  }

  lemma GroupIsSkipped(batches: seq<seq<Group>>, current: seq<Group>, groups: seq<Group>, group: Group,
      pending: set<string>, limit: nat)
    requires BatchesSoFar(batches, current, groups, pending, limit) && !IsActive(group, pending)
    ensures BatchesSoFar(batches, current, groups + [group], pending, limit)
  {
  }

  lemma BatchesDone(batches: seq<seq<Group>>, current: seq<Group>, groups: seq<Group>, pending: set<string>, limit: nat)
    requires BatchesSoFar(batches, current, groups, pending, limit)
    ensures var all := if current == [] then batches else batches + [current];
      && Flatten(all) == ActiveGroups(groups, pending) && BatchesAreGreedy(all, limit)
      && forall b :: 0 <= b < |all| ==> BatchIsUniform(all[b], limit)
  {
    hide SameTransport, BatchesAreGreedy, Flatten, IsClosed, BatchIsUniform;
    if current != [] {
      FlattenOneMore(batches, current);
      BatchClosed(batches, current, limit);
    }
  }

  /** The intersection of a group with the pending commits is not empty. */
  method HasPending(group: Group, pending: set<string>) returns (active: bool)
    ensures active <==> IsActive(group, pending)
  {
    var shas := set sha | sha in group.targets && sha in pending;
    active := shas != {};
    if active {
      ghost var sha :| sha in shas;
    }
    assert forall sha :: sha in shas <==> sha in group.targets && sha in pending;
  }

  lemma NoBatches(pending: set<string>, limit: nat)
    ensures BatchesSoFar([], [], [], pending, limit)
  {
  }

  /** _source_batches: the active groups in order, cut into batches of one remote and one kind. */
  method SourceBatches(groups: seq<Group>, pending: set<string>, limit: nat) returns (batches: seq<seq<Group>>)
    requires limit >= 1
    ensures Flatten(batches) == ActiveGroups(groups, pending)
    ensures forall b :: 0 <= b < |batches| ==> BatchIsUniform(batches[b], limit)
    ensures BatchesAreGreedy(batches, limit)
  {
    hide BatchesSoFar, IsActive, ActiveGroups, Flatten, BatchIsUniform, BatchesAreGreedy;
    NoBatches(pending, limit);
    batches := [];
    var current: seq<Group> := [];
    var remoteUrl := "";
    for i := 0 to |groups|
      invariant BatchesSoFar(batches, current, groups[..i], pending, limit)
      invariant current != [] ==> remoteUrl == current[0].source.remoteUrl
    {
      assert groups[..i + 1] == groups[..i] + [groups[i]];
      var group := groups[i];
      var active := HasPending(group, pending);
      if !active {
        GroupIsSkipped(batches, current, groups[..i], group, pending, limit);
        continue;
      }
      if current != [] && (|current| >= limit || group.source.remoteUrl != remoteUrl
                           || group.source.kind != current[0].source.kind) {
        BatchIsClosed(batches, current, groups[..i], group, pending, limit);
        batches := batches + [current];
        current := [group];
      } else {
        BatchIsFilled(batches, current, groups[..i], group, pending, limit);
        current := current + [group];
      }
      remoteUrl := group.source.remoteUrl;
      FirstHasRemote(batches, current, groups[..i + 1], pending, limit);
    }
    assert groups[..|groups|] == groups;
    BatchesDone(batches, current, groups, pending, limit);
    if current != [] {
      batches := batches + [current];
    }
  }

  lemma FirstHasRemote(batches: seq<seq<Group>>, current: seq<Group>, groups: seq<Group>, pending: set<string>, limit: nat)
    requires BatchesSoFar(batches, current, groups, pending, limit) && current != []
    ensures current[|current| - 1].source.remoteUrl == current[0].source.remoteUrl
  {
  }

  lemma BatchClosed(batches: seq<seq<Group>>, current: seq<Group>, limit: nat)
    requires BatchesAreGreedy(batches, limit)
    requires batches != [] ==> IsClosed(batches[|batches| - 1], current, limit)
    ensures BatchesAreGreedy(batches + [current], limit)
  {
  }

  // ---- Fetching a batch ----

  /** One `git fetch --atomic` of some refs of one remote. */
  datatype FetchOutcome = Fetched | Transient(error: string) | Rejected(error: string)

  /** The remotes during one fetch, and how their messages are classified. */
  datatype Remotes = Remotes(
    fetch: seq<FetchSource> -> FetchOutcome, missingRef: string -> bool, missingRepository: string -> bool)

  /** _is_known_source_absence */
  predicate IsKnownAbsence(remotes: Remotes, error: string, kind: SourceKind) {
    remotes.missingRef(error) || (kind == RepositoryRef && remotes.missingRepository(error))
  }

  /** An atomic fetch passes only if each ref can be fetched alone, a repository that is missing for a batch
  is missing for its members, and a batch that is refused has a member that is. */
  ghost predicate FetchesAreAtomic(remotes: Remotes) {
    forall sources :: sources != [] ==> FetchIsAtomic(remotes, sources)
  }

  ghost predicate FetchIsAtomic(remotes: Remotes, sources: seq<FetchSource>) {
    && (remotes.fetch(sources).Fetched? ==> forall s :: s in sources ==> remotes.fetch([s]).Fetched?)
    && (remotes.fetch(sources).Rejected? && remotes.missingRepository(remotes.fetch(sources).error) ==>
         forall s :: s in sources ==> remotes.fetch([s]).Rejected?)
  }

  ghost predicate ErrorsAre(remotes: Remotes, sources: seq<FetchSource>, errors: map<FetchSource, Option<string>>) {
    forall s :: s in sources && s in errors ==> (errors[s].None? <==> remotes.fetch([s]).Fetched?)
  }

  /** The refusal is neither a missing ref nor, for a repository, the missing repository. */
  ghost predicate IsUnknownError(remotes: Remotes, sources: seq<FetchSource>)
    requires sources != []
  {
    && remotes.fetch(sources).Rejected? && !remotes.missingRef(remotes.fetch(sources).error)
    && !(sources[0].kind == RepositoryRef && remotes.missingRepository(remotes.fetch(sources).error))
  }

  /** A fetch is answered: only several sources may be interrupted, and what is refused is known to be absent. */
  ghost predicate FetchSettles(remotes: Remotes, sources: seq<FetchSource>)
    requires sources != []
  {
    (remotes.fetch(sources).Transient? ==> |sources| > 1) && !IsUnknownError(remotes, sources)
  }

  ghost predicate FetchesSettle(remotes: Remotes) {
    forall sources :: sources != [] ==> FetchSettles(remotes, sources)
  }

  /** _fetch_source_batch: halves a batch that is interrupted or lacks a ref, so that each source gets its own
  answer; only a single source that is interrupted, or an unknown error, ends the acquisition. */
  method FetchSourceBatch(remotes: Remotes, sources: seq<FetchSource>)
    returns (r: Result<map<FetchSource, Option<string>>>)
    requires sources != []
    ensures FetchesSettle(remotes) ==> r.Ok?
    ensures r.Ok? ==> forall s :: s in r.value <==> s in sources
    ensures IsUnknownError(remotes, sources) || (|sources| == 1 && remotes.fetch(sources).Transient?) ==> r.Failure?
    ensures r.Ok? && FetchesAreAtomic(remotes) ==> ErrorsAre(remotes, sources, r.value)
    decreases |sources|
  {
    hide FetchesAreAtomic, FetchesSettle;
    FetchSettled(remotes, sources);
    var outcome := remotes.fetch(sources);
    match outcome {
      case Fetched =>
        AtomicFetch(remotes, sources);
        return Ok(map s | s in sources :: None);
      case Transient(error) =>
        if |sources| == 1 {
          return Failure(error);
        }
      case Rejected(error) =>
        if !IsKnownAbsence(remotes, error, sources[0].kind) {
          return Failure(error);
        }
        if remotes.missingRepository(error) {
          AtomicFetch(remotes, sources);
          return Ok(map s | s in sources :: Some(error));
        }
        if |sources| == 1 {
          assert sources == [sources[0]];
          return Ok(map[sources[0] := Some(error)]);
        }
    }
    var middle := |sources| / 2;
    var first := FetchSourceBatch(remotes, sources[..middle]);
    if first.Failure? {
      return first;
    }
    var second := FetchSourceBatch(remotes, sources[middle..]);
    if second.Failure? {
      return second;
    }
    assert sources == sources[..middle] + sources[middle..];
    r := Ok(first.value + second.value);
  }

  lemma FetchSettled(remotes: Remotes, sources: seq<FetchSource>)
    requires sources != []
    ensures FetchesSettle(remotes) ==> FetchSettles(remotes, sources)
  {
  }

  lemma AtomicFetch(remotes: Remotes, sources: seq<FetchSource>)
    requires sources != []
    ensures FetchesAreAtomic(remotes) ==> FetchIsAtomic(remotes, sources)
  {
  }
}
