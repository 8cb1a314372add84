/** What the Git store can reconstruct: bisection of failed batches, and the verification of commits. */
module GitClosure {
  import opened Wrappers

  // ---- Reachable closures ----

  /** `git rev-list --objects --missing=error`: `Incomplete` is a missing object, `Broken` any other failure. */
  datatype Walk = Clean | Incomplete(error: string) | Broken(error: string)

  /** The objects that the store holds at one time. */
  datatype Store = Store(missing: string -> bool, tree: string -> Option<string>, walk: seq<string> -> Walk)

  ghost predicate FailsAlone(store: Store, root: string) {
    store.walk([root]).Incomplete?
  }

  /** A batch with a root that fails alone does not pass. */
  ghost predicate FailuresShow(store: Store) {
    forall roots, root :: root in roots && FailsAlone(store, root) ==> !store.walk(roots).Clean?
  }

  /** Every walk tells whether the closure is complete. */
  ghost predicate WalksEnd(store: Store) {
    forall roots :: !store.walk(roots).Broken?
  }

  function Roots(targets: seq<(string, string)>): (roots: seq<string>)
    ensures |roots| == |targets| && forall i :: 0 <= i < |targets| ==> roots[i] == targets[i].1
  {
    seq(|targets|, i requires 0 <= i < |targets| => targets[i].1)
  }

  ghost predicate Blames(store: Store, targets: seq<(string, string)>, sha: string) {
    exists i :: 0 <= i < |targets| && targets[i].0 == sha && FailsAlone(store, targets[i].1)
  }

  /** The failures are the targets whose root fails alone. */
  ghost predicate FailuresAre(store: Store, targets: seq<(string, string)>, failures: map<string, string>) {
    forall sha :: sha in failures <==> Blames(store, targets, sha)
  }

  ghost predicate FailuresAreSound(store: Store, targets: seq<(string, string)>, failures: map<string, string>) {
    forall sha :: sha in failures ==> Blames(store, targets, sha)
  }

  lemma FailuresJoin(
    store: Store, targets: seq<(string, string)>, middle: nat, a: map<string, string>, b: map<string, string>)
    requires middle <= |targets|
    requires FailuresAreSound(store, targets[..middle], a) && FailuresAreSound(store, targets[middle..], b)
    ensures FailuresAreSound(store, targets, a + b)
    ensures FailuresAre(store, targets[..middle], a) && FailuresAre(store, targets[middle..], b) ==>
      FailuresAre(store, targets, a + b)
  {
    hide FailsAlone;
    forall sha ensures Blames(store, targets, sha) <==>
      Blames(store, targets[..middle], sha) || Blames(store, targets[middle..], sha)
    {
      if Blames(store, targets, sha) {
        var i :| 0 <= i < |targets| && targets[i].0 == sha && FailsAlone(store, targets[i].1);
        if i < middle {
          assert targets[..middle][i] == targets[i];
        } else {
          assert targets[middle..][i - middle] == targets[i];
        }
      }
      if Blames(store, targets[middle..], sha) {
        var i :| 0 <= i < |targets| - middle && targets[middle..][i].0 == sha && FailsAlone(store, targets[middle..][i].1);
        assert targets[middle + i] == targets[middle..][i];
      }
    }
  }

  /** _closure_failures: halves a failing batch until single roots fail. Every root it reports fails alone,
  and when failures show in their batches it reports all of them. It gives up only on a walk that breaks. */
  method ClosureFailures(store: Store, targets: seq<(string, string)>) returns (r: Result<map<string, string>>)
    ensures WalksEnd(store) || targets == [] ==> r.Ok?
    ensures r.Ok? ==> FailuresAreSound(store, targets, r.value)
    ensures r.Ok? && FailuresShow(store) ==> FailuresAre(store, targets, r.value)
    decreases |targets|
  {
    if targets == [] {
      return Ok(map[]);
    }
    var walk := store.walk(Roots(targets));
    if walk.Broken? {
      return Failure(walk.error);
    }
    if walk.Clean? {
      PassingHasNone(store, targets);
      return Ok(map[]);
    }
    if |targets| == 1 {
      OneTarget(store, targets, walk.error);
      return Ok(map[targets[0].0 := walk.error]);
    }
    var middle := |targets| / 2;
    var first := ClosureFailures(store, targets[..middle]);
    if first.Failure? {
      return first;
    }
    var second := ClosureFailures(store, targets[middle..]);
    if second.Failure? {
      return second;
    }
    FailuresJoin(store, targets, middle, first.value, second.value);
    r := Ok(first.value + second.value);
  }

  lemma PassingHasNone(store: Store, targets: seq<(string, string)>)
    requires store.walk(Roots(targets)).Clean?
    ensures FailuresShow(store) ==> FailuresAre(store, targets, map[])
  {
  }

  lemma OneTarget(store: Store, targets: seq<(string, string)>, error: string)
    requires |targets| == 1 && store.walk(Roots(targets)).Incomplete?
    ensures FailuresAre(store, targets, map[targets[0].0 := error])
  {
    assert Roots(targets) == [targets[0].1];
    assert FailsAlone(store, targets[0].1);
  }

  // ---- Verification of commits ----

  /** The verification levels of a commit: None is complete, otherwise the reason. */
  datatype State = State(history: Option<string>, snapshot: Option<string>)

  datatype Outcome = Available | Partial | Unavailable

  /** _reconstruction_outcome */
  function ReconstructionOutcome(state: Option<State>): Outcome {
    if state.None? then Unavailable else if state.value.history.None? then Available else Partial
  }

  /** _verification_error */
  function VerificationError(state: Option<State>): Option<string> {
    if state.None? then None
    else if state.value.history.Some? then state.value.history
    else state.value.snapshot
  }

  function Get<K, V>(m: map<K, V>, key: K): Option<V> {
    if key in m then Some(m[key]) else None
  }

  ghost predicate TreesAreReadable(store: Store, shas: seq<string>) {
    forall sha :: sha in shas ==> store.tree(sha).Some?
  }

  /** _commit_trees */
  method CommitTrees(store: Store, shas: seq<string>) returns (r: Result<map<string, string>>)
    ensures r.Ok? <==> TreesAreReadable(store, shas)
    ensures r.Ok? ==> forall sha :: sha in r.value <==> sha in shas
    ensures r.Ok? ==> forall sha :: sha in r.value ==> store.tree(sha) == Some(r.value[sha])
  {
    var trees: map<string, string> := map[];
    for i := 0 to |shas|
      invariant forall sha :: sha in trees <==> sha in shas[..i]
      invariant forall sha :: sha in trees ==> store.tree(sha) == Some(trees[sha])
    {
      var tree := store.tree(shas[i]);
      if tree.None? {
        return Failure("commit has no readable root tree");
      }
      trees := trees[shas[i] := tree.value];
      assert shas[..i + 1] == shas[..i] + [shas[i]];
    }
    assert shas[..|shas|] == shas;
    r := Ok(trees);
  }

  /** What a store lets one reconstruct of a commit: nothing unless the commit and its tree are there, and
  its snapshot is in doubt only when its history is. */
  ghost predicate Reconstructs(store: Store, sha: string, state: State) {
    && !store.missing(sha) && store.tree(sha).Some?
    && (state.history.Some? <==> FailsAlone(store, sha))
    && (state.snapshot.Some? <==> FailsAlone(store, sha) && FailsAlone(store, store.tree(sha).value))
  }

  /** What is known of the result when failures need not show in their batches. */
  ghost predicate ReconstructsAtBest(store: Store, sha: string, state: State) {
    && !store.missing(sha) && store.tree(sha).Some?
    && (state.history.Some? ==> FailsAlone(store, sha))
    && (state.snapshot.Some? ==> state.history.Some?)
  }

  /** The first loop of _verify_commits: the targets are the commits themselves. */
  function SelfTargets(shas: seq<string>): (targets: seq<(string, string)>)
    ensures |targets| == |shas| && forall i :: 0 <= i < |shas| ==> targets[i] == (shas[i], shas[i])
  {
    seq(|shas|, i requires 0 <= i < |shas| => (shas[i], shas[i]))
  }

  lemma SelfBlame(store: Store, shas: seq<string>, sha: string)
    ensures Blames(store, SelfTargets(shas), sha) <==> sha in shas && FailsAlone(store, sha)
  {
  }

  /** The trees of the commits whose history failed. */
  function TreeTargets(shas: seq<string>, trees: map<string, string>, failed: map<string, string>): seq<(string, string)>
    requires forall sha :: sha in shas ==> sha in trees
  {
    if shas == [] then []
    else (if shas[0] in failed then [(shas[0], trees[shas[0]])] else []) + TreeTargets(shas[1..], trees, failed)
  }

  lemma {:induction false} TreeTarget(
    shas: seq<string>, trees: map<string, string>, failed: map<string, string>, target: (string, string))
    requires forall sha :: sha in shas ==> sha in trees
    ensures target in TreeTargets(shas, trees, failed) <==>
      target.0 in shas && target.0 in failed && trees[target.0] == target.1
  {
    if shas != [] {
      TreeTarget(shas[1..], trees, failed, target);
    }
  }

  lemma TreeBlame(store: Store, shas: seq<string>, trees: map<string, string>, failed: map<string, string>, sha: string)
    requires forall s :: s in shas ==> s in trees
    ensures Blames(store, TreeTargets(shas, trees, failed), sha) <==>
      sha in shas && sha in failed && FailsAlone(store, trees[sha])
  {
    hide FailsAlone;
    var targets := TreeTargets(shas, trees, failed);
    if Blames(store, targets, sha) {
      var i :| 0 <= i < |targets| && targets[i].0 == sha && FailsAlone(store, targets[i].1);
      TreeTarget(shas, trees, failed, targets[i]);
    }
    if sha in shas && sha in failed && FailsAlone(store, trees[sha]) {
      TreeTarget(shas, trees, failed, (sha, trees[sha]));
      var i :| 0 <= i < |targets| && targets[i] == (sha, trees[sha]);
    }
  }

  /** _verify_commits */
  method VerifyCommits(store: Store, shas: seq<string>) returns (r: Result<map<string, State>>)
    requires forall sha :: sha in shas ==> !store.missing(sha)
    ensures WalksEnd(store) && TreesAreReadable(store, shas) ==> r.Ok?
    ensures r.Ok? ==> TreesAreReadable(store, shas)
    ensures r.Ok? ==> forall sha :: sha in r.value <==> sha in shas
    ensures r.Ok? ==> forall sha :: sha in r.value ==> ReconstructsAtBest(store, sha, r.value[sha])
    ensures r.Ok? && FailuresShow(store) ==> forall sha :: sha in r.value ==> Reconstructs(store, sha, r.value[sha])
  {
    hide FailuresShow, FailsAlone, Blames, WalksEnd;
    if shas == [] {
      return Ok(map[]);
    }
    var treesOrError := CommitTrees(store, shas);
    if treesOrError.Failure? {
      return Failure(treesOrError.reason);
    }
    var trees := treesOrError.value;
    var histories := ClosureFailures(store, SelfTargets(shas));
    if histories.Failure? {
      return Failure(histories.reason);
    }
    var snapshots := ClosureFailures(store, TreeTargets(shas, trees, histories.value));
    if snapshots.Failure? {
      return Failure(snapshots.reason);
    }
    forall sha ensures Blames(store, SelfTargets(shas), sha) <==> sha in shas && FailsAlone(store, sha) {
      SelfBlame(store, shas, sha);
    }
    forall sha ensures Blames(store, TreeTargets(shas, trees, histories.value), sha) <==>
      sha in shas && sha in histories.value && FailsAlone(store, trees[sha])
    {
      TreeBlame(store, shas, trees, histories.value, sha);
    }
    r := Ok(map sha | sha in shas :: State(Get(histories.value, sha), Get(snapshots.value, sha)));
  }

  /** Every commit that is there has a readable tree. */
  ghost predicate PresentAreReadable(store: Store, shas: seq<string>) {
    forall sha :: sha in shas && !store.missing(sha) ==> store.tree(sha).Some?
  }

  /** _reconstruction */
  method Reconstruction(store: Store, shas: seq<string>) returns (r: Result<map<string, State>>)
    ensures WalksEnd(store) && PresentAreReadable(store, shas) ==> r.Ok?
    ensures r.Ok? ==> PresentAreReadable(store, shas)
    ensures r.Ok? ==> forall sha :: sha in r.value <==> sha in shas && !store.missing(sha)
    ensures r.Ok? ==> forall sha :: sha in r.value ==> ReconstructsAtBest(store, sha, r.value[sha])
    ensures r.Ok? && FailuresShow(store) ==> forall sha :: sha in r.value ==> Reconstructs(store, sha, r.value[sha])
  {
    hide FailuresShow, ReconstructsAtBest, Reconstructs, WalksEnd;
    var available: seq<string> := [];
    for i := 0 to |shas|
      invariant forall sha :: sha in available <==> sha in shas[..i] && !store.missing(sha)
    {
      if !store.missing(shas[i]) {
        available := available + [shas[i]];
      }
      assert shas[..i + 1] == shas[..i] + [shas[i]];
    }
    assert shas[..|shas|] == shas;
    r := VerifyCommits(store, available);
  }
}
