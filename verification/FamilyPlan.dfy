/** Refreshing one parent: the dependency closure of the requested families, and the pass that reads
them in order. */
module FamilyPlan {
  import opened Collections
  import opened Wrappers
  import opened Facts

  datatype Family =
    | CommitObject | CommitReferences
    | Issue | IssueCommentReactions | IssueComments | IssueEvents | IssueReactions | IssueTimeline | IssueRelations
    | Pull | PullClosingIssues | PullCommits | PullGit | PullRequestedReviewers | PullReviewCommentReactions
    | PullReviewComments | PullReviewThreads | PullReviews

  datatype ParentKind = IssueParent | PullParent

  function CommonFamilies(): set<Family> {
    {CommitObject, CommitReferences, Issue, IssueCommentReactions, IssueComments, IssueEvents, IssueReactions, IssueTimeline}
  }

  function Applicable(kind: ParentKind): set<Family> {
    match kind
    case IssueParent => CommonFamilies() + {IssueRelations}
    case PullParent =>
      CommonFamilies() + {Pull, PullClosingIssues, PullCommits, PullGit, PullRequestedReviewers,
        PullReviewCommentReactions, PullReviewComments, PullReviewThreads, PullReviews}
  }

  function CommitSources(): set<Family> {
    {IssueEvents, IssueTimeline, PullCommits, PullReviewComments, PullReviewThreads, PullReviews}
  }

  /** _FAMILY_DEPENDENCIES, and the sources of commit references. */
  function Dependencies(kind: ParentKind, family: Family): set<Family> {
    match family
    case CommitReferences => CommitSources() * Applicable(kind)
    case CommitObject => {CommitReferences}
    case IssueCommentReactions => {IssueComments}
    case PullCommits => {Pull}
    case PullGit => {Pull}
    case PullRequestedReviewers => {Pull}
    case PullReviewCommentReactions => {PullReviewComments}
    case PullReviewComments => {Pull, PullReviewThreads}
    case _ => {}
  }

  ghost predicate Closed(kind: ParentKind, families: set<Family>) {
    forall family :: family in families ==> Dependencies(kind, family) <= families
  }

  /** The least dependency-closed set that holds the root and the requested families. */
  ghost predicate IsClosure(kind: ParentKind, requested: set<Family>, families: set<Family>) {
    && requested + {Issue} <= families && Closed(kind, families)
    && forall other :: requested + {Issue} <= other && Closed(kind, other) ==> families <= other
  }

  /** The set comprehension over all dependencies. */
  function AllDependencies(kind: ParentKind, families: set<Family>): set<Family> {
    set family, dependency | family in families && dependency in Dependencies(kind, family) :: dependency
  }

  lemma DependenciesApply(kind: ParentKind, families: set<Family>)
    requires families <= Applicable(kind)
    ensures AllDependencies(kind, families) <= Applicable(kind)
  {
  }

  /** The closure loop: it ends because it only adds applicable families. */
  method CloseFamilies(kind: ParentKind, requested: set<Family>) returns (effective: set<Family>)
    requires requested <= Applicable(kind)
    ensures IsClosure(kind, requested, effective) && effective <= Applicable(kind)
  {
    hide Applicable, Dependencies;
    IssueApplies(kind);
    effective := requested + {Issue};
    while true
      invariant requested + {Issue} <= effective <= Applicable(kind)
      invariant forall other :: requested + {Issue} <= other && Closed(kind, other) ==> effective <= other
      decreases |Applicable(kind) - effective|
    {
      var expanded := effective + AllDependencies(kind, effective);
      DependenciesApply(kind, effective);
      if expanded == effective {
        forall family | family in effective ensures Dependencies(kind, family) <= effective {
          assert forall d :: d in Dependencies(kind, family) ==> d in AllDependencies(kind, effective);
        }
        return;
      }
      SmallerRest(Applicable(kind), effective, expanded);
      effective := expanded;
    }
  }

  lemma IssueApplies(kind: ParentKind)
    ensures Issue in Applicable(kind)
  {
  }

  lemma SmallerRest(all: set<Family>, some: set<Family>, more: set<Family>)
    requires some < more <= all
    ensures |all - more| < |all - some|
  {
    var x :| x in more && x !in some;
    assert all - more <= all - some - {x};
    SubsetSize(all - more, all - some - {x});
  }

  datatype Plan = Plan(effective: set<Family>, sources: set<Family>)

  /** parent_family_plan: the closure, and the commit consequences of any source in it. */
  method ParentFamilyPlan(kind: ParentKind, requested: set<Family>) returns (plan: Plan, ghost closure: set<Family>)
    requires requested <= Applicable(kind)
    ensures IsClosure(kind, requested, closure) && plan.effective <= Applicable(kind)
    ensures plan.sources == closure * CommitSources() * Applicable(kind)
    ensures plan.effective == closure + (if plan.sources != {} then {CommitObject, CommitReferences} else {})
  {
    hide IsClosure;
    var effective := CloseFamilies(kind, requested);
    closure := effective;
    var sources := effective * (CommitSources() * Applicable(kind));
    assert sources == closure * CommitSources() * Applicable(kind);
    if sources != {} {
      effective := effective + {CommitObject, CommitReferences};
    }
    plan := Plan(effective, sources);
  }

  /** What the pass relies on: every family's dependencies are effective, and commit work has sources. */
  ghost predicate PlanIsOrdered(kind: ParentKind, plan: Plan) {
    && Issue in plan.effective && plan.effective <= Applicable(kind) && plan.sources <= plan.effective * CommitSources()
    && (forall family :: family in plan.effective && family != CommitReferences ==>
         Dependencies(kind, family) <= plan.effective)
    && (plan.sources == {} <==> CommitReferences !in plan.effective)
    && (plan.sources == {} <==> CommitObject !in plan.effective)
  }

  /** Commit families are effective exactly when some source is: asking for them brings their sources in. */
  lemma PlansAreOrdered(kind: ParentKind, requested: set<Family>, closure: set<Family>, plan: Plan)
    requires requested <= Applicable(kind) && IsClosure(kind, requested, closure) && closure <= Applicable(kind)
    requires plan.sources == closure * CommitSources() * Applicable(kind)
    requires plan.effective == closure + (if plan.sources != {} then {CommitObject, CommitReferences} else {})
    ensures PlanIsOrdered(kind, plan)
  {
    if CommitObject in closure {
      assert Dependencies(kind, CommitObject) <= closure;
      assert CommitReferences in closure;
    }
    if CommitReferences in closure {
      assert Dependencies(kind, CommitReferences) <= closure;
      assert IssueEvents in Dependencies(kind, CommitReferences);
      assert IssueEvents in plan.sources;
    }
    forall family | family in plan.effective && family != CommitReferences
      ensures Dependencies(kind, family) <= plan.effective
    {
      if family in closure {
        assert Dependencies(kind, family) <= closure;
      }
    }
  }

  // ---- The pass ----

  /** What the collector finds: the coverage of each single read, the coverages of every entry of a list
  read, and the coverage of the retained commits. */
  datatype Reads = Reads(single: Family -> Outcome, many: Family -> seq<Outcome>, retention: Outcome)

  /** Facts recorded by the pass, and the outcome of every family so far. */
  datatype Pass = Pass(facts: map<Family, Outcome>, outcomes: map<Family, Outcome>)

  function Record(pass: Pass, family: Family, coverage: Outcome): Pass {
    Pass(pass.facts[family := coverage], pass.outcomes[family := coverage])
  }

  function Conclude(pass: Pass, family: Family, coverage: Outcome): Pass {
    pass.(outcomes := pass.outcomes[family := coverage])
  }

  /** The order in which the pass comes to the families. */
  function Turn(family: Family): (turn: nat)
    ensures turn <= 17
  {
    match family
    case Issue => 0
    case IssueComments => 1
    case IssueTimeline => 2
    case IssueEvents => 3
    case IssueReactions => 4
    case IssueCommentReactions => 5
    case IssueRelations => 6
    case Pull => 7
    case PullReviews => 8
    case PullReviewThreads => 9
    case PullReviewComments => 10
    case PullCommits => 11
    case PullRequestedReviewers => 12
    case PullReviewCommentReactions => 13
    case PullClosingIssues => 14
    case PullGit => 15
    case CommitReferences => 16
    case CommitObject => 17
  }

  /** Whether the pass reads the family, so that there is a fact to pass on. */
  ghost predicate IsRead(found: Reads, family: Family) {
    match family
    case IssueCommentReactions => false
    case PullReviewCommentReactions => false
    case PullClosingIssues => false
    case CommitReferences => false
    case CommitObject => false
    case PullReviewComments => found.single(Pull) == Complete || found.single(PullReviewThreads) == Complete
    case PullCommits => found.single(Pull) == Complete
    case PullRequestedReviewers => found.single(Pull) == Complete
    case PullGit => found.single(Pull) == Complete
    case _ => true
  }

  /** The coverage of a family, from what its own read or the reads it depends on found. */
  ghost function Found(found: Reads, family: Family): Outcome {
    if IsRead(found, family) then found.single(family) else
    match family
    case IssueCommentReactions =>
      if found.single(IssueComments) == Complete then AggregateCoverage(found.many(IssueCommentReactions))
      else found.single(IssueComments)
    case PullReviewComments => AggregateCoverage([found.single(Pull), found.single(PullReviewThreads)])
    case PullReviewCommentReactions =>
      if IsRead(found, PullReviewComments) then
        if found.single(PullReviewComments) == Complete then AggregateCoverage(found.many(PullReviewCommentReactions))
        else found.single(PullReviewComments)
      else AggregateCoverage([found.single(Pull), found.single(PullReviewThreads)])
    case PullClosingIssues => AggregateCoverage(found.many(PullClosingIssues))
    case PullCommits => found.single(Pull)
    case PullRequestedReviewers => found.single(Pull)
    case PullGit => found.single(Pull)
    case _ => Complete
  }

  ghost predicate IsFound(found: Reads, pass: Pass, family: Family) {
    && family in pass.outcomes && pass.outcomes[family] == Found(found, family)
    && (family in pass.facts <==> IsRead(found, family))
    && (family in pass.facts ==> pass.facts[family] == Found(found, family))
  }

  /** The effective families before `turn`, and no others, have been dealt with. */
  ghost predicate Reached(plan: Plan, found: Reads, pass: Pass, turn: nat) {
    && (forall family :: family in plan.effective && Turn(family) < turn ==> IsFound(found, pass, family))
    && (forall family :: family in pass.facts || family in pass.outcomes ==>
         family in plan.effective && Turn(family) < turn)
  }

  lemma Recorded(plan: Plan, found: Reads, pass: Pass, family: Family)
    requires Reached(plan, found, pass, Turn(family)) && family in plan.effective && IsRead(found, family)
    ensures Reached(plan, found, Record(pass, family, found.single(family)), Turn(family) + 1)
  {
    OneFamilyATurn(plan, family);
  }

  lemma Concluded(plan: Plan, found: Reads, pass: Pass, family: Family, coverage: Outcome)
    requires Reached(plan, found, pass, Turn(family)) && family in plan.effective && !IsRead(found, family)
    requires coverage == Found(found, family)
    ensures Reached(plan, found, Conclude(pass, family, coverage), Turn(family) + 1)
  {
    OneFamilyATurn(plan, family);
  }

  lemma Skipped(plan: Plan, found: Reads, pass: Pass, family: Family)
    requires Reached(plan, found, pass, Turn(family)) && family !in plan.effective
    ensures Reached(plan, found, pass, Turn(family) + 1)
  {
    OneFamilyATurn(plan, family);
  }

  lemma OneFamilyATurn(plan: Plan, family: Family)
    ensures forall other :: other in plan.effective && Turn(other) == Turn(family) ==> other == family
  {
  }

  /** An earlier family that is effective has its outcome, and its fact if it was read. */
  lemma Earlier(plan: Plan, found: Reads, pass: Pass, turn: nat, family: Family)
    requires Reached(plan, found, pass, turn) && family in plan.effective && Turn(family) < turn
    ensures family in pass.outcomes && pass.outcomes[family] == Found(found, family)
    ensures family in pass.facts <==> IsRead(found, family)
    ensures family in pass.facts ==> pass.facts[family] == found.single(family)
  {
  }

  /** One optional read. */
  method RefreshRead(plan: Plan, found: Reads, start: Pass, family: Family) returns (pass: Pass)
    requires Reached(plan, found, start, Turn(family)) && IsRead(found, family)
    ensures Reached(plan, found, pass, Turn(family) + 1)
  {
    hide Reached, IsRead;
    pass := start;
    if family in plan.effective {
      Recorded(plan, found, pass, family);
      pass := Record(pass, family, found.single(family));
    } else {
      Skipped(plan, found, pass, family);
    }
  }

  /** The reactions of issue comments: read for every comment when the comments are complete. */
  method RefreshCommentReactions(plan: Plan, found: Reads, start: Pass) returns (pass: Pass)
    requires Reached(plan, found, start, Turn(IssueCommentReactions))
    requires IssueCommentReactions in plan.effective ==> IssueComments in plan.effective
    ensures Reached(plan, found, pass, Turn(IssueCommentReactions) + 1)
  {
    hide Reached;
    pass := start;
    if IssueCommentReactions in plan.effective {
      Earlier(plan, found, pass, Turn(IssueCommentReactions), IssueComments);
      var comments := pass.facts[IssueComments];
      var coverage :=
        if comments == Complete then AggregateCoverage(found.many(IssueCommentReactions)) else comments;
      Concluded(plan, found, pass, IssueCommentReactions, coverage);
      pass := Conclude(pass, IssueCommentReactions, coverage);
    } else {
      Skipped(plan, found, pass, IssueCommentReactions);
    }
  }

  /** A family that is read only when the pull is complete, and otherwise shares its coverage. */
  method RefreshOnPull(plan: Plan, found: Reads, start: Pass, family: Family) returns (pass: Pass)
    requires Reached(plan, found, start, Turn(family)) && family in {PullCommits, PullRequestedReviewers, PullGit}
    requires family in plan.effective ==> Pull in plan.effective
    ensures Reached(plan, found, pass, Turn(family) + 1)
  {
    hide Reached;
    pass := start;
    if family in plan.effective {
      Earlier(plan, found, pass, Turn(family), Pull);
      var detail := pass.facts[Pull];
      if detail == Complete {
        Recorded(plan, found, pass, family);
        pass := Record(pass, family, found.single(family));
      } else {
        Concluded(plan, found, pass, family, detail);
        pass := Conclude(pass, family, detail);
      }
    } else {
      Skipped(plan, found, pass, family);
    }
  }

  /** Review comments need the pull or its threads complete. */
  method RefreshReviewComments(plan: Plan, found: Reads, start: Pass) returns (pass: Pass)
    requires Reached(plan, found, start, Turn(PullReviewComments))
    requires PullReviewComments in plan.effective ==> {Pull, PullReviewThreads} <= plan.effective
    ensures Reached(plan, found, pass, Turn(PullReviewComments) + 1)
  {
    hide Reached;
    pass := start;
    if PullReviewComments in plan.effective {
      Earlier(plan, found, pass, Turn(PullReviewComments), Pull);
      Earlier(plan, found, pass, Turn(PullReviewComments), PullReviewThreads);
      var detail, threads := pass.facts[Pull], pass.facts[PullReviewThreads];
      if detail == Complete || threads == Complete {
        Recorded(plan, found, pass, PullReviewComments);
        pass := Record(pass, PullReviewComments, found.single(PullReviewComments));
      } else {
        var coverage := AggregateCoverage([detail, threads]);
        Concluded(plan, found, pass, PullReviewComments, coverage);
        pass := Conclude(pass, PullReviewComments, coverage);
      }
    } else {
      Skipped(plan, found, pass, PullReviewComments);
    }
  }

  method RefreshReviewCommentReactions(plan: Plan, found: Reads, start: Pass) returns (pass: Pass)
    requires Reached(plan, found, start, Turn(PullReviewCommentReactions))
    requires PullReviewCommentReactions in plan.effective ==> PullReviewComments in plan.effective
    ensures Reached(plan, found, pass, Turn(PullReviewCommentReactions) + 1)
  {
    hide Reached;
    pass := start;
    if PullReviewCommentReactions in plan.effective {
      Earlier(plan, found, pass, Turn(PullReviewCommentReactions), PullReviewComments);
      var coverage :=
        if PullReviewComments in pass.facts && pass.facts[PullReviewComments] == Complete
        then AggregateCoverage(found.many(PullReviewCommentReactions)) else pass.outcomes[PullReviewComments];
      Concluded(plan, found, pass, PullReviewCommentReactions, coverage);
      pass := Conclude(pass, PullReviewCommentReactions, coverage);
    } else {
      Skipped(plan, found, pass, PullReviewCommentReactions);
    }
  }

  method RefreshClosingIssues(plan: Plan, found: Reads, start: Pass) returns (pass: Pass)
    requires Reached(plan, found, start, Turn(PullClosingIssues))
    ensures Reached(plan, found, pass, Turn(PullClosingIssues) + 1)
  {
    hide Reached;
    pass := start;
    if PullClosingIssues in plan.effective {
      var coverage := AggregateCoverage(found.many(PullClosingIssues));
      Concluded(plan, found, pass, PullClosingIssues, coverage);
      pass := Conclude(pass, PullClosingIssues, coverage);
    } else {
      Skipped(plan, found, pass, PullClosingIssues);
    }
  }

  lemma NothingIsReached(plan: Plan, found: Reads)
    ensures Reached(plan, found, Pass(map[], map[]), 0)
  {
  }

  lemma IssueTurns(found: Reads)
    ensures Turn(Issue) == 0 && Turn(IssueComments) == 1 && Turn(IssueTimeline) == 2 && Turn(IssueEvents) == 3
    ensures Turn(IssueReactions) == 4 && Turn(IssueCommentReactions) == 5 && Turn(IssueRelations) == 6
    ensures IsRead(found, Issue) && IsRead(found, IssueComments) && IsRead(found, IssueTimeline)
    ensures IsRead(found, IssueEvents) && IsRead(found, IssueReactions) && IsRead(found, IssueRelations)
  {
  }

  lemma PullTurns(found: Reads)
    ensures Turn(Pull) == 7 && Turn(PullReviews) == 8 && Turn(PullReviewThreads) == 9 && Turn(PullReviewComments) == 10
    ensures Turn(PullCommits) == 11 && Turn(PullRequestedReviewers) == 12 && Turn(PullReviewCommentReactions) == 13
    ensures Turn(PullClosingIssues) == 14 && Turn(PullGit) == 15
    ensures IsRead(found, Pull) && IsRead(found, PullReviews) && IsRead(found, PullReviewThreads)
  {
  }

  /** The families that every target has, in the order of _refresh_parent. */
  method RefreshCommonFamilies(plan: Plan, found: Reads) returns (pass: Pass)
    requires Issue in plan.effective
    requires IssueCommentReactions in plan.effective ==> IssueComments in plan.effective
    ensures Reached(plan, found, pass, 7)
  {
    hide *;
    IssueTurns(found);
    NothingIsReached(plan, found);
    Recorded(plan, found, Pass(map[], map[]), Issue);
    pass := Record(Pass(map[], map[]), Issue, found.single(Issue));
    pass := RefreshRead(plan, found, pass, IssueComments);
    pass := RefreshRead(plan, found, pass, IssueTimeline);
    pass := RefreshRead(plan, found, pass, IssueEvents);
    pass := RefreshRead(plan, found, pass, IssueReactions);
    pass := RefreshCommentReactions(plan, found, pass);
    pass := RefreshRead(plan, found, pass, IssueRelations);
  }

  /** _refresh_pull_families */
  method RefreshPullFamilies(plan: Plan, found: Reads, start: Pass) returns (pass: Pass)
    requires Reached(plan, found, start, 7) && PlanIsOrdered(PullParent, plan)
    ensures Reached(plan, found, pass, 16)
  {
    hide *;
    PullDependencies(plan);
    PullTurns(found);
    pass := RefreshRead(plan, found, start, Pull);
    pass := RefreshRead(plan, found, pass, PullReviews);
    pass := RefreshRead(plan, found, pass, PullReviewThreads);
    pass := RefreshReviewComments(plan, found, pass);
    pass := RefreshOnPull(plan, found, pass, PullCommits);
    pass := RefreshOnPull(plan, found, pass, PullRequestedReviewers);
    pass := RefreshReviewCommentReactions(plan, found, pass);
    pass := RefreshClosingIssues(plan, found, pass);
    pass := RefreshOnPull(plan, found, pass, PullGit);
  }

  lemma PullDependencies(plan: Plan)
    requires PlanIsOrdered(PullParent, plan)
    ensures PullReviewComments in plan.effective ==> {Pull, PullReviewThreads} <= plan.effective
    ensures PullReviewCommentReactions in plan.effective ==> PullReviewComments in plan.effective
    ensures forall family :: family in {PullCommits, PullRequestedReviewers, PullGit} && family in plan.effective ==>
      Pull in plan.effective
  {
  }

  /** No family of an issue has a turn among the pull families. */
  lemma IssueSkipsPullFamilies(plan: Plan, found: Reads, pass: Pass)
    requires PlanIsOrdered(IssueParent, plan) && Reached(plan, found, pass, 7)
    ensures Reached(plan, found, pass, 16)
  {
    hide IsFound;
    assert forall family :: family in Applicable(IssueParent) && Turn(family) < 16 ==> Turn(family) < 7;
  }

  /** The coverage of the selected families, in any order. */
  method Collect(outcomes: map<Family, Outcome>, families: set<Family>) returns (values: seq<Outcome>)
    requires families <= outcomes.Keys
    ensures forall outcome :: outcome in values <==> exists family :: family in families && outcomes[family] == outcome
  {
    values := [];
    var rest := families;
    while rest != {}
      invariant rest <= families
      invariant forall outcome :: outcome in values <==>
        exists family :: family in families - rest && outcomes[family] == outcome
      decreases |rest|
    {
      var family :| family in rest;
      values := values + [outcomes[family]];
      rest := rest - {family};
    }
    assert families - rest == families;
  }

  /** `outcome` is one of the outcomes of `families` and of no lower rank than any. */
  ghost predicate IsHighest(outcomes: map<Family, Outcome>, families: set<Family>, outcome: Outcome) {
    && (exists family :: family in families && family in outcomes && outcomes[family] == outcome)
    && forall family :: family in families && family in outcomes ==> OutcomeRank(outcomes[family]) <= OutcomeRank(outcome)
  }

  /** The aggregate of some families, of which there is at least one. */
  method AggregateFamilies(outcomes: map<Family, Outcome>, families: set<Family>) returns (r: Outcome)
    requires families <= outcomes.Keys && families != {}
    ensures IsHighest(outcomes, families, r)
  {
    hide OutcomeRank, AggregateCoverage;
    var values := Collect(outcomes, families);
    r := AggregateCoverage(values);
    ghost var one :| one in families;
    assert outcomes[one] in values;
    forall family | family in families ensures OutcomeRank(outcomes[family]) <= OutcomeRank(r) {
      assert outcomes[family] in values;
      RankIsHighest(values, outcomes[family]);
    }
  }

  lemma RankIsHighest(values: seq<Outcome>, value: Outcome)
    requires value in values
    ensures OutcomeRank(value) <= OutcomeRank(AggregateCoverage(values))
  {
  }

  /** What a finished pass says: each family its own coverage, and the commit consequences of the sources. */
  ghost predicate PassIsFaithful(plan: Plan, found: Reads, pass: Pass) {
    && pass.outcomes.Keys == plan.effective
    && (forall family :: family in plan.effective && Turn(family) < 16 ==> IsFound(found, pass, family))
    && (plan.sources != {} ==>
         && CommitReferences in plan.effective && CommitObject in plan.effective
         && IsHighest(pass.outcomes, plan.sources, pass.outcomes[CommitReferences])
         && pass.outcomes[CommitObject] == AggregateCoverage([pass.outcomes[CommitReferences], found.retention]))
  }

  /** The commit consequences close the pass. */
  method ConcludeCommits(kind: ParentKind, plan: Plan, found: Reads, start: Pass) returns (pass: Pass)
    requires PlanIsOrdered(kind, plan) && Reached(plan, found, start, 16)
    ensures PassIsFaithful(plan, found, pass)
  {
    hide *;
    pass := start;
    SourcesAreEarly(kind, plan);
    if plan.sources != {} {
      EarlierHaveOutcomes(plan, found, start, plan.sources);
      var sourceCoverage := AggregateFamilies(pass.outcomes, plan.sources);
      pass := Conclude(pass, CommitReferences, sourceCoverage);
      pass := Conclude(pass, CommitObject, AggregateCoverage([sourceCoverage, found.retention]));
      CommitsConcluded(plan, found, start, pass, sourceCoverage);
    } else {
      NoCommits(plan, found, start);
    }
  }

  lemma EarlierHaveOutcomes(plan: Plan, found: Reads, pass: Pass, families: set<Family>)
    requires Reached(plan, found, pass, 16) && families <= plan.effective
    requires forall family :: family in families ==> Turn(family) < 16
    ensures families <= pass.outcomes.Keys
  {
  }

  lemma CommitsConcluded(plan: Plan, found: Reads, start: Pass, pass: Pass, sourceCoverage: Outcome)
    requires Reached(plan, found, start, 16) && plan.sources != {} && plan.sources <= plan.effective
    requires forall family :: family in plan.sources ==> Turn(family) < 16
    requires CommitReferences in plan.effective && CommitObject in plan.effective
    requires IsHighest(start.outcomes, plan.sources, sourceCoverage)
    requires pass == Conclude(Conclude(start, CommitReferences, sourceCoverage), CommitObject,
               AggregateCoverage([sourceCoverage, found.retention]))
    ensures PassIsFaithful(plan, found, pass)
  {
    hide AggregateCoverage, OutcomeRank, IsRead, Found;
    CommitsAreLast(plan);
    assert CommitReferences !in plan.sources && CommitObject !in plan.sources;
    forall family | family in plan.effective && Turn(family) < 16 ensures IsFound(found, pass, family) {
      assert IsFound(found, start, family);
    }
    assert pass.outcomes.Keys == plan.effective;
    HighestIsKept(start.outcomes, pass.outcomes, plan.sources, sourceCoverage);
  }

  lemma HighestIsKept(before: map<Family, Outcome>, after: map<Family, Outcome>, families: set<Family>, outcome: Outcome)
    requires IsHighest(before, families, outcome) && families <= before.Keys <= after.Keys
    requires forall family :: family in families ==> after[family] == before[family]
    ensures IsHighest(after, families, outcome)
  {
  }

  lemma NoCommits(plan: Plan, found: Reads, pass: Pass)
    requires Reached(plan, found, pass, 16) && plan.sources == {}
    requires CommitReferences !in plan.effective && CommitObject !in plan.effective
    ensures PassIsFaithful(plan, found, pass)
  {
  }

  lemma SourcesAreEarly(kind: ParentKind, plan: Plan)
    requires PlanIsOrdered(kind, plan)
    ensures plan.sources <= plan.effective
    ensures forall family :: family in plan.sources ==> Turn(family) < 16
    ensures plan.sources == {} <==> CommitReferences !in plan.effective
    ensures plan.sources == {} <==> CommitObject !in plan.effective
  {
  }

  lemma CommitsAreLast(plan: Plan)
    ensures forall family :: family in plan.effective && Turn(family) >= 16 ==>
      family == CommitReferences || family == CommitObject
  {
  }

  /** _refresh_parent: with a complete root every effective family gets an outcome, whatever the reads find,
  and the result has the highest rank among them. `actual` is what the root says the parent is. */
  method RefreshParent(kind: ParentKind, requested: set<Family>, actual: ParentKind, found: Reads)
    returns (r: Result<Outcome>, ghost plan: Plan, ghost pass: Pass)
    requires requested <= Applicable(kind)
    ensures found.single(Issue) != Complete ==> r == Ok(found.single(Issue))
    ensures found.single(Issue) == Complete && actual != kind ==> r.Failure?
    ensures found.single(Issue) == Complete && actual == kind ==>
      && r.Ok? && requested + {Issue} <= plan.effective
      && PassIsFaithful(plan, found, pass) && IsHighest(pass.outcomes, plan.effective, r.value)
  {
    hide *;
    var planned, closure := ParentFamilyPlan(kind, requested);
    plan, pass := planned, Pass(map[], map[]);
    if found.single(Issue) != Complete {
      return Ok(found.single(Issue)), plan, pass;
    }
    if actual != kind {
      return Failure("parent is now reported as another kind"), plan, pass;
    }
    PlansAreOrdered(kind, requested, closure, planned);
    ClosureHolds(kind, requested, closure, planned);
    var state := RefreshCommonFamilies(planned, found);
    if kind == PullParent {
      state := RefreshPullFamilies(planned, found, state);
    } else {
      IssueSkipsPullFamilies(planned, found, state);
    }
    state := ConcludeCommits(kind, planned, found, state);
    pass := state;
    AllAreObserved(planned, found, state);
    if planned.effective - state.outcomes.Keys != {} {
      return Failure("left families unobserved"), plan, pass;
    }
    var coverage := AggregateFamilies(state.outcomes, planned.effective);
    r := Ok(coverage);
  }

  lemma AllAreObserved(plan: Plan, found: Reads, pass: Pass)
    requires PassIsFaithful(plan, found, pass)
    ensures plan.effective == pass.outcomes.Keys
  {
  }

  lemma ClosureHolds(kind: ParentKind, requested: set<Family>, closure: set<Family>, plan: Plan)
    requires IsClosure(kind, requested, closure) && closure <= plan.effective && PlanIsOrdered(kind, plan)
    ensures requested + {Issue} <= plan.effective && Issue in plan.effective
    ensures IssueCommentReactions in plan.effective ==> IssueComments in plan.effective
  {
  }
}
