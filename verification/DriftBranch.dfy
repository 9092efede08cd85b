/**
 Publishing to the shared drift branch (scripts/client_drift.py): a run inspects the
 branch, builds one commit on the base, and pushes it with a lease on the tip it
 inspected, while people and other runs move the branch and the base.
 */
module DriftBranch {
  import opened Options

  /** A commit's identifier is its position in the graph. `marked` is whether its message
      carries the line that every commit of this tool carries. */
  datatype Commit = Commit(parents: set<nat>, marked: bool)
  type Dag = seq<Commit>

  ghost predicate WellFounded(dag: Dag) {
    forall i, p :: 0 <= i < |dag| && p in dag[i].parents ==> p < i
  }

  /** `c` is `from` or an ancestor of it. */
  ghost predicate Reaches(dag: Dag, from: nat, c: nat)
    requires WellFounded(dag) && from < |dag|
    decreases from
  {
    c == from || exists p :: p in dag[from].parents && Reaches(dag, p, c)
  }

  /** `hand_commits`: what the branch has beyond the base that this tool did not write. */
  ghost predicate IsHandCommit(dag: Dag, tip: nat, base: nat, c: nat)
    requires WellFounded(dag) && tip < |dag| && base < |dag|
  {
    c < |dag| && Reaches(dag, tip, c) && !Reaches(dag, base, c) && !dag[c].marked
  }

  ghost predicate NoHandCommits(dag: Dag, tip: Option<nat>, base: nat)
    requires WellFounded(dag) && base < |dag| && (tip.Some? ==> tip.value < |dag|)
  {
    tip.Some? ==> forall c :: !IsHandCommit(dag, tip.value, base, c)
  }

  /** A run: its worktree is at `root`; it inspected the branch against base `known` and
      found it at `tip` (None when there was no branch); it committed `head`. */
  datatype Phase = Prepared(root: nat)
                 | Inspected(root: nat, known: nat, tip: Option<nat>)
                 | Committed(known: nat, tip: Option<nat>, head: nat)

  /** The remote and the runs. `bases` are the values the base branch has had. */
  datatype Remote = Remote(dag: Dag, base: nat, bases: set<nat>, drift: Option<nat>, runs: map<nat, Phase>)

  ghost predicate Sane(s: Remote) {
    && WellFounded(s.dag)
    && s.base < |s.dag| && s.base in s.bases && (forall b :: b in s.bases ==> b < |s.dag|)
    && (s.drift.Some? ==> s.drift.value < |s.dag|)
  }

  ghost predicate RunsInv(s: Remote)
    requires Sane(s)
  {
    forall k :: k in s.runs ==>
      match s.runs[k]
      case Prepared(root) => root < |s.dag|
      case Inspected(root, known, tip) =>
        && root < |s.dag| && known < |s.dag| && known in s.bases && (tip.Some? ==> tip.value < |s.dag|)
        && NoHandCommits(s.dag, tip, known)
      case Committed(known, tip, head) =>
        && known < |s.dag| && known in s.bases && head < |s.dag| && (tip.Some? ==> tip.value < |s.dag|)
        && NoHandCommits(s.dag, tip, known)
  }

  ghost predicate Inv(s: Remote) {
    Sane(s) && RunsInv(s)
  }

  // ------------------------------------------------------------ steps

  /** Anyone makes a commit, with or without the marker. */
  ghost predicate CommitStep(s: Remote, s': Remote, c: Commit) {
    (forall p :: p in c.parents ==> p < |s.dag|) && s' == s.(dag := s.dag + [c])
  }

  /** A person moves, creates or deletes the drift branch. */
  ghost predicate PersonStep(s: Remote, s': Remote, to: Option<nat>) {
    (to.Some? ==> to.value < |s.dag|) && s' == s.(drift := to)
  }

  ghost predicate BaseStep(s: Remote, s': Remote, to: nat) {
    to < |s.dag| && s' == s.(base := to, bases := s.bases + {to})
  }

  /** `prepare_worktree`. */
  ghost predicate PrepareStep(s: Remote, s': Remote, run: nat) {
    run !in s.runs && s' == s.(runs := s.runs[run := Prepared(s.base)])
  }

  /** `hand_commits` against the base the local clone last fetched; with a hand commit the
      run gives up. */
  ghost predicate InspectStep(s: Remote, s': Remote, run: nat, known: nat)
    requires Sane(s)
  {
    && run in s.runs && s.runs[run].Prepared? && known in s.bases
    && s' == s.(runs := if NoHandCommits(s.dag, s.drift, known)
                        then s.runs[run := Inspected(s.runs[run].root, known, s.drift)]
                        else s.runs - {run})
  }

  /** The marked commit, on the worktree's base. */
  ghost predicate BuildStep(s: Remote, s': Remote, run: nat) {
    && run in s.runs && s.runs[run].Inspected?
    && s' == s.(dag := s.dag + [Commit({s.runs[run].root}, true)],
                runs := s.runs[run := Committed(s.runs[run].known, s.runs[run].tip, |s.dag|)])
  }

  /** The push with a lease: it moves the branch only from the inspected tip. */
  ghost predicate PushStep(s: Remote, s': Remote, run: nat) {
    && run in s.runs && s.runs[run].Committed?
    && s' == s.(drift := if s.drift == s.runs[run].tip then Some(s.runs[run].head) else s.drift,
                runs := s.runs - {run})
  }

  /** A run that fails: a missing object, the secret scan, a crash. */
  ghost predicate AbandonStep(s: Remote, s': Remote, run: nat) {
    run in s.runs && s' == s.(runs := s.runs - {run})
  }

  ghost predicate Step(s: Remote, s': Remote)
    requires Sane(s)
  {
    || (exists c :: CommitStep(s, s', c))
    || (exists to :: PersonStep(s, s', to))
    || (exists to :: BaseStep(s, s', to))
    || (exists run :: PrepareStep(s, s', run))
    || (exists run, known :: InspectStep(s, s', run, known))
    || (exists run :: BuildStep(s, s', run))
    || (exists run :: PushStep(s, s', run))
    || (exists run :: AbandonStep(s, s', run))
  }

  ghost predicate Run(trace: seq<Remote>) {
    && |trace| > 0 && Sane(trace[0]) && trace[0].runs == map[]
    && forall i :: 0 <= i < |trace| - 1 ==> Sane(trace[i]) && Step(trace[i], trace[i + 1])
  }

  // ------------------------------------------------------------ proofs

  /** History is immutable: a new commit changes what no older commit reaches. */
  lemma {:induction false} ReachesInGrownDag(dag: Dag, c: Commit, from: nat, to: nat)
    requires WellFounded(dag) && WellFounded(dag + [c]) && from < |dag|
    ensures Reaches(dag + [c], from, to) <==> Reaches(dag, from, to)
    decreases from
  {
    assert (dag + [c])[from] == dag[from];
    forall p | p in dag[from].parents
      ensures Reaches(dag + [c], p, to) <==> Reaches(dag, p, to)
    {
      ReachesInGrownDag(dag, c, p, to);
    }
  }

  lemma {:induction false} ReachesEarlier(dag: Dag, from: nat, c: nat)
    requires WellFounded(dag) && from < |dag| && Reaches(dag, from, c)
    ensures c <= from
    decreases from
  {
    if c != from {
      var p :| p in dag[from].parents && Reaches(dag, p, c);
      ReachesEarlier(dag, p, c);
    }
  }

  lemma NoHandCommitsInGrownDag(dag: Dag, c: Commit, tip: Option<nat>, base: nat)
    requires WellFounded(dag) && WellFounded(dag + [c]) && base < |dag| && (tip.Some? ==> tip.value < |dag|)
    requires NoHandCommits(dag, tip, base)
    ensures NoHandCommits(dag + [c], tip, base)
  {
    if tip.Some? {
      forall k
        ensures !IsHandCommit(dag + [c], tip.value, base, k)
      {
        ReachesInGrownDag(dag, c, tip.value, k);
        ReachesInGrownDag(dag, c, base, k);
        if k == |dag| && Reaches(dag, tip.value, k) {
          ReachesEarlier(dag, tip.value, k);
        }
        assert !IsHandCommit(dag, tip.value, base, k);
      }
    }
  }

  lemma GrowKeepsInv(s: Remote, c: Commit)
    requires Inv(s) && forall p :: p in c.parents ==> p < |s.dag|
    ensures Inv(s.(dag := s.dag + [c]))
  {
    hide NoHandCommits;
    var s' := s.(dag := s.dag + [c]);
    assert Sane(s');
    forall k | k in s.runs && !s.runs[k].Prepared?
      ensures NoHandCommits(s'.dag, s.runs[k].tip, s.runs[k].known)
    {
      NoHandCommitsInGrownDag(s.dag, c, s.runs[k].tip, s.runs[k].known);
    }
  }

  lemma StepKeepsInv(s: Remote, s': Remote)
    requires Inv(s) && Step(s, s')
    ensures Inv(s')
  {
    hide NoHandCommits;
    if c :| CommitStep(s, s', c) {
      GrowKeepsInv(s, c);
    } else if to :| PersonStep(s, s', to) {
    } else if to :| BaseStep(s, s', to) {
    } else if run :| PrepareStep(s, s', run) {
    } else if run, known :| InspectStep(s, s', run, known) {
    } else if run :| BuildStep(s, s', run) {
      GrowKeepsInv(s, Commit({s.runs[run].root}, true));
    } else if run :| PushStep(s, s', run) {
    } else {
      var run :| AbandonStep(s, s', run);
    }
  }

  lemma {:induction false} EveryRunKeepsInv(trace: seq<Remote>, i: nat)
    requires Run(trace) && i < |trace|
    ensures Inv(trace[i])
  {
    hide Step, Sane, RunsInv;
    if i == 0 {
      StartInv(trace[0]);
    } else {
      EveryRunKeepsInv(trace, i - 1);
      assert Step(trace[i - 1], trace[i - 1 + 1]);
      StepKeepsInv(trace[i - 1], trace[i]);
    }
  }

  lemma StartInv(s: Remote)
    requires Sane(s) && s.runs == map[]
    ensures Inv(s)
  {
  }

  /** In every interleaving, a push that moves the branch drops no commit without the
      marker unless the base this run inspected the branch against has it; what it leaves is
      the new commit on a base. In particular nothing is dropped when the run had found no
      branch. */
  lemma NoHandCommitDiscarded(trace: seq<Remote>, i: nat, run: nat, c: nat)
    requires Run(trace) && i + 1 < |trace|
    requires PushStep(trace[i], trace[i + 1], run)
    requires Inv(trace[i]) && trace[i].drift.Some? && Reaches(trace[i].dag, trace[i].drift.value, c)
    requires c < |trace[i].dag| && !trace[i].dag[c].marked
    ensures Inv(trace[i + 1]) && trace[i + 1].drift.Some?
    ensures
      || Reaches(trace[i + 1].dag, trace[i + 1].drift.value, c)
      || Reaches(trace[i].dag, trace[i].runs[run].known, c)
  {
    EveryRunKeepsInv(trace, i + 1);
    var s := trace[i];
    if s.drift == s.runs[run].tip {
      assert !IsHandCommit(s.dag, s.drift.value, s.runs[run].known, c);
    }
  }

  /** The base only ever moves to a commit that has the one before. */
  ghost predicate FastForwards(trace: seq<Remote>)
    requires Run(trace)
  {
    && trace[0].bases == {trace[0].base}
    && forall i :: 0 <= i < |trace| - 1 && Inv(trace[i]) && Inv(trace[i + 1]) ==> MovedForward(trace[i], trace[i + 1])
  }

  ghost predicate MovedForward(s: Remote, s': Remote)
    requires Sane(s')
  {
    s.base < |s'.dag| && Reaches(s'.dag, s'.base, s.base)
  }

  lemma {:induction false} ReachesTransitive(dag: Dag, a: nat, b: nat, c: nat)
    requires WellFounded(dag) && a < |dag| && b < |dag| && Reaches(dag, a, b) && Reaches(dag, b, c)
    ensures Reaches(dag, a, c)
    decreases a
  {
    if a != b {
      var p :| p in dag[a].parents && Reaches(dag, p, b);
      ReachesTransitive(dag, p, b, c);
    }
  }

  ghost predicate BasesBehind(s: Remote)
    requires Sane(s)
  {
    forall b :: b in s.bases ==> Reaches(s.dag, s.base, b)
  }

  /** Every step extends the graph by at most one commit, and the bases by at most the new one. */
  lemma StepGrows(s: Remote, s': Remote)
    requires Sane(s) && Step(s, s')
    ensures s'.dag == s.dag || exists c :: s'.dag == s.dag + [c]
    ensures s'.bases == s.bases + {s'.base} || s'.bases == s.bases
  {
    hide Reaches, NoHandCommits, WellFounded;
    if c :| CommitStep(s, s', c) {
    } else if to :| PersonStep(s, s', to) {
    } else if to :| BaseStep(s, s', to) {
    } else if run :| PrepareStep(s, s', run) {
    } else if run, known :| InspectStep(s, s', run, known) {
    } else if run :| BuildStep(s, s', run) {
    } else if run :| PushStep(s, s', run) {
    } else {
      var run :| AbandonStep(s, s', run);
    }
  }

  lemma StepKeepsBases(s: Remote, s': Remote)
    requires Inv(s) && Inv(s') && Step(s, s') && BasesBehind(s) && MovedForward(s, s')
    ensures BasesBehind(s')
  {
    hide Step, Reaches, RunsInv;
    StepGrows(s, s');
    forall b | b in s'.bases
      ensures Reaches(s'.dag, s'.base, b)
    {
      if b in s.bases {
        if s'.dag != s.dag {
          var c :| s'.dag == s.dag + [c];
          ReachesInGrownDag(s.dag, c, s.base, b);
        }
        ReachesTransitive(s'.dag, s'.base, s.base, b);
      } else {
        ReachesItself(s'.dag, b);
      }
    }
  }

  lemma ReachesItself(dag: Dag, a: nat)
    requires WellFounded(dag) && a < |dag|
    ensures Reaches(dag, a, a)
  {
  }

  lemma {:induction false} EveryBaseIsBehind(trace: seq<Remote>, i: nat)
    requires Run(trace) && FastForwards(trace) && i < |trace|
    ensures Inv(trace[i]) && BasesBehind(trace[i])
  {
    hide Step, BasesBehind, MovedForward, Reaches, RunsInv;
    EveryRunKeepsInv(trace, i);
    if i == 0 {
      OnlyBase(trace[0]);
    } else {
      EveryBaseIsBehind(trace, i - 1);
      assert Step(trace[i - 1], trace[i - 1 + 1]);
      assert MovedForward(trace[i - 1], trace[i - 1 + 1]);
      StepKeepsBases(trace[i - 1], trace[i]);
    }
  }

  lemma OnlyBase(s: Remote)
    requires Sane(s) && s.bases == {s.base}
    ensures BasesBehind(s)
  {
  }

  /** While the base only fast-forwards, what a push drops is in the base as it is now. */
  lemma NothingLostFromBranchOrBase(trace: seq<Remote>, i: nat, run: nat, c: nat)
    requires Run(trace) && FastForwards(trace) && i + 1 < |trace|
    requires PushStep(trace[i], trace[i + 1], run)
    requires Inv(trace[i]) && trace[i].drift.Some? && Reaches(trace[i].dag, trace[i].drift.value, c)
    requires c < |trace[i].dag| && !trace[i].dag[c].marked
    ensures Inv(trace[i + 1]) && trace[i + 1].drift.Some?
    ensures
      || Reaches(trace[i + 1].dag, trace[i + 1].drift.value, c)
      || Reaches(trace[i + 1].dag, trace[i + 1].base, c)
  {
    hide Reaches, Step;
    NoHandCommitDiscarded(trace, i, run, c);
    EveryBaseIsBehind(trace, i);
    var s := trace[i];
    if Reaches(s.dag, s.runs[run].known, c) {
      ReachesTransitive(s.dag, s.base, s.runs[run].known, c);
    }
  }

  /** Over a whole run of the system: while no person moves the branch, a commit without the
      marker that was once on it stays on it or is in some value of the base branch. */
  lemma {:induction false} HandCommitSurvives(trace: seq<Remote>, i: nat, j: nat, c: nat)
    requires Run(trace) && i <= j < |trace|
    requires forall k :: i <= k < j ==> NoPersonMoves(trace[k], trace[k + 1])
    requires Inv(trace[i]) && OnBranchOrBase(trace[i], c)
    requires c < |trace[i].dag| && !trace[i].dag[c].marked
    ensures Inv(trace[j]) && OnBranchOrBase(trace[j], c) && c < |trace[j].dag| && !trace[j].dag[c].marked
    decreases j
  {
    hide Step, Sane, RunsInv, OnBranchOrBase, NoPersonMoves;
    EveryRunKeepsInv(trace, j);
    if i < j {
      HandCommitSurvives(trace, i, j - 1, c);
      assert Step(trace[j - 1], trace[j - 1 + 1]);
      assert NoPersonMoves(trace[j - 1], trace[j - 1 + 1]);
      StepKeepsHandCommit(trace[j - 1], trace[j], c);
    }
  }

  /** The step is not a person moving, creating or deleting the branch. */
  ghost predicate NoPersonMoves(s: Remote, s': Remote) {
    forall to :: PersonStep(s, s', to) ==> to == s.drift
  }

  ghost predicate OnBranchOrBase(s: Remote, c: nat)
    requires Sane(s)
  {
    || (s.drift.Some? && Reaches(s.dag, s.drift.value, c))
    || exists b :: b in s.bases && Reaches(s.dag, b, c)
  }

  lemma StepKeepsHandCommit(s: Remote, s': Remote, c: nat)
    requires Inv(s) && Inv(s') && Step(s, s') && OnBranchOrBase(s, c)
    requires c < |s.dag| && !s.dag[c].marked
    requires NoPersonMoves(s, s')
    ensures OnBranchOrBase(s', c) && c < |s'.dag| && !s'.dag[c].marked
  {
    hide NoHandCommits, InspectStep, PrepareStep, AbandonStep, Reaches;
    if k :| CommitStep(s, s', k) {
      GrowKeepsBranch(s, s', k, c);
    } else if to :| PersonStep(s, s', to) {
    } else if to :| BaseStep(s, s', to) {
    } else if run :| PrepareStep(s, s', run) {
      QuietPrepare(s, s', run);
    } else if run, known :| InspectStep(s, s', run, known) {
      QuietInspect(s, s', run, known);
    } else if run :| BuildStep(s, s', run) {
      GrowKeepsBranch(s, s', Commit({s.runs[run].root}, true), c);
    } else if run :| PushStep(s, s', run) {
      PushKeepsBranch(s, s', run, c);
    } else {
      var run :| AbandonStep(s, s', run);
      QuietAbandon(s, s', run);
    }
  }

  lemma QuietPrepare(s: Remote, s': Remote, run: nat)
    requires PrepareStep(s, s', run)
    ensures s'.dag == s.dag && s'.drift == s.drift && s'.bases == s.bases
  {
  }

  lemma QuietAbandon(s: Remote, s': Remote, run: nat)
    requires AbandonStep(s, s', run)
    ensures s'.dag == s.dag && s'.drift == s.drift && s'.bases == s.bases
  {
  }

  lemma QuietInspect(s: Remote, s': Remote, run: nat, known: nat)
    requires Sane(s) && InspectStep(s, s', run, known)
    ensures s'.dag == s.dag && s'.drift == s.drift && s'.bases == s.bases
  {
  }

  lemma GrowKeepsBranch(s: Remote, s': Remote, k: Commit, c: nat)
    requires Inv(s) && Inv(s') && OnBranchOrBase(s, c)
    requires s'.dag == s.dag + [k] && s'.drift == s.drift && s'.bases == s.bases
    ensures OnBranchOrBase(s', c)
  {
    hide Reaches;
    if s.drift.Some? && Reaches(s.dag, s.drift.value, c) {
      ReachesInGrownDag(s.dag, k, s.drift.value, c);
    } else {
      var b :| b in s.bases && Reaches(s.dag, b, c);
      ReachesInGrownDag(s.dag, k, b, c);
    }
  }

  lemma PushKeepsBranch(s: Remote, s': Remote, run: nat, c: nat)
    requires Inv(s) && Inv(s') && PushStep(s, s', run) && OnBranchOrBase(s, c)
    requires c < |s.dag| && !s.dag[c].marked
    ensures OnBranchOrBase(s', c)
  {
    hide Reaches;
    if s.drift.Some? && Reaches(s.dag, s.drift.value, c) && s.drift == s.runs[run].tip {
      var known := s.runs[run].known;
      assert !IsHandCommit(s.dag, s.drift.value, known, c);
      assert known in s'.bases && Reaches(s'.dag, known, c);
    }
  }

  /** The lease is what does it: had the push been unconditional, a commit pushed by a person
      after the inspection would be lost. */
  lemma UnconditionalPushLoses() returns (trace: seq<Remote>, run: nat)
    ensures |trace| > 0 && Run(trace)
    ensures
      var s := trace[|trace| - 1];
      && Inv(s) && run in s.runs && s.runs[run].Committed? && s.drift.Some?
      && s.drift != s.runs[run].tip
      && IsHandCommit(s.dag, s.drift.value, s.runs[run].known, s.drift.value)
      && !Reaches(s.dag, s.runs[run].head, s.drift.value)
  {
    run := 0;
    var base, hand := Commit({}, false), Commit({0}, false);
    var s0 := Remote([base], 0, {0}, None, map[]);
    var s1 := s0.(runs := map[0 := Prepared(0)]);
    var s2 := s1.(runs := map[0 := Inspected(0, 0, None)]);
    var s3 := s2.(dag := [base, hand]);
    var s4 := s3.(drift := Some(1));
    var s5 := s4.(dag := [base, hand, Commit({0}, true)], runs := map[0 := Committed(0, None, 2)]);
    assert PrepareStep(s0, s1, 0);
    assert InspectStep(s1, s2, 0, 0);
    assert CommitStep(s2, s3, hand);
    assert PersonStep(s3, s4, Some(1));
    assert BuildStep(s4, s5, 0);
    trace := [s0, s1, s2, s3, s4, s5];
    EveryRunKeepsInv(trace, 5);
    assert !Reaches(s5.dag, 0, 1);
  }

  // ------------------------------------------------------------ a run that is left alone

  /** Everything on the branch that its base does not have carries the marker. */
  ghost predicate OnlyMarked(s: Remote)
    requires Sane(s)
  {
    s.drift.Some? ==>
      forall c: nat :: c < |s.dag| && Reaches(s.dag, s.drift.value, c) && !Reaches(s.dag, s.base, c) ==> s.dag[c].marked
  }

  /** A run from its worktree to its push, with nothing in between. */
  ghost predicate Undisturbed(s0: Remote, s1: Remote, s2: Remote, s3: Remote, s4: Remote, run: nat) {
    && PrepareStep(s0, s1, run)
    && Sane(s1) && InspectStep(s1, s2, run, s1.base)
    && BuildStep(s2, s3, run)
    && PushStep(s3, s4, run)
  }

  /** Left alone, a run inspects the branch and goes on exactly when everything on it that the
      base does not have carries the marker, as it does when this tool wrote it. */
  lemma GoesOnIff(s0: Remote, s1: Remote, s2: Remote, run: nat)
    requires Inv(s0) && PrepareStep(s0, s1, run) && InspectStep(s1, s2, run, s1.base)
    ensures run in s2.runs <==> OnlyMarked(s0)
    ensures run in s2.runs ==> s2 == s0.(runs := s0.runs[run := Inspected(s0.base, s0.base, s0.drift)])
    ensures run !in s2.runs ==> s2 == s0
  {
    hide NoHandCommits;
    OnlyMarkedIff(s0);
    assert s1.runs - {run} == s0.runs;
  }

  /** And then it publishes: the branch is one new marked commit on the base, whatever it was. */
  lemma UndisturbedRunPublishes(s0: Remote, s1: Remote, s2: Remote, s3: Remote, s4: Remote, run: nat)
    requires Inv(s0) && Undisturbed(s0, s1, s2, s3, s4, run)
    ensures s4 == s0.(dag := s0.dag + [Commit({s0.base}, true)], drift := Some(|s0.dag|))
  {
    hide NoHandCommits;
  }

  /** A run can start, inspect, build and push from any state in which its branch has only
      marked commits, and so can the next one. */
  lemma RunsPublishAgain(s0: Remote, run: nat) returns (s1: Remote, s2: Remote, s3: Remote, s4: Remote)
    requires Inv(s0) && run !in s0.runs && OnlyMarked(s0)
    ensures Undisturbed(s0, s1, s2, s3, s4, run)
    ensures Step(s0, s1) && Sane(s2) && Step(s1, s2) && Step(s2, s3) && Sane(s3) && Step(s3, s4)
    ensures Inv(s4) && run !in s4.runs && OnlyMarked(s4)
  {
    hide NoHandCommits;
    var added := Commit({s0.base}, true);
    s1 := s0.(runs := s0.runs[run := Prepared(s0.base)]);
    s2 := s0.(runs := s0.runs[run := Inspected(s0.base, s0.base, s0.drift)]);
    s3 := s0.(dag := s0.dag + [added], runs := s0.runs[run := Committed(s0.base, s0.drift, |s0.dag|)]);
    s4 := s0.(dag := s0.dag + [added], drift := Some(|s0.dag|));
    OnlyMarkedIff(s0);
    UndisturbedRun(s0, s1, s2, s3, s4, run);
    GrowKeepsInv(s0, added);
    NewTipIsMarked(s0.dag, added, s0.base);
    hide Reaches, Sane, RunsInv;
    UndisturbedSteps(s0, s1, s2, s3, s4, run);
  }

  lemma UndisturbedRun(s0: Remote, s1: Remote, s2: Remote, s3: Remote, s4: Remote, run: nat)
    requires Sane(s0) && run !in s0.runs && NoHandCommits(s0.dag, s0.drift, s0.base)
    requires s1 == s0.(runs := s0.runs[run := Prepared(s0.base)])
    requires s2 == s0.(runs := s0.runs[run := Inspected(s0.base, s0.base, s0.drift)])
    requires s3 == s0.(dag := s0.dag + [Commit({s0.base}, true)],
                       runs := s0.runs[run := Committed(s0.base, s0.drift, |s0.dag|)])
    requires s4 == s0.(dag := s0.dag + [Commit({s0.base}, true)], drift := Some(|s0.dag|))
    ensures Undisturbed(s0, s1, s2, s3, s4, run)
  {
    hide NoHandCommits, WellFounded;
    assert PrepareStep(s0, s1, run);
    assert InspectStep(s1, s2, run, s1.base);
    assert BuildStep(s2, s3, run);
    assert s4.runs == s3.runs - {run};
    assert PushStep(s3, s4, run);
  }

  lemma UndisturbedSteps(s0: Remote, s1: Remote, s2: Remote, s3: Remote, s4: Remote, run: nat)
    requires Inv(s0) && Undisturbed(s0, s1, s2, s3, s4, run) && Sane(s2) && Sane(s3)
    ensures Step(s0, s1) && Step(s1, s2) && Step(s2, s3) && Step(s3, s4)
  {
    hide PrepareStep, InspectStep, BuildStep, PushStep, Sane, RunsInv;
  }

  lemma OnlyMarkedIff(s: Remote)
    requires Sane(s)
    ensures NoHandCommits(s.dag, s.drift, s.base) <==> OnlyMarked(s)
  {
    if s.drift.Some? && OnlyMarked(s) {
      forall c
        ensures !IsHandCommit(s.dag, s.drift.value, s.base, c)
      {
      }
    }
    if s.drift.Some? && NoHandCommits(s.dag, s.drift, s.base) {
      forall c: nat | c < |s.dag| && Reaches(s.dag, s.drift.value, c) && !Reaches(s.dag, s.base, c)
        ensures s.dag[c].marked
      {
        assert !IsHandCommit(s.dag, s.drift.value, s.base, c);
      }
    }
  }

  /** A marked commit on the base adds itself and nothing else to what the base has. */
  lemma NewTipIsMarked(dag: Dag, added: Commit, base: nat)
    requires WellFounded(dag) && base < |dag| && added == Commit({base}, true) && WellFounded(dag + [added])
    ensures forall c: nat :: c < |dag + [added]| && Reaches(dag + [added], |dag|, c) && !Reaches(dag + [added], base, c) ==>
      (dag + [added])[c].marked
  {
    assert (dag + [added])[|dag|] == added;
  }

  /** What the others may do in any state: commit anything on anything, move the branch anywhere
      or delete it, and move the base anywhere. */
  lemma OthersMayDoAnything(s: Remote, c: Commit, to: Option<nat>, base: nat)
    requires Sane(s) && base < |s.dag|
    requires (forall p :: p in c.parents ==> p < |s.dag|) && (to.Some? ==> to.value < |s.dag|)
    ensures Step(s, s.(dag := s.dag + [c]))
    ensures Step(s, s.(drift := to))
    ensures Step(s, s.(base := base, bases := s.bases + {base}))
  {
    assert CommitStep(s, s.(dag := s.dag + [c]), c);
    assert PersonStep(s, s.(drift := to), to);
    assert BaseStep(s, s.(base := base, bases := s.bases + {base}), base);
  }
}
