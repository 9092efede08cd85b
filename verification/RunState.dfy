/**
 When a client update is seen (scripts/client_drift.py): one run at a time under a lock
 records the signatures it started from and its outcome; acknowledgements rewrite the
 same file without the lock, and both go through one temporary file.
 */
module RunState {
  import opened Options

  /** Path, size and modification time of an installed client. */
  datatype Stat = Stat(path: string, size: nat, mtime: int)

  /** `signature`: one entry per client, None when it is not installed. */
  datatype Signature = Signature(agy: Option<Stat>, claude: Option<Stat>, opencode: Option<Stat>)

  datatype Status = Error | Local | CleanRun | ManualItems | PullRequest

  /** state.json: the signature and the last outcome, written together. */
  datatype Record = Record(signature: Signature, status: Status, finished: int, reported: bool)

  /** A run that reached its end: what it started from and how it came out. */
  datatype Completed = Completed(signature: Signature, status: Status, finished: int)

  const RETRY_AFTER_FAILURE: int := 6 * 3600
  const NOTHING_INSTALLED := Signature(None, None, None)

  predicate Failed(status: Status) {
    status == Error || status == Local
  }

  /** `status`: whether a run is due, given the state file, the installed clients and the clock.
      A missing state has no signature and no outcome. */
  function Due(file: Option<Record>, installed: Signature, now: int, disabled: bool): bool {
    var previous := match file case None => NOTHING_INSTALLED case Some(r) => r.signature;
    var changed := installed.agy != previous.agy || installed.claude != previous.claude
                   || installed.opencode != previous.opencode;
    var retry := !changed && file.Some? && Failed(file.value.status)
                 && now - file.value.finished > RETRY_AFTER_FAILURE;
    (changed || retry) && !disabled
  }

  /** The run under the lock: capturing, then saving the record it formed, first to the
      temporary file. */
  datatype RunPhase = Idle | Working(started: Signature) | Saving(record: Record) | Staged(record: Record)

  /** An acknowledgement: it has loaded a record, then staged it with `reported` set. */
  datatype AckPhase = Loaded(record: Record) | AckStaged(record: Record)

  datatype Machine = Machine(installed: Signature, now: int, file: Option<Record>, temporary: Option<Record>,
                             run: RunPhase, acks: map<nat, AckPhase>, completed: seq<Completed>)

  ghost predicate Init(s: Machine) {
    s.file == None && s.temporary == None && s.run == Idle && s.acks == map[] && s.completed == []
  }

  ghost predicate UpdateStep(s: Machine, s': Machine, installed: Signature, now: int) {
    s.now <= now && s' == s.(installed := installed, now := now)
  }

  /** The lock is taken and the signatures are read. */
  ghost predicate StartStep(s: Machine, s': Machine) {
    s.run.Idle? && s' == s.(run := Working(s.installed))
  }

  /** The update step has an outcome; the record pairs it with the signatures of the start. */
  ghost predicate FinishStep(s: Machine, s': Machine, status: Status) {
    && s.run.Working?
    && s' == s.(run := Saving(Record(s.run.started, status, s.now, false)),
                completed := s.completed + [Completed(s.run.started, status, s.now)])
  }

  ghost predicate StageStep(s: Machine, s': Machine) {
    s.run.Saving? && s' == s.(run := Staged(s.run.record), temporary := Some(s.run.record))
  }

  /** `replace`: whatever the temporary file holds becomes the state; without one it raises. */
  ghost predicate ReplaceStep(s: Machine, s': Machine) {
    && s.run.Staged?
    && s' == if s.temporary.Some? then s.(run := Idle, file := s.temporary, temporary := None) else s.(run := Idle)
  }

  /** The run or an acknowledgement is killed. */
  ghost predicate CrashStep(s: Machine, s': Machine) {
    s' == s.(run := Idle) || exists k :: AckGone(s, s', k)
  }

  ghost predicate AckGone(s: Machine, s': Machine, k: nat) {
    k in s.acks && s' == s.(acks := s.acks - {k})
  }

  ghost predicate AckLoadStep(s: Machine, s': Machine, k: nat) {
    && k !in s.acks && s.file.Some?
    && s' == s.(acks := s.acks[k := Loaded(s.file.value)])
  }

  ghost predicate AckStageStep(s: Machine, s': Machine, k: nat) {
    && k in s.acks && s.acks[k].Loaded?
    && var r := s.acks[k].record.(reported := true);
       s' == s.(acks := s.acks[k := AckStaged(r)], temporary := Some(r))
  }

  ghost predicate AckReplaceStep(s: Machine, s': Machine, k: nat) {
    && k in s.acks && s.acks[k].AckStaged?
    && s' == if s.temporary.Some? then s.(acks := s.acks - {k}, file := s.temporary, temporary := None)
             else s.(acks := s.acks - {k})
  }

  /** Every step but a crash. */
  ghost predicate LiveStep(s: Machine, s': Machine) {
    || (exists installed, now :: UpdateStep(s, s', installed, now))
    || StartStep(s, s')
    || (exists status :: FinishStep(s, s', status))
    || StageStep(s, s')
    || ReplaceStep(s, s')
    || (exists k :: AckLoadStep(s, s', k))
    || (exists k :: AckStageStep(s, s', k))
    || (exists k :: AckReplaceStep(s, s', k))
  }

  ghost predicate Step(s: Machine, s': Machine) {
    LiveStep(s, s') || CrashStep(s, s')
  }

  ghost predicate History(trace: seq<Machine>) {
    && |trace| > 0 && Init(trace[0])
    && forall i :: 0 <= i < |trace| - 1 ==> Step(trace[i], trace[i + 1])
  }

  /** The record is the signature and the outcome of one completed run. */
  ghost predicate FromOneRun(r: Record, completed: seq<Completed>) {
    Completed(r.signature, r.status, r.finished) in completed
  }

  ghost predicate Inv(s: Machine) {
    && (s.file.Some? ==> FromOneRun(s.file.value, s.completed))
    && (s.temporary.Some? ==> FromOneRun(s.temporary.value, s.completed))
    && (s.run.Saving? || s.run.Staged? ==> FromOneRun(s.run.record, s.completed))
    && (forall k :: k in s.acks ==> FromOneRun(s.acks[k].record, s.completed))
  }

  lemma StepKeepsInv(s: Machine, s': Machine)
    requires Inv(s) && Step(s, s')
    ensures Inv(s')
  {
    if status :| FinishStep(s, s', status) {
      assert s'.completed[|s.completed|] == Completed(s.run.started, status, s.now);
      assert forall c :: c in s.completed ==> c in s'.completed;
    } else if k :| AckStageStep(s, s', k) {
    }
  }

  lemma {:induction false} EveryHistoryKeepsInv(trace: seq<Machine>, i: nat)
    requires History(trace) && i < |trace|
    ensures Inv(trace[i])
  {
    hide Step;
    if i > 0 {
      EveryHistoryKeepsInv(trace, i - 1);
      assert Step(trace[i - 1], trace[i - 1 + 1]);
      StepKeepsInv(trace[i - 1], trace[i]);
    }
  }

  /** No missed update: whenever nothing is due and runs are not disabled, the installed
      signatures are those some completed run started from, the stored outcome is of that
      same run, and it either succeeded or is recent. The one other case is that no outcome
      was ever stored and no client is installed. */
  lemma NotDueMeansSeen(trace: seq<Machine>, i: nat)
    requires History(trace) && i < |trace|
    requires !Due(trace[i].file, trace[i].installed, trace[i].now, false)
    ensures
      var s := trace[i];
      || (s.file.None? && s.installed == NOTHING_INSTALLED)
      || (&& s.file.Some?
          && Completed(s.installed, s.file.value.status, s.file.value.finished) in s.completed
          && (Failed(s.file.value.status) ==> s.now - s.file.value.finished <= RETRY_AFTER_FAILURE))
  {
    EveryHistoryKeepsInv(trace, i);
  }

  /** Runs finish in the order of the clock. */
  ghost predicate Timed(s: Machine) {
    && (forall i :: 0 <= i < |s.completed| ==> s.completed[i].finished <= s.now)
    && (forall i, j :: 0 <= i < j < |s.completed| ==> s.completed[i].finished <= s.completed[j].finished)
  }

  lemma StartTimed(s: Machine)
    requires Init(s)
    ensures Timed(s)
  {
  }

  lemma TimedStep(s: Machine, s': Machine)
    requires Timed(s) && Step(s, s')
    ensures Timed(s')
  {
    if status :| FinishStep(s, s', status) {
    } else {
      assert s'.completed == s.completed && s.now <= s'.now;
    }
  }

  lemma {:induction false} EveryHistoryIsTimed(trace: seq<Machine>, i: nat)
    requires History(trace) && i < |trace|
    ensures Timed(trace[i])
  {
    hide Step, Timed;
    if i == 0 {
      StartTimed(trace[0]);
    } else {
      EveryHistoryIsTimed(trace, i - 1);
      assert Step(trace[i - 1], trace[i - 1 + 1]);
      TimedStep(trace[i - 1], trace[i]);
    }
  }

  /** Exactly when a failed latest run goes unnoticed after the retry interval: the file
      holds a success for the very signatures installed, or there is neither a file nor a
      client. */
  lemma FailureGoesUnnoticedIff(trace: seq<Machine>, i: nat)
    requires History(trace) && i < |trace|
    requires
      var s := trace[i];
      && |s.completed| > 0 && Failed(s.completed[|s.completed| - 1].status)
      && s.now - s.completed[|s.completed| - 1].finished > RETRY_AFTER_FAILURE
    ensures
      var s := trace[i];
      !Due(s.file, s.installed, s.now, false)
      <==> if s.file.None? then s.installed == NOTHING_INSTALLED
           else s.file.value.signature == s.installed && !Failed(s.file.value.status)
  {
    EveryHistoryKeepsInv(trace, i);
    EveryHistoryIsTimed(trace, i);
    var s := trace[i];
    if s.file.Some? {
      var k :| 0 <= k < |s.completed|
        && s.completed[k] == Completed(s.file.value.signature, s.file.value.status, s.file.value.finished);
      assert s.completed[k].finished <= s.completed[|s.completed| - 1].finished;
    }
  }

  // ------------------------------------------------------------ the latest outcome

  /** The record, reported or not, is that of the latest completed run. */
  ghost predicate Latest(r: Record, completed: seq<Completed>) {
    |completed| > 0 && completed[|completed| - 1] == Completed(r.signature, r.status, r.finished)
  }

  /** Acknowledgements overlap no run. */
  ghost predicate Apart(s: Machine) {
    s.acks == map[] || s.run.Idle?
  }

  /** From the start of a run at i until j nothing is killed, and no acknowledgement overlaps a
      run. What happened before i does not matter. */
  ghost predicate OrderlySince(trace: seq<Machine>, i: nat, j: nat) {
    && i < j < |trace| && StartStep(trace[i], trace[i + 1])
    && (forall k :: i < k <= j ==> Apart(trace[k]))
    && forall k :: i <= k < j ==> LiveStep(trace[k], trace[k + 1])
  }

  ghost predicate OrderlyInv(s: Machine) {
    && (s.run.Idle? || s.run.Working? ==>
          s.file.Some? && Latest(s.file.value, s.completed))
    && (s.run.Saving? ==> Latest(s.run.record, s.completed))
    && (s.run.Staged? ==> Latest(s.run.record, s.completed) && s.temporary == Some(s.run.record))
    && (forall k :: k in s.acks ==>
          && Latest(s.acks[k].record, s.completed)
          && (s.acks[k].AckStaged? && s.temporary.Some? ==> Latest(s.temporary.value, s.completed)))
  }

  lemma OrderlyStep(s: Machine, s': Machine)
    requires OrderlyInv(s) && LiveStep(s, s') && Apart(s) && Apart(s')
    ensures OrderlyInv(s')
  {
    if status :| FinishStep(s, s', status) {
      assert s'.completed[|s'.completed| - 1] == Completed(s.run.started, status, s.now);
    } else if k :| AckLoadStep(s, s', k) {
      assert s.run.Idle? by {
        assert k in s'.acks;
      }
    } else if k :| AckStageStep(s, s', k) {
    } else if k :| AckReplaceStep(s, s', k) {
    }
  }

  /** Before the run that starts at i completes it is still working, alone; from then on the
      latest outcome is the one being stored or stored. */
  ghost predicate SinceInv(first: Machine, s: Machine) {
    && |first.completed| <= |s.completed|
    && if |s.completed| == |first.completed| then s.run.Working? && s.acks == map[] else OrderlyInv(s)
  }

  lemma AckIsThere(s: Machine, s': Machine, k: nat)
    requires AckLoadStep(s, s', k)
    ensures k in s'.acks
  {
  }

  lemma SinceStep(first: Machine, s: Machine, s': Machine)
    requires SinceInv(first, s) && LiveStep(s, s') && Apart(s) && Apart(s')
    ensures SinceInv(first, s')
  {
    if |s.completed| == |first.completed| {
      if status :| FinishStep(s, s', status) {
        assert s'.completed[|s'.completed| - 1] == Completed(s.run.started, status, s.now);
      } else if k :| AckLoadStep(s, s', k) {
        AckIsThere(s, s', k);
      }
    } else {
      OrderlyStep(s, s');
    }
  }

  lemma {:induction false} SinceKept(trace: seq<Machine>, i: nat, j: nat)
    requires OrderlySince(trace, i, j)
    ensures SinceInv(trace[i], trace[j])
  {
    hide LiveStep, OrderlyInv;
    if j > i + 1 {
      SinceKept(trace, i, j - 1);
      assert LiveStep(trace[j - 1], trace[j - 1 + 1]);
      SinceStep(trace[i], trace[j - 1], trace[j]);
    } else {
      assert Apart(trace[j]);
    }
  }

  /** In any history: once a run started at i has completed, with nothing killed and no
      acknowledgement overlapping a run since i, what is stored between runs is the latest
      outcome, so a failed or unpublished latest run is retried. */
  lemma LatestOutcomeIsStored(trace: seq<Machine>, i: nat, j: nat)
    requires History(trace) && OrderlySince(trace, i, j)
    requires |trace[j].completed| > |trace[i].completed| && trace[j].run.Idle?
    ensures
      var s := trace[j];
      && s.file.Some? && Latest(s.file.value, s.completed)
      && (Failed(s.completed[|s.completed| - 1].status)
          && s.now - s.completed[|s.completed| - 1].finished > RETRY_AFTER_FAILURE ==>
            Due(s.file, s.installed, s.now, false))
  {
    SinceKept(trace, i, j);
  }

  /** Exactly when a run is due, at such a point: unless disabled, when an installed client is not
      the one the latest run started from, or that run failed or was not published and more than
      six hours have passed. */
  lemma DueIff(trace: seq<Machine>, i: nat, j: nat, disabled: bool)
    requires History(trace) && OrderlySince(trace, i, j)
    requires |trace[j].completed| > |trace[i].completed| && trace[j].run.Idle?
    ensures
      var s := trace[j];
      var last := s.completed[|s.completed| - 1];
      Due(s.file, s.installed, s.now, disabled) <==>
        && !disabled
        && (|| s.installed != last.signature
            || ((last.status == Error || last.status == Local) && s.now - last.finished > 6 * 60 * 60))
  {
    LatestOutcomeIsStored(trace, i, j);
  }

  /** With no state file, what is due is a run for any installed client. */
  lemma FirstRunIsDue(installed: Signature, now: int, disabled: bool)
    ensures Due(None, installed, now, disabled) <==>
      !disabled && (installed.agy.Some? || installed.claude.Some? || installed.opencode.Some?)
  {
  }

  /** A run that nothing disturbs stores its outcome with the signatures it started from, and
      an acknowledgement that nothing disturbs marks what is stored as reported. */
  lemma UndisturbedRunStores(s0: Machine, s1: Machine, s2: Machine, s3: Machine, s4: Machine, status: Status)
    requires StartStep(s0, s1) && FinishStep(s1, s2, status) && StageStep(s2, s3) && ReplaceStep(s3, s4)
    ensures s4.file == Some(Record(s0.installed, status, s0.now, false)) && s4.temporary == None && s4.run == Idle
    ensures s4.completed == s0.completed + [Completed(s0.installed, status, s0.now)]
    ensures !Due(s4.file, s4.installed, s4.now, false)
  {
  }

  lemma UndisturbedAckReports(s0: Machine, s1: Machine, s2: Machine, s3: Machine, k: nat)
    requires AckLoadStep(s0, s1, k) && AckStageStep(s1, s2, k) && AckReplaceStep(s2, s3, k)
    ensures s0.file.Some? && s3 == s0.(file := Some(s0.file.value.(reported := true)), temporary := None)
    ensures forall now, disabled :: Due(s3.file, s0.installed, now, disabled) <==> Due(s0.file, s0.installed, now, disabled)
  {
    assert s3.acks == s0.acks;
  }

  /** A clean run; an acknowledgement loads its record; a second run fails and saves; the
      acknowledgement saves what it loaded; the retry interval passes. */
  function OverlapTrace(sig: Signature): seq<Machine> {
    var clean, failed := Record(sig, CleanRun, 0, false), Record(sig, Error, 0, false);
    var r := clean.(reported := true);
    var one, two := [Completed(sig, CleanRun, 0)], [Completed(sig, CleanRun, 0), Completed(sig, Error, 0)];
    [ Machine(sig, 0, None, None, Idle, map[], []),
      Machine(sig, 0, None, None, Working(sig), map[], []),
      Machine(sig, 0, None, None, Saving(clean), map[], one),
      Machine(sig, 0, None, Some(clean), Staged(clean), map[], one),
      Machine(sig, 0, Some(clean), None, Idle, map[], one),
      Machine(sig, 0, Some(clean), None, Idle, map[0 := Loaded(clean)], one),
      Machine(sig, 0, Some(clean), None, Working(sig), map[0 := Loaded(clean)], one),
      Machine(sig, 0, Some(clean), None, Saving(failed), map[0 := Loaded(clean)], two),
      Machine(sig, 0, Some(clean), Some(failed), Staged(failed), map[0 := Loaded(clean)], two),
      Machine(sig, 0, Some(failed), None, Idle, map[0 := Loaded(clean)], two),
      Machine(sig, 0, Some(failed), Some(r), Idle, map[0 := AckStaged(r)], two),
      Machine(sig, 0, Some(r), None, Idle, map[], two),
      Machine(sig, RETRY_AFTER_FAILURE + 1, Some(r), None, Idle, map[], two) ]
  }

  lemma FirstSteps(sig: Signature)
    ensures var t := OverlapTrace(sig);
      && Step(t[0], t[1]) && Step(t[1], t[2]) && Step(t[2], t[3]) && Step(t[3], t[4]) && Step(t[4], t[5])
  {
    var t := OverlapTrace(sig);
    assert StartStep(t[0], t[1]);
    assert FinishStep(t[1], t[2], CleanRun);
    assert StageStep(t[2], t[3]);
    assert ReplaceStep(t[3], t[4]);
    assert AckLoadStep(t[4], t[5], 0);
  }

  lemma FailingRunSteps(sig: Signature)
    ensures var t := OverlapTrace(sig);
      && Step(t[5], t[6]) && Step(t[6], t[7]) && Step(t[7], t[8]) && Step(t[8], t[9])
  {
    var t := OverlapTrace(sig);
    assert StartStep(t[5], t[6]);
    assert FinishStep(t[6], t[7], Error);
    assert StageStep(t[7], t[8]);
    assert ReplaceStep(t[8], t[9]);
  }

  lemma LastSteps(sig: Signature)
    ensures var t := OverlapTrace(sig);
      && Step(t[9], t[10]) && Step(t[10], t[11]) && Step(t[11], t[12])
  {
    var t := OverlapTrace(sig);
    assert AckStageStep(t[9], t[10], 0);
    assert AckReplaceStep(t[10], t[11], 0);
    assert UpdateStep(t[11], t[12], sig, RETRY_AFTER_FAILURE + 1);
  }

  /** The condition is needed: an acknowledgement that loads before a failing run saves and
      replaces after it puts the older outcome back, and the failure is never retried. */
  lemma OverlappingAckHidesAFailure(sig: Signature)
    ensures History(OverlapTrace(sig))
    ensures
      var s := OverlapTrace(sig)[12];
      && s.run.Idle? && |s.completed| > 0
      && Failed(s.completed[|s.completed| - 1].status)
      && s.now - s.completed[|s.completed| - 1].finished > RETRY_AFTER_FAILURE
      && !Due(s.file, s.installed, s.now, false)
  {
    hide Step;
    FirstSteps(sig);
    FailingRunSteps(sig);
    LastSteps(sig);
  }

  /** A client may change at any time, and the next poll sees it: whatever the state file holds,
      an installation that differs from the recorded one can happen and makes a run due. */
  lemma ChangedClientIsDue(s: Machine, installed: Signature, now: int)
    requires s.now <= now && installed != if s.file.None? then NOTHING_INSTALLED else s.file.value.signature
    ensures
      var s' := s.(installed := installed, now := now);
      Step(s, s') && Due(s'.file, s'.installed, s'.now, false) && !Due(s'.file, s'.installed, s'.now, true)
  {
    assert UpdateStep(s, s.(installed := installed, now := now), installed, now);
  }
}
