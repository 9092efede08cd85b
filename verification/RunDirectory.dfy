/**
 The run directory as the program updates it: every file operation is one step,
 and the process may die before any of them.

 `fuel` is the number of file operations left before the process is killed; a
 method that runs out reports `Crashed` and leaves the directory as it was at
 that point. A claim about every value of `fuel` is a claim about every crash
 point, and `RmTree` removes entries in an arbitrary order. A process marked
 `uninterrupted` is never killed.
 */
module RunDirectory {
  import opened Options
  import opened CheckpointModel

  /** state.json. The corpus digest and the configuration are always written together. */
  datatype State = State(key: Key, items: Option<nat>, evaluated: Option<int>, finalized: Option<int>)

  /** eval.json: the weights it judged and the items it judged them on. */
  datatype Eval = Eval(base: string, trained: seq<Epoch>, items: Items)

  /** Everything on disk, and the snapshots whose metadata has been written since the
      progress was last discarded. */
  datatype View = View(state: Option<State>, dataset: Option<Key>, baseConfig: Option<string>,
                       baseDir: Option<string>, items: Option<Items>, eval: Option<Eval>,
                       dirs: Dirs, metas: seq<Snapshot>)

  datatype Outcome = Done | Crashed | Raised

  /** One invocation of the script. */
  datatype Command = Command(key: Key, wipe: bool, dryRun: bool)

  function TargetEpochs(key: Key): nat {
    if key.config.epochs > 0 then key.config.epochs else 0
  }

  /** The snapshots of epochs 1 to n of a crash-free run for `key`. */
  function Lineage(w: World, key: Key, n: nat): seq<Snapshot> {
    seq(n, (i: int) requires 0 <= i => SnapshotAt(w, key, i + 1))
  }

  /** Durability: what recovery exposes is the last checkpoint whose metadata was written,
      with every file of it. */
  ghost predicate Durable(w: World, v: View) {
    Exposed(v.dirs) == if v.metas == [] then None else Some(CompleteDir(w, v.metas[|v.metas| - 1]))
  }

  /** The final directory holds files of one snapshot, and all of them once its
      configuration file is there. */
  ghost predicate ValidFinal(w: World, dirs: Dirs, s: Snapshot) {
    Final in dirs ==>
      && dirs[Final].Keys <= FinalDir(w, s).Keys
      && (forall f :: f in dirs[Final] ==> dirs[Final][f] == s)
      && (Meta in dirs[Final] ==> dirs[Final] == FinalDir(w, s))
  }

  function EvalFor(w: World, key: Key): Eval {
    Eval(key.config.baseModel, SnapshotAt(w, key, TargetEpochs(key)).trained, ItemsFor(w, key))
  }

  /** Every artifact that a run for `key` would keep derives from `key`, and the
      checkpoints were produced by epochs 0, 1, 2, ... each once and in order. */
  ghost predicate ValidFor(w: World, v: View, key: Key) {
    && (v.dataset.Some? ==> v.dataset.value == key)
    && (v.items.Some? ==>
          && v.items.value == ItemsFor(w, key)
          && v.baseConfig == Some(key.config.baseModel)
          && v.baseDir == Some(key.config.baseModel))
    && (v.eval.Some? ==> v.eval.value == EvalFor(w, key))
    && ValidFinal(w, v.dirs, SnapshotAt(w, key, TargetEpochs(key)))
    && CheckpointsFor(w, v, key)
  }

  ghost predicate CheckpointsFor(w: World, v: View, key: Key) {
    && |v.metas| <= TargetEpochs(key)
    && v.metas == Lineage(w, key, |v.metas|)
    && Durable(w, v)
  }

  /** Training for `key` stands exactly at `epochs`, with no swap under way. */
  ghost predicate TrainedTo(w: World, v: View, key: Key, epochs: nat) {
    && CheckpointsFor(w, v, key)
    && |v.metas| == epochs
    && Staging !in v.dirs && Retired !in v.dirs
    && (epochs > 0 ==> Live in v.dirs && v.dirs[Live] == CompleteDir(w, SnapshotAt(w, key, epochs)))
  }

  /** The live checkpoint has all the requested epochs, and no swap is under way. */
  predicate AtTarget(dirs: Dirs, key: Key) {
    && Staging !in dirs && Retired !in dirs
    && Live in dirs && Meta in dirs[Live] && dirs[Live][Meta].epoch >= key.config.epochs
  }

  /** Every stage is done and recorded in `st`. */
  predicate NothingLeft(v: View, key: Key, st: State) {
    && v.baseConfig.Some? && v.baseDir.Some? && v.items.Some? && st.items == Some(key.corpus)
    && AtTarget(v.dirs, key)
    && (v.items.value.heldOut == 0 || (v.eval.Some? && st.evaluated == Some(key.config.epochs)))
    && Final in v.dirs && Meta in v.dirs[Final] && st.finalized == Some(key.config.epochs)
  }

  predicate NothingToDo(v: View, key: Key) {
    v.dataset.Some? && v.state.Some? && v.state.value.key == key && NothingLeft(v, key, v.state.value)
  }

  /** No progress artifact of any kind. */
  ghost predicate NoProgress(v: View) {
    v.items.None? && v.eval.None? && v.dirs == map[] && v.metas == []
  }

  /** state.json is gone while some progress remains. */
  predicate Stranded(state: Option<State>, items: Option<Items>, eval: Option<Eval>, dirs: Dirs) {
    state.None? && (items.Some? || eval.Some? || dirs != map[])
  }

  ghost predicate Clean(w: World, v: View) {
    match v.state
    case None => NoProgress(v)
    case Some(st) => ValidFor(w, v, st.key)
  }

  /** The invariant between runs. `pending` is the last command if it was killed. Short of a
      clean directory, either a killed --fresh run has left no state file, or a killed run
      with another key than the recorded one has begun to discard the recorded progress. */
  ghost predicate Inv(w: World, v: View, pending: Option<Command>) {
    || Clean(w, v)
    || (pending.Some? && pending.value.wipe && v.state.None? && (v.dirs == map[] ==> v.metas == []))
    || (pending.Some? && Discarding(w, v, pending.value))
  }

  ghost predicate Discarding(w: World, v: View, cmd: Command) {
    && !cmd.dryRun && v.state.Some? && v.state.value.key != cmd.key
    && (v.dirs == map[] ==> v.metas == [])
    && (v.dataset.Some? && v.dataset.value != v.state.value.key ==> v.dataset.value == cmd.key && w.labelled(cmd.key) > 0)
  }

  /** A killed command is repeated. --fresh may be added, and it may be dropped except while
      state.json is gone and some progress remains; --dry-run may only be dropped. */
  predicate Repeats(cmd: Command, pending: Option<Command>, stranded: bool) {
    pending.Some? ==>
      && cmd.key == pending.value.key
      && (cmd.dryRun ==> pending.value.dryRun)
      && (stranded ==> cmd.wipe)
  }

  /** A completed run for `key`: everything derives from `key`, the checkpoint holds exactly
      the requested epochs, and the final model is the whole conversion of it. */
  ghost predicate Finished(w: World, v: View, key: Key) {
    && v.state.Some? && v.state.value.key == key
    && v.state.value.items == Some(key.corpus)
    && v.state.value.finalized == Some(key.config.epochs)
    && (ItemsFor(w, key).heldOut > 0 ==> v.state.value.evaluated == Some(key.config.epochs))
    && v.dataset == Some(key)
    && Complete(w, v, key)
  }

  ghost predicate Complete(w: World, v: View, key: Key) {
    && ValidFor(w, v, key)
    && v.items == Some(ItemsFor(w, key))
    && TrainedTo(w, v, key, TargetEpochs(key))
    && (ItemsFor(w, key).heldOut > 0 ==> v.eval == Some(EvalFor(w, key)))
    && Final in v.dirs && v.dirs[Final] == FinalDir(w, SnapshotAt(w, key, TargetEpochs(key)))
  }

  /** Validity is about artifacts; the state file itself plays no part in it. */
  lemma StateAside(w: World, v: View, st: Option<State>, key: Key)
    ensures ValidFor(w, v.(state := st), key) == ValidFor(w, v, key)
    ensures Complete(w, v.(state := st), key) == Complete(w, v, key)
  {
  }

  /** The directory after the first n of the four single-file removals of --fresh. */
  function FreshCut(v: View, n: nat): View {
    v.(state := if n >= 1 then None else v.state,
       dataset := if n >= 2 then None else v.dataset,
       baseConfig := if n >= 3 then None else v.baseConfig,
       baseDir := if n >= 4 then None else v.baseDir)
  }

  /** What removals of directories and files leave: less of the same. */
  ghost predicate Remnant(before: Dirs, after: Dirs) {
    && after.Keys <= before.Keys
    && forall x :: x in after ==> after[x].Keys <= before[x].Keys && forall f :: f in after[x] ==> after[x][f] == before[x][f]
  }

  /** What a discard of progress leaves, wherever it stops. The live checkpoint goes first. */
  ghost predicate Leftover(before: View, after: View) {
    && (after.items == before.items || after.items.None?)
    && (after.eval == before.eval || after.eval.None?)
    && Remnant(before.dirs, after.dirs)
    && (Live in after.dirs ==> after.dirs - {Live} == before.dirs - {Live})
  }

  ghost predicate TornStaging(dirs: Dirs) {
    Staging in dirs ==> Meta !in dirs[Staging]
  }

  /** The epoch the next training run would resume at. */
  function ResumeEpoch(dirs: Dirs): nat {
    match Exposed(dirs)
    case None => 0
    case Some(dir) => if Meta in dir then dir[Meta].epoch else 0
  }

  // ------------------------------------------------------------ a run that finds no state file

  /** A model trained on from epoch `from.epoch` up to epoch n. */
  function Trained(from: Snapshot, items: Items, key: Key, n: nat): (s: Snapshot)
    requires from.epoch <= n
    ensures s.epoch == n
  {
    if n == from.epoch then from
    else
      var p := Trained(from, items, key, n - 1);
      Snapshot(p.base, p.trained + [Epoch(n - 1, items, key)],
               p.steps + CeilDiv(items.train, MICRO_BATCH * GRAD_ACCUM), n)
  }

  /** What a run resumes from: the base model, or the weights and trainer state on disk. */
  function Resumed(dirs: Dirs, base: string): Option<Snapshot> {
    var start := ResumeEpoch(dirs);
    if start == 0 then Some(Snapshot(base, [], 0, 0))
    else
      var dir := Exposed(dirs).value;
      if Weights !in dir || Trainer !in dir then None
      else Some(Snapshot(dir[Weights].base, dir[Weights].trained, dir[Trainer].steps, start))
  }

  /** The directories after `stage_train`; None when it raises. */
  function AfterTraining(w: World, dirs: Dirs, items: Items, base: string, key: Key): Option<Dirs> {
    if ResumeEpoch(dirs) >= key.config.epochs then Some(Recovered(dirs))
    else
      match Resumed(dirs, base)
      case None => None
      case Some(from) =>
        Some(Recovered(dirs)[Live := CompleteDir(w, Trained(from, items, key, TargetEpochs(key)))])
  }

  /** The final directory after a conversion of `s`, over what was there. */
  function Converted(w: World, dirs: Dirs, s: Snapshot): Dirs {
    dirs[Final := (if Final in dirs then dirs[Final] else map[]) + FinalDir(w, s)]
  }

  /** The files, whatever the bookkeeping. */
  ghost function OnDisk(v: View): View {
    v.(metas := [])
  }

  /** What a run for `key`, neither fresh nor dry, makes of a directory without a state file;
      None when it raises. */
  ghost function FromNothing(w: World, v: View, key: Key): Option<View> {
    var items := ItemsFor(w, key);
    if w.labelled(key) == 0 then None
    else
      match AfterTraining(w, v.dirs, items, key.config.baseModel, key)
      case None => None
      case Some(dirs) =>
        if Live !in dirs || Weights !in dirs[Live] then None
        else
          var s := dirs[Live][Weights];
          var epochs := Some(key.config.epochs);
          Some(View(Some(State(key, Some(key.corpus), if items.heldOut == 0 then None else epochs, epochs)),
                    Some(key), Some(key.config.baseModel), Some(key.config.baseModel), Some(items),
                    if items.heldOut == 0 then v.eval else Some(Eval(s.base, s.trained, items)),
                    Converted(w, dirs, s), []))
  }

  /** The outcome depends on the checkpoints, the final model and the evaluation alone. */
  lemma FromNothingReads(w: World, v: View, other: View, key: Key)
    requires v.dirs == other.dirs && v.eval == other.eval
    ensures FromNothing(w, v, key) == FromNothing(w, other, key)
    ensures w.labelled(key) == 0 ==> FromNothing(w, v, key) == None
  {
  }

  /** The files of a completed run for `key`. */
  ghost predicate Published(w: World, v: View, key: Key) {
    var s := SnapshotAt(w, key, TargetEpochs(key));
    && v.state.Some? && v.state.value.key == key
    && v.state.value.items == Some(key.corpus)
    && v.state.value.finalized == Some(key.config.epochs)
    && (v.dataset.Some? ==> v.dataset.value == key)
    && v.baseConfig == Some(key.config.baseModel) && v.baseDir == Some(key.config.baseModel)
    && v.items == Some(ItemsFor(w, key))
    && (v.eval.Some? ==> v.eval.value == EvalFor(w, key))
    && (ItemsFor(w, key).heldOut > 0 ==> v.eval.Some?)
    && Staging !in v.dirs && Retired !in v.dirs
    && Live in v.dirs && v.dirs[Live] == CompleteDir(w, s)
    && Final in v.dirs && v.dirs[Final] == FinalDir(w, s)
  }

  /** The checkpoint on disk, if a run for `key` would trust it, is one of that run: complete
      when no epoch is left to train, else with the weights and the trainer state. */
  ghost predicate TrustedRightly(w: World, dirs: Dirs, key: Key) {
    var e := ResumeEpoch(dirs);
    if e == 0 then true
    else if e >= key.config.epochs then Exposed(dirs).value == CompleteDir(w, SnapshotAt(w, key, TargetEpochs(key)))
    else Resumed(dirs, key.config.baseModel) == Some(SnapshotAt(w, key, e))
  }

  /** The files of a final model directory. */
  function FinalFiles(w: World): set<File> {
    {Weights, Meta} + ExtraFiles(w.extras)
  }

  /** What decides whether a directory without a state file may be run on without --fresh. */
  ghost predicate SafeWithoutFresh(w: World, v: View, key: Key) {
    && TrustedRightly(w, v.dirs, key)
    && (ItemsFor(w, key).heldOut == 0 && v.eval.Some? ==> v.eval.value == EvalFor(w, key))
    && (Final in v.dirs ==> v.dirs[Final].Keys <= FinalFiles(w))
  }

  /** One more epoch of a crash-free run. */
  lemma NextSnapshot(w: World, key: Key, e: nat)
    ensures
      var s := SnapshotAt(w, key, e);
      SnapshotAt(w, key, e + 1) ==
      Snapshot(s.base, s.trained + [Epoch(e, ItemsFor(w, key), key)],
               s.steps + CeilDiv(ItemsFor(w, key).train, MICRO_BATCH * GRAD_ACCUM), e + 1)
    ensures Lineage(w, key, e + 1) == Lineage(w, key, e) + [SnapshotAt(w, key, e + 1)]
  {
    var c := CeilDiv(ItemsFor(w, key).train, MICRO_BATCH * GRAD_ACCUM);
    assert c * (e + 1) == c * e + c;
  }

  lemma TrainedStep(from: Snapshot, items: Items, key: Key, e: nat)
    requires from.epoch <= e
    ensures Trained(from, items, key, from.epoch) == from
    ensures
      var p := Trained(from, items, key, e);
      Trained(from, items, key, e + 1) ==
      Snapshot(p.base, p.trained + [Epoch(e, items, key)],
               p.steps + CeilDiv(items.train, MICRO_BATCH * GRAD_ACCUM), e + 1)
  {
  }

  lemma StartOfLineage(w: World, key: Key)
    ensures SnapshotAt(w, key, 0) == Snapshot(key.config.baseModel, [], 0, 0)
  {
  }

  /** Training on gives the crash-free model exactly when it starts from a crash-free model. */
  lemma {:induction false} SameTraining(w: World, from: Snapshot, key: Key, n: nat)
    requires from.epoch <= n
    ensures Trained(from, ItemsFor(w, key), key, n) == SnapshotAt(w, key, n) <==> from == SnapshotAt(w, key, from.epoch)
  {
    hide ItemsFor, CeilDiv;
    if from.epoch < n {
      SameTraining(w, from, key, n - 1);
      NextSnapshot(w, key, n - 1);
      var p, q := Trained(from, ItemsFor(w, key), key, n - 1), SnapshotAt(w, key, n - 1);
      var last := [Epoch(n - 1, ItemsFor(w, key), key)];
      if p.trained + last == q.trained + last {
        assert p.trained == (p.trained + last)[..|p.trained|] == (q.trained + last)[..|p.trained|] == q.trained;
      }
    }
  }

  lemma CompleteDirInjective(w: World, a: Snapshot, b: Snapshot)
    ensures CompleteDir(w, a) == CompleteDir(w, b) <==> a == b
    ensures Weights in CompleteDir(w, a) && CompleteDir(w, a)[Weights] == a
  {
    assert CompleteDir(w, a)[Weights] == a && CompleteDir(w, b)[Weights] == b;
  }

  lemma BaseOfSnapshot(w: World, key: Key, n: nat)
    ensures SnapshotAt(w, key, n).base == key.config.baseModel && SnapshotAt(w, key, n).epoch == n
  {
  }

  lemma RecoveredParts(dirs: Dirs)
    ensures Staging !in Recovered(dirs) && Retired !in Recovered(dirs)
    ensures Live in Recovered(dirs) <==> Exposed(dirs).Some?
    ensures Exposed(dirs).Some? ==> Recovered(dirs)[Live] == Exposed(dirs).value
    ensures SameFinal(dirs, Recovered(dirs))
    ensures Recovered(dirs) - {Staging, Retired} == Recovered(dirs)
  {
  }

  lemma ConvertedIs(w: World, dirs: Dirs, s: Snapshot, t: Snapshot)
    ensures Converted(w, dirs, s)[Final] == FinalDir(w, t)
       <==> s == t && (Final in dirs ==> dirs[Final].Keys <= FinalFiles(w))
  {
    var was: Dir := if Final in dirs then dirs[Final] else map[];
    var made := was + FinalDir(w, s);
    assert Weights in FinalDir(w, s) && made[Weights] == s && FinalDir(w, t)[Weights] == t;
    assert FinalDir(w, s).Keys == FinalDir(w, t).Keys == FinalFiles(w);
    assert made.Keys == was.Keys + FinalDir(w, s).Keys;
  }

  /** A run without --fresh on a directory without a state file ends with the right files
      exactly when that holds. */
  lemma RightFromNothingIff(w: World, v: View, key: Key)
    requires w.labelled(key) > 0 && TargetEpochs(key) > 0
    ensures (FromNothing(w, v, key).Some? && Published(w, FromNothing(w, v, key).value, key)) <==> SafeWithoutFresh(w, v, key)
  {
    hide SnapshotAt, CompleteDir, FinalDir, ItemsFor, Recovered, Trained, Exposed;
    var items, base, n, e := ItemsFor(w, key), key.config.baseModel, TargetEpochs(key), ResumeEpoch(v.dirs);
    StartOfLineage(w, key);
    match AfterTraining(w, v.dirs, items, base, key)
    case None =>
    case Some(dirs) =>
      RecoveredParts(v.dirs);
      if e >= key.config.epochs {
        assert dirs == Recovered(v.dirs);
      } else {
        var from := Resumed(v.dirs, base).value;
        SameTraining(w, from, key, n);
        CompleteDirInjective(w, Trained(from, items, key, n), SnapshotAt(w, key, n));
      }
      if Live in dirs && Weights in dirs[Live] {
        ConvertedIs(w, dirs, dirs[Live][Weights], SnapshotAt(w, key, n));
      }
      CompleteDirInjective(w, SnapshotAt(w, key, n), SnapshotAt(w, key, n));
      BaseOfSnapshot(w, key, n);
  }

  lemma FinalKeys(w: World, s: Snapshot)
    ensures FinalDir(w, s).Keys == FinalFiles(w)
  {
  }

  lemma LastOfLineage(w: World, key: Key, n: nat)
    ensures |Lineage(w, key, n)| == n && (n > 0 ==> Lineage(w, key, n)[n - 1] == SnapshotAt(w, key, n))
  {
  }

  lemma CompleteDirParts(w: World, s: Snapshot)
    ensures CompleteDir(w, s).Keys == {Weights, Trainer, Meta} + ExtraFiles(w.extras)
    ensures forall f :: f in CompleteDir(w, s) ==> CompleteDir(w, s)[f] == s
  {
  }

  /** Crash-free models of different keys, or after different numbers of epochs, differ. */
  lemma SnapshotsApart(w: World, a: Key, b: Key, m: nat, n: nat)
    requires m > 0
    ensures SnapshotAt(w, a, m) == SnapshotAt(w, b, n) <==> a == b && m == n
  {
    var s, t := SnapshotAt(w, a, m), SnapshotAt(w, b, n);
    assert |s.trained| == m && |t.trained| == n;
    assert s.trained[0].args == a;
    assert n > 0 ==> t.trained[0].args == b;
  }

  lemma EvalsApart(w: World, a: Key, b: Key)
    ensures EvalFor(w, a) == EvalFor(w, b) <==> a == b
  {
  }

  /** What recovery exposes after a stopped discard is less of what it exposed before. */
  lemma ExposedLeft(before: View, after: View)
    requires Leftover(before, after) && Exposed(after.dirs).Some?
    ensures Exposed(before.dirs).Some?
    ensures
      var dir, left := Exposed(before.dirs).value, Exposed(after.dirs).value;
      left.Keys <= dir.Keys && forall f :: f in left ==> left[f] == dir[f]
  {
    if Live in after.dirs {
      assert Staging in after.dirs <==> Staging in after.dirs - {Live};
      assert Staging in before.dirs <==> Staging in before.dirs - {Live};
    }
  }

  /** Which leftovers of a directory valid for `was` a plain run for `key` gets right: with
      another key, only those without a trusted checkpoint; with the same key, those whose
      trusted checkpoint still has the files that will be read; and in either case no stale
      evaluation may survive because nothing is held out. */
  lemma LeftoverSafeIff(w: World, before: View, after: View, was: Key, key: Key)
    requires ValidFor(w, before, was) && Leftover(before, after) && TargetEpochs(key) > 0
    ensures SafeWithoutFresh(w, after, key) <==>
      && (ResumeEpoch(after.dirs) > 0 ==> was == key && StillUsable(w, after.dirs, key))
      && (after.eval.Some? && ItemsFor(w, key).heldOut == 0 ==> was == key)
  {
    hide SnapshotAt, CompleteDir, FinalDir, ItemsFor, Lineage, EvalFor, Exposed;
    FinalKeys(w, SnapshotAt(w, was, TargetEpochs(was)));
    EvalsApart(w, was, key);
    if ResumeEpoch(after.dirs) > 0 {
      LeftoverTrustedIff(w, before, after, was, key);
    }
  }

  lemma LeftoverTrustedIff(w: World, before: View, after: View, was: Key, key: Key)
    requires CheckpointsFor(w, before, was) && Leftover(before, after) && ResumeEpoch(after.dirs) > 0
    ensures TrustedRightly(w, after.dirs, key) <==> was == key && StillUsable(w, after.dirs, key)
  {
    hide SnapshotAt, CompleteDir, Lineage, Leftover;
    var n, t := |before.metas|, TargetEpochs(key);
    ExposedLeft(before, after);
    LastOfLineage(w, was, n);
    CompleteDirParts(w, SnapshotAt(w, was, n));
    CompleteDirParts(w, SnapshotAt(w, key, t));
    BaseOfSnapshot(w, was, n);
    BaseOfSnapshot(w, key, t);
    var left := Exposed(after.dirs).value;
    assert left[Meta] == SnapshotAt(w, was, n) && n == ResumeEpoch(after.dirs);
    SnapshotsApart(w, was, key, n, t);
    SnapshotsApart(w, was, key, n, n);
  }

  /** The checkpoint still has what a run for `key` will read of it. */
  ghost predicate StillUsable(w: World, dirs: Dirs, key: Key)
    requires ResumeEpoch(dirs) > 0
  {
    var dir := Exposed(dirs).value;
    if ResumeEpoch(dirs) >= key.config.epochs then dir.Keys == {Weights, Trainer, Meta} + ExtraFiles(w.extras)
    else Weights in dir && Trainer in dir
  }

  /** The scheduler steps of one epoch: the loop over micro-batches of `stage_train`. */
  method EpochSteps(n: nat, micro: nat, accum: nat) returns (steps: nat)
    requires micro > 0 && accum > 0
    ensures micro * accum > 0 && steps == CeilDiv(n, micro * accum)
  {
    MulPositive(micro, accum);
    steps := 0;
    var accumStep, at := 0, 0;
    while at < n
      invariant at == micro * accumStep
      invariant at < n ==> steps == accumStep / accum
      invariant at >= n ==> steps == CeilDiv(accumStep, accum) && (accumStep == 0 || micro * (accumStep - 1) < n)
      decreases n - at
    {
      accumStep := accumStep + 1;
      if accumStep % accum == 0 || at + micro >= n {
        steps := steps + 1;
      }
      at := at + micro;
      StepOfBatch(accumStep, accum);
      assert micro * (accumStep - 1) == micro * accumStep - micro;
    }
    CeilUnique(n, micro, accumStep);
    NestedCeiling(n, micro, accum);
  }

  /** How the quotient and the ceiling move from batch k - 1 to batch k. */
  lemma StepOfBatch(k: nat, accum: nat)
    requires k > 0 && accum > 0
    ensures k % accum == 0 ==> k / accum == (k - 1) / accum + 1 && CeilDiv(k, accum) == k / accum
    ensures k % accum != 0 ==> k / accum == (k - 1) / accum && CeilDiv(k, accum) == (k - 1) / accum + 1
  {
    var q, r := k / accum, k % accum;
    assert k == accum * q + r;
    if r == 0 {
      assert accum * (q - 1) == accum * q - accum;
      QuotientUnique(k - 1, accum, q - 1);
      QuotientUnique(k + accum - 1, accum, q);
    } else {
      assert accum * (q + 1) == accum * q + accum;
      QuotientUnique(k - 1, accum, q);
      QuotientUnique(k + accum - 1, accum, q + 1);
    }
  }
}
