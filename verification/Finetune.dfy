/**
 The resumable pipeline of scripts/finetune_laya.py over a run directory that may
 lose its process at any file operation.
 */
module Finetune {
  import opened Options
  import opened CheckpointModel
  import opened RunDirectory

  class RunDir {
    const world: World
    var state: Option<State>
    var dataset: Option<Key>
    var baseConfig: Option<string>
    var baseDir: Option<string>
    var items: Option<Items>
    var eval: Option<Eval>
    var dirs: Dirs
    var fuel: nat
    var uninterrupted: bool
    ghost var metas: seq<Snapshot>

    ghost function V(): View
      reads this
    {
      View(state, dataset, baseConfig, baseDir, items, eval, dirs, metas)
    }

    constructor (world: World)
      ensures this.world == world
      ensures V() == View(None, None, None, None, None, None, map[], [])
    {
      this.world := world;
      state, dataset, baseConfig, baseDir, items, eval := None, None, None, None, None, None;
      dirs, fuel, uninterrupted, metas := map[], 0, false, [];
    }

    /** One file operation, unless the process is dead. */
    method Spend() returns (ok: bool)
      modifies this`fuel
      ensures ok <==> uninterrupted || old(fuel) > 0
      ensures fuel == if old(fuel) > 0 then old(fuel) - 1 else 0
    {
      ok := uninterrupted || fuel > 0;
      if fuel > 0 {
        fuel := fuel - 1;
      }
    }

    // ------------------------------------------------------------ directories

    /** `shutil.rmtree`: entries go one by one, in any order, the directory last. */
    method RmTree(slot: Slot) returns (ok: bool)
      modifies this`dirs, this`fuel
      ensures uninterrupted ==> ok
      ensures ok ==> dirs == old(dirs) - {slot}
      ensures !ok ==> PartlyRemoved(old(dirs), dirs, slot)
      ensures slot !in old(dirs) ==> ok && fuel == old(fuel)
    {
      if slot !in dirs {
        return true;
      }
      ghost var was := dirs;
      while dirs[slot] != map[]
        invariant slot in dirs && was == old(dirs) && PartlyRemoved(was, dirs, slot)
        decreases dirs[slot].Keys
      {
        ok := Spend();
        if !ok {
          return;
        }
        var f :| f in dirs[slot];
        RemovalStep(was, dirs, slot, f);
        dirs := dirs[slot := dirs[slot] - {f}];
      }
      RemovalEnd(was, dirs, slot);
      ok := Spend();
      if ok {
        dirs := dirs - {slot};
      }
    }

    /** `Path.rename` of a directory onto a free name. */
    method Rename(from: Slot, to: Slot) returns (ok: bool)
      requires from in dirs && to !in dirs
      modifies this`dirs, this`fuel
      ensures uninterrupted ==> ok
      ensures dirs == if ok then (old(dirs) - {from})[to := old(dirs)[from]] else old(dirs)
    {
      ok := Spend();
      if ok {
        dirs := (dirs - {from})[to := dirs[from]];
      }
    }

    method WriteFile(slot: Slot, f: File, s: Snapshot) returns (ok: bool)
      requires slot in dirs
      modifies this`dirs, this`fuel
      ensures uninterrupted ==> ok
      ensures dirs == if ok then old(dirs)[slot := old(dirs)[slot][f := s]] else old(dirs)
    {
      ok := Spend();
      if ok {
        dirs := dirs[slot := dirs[slot][f := s]];
      }
    }

    method MakeDir(slot: Slot) returns (ok: bool)
      requires slot !in dirs
      modifies this`dirs, this`fuel
      ensures uninterrupted ==> ok
      ensures dirs == if ok then old(dirs)[slot := map[]] else old(dirs)
    {
      ok := Spend();
      if ok {
        dirs := dirs[slot := map[]];
      }
    }

    // ------------------------------------------------------------ checkpoints

    /** Swap the staging directory in. Whatever the crash point, recovery exposes
        the same checkpoint as before the swap began. */
    method CommitCheckpoint() returns (ok: bool)
      requires Staging in dirs
      modifies this`dirs, this`fuel
      ensures uninterrupted ==> ok
      ensures ok ==> dirs == (old(dirs) - {Staging, Retired})[Live := old(dirs)[Staging]]
      ensures Meta in old(dirs)[Staging] ==> Exposed(dirs) == Exposed(old(dirs))
      ensures SameFinal(old(dirs), dirs)
    {
      ok := RmTree(Retired);
      if !ok {
        return;
      }
      if Live in dirs {
        ok := Rename(Live, Retired);
        if !ok {
          return;
        }
      }
      ok := Rename(Staging, Live);
      if !ok {
        return;
      }
      ok := RmTree(Retired);
    }

    /** Recovery from any disk state, interrupted anywhere, never changes which
        checkpoint recovery exposes; uninterrupted it leaves exactly that one. */
    method RecoverCheckpoint() returns (ok: bool)
      modifies this`dirs, this`fuel
      ensures uninterrupted ==> ok
      ensures ok ==> dirs == Recovered(old(dirs))
      ensures Exposed(dirs) == Exposed(old(dirs))
      ensures SameFinal(old(dirs), dirs)
      ensures Staging !in old(dirs) && Retired !in old(dirs) ==> ok && dirs == old(dirs) && fuel == old(fuel)
    {
      if Staging in dirs && Meta in dirs[Staging] {
        ok := CommitCheckpoint();
      } else {
        ok := RmTree(Staging);
      }
      if !ok {
        return;
      }
      ok := RmTree(Retired);
    }

    /** Recovery interrupted `attempts` times at arbitrary points and then run to its
        end gives what one uninterrupted recovery gives. */
    method RecoverAfterCrashes(attempts: nat)
      modifies this`dirs, this`fuel, this`uninterrupted
      ensures dirs == Recovered(old(dirs))
    {
      uninterrupted := false;
      var i := 0;
      while i < attempts
        invariant Exposed(dirs) == Exposed(old(dirs)) && SameFinal(old(dirs), dirs) && !uninterrupted
      {
        var budget: nat :| true;
        fuel := budget;
        var _ := RecoverCheckpoint();
        i := i + 1;
      }
      uninterrupted := true;
      ghost var last := dirs;
      var _ := RecoverCheckpoint();
      RecoveredFromExposed(old(dirs), last);
    }

    /** `save_pretrained` of the encoder configuration and the tokenizer. */
    method WriteExtras(slot: Slot, s: Snapshot) returns (ok: bool)
      requires slot in dirs
      modifies this`dirs, this`fuel
      ensures uninterrupted ==> ok
      ensures slot in dirs && dirs == old(dirs)[slot := dirs[slot]]
      ensures ok ==> dirs[slot] == old(dirs)[slot] + ExtraMap(world.extras, s)
      ensures forall f :: f in dirs[slot] ==>
        (f in old(dirs)[slot] && dirs[slot][f] == old(dirs)[slot][f]) || (f in ExtraFiles(world.extras) && dirs[slot][f] == s)
      ensures old(dirs)[slot].Keys <= dirs[slot].Keys
    {
      ok := true;
      var i := 0;
      ghost var was := dirs;
      assert was[slot] + ExtraMap(world.extras[..0], s) == was[slot];
      assert was == was[slot := was[slot]];
      while i < |world.extras|
        invariant 0 <= i <= |world.extras| && ok
        invariant slot in dirs && dirs == was[slot := dirs[slot]]
        invariant dirs[slot] == was[slot] + ExtraMap(world.extras[..i], s)
        invariant ExtraFiles(world.extras[..i]) <= ExtraFiles(world.extras)
      {
        ok := WriteFile(slot, Extra(world.extras[i]), s);
        if !ok {
          return;
        }
        ExtraMapStep(world.extras, i, s);
        ExtraFilesStep(world.extras, i);
        assert dirs[slot] == was[slot] + ExtraMap(world.extras[..i + 1], s);
        i := i + 1;
      }
      assert world.extras[..i] == world.extras;
    }

    /** Everything of a checkpoint but its metadata, into a staging directory made anew. */
    method FillStaging(s: Snapshot) returns (ok: bool)
      modifies this`dirs, this`fuel
      ensures uninterrupted ==> ok
      ensures dirs - {Staging} == old(dirs) - {Staging}
      ensures ok ==> Staging in dirs && dirs[Staging] == CompleteDir(world, s) - {Meta}
      ensures TornStaging(old(dirs)) ==> TornStaging(dirs)
    {
      ok := RmTree(Staging);
      if !ok {
        RemovalEnd(old(dirs), dirs, Staging);
        return;
      }
      ok := MakeDir(Staging);
      if !ok {
        return;
      }
      ok := WriteFile(Staging, Weights, s);
      if !ok {
        return;
      }
      ok := WriteFile(Staging, Trainer, s);
      if !ok {
        return;
      }
      StagedFiles(world, s);
      ok := WriteExtras(Staging, s);
    }

    /** Write a checkpoint into staging, metadata last, and swap it in. A save is atomic:
        at every crash point recovery exposes the old checkpoint if the metadata was not
        written and the whole new one if it was. */
    method SaveCheckpoint(s: Snapshot) returns (ok: bool)
      modifies this`dirs, this`fuel, this`metas
      ensures uninterrupted ==> ok
      ensures ok ==> dirs == (old(dirs) - {Staging, Retired})[Live := CompleteDir(world, s)]
      ensures ok ==> metas == old(metas) + [s]
      ensures metas == old(metas) || metas == old(metas) + [s]
      ensures metas == old(metas) + [s] ==> Exposed(dirs) == Some(CompleteDir(world, s))
      ensures metas == old(metas) && TornStaging(old(dirs)) ==> Exposed(dirs) == Exposed(old(dirs))
      ensures SameFinal(old(dirs), dirs)
    {
      ok := FillStaging(s);
      StagingAside(old(dirs), dirs);
      if !ok {
        return;
      }
      ok := WriteFile(Staging, Meta, s);
      if !ok {
        return;
      }
      metas := metas + [s];
      StagedFiles(world, s);
      assert dirs - {Staging} == old(dirs) - {Staging};
      StagingAside(old(dirs), dirs);
      ok := CommitCheckpoint();
    }

    // ------------------------------------------------------------ stages

    /** The files the later stages refuse to do without. */
    ghost predicate Prepared()
      reads this`baseConfig, this`baseDir, this`items
    {
      baseConfig.Some? && baseDir.Some? && items.Some?
    }

    method SaveState(st: State) returns (ok: bool)
      modifies this`state, this`fuel
      ensures uninterrupted ==> ok
      ensures state == if ok then Some(st) else old(state)
      ensures ok <==> uninterrupted || old(fuel) > 0
      ensures fuel == if old(fuel) > 0 then old(fuel) - 1 else 0
    {
      ok := Spend();
      if ok {
        state := Some(st);
      }
    }

    /** `discard_progress`. */
    method DiscardProgress() returns (ok: bool)
      modifies this`items, this`eval, this`dirs, this`fuel, this`metas
      ensures uninterrupted ==> ok
      ensures ok ==> NoProgress(V())
      ensures Leftover(old(V()), V())
      ensures old(dirs == map[] ==> metas == []) ==> dirs == map[] ==> metas == []
    {
      ok := Spend();
      if !ok {
        return;
      }
      items := None;
      ok := Spend();
      if !ok {
        return;
      }
      eval := None;
      metas := [];
      ghost var was := dirs;
      ok := RmTree(Live);
      RemnantOfPart(was, dirs, Live);
      if !ok {
        return;
      }
      ok := DiscardRest();
    }

    /** The discard once the live checkpoint is gone. */
    method DiscardRest() returns (ok: bool)
      requires Live !in dirs
      modifies this`dirs, this`fuel
      ensures uninterrupted ==> ok
      ensures ok ==> dirs == map[]
      ensures Remnant(old(dirs), dirs) && Live !in dirs
    {
      ghost var was := dirs;
      ok := RmTree(Staging);
      RemnantOfPart(was, dirs, Staging);
      if !ok {
        return;
      }
      was := dirs;
      ok := RmTree(Retired);
      RemnantOfPart(was, dirs, Retired);
      if !ok {
        return;
      }
      was := dirs;
      ok := RmTree(Final);
      RemnantOfPart(was, dirs, Final);
      if ok {
        NoSlotLeft(dirs);
      }
    }

    /** The four single-file removals of --fresh. */
    method ClearState() returns (ok: bool)
      modifies this`state, this`dataset, this`baseConfig, this`baseDir, this`fuel
      ensures ok <==> uninterrupted || old(fuel) >= 4
      ensures V() == FreshCut(old(V()), if uninterrupted then 4 else old(fuel))
    {
      ok := Spend();
      if !ok {
        return;
      }
      state := None;
      ok := Spend();
      if !ok {
        return;
      }
      dataset := None;
      ok := Spend();
      if !ok {
        return;
      }
      baseConfig := None;
      ok := Spend();
      if !ok {
        return;
      }
      baseDir := None;
    }

    /** `stage_export`. `examples` names the key the returned examples were exported under. */
    method StageExport(key: Key, st: Option<State>, write: bool) returns (outcome: Outcome, examples: Key)
      modifies this`dataset, this`fuel
      ensures uninterrupted ==> !outcome.Crashed?
      ensures dataset == old(dataset) || (outcome.Done? && write && dataset == Some(key))
      ensures outcome.Raised? ==> world.labelled(key) == 0
      ensures outcome.Done? && st.None? ==> world.labelled(key) > 0
      ensures st.Some? && st.value.key.corpus == key.corpus && old(dataset).Some? ==>
        outcome.Done? && examples == old(dataset).value && dataset == old(dataset)
        && fuel == old(fuel)
      ensures outcome.Done? && (st.None? || dataset == Some(key)) ==> examples == key
      ensures outcome.Done? && write && st.None? ==> dataset == Some(key)
      ensures outcome.Done? && write ==> dataset.Some?
    {
      outcome, examples := Done, key;
      if st.Some? && st.value.key.corpus == key.corpus && dataset.Some? {
        examples := dataset.value;
        return;
      }
      if world.labelled(key) == 0 {
        outcome := Raised;
        return;
      }
      if write {
        var ok := Spend();
        if !ok {
          outcome := Crashed;
          return;
        }
        dataset := Some(key);
      }
    }

    /** `stage_preprocess`. */
    method StagePreprocess(key: Key, st: State, examples: Key) returns (outcome: Outcome)
      modifies this`baseConfig, this`baseDir, this`items, this`fuel
      ensures uninterrupted ==> outcome.Done?
      ensures !outcome.Raised?
      ensures outcome.Done? ==> items.Some?
      ensures st.items == Some(key.corpus) && old(items).Some? ==>
        outcome.Done? && V() == old(V()) && fuel == old(fuel)
      ensures outcome.Done? && st.items.None? ==>
        && items == Some(SplitItems(examples, key, world.tokenised(examples, key)))
        && baseConfig == Some(key.config.baseModel) && baseDir == Some(key.config.baseModel)
      ensures examples == key && ValidFor(world, old(V()), key) ==> ValidFor(world, V(), key)
    {
      hide SnapshotAt, Lineage, CompleteDir, FinalDir, EvalFor, Exposed;
      outcome := Done;
      if st.items == Some(key.corpus) && items.Some? {
        return;
      }
      outcome := Crashed;
      var ok := Spend();
      if !ok {
        return;
      }
      baseConfig := Some(key.config.baseModel);
      ok := Spend();
      if !ok {
        return;
      }
      baseDir := Some(key.config.baseModel);
      ok := Spend();
      if !ok {
        return;
      }
      items := Some(SplitItems(examples, key, world.tokenised(examples, key)));
      outcome := Done;
    }

    /** The epoch loop of `stage_train`. */
    method TrainEpochs(key: Key, start: nat, from: Snapshot) returns (ok: bool)
      requires items.Some? && start <= TargetEpochs(key) && from.epoch == start
      modifies this`dirs, this`fuel, this`metas
      ensures uninterrupted ==> ok
      ensures (items.value == ItemsFor(world, key) && from == SnapshotAt(world, key, start)
               && old(TrainedTo(world, V(), key, start))) ==>
        && CheckpointsFor(world, V(), key)
        && |metas| >= start
        && (ok ==> TrainedTo(world, V(), key, TargetEpochs(key)))
      ensures ok && start < key.config.epochs ==>
        dirs == (old(dirs) - {Staging, Retired})[Live := CompleteDir(world, Trained(from, items.value, key, TargetEpochs(key)))]
      ensures SameFinal(old(dirs), dirs)
    {
      hide CompleteDir, FinalDir, CeilDiv, ItemsFor, SnapshotAt, Lineage, Trained, Exposed;
      ghost var good := items.value == ItemsFor(world, key) && from == SnapshotAt(world, key, start)
        && TrainedTo(world, V(), key, start);
      TrainedStep(from, items.value, key, start);
      var base, trained, steps := from.base, from.trained, from.steps;
      var epoch := start;
      ok := true;
      while epoch < key.config.epochs
        invariant start <= epoch <= TargetEpochs(key) && ok
        invariant good ==> TrainedTo(world, V(), key, epoch)
        invariant good ==> Snapshot(base, trained, steps, epoch) == SnapshotAt(world, key, epoch)
        invariant SameFinal(old(dirs), dirs)
        invariant Snapshot(base, trained, steps, epoch) == Trained(from, items.value, key, epoch)
        invariant epoch == start ==> dirs == old(dirs)
        invariant epoch > start ==>
          dirs == (old(dirs) - {Staging, Retired})[Live := CompleteDir(world, Trained(from, items.value, key, epoch))]
      {
        ghost var was := dirs;
        var taken := EpochSteps(items.value.train, MICRO_BATCH, GRAD_ACCUM);
        NextSnapshot(world, key, epoch);
        TrainedStep(from, items.value, key, epoch);
        trained := trained + [Epoch(epoch, items.value, key)];
        steps := steps + taken;
        epoch := epoch + 1;
        ok := SaveCheckpoint(Snapshot(base, trained, steps, epoch));
        if !ok {
          return;
        }
        if epoch - 1 > start {
          SaveOverSave(old(dirs), was, CompleteDir(world, Trained(from, items.value, key, epoch - 1)),
                       CompleteDir(world, Trained(from, items.value, key, epoch)));
        }
      }
    }

    /** `stage_train`. From a valid directory it stays valid at every crash point, and a
        run that ends has run every epoch once, in order, with the scheduler steps
        `optimizer_steps` announces. A directory that already exposes enough epochs, from
        wherever they came, is only recovered. */
    method StageTrain(key: Key) returns (outcome: Outcome)
      modifies this`dirs, this`fuel, this`metas
      ensures uninterrupted ==> !outcome.Crashed?
      ensures old(items).Some? && ValidFor(world, old(V()), key) ==>
        && ValidFor(world, V(), key)
        && !outcome.Raised?
        && |metas| >= |old(metas)|
        && (outcome.Done? ==> TrainedTo(world, V(), key, TargetEpochs(key)))
      ensures Prepared() && AtTarget(old(dirs), key) ==> outcome.Done? && V() == old(V()) && fuel == old(fuel)
      ensures outcome.Done? ==> Prepared()
      ensures Prepared() && !outcome.Crashed? ==>
        AfterTraining(world, old(dirs), items.value, baseDir.value, key) == if outcome.Done? then Some(dirs) else None
    {
      hide SnapshotAt, Lineage, CompleteDir, FinalDir, OptimizerSteps, Durable, Trained;
      outcome := Raised;
      if baseConfig.None? || baseDir.None? || items.None? {
        return;
      }
      outcome := Crashed;
      var ok := RecoverCheckpoint();
      StillValid(world, old(V()), V(), key);
      if !ok {
        return;
      }
      RecoveredParts(old(dirs));
      if ValidFor(world, V(), key) {
        AfterRecovery(world, V(), key);
      }
      var start: nat := 0;
      if Live in dirs && Meta in dirs[Live] {
        start := dirs[Live][Meta].epoch;
      }
      if start >= key.config.epochs {
        outcome := Done;
        return;
      }
      var from := Snapshot(baseDir.value, [], 0, 0);
      if start > 0 {
        if Weights !in dirs[Live] || Trainer !in dirs[Live] {
          outcome := Raised;
          return;
        }
        from := Snapshot(dirs[Live][Weights].base, dirs[Live][Weights].trained, dirs[Live][Trainer].steps, start);
      }
      ok := TrainEpochs(key, start, from);
      if ok {
        outcome := Done;
      }
    }

    /** `stage_evaluate`. */
    method StageEvaluate(key: Key, st: State) returns (outcome: Outcome, st': State)
      modifies this`eval, this`fuel
      ensures uninterrupted ==> !outcome.Crashed?
      ensures st'.key == st.key && st'.items == st.items && st'.finalized == st.finalized
      ensures (ValidFor(world, old(V()), key) && old(items).Some? && TrainedTo(world, old(V()), key, TargetEpochs(key))) ==>
        && ValidFor(world, V(), key)
        && (TargetEpochs(key) > 0 ==> !outcome.Raised?)
      ensures Prepared() && outcome.Raised? ==> Live !in dirs || Weights !in dirs[Live]
      ensures outcome.Done? && st.evaluated.None? ==>
        && Prepared()
        && (items.value.heldOut == 0 ==> eval == old(eval) && st' == st)
        && (items.value.heldOut > 0 ==>
              && Live in dirs && Weights in dirs[Live]
              && eval == Some(Eval(dirs[Live][Weights].base, dirs[Live][Weights].trained, items.value))
              && st' == st.(evaluated := Some(key.config.epochs)))
      ensures outcome.Done? && items.Some? && items.value.heldOut > 0 ==> eval.Some? && st'.evaluated == Some(key.config.epochs)
      ensures (Prepared() && items.value.heldOut == 0) || (old(eval).Some? && st.evaluated == Some(key.config.epochs)) ==>
        outcome.Done? && st' == st && eval == old(eval) && fuel == old(fuel)
    {
      outcome, st' := Done, st;
      if eval.Some? && st.evaluated == Some(key.config.epochs) {
        return;
      }
      outcome := Raised;
      if baseConfig.None? || baseDir.None? || items.None? {
        return;
      }
      if items.value.heldOut == 0 {
        outcome := Done;
        return;
      }
      if Live !in dirs || Weights !in dirs[Live] {
        return;
      }
      var ok := Spend();
      if !ok {
        outcome := Crashed;
        return;
      }
      eval := Some(Eval(dirs[Live][Weights].base, dirs[Live][Weights].trained, items.value));
      outcome, st' := Done, st.(evaluated := Some(key.config.epochs));
    }

    /** `stage_finalize`: the configuration file is written last. */
    method StageFinalize(key: Key, st: State) returns (outcome: Outcome, st': State)
      modifies this`dirs, this`fuel
      ensures uninterrupted ==> !outcome.Crashed?
      ensures st'.key == st.key && st'.items == st.items && st'.evaluated == st.evaluated
      ensures dirs - {Final} == old(dirs) - {Final}
      ensures (ValidFor(world, old(V()), key) && old(items).Some? && TrainedTo(world, old(V()), key, TargetEpochs(key))) ==>
        && ValidFor(world, V(), key)
        && TrainedTo(world, V(), key, TargetEpochs(key))
        && (TargetEpochs(key) > 0 ==> !outcome.Raised?)
      ensures Prepared() && outcome.Raised? ==> Live !in old(dirs) || Weights !in old(dirs)[Live]
      ensures outcome.Done? ==> st' == st.(finalized := Some(key.config.epochs))
      ensures outcome.Done? ==> Final in dirs && Meta in dirs[Final]
      ensures Final in old(dirs) && Meta in old(dirs)[Final] && st.finalized == Some(key.config.epochs) ==>
        outcome.Done? && st' == st && dirs == old(dirs) && fuel == old(fuel)
      ensures outcome.Done? && st.finalized.None? ==>
        && Live in old(dirs) && Weights in old(dirs)[Live]
        && dirs == Converted(world, old(dirs), old(dirs)[Live][Weights])
    {
      hide Lineage, FinalDir, EvalFor, ItemsFor, OptimizerSteps;
      outcome, st' := Done, st;
      if Final in dirs && Meta in dirs[Final] && st.finalized == Some(key.config.epochs) {
        return;
      }
      outcome := Raised;
      if baseConfig.None? || baseDir.None? || items.None? || Live !in dirs || Weights !in dirs[Live] {
        return;
      }
      outcome := Crashed;
      var s := dirs[Live][Weights];
      var ok := WriteFinal(s);
      FinalAside(old(dirs), dirs);
      if !ok {
        return;
      }
      outcome, st' := Done, st.(finalized := Some(key.config.epochs));
    }

    /** The final model directory, file by file. */
    method WriteFinal(s: Snapshot) returns (ok: bool)
      modifies this`dirs, this`fuel
      ensures uninterrupted ==> ok
      ensures dirs - {Final} == old(dirs) - {Final}
      ensures ok ==> Meta in FinalDir(world, s) && dirs == Converted(world, old(dirs), s)
      ensures ValidFinal(world, old(dirs), s) ==> ValidFinal(world, dirs, s)
    {
      hide ValidFinal, FinalDir;
      if Final !in dirs {
        ok := MakeDir(Final);
        if !ok {
          return;
        }
        EmptyFinal(world, dirs, s);
      }
      FileInFinal(world, dirs, s);
      ok := WriteFile(Final, Weights, s);
      if !ok {
        return;
      }
      ghost var begun := dirs;
      ok := WriteExtras(Final, s);
      ExtrasInFinal(world, begun, dirs, s);
      if !ok {
        return;
      }
      MetaInFinal(world, begun, dirs, s);
      ok := WriteFile(Final, Meta, s);
      if ok {
        FinalWritten(world, old(dirs), dirs, s);
      }
    }

    // ------------------------------------------------------------ runs

    /** The start of `main`: wipe on request, load the state, discard what a changed corpus
        or configuration made stale. A preview discards and records nothing. */
    method Begin(cmd: Command) returns (ok: bool, st: Option<State>, preview: bool)
      modifies this`state, this`dataset, this`baseConfig, this`baseDir, this`items, this`eval, this`dirs, this`metas, this`fuel
      ensures uninterrupted ==> ok
      ensures cmd.wipe && !uninterrupted && old(fuel) < 4 ==> !ok && V() == FreshCut(old(V()), old(fuel))
      ensures ok && cmd.wipe ==> state.None? && dataset.None? && NoProgress(V()) && st.None? && !preview
      ensures cmd.wipe && !ok ==> V() == old(V()) || (state.None? && Leftover(old(V()), V()))
      ensures old(dirs == map[] ==> metas == []) ==> dirs == map[] ==> metas == []
      ensures !cmd.wipe ==> state == old(state) && dataset == old(dataset)
      ensures preview ==> cmd.dryRun && V() == old(V())
      ensures !cmd.wipe ==> preview == (cmd.dryRun && old(state).Some? && old(state).value.key != cmd.key)
      ensures ok && !cmd.wipe && !preview && state.Some? && state.value.key != cmd.key ==>
        st.None? && NoProgress(V())
      ensures ok && preview ==> st.None?
      ensures !cmd.wipe && (state.None? || state.value.key == cmd.key) ==>
        ok && V() == old(V()) && st == state && fuel == old(fuel)
    {
      preview := false;
      if cmd.wipe {
        ok := ClearState();
        st := None;
        if !ok {
          return;
        }
        ok := DiscardProgress();
        if !ok {
          return;
        }
      }
      ok := true;
      st := state;
      var changed := st.Some? && st.value.key != cmd.key;
      preview := changed && cmd.dryRun;
      if changed {
        if !preview {
          ok := DiscardProgress();
        }
        st := None;
      }
    }

    /** Train, evaluate and finalize. */
    method Learn(key: Key, st: State) returns (outcome: Outcome, st': State)
      modifies this`dirs, this`eval, this`metas, this`fuel
      ensures uninterrupted ==> !outcome.Crashed?
      ensures st'.key == st.key && st'.items == st.items
      ensures outcome.Done? ==> st'.finalized == Some(key.config.epochs)
      ensures (old(items).Some? && ValidFor(world, old(V()), key)) ==>
        && ValidFor(world, V(), key)
        && old(metas) <= metas
        && (outcome.Raised? ==> TargetEpochs(key) == 0)
        && (outcome.Done? ==> Complete(world, V(), key))
        && (outcome.Done? && ItemsFor(world, key).heldOut > 0 ==> st'.evaluated == Some(key.config.epochs))
      // with every stage done there is nothing to do
      ensures NothingLeft(old(V()), key, st) ==> outcome.Done? && st' == st && V() == old(V()) && fuel == old(fuel)
      ensures Prepared() && st.evaluated.None? && st.finalized.None? && !outcome.Crashed? ==>
        match AfterTraining(world, old(dirs), items.value, baseDir.value, key)
        case None => outcome.Raised?
        case Some(trained) =>
          if Live !in trained || Weights !in trained[Live] then outcome.Raised?
          else
            var s := trained[Live][Weights];
            && outcome.Done?
            && dirs == Converted(world, trained, s)
            && eval == (if items.value.heldOut == 0 then old(eval) else Some(Eval(s.base, s.trained, items.value)))
            && st' == st.(evaluated := if items.value.heldOut == 0 then None else Some(key.config.epochs),
                          finalized := Some(key.config.epochs))
    {
      hide SnapshotAt, Lineage, CompleteDir, FinalDir, EvalFor, ItemsFor, Durable, AfterTraining, Converted, Complete, AtTarget, ValidFinal;
      st' := st;
      outcome := StageTrain(key);
      LineagePrefix(world, key, |old(metas)|, |metas|);
      if !outcome.Done? {
        return;
      }
      ghost var trained := dirs;
      outcome, st' := StageEvaluate(key, st');
      if !outcome.Done? {
        return;
      }
      outcome, st' := StageFinalize(key, st');
      FinalAside(trained, dirs);
      if outcome.Done? && old(items).Some? {
        StagesComplete(world, V(), key);
      }
    }

    /** The stages after the state has recorded the run's key. */
    method Stages(key: Key, st: State, examples: Key) returns (outcome: Outcome)
      requires st.key == key
      modifies this`state, this`baseConfig, this`baseDir, this`items, this`dirs, this`eval, this`metas, this`fuel
      ensures uninterrupted ==> !outcome.Crashed?
      ensures (state.Some? && state.value.key == key) || state == old(state)
      ensures (examples == key && ValidFor(world, old(V()), key)) ==>
        && ValidFor(world, V(), key)
        && old(metas) <= metas
        && (outcome.Raised? ==> TargetEpochs(key) == 0)
        && (outcome.Done? && dataset == Some(key) ==> Finished(world, V(), key))
      ensures NothingLeft(old(V()), key, st) && old(state) == Some(st) ==>
        && !outcome.Raised? && V() == old(V())
        && (outcome.Done? <==> uninterrupted || old(fuel) >= 2)
      ensures examples == key && st == State(key, None, None, None) && dataset == Some(key) && world.labelled(key) > 0
              && !outcome.Crashed? ==>
        FromNothing(world, old(V()), key) == if outcome.Done? then Some(OnDisk(V())) else None
    {
      hide SnapshotAt, Lineage, CompleteDir, FinalDir, EvalFor, AfterTraining, Converted, ResumeEpoch, Exposed;
      outcome := StagePreprocess(key, st, examples);
      if !outcome.Done? {
        return;
      }
      var st' := st.(items := Some(key.corpus));
      StateAside(world, V(), Some(st'), key);
      var ok := SaveState(st');
      if !ok {
        outcome := Crashed;
        return;
      }
      outcome, st' := Learn(key, st');
      if !outcome.Done? {
        return;
      }
      StateAside(world, V(), Some(st'), key);
      ok := SaveState(st');
      if !ok {
        outcome := Crashed;
      }
    }

    /** What `main` does once stale progress is gone: export, record, and unless it is a dry
        run the remaining stages. */
    method Perform(key: Key, st: Option<State>, preview: bool, dryRun: bool) returns (outcome: Outcome)
      requires st.Some? ==> st.value.key == key
      requires preview ==> dryRun && st.None?
      modifies this`state, this`dataset, this`baseConfig, this`baseDir, this`items, this`eval, this`dirs, this`metas, this`fuel
      ensures uninterrupted ==> !outcome.Crashed?
      ensures outcome.Raised? && (preview || old(ReadyFor(st, key))) ==> world.labelled(key) == 0 || TargetEpochs(key) == 0
      ensures preview ==> V() == old(V())
      ensures !preview && old(ReadyFor(st, key)) ==>
        if state.Some? && state.value.key == key then ValidFor(world, V(), key) && old(metas) <= metas
        else state == old(state) && st.None? && !outcome.Done? && NoProgress(V())
      ensures !preview && outcome.Done? ==> state.Some? && state.value.key == key
      ensures !dryRun && outcome.Done? && old(ReadyFor(st, key)) ==> Finished(world, V(), key)
      ensures dryRun ==> items == old(items) && eval == old(eval) && dirs == old(dirs) && metas == old(metas)
      ensures !dryRun && st.Some? && old(state) == st && NothingToDo(old(V()), key) ==>
        && !outcome.Raised? && V() == old(V())
        && (outcome.Done? <==> uninterrupted || old(fuel) >= 3)
      ensures !dryRun && st.None? && !outcome.Crashed? ==>
        FromNothing(world, old(V()), key) == if outcome.Done? then Some(OnDisk(V())) else None
      ensures dataset == old(dataset) || (dataset == Some(key) && (st.None? ==> world.labelled(key) > 0))
      ensures outcome.Raised? && state == old(state) && st.None? && (state.Some? ==> state.value.key != key) ==>
        dataset == old(dataset) && world.labelled(key) == 0
    {
      hide CompleteDir, FinalDir, EvalFor, ItemsFor, Complete, ResumeEpoch, FromNothing, AtTarget;
      FromNothingReads(world, V(), V(), key);
      var examples;
      outcome, examples := StageExport(key, st, !preview);
      if !outcome.Done? {
        return;
      }
      if !preview {
        var recorded := if st.Some? then st.value else State(key, None, None, None);
        StateAside(world, V(), Some(recorded), key);
        var ok := SaveState(recorded);
        if !ok {
          return Crashed;
        }
        if !dryRun {
          FromNothingReads(world, V(), old(V()), key);
          outcome := Stages(key, recorded, examples);
        }
      }
    }

    /** The directory a run for `key` may build on: it recorded `key`, or it has no progress. */
    ghost predicate ReadyFor(st: Option<State>, key: Key)
      reads this
    {
      if st.Some? then state == st && ValidFor(world, V(), key)
      else NoProgress(V()) && (state.Some? ==> state.value.key != key)
    }

    /** One invocation of the script. `pending` is the last command when it did not complete. */
    method Invoke(cmd: Command, ghost pending: Option<Command>) returns (outcome: Outcome)
      modifies this`state, this`dataset, this`baseConfig, this`baseDir, this`items, this`eval, this`dirs, this`metas, this`fuel
      ensures uninterrupted ==> !outcome.Crashed?
      ensures Inv(world, old(V()), pending) && Repeats(cmd, pending, Stranded(old(state), old(items), old(eval), old(dirs))) ==>
        && Inv(world, V(), if outcome.Crashed? then Some(cmd) else None)
        && (outcome.Raised? ==> world.labelled(cmd.key) == 0 || TargetEpochs(cmd.key) == 0)
        && (outcome.Done? && !cmd.dryRun ==> Finished(world, V(), cmd.key))
      ensures outcome.Done? && !cmd.dryRun ==> state.Some? && state.value.key == cmd.key
      // re-running over the same corpus and configuration loses no committed epoch
      ensures (Clean(world, old(V())) && old(state).Some? && old(state).value.key == cmd.key && !cmd.wipe) ==>
        ValidFor(world, V(), cmd.key) && old(metas) <= metas
      // a dry run without --fresh never touches progress, whatever the directory holds; with --fresh it discards it
      ensures cmd.dryRun && !cmd.wipe ==>
        items == old(items) && eval == old(eval) && dirs == old(dirs) && metas == old(metas)
      ensures cmd.dryRun && !cmd.wipe && old(state).Some? && old(state).value.key != cmd.key ==> V() == old(V())
      ensures cmd.dryRun && cmd.wipe && !outcome.Crashed? ==> NoProgress(V())
      ensures cmd.dryRun && !outcome.Crashed? ==>
        ((items == old(items) && eval == old(eval) && dirs == old(dirs))
         <==> !cmd.wipe || (old(items).None? && old(eval).None? && old(dirs) == map[]))
      // a --fresh run killed before its key is recorded
      ensures cmd.wipe && !uninterrupted && old(fuel) < 4 ==> outcome.Crashed? && V() == FreshCut(old(V()), old(fuel))
      ensures cmd.wipe && outcome.Crashed? ==>
        || V() == old(V())
        || (state.None? && Leftover(old(V()), V()))
        || (state.Some? && state.value.key == cmd.key && ValidFor(world, V(), cmd.key))
      // a run that finds no state file
      ensures !cmd.wipe && !cmd.dryRun && old(state).None? && !outcome.Crashed? ==>
        FromNothing(world, old(V()), cmd.key) == if outcome.Done? then Some(OnDisk(V())) else None
    {
      hide ValidFor, FromNothing, Leftover;
      InvTracks(world, V(), pending);
      var ok, st, preview := Begin(cmd);
      if !ok {
        return Crashed;
      }
      outcome := Perform(cmd.key, st, preview, cmd.dryRun);
      NothingIsValid(world, old(V()), V());
    }

    /** Every history: any number of commands, each killed at any point or not at all, a
        command that was killed being repeated before another one is given. */
    method History(rounds: nat) returns (pending: Option<Command>)
      requires Clean(world, V())
      modifies this
      ensures Inv(world, V(), pending)
    {
      pending := None;
      var i := 0;
      while i < rounds
        invariant Inv(world, V(), pending)
      {
        var stranded := Stranded(state, items, eval, dirs);
        assert Repeats(if pending.Some? then pending.value.(wipe := true)
                       else Command(Key(0, Config("", 0, 0, 0, [], [])), false, false), pending, stranded);
        var cmd: Command :| Repeats(cmd, pending, stranded);
        var budget: nat :| true;
        fuel := budget;
        uninterrupted := *;
        var outcome := Invoke(cmd, pending);
        pending := if outcome.Crashed? then Some(cmd) else None;
        i := i + 1;
      }
    }

    /** One command killed any number of times, at any points, and then left to run: the
        directory it leaves is the finished one, whatever the crashes did. */
    method RunToTheEnd(cmd: Command, crashes: nat)
      requires Clean(world, V()) && !cmd.dryRun
      requires world.labelled(cmd.key) > 0 && TargetEpochs(cmd.key) > 0
      modifies this
      ensures Finished(world, V(), cmd.key)
    {
      var pending: Option<Command> := None;
      uninterrupted := false;
      var i := 0;
      while i < crashes
        invariant Inv(world, V(), pending) && (pending == None || pending == Some(cmd))
      {
        var budget: nat :| true;
        fuel := budget;
        var outcome := Invoke(cmd, pending);
        pending := if outcome.Crashed? then Some(cmd) else None;
        i := i + 1;
      }
      uninterrupted := true;
      var _ := Invoke(cmd, pending);
    }

    /** A finished run repeated, with a budget of file operations: three, the rewrites of its state
        file, are enough for it to end, so nothing is exported, prepared, trained, evaluated or
        converted again, and nothing on disk changes. */
    method RepeatIsIdle(key: Key, budget: nat) returns (outcome: Outcome)
      requires Finished(world, V(), key) && TargetEpochs(key) > 0
      modifies this
      ensures V() == old(V())
      ensures outcome.Done? <==> budget >= 3
    {
      FinishedLeavesNothing(world, V(), key);
      hide NothingLeft, FromNothing, ValidFor, Complete;
      uninterrupted, fuel := false, budget;
      var ok, st, preview := Begin(Command(key, false, false));
      outcome := Perform(key, st, preview, false);
    }

    /** A --fresh run killed at any point, then the same command without --fresh, left to run:
        it ends with the right files exactly when the killed run had recorded its state (or
        done nothing), or what it left is safe to build on. */
    method FreshThenPlain(key: Key, kill: nat) returns (ghost mid: View, outcome: Outcome)
      requires Clean(world, V()) && world.labelled(key) > 0 && TargetEpochs(key) > 0
      modifies this
      ensures mid.state.None? ==> Leftover(old(V()), mid)
      ensures outcome.Done? && Published(world, V(), key) <==> mid.state.Some? || SafeWithoutFresh(world, mid, key)
      // what that means for what the killed run left of a run for another key, or for the same
      ensures mid.state.None? && old(state).Some? ==>
        (SafeWithoutFresh(world, mid, key) <==>
           && (ResumeEpoch(mid.dirs) > 0 ==> old(state).value.key == key && StillUsable(world, mid.dirs, key))
           && (mid.eval.Some? && ItemsFor(world, key).heldOut == 0 ==> old(state).value.key == key))
    {
      hide Inv, Leftover, Published, SafeWithoutFresh, FromNothing, Finished, Stranded, ValidFor, ItemsFor, StillUsable;
      uninterrupted, fuel := false, kill;
      CleanIsInv(world, V(), None);
      var first := Invoke(Command(key, true, false), None);
      mid := V();
      LeftoverOfItself(mid);
      uninterrupted := true;
      if mid.state.Some? && first.Crashed? {
        CleanIsInv(world, mid, None);
      }
      outcome := Invoke(Command(key, false, false), None);
      FinishedIsPublished(world, V(), key);
      RightFromNothingIff(world, mid, key);
      PublishedOnDisk(world, V(), key);
      if mid.state.None? && old(state).Some? {
        LeftoverSafeIff(world, old(V()), mid, old(state).value.key, key);
      }
    }
  }

  /** The window --fresh leaves open: killed after the state file is gone but before the
      progress is, a --fresh run for `k2` that is then repeated without --fresh finishes with
      a model trained for `k1`. */
  method FreshWindow(w: World, k1: Key, k2: Key, killedAfter: nat) returns (run: RunDir)
    requires w.labelled(k1) > 0 && w.labelled(k2) > 0
    requires TargetEpochs(k1) > 0 && TargetEpochs(k1) >= k2.config.epochs && k1 != k2
    requires 1 <= killedAfter <= 3
    ensures run.state.Some? && run.state.value.key == k2
    ensures Final in run.dirs && Weights in run.dirs[Final]
    ensures run.dirs[Final][Weights] == SnapshotAt(w, k1, TargetEpochs(k1)) != SnapshotAt(w, k2, TargetEpochs(k2))
  {
    hide Inv, Finished, ValidFor, CheckpointsFor, ItemsFor, SnapshotAt, CompleteDir, FinalDir, FromNothing, Leftover;
    run := new RunDir(w);
    EmptyIsClean(w);
    run.uninterrupted := true;
    var _ := run.Invoke(Command(k1, false, false), None);
    run.uninterrupted, run.fuel := false, killedAfter;
    FinishedDir(w, run.V(), k1);
    var _ := run.Invoke(Command(k2, true, false), None);
    run.uninterrupted := true;
    KeptFromNothing(w, run.V(), k1, k2);
    var _ := run.Invoke(Command(k2, false, false), None);
    SnapshotsApart(w, k1, k2, TargetEpochs(k1), TargetEpochs(k2));
  }

  /** What the last three stages leave is complete. */
  lemma StagesComplete(w: World, v: View, key: Key)
    ensures ValidFor(w, v, key) && v.items.Some? ==> v.items == Some(ItemsFor(w, key))
    ensures
      (&& ValidFor(w, v, key) && TrainedTo(w, v, key, TargetEpochs(key))
       && v.items.Some? && (v.items.value.heldOut > 0 ==> v.eval.Some?)
       && Final in v.dirs && Meta in v.dirs[Final]) ==> Complete(w, v, key)
  {
  }

  lemma FinishedLeavesNothing(w: World, v: View, key: Key)
    requires Finished(w, v, key) && TargetEpochs(key) > 0
    ensures NothingToDo(v, key)
  {
    hide SnapshotAt, CompleteDir, EvalFor, ItemsFor, FinalDir, AtTarget;
    TrainedIsAtTarget(w, v, key);
    MetaOfFinal(w, SnapshotAt(w, key, TargetEpochs(key)));
  }

  lemma MetaOfFinal(w: World, s: Snapshot)
    ensures Meta in FinalDir(w, s)
  {
  }

  lemma TrainedIsAtTarget(w: World, v: View, key: Key)
    requires TrainedTo(w, v, key, TargetEpochs(key)) && TargetEpochs(key) > 0
    ensures AtTarget(v.dirs, key)
  {
    hide SnapshotAt;
    BaseOfSnapshot(w, key, TargetEpochs(key));
    CompleteDirParts(w, SnapshotAt(w, key, TargetEpochs(key)));
  }

  lemma FinishedDir(w: World, v: View, key: Key)
    requires Finished(w, v, key) && TargetEpochs(key) > 0
    ensures Exposed(v.dirs) == Some(CompleteDir(w, SnapshotAt(w, key, TargetEpochs(key))))
  {
  }

  /** Checkpoints of enough epochs, whosever they are, become the final model. */
  lemma KeptFromNothing(w: World, v: View, was: Key, key: Key)
    requires w.labelled(key) > 0 && TargetEpochs(was) >= key.config.epochs
    requires Exposed(v.dirs) == Some(CompleteDir(w, SnapshotAt(w, was, TargetEpochs(was))))
    ensures FromNothing(w, v, key).Some?
    ensures
      var dirs := FromNothing(w, v, key).value.dirs;
      Final in dirs && Weights in dirs[Final] && dirs[Final][Weights] == SnapshotAt(w, was, TargetEpochs(was))
  {
    hide SnapshotAt, Exposed, ItemsFor;
    BaseOfSnapshot(w, was, TargetEpochs(was));
    RecoveredParts(v.dirs);
  }

  /** A dry run promises to discard nothing. With --fresh it discards a finished run. */
  method FreshDryRunDiscards(w: World, key: Key) returns (run: RunDir, ghost before: View)
    requires w.labelled(key) > 0 && TargetEpochs(key) > 0
    ensures Finished(w, before, key) && NoProgress(run.V())
  {
    hide Clean, Inv, Finished, NoProgress, Repeats;
    run := new RunDir(w);
    EmptyIsClean(w);
    run.uninterrupted := true;
    var _ := run.Invoke(Command(key, false, false), None);
    before := run.V();
    var _ := run.Invoke(Command(key, true, true), None);
  }

  /** Recovery depends on the checkpoint directories only through what it exposes. */
  lemma RecoveredFromExposed(a: Dirs, b: Dirs)
    requires Exposed(a) == Exposed(b) && SameFinal(a, b)
    ensures Recovered(a) == Recovered(b)
  {
    forall x: Slot
      ensures x in Recovered(a) <==> x in Recovered(b)
      ensures x in Recovered(a) ==> Recovered(a)[x] == Recovered(b)[x]
    {
      match x
      case Live =>
      case Staging =>
      case Retired =>
      case Final =>
    }
  }

  /** Durability and lineage: once metadata i + 1 has been written, recovery exposes a
      checkpoint of at least that epoch, every file of it from one save, whose weights ran
      epochs 0, 1, ... once each in order, with as many scheduler steps as announced. */
  lemma DurableCheckpoint(w: World, v: View, key: Key, i: nat)
    requires CheckpointsFor(w, v, key) && i < |v.metas|
    ensures
      var after := Recovered(v.dirs);
      && Live in after && Staging !in after && Retired !in after
      && after[Live].Keys == {Weights, Trainer, Meta} + ExtraFiles(w.extras)
      && (forall f, g :: f in after[Live] && g in after[Live] ==> after[Live][f] == after[Live][g])
      && v.metas[i].epoch <= after[Live][Meta].epoch <= TargetEpochs(key)
      && |after[Live][Weights].trained| == after[Live][Meta].epoch
      && (forall j :: 0 <= j < after[Live][Meta].epoch ==>
            after[Live][Weights].trained[j] == Epoch(j, ItemsFor(w, key), key))
      && after[Live][Trainer].steps == OptimizerSteps(ItemsFor(w, key).train, after[Live][Meta].epoch)
  {
    assert Exposed(v.dirs) == Some(CompleteDir(w, SnapshotAt(w, key, |v.metas|)));
  }

  lemma RemnantOfPart(before: Dirs, after: Dirs, slot: Slot)
    ensures after == before - {slot} || (slot in before && PartlyRemoved(before, after, slot)) ==> Remnant(before, after)
  {
  }

  /** The directories after one more save are as if it had been the only one. */
  lemma SaveOverSave(first: Dirs, now: Dirs, dir: Dir, next: Dir)
    requires now == (first - {Staging, Retired})[Live := dir]
    ensures (now - {Staging, Retired})[Live := next] == (first - {Staging, Retired})[Live := next]
  {
  }

  lemma FinalWritten(w: World, before: Dirs, after: Dirs, s: Snapshot)
    requires Final in after && after - {Final} == before - {Final}
    requires after[Final] == ((if Final in before then before[Final] else map[])[Weights := s] + ExtraMap(w.extras, s))[Meta := s]
    ensures Meta in FinalDir(w, s) && after == Converted(w, before, s)
  {
    var dir := (if Final in before then before[Final] else map[]) + FinalDir(w, s);
    assert after[Final] == dir;
    assert after == (after - {Final})[Final := dir];
    assert before[Final := dir] == (before - {Final})[Final := dir];
  }

  lemma InvTracks(w: World, v: View, pending: Option<Command>)
    ensures Inv(w, v, pending) ==> v.dirs == map[] ==> v.metas == []
    ensures v.state.Some? && ValidFor(w, v, v.state.value.key) && v.dataset.Some? ==> v.dataset.value == v.state.value.key
  {
  }

  /** A directory without progress is a leftover of anything, and valid for its export's key. */
  lemma NothingIsValid(w: World, before: View, v: View)
    ensures NoProgress(v) ==> Leftover(before, v)
    ensures forall key :: NoProgress(v) && (v.dataset.Some? ==> v.dataset.value == key) ==> ValidFor(w, v, key)
  {
  }

  lemma CleanIsInv(w: World, v: View, pending: Option<Command>)
    requires Clean(w, v)
    ensures Inv(w, v, pending)
  {
  }

  lemma LeftoverOfItself(v: View)
    ensures Leftover(v, v)
  {
  }

  lemma PublishedOnDisk(w: World, v: View, key: Key)
    ensures Published(w, OnDisk(v), key) == Published(w, v, key)
  {
  }

  lemma FinishedIsPublished(w: World, v: View, key: Key)
    requires TargetEpochs(key) > 0
    ensures Finished(w, v, key) ==> Published(w, v, key)
  {
  }

  lemma EmptyIsClean(w: World)
    ensures
      var v := View(None, None, None, None, None, None, map[], []);
      Clean(w, v) && Inv(w, v, None) && forall cmd, stranded :: Repeats(cmd, None, stranded)
  {
  }

  lemma EmptyFinal(w: World, dirs: Dirs, s: Snapshot)
    requires Final in dirs && dirs[Final] == map[]
    ensures ValidFinal(w, dirs, s)
  {
  }

  lemma FileInFinal(w: World, dirs: Dirs, s: Snapshot)
    requires Final in dirs
    ensures ValidFinal(w, dirs, s) ==> ValidFinal(w, dirs[Final := dirs[Final][Weights := s]], s)
  {
  }

  /** Files of the snapshot over files of the snapshot, the configuration file not among them. */
  lemma ExtrasInFinal(w: World, before: Dirs, after: Dirs, s: Snapshot)
    requires Final in before && Final in after && before[Final].Keys <= after[Final].Keys
    requires forall f :: f in after[Final] ==>
      (f in before[Final] && after[Final][f] == before[Final][f]) || (f in ExtraFiles(w.extras) && after[Final][f] == s)
    ensures ValidFinal(w, before, s) ==> ValidFinal(w, after, s)
  {
    if ValidFinal(w, before, s) && Meta in after[Final] {
      assert after[Final].Keys == FinalDir(w, s).Keys;
    }
  }

  lemma MetaInFinal(w: World, begun: Dirs, dirs: Dirs, s: Snapshot)
    requires Final in begun && Weights in begun[Final] && Final in dirs
    requires dirs[Final] == begun[Final] + ExtraMap(w.extras, s)
    ensures ValidFinal(w, dirs, s) ==> ValidFinal(w, dirs[Final := dirs[Final][Meta := s]], s)
    ensures Weights in dirs[Final] && dirs[Final][Weights] == begun[Final][Weights]
  {
    if ValidFinal(w, dirs, s) {
      assert dirs[Final][Meta := s].Keys == FinalDir(w, s).Keys;
    }
  }

  /** A disk that differs only in the final model directory has the same checkpoints. */
  lemma FinalAside(before: Dirs, after: Dirs)
    requires after - {Final} == before - {Final}
    ensures Exposed(after) == Exposed(before)
    ensures forall x: Slot :: x != Final ==> (x in after <==> x in before) && (x in after ==> after[x] == before[x])
  {
    assert forall x: Slot :: x != Final ==> (x in before <==> x in before - {Final});
    assert forall x: Slot :: x != Final ==> (x in after <==> x in after - {Final});
  }

  /** Validity looks at the checkpoint directories only through what recovery exposes. */
  lemma StillValid(w: World, before: View, after: View, key: Key)
    requires after == before.(dirs := after.dirs)
    requires Exposed(after.dirs) == Exposed(before.dirs) && SameFinal(before.dirs, after.dirs)
    ensures ValidFor(w, before, key) ==> ValidFor(w, after, key)
  {
    hide SnapshotAt, Lineage, CompleteDir, FinalDir, Exposed;
  }

  /** A valid directory after recovery stands at the last epoch whose metadata was written,
      and the three files a resumed run reads are those of its snapshot. */
  lemma AfterRecovery(w: World, v: View, key: Key)
    requires ValidFor(w, v, key) && Staging !in v.dirs && Retired !in v.dirs
    ensures TrainedTo(w, v, key, |v.metas|)
    ensures |v.metas| == 0 ==> Live !in v.dirs && SnapshotAt(w, key, 0) == Snapshot(key.config.baseModel, [], 0, 0)
    ensures |v.metas| > 0 ==>
      && Live in v.dirs
      && var dir := v.dirs[Live];
         && Meta in dir && Weights in dir && Trainer in dir
         && dir[Meta].epoch == |v.metas|
         && Snapshot(dir[Weights].base, dir[Weights].trained, dir[Trainer].steps, |v.metas|)
            == SnapshotAt(w, key, |v.metas|)
  {
    if |v.metas| > 0 {
      assert v.metas[|v.metas| - 1] == SnapshotAt(w, key, |v.metas|);
    }
  }

  lemma NoSlotLeft(dirs: Dirs)
    requires Live !in dirs && Staging !in dirs && Retired !in dirs && Final !in dirs
    ensures dirs == map[]
  {
    forall slot: Slot
      ensures slot !in dirs
    {
      match slot
      case Live =>
      case Staging =>
      case Retired =>
      case Final =>
    }
  }

  lemma LineagePrefix(w: World, key: Key, n: nat, m: nat)
    ensures n <= m ==> Lineage(w, key, n) <= Lineage(w, key, m)
  {
  }

  function ExtraMap(extras: seq<string>, s: Snapshot): Dir {
    map f | f in ExtraFiles(extras) :: s
  }

  /** A disk that differs only in a staging directory without metadata exposes the same. */
  lemma StagingAside(before: Dirs, after: Dirs)
    requires after - {Staging} == before - {Staging}
    ensures SameFinal(before, after)
    ensures after - {Staging, Retired} == before - {Staging, Retired}
    ensures TornStaging(before) && TornStaging(after) ==> Exposed(after) == Exposed(before)
  {
    assert forall x: Slot :: x != Staging ==> (x in before <==> x in before - {Staging});
    assert forall x: Slot :: x != Staging ==> (x in after <==> x in after - {Staging});
    assert after - {Staging, Retired} == (after - {Staging}) - {Retired};
    assert before - {Staging, Retired} == (before - {Staging}) - {Retired};
  }

  lemma StagedFiles(w: World, s: Snapshot)
    ensures map[Weights := s, Trainer := s] + ExtraMap(w.extras, s) == CompleteDir(w, s) - {Meta}
    ensures (CompleteDir(w, s) - {Meta})[Meta := s] == CompleteDir(w, s)
  {
  }

  lemma ExtraMapStep(extras: seq<string>, i: nat, s: Snapshot)
    requires i < |extras|
    ensures ExtraMap(extras[..i + 1], s) == ExtraMap(extras[..i], s)[Extra(extras[i]) := s]
  {
    ExtraFilesStep(extras, i);
  }

  lemma RemovalStep(was: Dirs, now: Dirs, slot: Slot, f: File)
    requires PartlyRemoved(was, now, slot) && f in now[slot]
    ensures PartlyRemoved(was, now[slot := now[slot] - {f}], slot)
    ensures (now[slot] - {f}).Keys < now[slot].Keys
  {
    assert f !in now[slot] - {f};
  }

  lemma RemovalEnd(was: Dirs, now: Dirs, slot: Slot)
    requires PartlyRemoved(was, now, slot)
    ensures now - {slot} == was - {slot}
  {
  }

  lemma ExtraFilesStep(extras: seq<string>, i: nat)
    requires i < |extras|
    ensures ExtraFiles(extras[..i + 1]) == ExtraFiles(extras[..i]) + {Extra(extras[i])}
  {
    forall f | f in ExtraFiles(extras[..i]) + {Extra(extras[i])}
      ensures f in ExtraFiles(extras[..i + 1])
    {
      if f == Extra(extras[i]) {
        assert extras[..i + 1][i] == extras[i];
      } else {
        var j :| 0 <= j < i && f == Extra(extras[..i][j]);
        assert extras[..i + 1][j] == extras[..i][j];
      }
    }
  }
}
