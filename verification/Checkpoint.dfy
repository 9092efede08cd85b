/**
 The run directory of scripts/finetune_laya.py as a value: checkpoint directories,
 stage artifacts, and what each of them was derived from.

 A directory is a map from the files present to the snapshot each was written
 from. The three checkpoint names and the final model share one map of slots.
 */
module CheckpointModel {
  import opened Options

  datatype Config = Config(baseModel: string, epochs: int, seed: int, maxItems: int,
                           kinds: seq<string>, sources: seq<string>)

  /** What a run is asked to do: the corpus digest and the configuration signature. */
  datatype Key = Key(corpus: nat, config: Config)

  /** items.pt: the examples it tokenises, the arguments of the run that wrote it, its sizes. */
  datatype Items = Items(examples: Key, args: Key, train: nat, heldOut: nat)

  /** One pass over the training items. */
  datatype Epoch = Epoch(index: int, items: Items, args: Key)

  /** A model during training: base weights, epochs run on them in order, scheduler steps
      taken, and the epoch count its metadata records. */
  datatype Snapshot = Snapshot(base: string, trained: seq<Epoch>, steps: nat, epoch: nat)

  datatype Slot = Live | Staging | Retired | Final
  datatype File = Weights | Trainer | Extra(name: string) | Meta
  type Dir = map<File, Snapshot>
  type Dirs = map<Slot, Dir>

  /** What the model takes from outside: how many labelled rows and how many tokenised
      items a key yields, and the encoder and tokenizer files a checkpoint carries. */
  datatype World = World(labelled: Key -> nat, tokenised: (Key, Key) -> nat, extras: seq<string>)

  const MICRO_BATCH := 8
  const GRAD_ACCUM := 1

  function CeilDiv(n: nat, d: nat): nat
    requires d > 0
  {
    (n + d - 1) / d
  }

  /** `optimizer_steps`. */
  function OptimizerSteps(items: nat, epochs: nat): nat {
    CeilDiv(items, MICRO_BATCH * GRAD_ACCUM) * epochs
  }

  /** The held-out slice is one item in ten. */
  function SplitItems(examples: Key, args: Key, count: nat): Items {
    Items(examples, args, count - count / 10, count / 10)
  }

  /** The slice is a tenth, rounded down, and what is not held out is trained on. */
  lemma HeldOutIsATenth(examples: Key, args: Key, count: nat)
    ensures
      var items := SplitItems(examples, args, count);
      && items.train + items.heldOut == count
      && 10 * items.heldOut <= count < 10 * items.heldOut + 10
      && items.examples == examples && items.args == args
  {
  }

  /** An epoch takes one optimizer step for every eight items, the last of which may have fewer. */
  lemma StepsAreEights(items: nat, epochs: nat)
    ensures 8 * (OptimizerSteps(items, 1) - 1) < items <= 8 * OptimizerSteps(items, 1)
    ensures OptimizerSteps(items, epochs) == OptimizerSteps(items, 1) * epochs
  {
  }

  function ItemsFor(w: World, key: Key): Items {
    SplitItems(key, key, w.tokenised(key, key))
  }

  /** The snapshot a crash-free run for `key` has after `epochs` epochs. */
  function SnapshotAt(w: World, key: Key, epochs: nat): Snapshot {
    Snapshot(key.config.baseModel,
             seq(epochs, i => Epoch(i, ItemsFor(w, key), key)),
             OptimizerSteps(ItemsFor(w, key).train, epochs),
             epochs)
  }

  function ExtraFiles(extras: seq<string>): set<File> {
    set i | 0 <= i < |extras| :: Extra(extras[i])
  }

  /** A checkpoint directory every file of which comes from one save. */
  function CompleteDir(w: World, s: Snapshot): Dir {
    map f | f in {Weights, Trainer, Meta} + ExtraFiles(w.extras) :: s
  }

  /** The final model directory, converted from one snapshot. */
  function FinalDir(w: World, s: Snapshot): Dir {
    map f | f in {Weights, Meta} + ExtraFiles(w.extras) :: s
  }

  /** The checkpoint that recovery leaves live. */
  function Exposed(dirs: Dirs): Option<Dir> {
    if Staging in dirs && Meta in dirs[Staging] then Some(dirs[Staging])
    else if Live in dirs then Some(dirs[Live])
    else None
  }

  /** The directories after an uninterrupted recovery. */
  function Recovered(dirs: Dirs): Dirs {
    match Exposed(dirs)
    case None => dirs - {Staging, Retired}
    case Some(dir) => (dirs - {Staging, Retired})[Live := dir]
  }

  /** The outcome of a removal that stopped anywhere: some files of `slot` may be gone. */
  ghost predicate PartlyRemoved(before: Dirs, after: Dirs, slot: Slot) {
    && slot in before
    && after.Keys == before.Keys
    && (forall s :: s in before && s != slot ==> after[s] == before[s])
    && after[slot].Keys <= before[slot].Keys
    && (forall f :: f in after[slot] ==> after[slot][f] == before[slot][f])
  }

  ghost predicate SameFinal(before: Dirs, after: Dirs) {
    (Final in before <==> Final in after) && (Final in before ==> after[Final] == before[Final])
  }

  /** Why `stage_train` recovers before it saves: a save that starts over a complete
      staging directory begins by removing it, and a removal that stops after the weights
      leaves metadata that makes recovery promote a directory without weights. */
  lemma SavingOverACompleteStagingDirIsUnsafe(w: World, older: Snapshot, s: Snapshot)
    ensures
      var before: Dirs := map[Live := CompleteDir(w, older), Staging := CompleteDir(w, s)];
      exists after :: PartlyRemoved(before, after, Staging) && Exposed(after).Some? && Weights !in Exposed(after).value
  {
    var before: Dirs := map[Live := CompleteDir(w, older), Staging := CompleteDir(w, s)];
    var after := before[Staging := CompleteDir(w, s) - {Weights}];
    assert PartlyRemoved(before, after, Staging);
    assert Meta in after[Staging];
    assert Exposed(after) == Some(after[Staging]);
  }

  /** Removing a staging directory is safe exactly when it has no metadata: no way of
      stopping the removal changes what recovery exposes. */
  lemma StagingRemovalIsSafeIffTorn(dirs: Dirs)
    requires Staging in dirs
    requires Live in dirs ==> dirs[Live] != dirs[Staging]
    ensures Meta !in dirs[Staging]
       <==> forall after :: PartlyRemoved(dirs, after, Staging) ==> Exposed(after) == Exposed(dirs)
  {
    if Meta in dirs[Staging] {
      var after := dirs[Staging := dirs[Staging] - {Meta}];
      assert PartlyRemoved(dirs, after, Staging);
      assert Exposed(after) == if Live in dirs then Some(dirs[Live]) else None;
    } else {
      forall after | PartlyRemoved(dirs, after, Staging)
        ensures Exposed(after) == Exposed(dirs)
      {
        assert Live in dirs ==> after[Live] == dirs[Live];
      }
    }
  }

  /** Ceilings nest: batches of batches. */
  lemma NestedCeiling(n: nat, a: nat, b: nat)
    requires a > 0 && b > 0
    ensures a * b > 0
    ensures CeilDiv(CeilDiv(n, a), b) == CeilDiv(n, a * b)
  {
    MulPositive(a, b);
    var q: int := CeilDiv(n, a);
    var r: int := CeilDiv(q, b);
    CeilBounds(n, a);
    CeilBounds(q, b);
    MulMonotone(a, q, b * r);
    MulMonotone(a, b * (r - 1), q - 1);
    MulAssociates(a, b, r);
    MulAssociates(a, b, r - 1);
    CeilUnique(n, a * b, r);
  }

  lemma MulPositive(a: nat, b: nat)
    requires a > 0 && b > 0
    ensures a * b > 0
  {
  }

  lemma MulMonotone(a: nat, x: int, y: int)
    requires x <= y
    ensures a * x <= a * y
  {
  }

  lemma MulAssociates(a: int, b: int, c: int)
    ensures (a * b) * c == a * (b * c)
  {
  }

  lemma CeilBounds(n: nat, d: nat)
    requires d > 0
    ensures d * (CeilDiv(n, d) - 1) < n <= d * CeilDiv(n, d)
  {
    var m := n + d - 1;
    assert m == d * (m / d) + m % d;
    assert d * (m / d - 1) == d * (m / d) - d;
  }

  lemma CeilUnique(n: nat, d: nat, r: int)
    requires d > 0
    requires d * (r - 1) < n <= d * r
    ensures r == CeilDiv(n, d)
  {
    var m := n + d - 1;
    assert d * (r - 1) == d * r - d;
    QuotientUnique(m, d, r);
  }

  lemma QuotientUnique(m: int, d: nat, r: int)
    requires d > 0
    requires d * r <= m < d * r + d
    ensures m / d == r
  {
    var q := m / d;
    assert m == d * q + m % d;
    if q < r {
      MulMonotone(d, q + 1, r);
    } else if q > r {
      MulMonotone(d, r + 1, q);
    }
  }
}
