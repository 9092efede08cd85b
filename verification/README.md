# Verified models of the proxy's protocols and codecs

This project models five stateful or byte-level parts of the repository, and a smaller sixth, and
proves what they promise. `dafny verify dfyconfig.toml` checks all of it.

| part | files |
|---|---|
| crash-safe checkpoints and the resumable training pipeline | Checkpoint, RunDirectory, Finetune |
| XXH64 and the two rewrites that feed it | Words, XxHash, XxHashVectors, Preimage, PreimageOfBody |
| ClientHello parsing, JA3 and JA4 | Bytes, Text, TlsHello, Fingerprint, FingerprintReadBack |
| the pin registry: matching and scanning | Pins, PinSemantics, PinTokens, PinMatching, PinScan |
| the pin registry: what a write keeps, and which pins it is proved for | PinWrites, PinRoundTrip, PinRegistry, PinPatterns, PinClients, PinBetas, BetaList, PinExact |
| the shared drift branch, run state, header order | DriftBranch, RunState, HeaderOrder |
| the credential cache | Credentials |
| what the session probe keeps | Redaction, RedactionForms |

## How it is modelled

**Run directory.** `Finetune.RunDir` is an object whose fields are the files. Every file operation
asks `Spend` for one unit of `fuel`; without any left the process is dead and the method reports
`Crashed`. A claim about every `fuel` is a claim about every crash point. `uninterrupted` marks a
process that nobody kills, which gives the claims that a run ends. A rename and a single-file write
are atomic; removing a tree takes its entries in an arbitrary order. A model is what it was made
from: base weights, the epochs run on them, the scheduler steps taken. The ghost field `metas` is
the sequence of snapshots whose metadata was written since the progress was last discarded. Between
runs `Inv` holds: the directory is clean, or a killed `--fresh` run has left no state file, or a
killed run for another key has begun to discard the recorded progress.

**Hash.** Words are integers reduced modulo 2^64, and Python's bit operations are defined on
unbounded naturals bit by bit. The specification works on the list of stripes and the list of tail
units; the methods are the loops. The rotations, constants and the order of the lanes are settled by
the known answers in `XxHashVectors`.

**Parser.** `Parse` and its parts advance a position as the source does; `Read` consumes the
message from the front. MD5 and SHA-256 are parameters, so the characterisations are of the texts
they are given.

**Pins.** A template is literals with gaps between them: the value, a run up to a quote, or blanks.
`Fit` is the regular expression built from it, greedy and with backtracking. The proofs cut text
into maximal runs of the value's characters and single other characters, its tokens. The literals
around a value may reach into its run, as in `cc_version=<<V>>.")`: a `Frame` is what they cover of
it. A template may begin with a run that is the end of a longer one in the text. `ValidPin` asks
that each site can be told apart from the others' view of one run; `Clear` that the old and the
written value meet no literal they could complete or break. Both are proved for the registry.

**Concurrency.** The drift branch, the run state and the credential cache are state machines whose
steps are the atomic parts of the source's functions; other runs, people, `Invalidate`, the clock
and, for the run state, crashes act between any two of them. The claims hold on every trace.

## Where the code and its promises differ

- The module docstring and the comment at scripts/finetune_laya.py:735-737 say a dry run discards
  nothing. With `--fresh --dry-run` it does, because lines 719-722 come first
  (`FreshDryRunDiscards`); `Invoke` says exactly when a dry run keeps everything.
- `--fresh` removes state.json before the progress. Killed in between and repeated without
  `--fresh`, the guard at line 739 does not fire and an old model can be published under the new
  key (`FreshWindow`). `FreshThenPlain` says exactly when the repetition is right, for every point
  at which the first run can be killed, and `LeftoverSafeIff` what that means for the remains:
  in particular a repetition for the same key is right unless the checkpoint is half removed.
- `save_checkpoint` is only safe after a recovery
  (`SavingOverACompleteStagingDirIsUnsafe`); `stage_train` always recovers first.
- The rewrite before the hash is meant to drop a max_tokens field with its comma. When that comma
  is the end of the model value it goes with the value and the field stays
  (`CommaGoesWithTheValue`); `OneFieldLeaves` says exactly when a field leaves.
- `status` reports nothing due when there is no state and no client is installed, although no run
  ever happened; `NotDueMeansSeen` names this case.
- `command_ack` takes no lock. Overlapping a run it can put an older outcome back
  (`OverlappingAckHidesAFailure`); `FailureGoesUnnoticedIff` says exactly when a failure is missed.
- `write_pin` promises to refuse an ambiguous site before it writes. A template whose last literal
  holds another copy of the site passes that test, and the write then completes the copy
  (`CopyBreaks`, `NumbersBreak`); `AlwaysReadsBackIff` says exactly which values are written safely.
  No pin of the registry is of that kind (`RegistryRoundTrip`, `BetasRoundTrip`).
- A fetch in flight when `Invalidate` runs is stored afterwards
  (`InFlightFetchSurvivesInvalidation`).

## Model

| member | source | states |
|---|---|---|
| `Finetune.RunDir.RmTree` | scripts/finetune_laya.py:364-376 | removing a directory tree takes its entries one by one in any order; stopped anywhere, some entries of that tree are gone, the rest keep their content and no other directory changes |
| `Finetune.RunDir.CommitCheckpoint` | scripts/finetune_laya.py:364-376 | the swap leaves the staged directory live and no staging or retired one; with the metadata staged, stopping it at any point does not change which checkpoint recovery would expose; the final model is untouched |
| `Finetune.RunDir.RecoverCheckpoint` | scripts/finetune_laya.py:379-389 | from every disk state: wherever it stops, the checkpoint recovery exposes is the same as before; run to its end it leaves exactly that checkpoint and neither staging nor retired directory |
| `Finetune.RunDir.RecoverAfterCrashes` | scripts/finetune_laya.py:379-389 | recovery interrupted any number of times at arbitrary points and then once not interrupted leaves the directories one uninterrupted recovery would have left |
| `Finetune.RunDir.SaveCheckpoint` | scripts/finetune_laya.py:392-414 | a save is atomic: at every crash point recovery exposes the whole new checkpoint if its metadata was written, and otherwise the old one, provided no complete staging directory was lying there |
| `CheckpointModel.SavingOverACompleteStagingDirIsUnsafe` | scripts/finetune_laya.py:400-402 | without the preceding recovery a save can lose a complete staging directory half way: a disk where recovery then promotes a checkpoint without weights |
| `CheckpointModel.StagingRemovalIsSafeIffTorn` | scripts/finetune_laya.py:386-389 | discarding a staging directory is safe at every stopping point if and only if it has no metadata, which is the branch recovery takes |
| `Finetune.DurableCheckpoint` | scripts/finetune_laya.py:364-414 | once the metadata of an epoch is written, recovery exposes a checkpoint of at least that epoch, every file of it from one save, whose weights ran epochs 0, 1, ... once each in order, with the announced number of scheduler steps |
| `CheckpointModel.NestedCeiling` | scripts/finetune_laya.py:310-312 | micro-batches of a, grouped by b: the ceiling of a ceiling is the ceiling over a * b |
| `CheckpointModel.HeldOutIsATenth` | scripts/finetune_laya.py:268-273 | one item in ten is held out, rounded down, and the others are trained on |
| `CheckpointModel.StepsAreEights` | scripts/finetune_laya.py:310-312 | an epoch takes one optimizer step for every eight items, the last of which may have fewer |
| `RunDirectory.EpochSteps` | scripts/finetune_laya.py:470-514 | the batch loop steps the scheduler exactly ceil(n / (micro * accum)) times, for all positive micro-batch and accumulation sizes, the partial last batch included |
| `Finetune.AfterRecovery` | scripts/finetune_laya.py:427-457 | what a resumed run reads back from the live checkpoint (weights, trainer state, epoch) is the state a crash-free run has at the last epoch whose metadata was written |
| `Finetune.RunDir.TrainEpochs` | scripts/finetune_laya.py:459-525 | from a resumed state every epoch up to the target runs once, in order; at every crash point the checkpoints are those of a crash-free run |
| `Finetune.RunDir.StageTrain` | scripts/finetune_laya.py:417-525 | a valid directory stays valid at every crash point and loses no committed epoch; a stage that ends stands exactly at the requested epochs; checkpoints that already reach the target are only recovered |
| `Finetune.RunDir.StageExport` | scripts/finetune_laya.py:167-208 | the kept export is the one of this corpus; otherwise the export is made anew, and it fails only when no labelled row survives; a preview writes nothing |
| `Finetune.RunDir.StagePreprocess` | scripts/finetune_laya.py:247-276 | items kept or written derive from the export and the arguments of this run; the two base files exist before the items do, at every crash point |
| `Finetune.RunDir.StageEvaluate` | scripts/finetune_laya.py:559-597 | the evaluation written judges the checkpoint weights on the held-out items; it is skipped only when already done for these epochs or with nothing held out |
| `Finetune.RunDir.WriteFinal` | scripts/finetune_laya.py:674-687 | the configuration file comes last: at every crash point the final directory holds files of one snapshot, and all of them once the configuration is there |
| `Finetune.RunDir.StageFinalize` | scripts/finetune_laya.py:631-689 | the final model is the whole conversion of the trained checkpoint, no other directory changes |
| `Finetune.RunDir.DiscardProgress` | scripts/finetune_laya.py:143-147 | an uninterrupted discard leaves no progress artifact; stopped anywhere it leaves less of the same: the items and the evaluation are as before or gone, no file of any directory is new or changed, and the live directory goes first |
| `Finetune.RunDir.ClearState` | scripts/finetune_laya.py:719-721 | killed after n operations, exactly the first n of the four removals of --fresh have happened |
| `Finetune.RunDir.Begin` | scripts/finetune_laya.py:716-746 | a changed corpus or configuration discards all progress before anything else is recorded; a preview of such a change touches nothing |
| `Finetune.RunDir.Learn` | scripts/finetune_laya.py:768-770 | train, evaluate and finalize: valid at every crash point, no committed epoch lost, and complete for the key when they end |
| `Finetune.RunDir.Perform` | scripts/finetune_laya.py:748-773 | export, record and, unless dry, the stages: the recorded key is the one everything kept derives from; a dry run touches no progress |
| `Finetune.RunDir.Invoke` | scripts/finetune_laya.py:716-773 | one run of the script, killed anywhere: the invariant between runs holds again; an error is raised only for an empty export or no epochs, and a run that ends has the finished directory of its key; a dry run that is not killed keeps items, evaluation and directories if and only if it is not --fresh or there is nothing to lose; a killed --fresh run has done nothing, or removed state.json and left less of the same, or recorded its key over a valid directory; a run that finds no state file makes exactly what its checkpoints lead to |
| `Finetune.RunDir.History` | scripts/finetune_laya.py:716-773 | every history of commands, each killed at any point or not at all: what is kept derives from the recorded corpus and configuration, or a killed run has yet to finish its discard. Only a killed command is repeated, and only while state.json is gone and progress remains must the repetition be --fresh; a command that raised may be followed by any other |
| `Finetune.RunDir.RunToTheEnd` | scripts/finetune_laya.py:716-773 | one command killed any number of times and then left to run always ends, with exactly the checkpoint and the final model of a crash-free run |
| `Finetune.RunDir.RepeatIsIdle` | scripts/finetune_laya.py:716-773 | a finished run repeated performs no file operation of its stages and changes nothing, at whatever point it is killed; it ends exactly when the three writes of its record do |
| `Finetune.RunDir.FreshThenPlain` | scripts/finetune_laya.py:716-773 | a --fresh run killed at any point and repeated without --fresh ends with the right files if and only if the killed run left a state file, or no checkpoint of another run would be trusted, no stale evaluation survives because nothing is held out, and the final directory has no foreign file; in terms of the run before it: nothing is exposed, or the key was the same and the files to be read are still there |
| `RunDirectory.RightFromNothingIff` | scripts/finetune_laya.py:379-525 | from any directory without a state file, whatever is in it, a plain run ends with the right files if and only if that condition on the directory holds |
| `RunDirectory.LeftoverSafeIff` | scripts/finetune_laya.py:143-147 | which remains of a discard, stopped anywhere, are safe to run on: with another key none that still expose a checkpoint, with the same key those whose checkpoint still has the files that will be read |
| `Finetune.FreshWindow` | scripts/finetune_laya.py:719-739 | the window of --fresh at its worst: killed after state.json is gone but before the progress is, then repeated without --fresh, it ends with the new key recorded and a final model trained for the old one |
| `Finetune.FreshDryRunDiscards` | scripts/finetune_laya.py:719-722 | with --fresh a dry run discards a finished run |
| `Words.RotlSplits` | scripts/cc_billing.py:42-43 | the masked or of two shifts is a rotation: the top r bits land below the rest |
| `Words.RotlInjective` | scripts/cc_billing.py:42-43 | a rotation loses nothing |
| `Words.XorShiftInjective` | scripts/cc_billing.py:83-87 | x ^ (x >> s) determines x, at any width and any positive shift |
| `Words.UnitInverse` | scripts/cc_billing.py:46-53 | multiplying by an odd constant modulo 2^64 is undone by its inverse |
| `XxHash.Xxh64` | scripts/cc_billing.py:56-87 | the loops compute XXH64 as the algorithm description gives it on stripes and tail units, for every byte string and seed, with every intermediate below 2^64; that description is held to known answers by XxHashVectors |
| `XxHash.AbsorbStripes` | scripts/cc_billing.py:62-64 | the four-lane loop is the fold over the full stripes and stops where the tail starts |
| `XxHash.HashStripes` | scripts/cc_billing.py:60-67 | stripe fold and convergence of the four lanes; the rotations and the order of the lanes are pinned by LongDigest |
| `XxHash.HashTail` | scripts/cc_billing.py:71-82 | the three tail steps are one fold over the tail units |
| `XxHash.EveryByteOnce` | scripts/cc_billing.py:58-82 | stripes and tail units laid end to end are the input: every byte is consumed exactly once, in order |
| `XxHash.StirInjective` | scripts/cc_billing.py:71-82 | each tail step is injective in the state |
| `XxHash.ContributionInjective` | scripts/cc_billing.py:71-82 | different units of one size contribute differently |
| `XxHash.AvalancheInjective` | scripts/cc_billing.py:83-87 | two 64-bit words leave the final mix equal if and only if they were equal |
| `XxHash.ConsumeInjective` | scripts/cc_billing.py:71-82 | the same tail leads different states to different states |
| `XxHash.TailSeparates` | scripts/cc_billing.py:71-82 | tails that differ inside one unit end in different states, from any state |
| `XxHash.TailInjectivity` | scripts/cc_billing.py:56-87 | for any seed, two inputs of one length that differ inside exactly one unit after the last full stripe have different hashes |
| `XxHash.SeedInjectivity` | scripts/cc_billing.py:68-87 | on inputs shorter than a stripe, two seeds give one hash if and only if they agree modulo 2^64 |
| `XxHash.StripesSeparate` | scripts/cc_billing.py:62-64 | from any lanes, one stripe that differs, anywhere among equal ones, leaves different lanes, and an equal one the same |
| `XxHash.StripeInjectivity` | scripts/cc_billing.py:58-64 | two inputs that differ in one full stripe only, for any seed, leave different lanes |
| `XxHashVectors.EmptyDigest` | scripts/test_cc_billing.py:47 | the digest of the empty input is the published answer |
| `XxHashVectors.AbcDigest` | scripts/test_cc_billing.py:48 | so is that of abc, which takes the single-byte units |
| `XxHashVectors.LongDigest` | scripts/cc_billing.py:56-87 | the digest of the bytes 0 to 44 under the seed 0x4D659218E32A3268, which takes a stripe, the convergence of the lanes, and units of eight, four and one |
| `Preimage.FirstModelIsLeftmost` | scripts/cc_billing.py:90-96 | the model match taken is the leftmost, up to the next quote |
| `Preimage.WithModelKeepsFirst` | scripts/cc_billing.py:90-96 | replacing the first model value by any quote-free string leaves that match the first one |
| `Preimage.ModelIndependence` | scripts/cc_billing.py:94-96 | the hashed bytes do not depend on the first model value |
| `Preimage.FirstFieldIsLeftmost` | scripts/cc_billing.py:91-96 | the max_tokens match taken is the leftmost of either alternative |
| `PreimageOfBody.OneFieldLeaves` | scripts/cc_billing.py:90-96 | a max_tokens field leaves the body if and only if one with an adjacent comma survives the emptying of the model value: its name does not begin at the opening quote of the value, and if it begins at the closing quote it has a comma behind it; then exactly one leaves, the leftmost, with exactly one comma, and the rest is unchanged |
| `PreimageOfBody.CommaGoesWithTheValue` | scripts/cc_billing.py:90-96 | a field with an adjacent comma that stays: the comma before it ends the model value and goes with it |
| `PreimageOfBody.DigitsIndependence` | scripts/cc_billing.py:90-96 | the hashed bytes do not depend on the digits of the field they leave out |
| `PreimageOfBody.ModelEmptied` | scripts/cc_billing.py:90-96 | the first model name of a body, wherever it is, loses its value up to the next quote and nothing else changes |
| `PreimageOfBody.FieldWithCommaBehind` | scripts/cc_billing.py:91-96 | the first max_tokens name, with no comma before it, leaves with its digits and the comma behind them |
| `PreimageOfBody.FieldWithCommaBefore` | scripts/cc_billing.py:91-96 | with a comma before it, it leaves with that one, whatever stands behind |
| `TlsHello.UnpackU16s` | scripts/tls_hello.py:30-31 | a read of count 16-bit numbers fails exactly when the bytes are not there |
| `TlsHello.Parse` | scripts/tls_hello.py:22-42 | the position-advancing parser equals a reader that consumes the message from the front, on every byte string, errors included |
| `TlsHello.ParseVectors` | scripts/tls_hello.py:30-42 | the same for the part after the session identifier |
| `TlsHello.ParseExtensions` | scripts/tls_hello.py:36-41 | the extension loop terminates and collects what the reader collects, bodies cut short by the end of the data included |
| `TlsHello.RoundTrip` | scripts/tls_hello.py:22-42 | parsing the encoding of a well-formed hello (section 4.1.2 of RFC 8446), bare or in a record and with any trailing bytes, returns its ciphers and its ordered extensions |
| `TlsHello.ExtensionsRoundTrip` | scripts/tls_hello.py:34-41 | the extension block reads back as the list it encodes |
| `TlsHello.BlockReencodes` | scripts/tls_hello.py:36-41 | an extension block whose declared lengths add up re-encodes to the bytes it was read from |
| `TlsHello.AcceptedIsEncoding` | scripts/tls_hello.py:30-42 | whatever is accepted with an even cipher length and an exact block is the encoding of the two lists returned |
| `Fingerprint.ParseAlpn` | scripts/tls_hello.py:54-58 | the ALPN loop terminates and collects the names of the body, a name cut short included |
| `Fingerprint.CollectDetails` | scripts/tls_hello.py:50-67 | the collected details are those of the last extension of each kind, and a list of odd length is an error; which list goes where is DetailsReadBack |
| `Fingerprint.LookupDistinct` | scripts/tls_hello.py:51 | with distinct types, the lookup finds exactly the extension of that type |
| `FingerprintReadBack.DetailsReadBack` | scripts/tls_hello.py:50-67 | the details are what the extensions announce: with extensions of distinct types, the signature algorithms, groups, versions, point formats and names encoded in those numbered 13, 10, 43, 11 and 16 come back each in its place, and empty when the extension is absent |
| `FingerprintReadBack.FingerprintsOnTheWire` | scripts/tls_hello.py:105-112 | from the bytes of a well-formed hello to the texts of those announced lists |
| `FingerprintReadBack.SampleMessage` | scripts/tls_hello.py:22-42 | a message byte by byte, bare and in a record: which ciphers and extensions are read |
| `FingerprintReadBack.GreaseIff` | scripts/tls_hello.py:18-19 | the values left out are the sixteen of section 2 of RFC 8701 |
| `FingerprintReadBack.VersionCodes` | scripts/tls_hello.py:86-88 | the codes of the current versions: the highest offered that is not GREASE decides |
| `FingerprintReadBack.RecordedHead` | scripts/tls_hello.py:82-93 | the head of JA4 for every hello with the counts, version and protocol of the recorded client is the recorded t13d1713h1 |
| `FingerprintReadBack.SampleJa4String` | scripts/tls_hello.py:82-102 | a whole JA4 written out, with GREASE, unsorted ciphers and signature algorithms in their order |
| `FingerprintReadBack.SampleJa3` | scripts/tls_hello.py:70-79 | the whole JA3 text of the same hello |
| `Fingerprint.Ja3Characterisation` | scripts/tls_hello.py:70-79 | one JA3 text if and only if, GREASE aside, the ordered ciphers, extension types and groups agree and the point formats agree |
| `Fingerprint.SortedUnique` | scripts/tls_hello.py:98-99 | a sorted list is determined by its multiset |
| `Fingerprint.HashedTextInjective` | scripts/tls_hello.py:99-101 | extension types and signature algorithms can be told apart in the hashed text |
| `Fingerprint.HeadInjective` | scripts/tls_hello.py:92-93 | the fixed-width head determines each of its parts, counts up to the cap |
| `Fingerprint.Ja4Characterisation` | scripts/tls_hello.py:82-102 | one JA4 text if and only if version code, SNI presence, capped counts, ALPN code, multiset of non-GREASE ciphers, multiset of non-GREASE extension types other than SNI and ALPN, and signature-algorithm sequence agree |
| `Fingerprint.GreaseChangesNothing` | scripts/tls_hello.py:18-102 | a GREASE cipher and a GREASE extension (section 2 of RFC 8701) inserted anywhere change neither fingerprint nor the details |
| `Fingerprint.GreaseGroupInert` | scripts/tls_hello.py:76 | a GREASE group inserted anywhere does not change JA3 |
| `Fingerprint.PermutationChangesNothing` | scripts/tls_hello.py:82-102 | permuting ciphers, and extensions of distinct types, does not change JA4 |
| `Fingerprint.PermutedOnTheWire` | scripts/tls_hello.py:105-112 | the same from bytes to fingerprint: permuted encodings get the same JA4 and ALPN list or fail alike |
| `Pins.Tree.ReadPin` | scripts/client_drift.py:529-540 | reads succeed exactly when every site has its count of matches and all of them hold one value; the first failing site decides the error |
| `Pins.Tree.WritePin` | scripts/client_drift.py:543-562 | refuses, changing nothing, exactly when the value does not match or the sites do not read as one value; otherwise every site is substituted in turn and the changed paths are reported |
| `PinSemantics.MatchesIff` | scripts/client_drift.py:490-501 | a site matches at the front of a text if and only if some beginning of the text is the template with its gaps filled: a value of the pin, a run without quote or line feed, or blanks |
| `PinSemantics.MatchIsDescribed` | scripts/client_drift.py:490-501 | and the reported value is what fills the value gap there |
| `PinSemantics.GapIsLongest` | scripts/client_drift.py:490-501 | each gap takes the longest run that lets the rest match |
| `PinSemantics.LeftmostFirst` | scripts/client_drift.py:536 | the values found are that of the leftmost match and then those after its end |
| `PinSemantics.NoMatches` | scripts/client_drift.py:536 | none are found if and only if the template matches nowhere |
| `PinPatterns.VersionIff` | scripts/client_drift.py:475 | a version is three numbers with dots between them and nothing else |
| `PinPatterns.Ja4Iff` | scripts/client_drift.py:473 | a JA4 is one of three letters, nine letters or digits, and two groups of twelve lowercase hexadecimal digits |
| `PinMatching.FitsAlike` | scripts/client_drift.py:490-501 | the regular expression of a site, with its greedy gaps and its backtracking, matches at the front of a text exactly when the template matches its tokens, with the value in the same place |
| `PinScan.ScansAlike` | scripts/client_drift.py:529-558 | finding all matches in a text, and substituting in it, is finding and refilling value tokens |
| `PinWrites.OthersParallel` | scripts/client_drift.py:543-562 | where one site has written, another site of the file matches exactly where it matched |
| `PinWrites.OwnParallel` | scripts/client_drift.py:543-562 | a site that has written matches exactly where it matched |
| `PinRoundTrip.WriteThenRead` | scripts/client_drift.py:529-562 | after a write the pin reads as the written value, with every declared count, and every further substitution is idle, also when sites share files |
| `PinRoundTrip.OnlySpansChange` | scripts/client_drift.py:549-561 | token for token, the text after a write holds the value where some site matched, keeps the rest of that run, and is otherwise the text before |
| `PinRoundTrip.ReportedIffChanged` | scripts/client_drift.py:549-562 | a path is reported if and only if its text changed |
| `PinRoundTrip.WriteReadWrite` | scripts/client_drift.py:529-562 | through the methods: write, read back the value, and a second write reports and changes nothing |
| `PinClients.RegistryCovered` | scripts/client_drift.py:639-733 | each of the sixteen pins whose value is a run of characters is valid, and no value meets its literals |
| `PinClients.RegistryRoundTrip` | scripts/client_drift.py:529-733 | so for each of them, on every source tree and for every value it accepts, a write reads back, leaves nothing for a second one, changes values only and reports what it changed |
| `PinBetas.BetasRoundTrip` | scripts/client_drift.py:637-674 | for the seventeenth, whose value spans lines: names written read back and decode to themselves, a second write is idle, and writing the old value again restores the files |
| `PinBetas.NoNewMatch` | scripts/client_drift.py:670-672 | writing a beta list makes no match where there was none |
| `PinExact.AlwaysReadsBackIff` | scripts/client_drift.py:529-562 | for a site between two literals: a written value reads back from every text if and only if the literal after the value holds no copy of the site, whole or cut off behind the value, filled with it |
| `PinExact.CopyBreaks` | scripts/client_drift.py:543-562 | with such a copy, the text that goes wrong: it reads as one value before the write, and its first match still shows that value after it |
| `PinExact.NestedBreaks` | scripts/client_drift.py:543-562 | the same for every pattern and a template that repeats itself around a fixed value |
| `PinExact.NumbersBreak` | scripts/client_drift.py:543-562 | one input: 1 written over 5 in x5;x5;x1; reads as 5 |
| `PinExact.OneSiteReadsBack` | scripts/client_drift.py:529-562 | for a pin with one such site this is the round trip of the source tree |
| `BetaList.RoundTrip` | scripts/client_drift.py:670-674 | decoding the encoded beta list returns it, for non-empty names without quotes |
| `BetaList.TwoLines` | scripts/client_drift.py:670-674 | two names as they are written: a tab, quotes and a comma each, on lines of their own |
| `Fingerprint.FingerprintsTotal` | scripts/tls_hello.py:105-112 | on every byte string: fingerprints if and only if it parses and the three number lists are whole, otherwise an error, the type error only for another message type |
| `DriftBranch.StepKeepsInv` | scripts/client_drift.py:1210-1257 | every step of every party keeps the inspected tip free of hand commits relative to a base the remote has had |
| `DriftBranch.EveryRunKeepsInv` | scripts/client_drift.py:1210-1257 | the same over every interleaving of runs, people and base updates |
| `DriftBranch.NoHandCommitDiscarded` | scripts/client_drift.py:1240-1257 | a push that moves the branch drops no commit without the marker unless the base this run inspected the branch against has it, whatever happened between inspection and push; with no branch at the inspection, nothing is dropped |
| `DriftBranch.EveryBaseIsBehind` | scripts/client_drift.py:1210-1257 | while the base only fast-forwards, every base a run holds is reachable from the base as it is |
| `DriftBranch.NothingLostFromBranchOrBase` | scripts/client_drift.py:1240-1257 | so then what a push drops is reachable from the current base |
| `DriftBranch.HandCommitSurvives` | scripts/client_drift.py:1221-1257 | over a whole run in which no person moves the branch, a commit without the marker once on it stays on it or is in some value of the base |
| `DriftBranch.UnconditionalPushLoses` | scripts/client_drift.py:1256-1257 | the lease is needed: a reachable state from which an unconditional push loses a commit of a person |
| `DriftBranch.GoesOnIff` | scripts/client_drift.py:1221-1246 | a run with nothing in between goes on if and only if every commit the branch has and the base has not carries the marker; otherwise it gives up and changes nothing |
| `DriftBranch.UndisturbedRunPublishes` | scripts/client_drift.py:1240-1257 | a run with nothing in between ends with the branch at one new marked commit on the base, whether or not there was a branch |
| `DriftBranch.RunsPublishAgain` | scripts/client_drift.py:1210-1257 | from every reachable state whose branch has only marked commits beyond the base such a run exists, and it leaves a state of the same kind |
| `RunState.StepKeepsInv` | scripts/client_drift.py:1288-1293 | every step, an acknowledgement or a crash included, keeps the stored signature and outcome those of one completed run, in the file and in the shared temporary file |
| `RunState.EveryHistoryKeepsInv` | scripts/client_drift.py:1281-1472 | the same over every interleaving of runs, client updates, acknowledgements and crashes |
| `RunState.NotDueMeansSeen` | scripts/client_drift.py:1312-1326 | whenever nothing is due and runs are not disabled, a completed run started from the installed signatures and the stored outcome is of that run; the one exception is no state and no client; when a run is due is DueIff |
| `RunState.FailureGoesUnnoticedIff` | scripts/client_drift.py:1312-1326 | after the retry interval a failed or unpublished latest run is not due if and only if the file holds a success for the installed signatures, or there is neither file nor client |
| `RunState.DueIff` | scripts/client_drift.py:1312-1326 | over histories: when the last run stored its outcome, a run is due if and only if it is not disabled and either the installed signatures are not those of that run, or it failed or stayed local and ended more than six hours ago |
| `RunState.FirstRunIsDue` | scripts/client_drift.py:1312-1326 | without a state file a run is due if and only if it is not disabled and some client is installed |
| `RunState.ChangedClientIsDue` | scripts/client_drift.py:1312-1326 | whatever the state file holds, an installation may change and is then due |
| `RunState.UndisturbedRunStores` | scripts/client_drift.py:1415-1472 | a run with nothing in between stores the signatures of its start with its outcome and its end |
| `RunState.UndisturbedAckReports` | scripts/client_drift.py:1467-1472 | an acknowledgement with nothing in between marks the stored outcome reported and changes nothing else of it |
| `RunState.LatestOutcomeIsStored` | scripts/client_drift.py:1415-1472 | whatever happened before: once a run has completed, with nothing killed and no acknowledgement overlapping a run since it started, the stored outcome between runs is the latest, so a failure is retried |
| `RunState.OverlappingAckHidesAFailure` | scripts/client_drift.py:1467-1472 | an acknowledgement that loads before a failing run saves and writes after it puts the older success back, and the failure is never retried |
| `HeaderOrder.ChecksAgree` | scripts/client_drift.py:817-829 | with equal HTTP versions the two order checks accept the same pairs |
| `HeaderOrder.AcceptanceIsSymmetric` | scripts/diff_claude_code_identity.py:266-292 | which record is the baseline does not matter |
| `HeaderOrder.DriftIsFirst` | scripts/diff_claude_code_identity.py:287-292 | a reported drift names the first position at which the shared headers differ, and what each side has there |
| `HeaderOrder.KeepKeepsOrder` | scripts/diff_claude_code_identity.py:280-284 | keeping the shared names keeps which of two of them comes first |
| `HeaderOrder.AcceptedIffUnopposed` | scripts/diff_claude_code_identity.py:266-292 | for duplicate-free header lists the order is accepted if and only if no two shared names come in opposite orders |
| `HeaderOrder.CaseAndExtrasDoNotCount` | scripts/diff_claude_code_identity.py:266-292 | headers whose lowercased names agree position by position are accepted, whatever their case and values |
| `HeaderOrder.ExchangedIsReported` | scripts/diff_claude_code_identity.py:266-292 | two headers in the other order are reported with their names and position, under one HTTP version and not under two |
| `Credentials.CredentialResolver.Resolve` | internal/accounts/credentials.go:40-80 | uninterleaved, with the switch on the account source: a hit changes nothing, a failed fetch stores nothing, a successful one is stored under the account and always names an account |
| `Credentials.ResolveIsItsSteps` | internal/accounts/credentials.go:40-80 | that call is three steps of the state machine one after the other |
| `Credentials.StepKeepsInv` | internal/accounts/credentials.go:40-86 | every step of every interleaving keeps what is known of each entry and each call in progress |
| `Credentials.EveryRunKeepsInv` | internal/accounts/credentials.go:40-86 | the same over every run |
| `Credentials.HitIsSafe` | internal/accounts/credentials.go:40-117 | a hit returns what was stored under that email less than five minutes ago with no expiry or over a minute left; a manual or database credential is under four minutes old; nothing was fetched before the last invalidation unless that fetch was in flight |
| `Credentials.ServedIff` | internal/accounts/credentials.go:40-80 | a check right after a store is served that credential if and only if less than five minutes have passed and it has no expiry or over a minute left; otherwise it goes on to fetch |
| `Credentials.InFlightFetchSurvivesInvalidation` | internal/accounts/credentials.go:50-86 | the exception is real: an interleaving in which a hit returns what a fetch begun before the invalidation brought back |
| `Redaction.MaskPath` | scripts/mitm_cloud_session_probe.py:75-88 | the loop with its flag masks each segment, and all after git_proxy, and returns the names of the query; what a mask hides is MaskedPathHasNoId |
| `Redaction.NamesOfParts` | scripts/mitm_cloud_session_probe.py:87 | the names are sorted, each once, and those of the non-empty parts: the values of a query do not show |
| `Redaction.MaskSegmentIdempotent` | scripts/mitm_cloud_session_probe.py:62-72 | masking a masked segment changes nothing, and only git_proxy becomes git_proxy |
| `RedactionForms.MaskedIsNoId` | scripts/mitm_cloud_session_probe.py:38-72 | no masked segment looks like an identifier |
| `RedactionForms.MaskedPathHasNoId` | scripts/mitm_cloud_session_probe.py:75-88 | so no segment of a recorded path does, for every path |
| `RedactionForms.FormsAreMasked` | scripts/mitm_cloud_session_probe.py:38-72 | identifiers of the four forms, each written out part by part, are masked as that form |
| `RedactionForms.OnlyFormsAreMasked` | scripts/mitm_cloud_session_probe.py:38-72 | and what is of none of the forms is recorded as it is |
| `RedactionForms.PathsOfOneForm` | scripts/mitm_cloud_session_probe.py:75-88 | two paths whose segments differ only in identifiers of one form, and of one prefix, have one recorded form |
| `RedactionForms.RecordedParts` | scripts/mitm_cloud_session_probe.py:75-88 | the recorded names are those of the parts of the query, and the query plays no part in the masked path |
| `RedactionForms.ValuesDoNotShow` | scripts/mitm_cloud_session_probe.py:87 | queries that assign other values to the same names are recorded alike |
| `Redaction.MaskedSegments` | scripts/mitm_cloud_session_probe.py:75-88 | each segment is masked up to the first git_proxy and is {x} after it |
| `Redaction.AfterProxyOnlyTheCountShows` | scripts/mitm_cloud_session_probe.py:75-88 | two paths that agree up to and with the first git_proxy and have equally many segments have one masked form |
| `Redaction.MaskedPathIdempotent` | scripts/mitm_cloud_session_probe.py:75-88 | masking a masked path changes nothing and the number of segments is kept |
| `Redaction.SplitJoin` | scripts/mitm_cloud_session_probe.py:75-88 | splitting what was joined returns the segments |
| `Redaction.SortedKeysUnique` | scripts/mitm_cloud_session_probe.py:98-99 | the sorted key list is determined by the keys |
| `Redaction.SameShapeIffAlike` | scripts/mitm_cloud_session_probe.py:95-112 | two JSON values have one skeleton if and only if they differ only in strings that are not kept, in numbers, booleans, key order, items after the first, or below the depth limit |
| `RedactionForms.SkeletonIsDiscreet` | scripts/mitm_cloud_session_probe.py:91-112 | every string in a skeleton is a token of up to forty plain characters under one of the twelve enumeration keys and does not look like an identifier |
| `RedactionForms.TokensAreKept` | scripts/mitm_cloud_session_probe.py:91-112 | above the depth limit such a string is kept, and any other is not |

## Left out

- PinRoundTrip.WriteThenRead: templates with a gap behind the value, more than one value, a literal behind the value that ends in the value's class, or a value of no fixed length with no literal behind it are not covered; the registry has none of these.
- PinExact.AlwaysReadsBackIff: the exact condition is for a site without `<<X>>` or `<<S>>` parts that begins outside the value's class, has a literal behind the value and whose first literal holds no value; for other sites, and for sites that share a file, `Clear` is proved sufficient only.
- PinClients.RegistryCovered: `\d` is taken as ASCII digits.
- Pins.Tree.WritePin: the reported paths are a set, not the sorted list; files are values of a map and a write of one file is atomic.
- BetaList.RoundTrip: a name that is empty or holds a quote does not round-trip and is excluded; the pin pattern refuses both.
- XxHash.TailInjectivity: no claim on the hash for differences inside full stripes, whose lanes differ (`StripeInjectivity`) but converge into one word, or spread over several units, nor for the value cut to 20 bits, which can collide.
- Fingerprint.Ja4Characterisation: about the three texts before hashing; the truncated SHA-256 can collide.
- Fingerprint.PermutedOnTheWire: takes extensions of distinct types, as section 4.2 of RFC 8446 requires of a sender; with repeated types the last one wins and order matters.
- DriftBranch.NoHandCommitDiscarded: concludes with the base the run inspected, which a rewritten base need no longer have (`NothingLostFromBranchOrBase` for one that fast-forwards); `publish` is given as steps of a state machine rather than one method, because other parties act between them; the secret scan, the pull request and any git failure are the step that abandons a run.
- RunState.LatestOutcomeIsStored: `command_run` and `command_ack` are given as steps for the same reason; only signature, outcome, end time and the reported flag of the state are kept.
- Credentials.HitIsSafe: what the token file, the OAuth refresh and the database row answer is arbitrary, so nothing is said of OAuth, the token file or the database query; Go's time arithmetic does not overflow here.
- Redaction.SameShapeIffAlike: JSON numbers are integers; `\d` is taken as ASCII digits.
- HeaderOrder.ChecksAgree: `str.lower` is a parameter; the other checks of `compare_records` and `compare_headers`, and `header_map`, are single comparisons.
- Finetune.RunDir.Invoke: torn single-file writes, a removal that fails silently, power loss, an unreadable state.json and a failing download are outside the disk model; encoder and tokenizer files are a flat list of names.
- Training, evaluation and calibration numerics: an epoch is an opaque step, and equal corpora are taken to be equal digests.
- The billing header around the cch field, its 20-bit cut and the version suffix.
- The command-line tools under cmd, the generated code under gen, and the remaining scripts: input and output around the parts above, or single-branch checks.
