# A verified model of the clustr control plane

clustr provisions clusters: a server daemon (`clustr-serverd`) with a privileged helper and an agent on every node
(`clustr-clientd`). This project models the parts of it that carry state, crash and interleaving arguments, and proves
what they promise. `dafny verify dfyconfig.toml` checks everything.

| file | component |
|---|---|
| `AlertRules`, `AlertStore`, `AlertEngine`, `AlertTheorems` | alert rules, the `alerts` table with its cache, the evaluation tick, what a tick means |
| `AlertInterleaving` | `Fire` and `Resolve` as separate atomic steps of concurrent callers |
| `MailPool` | the dispatcher's bounded mail queue and its workers |
| `BundleRepo` | Slurm bundle install and rollback by renames, with a crash between any two steps |
| `ExportsMerge` | the merge of one NFS export into the text of `/etc/exports` |
| `FilePush`, `DestPaths` | config and Slurm pushes: back up, write, rename, apply, roll back, retry; where allowed destinations lead |
| `ObserverRegistry`, `ObserverBatch`, `ObserverRendering`, `ObserverCoalescer` | the reactive config observer: registry, debounce batch, render calls, the observer that joins them |
| `InstructionHash` | the canonical instruction list that is hashed |
| `ApiKeys` | API key lookup, rotation, revocation and sweeping |
| `ChrootMounts` | the chroot mount stack and its session |
| `JournalBatcher` | the journal batching loop |
| `ConsoleEscape` | the console escape detector and the stdin relay |
| `Order`, `Common` | the string order of Go's `<`; optional values, concatenation and the count of failed calls |

## How the model is built

Tables and directories are maps, channels and mount stacks are sequences, and objects that the program updates in place
are classes whose methods are proved against functions or predicates on values. Go maps are visited in any order.
Concurrent parts are state machines whose `After` gives the state of any list of steps, so a lemma about `After(steps)`
is about every interleaving.

Which database calls, file operations, mounts, sends and subprocesses succeed is an input: every object that makes such
calls holds a function from call number to outcome (`outcome`, `copyOk`, `mountOk`, `takes`, ...) that the program can
only read, and a counter of its calls. `Common.CountFailures` counts the failed ones. "No call fails" is the statement
that this count does not change (`Common.FailuresUnchangedIff`), so a program cannot meet a contract by claiming a
failure that did not happen; what is stated without that premise holds whatever fails. The methods of the alert engine
return in `seen` what the queries of a rule delivered, and say what happens to every key in terms of it. Where a failed operation may
leave a damaged file, its content is arbitrary.

What the program and its specification share (a comparison, a check, a printed line) is stated once more in terms of
fields and characters, in a theorem about the operation that uses it: `TickByOperator`, `NotifiesUnlessSilenced`,
`LessMeans`, `VisibleLinesKept`, `LatestExport`, `IntactFile`, `RenderedInPriorityOrder`, `IsRevocation` and others below.

Assumptions and findings:

- The label encoding is a pair of functions, and `AlertRules.Codec.Stable` (re-encoding a decoded encoding gives the
  encoding back) is the assumption on `labelsToJSON` that the engine needs; `AlertTheorems.UnstableKeyFiresAgain` shows
  that without it one group fires again on every tick.
- The exports merge is idempotent exactly for UUIDs. The verb admits only UUIDs, so the promise holds for the program.
- Two images share a file system id exactly when their first eight digits agree (or are all zero and all f), although
  the comment at `cmd/clustr-privhelper/nfs_export.go:37-44` wants one id per path.
- When the second heartbeat query fails, the engine takes the nodes that were never seen for online: it resolves their
  alerts and says so. An alert of an offline node is lost exactly when its node was not delivered.
- Renderings of two batches can overlap, although the comment at `internal/config/observer.go:151-154` promises that an
  earlier batch fires first; a plugin can then be left with the older state. The order holds exactly without overlap.
- The prefix checks on push destinations do not look at `..` components. An allowed destination stays below its directory
  exactly when no beginning of the rest of its path has more `..` components than names.
- An install that stops between promotion and marker, followed by a complete one, loses the last bundle that could be
  rolled back to. When a rollback target survives any number of installs is stated exactly.
- If there is no live directory and the rename of a rollback fails, the attempt to undo it makes a trash left from the
  same second live.
- Installing under a time stamp that is not later than an existing archive prunes the bundle that was just archived.
- A rollback restores the content of a destination exactly when it existed before the push (and its mode exactly when
  that was the mode of the push); a new file gets the content of a leftover backup, or stays as pushed.
- The comments of the observer promise a 50 ms window. `Reset` on a timer whose callback has already started leaves a
  second armed timer behind, and a later batch can then fire before its window ends. The exact condition is proved for
  every continuation.
- A rollback in the second of an earlier one whose trash is still there does nothing but report an error.
- A key is revoked, and expired keys are swept, even when the call fails only in reading the number of changed rows.
- The count of active keys and the lookup disagree on a key that expires at the very second of the question.
- An escape pair that starts with a line break (and is not a doubled one) is missed after two line breaks.

## Model

| member | source | states |
|---|---|---|
| AlertRules.Rule.EffectiveHostRole | internal/alerts/rule.go:136-145 | the three known roles are kept, and anything else means cluster node |
| AlertStore.ScanFiring | internal/alerts/state.go:108-141 | a scan of the firing rows in any order caches, for every key with a firing row and no other, one firing row of that key |
| AlertStore.CacheIsDeterminedByTable | internal/alerts/state.go:92-150 | whenever the cache is exact, every scan rebuilds the same key-to-id map, whatever the row order |
| AlertStore.StateStore.LoadActive | internal/alerts/state.go:97-150 | on success the cache is a scan of the table; on failure it keeps its value |
| AlertStore.StateStore.Restart | internal/alerts/state.go:79-90 | losing the cache and loading it again keeps all invariants, and without failures gives back the same cache |
| AlertStore.StateStore.Fire | internal/alerts/state.go:166-209 | the whole new state; a failed insert, and only that, changes nothing; firing an inactive key keeps exactness and the alternation of transitions |
| AlertStore.StateStore.Resolve | internal/alerts/state.go:215-237 | an active key leaves the cache in any case; its row is resolved exactly if the update succeeds, and returned exactly if the read after it succeeds too; an inactive key changes nothing |
| AlertStore.StateStore.UpdateLastValue | internal/alerts/state.go:242-255 | exactly the last value of the key's own row changes if the call succeeds, else nothing |
| AlertStore.StateStore.ActiveKeys | internal/alerts/state.go:313-321 | the snapshot holds exactly the active keys |
| AlertEngine.GroupOfMembers | internal/alerts/engine.go:608-615 | a label group holds exactly the rows with its encoding |
| AlertEngine.GroupByLabels | internal/alerts/engine.go:608-615 | the map has exactly the encodings of the rows as keys, and every group is its rows in order and not empty |
| AlertEngine.MovedCompose | internal/alerts/engine.go:378-467 | the effects of evaluating disjoint scopes compose: cache, table, and which notices were sent |
| AlertEngine.Engine.CheckSilence | internal/alerts/engine.go:95-106 | silenced exactly if the check succeeds and a silence covers the key; a failed check counts as not silenced |
| AlertEngine.Engine.FireKey | internal/alerts/engine.go:428-440 | the key fires exactly if the insert succeeds, and is then announced exactly unless a successful check finds it silenced |
| AlertEngine.Engine.ResolveKey | internal/alerts/engine.go:446-459 | an active key becomes inactive; a notice goes out exactly if both calls succeed, silenced or not |
| AlertEngine.Engine.EvaluateGroup | internal/alerts/engine.go:398-461 | a group with non-matching labels changes nothing; otherwise, whatever fails, its key stays or becomes inactive if some sample does not satisfy the threshold, and else stays active or fires unless a call fails; the alert's row records the last sample unless the first call fails |
| AlertEngine.Engine.EvaluateNode | internal/alerts/engine.go:379-462 | a failed query changes nothing; otherwise exactly the keys of the node's matching groups are decided, in any group order |
| AlertEngine.Engine.ResolveStale | internal/alerts/engine.go:472-506 | turns off exactly the rule's keys on nodes outside the window |
| AlertEngine.Engine.EvaluateRuleAllNodes | internal/alerts/engine.go:336-468 | a failed node query changes nothing; otherwise the rule decides exactly the keys of its scope from the nodes and samples delivered, in any node order, and a node whose query failed keeps its keys; nothing is missing from what was delivered unless a call failed |
| AlertEngine.Engine.EvaluateOfflineRule | internal/alerts/engine.go:511-602 | the same for the node-offline rule: a failed first query changes nothing, and after a failed second one no node counts as never seen |
| AlertEngine.Engine.EvaluateRule | internal/alerts/engine.go:309-331 | the same for every rule; an offline rule for another role does nothing |
| AlertEngine.RuleScopeFacts | internal/alerts/engine.go:303-305 | a rule decides only keys of its own name, and evaluating other rules does not change which |
| AlertEngine.Engine.Evaluate | internal/alerts/engine.go:293-306 | whatever fails, every key ends as its rule, and only its rule, decides from what its queries delivered, each notice reports a transition, no key is reported twice, and a key that starts firing without a silence is reported; if no call of the tick fails that is exactly the expected state, and the notices are exactly those of the transitions, less the silenced ones |
| AlertEngine.OncePerRowKept | internal/alerts/engine.go:427-459 | a tick never announces a row that was announced before |
| AlertEngine.KeepFirstIsUnique | internal/alerts/engine.go:199-224 | loaded rule names are unique, and every name in the files is loaded |
| AlertEngine.KeepFirstMeans | internal/alerts/engine.go:215-223 | a rule is loaded exactly if no rule before it has its name |
| AlertEngine.KeepFirstKeepsOrder | internal/alerts/engine.go:209-224 | rules are loaded in the order of the files |
| AlertEngine.LoadRules | internal/alerts/engine.go:199-224 | the loaded rules are the first of every name over all well-formed files |
| AlertEngine.Engine.Reload | internal/alerts/engine.go:154-232 | an unreadable directory or the recorded files with their recorded times change nothing; otherwise rules and times are those of the listing, with unique names |
| AlertEngine.Engine.Run | internal/alerts/engine.go:110-132 | over every run of ticks, reloads and restarts: no row is announced twice, and if no call failed every key has at most one firing row, the cache is exact and transitions alternate |
| AlertTheorems.RuleTick | internal/alerts/engine.go:336-506 | after one rule: its keys on nodes outside the window are off, keys of present matching groups follow their samples, every other key is unchanged |
| AlertTheorems.RuleMovesForAReason | internal/alerts/engine.go:363-467 | whatever fails, a key moves only if its node is missing from the delivered list, and then off, or if its group was delivered, and then as its samples say |
| AlertTheorems.RuleTickOverTables | internal/alerts/engine.go:319-467 | the same in terms of the sample table, roles and window; the rows seen are all those of the window if there are at most 10000 |
| AlertTheorems.SelectIsAFilter | internal/db/node_stats.go:110-150 | the samples of a node in a rule's window are selected one by one, by node, plugin, sensor and time, in table order |
| AlertTheorems.TickByOperator | internal/alerts/rule.go:198-232 | after a tick over the tables, operator by operator: a reporting node's matching group is on exactly if each of its samples is greater, not less, less, not greater, equal or unequal to the threshold value; unknown operators never turn a key on; roles, window, row limit and label patterns are spelled out |
| AlertTheorems.TickIsRuleTick | internal/alerts/engine.go:293-306 | what a tick decides about a key is what the rule of its name decides over the tables |
| AlertTheorems.NotifiesUnlessSilenced | internal/alerts/silence.go:99-115 | in a tick without a failed call a firing key is announced exactly if no silence row names its rule, its node or every node, and is without end or ends later; a resolution always is; other keys never are |
| AlertTheorems.OfflineTick | internal/alerts/engine.go:511-602 | after the offline rule: the unlabelled keys of offline nodes are on, the rule's keys on other nodes are off |
| AlertTheorems.OfflineTickOverTables | internal/alerts/engine.go:511-547 | the same in terms of heartbeats, roles and the cutoff with its 120 s default |
| AlertTheorems.OfflineAlertLostIff | internal/alerts/engine.go:519-601 | whatever fails, an alert of the offline rule ends off exactly if its node is not among those delivered; after a failed second query that is every node that was never seen |
| AlertTheorems.UnstableKeyFiresAgain | internal/alerts/state.go:166-193 | a group key that does not re-encode to itself stays inactive after firing, and firing again breaks uniqueness |
| AlertTheorems.OneFiringRowPerKey | internal/alerts/state.go:68-77 | in a failure-free store a key has at most one firing row and is cached exactly if it has one |
| AlertTheorems.TransitionsAlternate | internal/alerts/state.go:166-237 | in a failure-free store a fired row of a key is followed by the clearing of that very row, and a clearing by a firing |
| AlertTheorems.FirstTransitionFires | internal/alerts/state.go:166-209 | the first transition of a key fires it |
| AlertInterleaving.InvKept | internal/alerts/state.go:166-237 | every atomic step of any caller keeps: cached and held row ids name firing rows of their key and have one holder |
| AlertInterleaving.ClaimedOnceKept | internal/alerts/state.go:215-224 | every step keeps: a claimed row is out of reach of the cache and of other claims, and what a `Resolve` call holds is claimed |
| AlertInterleaving.CachedRowsFire | internal/alerts/state.go:166-237 | in every interleaving with any failures and crashes a cached entry names a row still firing under the same key, and no activation is claimed by two `Resolve` calls of one process |
| AlertInterleaving.CacheLagsByOneKey | internal/alerts/state.go:166-237 | with the engine as only writer and no failures, cached and firing keys differ by at most the key in flight, and a key has at most one firing row |
| MailPool.EveryJobHasOneFate | internal/alerts/dispatch.go:71-195 | in every schedule a job is exactly one of dropped, queued, taken by one worker; jobs leave in the order of acceptance; the queue stays within 256 |
| MailPool.DroppedIffFull | internal/alerts/dispatch.go:186-193 | after any schedule the next job is dropped exactly if 256 jobs wait, and else waits last |
| MailPool.WorkerGetsTheFirst | internal/alerts/dispatch.go:71-79 | after any schedule a worker takes the job that waited longest |
| MailPool.OfferKeepsValid | internal/alerts/dispatch.go:186-193 | a non-blocking send keeps the ledger of fates |
| MailPool.TakeKeepsValid | internal/alerts/dispatch.go:71-79 | a receive keeps the ledger of fates |
| MailPool.Dispatcher.Dispatch | internal/alerts/dispatch.go:137-195 | webhook and mail effects: mail is skipped without recipients or mailer, queued if there is room, else dropped |
| MailPool.Dispatcher.Receive | internal/alerts/dispatch.go:71-98 | a worker takes the head of the queue and nothing else |
| BundleRepo.Repo.PruneOldPreviousDirs | cmd/clustr-serverd/bundle.go:750-772 | only archives other than the greatest-named one are ever damaged, at every step; if no operation of the call fails exactly that one stays, which for time stamps is the one with the greater digit where it first differs from any other |
| Order.LessMeans | cmd/clustr-serverd/bundle.go:766 | a name is less exactly if it is a proper beginning, or has the smaller character at the first difference |
| BundleRepo.LaterIffLess | cmd/clustr-serverd/bundle.go:300 | for names of one length that is the order of time stamps |
| BundleRepo.LaterIsFresher | cmd/clustr-serverd/bundle.go:300 | a free stamp later than all archives is fresher |
| BundleRepo.LatestIsKept | cmd/clustr-serverd/bundle.go:750-772 | pruning keeps the archive with the latest stamp and removes every other |
| BundleRepo.ArchiveIsNewest | cmd/clustr-serverd/bundle.go:299-306 | archiving under a later stamp makes the old bundle the greatest-named archive, and no pruning or promotion afterwards can take it away |
| BundleRepo.Repo.Install | cmd/clustr-serverd/bundle.go:282-342 | at every point between steps, whatever fails, the directory is at one of the described stages, and with a later stamp the bundle live at the start is intact at the live path or in the archive of that stamp, and no archive is later; the report of success means that the new bundle is live with its marker; if no operation fails the result is exactly the described one, an error only when the stamp is taken; the same checksum installs nothing |
| BundleRepo.ArchiveSurvivesIffFresher | cmd/clustr-serverd/bundle.go:299-306 | the archive survives its own install exactly if its stamp is later than every archive |
| BundleRepo.InstallIsReversible | cmd/clustr-serverd/bundle.go:293-342 | after a complete install over a complete bundle, that bundle is the only archive |
| BundleRepo.InstallThenRollback | cmd/clustr-serverd/bundle.go:293-417 | install, then rollback: exactly the old directory, without any archive |
| BundleRepo.TargetAfterInstallPoint | cmd/clustr-serverd/bundle.go:298-342 | after an install broken off anywhere the rollback target is the bundle just archived, if its marker can be read, and the former one if none was archived |
| BundleRepo.RollbackTargetIs | cmd/clustr-serverd/bundle.go:369-396 | the rollback goes to the archive with the latest stamp, and back to `<distro>-<arch>` of its marker, if that has a distribution |
| BundleRepo.TargetAfterInstallIff | cmd/clustr-serverd/bundle.go:298-342 | a complete install can be rolled back exactly if the marker of the bundle it replaced can be read |
| BundleRepo.TargetSurvivesIff | cmd/clustr-serverd/bundle.go:298-394 | over any number of installs, complete or not, a rollback target exists exactly if the last archived bundle had a readable marker, or none was archived and there was one at the start |
| BundleRepo.MarkerlessBundleLosesTheTarget | cmd/clustr-serverd/bundle.go:305-342 | two installs, the first one stopped before its marker, after which nothing can be rolled back to |
| BundleRepo.Repo.Rollback | cmd/clustr-serverd/bundle.go:363-417 | success exactly if the renames succeed, and then the greatest-named archive is live; after a failure exactly what is left, the old bundle put back if the renames back and forth succeed; at every point a bundle that can be rolled back to stays so, and a call in which no operation fails, after any number of broken ones, ends with it live |
| ExportsMerge.SplitOfJoin | cmd/clustr-privhelper/nfs_export.go:223 | splitting joined lines gives the lines back |
| ExportsMerge.ExtractOfExportLine | cmd/clustr-privhelper/nfs_export.go:294-315 | the image id is read back from the line built for it |
| ExportsMerge.FsidsAgreeIff | cmd/clustr-privhelper/nfs_export.go:279-291 | exactly when two images get the same file system id |
| ExportsMerge.UUIDMeans | cmd/clustr-privhelper/nfs_export.go:310-313 | which 36 characters make an image id |
| ExportsMerge.FsidMeans | cmd/clustr-privhelper/nfs_export.go:277-291 | the file system id is the number that the first eight hex digits spell, modulo 4294967295 |
| ExportsMerge.FsidOfTheExample | cmd/clustr-privhelper/nfs_export.go:37-41 | the example of the package comment |
| ExportsMerge.DecimalMeans | cmd/clustr-privhelper/nfs_export.go:217 | a number is printed as the decimal digits that spell it, without leading zeros |
| ExportsMerge.FirstExport | cmd/clustr-privhelper/nfs_export.go:26-33 | the whole text of a merge into an empty file, anchors and export line included |
| ExportsMerge.BuildExportsContent | cmd/clustr-privhelper/nfs_export.go:210-275 | the one-pass program with its string builder computes the merge function, errors included |
| ExportsMerge.ScanOfPrint | cmd/clustr-privhelper/nfs_export.go:223-272 | parsing a printed document gives it back up to the two empty lines that printing adds |
| ExportsMerge.ParseOfMerge | cmd/clustr-privhelper/nfs_export.go:210-275 | a merged text parses to the old document with the image's lines replaced by one new line, for every input text |
| ExportsMerge.IdempotentIffUUID | cmd/clustr-privhelper/nfs_export.go:210-275 | on every text, merging twice equals merging once exactly if the id is a UUID |
| ExportsMerge.OperatorLinesKept | cmd/clustr-privhelper/nfs_export.go:205-209 | the non-blank lines outside the block never change, nor does their order |
| ExportsMerge.VisibleLinesKept | cmd/clustr-privhelper/nfs_export.go:205-275 | the lines outside the block that have a printing character never change, nor does their order |
| ExportsMerge.VisibleLinesKeptByAll | cmd/clustr-privhelper/nfs_export.go:205-275 | the same over any sequence of merges |
| ExportsMerge.WhiteSpaceGoes | cmd/clustr-privhelper/nfs_export.go:247-272 | lines of white space do not survive behind the block, nor right in front of it |
| ExportsMerge.LastWriteWins | cmd/clustr-privhelper/nfs_export.go:219-315 | over any sequence of merges from any text: every merged image has exactly one line with its latest subnet, all other managed lines survive in order, operator lines are unchanged |
| ExportsMerge.ExtractedIffPath | cmd/clustr-privhelper/nfs_export.go:294-315 | a line belongs to an image exactly if it starts with the path of its root file system |
| ExportsMerge.LatestExport | cmd/clustr-privhelper/nfs_export.go:216-245 | after any sequence of merges from any text the managed lines that start with the path of an image are exactly one, its export to the latest subnet with all its options |
| FilePush.FileSystem.CopyFile | internal/clientd/configapply.go:264-286 | a missing source is reported and changes nothing; only the target can change; success copies the content and keeps the mode of an existing target |
| FilePush.FileSystem.Replace | internal/clientd/configapply.go:127-143 | back up, write, rename: the destination holds the new content with its mode and the backup the old one, or the destination is untouched; nothing but the three paths changes |
| FilePush.SlurmAgent.WriteSlurmFile | internal/clientd/slurmapply.go:231-304 | success means that the content has the announced SHA-256, is at most 2 MiB long and for a known file or a path below `/etc/slurm/`, and is in place with its mode and the old content in `.bak`; with reliable operations every such file is written; failure leaves the destination as it was |
| FilePush.SlurmAgent.WriteSlurmScript | internal/clientd/slurmapply.go:144-228 | the same for scripts below one of four directories, without a backup: only the file and its temporary file can change |
| FilePush.HandleNext | internal/clientd/slurmapply.go:59-68 | on disjoint paths, writing one more file keeps the outcome of all others |
| FilePush.SlurmAgent.RollbackFiles | internal/clientd/slurmapply.go:308-320 | one copy for each file, going on after errors; each file whose copy succeeds is rolled back, and only destinations change |
| FilePush.RollbackRestoresIffExisted | internal/clientd/slurmapply.go:306-320 | a rolled-back destination has its content of before the push exactly if it existed, and its mode too exactly if that was the mode of the push |
| FilePush.SlurmAgent.Apply | internal/clientd/slurmapply.go:53-140 | the action starts exactly if every file was written; a written file or script has the announced SHA-256, size and place, and with reliable operations every such one is written; OK exactly if the action then succeeds, with every file in place; one failed file means no action and failed files unchanged; after a failed restart each file whose rollback copy succeeds is rolled back, written scripts stay, and the restart is tried once more; nothing outside the pushed paths changes |
| FilePush.ConfigApplier.ApplyOne | internal/clientd/configapply.go:103-166 | the single-file version, result by result, and which result the outcomes lead to; an applied push has the announced SHA-256 and at most 1 MiB, and with reliable operations every such push to a known target is written; actions start only on the live root |
| FilePush.TargetFiles | internal/clientd/configapply.go:26-64 | which file each target is |
| FilePush.TargetModes | internal/clientd/configapply.go:26-64 | only the SSSD configuration and the sudoers rules have restricted modes; which targets tell a service |
| DestPaths.StaysBelowIff | internal/clientd/slurmapply.go:29-37 | a path never leaves a directory exactly if no beginning of it has more `..` components than names |
| DestPaths.AllowedStaysBelowIff | internal/clientd/slurmapply.go:146-153 | where a destination that passes the prefix check leads, and when it stays below its directory; always without `..` |
| DestPaths.PrefixIsNotEnough | internal/clientd/slurmapply.go:146-153 | a destination that passes the checks and leaves its directory |
| ObserverRegistry.Registry.Register | internal/config/observer.go:117-142 | refused exactly for a known name or invalid metadata; keeps the watch index equal to the plugins' watched keys |
| ObserverRegistry.Registry.Affected | internal/config/observer.go:162-174 | the indexed fan-out gives exactly the plugins of the linear scan, each once |
| ObserverRegistry.DispatchOrderIsUnique | internal/config/observer.go:252-271 | a set of plugins has only one order by effective priority and registration |
| ObserverRegistry.SortedByPriority | internal/config/observer.go:258-271 | collecting in any order and sorting puts the plugin with the lower priority value first, 100 standing for an unset one, and the one registered first among equals |
| ObserverBatch.InvKept | internal/config/observer.go:382-413 | every step of every goroutine keeps: a non-empty batch has its timer armed or in flight, and holds exactly the plugins of its events |
| ObserverBatch.NeverStranded | internal/config/observer.go:382-413 | in every interleaving some armed or started callback fires the whole non-empty batch |
| ObserverBatch.EventuallyDrained | internal/config/observer.go:397-413 | from every reachable batch, every order of expiries and callbacks goes on for exactly the counted number of steps and then ends, with the batch empty and every accepted event in a finished batch |
| ObserverBatch.EventsAreConserved | internal/config/observer.go:187-196 | every accepted event is, in order, in exactly one fired batch, one discarded batch, or pending |
| ObserverBatch.AffectedByAnyMeans | internal/config/observer.go:162-174 | a plugin is in a batch exactly if one of its watched keys was notified in one of the batch's events |
| ObserverBatch.WindowKeptIffNoStray | internal/config/observer.go:394-400 | after any interleaving, a notification stays unfired in every continuation without the expiry of its own timer exactly if no callback is in flight and no forgotten timer is armed |
| ObserverBatch.ResetAfterExpiryForgetsTimer | internal/config/observer.go:394-412 | four steps that leave a forgotten timer |
| ObserverRendering.PlayedIsSound | internal/config/observer.go:406-440 | in every interleaving of steps and render calls each fired batch renders exactly the plugins its events affect, each once, in dispatch order, with the state of its last event |
| ObserverRendering.RenderedInPriorityOrder | internal/config/observer.go:252-271 | in every interleaving the render calls of one batch ascend in priority value (100 if unset), and in registration among equals |
| ObserverRendering.RenderedExactly | internal/config/observer.go:157-182 | once all batches are finished a plugin was rendered for a batch exactly if an event of the batch changed a key that it watches, with the state of the batch's last event |
| ObserverRendering.BatchOrderIffNoOverlap | internal/config/observer.go:149-154 | once all batches are finished, earlier batches were rendered before later ones exactly if no render call overtook an unfinished batch |
| ObserverRendering.LastRenderIsLatest | internal/config/observer.go:419-439 | without overlap the last render call of a plugin is that of the last batch it belongs to, with its state |
| ObserverRendering.OverlapRendersOldState | internal/config/observer.go:406-440 | two overlapping batches that leave a plugin with the older state |
| ObserverCoalescer.Observer.Notify | internal/config/observer.go:157-182 | the fan-out and the batch update together are one move of the machine |
| ObserverCoalescer.Observer.NotifyBatch | internal/config/observer.go:382-401 | adds every plugin and the event and arms the timer, old or new |
| ObserverCoalescer.Observer.FireBatch | internal/config/observer.go:406-434 | drains the batch under the lock and sorts its plugins by priority and registration, to be rendered with the last state |
| ObserverCoalescer.Observer.RenderNext | internal/config/observer.go:436-439 | the next plugin of a fired batch is rendered with the batch's state |
| ObserverCoalescer.Observer.Stop | internal/config/observer.go:187-196 | one discarding move of the machine |
| ObserverCoalescer.Observer.Run | internal/config/observer.go:157-440 | in every interleaving of notifications, expiries, callbacks, render calls and stops the observer follows the machine |
| InstructionHash.SortIsUnique | internal/config/render_diff.go:34-39 | two outcomes of the unstable sort agree if target and opcode identify instructions |
| InstructionHash.SortedMeans | internal/config/render_diff.go:34-39 | in every outcome of the sort targets ascend character by character, and opcodes within a target |
| InstructionHash.CanonicalIffPermutation | internal/config/render_diff.go:31-49 | for distinct pairs, canonical sequences are equal exactly for permutations |
| InstructionHash.CanonicalFormIsUniqueIff | internal/config/render_diff.go:31-49 | the canonical sequence is well defined exactly if instructions with equal target and opcode are equal |
| InstructionHash.Canonicalise | internal/config/render_diff.go:31-49 | the result is some sorted permutation |
| ApiKeys.KeyStore.Lookup | internal/db/apikeys.go:89-133 | a key is found exactly if it is unrevoked and unexpired, and only then marked as used; an expired revoked key is reported as revoked |
| ApiKeys.KeyStore.Create | internal/db/apikeys.go:53-82 | succeeds exactly if a user is named, id and hash are new and the call succeeds, and then inserts exactly the row |
| ApiKeys.KeyStore.CountByScope | internal/db/apikeys.go:205-219 | fails exactly if the query fails; else the number of accepted keys less those that expire at that second |
| ApiKeys.KeyStore.RevokeAndCreate | internal/db/apikeys.go:154-202 | all or nothing: it takes effect exactly if all four calls succeed, else every row is as it was |
| ApiKeys.KeyStore.RevokeNodeScopedKeys | internal/db/apikeys.go:138-147 | revokes exactly the node's live keys if the call succeeds |
| ApiKeys.KeyStore.RevokeAPIKey | internal/db/apikeys.go:332-348 | refuses unknown and revoked keys; the exact table also when the second call fails |
| ApiKeys.KeyStore.SweepExpired | internal/db/apikeys.go:365-378 | removes exactly the rows past expiry and counts them; the exact table also when the second call fails |
| ApiKeys.AtMostOneKeyPerNode | internal/db/apikeys.go:135-202 | in every run that mints node keys by the transaction, a node has at most one unrevoked key |
| ApiKeys.PlainCreateKeepsOneKeyIff | internal/db/apikeys.go:53-82 | the plain insert keeps that exactly if it is not a second live key |
| ApiKeys.RotationLeavesTheNewKey | internal/db/apikeys.go:149-202 | after a rotation the node's only live key is the new one |
| ApiKeys.RevocationIsPermanent | internal/db/apikeys.go:107-110 | a revoked hash is rejected at all times, in every run that does not insert it again |
| ApiKeys.SweepKeepsAcceptance | internal/db/apikeys.go:359-378 | a sweep at time t changes no answer from t on |
| ApiKeys.CountMissesExpiring | internal/db/apikeys.go:204-219 | counted and expiring keys make up the accepted ones, so count and lookup agree exactly if no unrevoked key expires at that second |
| ChrootMounts.Kernel.Cleanup | internal/chroot/mount.go:85-94 | unmounts backwards, goes on after errors, and with no error removes exactly the mounted targets |
| ChrootMounts.Kernel.MountAll | internal/chroot/mount.go:77-107 | success exactly if every mount succeeds; at the first failure exactly the targets before it are unmounted in reverse, and if no unmount fails the stack is as before |
| ChrootMounts.Session.Enter | internal/chroot/chroot.go:32-39 | success exactly if every mount succeeds; a failed call in which no unmount fails leaves the stack as it was |
| ChrootMounts.Session.Close | internal/chroot/chroot.go:71-80 | after any number of calls of `Enter`, unmounts everything in last-in-first-out order down to the initial stack; a second call unmounts nothing |
| JournalBatcher.SubsequenceWithoutSuffix | internal/clientd/journal.go:102-113 | dropping the held batch leaves an in-order subsequence |
| JournalBatcher.SubsequenceMeans | internal/clientd/journal.go:102-113 | a sequence is a subsequence exactly if its elements stand at some increasing positions |
| JournalBatcher.Streamer.Flush | internal/clientd/journal.go:102-113 | one send of a fresh copy of what is held, none if nothing is held; the batch is lost exactly if the reader does not take it |
| JournalBatcher.Streamer.Receive | internal/clientd/journal.go:154-171 | an entry is kept in order, and a full buffer, and only that, is emitted at once |
| JournalBatcher.Streamer.Step | internal/clientd/journal.go:144-177 | which rounds emit and empty the buffer; every branch keeps the account of entries, the emitted batches and a live timer; cancellation comes only from outside |
| JournalBatcher.Streamer.Run | internal/clientd/journal.go:98-177 | over every run emitted batches are never altered and are a subsequence of the entries; if no cancellation comes in and the reader takes every batch, emitted and held entries are the entries consumed, in order, and a journal that ends was emitted completely |
| ConsoleEscape.StateMeaning | cmd/clustr/console_cmd.go:286-320 | what the detector state says about the last two bytes |
| ConsoleEscape.DetectsFirstEscape | cmd/clustr/console_cmd.go:286-320 | the detector disconnects at the first position where end byte follows trigger at the start of a line |
| ConsoleEscape.DetectorIsExactIff | cmd/clustr/console_cmd.go:286-320 | that holds for all streams exactly if the trigger is no line break or equals the end byte |
| ConsoleEscape.ScanChunk | cmd/clustr/console_cmd.go:228-245 | the byte loop over one read continues the detection over the whole stream |
| ConsoleEscape.Relay | cmd/clustr/console_cmd.go:211-253 | for every way of cutting the stream into reads, the bytes forwarded with successful writes are exactly those before the detected byte; a failed write of a whole read ends the relay with the reads before it forwarded |

## Left out

- Rules are validated: their name, plugin and sensor are not empty, so the optional filters of the sample query apply.
- Floating point: sample values are `real`, so NaN and rounding are not modelled.
- Time stamps of alert rows, and the JSON, regular expression and SHA-256 libraries, which are function parameters.
- AlertEngine.Engine.Evaluate: all queries made for one rule in one tick see one observation, and a key is checked against the silences once per tick.
- AlertEngine.Engine.Reload: the listing is given in path order with its files parsed; sorting paths and splitting YAML documents are not modelled.
- Silence rows are read only; creating, listing and deleting them would add easy members.
- AlertInterleaving.CachedRowsFire: a crash starts a new process, and the claims of the old one are forgotten.
- MailPool.Dispatcher.Dispatch: closing the queue with `Stop` and the synchronous send before `Start` are not modelled; delivery by a worker is its success or failure.
- BundleRepo.Repo.Install: the deps subdirectory, key files and signature passes are not modelled; a rename onto an existing directory fails, also where the kernel would replace an empty one; distribution names do not start with a dot.
- BundleRepo.Repo.PruneOldPreviousDirs: the number of archives to keep is 1, the only value the program passes.
- ExportsMerge.OperatorLinesKept: asks for an image id and a subnet without line breaks, which the verb's checks of both guarantee; text is a sequence of characters, not bytes.
- FilePush.SlurmAgent.Apply: the claims about several files ask for disjoint destinations, backups and temporary paths; the output text of the action is not modelled.
- FilePush.ConfigApplier.ApplyOne: path joining covers clean relative paths, which is what the target table holds.
- ObserverCoalescer.Observer.RenderNext: a render call is one step with its plugin and state; errors, time-outs and alerts of a plugin are not modelled.
- DestPaths.AllowedStaysBelowIff: symbolic links are not modelled.
- InstructionHash.Canonicalise: the sort is a selection with free choice among equal keys on a sequence, not an array sort in place; encoding and digest of the sequence are not modelled.
- ApiKeys.KeyStore.Lookup: the background flush of the last-used times is not modelled.
- ChrootMounts.Kernel.MountAll: a mount is its target; source, type, flags and path cleaning are not modelled, and detaching a mount does not take submounts along, which makes a difference only after an unmount failed.
- JournalBatcher.Streamer.Run: starting `journalctl`, parsing its lines and the hand-over channel are not modelled.
- Command-line, HTTP and WebSocket front ends, role checks, BIOS settings, host lists, client statistics and the deploy procedure.
