# nkt: verified model of its stateful core

nkt manages Linux hosts: it scans a host and reports problems, writes and undoes
configuration, talks to hubs and to language models. This project models the parts
of it where state, order and undo matter, and proves what those parts are for.

| file | component |
|---|---|
| `Aliases`, `Revealing`, `Dictionary`, `Hiding`, `Anonymizer`, `WholeWords`, `Matching`, `WholeRequest`, `Outgoing`, `Mapper`, `AnonymizerLimits` | the anonymiser: a growing dictionary of aliases, `Hide`, what it lets through, and `Reveal` |
| `Findings`, `MapOrder`, `PortConflicts`, `K8sHygiene`, `Report` | the finding engine: collector, stable sort, and the two rules that walk Go maps |
| `HostIndex`, `StaleRules` | the index over a snapshot, and the stale firewall rules |
| `Deletions`, `DeletionRuns` | the registry of running deletions, and its interleavings with the job queue |
| `HubSession` | hub sessions of nkt-edge, in every interleaving |
| `Limiter` | the sliding-window limiter of nkt-edge |
| `Uploads` | uploads with history, and their rollback |
| `ComposeCheck` | the dry run's copy of a stack and its cleanup, on a tree of files |
| `ComposeDeploy` | validation of a deploy, its writes and its undo log |
| `Fail2banApply`, `TemplateDoc` | applying a fail2ban template; templates as one text |
| `PluginEnv` | plugin env files, and settings with apply, rollback and commit |
| `WebSocket` | the frames of the screenshot script's WebSocket client |
| `ChatMerge` | the merge of a chat history into alternating messages |
| `LogStream` | the batching log stream, in every schedule |
| `Text`, `ByteOrder`, `Walks`, `Disks`, `Sequences`, `Wrappers` | strings, byte order, map walks, files, lists |

The source's objects are classes with its fields, its loops are loops with
invariants, and its concurrent parts are machines of steps: one step per critical
section or channel operation. Where the source leaves something open (the order in
which Go walks a map, how `sort.Slice` orders equals, whether an external command
succeeds) the model leaves it open too. `dafny verify dfyconfig.toml` verifies
everything.

## What the proofs found

Some properties hold only under a condition. Each is proved with its condition, and
a lemma shows the input on which it fails:

- An object can come to belong to two unfinished deletion jobs: the deferred `done`
  of a finished job removes an entry that a later job registered
  (`DeletionRuns.TwoJobsForOneObject`). In every run, no object is ever in two unfinished
  jobs, nor one request away from it, exactly if no step drops such an entry
  (`DeletionRuns.RunExposedIff`). A `done` that removes only its own job's entry would be
  safe in every run (`DeletionRuns.RunsSafe`).
- A deletion job cancelled while it waits leaves its objects registered: unless another
  unfinished job lists one of them, no later request for it starts a job
  (`DeletionRuns.CancelledStayRegistered`). No ended job ever has an entry exactly if no
  waiting job with an entry is cancelled, or ends because its record or parameters cannot
  be read (`DeletionRuns.NothingLeftIff`).
- Two different objects can have one deletion key, exactly when a separator in one name
  lets it run into the other (`Deletions.KeysMeetIff`, `Deletions.KeysCollide`).
- A dry run on a host without the directory of stacks leaves that directory behind
  (`ComposeCheck.FirstDryRunLeaves`). It leaves the tree as it was exactly if it made no
  directory above its own (`ComposeCheck.CleanupRestoresIff`).
- The rollback of a fail2ban template writes the old text through
  `ConfigManager.Write`, which rewrites line ends, adds a final newline, and refuses a text
  over 2 MiB (`Fail2banApply.LargeStaysChanged`); a file that could not be read is taken for
  new and deleted, by the rollback or by a `Write` whose text is rejected
  (`Fail2banApply.HiddenIsDeleted`, `Fail2banApply.RejectedIsDeleted`); and a `Write` can fail
  after it has written. Everything is restored exactly when none of these matters (`Fail2banApply.FailedWriteRestoresIff`, `Fail2banApply.LostJailsRestoreIff`).
- The rollback of an upload does not bring back what was written over a private key, whose
  history is kept but not given out (`Uploads.SensitiveStays`), nor over a file whose version
  was pruned, as the end of the upload itself can do (`Uploads.PrunedStays`). It deletes a
  file that was there but could not be opened (`Uploads.HiddenIsDeleted`), and overwrites a
  changed file that it cannot hash (`Uploads.UnhashedOverwritten`). Otherwise it restores the
  disk, exactly (`Uploads.RollbackRestoresIff`).
- A path uploaded twice is restored if its items are undone last first; undone in the order
  they were written, exactly if the file was there and both uploads wrote the same or the
  first wrote what it held (`Uploads.ReverseRollbackRestores`,
  `Uploads.TwiceChronologicalIff`, `Uploads.ChronologicalRollbackFails`).
- `Reveal` does not undo `Hide` if the text holds an alias already, if a known value
  stands before a digit, if it lies inside an alias, if a match cuts through an alias (a
  domain below a known one), or if an e-mail match holds a longer alias
  (`AnonymizerLimits`, each for a dictionary that calls of `Learn` or `Hide` give). It does when known values and matches are whole words
  (`WholeRequest.WholeWordsComeBack`).
- Two port conflicts can share an ID when endpoint ids hold a colon, and then only the first is
  kept (`Report.PairsShareId`).
- The undo of a deploy deletes a file that was there but could not be read
  (`ComposeDeploy.UndoRestores`). A deploy that fails after `config -q`, for its
  credentials or its job, leaves the new files (`ComposeDeploy.HandleComposeDeploy`).
- A plugin reinstall leaves `.env.prev`; a rollback after it takes away the hub's
  settings too (`PluginEnv.ReinstallIsRolledBack`). Without a reinstall no run changes
  them, exactly if `.env.prev` is absent or has the same ones
  (`PluginEnv.RunsKeepHubIff`). After a commit a rollback is refused exactly if
  `.env.prev` was deleted, an error the code drops (`PluginEnv.CommitThenNoRollback`).
- A log line that does not fit the scanner's buffer of 1 MiB ends the stream with a normal
  closure (`LogStream.LongLineEndsStream`); at such an end all lines were sent exactly if
  all fit (`LogStream.EverySchedule`).

## Model

| member | source | states |
|---|---|---|
| Anonymizer.RoundTrip | internal/ai/anonymize.go:84-167 | every text a request sent is given back in full by Reveal, after any mix of Learn and Hide calls and for every order sort may choose, when no text or name holds an alias and no match or name cuts through an alias or stands before a digit |
| Anonymizer.HideKeepsMeaning | internal/ai/anonymize.go:111-151 | each Hide keeps what the text means in the dictionary, and forgets no earlier alias |
| Anonymizer.StepKeeps | internal/ai/anonymize.go:84-151 | one Learn or Hide keeps dictionary and meanings in agreement |
| Revealing.RevealIsMeaning | internal/ai/anonymize.go:154-167 | longest-first replacement gives any legible text its meaning: no alias eats another, also inside the values themselves |
| Revealing.RevealStep | internal/ai/anonymize.go:163-165 | replacing one alias opens exactly its own tokens, so host-1 does not eat host-12 |
| Dictionary.RegisterKeepsDict | internal/ai/anonymize.go:98-107 | giving out an alias keeps to and back mutually inverse and every earlier pair |
| Dictionary.AliasNameInjective | internal/ai/anonymize.go:103 | two aliases are written alike only if kind and number are the same |
| Hiding.KnownPass | internal/ai/anonymize.go:124-131 | replacing the known values changes what is written, not what is meant |
| Hiding.MatchPass | internal/ai/anonymize.go:132-149 | so does replacing the matches of an expression, with the dictionary growing |
| Hiding.OneReading | internal/ai/anonymize.go:154-167 | a written text has at most one legible reading |
| WholeWords.WholeWordsClean | internal/ai/anonymize.go:124-131 | a condition on text and names alone: names that are whole words and no part of an alias damage no alias |
| WholeRequest.WholeWordsComeBack | internal/ai/anonymize.go:84-167 | the same under conditions on strings alone, to be checked before each call: no text or name reads as an alias, known values are whole words and no part of an alias, and what each expression finds in the text by then are whole words that hold no alias as long as their own |
| Matching.CutsExact | internal/ai/anonymize.go:132-149 | matches that are whole words cut through no alias |
| Matching.MatchesFramed | internal/ai/anonymize.go:132-149 | and leave every alias standing alone |
| WholeRequest.KindsAreGood | internal/ai/anonymize.go:103 | an alias of a host, e-mail, address or domain tells its kind |
| MapperClass.Mapper.Alias | internal/ai/anonymize.go:98-107 | the method gives the alias of the specification and keeps the bijection |
| MapperClass.Mapper.Learn | internal/ai/anonymize.go:84-96 | names are registered longest first, in an order sort may choose; exactly those of three or more characters, trimmed, are known afterwards besides the earlier ones |
| MapperClass.LearnsAll | internal/ai/anonymize.go:84-107 | every name of three or more characters, trimmed, has an alias afterwards, of its kind if it had none; no other name gets one |
| MapperClass.Mapper.Hide | internal/ai/anonymize.go:111-151 | the method computes HideText of the redacted text, and what leaves, named by its conditions (Outgoing.FoundOut), holds of it; bijection kept, nothing forgotten |
| Outgoing.HideFoundOut | internal/ai/anonymize.go:132-149 | what leaves: of the matches, every e-mail, every address but those that begin with 127., 0.0.0.0 and the kept ones, and every domain but names with one of nine endings is known afterwards, and exactly its place holds an alias that stands for it, of the kind email, ip or domain if new; the other matches stay, and nothing else becomes known |
| Outgoing.MatchesOut | internal/ai/anonymize.go:132-149 | the same for one expression and any set of matches to be spared |
| Outgoing.NoneKnownLeaves | internal/ai/anonymize.go:124-131 | where known values are whole words of the text and no part of an alias, none of them is left anywhere in it after the pass over them, in whatever order they are taken |
| MapperClass.Mapper.Reveal | internal/ai/anonymize.go:154-167 | the method computes RevealText over the aliases longest first |
| MapperClass.Mapper.ReplaceMatches | internal/ai/anonymize.go:132-149 | the calls of ReplaceAllStringFunc, match by match, with the dictionary threaded through |
| AnonymizerLimits.AliasInText | internal/ai/anonymize.go:111-167 | a text that holds host-1 comes back as the value of host-1 |
| AnonymizerLimits.DigitAfterValue | internal/ai/anonymize.go:84-167 | with eleven hosts learned, the first one before a digit 1 is sent as the alias of the eleventh and comes back as that host, in every order |
| AnonymizerLimits.ValueInAlias | internal/ai/anonymize.go:124-131 | a value inside an alias: the answer depends on the order among equals |
| AnonymizerLimits.LongAliasInMatch | internal/ai/anonymize.go:68-134 | an e-mail match around a longer alias is not revealed to the end: once corp.example is hidden, ops@mail.corp.example comes back as ops@mail.domain-1 |
| AnonymizerLimits.MatchCutsAlias | internal/ai/anonymize.go:67-149 | below a known domain the expression cuts through its alias, and the answer depends on the order among equals |
| Findings.CollectKeepsFirsts | internal/analyze/analyze.go:41-53 | the collector keeps exactly the first finding of each ID not seen before |
| Findings.CollectedIdsDiffer | internal/analyze/analyze.go:41-53 | no two kept findings share an ID |
| Findings.StableSortWorks | internal/analyze/analyze.go:89-100 | the sort yields an ordered list in which equals keep their order |
| Findings.StableSortUnique | internal/analyze/analyze.go:89-100 | a stable sort has only one result |
| Findings.SortedWorstFirst | internal/analyze/analyze.go:89-100 | critical findings come first, then high, medium and low ones, then those for information |
| Findings.Collector.Add | internal/analyze/analyze.go:41-53 | one add on the collector's fields |
| Findings.Collector.Sort | internal/analyze/analyze.go:89-100 | SortFindings leaves the stable sort of what was found |
| MapOrder.WalksAlike | internal/analyze/analyze.go:41-100 | groups whose findings share no ID and no sort key: two walks over them cannot be told apart in any report |
| MapOrder.CollectFlat | internal/analyze/analyze.go:41-53 | collecting such groups is collecting each on its own |
| MapOrder.AlikeSorted | internal/analyze/analyze.go:57-87 | lists that cannot be told apart give one report |
| Report.OneReport | internal/analyze/analyze.go:57-87 | the report is the same for every order of the three map walks |
| Report.ConflictReportedIff | internal/analyze/analyze.go:41-100 | the final report has a port conflict of an ID exactly if some pair with that ID fights |
| Report.PairsShareId | internal/analyze/analyze.go:265-290 | endpoint ids with a colon: two pairs share an ID and one is dropped |
| Report.Run | internal/analyze/analyze.go:57-87 | with walks in any order the result is the one list that every order gives |
| PortConflicts.ReportedIffFight | internal/analyze/analyze.go:244-331 | a finding is raised exactly for each pair of endpoints that fight: not udp, of one port, some address bound by both, and neither one nginx or Caddy, nor ports of one named container, nor a container port forwarded to the very port the other binds |
| PortConflicts.OverlapIff | internal/analyze/analyze.go:300-305 | two endpoints overlap exactly if some address is bound by both |
| PortConflicts.ClashIffFight | internal/analyze/analyze.go:244-331 | what the loops test is that the pair fights, which is defined by the fields of the endpoints alone |
| PortConflicts.ListOrderHidesNothing | internal/analyze/analyze.go:244-331 | rearranging the endpoints reports the same pairs |
| PortConflicts.ConflictsApart | internal/analyze/analyze.go:252-298 | findings of two ports share neither ID nor sort key |
| PortConflicts.FightSymmetric | internal/analyze/analyze.go:300-331 | the pair conditions do not depend on the order of the pair |
| PortConflicts.RulePortConflicts | internal/analyze/analyze.go:244-298 | the loops, with the map walked in any order, add exactly the findings of its groups |
| PortConflicts.ByPort | internal/analyze/analyze.go:245-251 | the map holds the non-udp endpoints of each port, in their order |
| K8sHygiene.Group | internal/analyze/k8s.go:254-282 | each offending workload is mapped to exactly its offending containers or images |
| K8sHygiene.OffenceIs | internal/analyze/k8s.go:254-282 | an item offends exactly if some pod of the workload, in no namespace that begins with kube-, has it without a limit or without a version |
| K8sHygiene.WorkloadForms | internal/analyze/k8s.go:220-233 | a pod belongs to its owner by name, or to itself without one |
| K8sHygiene.UnhashedForms | internal/analyze/k8s.go:227-231 | the name of a ReplicaSet loses exactly the hash after its last dash, unless nothing stands before |
| K8sHygiene.LatestTagForms | internal/analyze/k8s.go:237-248 | an image is without a version exactly if it names no digest and its last part has no tag, an empty one or latest |
| K8sHygiene.GroupsUnique | internal/analyze/k8s.go:254-282 | the groups are settled by the pods |
| K8sHygiene.WorkloadsApart | internal/analyze/k8s.go:291-314 | findings of two workloads share neither ID nor sort key |
| K8sHygiene.AddGroups | internal/analyze/k8s.go:291-314 | a walk in any order adds exactly the findings of the groups |
| HostIndex.Index.constructor | internal/analyze/analyze.go:120-178 | every list of the index is what a scan of the snapshot gives |
| HostIndex.Index.HasListener | internal/analyze/analyze.go:212 | agrees with a scan of the listeners |
| HostIndex.Index.AllowedFromAnywhere | internal/analyze/analyze.go:202-210 | true exactly if some accepting input rule opens the port to every source |
| HostIndex.Index.AnyRuleFor | internal/analyze/analyze.go:494 | true exactly if some accepting input rule names the port |
| HostIndex.Index.UpstreamUsed | internal/analyze/analyze.go:135-140 | true exactly if some endpoint makes that key; exactly if one of the service names the pool, for services without a bar |
| HostIndex.Index.UpstreamDefined | internal/analyze/analyze.go:141-144 | true exactly if some pool makes that key; exactly if the service has a pool of that name, for services without a bar |
| HostIndex.Index.AreComparable | internal/analyze/analyze.go:218-230 | fewer than three endpoints, or one of them heard |
| HostIndex.Index.ListenerFor | internal/analyze/analyze.go:233-240 | the first listener of the list that receives the address, and none only if there is none |
| HostIndex.Index.UndeclaredListeners | internal/analyze/analyze.go:382-426 | exactly the listeners that no endpoint of their port owns and that are not docker-proxy, in order |
| HostIndex.OwnsIff | internal/analyze/analyze.go:399-423 | a socket is an endpoint's exactly if its program is unknown, the service may be served by any, or the program's name begins with one of that service |
| HostIndex.DnatAllowsNothing | internal/analyze/analyze.go:154-165 | the early continue for DNAT rules skips no allowed port |
| HostIndex.AllowsIff | internal/analyze/analyze.go:180-199 | a rule lets traffic in exactly if it accepts and is of firewalld, of a chain INPUT in any case, or of a chain of ufw |
| HostIndex.ActiveIsLast | internal/analyze/analyze.go:145-147 | a service is active exactly if the last entry of its name says so |
| HostIndex.PolicyIsLast | internal/analyze/analyze.go:149-153 | the last INPUT policy of the filter table decides; without one nothing is known |
| HostIndex.ComparableIff | internal/analyze/analyze.go:176-230 | sockets and configuration cannot be compared exactly if there are no sockets, or three endpoints or more of which none is heard |
| StaleRules.RuleStaleFirewallRules | internal/analyze/analyze.go:560-620 | one finding for each accepted, unheard, not forwarded port, in the order of the ports, naming the first ufw rule or else the first rule; none if the host is not comparable |
| StaleRules.BestSpeaks | internal/analyze/analyze.go:575-588 | the loop keeps the first ufw rule of a port if there is one, else its first rule |
| StaleRules.OneStaleReport | internal/analyze/analyze.go:560-620 | the snapshot settles the stale report |
| StaleRules.SortedKeys | internal/analyze/analyze.go:590-594 | the ports of the map, ascending, walked in any order |
| Deletions.KeyIsIdentity | internal/api/deletions.go:51-59 | items of one object have one key, and only they do if names do not hold the separators |
| Deletions.KeysMeetIff | internal/api/deletions.go:51-59 | two valid items have one key exactly if they name one object, or one name ends at a separator inside the other and the rest fits |
| Deletions.KeysCollide | internal/api/deletions.go:51-59 | two snapshots with one key |
| Deletions.TodoIsFresh | internal/api/deletions.go:137-155 | a new job gets each requested key that nothing deletes, once |
| Deletions.RunningIsActive | internal/api/deletions.go:150-153 | the running job that is answered deletes one of the requested objects |
| Deletions.Registry.HandleDelete | internal/api/deletions.go:132-184 | what each request answers; a job that is started is the request step of the machine, for exactly the fresh keys, and any other answer registers nothing |
| Deletions.Registry.Done | internal/api/deletions.go:103-107 | is what the unguarded machine does to the registry in a job's delete or clear step |
| DeletionRuns.StepSafeIff | internal/api/deletions.go:132-224 | one step keeps what jobs owe registered as theirs exactly if it is not a deferred done of an entry a later job registered |
| DeletionRuns.RunsSafe | internal/api/deletions.go:15-18 | in every run where no step drops an entry, and in every run of a done that removes only its own, no object is owed by two jobs |
| DeletionRuns.RunSafeIff | internal/api/deletions.go:132-224 | a run keeps the registry truthful throughout exactly if no step of it is such a done |
| DeletionRuns.RunExposedIff | internal/api/deletions.go:15-18 | and exactly then no object is ever in two unfinished jobs nor one request away from it |
| DeletionRuns.DropExposes | internal/api/deletions.go:198-203 | after such a done a request for the object is accepted, and a second job owes it |
| DeletionRuns.TwoJobsForOneObject | internal/api/deletions.go:198-203 | a run of the code in which two jobs owe one object |
| DeletionRuns.StepKeptIff | internal/api/deletions.go:191-224 | one step keeps every entry with a job that will still take it out, exactly if it does not cancel a waiting job that has one, nor fail to read it |
| DeletionRuns.NothingLeftIff | internal/jobs/jobs.go:282-386 | in a run no ended job ever has an entry exactly if no waiting job with an entry is cancelled or cannot be read |
| DeletionRuns.CancelledStayRegistered | internal/jobs/jobs.go:365-386 | a job cancelled while it waits blocks its objects in every later state, unless another unfinished job lists them |
| DeletionRuns.OneAtATime | internal/jobs/jobs.go:262-391 | in every run at most one deletion job is under way |
| HubSession.EveryRun | cmd/nkt-edge/main.go:229-271 | in every run the slot holds the newest session, or nothing and that session is closed; replaced sessions are closed or about to be |
| HubSession.LateLeaveClearsNothing | cmd/nkt-edge/main.go:262-267 | a disconnect empties the slot only if it is the newest session's |
| HubSession.BrokenLeaves | cmd/nkt-edge/main.go:255-271 | a session that breaks empties the slot if it is its own, and its goroutine ends |
| HubSession.QuietHasOneOpen | cmd/nkt-edge/main.go:229-271 | when nothing is left to do, the open sessions are exactly the one in the slot |
| HubSession.UnguardedLosesHub | cmd/nkt-edge/main.go:264-266 | without the test a run ends with an empty slot and its newest session open |
| HubSession.Server.Install | cmd/nkt-edge/main.go:247-250 | the critical section is the install step of the machine, and hands back the session its goroutine then closes |
| HubSession.Server.ClearIfOwn | cmd/nkt-edge/main.go:263-267 | the critical section is the guarded leave step |
| Limiter.Limiter.Allow | cmd/nkt-edge/limits.go:21-44 | the answer is that of a log of all allowed calls: allowed if fewer than rate are in the last minute, and only then if times do not decrease; with clock skew the bound moves by it |
| Limiter.Limiter.Filter | cmd/nkt-edge/limits.go:24-29 | the filter in place leaves exactly the times of the last minute, in order |
| Limiter.Limiter.Append | cmd/nkt-edge/limits.go:34 | append in place or into a larger array |
| Limiter.Limiter.EvictOld | cmd/nkt-edge/limits.go:35-42 | forgetting old addresses changes no later answer |
| Limiter.RecentAfter | cmd/nkt-edge/limits.go:24-29 | the filter drops nothing a later call could count |
| Limiter.TracksEvicted | cmd/nkt-edge/limits.go:37-41 | an address whose last time is over a minute old counts for nothing |
| Limiter.Answer | cmd/nkt-edge/limits.go:30-33 | what the kept times say is what the log says |
| Limiter.NoMinuteHoldsMore | cmd/nkt-edge/limits.go:12-44 | no minute holds more than rate allowed calls |
| Uploads.RollbackRestoresIff | internal/api/handlers_files_upload.go:155-198 | uploading distinct targets, finishing and rolling back in any order restores the disk exactly if each file was refused, untouched, new and logged, opened and logged with a version that was not pruned on a path that is not sensitive, or written with what it held and not taken for new |
| Uploads.SensitiveStays | internal/control/files_history.go:137-147 | what was written over a private key stays |
| Uploads.KeysAreSensitive | internal/control/configs.go:460-468 | files that end in .pem or .key are such |
| Uploads.PrunedStays | internal/store/uploads.go:143-160 | so does what was written over a file whose version is pruned |
| Uploads.Server.FinishUpload | internal/api/handlers_files_upload.go:130-150 | the pruned versions go, and items that had them have none |
| Uploads.FinishedTakesNothing | internal/api/handlers_files_upload.go:155-198 | nothing is uploaded after the end of an upload |
| Uploads.ChangedFileStays | internal/api/handlers_files_upload.go:321-366 | no rollback touches a file whose content is not what the upload wrote, if it can hash the files it has history of |
| Uploads.UnhashedOverwritten | internal/api/handlers_files_upload.go:345-362 | otherwise it overwrites one |
| Uploads.HiddenIsDeleted | internal/api/handlers_files_upload.go:168-198 | a file that was there and could not be opened is deleted by the rollback |
| Uploads.OnlyOwnItems | internal/api/handlers_files_upload.go:319-366 | in any order of the items, what becomes of a path depends only on its own items, in their order |
| Uploads.TwiceChronologicalIff | internal/store/uploads.go:112-130 | two uploads of one path that can each be taken back, undone in the order written, bring the file back exactly if it was there and they wrote the same or the first wrote what it held |
| Uploads.OtherFileStays | internal/api/handlers_files_upload.go:321-366 | nor any file the upload did not write |
| Uploads.SecondRollbackIdle | internal/api/handlers_files_upload.go:306-367 | a second rollback changes nothing |
| Uploads.ReverseRollbackRestores | internal/api/handlers_files_upload.go:155-198 | undone last first, also a path uploaded several times is restored |
| Uploads.ChronologicalRollbackFails | internal/store/uploads.go:112-130 | undone in the order written, a new file uploaded twice stays |
| Uploads.Server.UploadWithHistory | internal/api/handlers_files_upload.go:155-198 | the method takes the branches of the specification |
| Uploads.UploadWrites | internal/api/handlers_files_upload.go:155-198 | an upload goes through unless it is finished or a readable file is protected and not forced, and changes no other file |
| Uploads.ProtectedStays | internal/api/handlers_files_upload.go:155-198 | no sequence of uploads changes a protected file that none of them forces |
| Uploads.HistoryKept | internal/api/handlers_files_upload.go:155-198 | the old content is kept up to 2 MiB always, above while it fits the budget, and the item names its version |
| Uploads.BudgetHolds | internal/api/handlers_files_upload.go:155-198 | no sequence of uploads takes more than the budget |
| Uploads.Server.Rollback | internal/api/handlers_files_upload.go:306-367 | the loop over the items is the specification's |
| Uploads.Server.Take | internal/api/handlers_files_upload.go:58-69 | the budget grants a size exactly if it fits |
| ComposeCheck.CleanupRestores | internal/api/handlers_compose_check.go:331-386 | after any prefix of the copy and any failed write, the cleanup leaves the tree as it was, but for the directories above composeCheckDir that the copy made, and composeCheckDir itself if that has nothing in it |
| ComposeCheck.CleanupRestoresIff | internal/api/handlers_compose_check.go:331-386 | nothing is left exactly if no missing directory above was got to with no file in its way; never if the directory above composeCheckDir is there |
| ComposeCheck.FirstDryRunLeaves | internal/api/handlers_compose_check.go:331-386 | without the directory of stacks a dry run leaves it behind |
| ComposeCheck.AboveMade | internal/api/handlers_compose_check.go:331-364 | which directories above the copy makes |
| ComposeCheck.DirsGo | internal/api/handlers_compose_check.go:376-383 | deepest first, every created directory is empty when its turn comes |
| ComposeCheck.CopyAdds | internal/api/handlers_compose_check.go:331-364 | the copy adds only the files, the directories to them, and those down to the work directory |
| ComposeCheck.CopyHolds | internal/api/handlers_compose_check.go:331-364 | what the copy holds: where no target lies in another and no file is in the way of the work directory, each file is there with its content exactly if its write succeeded, whatever became of the others |
| ComposeCheck.FileTree.CopyStack | internal/api/handlers_compose_check.go:331-364 | the loop makes the copy, and each file then has its content |
| ComposeCheck.FileTree.CleanUp | internal/api/handlers_compose_check.go:368-386 | the loops delete the files, then the directories between, deepest first, then the two |
| ComposeCheck.FileTree.DryRun | internal/api/handlers_compose_check.go:226-240 | the tree on which the check runs holds the files as sent; afterwards no trace is left but for missing directories above composeCheckDir |
| ComposeCheck.Between | internal/api/handlers_compose_check.go:370-375 | the directories between the work directory and the files |
| ComposeCheck.SortDeepest | internal/api/handlers_compose_check.go:376-380 | all of them, deepest first |
| ComposeDeploy.Validate | internal/api/handlers_compose_deploy.go:114-147 | accepts exactly the requests that meet every condition |
| ComposeDeploy.ValidateConfigs | internal/api/compose_configs.go:33-56 | accepts exactly lists of at most 50 sound configs with distinct paths |
| ComposeDeploy.ValidWritesDistinct | internal/api/handlers_compose_deploy.go:114-147 | a valid request writes no path twice: files, .env and configs are distinct |
| ComposeDeploy.LogIsOriginal | internal/api/handlers_compose_deploy.go:200-215 | the undo log holds what was there before the deploy |
| ComposeDeploy.UndoRestores | internal/api/handlers_compose_deploy.go:200-256 | after any failure each path is restored exactly unless it was there and could not be read |
| ComposeDeploy.RepeatedPathLost | internal/api/handlers_compose_deploy.go:209-215 | a path written twice would lose its original |
| ComposeDeploy.Stack.Deploy | internal/api/handlers_compose_deploy.go:216-256 | writes up to the first failure, and undoes them on any failure |
| ComposeDeploy.WrittenIsStored | internal/api/handlers_compose_deploy.go:218-256 | after all writes each file of the request, .env and each rendered config is under its own path |
| ComposeDeploy.HandleComposeDeploy | internal/api/handlers_compose_deploy.go:180-256 | a refused request changes nothing; a failed write or config -q leaves every file as it was; else each file holds what was sent, also when credentials or job fail then |
| Fail2banApply.FailedWriteRestoresIff | internal/api/handlers_fail2ban.go:1026-1065 | after a failed write all files are as before exactly if the old files written before could be read, fit and survive normalisation, and the write left of its own file what it was |
| Fail2banApply.LostJailsRestoreIff | internal/api/handlers_fail2ban.go:1026-1092 | after lost jails all files are as before exactly if every old file could be read, fits and survives normalisation |
| Fail2banApply.RejectedIsDeleted | internal/control/configs.go:686-704 | an old file that could not be read is deleted when its new text is rejected |
| Fail2banApply.LargeStaysChanged | internal/control/configs.go:664-666 | an old file over 2 MiB keeps the new text |
| Fail2banApply.HiddenIsDeleted | internal/api/handlers_fail2ban.go:976-1042 | an old file that could not be read is deleted |
| Fail2banApply.ReloadIsLast | internal/api/handlers_fail2ban.go:1043-1056 | a reload is asked for once, with the last changed file, and only if fail2ban runs |
| Fail2banApply.PlanIsFaithful | internal/api/handlers_fail2ban.go:958-981 | the changes record what could be read, on distinct files |
| Fail2banApply.PlanIs | internal/api/handlers_fail2ban.go:958-981 | which text goes to which file, and the protection of the hub first |
| Fail2banApply.ForwardHolds | internal/api/handlers_fail2ban.go:1043-1056 | after the writes each changed file holds its new text, normalised |
| Fail2banApply.NormalisedIff | internal/control/configs.go:1020-1026 | a text is written as it is exactly if it has no CR LF and ends with a line break |
| Fail2banApply.CrlfNormalised | internal/control/configs.go:1020-1026 | lines that end in CR LF become the same lines ending in LF, the last one too |
| Fail2banApply.Host.Apply | internal/api/handlers_fail2ban.go:1026-1092 | succeeds exactly if no changed text is over 2 MiB and all writes and jails are right, and then each changed file holds its new text; else restores under the stated condition |
| Fail2banApply.Host.Rollback | internal/api/handlers_fail2ban.go:1026-1042 | the rollback loop is the specification's |
| TemplateDoc.RoundTripIff | internal/api/handlers_fail2ban.go:742-775 | parseTemplateDoc gives back the template exactly if it is normal: one trimmed line, trimmed bodies ending in one newline, no line that reads as a marker |
| TemplateDoc.NormalRoundTrip | internal/api/handlers_fail2ban.go:742-775 | every normal template survives |
| TemplateDoc.DocText | internal/api/handlers_fail2ban.go:742-744 | the very text of a document, as earlier versions are stored |
| TemplateDoc.ScanWeight | internal/api/handlers_fail2ban.go:751-770 | a line that reads as a marker is lost |
| TemplateDoc.ParseTemplateDoc | internal/api/handlers_fail2ban.go:747-775 | the loop over the lines computes the specification |
| PluginEnv.RoundTripIff | internal/api/handlers_plugin_native.go:255-284 | reading back a printed env gives the same env exactly if every key is valid and no value holds a newline |
| PluginEnv.RunsKeepHub | internal/api/handlers_plugin_native.go:299-398 | no run of read, apply, rollback and commit changes a setting of the hub |
| PluginEnv.RunsKeepHubIff | internal/api/handlers_plugin_native.go:299-398 | from files with .env, no such run changes them exactly if .env.prev is absent or has the same ones |
| PluginEnv.ApplyThenRollback | internal/api/handlers_plugin_native.go:335-380 | a rollback after an apply, also a half-done one, brings the settings back |
| PluginEnv.CommitThenNoRollback | internal/api/handlers_plugin_native.go:364-394 | after a commit every rollback is refused until the next apply, exactly if .env.prev was deleted or not there |
| PluginEnv.ReinstallIsRolledBack | internal/api/handlers_plugin_native.go:156-185 | a reinstall between apply and rollback is undone too |
| PluginEnv.ReadEnv | internal/api/handlers_plugin_native.go:255-270 | the reading loop computes the specification |
| PluginEnv.PrintEnv | internal/api/handlers_plugin_native.go:272-284 | the printing loop, over sorted keys, computes the specification |
| PluginEnv.Plugin.DoApply | internal/api/handlers_plugin_native.go:335-363 | succeeds exactly if .env is there, the request is valid and both writes succeed, and then the files read as ApplySaves states; else .env is as before |
| PluginEnv.ApplySaves | internal/api/handlers_plugin_native.go:335-363 | after an apply .env reads as set: each key given a value has it, each key given nothing is gone, every other one reads as before; .env.prev reads as .env did |
| PluginEnv.InstallSaves | internal/api/handlers_plugin_native.go:156-185 | after a reinstall .env reads as sent, with the address and the port to listen on |
| PluginEnv.RunsKeepNkt | internal/api/handlers_plugin_native.go:299-398 | so every key that begins with NKT_ reads as it did |
| PluginEnv.Plugin.DoRollback | internal/api/handlers_plugin_native.go:364-391 | succeeds exactly if both files are there and the write succeeds, and then .env reads as .env.prev did; else nothing changes |
| ByteOrder.OneAscending | internal/api/handlers_plugin_native.go:273-277 | sort.Strings over the keys of a map has one result |
| WebSocket.SentIsDecoded | scripts/screenshots.py:185-194 | a decoder after sections 5.2 and 5.3 of RFC 6455 gets back exactly the payload of every frame, final, masked, with the shortest length |
| WebSocket.MaskedBits | scripts/screenshots.py:194 | a bit of the masked payload differs from the payload's exactly where it is set in octet i mod 4 of the mask |
| WebSocket.UnpackFirst | scripts/screenshots.py:191-193 | lengths are in network byte order, the most significant byte first |
| WebSocket.StreamTexts | scripts/screenshots.py:205-216 | the texts of a stream of unmasked, unfragmented frames are the payloads of its text frames, in order |
| WebSocket.SkippedIsDecoded | scripts/screenshots.py:205-214 | on unmasked frames the client reads what the standard says |
| WebSocket.WS.Send | scripts/screenshots.py:185-194 | the header and masking loops build that frame |
| WebSocket.WS.Read | scripts/screenshots.py:196-203 | the next bytes of the stream, however it is cut into chunks |
| WebSocket.WS.RecvStream | scripts/screenshots.py:205-222 | recv again and again gets the payloads of the text frames that the server sent, in order, for every way of cutting the stream |
| WebSocket.WS.Recv | scripts/screenshots.py:205-216 | the next text depends on the stream alone, not on its chunks |
| ChatMerge.Merge | internal/ai/chat.go:85-112 | roles alternate, no message is empty, and the messages say exactly the blocks of the history in order |
| ChatMerge.WhoSaysWhat | internal/ai/chat.go:94-112 | texts and calls of the assistant are said by the assistant, tool results and all other texts by the user, and nothing else is said |
| ChatMerge.OneMerge | internal/ai/chat.go:85-112 | there is only one such list |
| ChatMerge.Merger.Add | internal/ai/chat.go:87-93 | add appends to the last message of the role or opens a new one |
| ChatMerge.MergeOfSaid | internal/ai/chat.go:87-93 | an alternating list is what add makes of its blocks |
| LogStream.EverySchedule | internal/api/handlers_logs.go:144-198 | in every schedule the frames split on line breaks are a prefix of the lines, none has more than 500, and at a normal end without a failed write all lines were sent exactly if all fit the scanner's buffer |
| LogStream.TickSends | internal/api/handlers_logs.go:193-196 | a tick that can write sends the whole batch: only what is on the channel has not been received |
| LogStream.TickDelivers | internal/api/handlers_logs.go:160-198 | in every schedule, at such a tick with an empty channel every line read so far has been received, and no later step takes one back |
| LogStream.LineWaits | internal/api/handlers_logs.go:186-192 | between ticks a line makes a frame only as the 500th of its batch, and then of all 500 |
| LogStream.StopsForGood | internal/api/handlers_logs.go:176-198 | once the loop has returned nothing is sent |
| LogStream.FailedWriteStops | internal/api/handlers_logs.go:164-198 | a write that fails ends the loop and adds no frame |
| LogStream.Loop.OnTick | internal/api/handlers_logs.go:193-196 | the tick of the loop is the step of the machine |
| LogStream.Loop.OnLine | internal/api/handlers_logs.go:182-192 | so is a line |
| LogStream.LongLineEndsStream | internal/api/handlers_logs.go:144-186 | a line that does not fit ends the stream normally, with the rest unsent |
| LogStream.StepKeeps | internal/api/handlers_logs.go:160-198 | each step keeps frames, batch and channel together equal to what was read |
| LogStream.JoinedLines | internal/api/handlers_logs.go:164-174 | a frame splits back into the lines of its batch |
| LogStream.Loop.Send | internal/api/handlers_logs.go:164-174 | flush: an empty batch writes nothing, and the batch is dropped whether or not it was written |

## Left out

- Anonymizer.RoundTrip: its conditions are sufficient, not necessary; five families of inputs outside them fail (`AnonymizerLimits`), others happen to survive. `WholeRequest.WholeWordsComeBack` states them on strings. Regular expressions are given as the matches they find.
- Report.Run: the findings of the rules that walk lists are two given lists; titles, details and other texts of findings are left out, with the sorted list of containers in a title.
- ComposeCheck.CleanupRestores: deletions are taken to succeed.
- ComposeDeploy.UndoRestores: file modes, owners and created directories are not restored by the code and not modelled, nor is an empty directory where a file is to be written, which the undo deletes.
- Fail2banApply.Host.Apply: the writes and deletions of the rollback itself are taken to succeed, but for a text that is too large.
- Limiter.Limiter.Allow: times are unbounded integers of nanoseconds; `Duration` saturates after 292 years.
- Uploads.RollbackRestoresIff: no command of the rollback fails, and it can hash every file; the lemmas on changed and other files hold with failures too.
- WebSocket.StreamTexts: the server's frames are unmasked and unfragmented, as the client assumes; JSON is left out.
- LogStream.EverySchedule: the frames of stderr, which another goroutine writes, are left out.
- A char stands for a byte; upper and lower case and white space are those of ASCII.
- Redaction of secrets is a parameter of Hide.
- A restart of the service, which empties the registry of deletions, is left out.
- The version that a rollback of an upload records of the current content is left out: nothing reads it.
- HTTP routing, decoding, authentication, audit records, translations, external commands, TLS and yamux are left out.
