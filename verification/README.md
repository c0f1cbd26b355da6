# Verification of the deployment backend's kernels

Infinito's deployer is a web application: an API that keeps workspaces on disk, runs
deployment jobs in containers, streams their logs to a browser, quotes prices and limits
request rates. This project models the parts of it that carry invariants and proves them for
all inputs, all runs and all interleavings. `dafny verify dfyconfig.toml` checks everything.

| file | what it models |
|---|---|
| Wrappers, Sequences, Text | options and results, sequences without one element, Python's `strip` and `splitlines` |
| VaultRotation, VaultDocuments, VaultReset, VaultKeys | rotating the vault blocks of a file, described line by line, and of a whole workspace; a witness that suitable keys exist |
| Masking, MaskMapping | removing secrets from text and documents, collecting them |
| RunnerManager, LocalRunner | the life of a job: cancel requests beside the finalizer, in any interleaving |
| OrphanSweep | the sweep beside running jobs |
| LineSplitter, LogLines, LogHub, Sse | the log pipeline from process output to the page in the browser |
| Trees, YamlStore, YamlPaths | YAML mappings as values, and as dictionaries that may be shared |
| RelatedRoles | the closure of a role selection |
| Membership | owner, members and invitations of a workspace |
| TierPricing, Quote, QuotedPrices | tiers, bands, bundles, addons, factors, commitment, rounding |
| RateLimit | the fixed-window limiter and its cleanup |

Code that updates state in place is modelled by classes and loops, each tied by its contract
to a specification function; the promises are proved about those functions, and for each of
them there are laws that do not mention it: reads of the result, literal texts and names, or
fields before and after. Concurrent code is
modelled as a state machine whose steps are the reads, writes and external calls of the source.

What the source promises and the code does not quite do is stated exactly:

- The step that replaces a secret by the mask brings back exactly the secrets that begin or end
  with an asterisk or contain the mask (`Masking.MaskProofIsExact`). Patterns that follow may
  still remove such a secret; they never add one that is mask-proof.
- A log line is written behind a stamp that is not masked. A secret that is in the stamp, or
  begins with its end, can show in `job.log` and in the hub (`LogLines.ShownExactly`,
  `LogLines.BlankStartIsShown`). The page is sent each line masked again as a whole, so it does not
  show there while the secrets are remembered (`LogLines.SentLineHoldsNone`); a stream that is opened
  after they were forgotten masks with an empty list (`LogLines.ForgottenIsSent`).
- The output of a job that the runner manager executes is written with an empty secret list
  (`apps/api/services/runner_manager_service_runtime.py:108`), so the results about written lines
  speak of local jobs.
- In the runner manager a verdict can be overwritten by a request or a finalizer that read the
  record earlier (`RunnerManager.VerdictIsFinal`). From every created job there are runs in which
  a cancelled job ends as failed and a succeeded one as cancelled (`RunnerManager.KilledJobCanFail`,
  `RunnerManager.SuccessCanBeCanceled`). In the local runner a process that a cancel ended always
  shows as cancelled; other verdicts can be overwritten there too (`LocalRunner.VerdictStands`,
  `LocalRunner.CancellationCanBeLost`, `LocalRunner.LocalSuccessCanBeLost`).
- Networks are swept before sidecars, so a sidecar delays the removal of its network to the next
  sweep (`OrphanSweep.SecondSweep`, `OrphanSweep.SidecarDelaysNetwork`).
- Delete after set restores a mapping only under the condition of `Trees.RestorableMeans`.
- The page gets an event unchanged exactly if its data have no line break, U+0085, U+2028 and
  U+2029 included (`Sse.PageSees`); the stream interpretation follows sections 9.2.5 and 9.2.6 of
  the WHATWG HTML Living Standard.
- Progressive tiers are not sorted. The charge is the sum over the tiers for all prices exactly if
  the bounds do not decrease up to the quantity (`TierPricing.SumIsExact`).

Parameters stand for what the code cannot see: the cipher (any encryptor whose output, stripped,
starts with the header, has no blank or indented line and decrypts to the plaintext), the
regular expressions of the masking passes (any disjoint ranges), clocks, exit codes, generated
passwords, Docker's behaviour on removal (refused while something is attached), the role index.

## Model

| member | source | states |
|---|---|---|
| VaultRotation.ScanKeepsLines | apps/api/services/workspaces/mixins/vault_rotation.py:30-80 | The scan into plain and vault segments loses, adds and reorders no line. |
| VaultRotation.ExtentIsLocal | apps/api/services/workspaces/mixins/vault_rotation.py:43-58 | Where a block ends depends only on the block and on the one line that ends it, not on the rest of the file. |
| VaultRotation.ExtentEnds | apps/api/services/workspaces/mixins/vault_rotation.py:46-58 | The line that ends a block is not blank and is indented too little to belong to it. |
| VaultRotation.FindBlockEnd | apps/api/services/workspaces/mixins/vault_rotation.py:44-58 | The inner loop finds the end and the indentation of the block that the recursive definition gives. |
| VaultRotation.ReadBlock | apps/api/services/workspaces/mixins/vault_rotation.py:65-75 | The text handed to the decryptor is the dedented, stripped block. |
| VaultRotation.RotateAt | apps/api/services/workspaces/mixins/vault_rotation.py:36-111 | One round of the scanner writes the rotated form of the segment at its index, or reports the decrypt or encrypt failure with that line number. |
| VaultRotation.RotateLines | apps/api/services/workspaces/mixins/vault_rotation.py:35-111 | The in-place scanner computes exactly the segment-wise rotation, its block count and its first failure. |
| VaultRotation.RotateText | apps/api/services/workspaces/mixins/vault_rotation.py:28-116 | The same for a whole text, with the final line feed kept if there was one. |
| VaultRotation.Rescan | apps/api/services/workspaces/mixins/vault_rotation.py:35-111 | Scanning the output of any rotation finds exactly the rotated segments: same start lines, same indentation, same plain lines in between. |
| VaultRotation.RotationKeepsMeaning | apps/api/services/workspaces/mixins/vault_rotation.py:82-111 | Plain lines are kept verbatim and in order, each block opens under the new key to its old plaintext, and the count is the number of blocks. |
| VaultRotation.RescanText | apps/api/services/workspaces/mixins/vault_rotation.py:28-116 | Reading a written file back finds one block for each original one, in order, each with the old plaintext, whether or not the file ended with a line feed. |
| VaultRotation.OpenBlocksRotate | apps/api/services/workspaces/mixins/vault_rotation.py:82-105 | A file whose blocks all open can only fail to rotate in the encryptor. |
| VaultRotation.ThereAndBack | apps/api/services/workspaces/mixins/vault_rotation.py:25-116 | Rotating to a new key and back to the first preserves every plaintext and the number of blocks. |
| VaultDocuments.StartMeans | apps/api/services/workspaces/mixins/context.py:27-27 | A line starts a block exactly if it holds `!vault`, white space and a bar in a row, whatever stands before and behind. |
| VaultDocuments.DocumentRotates | apps/api/services/workspaces/mixins/vault_rotation.py:28-116 | A file put together from lines without a tag and tagged lines with an indented block rotates item by item: each encrypted block is decrypted, encrypted with its number, and written under its line at its indentation; everything else stays; the count is the number of encrypted blocks, and a failure names the line of the first one that fails. |
| VaultDocuments.SecretRotates | apps/api/services/workspaces/mixins/vault_rotation.py:36-111 | One secret in a file of its own, at any margin, with anything before and behind the tag, becomes that line and the indented lines of the new ciphertext, with count one. |
| VaultDocuments.NoTagNoChange | apps/api/services/workspaces/mixins/vault_rotation.py:28-116 | A file in which no line holds a tag keeps its lines and counts no block; if line feeds are its only breaks it is the same text. |
| Text.SplitAtBreak | apps/api/services/workspaces/mixins/vault_rotation.py:30-30 | Each line break, in the sense of `str.splitlines`, ends a line, and CR LF is a single one. |
| Text.BreaksAre | apps/api/services/workspaces/mixins/vault_rotation.py:30-30 | These are the ten breaks, all of them white space. |
| Text.StripMeans | apps/api/services/workspaces/mixins/vault_rotation.py:75-75 | Stripping takes white space off both ends and leaves none there. |
| VaultReset.FileResealed | apps/api/services/workspaces/mixins/vault_rotation.py:25-116 | What one file of a reset becomes: as many blocks as were counted, each opening under the new key to its old plaintext. |
| VaultReset.ResealedOpens | apps/api/services/workspaces/mixins/security.py:172-192 | Every block that is recognised in a resealed file opens under the new key. |
| VaultReset.VaultStore.RotateFiles | apps/api/services/workspaces/mixins/security.py:179-189 | The file loop reseals exactly the listed files, leaves all others and counts changed files and blocks; files without blocks are not written. |
| VaultReset.TotalsMean | apps/api/services/workspaces/mixins/security.py:179-189 | The totals are the number of listed files that hold a block, and the number of all their blocks. |
| VaultReset.VaultStore.ResetVaultPassword | apps/api/services/workspaces/mixins/security.py:151-199 | If the reset returns, every recognised block of every listed file opens under the stored password and the totals are right; an unset or unchanged password is refused with nothing changed; on any failure the stored password stays. |
| VaultKeys.EveryPasswordHasKey | apps/api/services/workspaces/mixins/security.py:172-177 | A witness, for an encoding of its own and not for the cipher of these lines: what the vault theorems ask of the two keys can be met for every password and every plaintext. |
| Masking.MaskSeparates | apps/api/services/job_runner/secrets.py:89-112 | Putting the mask between two texts without the secret creates no occurrence of it. |
| Masking.RedactAddsNone | apps/api/services/job_runner/secrets.py:101-110 | Masking any disjoint ranges of a text without the secret leaves it without the secret. |
| Masking.ReplaceRemoves | apps/api/services/job_runner/secrets.py:97-99 | Leftmost non-overlapping replacement by the mask removes every occurrence of a mask-proof secret. |
| Masking.ReplaceJoins | apps/api/services/job_runner/secrets.py:97-99 | A text is cut at the leftmost occurrences of the secret, and the pieces are joined by the mask; nothing else of it changes. |
| Masking.UntouchedStays | apps/api/services/job_runner/secrets.py:89-112 | A text in which no secret occurs and no pattern matches is left as it is. |
| Masking.EachPassMasks | apps/api/services/job_runner/secrets.py:101-110 | In a text without secrets each pass masks what it matches, and one that looks like a web token becomes the mask. |
| Masking.StarFreeIsMaskProof | apps/api/services/job_runner/secrets.py:95-99 | Every non-empty secret without an asterisk is mask-proof. |
| Masking.MaskedHoldsNone | apps/api/services/job_runner/secrets.py:89-112 | No listed mask-proof secret is left in the result, for every order of replacement and whatever the patterns match. |
| Masking.MaskProofIsExact | apps/api/services/job_runner/secrets.py:95-99 | Replacing a single secret by the mask removes it from every text if and only if it is mask-proof: it neither begins nor ends with an asterisk nor contains the mask. |
| Masking.MaskProofForAllPatterns | apps/api/services/job_runner/secrets.py:89-112 | The same for the whole pass, over all texts and over all patterns that may follow the replacement, not only the fixed ones of the source. |
| Masking.WholeIsReplaced | apps/api/services/job_runner/secrets.py:97-99 | Because longer secrets come first, a text that is itself a listed secret is replaced as a whole, and only shorter secrets go on from the mask. |
| Masking.WholeSecret | apps/api/services/job_runner/secrets.py:89-112 | Nothing but asterisks is left of a text that is itself a listed secret, whatever the other secrets are and whatever the patterns match. |
| Masking.WholeSecretIsMask | apps/api/services/job_runner/secrets.py:97-99 | It is the bare mask when every secret has some other character than an asterisk. |
| Masking.MaskSecrets | apps/api/services/job_runner/secrets.py:89-112 | The loop replaces the distinct non-empty secrets longest first and leaves no listed mask-proof secret in its result, and of a text that is itself a secret nothing but asterisks. |
| MaskMapping.MaskTreeHoldsNone | apps/api/services/job_runner/secrets.py:115-136 | No string value of a masked document contains a listed mask-proof secret, at any depth; keys are not values and stay as they are. |
| MaskMapping.MaskTreeKeepsShape | apps/api/services/job_runner/secrets.py:115-136 | Masking keeps all keys, list lengths and other values; a string that is a secret or looks like a token becomes the mask, another is masked within, and under a secret key there is the bare mask. |
| MaskMapping.SecretKeyMeans | apps/api/services/job_runner/secrets.py:43-45 | A key is secret exactly if some part of it, in capital or small letters, is one of the ten words. |
| MaskMapping.CollectedMeans | apps/api/services/job_runner/secrets.py:59-75 | Collected are exactly the parts that are not empty and the stripped lines of the private key, each once. |
| MaskMapping.DedupedGrows | apps/api/services/job_runner/secrets.py:78-86 | What was collected stays in its place when more is found. |
| MaskMapping.Dedupe | apps/api/services/job_runner/secrets.py:78-86 | Each entry is kept once, in the order of first occurrence. |
| MaskMapping.CollectSecrets | apps/api/services/job_runner/secrets.py:59-75 | Collects passwords, the private key, each of its stripped non-blank lines and the passphrase, each once. |
| RunnerManager.RunAdvances | apps/api/services/runner_manager_service_runtime.py:249-277 | Over any interleaving of requests and finalizer nothing released comes back, and a job with a verdict is never queued or running again. |
| RunnerManager.FinishedMeansReleased | apps/api/services/runner_manager_service_runtime.py:249-277 | When all requests and the finalizer of a created job have finished, in whatever interleaving with each other and with orphan sweeps, the job has a verdict and an end time, and container, network, attachments, secret volume, key file and secrets directory are gone. |
| RunnerManager.WhoReleases | apps/api/services/runner_manager_service_runtime.py:249-277 | Only the end of the process or container, a request, or a sweep after the verdict takes the container away; network and volume go by a request, the finalizer or such a sweep, and only when nothing holds them. |
| RunnerManager.VerdictTells | apps/api/services/runner_manager_service_runtime.py:423-426 | Over every run a job counts as succeeded only if its process exited with zero and as failed only if it exited otherwise; the record holds that code and the time of one of the steps; without a request it is not cancelled. |
| RunnerManager.VerdictIsFinal | apps/api/services/runner_manager_service_runtime.py:397-433 | A verdict stays in every continuation if and only if no request and no finalizer still has to write back a record that it read before the verdict. |
| RunnerManager.FirstVerdictStays | apps/api/services/runner_manager_service_runtime.py:397-433 | With operations that do not overlap the whole record stays as it was first finished. |
| RunnerManager.KilledJobCanFail | apps/api/services/runner_manager_service_runtime.py:258-272 | The kill precedes the write: from every created job there is a run in which the only request ends the process and the job still ends as failed. |
| RunnerManager.SuccessCanBeCanceled | apps/api/services/runner_manager_service_runtime.py:255-272 | From every created job there is a run in which the finished job shows as succeeded and ends as cancelled, because the request had read it while it was running. |
| RunnerManager.AloneIsRun | apps/api/services/runner_manager_service_runtime.py:249-277 | A request that nothing interrupts does what the whole operation does. |
| RunnerManager.CancelAlone | apps/api/services/runner_manager_service_runtime.py:258-277 | The net effect of an uninterrupted cancel, and none on a finished job. |
| RunnerManager.FinalizeAlone | apps/api/services/runner_manager_service_runtime.py:408-433 | The net effect of an uninterrupted finalizer. |
| RunnerManager.CancelLeaves | apps/api/services/runner_manager_service_runtime.py:258-277 | Field by field what an uninterrupted cancel leaves: record, signal, container, attachments, network, volume and files, each depending on what is named. |
| RunnerManager.FinalizerLeaves | apps/api/services/runner_manager_service_runtime.py:408-433 | Field by field what the uninterrupted finalizer leaves. |
| RunnerManager.RunnerJob.Disconnect | apps/api/services/runner_manager_service_sweep.py:333-362 | Detaches every named target, and nothing when there is no network. |
| RunnerManager.RunnerJob.ConnectTargets | apps/api/services/runner_manager_service_sweep.py:301-323 | Attaches the targets one by one. |
| RunnerManager.RunnerJob.Release | apps/api/services/runner_manager_service_runtime.py:92-100 | The handlers of a failed start detach, remove the network and remove the volume. |
| RunnerManager.RunnerJob.MakeArtifacts | apps/api/services/runner_manager_service_runtime.py:86-100 | Network, secret volume and attachments are made in this order; where one fails, what was made before is released, except targets already attached and the network they keep. |
| RunnerManager.RunnerJob.Start | apps/api/services/runner_manager_service_runtime.py:19-222 | A start that succeeds reaches the state in which the protocol begins. One that fails in creating the network changes nothing; one that fails later releases network, attachments, volume and container and records the failure where the source does; one that fails while attaching leaves the targets attached so far, and the network exactly if there are any; a running job is left alone. |
| RunnerManager.RunnerJob.CancelJob | apps/api/services/runner_manager_service_runtime.py:249-277 | The steps of a cancel amount to the uninterrupted request of the protocol; without a record it returns false and changes nothing. |
| RunnerManager.RunnerJob.WaitAndFinalize | apps/api/services/runner_manager_service_runtime.py:408-433 | The steps of the finalizer amount to the uninterrupted finalizer of the protocol. |
| LocalRunner.KilledIsCanceled | apps/api/services/job_runner/job_runner_runtime.py:248-279 | In every interleaving a process that a cancel request ended shows as cancelled, from the moment it ends. |
| LocalRunner.EndedMeansForgotten | apps/api/services/job_runner/job_runner_runtime.py:290-318 | Once the finalizer is done the job has a verdict and an end time, and neither secret files nor remembered secrets are left. |
| LocalRunner.RequestLeaves | apps/api/services/job_runner/job_runner_runtime.py:248-279 | Field by field what an uninterrupted cancel of a local job leaves. |
| LocalRunner.VerdictStands | apps/api/services/job_runner/job_runner_runtime.py:248-318 | A verdict stands in every continuation if and only if nobody holds an unfinished record that still has to be written: for a cancellation the finalizer, for success or failure a request. |
| LocalRunner.CancellationStands | apps/api/services/job_runner/job_runner_runtime.py:248-318 | For a cancellation: if and only if the finalizer does not hold an unfinished record that it still has to write. |
| LocalRunner.CancellationCanBeLost | apps/api/services/job_runner/job_runner_runtime.py:248-318 | From every started job there is a run in which a cancelled job ends as succeeded, because the finalizer had read the record before the request came. |
| LocalRunner.LocalSuccessCanBeLost | apps/api/services/job_runner/job_runner_runtime.py:248-318 | From every started job there is a run in which the finished job shows as succeeded and ends as cancelled, because the request had read it while it was running. |
| LocalRunner.LocalJob.Start | apps/api/services/job_runner/job_runner_runtime.py:73-213 | A start that fails before anything is launched leaves the job queued and its secrets where they are; one that fails in launching, here or in the runner manager, leaves a failed job with exit code 127 and no secrets; one that succeeds reaches the state in which the protocol begins, or stays queued for the runner manager. |
| LocalRunner.LocalJob.CancelJob | apps/api/services/job_runner/job_runner_runtime.py:248-279 | The steps of a cancel amount to the uninterrupted request; a managed job is left to the runner manager and only its remembered secrets go. |
| LocalRunner.LocalJob.WaitAndFinalize | apps/api/services/job_runner/job_runner_runtime.py:290-318 | The steps of the finalizer amount to the uninterrupted finalizer. |
| LogHub.LogHub.Publish | apps/api/services/job_runner/log_hub.py:51-62 | Appends to the bounded buffer and puts the line into each subscriber queue in which fewer than 1000 lines wait; other queues and jobs stay. |
| LogHub.LogHub.Subscribe | apps/api/services/job_runner/log_hub.py:64-71 | Adds one empty queue and returns the buffer of that moment, or nothing without replay. |
| LogHub.LogHub.Unsubscribe | apps/api/services/job_runner/log_hub.py:73-86 | Removes one subscriber of one job, and reports a release exactly when it was the last. |
| LogHub.RunKeeps | apps/api/services/job_runner/log_hub.py:51-82 | In every interleaving each line that a queue is owed is in exactly one place: received, dropped or under way; nothing else is in any of them; the replay is the last lines before the subscription. |
| LogHub.EachLineOnce | apps/api/services/job_runner/log_hub.py:51-71 | A caught-up queue that never was full holds each later line once, and with the replay each of the last buffer-size and all later lines once, for any number of publishers. |
| LogHub.NeverTwice | apps/api/services/job_runner/log_hub.py:57-62 | A line is received at most once; one that is neither received nor under way was dropped. |
| LogHub.DroppedWhenFull | apps/api/services/job_runner/log_hub.py:57-67 | In every run a line is dropped from a queue if and only if 1000 lines waited in it when it was delivered. |
| LogHub.RoomyQueueGetsAll | apps/api/services/job_runner/log_hub.py:51-71 | Over every run, a queue in which fewer than 1000 lines wait at each delivery receives each line between subscription and leaving once and no other line; from one publisher in their order, right behind the replay. |
| LogHub.SubscriberSees | apps/api/services/job_runner/log_hub.py:64-71 | A subscriber that asks for it is shown the last buffer-size lines published before, and still holds them at the end of every run. |
| LogHub.LeaverGetsNoMore | apps/api/services/job_runner/log_hub.py:73-82 | A subscriber that left receives no line published afterwards. |
| LogHub.InOrderOfPublication | apps/api/services/job_runner/log_hub.py:51-71 | Under one publisher replay and queue together are one stretch of the log, in order. |
| LogHub.PublishAlone | apps/api/services/job_runner/log_hub.py:51-62 | An uninterrupted publish is a run of the protocol with the effect of the class method. |
| Trees.MergesAgree | apps/api/services/job_runner/job_runner_workspace.py:241-250 | The in-place merge of missing entries and the copying merge with the operands exchanged give the same mapping. |
| Trees.MergeKeeps | apps/api/services/workspaces/mixins/context.py:283-294 | After a merge every old scalar is in its place, mappings stay mappings, and a path is present exactly if it was or the source offers it and no scalar is in its way; new scalars are those of the source. |
| Trees.MergeReads | apps/api/services/job_runner/job_runner_workspace.py:241-250 | What the copying merge reads at any path, in terms of reads of both operands only. |
| Trees.NothingAdded | apps/api/services/workspaces/mixins/context.py:283-294 | The count of additions is zero exactly when the merge changes nothing. |
| Trees.AddedPaths | apps/api/services/workspaces/mixins/context.py:283-294 | The counted paths are exactly those that only the source has right below a mapping of both. |
| Trees.MergeIsIdempotent | apps/api/services/workspaces/mixins/context.py:283-294 | A second merge with the same source changes nothing and adds nothing. |
| Trees.Materialise | apps/api/services/job_runner/job_runner_workspace.py:298-306 | The loop over the override keys merges under existing non-empty mappings and copies elsewhere. |
| Trees.MaterialisedReads | apps/api/services/job_runner/job_runner_workspace.py:298-306 | By reads: under a key of the overrides where the host has a mapping with entries the host's values stay and missing ones are added; where it has nothing, a scalar or an empty mapping the override is written; other keys stay. |
| Trees.MaterialiseIsIdempotent | apps/api/services/job_runner/job_runner_workspace.py:298-306 | Materialising the same group variables twice gives what once gives. |
| Trees.GetAfterSet | apps/api/services/workspaces/mixins/inventory_role_apps.py:248-257 | After a set the path reads the value and every path that diverges from it reads as before. |
| Trees.DivergeMeans | apps/api/services/workspaces/mixins/inventory_role_apps.py:248-282 | Paths diverge exactly if neither is a beginning of the other. |
| Trees.DeletedIsGone | apps/api/services/workspaces/mixins/inventory_role_apps.py:260-282 | After a delete nothing is at the path. |
| Trees.DeleteKeepsOthers | apps/api/services/workspaces/mixins/inventory_role_apps.py:260-282 | A delete, with its pruning, changes no path that diverges from its own. |
| Trees.WayMeans | apps/api/services/workspaces/mixins/inventory_role_apps.py:260-282 | A delete finds its way exactly if every proper beginning of the path reads a mapping; otherwise nothing changes. |
| Trees.PrunedExactly | apps/api/services/workspaces/mixins/inventory_role_apps.py:260-282 | A mapping on the way stays if and only if a path beside the deleted one reads something below it. |
| Trees.DeleteAfterSet | apps/api/services/workspaces/mixins/inventory_role_apps.py:248-282 | Delete after set restores the mapping if and only if the path was restorable. |
| Trees.RestorableMeans | apps/api/services/workspaces/mixins/inventory_role_apps.py:248-282 | Restorable means: nothing was at the path, and no proper non-empty prefix held an empty mapping or something else than a mapping. |
| YamlStore.Frame | apps/api/services/workspaces/mixins/context.py:283-294 | A tree of dictionaries does not change while its own dictionaries stay the same. |
| YamlStore.Store.DeepCopy | apps/api/services/workspaces/mixins/context.py:287-287 | The copy shows the same tree, consists of new dictionaries only and leaves all old ones as they are. |
| YamlStore.Store.MergeMissing | apps/api/services/workspaces/mixins/context.py:283-294 | In place, the destination becomes the merge and nothing else changes; the source is unchanged and shares no dictionary with the destination; the result is the number of added paths. |
| YamlStore.Store.MergeNested | apps/api/services/job_runner/job_runner_workspace.py:241-250 | Returns new dictionaries that show the merge; all old dictionaries stay. |
| YamlPaths.SetPath | apps/api/services/workspaces/mixins/inventory_role_apps.py:248-257 | In place, the target becomes the tree with the value set; dictionaries outside the target are untouched. |
| YamlPaths.DeletePath | apps/api/services/workspaces/mixins/inventory_role_apps.py:260-282 | In place, the target becomes the tree with the entry deleted and empty ancestors pruned, up to but not including the target. |
| RelatedRoles.WalkToBall | apps/api/services/job_runner/related_roles.py:120-144 | A role at the end of a walk from the selection is found within as many rounds as the walk has steps. |
| RelatedRoles.BallToWalk | apps/api/services/job_runner/related_roles.py:120-144 | A role found within n rounds is at the end of a walk from the selection with at most n steps. |
| RelatedRoles.StepMeans | apps/api/services/job_runner/related_roles.py:131-142 | A step leads from a role to each id it names, stripped and not empty. |
| RelatedRoles.StartsMean | apps/api/services/job_runner/related_roles.py:120-120 | The search starts from the selected ids that are not empty, stripped. |
| RelatedRoles.SearchIsComplete | apps/api/services/job_runner/related_roles.py:124-142 | When the worklist is empty exactly the reachable roles have been found. |
| RelatedRoles.QueueCandidates | apps/api/services/job_runner/related_roles.py:136-142 | One round appends each new candidate once to the related roles and to the queue. |
| RelatedRoles.ResolveRelatedRoles | apps/api/services/job_runner/related_roles.py:112-144 | On any finite graph the worklist ends and returns, without duplicates and empty ids, exactly the roles reachable from the selection and not in it, none further away before a nearer one. |
| Membership.LoadedIsNormal | apps/api/services/workspaces/mixins/rbac.py:41-67 | Reading the member list normalises it, and reading a normal list changes nothing. |
| Text.LowerMeans | apps/api/services/workspaces/mixins/rbac.py:36-39 | Lower case changes the letters from A to Z to the small ones and nothing else. |
| Membership.RunKeeps | apps/api/services/workspaces/mixins/rbac.py:74-331 | Over every run of the four operations ids and emails of owner and entries stay pairwise distinct, an owned workspace keeps exactly one owner, who is not a member, and what is stored is what is read. |
| Membership.CreatedHolds | apps/api/services/workspaces/mixins/management.py:126-132 | A new workspace satisfies the invariant and belongs to its creator. |
| Membership.AccessMeans | apps/api/services/workspaces/mixins/rbac.py:84-120 | A request without an id is admitted exactly if there is no owner; a user exactly if they are owner or member, or an entry without an id has their email, in an owned workspace. |
| Membership.AccessChanges | apps/api/services/workspaces/mixins/rbac.py:92-120 | Who has access changes nothing by entering; anybody else who is admitted gets the first entry without an id that has their email, with their id and the time. |
| Membership.InviteMeans | apps/api/services/workspaces/mixins/rbac.py:211-236 | An invitation succeeds exactly if the email is not blank and neither owner nor entry has its lower-case form; one pending entry is appended; otherwise 400 or 409. |
| Membership.RemoveMeans | apps/api/services/workspaces/mixins/rbac.py:246-280 | A removal succeeds exactly if the stripped key is not empty and neither the owner's id nor email, and some entry has it as id or, in lower case, as email; the first such entry goes and nothing else changes; otherwise 400 or 404. |
| Membership.RemovedIsUninvited | apps/api/services/workspaces/mixins/rbac.py:246-280 | Once the entry with an email is removed, no entry has that email and nobody is admitted by an invitation to it. |
| Membership.TransferMeans | apps/api/services/workspaces/mixins/rbac.py:282-331 | A hand-over succeeds exactly if there is an owner and the stripped id is not theirs but an entry's; that user becomes the owner and the former owner a member; otherwise 400 or 409. |
| Membership.AccessConserved | apps/api/services/workspaces/mixins/rbac.py:92-118 | After any step a user has access exactly if the step does not remove their own entry and they had access before, or it claims an invitation to their email for them. |
| Membership.AccessOverRuns | apps/api/services/workspaces/mixins/rbac.py:74-331 | Over a run access is lost only where the own entry is removed and gained only where an invitation is claimed. |
| Membership.TransferConserves | apps/api/services/workspaces/mixins/rbac.py:282-331 | A hand-over exchanges owner and member and loses nobody. |
| Membership.TransferBack | apps/api/services/workspaces/mixins/rbac.py:282-331 | Handing over and back succeeds and restores the owner and the collection of ids and emails. |
| Membership.Workspace.AssertAccess | apps/api/services/workspaces/mixins/rbac.py:80-120 | The checks in their order, the two loops and the claim amount to the access rule; only a claim is written back. |
| Membership.Workspace.InviteMember | apps/api/services/workspaces/mixins/rbac.py:211-236 | Refuses an empty email, the owner's and a listed one, and otherwise appends one pending entry. |
| Membership.Workspace.RemoveMember | apps/api/services/workspaces/mixins/rbac.py:247-280 | Refuses an empty key, the owner and an unknown key, and otherwise removes the first entry that the key names. |
| Membership.Workspace.TransferOwnership | apps/api/services/workspaces/mixins/rbac.py:285-331 | Refuses as the source does, and otherwise promotes the member and appends the former owner. |
| TierPricing.CalcProgressiveTiers | apps/api/services/pricing_resolution.py:345-380 | The loop charges what the recursive definition charges, for any order of bounds, and reports the first missing price that is needed. |
| TierPricing.ChargeIsSum | apps/api/services/pricing_resolution.py:356-380 | With bounds in order up to the quantity the loop succeeds exactly if every tier with a share has a price, and then charges the sum over the tiers of price times share. |
| TierPricing.SumIsExact | apps/api/services/pricing_resolution.py:356-380 | For given bounds and quantity the charge is that sum for all prices if and only if the bounds, capped at the quantity, do not decrease up to the first tier without one. |
| QuotedPrices.UnitPrice | apps/api/services/pricing_resolution.py:356-380 | With ascending bounds every unit costs the price of the tier it lies in: between two quantities in one tier the charge grows by their difference times that price. |
| QuotedPrices.RegionalPriceFirst | apps/api/services/pricing_resolution.py:209-242 | With regional prices only the one of the market's region counts, without them only the one of the currency, in any region. |
| TierPricing.MoreCostsMore | apps/api/services/pricing_resolution.py:356-380 | A charge that succeeds also succeeds for fewer units; it does not decrease with the quantity and grows by at most the highest price for each unit. |
| TierPricing.BeyondLastBound | apps/api/services/pricing_resolution.py:356-380 | Beyond the last bound the result, charge or failure, is the one at that bound. |
| TierPricing.UnboundedTierEnds | apps/api/services/pricing_resolution.py:360-378 | Nothing after a tier without a bound is looked at. |
| TierPricing.UnorderedDiffers | apps/api/services/pricing_resolution.py:363-366 | An example out of order: three tiers for which the charge is 31 and the sum 21. |
| TierPricing.CalcVolumeBands | apps/api/services/pricing_resolution.py:383-401 | The loop takes the first band that covers the quantity. |
| TierPricing.VolumeMeans | apps/api/services/pricing_resolution.py:383-401 | All units are charged at the price of the one band that covers the quantity while no earlier one does; without it there is no price. |
| Quote.EvaluationSplits | apps/api/services/pricing_quote.py:27-163 | Every evaluated amount is base plus usage, neither negative. |
| QuotedPrices.UnitsMean | apps/api/services/pricing_resolution.py:331-342 | The units are read from the input that the block names, else from its unit, else from the users; a missing input is zero, a flag one or zero, and a negative number or a text that is no number fails. |
| QuotedPrices.FixedCosts | apps/api/services/pricing_quote.py:52-63 | A block that is fixed, an addon or of no kind costs its price, all of it base. |
| QuotedPrices.CustomCosts | apps/api/services/pricing_quote.py:42-50 | A block that is priced on request costs nothing and says so. |
| QuotedPrices.UnitBlockCosts | apps/api/services/pricing_quote.py:65-114 | Units cost quantity times price, the sum over the tiers, or quantity times the price of the first band that reaches so far; all of it is usage, and there is a price exactly if what is needed is priced. |
| QuotedPrices.BundleCharges | apps/api/services/pricing_quote.py:116-161 | A bundle charges its base and, for the units beyond the included ones, what its overage block charges for so many units; it has a price exactly if these parts have. |
| QuotedPrices.BundleWithFixedOverage | apps/api/services/pricing_quote.py:138-161 | An overage with a fixed price is added once, and one priced on request makes the bundle fail. |
| QuotedPrices.AddonCosts | apps/api/services/pricing_quote.py:222-259 | An addon that is not wanted costs nothing, a fixed one its price for each one wanted, another what its units cost. |
| QuotedPrices.FactorMeans | apps/api/services/pricing_quote.py:261-275 | A factor multiplies by the number listed for the option, which must not be negative; without an input it does nothing. |
| QuotedPrices.FoldMeans | apps/api/services/pricing_quote.py:222-278 | Adding up and multiplying succeed exactly if every item has a number, and give the running sum or product of these. |
| Quote.FoldPermuted | apps/api/services/pricing_quote.py:222-278 | Sums and products over addons and factors, and whether they succeed, do not depend on the order. |
| Quote.ItemsAddUp | apps/api/services/pricing_quote.py:214-325 | Before rounding the items add up to the total, and the part before the commitment is the plan with its addons times every factor. |
| Quote.AtLeastCommitment | apps/api/services/pricing_quote.py:280-305 | The total is at least minimum commitment plus setup fee; the commitment is marked exactly if it adds something. |
| Quote.OrderIsFree | apps/api/services/pricing_quote.py:222-278 | Permuting addons and factors changes neither success nor quote. |
| Quote.RoundedItems | apps/api/services/pricing_quote.py:305-321 | After rounding to four places the items differ from the total by at most 0.00035. |
| QuotedPrices.Round4Means | apps/api/services/pricing_quote.py:305-325 | The rounded amount is the nearest multiple of a ten-thousandth, an even one where two are as near. |
| QuotedPrices.QuoteShows | apps/api/services/pricing_quote.py:187-325 | The returned quote shows the main block's price under base, or what its units cost under usage, rounded. |
| QuotedPrices.QuoteShowsBundle | apps/api/services/pricing_quote.py:116-325 | And of a bundle the base and the cost of the units beyond the included ones. |
| Quote.AddAddons | apps/api/services/pricing_quote.py:222-259 | The addon loop adds up to the sum, on its own total and on the subtotal. |
| Quote.ApplyFactors | apps/api/services/pricing_quote.py:261-278 | The factor loop multiplies by the product, and the summed differences telescope. |
| Quote.QuoteRolePricing | apps/api/services/pricing_quote.py:187-325 | The whole calculation step by step gives the closed form, rounded, or its first failure. |
| RateLimit.RateLimiter.IncrementCounter | apps/api/services/rate_limits.py:185-217 | Inserts one or increments, and returns the new count. |
| RateLimit.RateLimiter.EnforceWindow | apps/api/services/rate_limits.py:250-267 | One request counts in its aligned window and passes if the count does not exceed the limit. |
| RateLimit.RateLimiter.CleanupExpired | apps/api/services/rate_limits.py:219-232 | Deletes exactly the rows before the horizon and returns how many. |
| RateLimit.MonotoneIsTimely | apps/api/services/rate_limits.py:131-136 | A clock that does not run back is timely, because the horizon is four windows. |
| RateLimit.ThreeWindowsAreTimely | apps/api/services/rate_limits.py:131-136 | A clock that runs back by at most three windows of the request's rule is timely too. |
| RateLimit.CleanupKeeps | apps/api/services/rate_limits.py:219-232 | A counter is kept exactly if its window began no more than four windows of one of the rules, or a minute, ago. |
| RateLimit.CleanupIsInvisible | apps/api/services/rate_limits.py:219-267 | Under any timely clock exactly the first `limit` requests of a client and window pass, and each decision is that of a limiter that never cleans up. |
| RateLimit.RowPasses | apps/api/services/rate_limits.py:185-267 | In every window exactly as many requests pass as were made, up to the limit. |
| RateLimit.TwoWindows | apps/api/services/rate_limits.py:68-71 | A half-open interval one window long meets at most two aligned windows. |
| RateLimit.AtMostTwice | apps/api/services/rate_limits.py:68-71 | At most twice the limit pass in any half-open interval one window long. |
| RateLimit.TwiceIsReached | apps/api/services/rate_limits.py:68-71 | Twice the limit can pass within two microseconds. |
| OrphanSweep.RunnerHost.SweepStaleJobDirs | apps/api/services/runner_manager_service_sweep.py:424-448 | Deletes exactly the directories of inactive, finished jobs that ended no later than the cutoff. |
| OrphanSweep.RunnerHost.SweepOrphans | apps/api/services/runner_manager_service_sweep.py:450-508 | The four removal loops in their order, from one snapshot of active jobs, leave what the closed form says, for any set of failing listings. |
| OrphanSweep.SweepRemoves | apps/api/services/runner_manager_service_sweep.py:465-506 | A working sweep leaves no runner container and no sidecar of an inactive job, and an unneeded network or volume exactly if something that the sweep had not removed by then was using it. |
| OrphanSweep.SweepKeeps | apps/api/services/runner_manager_service_sweep.py:465-506 | Nothing of an active job and nothing outside the sweep's business goes. |
| OrphanSweep.SweepByNames | apps/api/services/runner_manager_service_sweep.py:450-508 | By labels, names and records alone: a container stays exactly if it is no runner and no sidecar of a job that is neither queued nor running; a network or volume goes exactly if it has a job's kind of name, no queued or running job has it, and nothing that is left by then uses it. |
| OrphanSweep.StaleDirsGo | apps/api/services/runner_manager_service_sweep.py:424-448 | A directory goes exactly if its job succeeded, failed or was cancelled and ended at least the retention days ago; other records stay as they are. |
| OrphanSweep.SecondSweep | apps/api/services/runner_manager_service_sweep.py:450-508 | A second sweep removes nothing if and only if no unneeded network was held only by sidecars that the first sweep removed after it. |
| OrphanSweep.SidecarDelaysNetwork | apps/api/services/runner_manager_service_sweep.py:480-493 | A concrete host on which the second sweep still removes a network. |
| OrphanSweep.ActiveJobsKeepArtifacts | apps/api/services/job_runner/job_runner_runtime.py:73-86 | Over every run of jobs that make, attach, mount and release with sweeps at any points, what a queued or running job has made and not released is still there. |
| OrphanSweep.SweepOfJob | apps/api/services/runner_manager_service_sweep.py:450-508 | For a job that is not active, a sweep of the host does to its container, network, attachments and volume what the sweep step of the runner manager's protocol does. |
| OrphanSweep.SweepKeepsActive | apps/api/services/runner_manager_service_sweep.py:58-81 | A sweep deletes no directory of an active job and leaves the same jobs, networks and volumes active. |
| LineSplitter.SplitAssembles | apps/api/services/job_runner/runner.py:86-105 | The emitted lines have no CR or LF, and with one terminator each and the remainder they make up the text. |
| LineSplitter.SplitIsOnlyWay | apps/api/services/job_runner/runner.py:86-105 | That is the only way to take the text apart. |
| LineSplitter.SplitContinues | apps/api/services/job_runner/runner.py:152-160 | Splitting a text at any point and carrying the remainder gives the same lines and remainder. |
| LineSplitter.SplitStreamBuffer | apps/api/services/job_runner/runner.py:86-105 | The loop over both finds computes that decomposition. |
| LineSplitter.SplitLogLines | apps/api/api/routes/deployments.py:111-131 | The second copy computes the same. |
| LogLines.ReadOutput | apps/api/services/job_runner/runner.py:136-162 | For every chunking the reader writes the lines of the whole text, and the remainder if there is one, each masked behind its time stamp. |
| LogLines.Emit | apps/api/services/job_runner/runner.py:142-150 | A raw line is masked and written behind the stamp. |
| LogLines.DecimalMeans | apps/api/services/job_runner/runner.py:144-144 | The number in the stamp is written with digits that read as the number. |
| LogLines.WrittenLineShows | apps/api/services/job_runner/runner.py:142-150 | A mask-proof secret is in a written line exactly if the stamp holds it, or if it begins with the end of the stamp and goes on with the beginning of the masked line. |
| LogLines.ShownExactly | apps/api/services/job_runner/runner.py:142-150 | With patterns that may match anything, some output line shows a mask-proof secret at a given time if and only if the stamp holds it or ends with a beginning of it whose continuation fits on a line. |
| LogLines.OtherStartIsHidden | apps/api/services/job_runner/runner.py:142-150 | A mask-proof secret that begins with another character than those of a stamp is shown at no time. |
| LogLines.BlankStartIsShown | apps/api/services/job_runner/runner.py:142-150 | With patterns that match nothing in it, a mask-proof secret that begins with a blank is shown when the line is the rest of it. |
| LogLines.EmittedLines | apps/api/services/job_runner/runner.py:136-162 | Of all lines written for an output none shows a mask-proof secret that the stamps do not let through, and no raw line holds a terminator. |
| LogLines.CollectedStayHidden | apps/api/services/job_runner/secrets.py:59-112 | The same for any list that holds the secrets collected from a request, each line of the private key among them, such as the list with the runtime vault password. |
| LogLines.SentLineHoldsNone | apps/api/api/routes/deployments.py:197-217 | The route masks the written line again, its stamp included: no mask-proof secret that is still remembered is sent to the page. |
| LogLines.ForgottenIsSent | apps/api/api/routes/deployments.py:197-217 | With an empty list, and patterns that match nothing in it, the line is sent as it was written. |
| Sse.ParseSseFrame | apps/web/app/components/liveDeploymentViewShared.ts:59-90 | The loop of the client computes the fold over the lines of the frame. |
| Sse.PrintedFrameParses | apps/api/api/routes/deployments.py:104-108 | The parser of the client reads a printed frame as the event name and the data lines joined by LF. |
| Sse.ParserFollowsStandard | apps/web/app/components/liveDeploymentViewShared.ts:59-90 | The client reads any frame without CR and blank lines, printed or not, as a browser that follows the standard dispatches it. |
| Sse.JoinGivesBack | apps/api/api/routes/deployments.py:105-107 | Cutting data at line breaks and joining with LF gives them back if and only if their only breaks are LF and they do not end with one. |
| Sse.DataComeBack | apps/web/app/components/liveDeploymentViewShared.ts:59-90 | Applied to a printed frame it returns exactly the original data under exactly that condition. |
| Sse.StreamRoundTrip | apps/api/api/routes/deployments.py:104-108 | A browser that follows the standard dispatches exactly the printed events, in order. |
| Sse.StreamComesBack | apps/api/api/routes/deployments.py:104-108 | All events of a stream come back unchanged if and only if all their data meet the condition. |
| Sse.RewrapParses | apps/web/app/components/live/View.tsx:354-371 | The frame that the page rebuilds from an event gives the data back if they are on one line, and loses some otherwise. |
| Sse.PageSees | apps/web/app/components/live/View.tsx:354-371 | An event that was printed, dispatched by the browser, rewrapped and parsed is the original one if and only if its data have no line break of any kind. |
| Sse.PageSeesAll | apps/web/app/components/live/View.tsx:354-371 | The same for all events of a stream, from printer to page. |

## Left out

- Docker, SSH, subprocess, KeePass, Ansible and PostgreSQL themselves: their calls are operations on maps, sets and flags.
- Bytes: decoding is not modelled, so chunks and files are texts; each chunk of a log is decoded separately by the source.
- Lower case is modelled for ASCII letters only; white space follows `str.isspace`.
- Floating point: prices are real numbers, and rounding goes to the nearest fourth place with ties to even. NaN and infinity do not occur.
- YAML syntax, anchors and aliases: documents are trees of mappings; lists and tagged values are opaque scalars, as the merges and path edits treat them. Mappings are not ordered.
- VaultReset.VaultStore.ResetVaultPassword: says nothing about the files after a failure except which ones may be rewritten, because the source does not undo earlier files; the order of the directory walk is a parameter.
- Blank lines inside and behind a rotated block are dropped by the source; `VaultRotation.RotationKeepsMeaning` speaks of the lines outside blocks.
- A cancel that races with `create`, and `create` called again for a finished job: `running` is written without rereading, so the runs begin after it.
- RunnerManager.RunnerJob.Start: promises a complete release only for a job that holds nothing at the start, and not when attaching targets fails part-way, because the source disconnects none then.
- LocalRunner.LocalJob.Start: starts from prepared files; what prepares them, and the steps between the queued record and the launch, are only told apart by whether they fail.
- The check of a job's workspace before it is cancelled or streamed, and the job list.
- OrphanSweep.ActiveJobsKeepArtifacts: takes a sweep as one step from one snapshot of active jobs, job ids as fresh, and container, network, sidecar and volume names as the source derives them from the id.
- MaskMapping.MaskTreeKeepsShape: keys are texts; the order of replacement is given to the document functions instead of being sorted again at each string.
- LogHub.EachLineOnce: needs that nothing is under way and nothing was dropped; `LogHub.DroppedWhenFull` says when lines are dropped. Releasing memory is only reported.
- LogHub publishers deliver a line to the subscribers in any order, which includes the order of the list.
- The loop that streams events, with its choice between hub and log file, heartbeats and timing, and the `id` and `retry` fields of the event stream.
- RelatedRoles.ResolveRelatedRoles: takes the ids that a role names as a function, so reading role metadata and task files is not modelled; a failing role index returns the empty list in the source.
- Membership: reading malformed member entries, the listing of workspaces and members, and locks; the access check takes no lock in the source and is one step here.
- Finding offering and plan, region checks, resolving inputs and normalising a pricing document: the quote starts from a normalised plan and resolved inputs, and codes are already trimmed.
- RateLimit.AtMostTwice: counts per client and rule and takes the settings as fixed; the check of running deployments and the database are not modelled.
- Role filters, version lists, default aliases, forms, schemas, React components and routes.
