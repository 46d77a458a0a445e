# proxctl: a verified model of its provisioning core

`proxctl` reads a manifest of nodes, and for each node creates a Proxmox VM, attaches an installation medium,
starts it, waits for SSH and finalizes it. This project models the parts of it that carry state, interleaving or
string logic, and proves what they promise.

- **Proxmox** is a map from VMID to a VM record (host, running, configuration keys) and a map from ISO volumes to their
  contents. Each client call is one operation, and each may be accepted, be refused, or take effect and still answer
  with an error.
- **FanOut** is the concurrent executor as a state machine: one goroutine a node, a counting semaphore, one upload
  mutex, a cancelling context, and the two error modes. A run is any list of enabled steps.
- **Lifecycle** and **MultiNode** are the workflows around it, as classes whose methods call Proxmox through an
  environment that may fail at every call and that logs every call and every look at a VM.
- **TraceSchema**, **TraceFile**, **TraceWriter** and **Replay** are the hash-chained trace: writer, reader,
  verifier, replay.
- **Placeholders**, **Walk**, **Redact** and **Passes** are the expansion and the redaction of strings, and the
  in-place walk over a heap with shared cells; **Loader** resolves the manifest's file references.
- **Cmdline** is the kernel command-line patcher.
- **Manifest** and **CreateVM** go from the validator's acceptance to the form that creates a VM; **SshWait** is the
  wait for a new VM. **Text**, **Numbers** and **Wrappers** hold the library functions the others use.

The main results hold for all inputs, all runs and all failure points. Where a claim one would like to make is false
of the code, the code is kept as it is, a lemma gives the input, and another gives the exact condition:

- the medium attached on the build path is not the one uploaded (`Lifecycle.BuildPathCounterexample`,
  `Lifecycle.BuildPathAttachedIff`);
- an accepted manifest can lose a disk (`Manifest.AcceptedDiskLost`, `Manifest.EveryDiskSubmittedIff`) and can reach the
  fallback storage that the comment at `pkg/workflow/single_vm.go:398-400` calls unreachable (`Manifest.AcceptedFallsBack`, `Manifest.FallbackIff`);
- sizes in TiB can wrap around (`CreateVM.SizeLost`, `CreateVM.SizeKeptIff`);
- a string reached twice is expanded twice (`Walk.SharedTwice`); the walk is one expansion of every string exactly when,
  for each cell, expanding it once a path is expanding it once (`Walk.WalksAsMapIff`);
- expanding twice is not expanding once, whatever the sources: `${vault:${vault:A}x}` is the input
  (`Placeholders.ExpansionNotIdempotent`), and for a value that is itself a placeholder
  `Placeholders.ValueExpandedLater` says when the two differ;
- the installer's arguments do not always reach the live system (`Cmdline.LeadingSeparatorMisses`,
  `Cmdline.ArgumentsReachLiveKernelIff`);
- two references to one file are reported as circular although no document that is read is searched for references
  (`Loader.SameFileTwice`, `Loader.ResolveRefs`);
- a bare `${gen:ssh_key}` leaves a marker in the text that is not reported as deferred (`Placeholders.MarkerUnreportedIff`);
- a writer that is given a schema version other than 0 or 1, or text that decoding changes, such as invalid UTF-8, produces
  a file that does not verify (`TraceWriter.InvalidTextFailsToLoad`, `TraceWriter.LoadsWhatWasWritten`).

Where code and documentation disagree the model follows the code. The user guide says that a failed apply is unwound;
`Up` never rolls back: `Lifecycle.SingleVMWorkflow.Up` and `MultiNode.MultiNodeWorkflow.Up` say of every call issued that
it belongs to a plan or a finalize, none of which stops or deletes a VM, and `Lifecycle.FailedUpKeepsVM` says what is left. The comment on `Replay` says one result per
record; in strict mode the results end with the first divergence.

## Model

| member | source | states |
|---|---|---|
| FanOut.ReachableSafety | pkg/workflow/multi_node.go:163-207 | In every reachable state the slots taken are the nodes inside and never more than the limit; at most one node is at the upload; the mutex holder has a slot. |
| FanOut.UploadsHoldMutex | pkg/workflow/single_vm.go:203-209 | In every run, an upload is sent only by the node that holds the mutex at that moment. |
| FanOut.ConfiguredLimit | pkg/workflow/multi_node.go:105-110 | Never more nodes at work than configured, or than 4 without a configured limit, and some run has that many at work. |
| FanOut.StepsPossible | pkg/workflow/multi_node.go:171-207 | A node's next step waits for nothing but a slot, the mutex or its turn; a cancelled context does not stop the calls of a node inside. |
| FanOut.StepKeepsInv | pkg/workflow/multi_node.go:158-208 | Every step of the executor keeps the invariant: slots, mutex, each node's history against its phase, launch order, both modes' error records. |
| FanOut.Serializable | pkg/workflow/multi_node.go:158-208 | Whatever failed or was cancelled, every reachable Proxmox state is the one in which the nodes' effects are applied node after node, each a prefix of its plan. |
| FanOut.CleanRunIsSequential | pkg/workflow/multi_node.go:158-208 | A run in which every node completes ends where applying the sorted nodes one by one ends, for every limit and in both modes. |
| FanOut.ConcurrencyAddsNoFailure | pkg/workflow/multi_node.go:158-208 | If the sequential run is accepted, no interleaving of smooth steps makes any call fail. |
| FanOut.NilIffAllComplete | pkg/workflow/multi_node.go:165-207 | A finished run returns nil exactly when every node finished its whole list. |
| FanOut.ContinueReportsAll | pkg/workflow/multi_node.go:165-188 | With continue-on-error every node was attempted, and the errors are exactly the failing nodes, each once. |
| FanOut.FailedNodeHasCall | pkg/workflow/multi_node.go:165-207 | A node that ended in failure made the call it failed at in this run, and that call was not answered with success. |
| FanOut.FailFastReportsRootCause | pkg/workflow/multi_node.go:190-207 | The error returned in fail-fast mode belongs to a node that failed, and unless the caller cancelled its failing call was made before anything was cancelled. |
| FanOut.FirstErrorStays | pkg/workflow/multi_node.go:190-207 | The first error on record stays the one returned. |
| FanOut.NoDeadlock | pkg/workflow/multi_node.go:171-207 | In every state within the invariant that is not final some step is enabled. |
| FanOut.RunsEnd | pkg/workflow/multi_node.go:171-207 | No run is longer than the measure of its first state, and a run that cannot go on has every node finished. |
| Proxmox.Commute | pkg/workflow/single_vm.go:171-260 | Operations on different VMs commute, acceptance included, unless one uploads what the other uploads or looks for a volume. |
| Proxmox.CommutePast | pkg/workflow/single_vm.go:171-260 | An operation that is accepted after a list it is independent of could have come before it. |
| Proxmox.PerformMeans | pkg/proxmox/vm.go:256-266 | Rejected or refused: nothing changes and the caller sees an error; lost: it takes effect and the caller sees an error; done: it takes effect and the caller sees success. |
| Proxmox.EffectMeans | pkg/proxmox/vm.go:201-320 | What each accepted operation leaves of its VM: there or not, running or not, which keys; and that nothing else changes. |
| MultiNode.DistinctNodesIndependent | pkg/workflow/multi_node.go:158-208 | Distinct VMIDs and names are all that the nodes' lists need in order to commute, uploads included, whatever is missing. |
| MultiNode.UploadNamesDiffer | pkg/workflow/single_vm.go:206 | Nodes with different names upload to different volumes. |
| MultiNode.EachVMAtItsStage | pkg/workflow/multi_node.go:158-208 | In every reachable state each node's VM is exactly at the stage of its own node's progress; without valid options it is never there. |
| MultiNode.NilMeansAllRunning | pkg/workflow/multi_node.go:158-208 | When the executor returns nil, all options were valid, every VMID was free and every VM is created from its form, attached and running. |
| MultiNode.NilMeansOwnImages | pkg/workflow/multi_node.go:158-208 | When the executor returns nil, every node's upload still holds that node's own image. |
| MultiNode.NodeRefinesScript | pkg/workflow/multi_node.go:140-145 | One node's steps in the executor make the calls and changes of its script, failure by failure, and no other node moves. |
| MultiNode.NodeRefinesApply | pkg/workflow/multi_node.go:140-145 | From the moment a node has its slot, its steps make the calls and changes of the single workflow's `Apply`, for every change list and whatever is missing, and fail when it fails. |
| MultiNode.AsksInOrder | pkg/workflow/multi_node.go:158-208 | In every run each node makes the calls of its list in order, none left out and none twice. |
| MultiNode.NilMeansAllFinal | pkg/workflow/multi_node.go:263-290 | When the executor returned nil and no finalize failed, every VM was created here, runs from its form, has empty drives and boots from its disk. |
| MultiNode.FinalVMMeans | pkg/workflow/multi_node.go:263-290 | The VM of a complete `Up`, key by key: finalized, or as attached when that is skipped. |
| MultiNode.UpSucceeds | pkg/workflow/multi_node.go:263-290 | Nothing in the way, lists that could be applied one by one, addresses and good answers throughout give nil. |
| MultiNode.ReverseInPlace | pkg/workflow/multi_node.go:249-251 | Swapping the ends turns the list of names round. |
| MultiNode.MultiNodeWorkflow.IsoMu | pkg/workflow/multi_node.go:113-119 | The upload mutex is allocated once and is the same from then on. |
| MultiNode.MultiNodeWorkflow.PerNode | pkg/workflow/multi_node.go:89-102 | Every per-node workflow shares the settings, the client and the one mutex. |
| MultiNode.MultiNodeWorkflow.Plan | pkg/workflow/multi_node.go:123-138 | Planning only looks, node after node until one stops it; it gives each node's plan and leaves the mutex allocated before the fan-out. |
| MultiNode.PlanningFailsIff | pkg/workflow/multi_node.go:123-138 | Planning fails exactly when some look does not come through or finds its VM there. |
| MultiNode.MultiNodeWorkflow.ApplyPlan | pkg/workflow/multi_node.go:158-208 | For the plans given and every schedule of the goroutines' steps, Proxmox, the calls made and the answer are as the executor's state machine says. |
| MultiNode.EveryNodeLookedFor | pkg/workflow/multi_node.go:253-257 | Whatever failed before, each node is looked for exactly once, in the order given. |
| MultiNode.FailuresAre | pkg/workflow/multi_node.go:253-257 | An error is in the list exactly when some node's work answered with it. |
| MultiNode.MultiNodeWorkflow.DestroyEach | pkg/workflow/multi_node.go:253-257 | Every node is destroyed in the order given, past failures, as the log shows; the errors are those of the nodes that failed, in order. |
| MultiNode.MultiNodeWorkflow.DestroyAll | pkg/workflow/multi_node.go:242-309 | `Down` and `Rollback`: every node looked for once in reverse order past failures, every failure reported, nothing outside the manifest touched, nil means all VMs absent, a second run changes nothing, and a client that never fails gives nil. |
| MultiNode.MultiNodeWorkflow.FinalizeNode | pkg/workflow/finalize.go:232-237 | One node: the calls of its finalize; no other VM changes, the VM is not lost, and nil means exactly its drives and boot order changed. |
| MultiNode.EachVMFinalized | pkg/workflow/finalize.go:226-240 | With distinct VMIDs each VM ends as its own node's answer says, whatever came of the other nodes; nil means drives and boot order reset and all else kept. |
| MultiNode.MultiNodeWorkflow.Finalize | pkg/workflow/finalize.go:226-240 | Every node is finalized in order, past failures, and the errors are those of the nodes that failed; nil means every VM has empty drives and boots from disk; VMs outside the manifest stay as they were. |
| MultiNode.MultiNodeWorkflow.ApplyEach | pkg/workflow/multi_node.go:268-277 | The dry run goes through all nodes, fails nowhere and changes nothing. |
| MultiNode.UpAsksNoTeardown | pkg/workflow/multi_node.go:263-290 | Whatever fails, all calls of an `Up` are operations of the nodes' plans and finalizes, and none stops or deletes a VM. |
| MultiNode.MultiNodeWorkflow.Up | pkg/workflow/multi_node.go:263-290 | State, calls and answer on every path: nothing changes when a look fails or finds a VM, nor in a dry run; a failed apply is left as it is, nothing more is asked and nil is not returned; otherwise all nodes are finalized and nil means that none failed, and that every VM was created here, runs from its form and, unless that is skipped, is finalized. |
| Lifecycle.Environment.Call | pkg/proxmox/vm.go:256-266 | A call is logged, and is accepted, refused, or takes effect and answers with an error. |
| Lifecycle.Environment.AttachISOAsCDROM | pkg/proxmox/boot.go:14-24 | One configuration key is set to the medium; a blank port or medium is rejected before any call. |
| Lifecycle.Environment.EjectISO | pkg/proxmox/boot.go:27-34 | One configuration key is deleted. |
| Lifecycle.Environment.SetBootOrder | pkg/proxmox/boot.go:41-52 | The boot key gets the normalised order; a blank one is rejected before any call. |
| Lifecycle.BootValueMeans | pkg/proxmox/boot.go:41-52 | A blank order has no value; any other is trimmed and has the prefix once. |
| Lifecycle.EffectOfPrefix | pkg/workflow/single_vm.go:162-267 | Whatever fails, a script of calls issues a prefix of it and has the effect of a prefix of it, ending at or just before the failing call. |
| Lifecycle.ApplyIsPrefix | pkg/workflow/single_vm.go:162-267 | For every change list, setting and failure, `Apply` issues and has the effect of a prefix of the list's calls, of all of them when it returns nil. |
| Lifecycle.DeadBranchesUnreached | pkg/workflow/single_vm.go:197-258 | On a planned list the branches for an empty ISO path, unset storage and unknown kinds are never reached. |
| Lifecycle.PlannedScriptIsCalls | pkg/workflow/single_vm.go:162-267 | With client, renderer, builder and valid options, a planned apply is its calls and nothing else. |
| Lifecycle.GivenOps | pkg/workflow/single_vm.go:162-267 | A change list comes to all its calls, or to some of them and a step that fails because something is missing. |
| Lifecycle.PlanSpelledOut | pkg/workflow/single_vm.go:87-159 | The operations of a plan one by one, with the names, keys and values they carry, in both modes, with and without kickstart storage. |
| Lifecycle.FinalizeSpelledOut | pkg/workflow/finalize.go:162-203 | The calls of a finalize one by one: wait, ide3, ide2, boot order. |
| Lifecycle.CallsAreEquipped | pkg/workflow/single_vm.go:162-267 | For every change list nothing is asked for that needs a missing client, renderer, builder, ISO path, storage or form. |
| Lifecycle.StageReached | pkg/workflow/single_vm.go:228-256 | After k calls of a plan the VM is exactly the k-th stage: absent, created, attached, boot order set, running. |
| Lifecycle.RunningMeansReady | pkg/workflow/single_vm.go:228-256 | A VM that runs after a planned apply, failed or not, was created from the form and, with kickstart storage, attached and given its boot order before. |
| Lifecycle.SkipModeAttachesVerified | pkg/workflow/single_vm.go:213-249 | In skip mode the volume attached is the one verified present. |
| Lifecycle.BuildPathAttachedIff | pkg/workflow/single_vm.go:203-249 | On the build path the attached volume is present exactly when it already was before. |
| Lifecycle.BuildPathCounterexample | pkg/workflow/single_vm.go:206-243 | On the build path an accepted apply can leave a medium attached that is not there. |
| Lifecycle.PlanAccepted | pkg/workflow/single_vm.go:87-159 | On the build path Proxmox can accept the whole plan as soon as the VMID is free. |
| Lifecycle.FailedApplyKeepsVM | pkg/workflow/single_vm.go:162-267 | A failed apply is not unwound: the VM is there exactly when its creation took effect. |
| Lifecycle.FailedUpKeepsVM | pkg/workflow/single_vm.go:310-331 | However far an `Up` came, the VM is there exactly when its creation took effect. |
| Lifecycle.FinalizeClean | pkg/workflow/finalize.go:162-179 | A clean finalize empties both drives, makes the disk the only boot device and keeps all other keys. |
| Lifecycle.FinalConfMeans | pkg/workflow/finalize.go:162-179 | After a finalize both drives are empty, the boot order is the disk, and all other keys are as before. |
| Lifecycle.FinalizeConverges | pkg/workflow/finalize.go:162-203 | Any number of attempts, each interrupted after any of its calls, followed by one whole run ends where one clean run ends. |
| Lifecycle.SingleVMWorkflow.Plan | pkg/workflow/single_vm.go:87-159 | Planning changes nothing; it gives the list for the mode and the storage, and fails exactly when the look does not come through or finds the VM. |
| Lifecycle.SingleVMWorkflow.ApplyOne | pkg/workflow/single_vm.go:176-259 | Each kind of change does its script of calls and checks. |
| Lifecycle.SingleVMWorkflow.Apply | pkg/workflow/single_vm.go:162-267 | The changes' scripts in order until one fails; a dry run touches nothing. |
| Lifecycle.SingleVMWorkflow.Verify | pkg/workflow/single_vm.go:270-286 | Nil exactly when the VM was read and runs. |
| Lifecycle.SingleVMWorkflow.Finalize | pkg/workflow/finalize.go:183-203 | No client and no address are errors before any call; otherwise the wait and then the three calls. |
| Lifecycle.SingleVMWorkflow.FinalizeSingle | pkg/workflow/finalize.go:162-179 | Eject ide3, eject ide2, boot from disk, stopping at the first failure. |
| Lifecycle.SingleVMWorkflow.Up | pkg/workflow/single_vm.go:310-331 | The calls issued and their effect are a prefix of the plan's and the finalize's, so nothing is rolled back; nil when nothing is missing, Proxmox can accept the calls and every answer is good; an error only from a look, a missing tool or address, or the last call made, never from `Verify`; nil means that all calls and both looks were made and the VM runs from its form; a dry run issues nothing and fails only when planning does. |
| Lifecycle.SingleVMWorkflow.Destroy | pkg/workflow/single_vm.go:289-351 | `Rollback` and `Down`: look, and when the VM is there stop it, whatever the answer, and delete it. |
| Lifecycle.DestroySound | pkg/workflow/single_vm.go:289-351 | Nil means absent, an absent VM means no change, nothing else is touched, and answers to looking and deleting are enough for nil. |
| Lifecycle.DestroyAsks | pkg/workflow/single_vm.go:289-351 | What is asked: a look, and when the VM is there a stop with the flag given and then a delete, whose answer is the answer. |
| SshWait.PickFinalizeIP | pkg/workflow/finalize.go:86-106 | The first preferred slot with an address, else the least other slot with one, else nothing. |
| SshWait.AtMostMeans | pkg/workflow/finalize.go:86-106 | The order of the other slots is lexicographic. |
| SshWait.Defaults | pkg/workflow/finalize.go:50-62 | Without options the wait lasts half an hour and dials every ten seconds; a dial has five seconds, a read three. |
| SshWait.BannerMeans | pkg/workflow/finalize.go:110-159 | A banner is what a successful read begins with `SSH-`. |
| SshWait.FirstBannerEndsIt | pkg/workflow/finalize.go:110-159 | The first dial in time that reads a banner ends the wait, and nothing else does. |
| SshWait.WaitForSSHUp | pkg/workflow/finalize.go:110-159 | When and why the wait ends: the first banner, the end of the context, or the deadline, with the exact time of each dial, and bounds on dials and time. |
| TraceSchema.VerifyChain | pkg/trace/schema.go:140-156 | -1 exactly for a valid chain, else the least index whose prefix fails, with that record's fault. |
| TraceSchema.PrefixVerified | pkg/trace/schema.go:140-156 | Valid chains are closed under prefixes. |
| TraceSchema.SameHashSameRecord | pkg/trace/schema.go:109-134 | Two valid records with one hash are one record, as far as the encoding can tell, and link to the same hash. |
| TraceSchema.HashKeptIff | pkg/trace/schema.go:109-134 | A record keeps its hash through encoding and decoding exactly when its canonical form survives them. |
| TraceSchema.LastHashCommits | pkg/trace/schema.go:109-156 | Two valid chains with equal last hashes have equal lengths and equal records: the last hash commits to the whole trace. |
| TraceFile.ReadLastLine | pkg/trace/writer.go:119-144 | The backward scan finds the last line of the file. |
| TraceFile.ReadLastRecord | pkg/trace/writer.go:119-144 | The record the chain is resumed from is the decoded last line. |
| TraceFile.Reader.Next | pkg/trace/reader.go:31-47 | One record further, blank lines skipped, with the scanner's and the decoder's errors. |
| TraceFile.Reader.All | pkg/trace/reader.go:50-62 | All records up to the end or the first error. |
| TraceFile.LoadAll | pkg/trace/reader.go:71-85 | What was read, and nil exactly when reading succeeded and the chain is valid. |
| TraceFile.ScansAgree | pkg/trace/writer.go:119-144 | On files without an over-long line whose last line is not blank, backward and forward scan agree on the last line. |
| TraceWriter.BadLineStops | pkg/trace/reader.go:50-62 | A line that does not decode ends the reading with the decoder's error and the records before it. |
| TraceWriter.CarriageReturnDropped | pkg/trace/reader.go:31-47 | Lines that end in CR LF are read without either. |
| TraceWriter.Writer.Write | pkg/trace/writer.go:57-87 | A stamped, linked and hashed record is appended as one line and becomes the new chain end; a record that cannot be encoded changes nothing. |
| TraceWriter.StampKeeps | pkg/trace/writer.go:57-87 | The record written is the caller's in every field but version, time and the two hashes; the time is kept when it was given. |
| TraceWriter.WritesIff | pkg/trace/writer.go:57-87 | A record is refused only when it cannot be encoded. |
| TraceWriter.Writer.Close | pkg/trace/writer.go:101-109 | What was buffered is in the file. |
| TraceWriter.Session | pkg/trace/writer.go:29-109 | One round of open, writes and close appends exactly the lines of the stamped records. |
| TraceWriter.ResumesFromLast | pkg/trace/writer.go:29-53 | On every file the writer made, reopening resumes from the hash of the last record written. |
| TraceWriter.UnreadableEndUnlinks | pkg/trace/writer.go:29-53 | After a last line that does not decode the next record is linked to nothing. |
| TraceWriter.RoundsAgree | pkg/trace/writer.go:29-109 | Any number of rounds gives the text of one linked log. |
| TraceWriter.ReadsBack | pkg/trace/reader.go:31-62 | The text of a log whose lines fit reads back as that log. |
| TraceWriter.LinkedVerifies | pkg/trace/schema.go:140-156 | A linked log verifies after reading exactly when all its records have the current schema version and keep their hash through decoding. |
| TraceWriter.LoadsWhatWasWritten | pkg/trace/reader.go:71-85 | After any number of rounds loading gives nil exactly when every line fits, every version is current and every record keeps its hash through decoding, and then the log; the log is the callers' records in order, with only version, time and hashes filled in, and all of them when all can be encoded. |
| TraceWriter.InvalidTextFailsToLoad | pkg/trace/reader.go:71-85 | A file with one record that does not survive decoding does not load. |
| TraceWriter.LoggedVersions | pkg/trace/writer.go:61-63 | Versions 0 and 1 are all a caller need keep to. |
| Replay.EqualNormalizedEquivalence | pkg/trace/replay.go:115-129 | The comparison of outputs is an equivalence. |
| Replay.EqualNormalizedIff | pkg/trace/replay.go:115-129 | Outputs are equal when they are one text, or JSON with one canonical form. |
| Replay.ExecutedMeans | pkg/trace/replay.go:54-111 | The records executed are those with the decision `executed`, none in a dry run. |
| Replay.Replay | pkg/trace/replay.go:54-111 | A broken chain executes nothing; strict stops at the first divergence; the other modes give one result a record; the executor is called once, in order, for exactly the executed-decision records reached, and never in a dry run. |
| Placeholders.MatchIff | pkg/config/resolver.go:17 | The matcher is the pattern: it finds a placeholder exactly when its text is there and its groups are what the pattern allows. |
| Placeholders.RawMatchesItself | pkg/config/resolver.go:56-60 | Matching the matched text again gives the same groups, so the nil branch is never taken. |
| Placeholders.ScanIff | pkg/config/resolver.go:17 | The scan is the one way to cut a text that leaves no match uncovered and covers nothing else. |
| Placeholders.ParseInvertsPrint | pkg/config/resolver.go:345-352 | Parsing what was printed gives back the placeholders in order, for all well-formed placeholders and all literals in which no dollar sign stands right before a brace. |
| Placeholders.ParsePlaceholders | pkg/config/resolver.go:345-352 | The holes of the scan, in order. |
| Placeholders.FailsIff | pkg/config/resolver.go:76-124 | A placeholder fails exactly when its source has nothing for it, an empty variable counting as nothing, and no default is given; a reference cannot have one. |
| Placeholders.FoundGives | pkg/config/resolver.go:76-124 | What the source has is the value, whatever defaults are given; files lose their final newlines, Vault gives a deferred marker. |
| Placeholders.MissingGives | pkg/config/resolver.go:76-101 | Without anything in the source the first default is the value. |
| Placeholders.FiltersMean | pkg/config/resolver.go:62-69 | The filters are what stands between the bars, trimmed. |
| Placeholders.FilteredMeans | pkg/config/resolver.go:126-135 | Every `base64` encodes once more and no other filter changes the value. |
| Placeholders.GeneratedMeans | pkg/config/resolver.go:153-187 | Passwords are the first characters of the digest of name and seed; a key gives its marker, ed25519 by default. |
| Placeholders.FailureMeans | pkg/config/resolver.go:76-124 | An error is reported for exactly the failing placeholders and names what was looked for. |
| Placeholders.DeferredMeans | pkg/config/resolver.go:103-114 | Reported as deferred are the Vault placeholders and the keys with a colon. |
| Placeholders.ReportsAdd | pkg/config/resolver.go:55-140 | Errors and deferred placeholders of a text are those of its placeholders, in order. |
| Placeholders.DefaultIsFirst | pkg/config/resolver.go:143-150 | Of several defaults the first one counts, and only a filter starting with `default:` is one. |
| Placeholders.TrimNewlinesSpec | pkg/config/resolver.go:102 | A file loses all newlines at its end and nothing else. |
| Placeholders.PasswordLength | pkg/config/resolver.go:159-176 | A password has the length asked for, up to the digest's, and a shorter one with the same seed begins a longer one. |
| Placeholders.MarkerUnreportedIff | pkg/config/resolver.go:109-114 | A key marker is reported as deferred except for the bare `ssh_key`, which leaves one unreported. |
| Placeholders.ExpandPrinted | pkg/config/resolver.go:55-140 | Expanding printed text is the concatenation of the literals and the placeholders' values. |
| Placeholders.ExpandLeavesAlone | pkg/config/resolver.go:55-140 | Text without a match, or in which no match has a value, is unchanged. |
| Placeholders.ExpandTwice | pkg/config/resolver.go:55-140 | Expanding again changes nothing when the second pass finds only the placeholders that failed in the first. |
| Placeholders.SettlesIff | pkg/config/resolver.go:55-140 | What `ExpandTwice` asks is exactly that. |
| Placeholders.PrintableSettles | pkg/config/resolver.go:55-140 | It is met when no dollar sign of a literal or a value ends up right before a brace. |
| Placeholders.KeptWithoutSettling | pkg/config/resolver.go:55-140 | It is not necessary: a variable that holds the placeholder naming it is kept without settling. |
| Placeholders.ExpansionNotIdempotent | pkg/config/resolver.go:17 | For all sources, the second expansion of `${vault:${vault:A}x}` differs from the first. |
| Placeholders.ValueExpandedLater | pkg/config/resolver.go:55-140 | A value that is itself a placeholder is expanded by the second pass only; the passes differ exactly when that placeholder is not replaced by itself. |
| Placeholders.ResolveResult.ExpandPlaceholders | pkg/config/resolver.go:55-140 | The expanded text, and the errors and deferred placeholders of this text appended in order. |
| Placeholders.ResolveResult.ReplaceOne | pkg/config/resolver.go:56-139 | One match: its replacement, or its own text and an error. |
| Walk.WalkValCounts | pkg/config/resolver.go:242-328 | For any function and acyclic heap, the walk maps the value once and every cell as many times as there are paths to it. |
| Walk.WalksAsMapIff | pkg/config/resolver.go:242-328 | On the heap at hand the walk is the pure map exactly when mapping each reached cell once a path is mapping it once. |
| Walk.PlaceReplaced | pkg/config/resolver.go:242-328 | Every string at a settable place of a cell, behind a pointer, in a slice's element, under a map's key bare or in an interface, and in fields from there, becomes the function of it. |
| Walk.BareEntryReplaced | pkg/config/resolver.go:287-328 | A map's bare string is replaced under its key. |
| Walk.WalkReplaces | pkg/config/resolver.go:242-328 | After the walk every string at a settable place of every cell is the function of it, applied once a path. |
| Walk.WalkReplacesInline | pkg/config/resolver.go:242-284 | So are the strings stored in the value itself. |
| Walk.WalkIsMap | pkg/config/resolver.go:242-328 | It is when the function is idempotent on the strings of the cells reached more than once. |
| Walk.WalkIsMapIffIdempotent | pkg/config/resolver.go:242-328 | The walk is the pure map on every heap exactly when the function is idempotent. |
| Walk.SharedTwice | pkg/config/resolver.go:247-258 | A heap on which a shared string gets the function twice. |
| Walk.WalkAfterCopyIff | pkg/config/loader.go:153-160 | Walking an inline value and its shallow copy gives what copying the walked value would have given exactly when mapping what they share twice as often changes nothing. |
| Walk.WalkAfterCopy | pkg/config/loader.go:153-160 | So it is when the shared cells are stable under the function. |
| Walk.OnlyStringsChange | pkg/config/resolver.go:242-328 | Keys, lengths, pointers, numbers and nils stay: the map changes strings only. |
| Walk.InterfaceSliceKept | pkg/config/resolver.go:247-276 | Strings directly in a slice of interfaces are not settable and stay unexpanded. |
| Walk.MapKeepsRefs | pkg/config/resolver.go:242-284 | Pointers, slices and maps stay the same objects. |
| Walk.Heap.WalkStrings | pkg/config/resolver.go:242-284 | The recursive walk changes the heap to the specified one. |
| Walk.Heap.TransformMap | pkg/config/resolver.go:259-328 | Map values are copied out, walked and put back under their keys. |
| Passes.ExpansionIsMap | pkg/config/resolver.go:40-52 | Expansion in place is expansion of every string reached when the strings of the cells reached more than once settle. |
| Passes.ExpansionReaches | pkg/config/resolver.go:40-52 | A string reached along one path is expanded once, wherever it is stored. |
| Passes.ExpansionAfterCopy | pkg/config/loader.go:153-160 | The loader's copy of an inline value is expanded as if made afterwards, when the strings of what the two share settle. |
| Passes.ExpanderNeverIdempotent | pkg/config/resolver.go:40-52 | No sources make expansion idempotent on all strings. |
| Passes.RedactionIsMap | internal/root/config.go:77-95 | Redaction in place is redaction of every string reached, on every heap. |
| Passes.NoSecretShown | internal/root/config.go:77-95 | Every string reached is redacted, and no marker in it is closed. |
| Redact.RedactPrefix | internal/root/config.go:81-92 | The rewriting loop ends, although the string may grow, with the specified text. |
| Redact.RedactDeferredSecrets | internal/root/config.go:78-94 | The loops over both prefixes end with the text of which `Redact.RedactAllCloses` speaks. |
| Redact.RewriteShrinks | internal/root/config.go:81-91 | Each rewrite shortens the part from the first marker on and leaves the final text the same. |
| Redact.RedactedClosesNone | internal/root/config.go:80-93 | No marker that is later closed remains. |
| Redact.OtherStaysUnclosed | internal/root/config.go:80-93 | The second loop does not reopen what the first closed. |
| Redact.RedactAllCloses | internal/root/config.go:77-95 | No closed marker of either kind remains, and redacting again changes nothing. |
| Redact.MarkerRedacted | internal/root/config.go:77-95 | A marker of either kind is shown as `<REDACTED>`. |
| Redact.PiecesRender | internal/root/config.go:81-91 | One pass replaces exactly a list of spans and keeps all other text in order. |
| Redact.PiecesGood | internal/root/config.go:81-91 | Each replaced span is a marker up to its first closing bracket. |
| Loader.Ref.Resolve | pkg/config/loader.go:153-185 | Inline values are copied, files read once; a path met before is an error and the value is then unchanged. |
| Loader.ResolveRefs | pkg/config/loader.go:124-150 | Nil exactly when every file is there and none is named twice; every reference then has its document. |
| Loader.SameFileTwice | pkg/config/loader.go:124-185 | Of two references to one file the second never loads. |
| Cmdline.MatchIff | pkg/kickstart/ubuntu_iso_builder.go:207 | A boot line is exactly white space, a verb, white space and a body, in one way. |
| Cmdline.SeparatorSplitsTokens | pkg/kickstart/ubuntu_iso_builder.go:226-236 | The separator found in the text is the first `---` token after the first token. |
| Cmdline.InjectTokens | pkg/kickstart/ubuntu_iso_builder.go:226-236 | The tokens become before ++ args ++ `---` ++ after, or body ++ args without a separator. |
| Cmdline.ArgumentsReachLiveKernelIff | pkg/kickstart/ubuntu_iso_builder.go:199-236 | A patched line gives the live kernel its old arguments and the new ones, keeping what is behind `---`, exactly when it does not begin with `---` and did not look patched. |
| Cmdline.LeadingSeparatorMisses | pkg/kickstart/ubuntu_iso_builder.go:199-236 | On the line `linux ---` the arguments do not reach the live kernel. |
| Cmdline.PatchKeepsLines | pkg/kickstart/ubuntu_iso_builder.go:204-221 | As many lines as before, each patched by itself; those that are not boot lines and those that look patched unchanged. |
| Cmdline.LineStays | pkg/kickstart/ubuntu_iso_builder.go:204-221 | A line that looks patched and a line that is no boot line stay as they are. |
| Cmdline.PatchIdempotentIff | pkg/kickstart/ubuntu_iso_builder.go:199-222 | For one-line arguments, patching twice is patching once on every file exactly when the arguments contain `autoinstall`. |
| Cmdline.PatchedAgain | pkg/kickstart/ubuntu_iso_builder.go:214-219 | Without `autoinstall` in the arguments a line is patched again. |
| Cmdline.PatchInPlace | pkg/kickstart/ubuntu_iso_builder.go:208-220 | Overwriting lines one after the other leaves each line the patch of what it was. |
| Cmdline.PatchKernelCmdline | pkg/kickstart/ubuntu_iso_builder.go:199-222 | Splitting, patching in place and joining gives the file of which the other rows speak. |
| Manifest.ValidateUniqueness | pkg/config/validators.go:96-139 | In whatever order the nodes come, accepted exactly when no VMID, MAC or address within a network is claimed twice; a rejection names a real clash. |
| Manifest.OrderDoesNotMatter | pkg/config/validators.go:106-137 | All orders of the nodes give one verdict. |
| Manifest.UniqueMeans | pkg/config/validators.go:96-139 | Unique means no VMID twice, no MAC twice but `auto`, no address before its slash twice within a network, on one node or on two. |
| Manifest.ValidateDiskStorageRefs | pkg/config/validators.go:198-215 | Nil exactly when every class named is in the catalogue. |
| Manifest.BuildCreateOpts | pkg/workflow/single_vm.go:363-444 | The options of a node, one disk and one interface specification each, in order. |
| Manifest.AcceptedOptsValidIff | pkg/workflow/single_vm.go:363-444 | The options of an accepted manifest's node pass the later check exactly when the node has a name. |
| Manifest.FallbackIff | pkg/workflow/single_vm.go:387-402 | In an accepted manifest the fallback storage is for exactly the disks that name neither storage nor class. |
| Manifest.ResolveStorageMeans | pkg/workflow/single_vm.go:387-402 | A disk's own storage comes first, then its class with the class's sharing, then local storage. |
| Manifest.AcceptedFallsBack | pkg/workflow/single_vm.go:387-402 | An accepted manifest whose disk is put on the fallback storage. |
| Manifest.FormDescribesNode | pkg/workflow/single_vm.go:363-444 | The submitted form reads back as the node: VMID, name, the sizes it asks for and no others, every interface, the medium. |
| Manifest.NodeHardware | pkg/workflow/single_vm.go:363-444 | The form's processor, firmware, fixed settings and tags, and an EFI disk exactly for ovmf. |
| Manifest.NodeEFIDisk | pkg/workflow/single_vm.go:404-416 | The EFI disk lies where the first disk does, raw and without keys. |
| Manifest.NodeNIC | pkg/workflow/single_vm.go:430-440 | Each interface reads back from its entry: virtio, its bridge or vmbr0, its address unless `auto`. |
| Manifest.NodeDisk | pkg/workflow/single_vm.go:417-429 | Each disk reads back from its entry: storage, size in GiB, sharing. |
| Manifest.EveryDiskSubmittedIff | pkg/workflow/single_vm.go:417-429 | One form entry a disk exactly when effective interfaces are pairwise distinct; each then describes its disk. |
| Manifest.AcceptedDiskLost | pkg/workflow/single_vm.go:417-429 | An accepted manifest, its disks' class in its catalogue, whose form loses a disk. |
| Manifest.AcceptedRunsInAnyOrder | pkg/config/validators.go:106-115 | Acceptance gives the executor distinct VMIDs, names and valid forms, so that the nodes' plans commute. |
| Manifest.TargetsKeep | pkg/workflow/single_vm.go:62-85 | The executor's targets are the manifest's nodes, each with its own name, host, VMID, addresses and form. |
| CreateVM.CreateForm | pkg/proxmox/vm.go:201-255 | Nothing for options that fail their check, else the form. |
| CreateVM.EachIsNeeded | pkg/proxmox/vm.go:80-105 | Nothing the options check asks for can be left out, and a complete disk or interface can always be added. |
| CreateVM.KeysNeverCollide | pkg/proxmox/vm.go:205-255 | When no disk's interface is the key of something else, the kinds of keys never meet: each keeps its value. |
| CreateVM.FieldSubmitted | pkg/proxmox/vm.go:205-246 | Every field is in the form under its own key with its own value, and an absent one is not there, whatever the other disks and interfaces, unless a disk's interface is that key. |
| CreateVM.FormReads | pkg/proxmox/vm.go:205-246 | The form key by key. |
| CreateVM.DiskReadsBack | pkg/proxmox/vm.go:108-120 | A disk's entry reads back as storage, size in GiB, format and sharing. |
| CreateVM.NICReadsBack | pkg/proxmox/vm.go:158-180 | An interface's entry reads back as model, address, bridge, firewall and VLAN. |
| CreateVM.EFIDiskReadsBack | pkg/proxmox/vm.go:183-195 | The EFI disk's entry reads back as storage, format and keys, with size 1 and type 4m. |
| CreateVM.NumbersReadBack | pkg/proxmox/vm.go:206-216 | VMID, memory, cores and sockets read back from the form as the numbers of the options. |
| CreateVM.NothingLostIff | pkg/proxmox/vm.go:205-255 | For all options, as many entries as fields, disks, interfaces and medium exactly when no two share a key. |
| CreateVM.NormalizeSizeGiB | pkg/proxmox/vm.go:125-156 | The scan from the back splits the size after its last digit, and the result is the rewriting of which `CreateVM.SizeKeptIff` speaks. |
| CreateVM.SizeMeans | pkg/proxmox/vm.go:125-156 | A number with a G, T or M suffix is submitted in GiB, and as written when it is no whole number of GiB or has no such suffix. |
| CreateVM.UpperAt | pkg/proxmox/vm.go:141 | Suffixes are compared letter by letter in upper case. |
| CreateVM.SizeKeptIff | pkg/proxmox/vm.go:142-155 | A rewritten size is the same quantity in GiB exactly when it fits the integer type. |
| CreateVM.SizeLost | pkg/proxmox/vm.go:145-149 | Every multiple of 2^54 TiB is submitted as 0. |
| Numbers.AtoiMeans | pkg/proxmox/vm.go:145-155 | A sign or none and digits are read as their number when the integer type holds it. |

## Left out

- HTTP, task polling, multipart upload and JSON envelopes: a client call is one operation that is accepted, refused or lost.
- SHA-256, JSON, base64 (section 4 of RFC 4648) and the regular-expression engine: hash and codec are parameters with the laws in `TraceSchema.CodecLaw` and `TraceSchema.CollisionFree`; the three patterns have matchers proved against their meaning.
- Text is a sequence of characters rather than bytes; line limits count characters.
- `FanOut` is a step relation and not a method, since its goroutines interleave; the concurrent `Verify` only reads, so it is not modelled and its looks are not logged.
- FanOut.Serializable: the attach call does not fail when the volume is missing, because the client does not check; a Proxmox server that does would add a dependence between uploads and attachments.
- Lifecycle.SingleVMWorkflow.Finalize: the SSH wait is one call that may fail; `SshWait.WaitForSSHUp` is the wait itself, over an abstract clock.
- `StopVM` with `force` unset asks the guest to shut down: the call carries the flag, but a guest that ignores the request is a call that is refused or lost.
- Rendering, ISO building and removing the local ISO file: one local action each that may fail.
- Descriptions, details and log lines of changes and replays: text for operators.
- TraceSchema.LastHashCommits: equality is up to what the encoding shows, since raw JSON fields are compacted when encoded and invalid UTF-8 is replaced.
- TraceSchema.CodecLaw: that text decoding changes is encoded differently afterwards is not assumed, but is the condition `TraceSchema.Survives`, which a record with invalid UTF-8 in a text field does not meet.
- Placeholders.Resolve: the digest passwords are cut from, `${ref:...}` look-ups into the tree being rewritten, and home directory expansion are functions fixed for the run.
- Placeholders.ExpandTwice: one direction. The other fails (`Placeholders.KeptWithoutSettling`): a value may name itself, and values that change side by side may add up to the text they replace.
- The contents of an image: an upload brings the node's name as its content, whatever was built.
- Walk.WalkVal: slices that overlap only in part, and a map's iteration order, which is the order of its entries here; a cell's own strings are written back at the end of its walk, which nothing in an acyclic heap can see.
- Manifest.TagsHold: only the struct tags that later stages rely on, the required hypervisor and storage classes among them; RAC rules, network references and disk tags are checks without later consequences here.
- `mergeEnv`, profile loading, YAML decoding, vault and SSH-key resolution, sorting of names, registry migration, licences, command-line flags and tables.
