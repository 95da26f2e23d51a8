# Verified model of MindIE-Motor's deployment tooling and KV-cache index

Dafny models of the parts of MindIE-Motor whose correctness is not visible from one function body, with proofs of
what they promise. `dafny verify dfyconfig.toml` checks everything. No program of the repository was executed.

| files | component |
|---|---|
| `ConfigTree`, `ConfigDiff`, `ConfigPaths`, `PathAccess`, `WhitelistUpdate`, `WhitelistEffect`, `WhitelistConvergence`, `WhitelistExamples` | whitelisted configuration updates |
| `SlurmState`, `SlurmScaling`, `SlurmVerdicts`, `SlurmRuns`, `SlurmStart`, `SlurmCalls`, `SlurmDeployer` | the Slurm deployment as a state machine over job submissions and cancellations |
| `NodePorts`, `NodePortPlan`, `NodePortAnswers`, `NodePortFiles`, `NodePortFrame` | NodePort conflicts: detection, the operator's dialogue, the rewrite of the yaml files |
| `EnginePorts`, `EngineRemap`, `EngineWidths`, `EngineStarts`, `EngineDialogue` | engine port ranges: collection, grouping, and the dialogue that moves busy ranges |
| `LogCollector`, `LogReconnects`, `LogMonitor` | the per-pod log collector across reconnects, node moves, crashes and restarts, and its backoff |
| `Annotations`, `TypingRewrite`, `Splice` | the typing modernizer: annotations as they are printed and read back, their rewrite and check, and the splicing of replacements |
| `DockerFrames`, `DockerCuts` | the Docker log demultiplexer, its buffered loop, and how the stream is cut into reads |
| `PodLayout` | pod layout arithmetic shared by the converter, the Docker validator and the NodeManager |
| `KvParallel` | parallel sizes inside a KV-transfer configuration |
| `ProcessTree` | process-tree closure and killing |
| `RadixGraph`, `RadixEvents`, `RadixBlocks`, `RadixRuns`, `RadixTree` | the concurrent radix tree of the KV conductor: block graphs, single events, runs of events of many workers, the tree as it runs |
| `Options` | optional values, shared by the others |

Main results:

- A whitelisted update fails exactly when a whitelisted change lies below a list inside a list. Otherwise the result
  has the user's value at every changed whitelisted place and the baseline everywhere else, and a second run changes
  nothing if and only if no stale list is left. The whitelist lets through exactly the settings that it spells out, and
  a scalar set at one of them arrives if and only if nothing clashes above it or the baseline had it already.
- Whatever `sbatch` and `scancel` answer, scaling leaves saved indexes `0..n-1` that match the prepared configuration if
  and only if no changed role starts with a negative count. From there each successful call brings the deployment one
  instance closer to its target, every retry is accepted, and the books of live jobs stay exact. The command refuses
  exactly when a setting other than the counts differs, the saved state does not fit, a count is negative, or a role
  that does not run would change.
- For every script of operator answers services planned on different NodePorts keep different ones, and a new port is
  free in the cluster or already the service's own. Checking the rewritten files again finds exactly the declined
  conflicts if and only if no new port is foreign to another service planned on the same old port, and collecting them
  sees a simultaneous renaming if and only if repeated files settle. Nothing but numeric NodePorts of listed files
  changes.
- For every configuration the collected engine ports follow from the raw settings and their defaults. A successful
  dialogue means that no collected port is in use, and each move goes to a block clear of the other kinds' ports.
  Ranges that start disjoint and in range stay so, at most four moves are accepted, and success has moved exactly the
  busy ranges.
- Across every run of collector lives no pull dumps a pod's log into a file that already holds lines. However often a
  stream ends on one node, the pulls go on in one file with a cursor, and a whole life dumps the history at most once,
  plus once for each move and each failed pull that left no file.
- The typing fix preserves the meaning of an annotation if and only if the annotation is skipped, or three things do
  not happen where the rewriter looks: a `Tuple[()]`, a string annotation whose new text cannot stand between two copies
  of the literal's first character, and a change below an operator other than `|` or in the brackets behind an
  operation.
- However a Docker log stream is cut into reads, the loop writes the payload of one decode of the whole stream unless a
  header announces too much. Then all cuts agree if and only if the payload before that header is complete where the
  longest read that completes it can begin.
- For every layout that the NodeManager accepts, Docker expects the number of endpoints it starts if and only if a
  configured number is that one, or, with none configured, an arithmetic condition on the sizes holds.
- A prefix query of the radix tree gives each worker its longest match on any block graph. Over every run of events of
  any number of workers, nothing but its own removals shortens a worker's match. Unless a store remaps a hash, every
  worker's table keeps listing its blocks, so that removing the worker removes it from every query.

Source cells are paths relative to the root of the repository.

## Model

| member | source | states |
|---|---|---|
| ConfigTree.SetThenLookup | examples/deployer/lib/update_config_whitelist.py:226-261 | a written value is read back at its place and everywhere below it |
| ConfigTree.SetFailsIff | examples/deployer/lib/update_config_whitelist.py:192-261 | a write fails exactly when a value on the way, other than null, is not of the container that the next step needs |
| ConfigTree.SetFrame | examples/deployer/lib/update_config_whitelist.py:192-261 | creating and padding containers for a write changes nothing at places neither above nor below it |
| ConfigTree.SetKeepsFits | examples/deployer/lib/update_config_whitelist.py:192-261 | a write along one changed place leaves every other incomparable changed place writable |
| ConfigDiff.DiffReports | examples/deployer/lib/update_config_whitelist.py:90-144 | a place is reported exactly when it is the first point where the two trees part |
| ConfigDiff.DiffPrefixFree | examples/deployer/lib/update_config_whitelist.py:90-144 | no reported place is above, below or equal to another |
| ConfigDiff.DiffComplete | examples/deployer/lib/update_config_whitelist.py:90-144 | every differing scalar of either tree lies at or below a reported place |
| ConfigDiff.DiffCorrect | examples/deployer/lib/update_config_whitelist.py:90-144 | the report is prefix-free, sound and complete |
| ConfigDiff.MembersInOrder | examples/deployer/lib/update_config_whitelist.py:97-135 | mappings are compared over the sorted keys of both sides, lists index by index |
| ConfigPaths.ParseText | examples/deployer/lib/update_config_whitelist.py:147-162 | a written token parses back if and only if it carries at most one list index |
| ConfigPaths.ParseUnclosed | examples/deployer/lib/update_config_whitelist.py:147-162 | a bracket that is not closed at the end of a token is malformed |
| ConfigPaths.ParseNotDigits | examples/deployer/lib/update_config_whitelist.py:147-162 | so is one that holds anything but digits and closing brackets |
| ConfigPaths.ParseClosers | examples/deployer/lib/update_config_whitelist.py:147-162 | further closing brackets at the end are ignored |
| ConfigPaths.SplitRender | examples/deployer/lib/update_config_whitelist.py:90-189 | splitting the dotted string of a place recovers its tokens |
| PathAccess.CollectIsDiff | examples/deployer/lib/update_config_whitelist.py:90-144 | the recursion over dicts, lists and sorted keys reports the dotted strings of the diff's places, in order |
| PathAccess.PathIsWhitelisted | examples/deployer/lib/update_config_whitelist.py:66-87 | the loop down the whitelist tree decides the keys of the dotted path as `AllowsKeys` does, which `WhitelistEffect.AllowedIff` pins to the spelled key lists |
| PathAccess.WhitelistReadsKeys | examples/deployer/lib/update_config_whitelist.py:66-87 | the whitelist decision on the string is the decision on the place, list indexes ignored |
| WhitelistEffect.AllowedIff | examples/deployer/lib/update_config_whitelist.py:74-87 | walking down a whitelist tree accepts exactly the key lists that it spells out |
| WhitelistEffect.UpdatableIff | examples/deployer/lib/update_config_whitelist.py:15-87 | the deployer's whitelist accepts exactly the listed settings, written out section by section |
| PathAccess.GetValueAtPath | examples/deployer/lib/update_config_whitelist.py:165-189 | the loop over tokens reads token by token, with its early null and its errors |
| PathAccess.GetAtPlace | examples/deployer/lib/update_config_whitelist.py:165-189 | for every value, reading a written place gives what Python's subscripts give there, a character of a string included, or fails on a list inside a list |
| PathAccess.GetFollowed | examples/deployer/lib/update_config_whitelist.py:165-189 | at a place that runs through no scalar this is the value in the tree |
| PathAccess.ReadsCharacter | examples/deployer/lib/update_config_whitelist.py:165-189 | an index into a string reads one character; a key into it, or an index behind its end, reads nothing |
| PathAccess.SetAtPlace | examples/deployer/lib/update_config_whitelist.py:192-261 | writing through the dotted string is the write at the place, and fails whenever the place has a list directly inside a list |
| PathAccess.SetRaises | examples/deployer/lib/update_config_whitelist.py:192-261 | a malformed token is a ValueError, a readable one that meets no dictionary a TypeError |
| WhitelistUpdate.SelectWhitelisted | examples/deployer/lib/update_config_whitelist.py:264-295 | exactly the whitelisted changed paths are kept, in order |
| WhitelistUpdate.WritePaths | examples/deployer/lib/update_config_whitelist.py:264-295 | the loop applies the user's non-null values to the copy and stops at the first error |
| WhitelistUpdate.ApplyWhitelistUpdate | examples/deployer/lib/update_config_whitelist.py:264-295 | the whole update is the specified one, and correct for every pair of configurations with plain keys |
| WhitelistUpdate.UpdateCorrect | examples/deployer/lib/update_config_whitelist.py:264-295 | it raises if and only if a whitelisted change lies below a list in a list; otherwise applied places carry the user's value and all places incomparable with them the baseline's |
| WhitelistEffect.ListedScalarArrivesIff | examples/deployer/lib/update_config_whitelist.py:264-295 | after an update a scalar at a listed setting has the user's value if and only if nothing clashes above it or the baseline had it already |
| WhitelistEffect.PartedIsReplaced | examples/deployer/lib/update_config_whitelist.py:264-295 | a listed value that differs as a whole is replaced as a whole |
| WhitelistEffect.UnlistedStays | examples/deployer/lib/update_config_whitelist.py:264-295 | a place that neither leads to a listed setting nor continues one keeps the baseline's value |
| WhitelistEffect.SameIsEqual | examples/deployer/lib/update_config_whitelist.py:90-144 | equal scalars are the same ones, True and 1, or False and 0 |
| WhitelistUpdate.FlatNeverFails | examples/deployer/lib/update_config_whitelist.py:147-162 | configurations without lists inside lists always update |
| WhitelistExamples.NestedListFails | examples/deployer/lib/update_config_whitelist.py:147-162 | with the real whitelist, a new two-level list as north_config.name makes the update raise ValueError |
| WhitelistExamples.StaleListExample | examples/deployer/lib/update_config_whitelist.py:192-223 | with the real whitelist, a new list that ends in null is changed again by a second run |
| WhitelistConvergence.SecondRunWrites | examples/deployer/lib/update_config_whitelist.py:264-295 | a second run writes exactly the stale lists |
| WhitelistConvergence.SecondRunIsIdle | examples/deployer/lib/update_config_whitelist.py:264-295 | updating twice equals updating once if and only if no stale list is left |
| SlurmState.MatchesIsCounts | examples/deployer/slurm_deploy.py:278-285 | the state check accepts exactly when each role's saved indexes are 0..n-1 for its configured count |
| SlurmVerdicts.StateCheckIff | examples/deployer/slurm_deploy.py:268-285 | the state check passes exactly when the saved indexes of each role are those below its raw count, and none for a role that does not run |
| SlurmState.SubmitInOrder | examples/deployer/slurm_deploy.py:303-312 | a submission whose id is recorded keeps the live jobs equal to the recorded, the garbled and the foreign ones |
| SlurmState.CancelInOrder | examples/deployer/slurm_deploy.py:561-587 | a cancel that is forgotten only on success keeps those books |
| SlurmScaling.ChangesDescribe | examples/deployer/slurm_deploy.py:538-558 | the change list holds exactly the roles whose counts differ, and is refused exactly for negative counts or disabled roles |
| SlurmScaling.RepairedCounts | examples/deployer/slurm_deploy.py:561-587 | the handler sets each changed role's count to the number of its saved jobs and nothing else |
| SlurmScaling.ChangesLeaveAligned | examples/deployer/slurm_deploy.py:561-587 | after the loops, finished or interrupted anywhere, saved indexes are 0..n-1 and match the prepared configuration |
| SlurmScaling.UpdateKeepsAligned | examples/deployer/slurm_deploy.py:513-588 | every run of the scaling command keeps that alignment and changes instance counts only |
| SlurmVerdicts.InvalidIff | examples/deployer/slurm_deploy.py:254-285 | the command refuses, and touches nothing, exactly when a setting other than the counts differs, the saved state does not fit, a count is negative, or a role that does not run would change |
| SlurmVerdicts.UnchangedIff | examples/deployer/slurm_deploy.py:538-558 | an accepted command does nothing exactly when all counts are as they were |
| SlurmVerdicts.PreparedAfter | examples/deployer/slurm_deploy.py:561-588 | a completed run stores the user's configuration, a broken one the recorded counts of the changed roles; no other setting ever changes |
| SlurmVerdicts.CommandOrder | examples/deployer/slurm_deploy.py:538-588 | roles are scaled in the order encode, prefill, decode, union |
| SlurmRuns.UpdateProgress | examples/deployer/slurm_deploy.py:513-588 | the distance to the target drops by exactly the number of successful calls |
| SlurmRuns.ReliableRunArrives | examples/deployer/slurm_deploy.py:513-588 | a run without failures ends exactly at the target counts |
| SlurmRuns.RetriesArrive | examples/deployer/slurm_deploy.py:254-285 | after any number of failed runs the next one is accepted, the distance has not grown, and a reliable run arrives |
| SlurmRuns.UpdateInOrder | examples/deployer/slurm_deploy.py:561-588 | scaling, finished or failed, loses track of no job |
| SlurmRuns.ScaledMatchesIff | examples/deployer/slurm_deploy.py:268-285 | a completed run matches its configuration if and only if no changed role started with a negative count |
| SlurmRuns.RunMatchesIff | examples/deployer/slurm_deploy.py:538-588 | finished or broken, from whatever counts, a run leaves a matching state if and only if no instance is recorded under a negative index |
| SlurmRuns.AlwaysMatchesIff | examples/deployer/slurm_deploy.py:538-588 | an accepted change leaves a matching state for all answers of the calls if and only if no changed role starts below zero |
| SlurmRuns.NonNegativeStartMatches | examples/deployer/slurm_deploy.py:538-588 | then it does, finished or broken |
| SlurmRuns.NegativeStartExample | examples/deployer/slurm_deploy.py:538-588 | from e_instances_num = -1 a run of successful calls ends in a state that the next check refuses |
| SlurmStart.StartServices | examples/deployer/slurm_deploy.py:486-505 | coordinator and controller first and always, each other service exactly when enabled, none twice |
| SlurmStart.SubmitAllInOrder | examples/deployer/slurm_deploy.py:433-510 | a completed start has recorded every live job of its own, exactly its services, and matches its configuration |
| SlurmCalls.StartRecords | examples/deployer/slurm_deploy.py:327-339 | the i-th call's id is recorded under the i-th planned slot, services first and then the roles in order, up to the first call that fails |
| SlurmStart.CancelAllRemoves | examples/deployer/slurm_deploy.py:591-614 | stopping removes exactly the listed jobs whose cancel succeeded |
| SlurmStart.FailedStartCleansUp | examples/deployer/slurm_deploy.py:484-510 | after a failed start the only live jobs of its own are those whose cancel failed or whose id sbatch garbled |
| SlurmDeployer.Deployer.constructor | examples/deployer/slurm_deploy.py:433-484 | an empty deployment over a given configuration and cluster |
| SlurmDeployer.Deployer.SubmitJob | examples/deployer/slurm_deploy.py:303-312 | one sbatch call and its parsed id |
| SlurmDeployer.Deployer.ChangeRole | examples/deployer/slurm_deploy.py:561-576 | the in-place loops for one role do the specified scaling, also when interrupted |
| SlurmDeployer.Deployer.UpdateInstances | examples/deployer/slurm_deploy.py:513-588 | the command is the specified transaction, refuses exactly as `SlurmVerdicts.InvalidIff` says, changes instance counts only and keeps alignment and books |
| SlurmDeployer.Deployer.StopJobs | examples/deployer/slurm_deploy.py:591-614 | every listed job is cancelled once, and failure is reported exactly when one survives |
| SlurmDeployer.Deployer.Start | examples/deployer/slurm_deploy.py:433-510 | success records all jobs; failure cancels what was recorded and leaves only jobs whose own cancel failed |
| SlurmDeployer.Deployer.SubmitRole | examples/deployer/slurm_deploy.py:315-339 | submitting a role's instances records each id under its index |
| NodePorts.FindConflicts | examples/deployer/lib/nodeport_allocator.py:340-357 | the loop with its seen set reports the specified conflicts with their owners |
| NodePorts.ConflictsDistinct | examples/deployer/lib/nodeport_allocator.py:318-357 | reported ports are pairwise different, planned, and held by somebody else |
| NodePorts.ConflictsComplete | examples/deployer/lib/nodeport_allocator.py:318-357 | no planned port held by somebody else goes unreported |
| NodePortAnswers.ConflictsListed | examples/deployer/lib/nodeport_allocator.py:340-357 | the conflicts are, in the order of the plan, the first foreign-held item of each port |
| NodePortAnswers.OwnIff | examples/deployer/lib/nodeport_allocator.py:318-337 | a port is the deployment's own exactly when its owner has the right namespace and the service's name or the generated one, in any letter case |
| NodePorts.AllocateFreePort | examples/deployer/lib/nodeport_allocator.py:360-384 | the wrap-around loop is the first free candidate |
| NodePorts.CandidatesInRangeIff | examples/deployer/lib/nodeport_allocator.py:360-384 | all candidates are NodePorts if and only if the old port is at least 29999 |
| NodePorts.AllocatorComplete | examples/deployer/lib/nodeport_allocator.py:360-384 | from every old port the result is the first unreserved port of its window in cyclic order, and there is none exactly when the window is reserved; from 29999 on the window is the NodePort range |
| NodePortPlan.PromptOneConflict | examples/deployer/lib/nodeport_allocator.py:494-563 | the prompt loop over the remaining answers |
| NodePortPlan.PromptAccepts | examples/deployer/lib/nodeport_allocator.py:461-563 | an accepted port, typed or automatic, is no other plan's and no earlier choice's, and in the cluster it is free or the service's own |
| NodePortAnswers.ValidIff | examples/deployer/lib/nodeport_allocator.py:461-491 | a typed port is taken exactly when it is in 30000-32767, foreign to nobody in the cluster, not chosen before and no other service's final port |
| NodePortAnswers.AnswersRead | examples/deployer/lib/nodeport_allocator.py:494-563 | refused answers are read over; the next one decides, and without one the port is kept |
| NodePortPlan.ResolveConflicts | examples/deployer/lib/nodeport_allocator.py:610-696 | the loop over conflicts builds the specified remapping and declined list |
| NodePortAnswers.ResolveRecords | examples/deployer/lib/nodeport_allocator.py:640-670 | the port chosen for a conflict is the one recorded for it, and a declined conflict has none |
| NodePortPlan.AnswersKeepPlanSound | examples/deployer/lib/nodeport_allocator.py:461-563 | for every answer script distinct ports stay distinct, new ports are free or the service's own, and exactly the unmapped conflicts are declined |
| NodePortPlan.RecheckFindsDeclinedIff | examples/deployer/lib/nodeport_allocator.py:340-357 | rechecking the renamed plan finds exactly the declined conflicts if and only if no new port is foreign to a service sharing the old one |
| NodePortPlan.SharedPortRecheck | examples/deployer/lib/nodeport_allocator.py:461-491 | two services on one port, moved to a port that is the first one's own: the recheck reports the second although nothing was declined |
| NodePortPlan.DistinctPlanRechecks | examples/deployer/lib/nodeport_allocator.py:669-686 | with one service per planned port it always does |
| NodePortPlan.ProposalIsAllAuto | examples/deployer/lib/nodeport_allocator.py:387-401 | the batch allocation is what accepting every automatic port produces |
| NodePortFiles.CollectSeesRenamingIff | examples/deployer/lib/nodeport_allocator.py:213-276 | for every list of files, collecting after the rewrite sees a simultaneous renaming if and only if renaming each file as often as it is listed comes to the same as once |
| NodePortFiles.CollectSeesRenaming | examples/deployer/lib/nodeport_allocator.py:213-276 | which holds when no file is listed twice |
| NodePortFiles.ChainedRenaming | examples/deployer/lib/nodeport_allocator.py:566-590 | a file listed twice, planned and resolved as such: answers that move one service off a port and another onto it, as already its own, do not settle |
| NodePortFrame.CollectedIff | examples/deployer/lib/nodeport_allocator.py:97-276 | the plan holds exactly the non-zero numeric NodePorts of listed, readable files, with the service, namespace, set and role they belong to |
| NodePortFrame.RewriteFrame | examples/deployer/lib/nodeport_allocator.py:213-253 | with the NodePorts blanked every file is as before, unlisted files are the same, and each numeric NodePort of a listed file is renamed once for each listing |
| NodePortFiles.Workspace.RewriteNodePorts | examples/deployer/lib/nodeport_allocator.py:566-590 | the loop rewrites the listed files as `RewriteFiles` does, whose whole effect is `NodePortFrame.RewriteFrame` |
| NodePortFiles.Workspace.ResolveAndRewrite | examples/deployer/lib/nodeport_allocator.py:610-696 | the outcome is that of the dialogue over the found conflicts; without a remapping the disk stays; after a rewrite collecting again gives the renamed plan if and only if repeated files settle, and rechecking it the declined conflicts if and only if no new port is foreign |
| EnginePorts.AddBasePorts | examples/deployer/lib/docker_utils.py:1212-1215 | the endpoint loop adds service and management ports in order, dropping repeats and invalid ones |
| EnginePorts.AddKvPorts | examples/deployer/lib/docker_utils.py:1217-1224 | so does the loop over cards |
| EnginePorts.CollectListenPorts | examples/deployer/lib/docker_utils.py:1173-1226 | collection is the declared list filtered for valid, unseen ports; `EngineStarts.ListensIff` gives its members from the raw settings |
| EngineStarts.ListensIff | examples/deployer/lib/docker_utils.py:997-1226 | which label listens on which port, for every configuration, from the raw settings and the defaults 1026, 9000 and 10000 |
| EngineStarts.DefaultPorts | examples/deployer/lib/docker_utils.py:1173-1226 | an empty engine section with one endpoint listens on 1026, 9000, 10000 and 10001 |
| EnginePorts.EveryPortCovered | examples/deployer/lib/port_conflict.py:69-92 | for every configuration each collected port lies in the span of its kind |
| EngineStarts.BaseAnchor | examples/deployer/lib/port_conflict.py:69-92 | a base group is anchored at its configured start if its first service or management port was collected, else at its least port |
| EngineStarts.SpansInOrder | examples/deployer/lib/port_conflict.py:86-92 | groups come in the order node manager, rpc, base, KV |
| EngineRemap.WellFormedKept | examples/deployer/lib/docker_utils.py:1173-1226 | from disjoint ranges within 1-65535 nothing is dropped |
| EngineRemap.GroupingExact | examples/deployer/lib/port_conflict.py:69-92 | grouping the labels recovers exactly the declared ranges |
| EngineRemap.StoreMoves | examples/deployer/lib/docker_utils.py:940-989 | storing a port and reapplying the overrides moves that range and no other |
| EngineStarts.OverridesApplyIff | examples/deployer/lib/docker_utils.py:919-989 | overrides are refused exactly when one is no port, where base may be 0, or a KV port has no transfer configuration |
| EngineStarts.OverridesWrite | examples/deployer/lib/docker_utils.py:927-989 | which fields overrides write, and that a KV port written as a string stays one |
| EngineRemap.FirstInWindow | examples/deployer/lib/port_conflict.py:128-168 | the scan returns the least acceptable block start of a window |
| EngineRemap.AutoPort | examples/deployer/lib/port_conflict.py:149-168 | complete first fit: none only if no acceptable block starts above the anchor or anywhere in 1024..65536-span |
| EngineRemap.AutoChoiceUnique | examples/deployer/lib/port_conflict.py:149-168 | the choice is determined |
| EngineRemap.Prompt | examples/deployer/lib/port_conflict.py:178-225 | any port the prompt returns is acceptable, and an answer was used up |
| EngineStarts.AcceptableIff | examples/deployer/lib/port_conflict.py:110-146 | a start is accepted exactly when its block fits 1-65535 and each port is unreserved, unused and in no other group |
| EngineStarts.AnswersRead | examples/deployer/lib/port_conflict.py:178-225 | refused answers are read over; the next one decides, and without one the dialogue is aborted |
| EngineDialogue.FreeMeansFree | examples/deployer/lib/port_conflict.py:228-275 | for every configuration, success means that no port the engine listens on is in use |
| EngineDialogue.DialogueKeepsRanges | examples/deployer/lib/port_conflict.py:228-275 | ranges stay disjoint and in range, at most four moves are accepted, and success moved exactly the busy ranges |
| EngineDialogue.OverrideStore.AskForPort | examples/deployer/lib/port_conflict.py:178-225 | the prompt loop |
| EngineDialogue.OverrideStore.OfferRemap | examples/deployer/lib/port_conflict.py:228-275 | the in-place dialogue is the specified one and success means free ports |
| EngineWidths.FullWidthIff | examples/deployer/lib/port_conflict.py:69-92 | for every configuration a range is grouped at its full width if and only if its last port is valid and configured for no range collected before it; for base ports, one of its last two |
| EngineWidths.OutOfRangeNarrows | examples/deployer/lib/docker_utils.py:1212-1224 | so a range that runs past 65535 is grouped narrower than the engine binds |
| EngineWidths.BaseListedIff | examples/deployer/lib/docker_utils.py:1212-1215 | a base port is collected if and only if it is valid and no single port |
| EngineWidths.KvListedIff | examples/deployer/lib/docker_utils.py:1217-1224 | a KV port is collected if and only if it is valid and no port collected before has its number |
| EngineDialogue.DialogueMovesClear | examples/deployer/lib/port_conflict.py:228-275 | for every configuration each move goes to a block that is free, unreserved and disjoint from the ports the other kinds listen on at that moment, and the overrides are those moves |
| EngineDialogue.IdleDialogue | examples/deployer/lib/port_conflict.py:228-275 | when nothing is busy nothing moves, so that overlapping starts stay overlapping |
| LogCollector.FreeIndex | examples/deployer/log_collect/log_monitor.py:109-118 | the first index from the start on whose file does not exist |
| LogCollector.AdvanceOk | examples/deployer/log_collect/log_monitor.py:354-445 | every iteration pulls into a fresh file or its own one, with --since-time once lines were written there |
| LogReconnects.PullTarget | examples/deployer/log_collect/log_monitor.py:382-411 | a pull goes on in the open file with its cursor; without one, or on another node, it takes the first free file from the search index on, and no cursor |
| LogReconnects.PullEffect | examples/deployer/log_collect/log_monitor.py:411-441 | only the target file changes, by this life's lines; file and cursor are kept, set once lines were written, and dropped only after a failed pull into a file that did not exist |
| LogReconnects.ReconnectsAppend | examples/deployer/log_collect/log_monitor.py:354-445 | however often the stream ends on one node, all pulls go into one file, with a cursor from the first one on that wrote |
| LogReconnects.DumpsBounded | examples/deployer/log_collect/log_monitor.py:354-445 | a life dumps the history at most once, plus once for each move and each failed pull that left no file |
| LogCollector.RunLifeOk | examples/deployer/log_collect/log_monitor.py:354-445 | so does a whole life, and the next free index moves past every file it wrote |
| LogCollector.RunsNeverRedump | examples/deployer/log_collect/log_monitor.py:354-445 | across every run of lives a full pull never targets a file with lines, and no file holds lines of two lives |
| LogReconnects.IndexAboveGeneration | examples/deployer/log_collect/log_monitor.py:359-366 | the n-th collector of a pod never goes below index n |
| LogBackoff.BackoffBounded | examples/deployer/log_collect/log_monitor.py:120-142 | when each delay is slept the restart count stays at most 4 and the delay at most 32 seconds |
| LogBackoff.BackoffDelays | examples/deployer/log_collect/log_monitor.py:120-142 | the first failure, and any later than 60 seconds after the first one counted, waits 2 seconds; every other one twice as long as the one before, at most 120 |
| LogBackoff.BackoffReachesFour | examples/deployer/log_collect/log_monitor.py:120-142 | the bound is reached |
| LogMonitor.Monitor.constructor | examples/deployer/log_collect/log_monitor.py:91-107 | a monitor without history, over the log files that earlier processes left |
| LogMonitor.Monitor.BackoffSleep | examples/deployer/log_collect/log_monitor.py:120-142 | the stored backoff and the returned delay |
| LogMonitor.Monitor.AllocateUniqueLogPath | examples/deployer/log_collect/log_monitor.py:109-118 | the loop finds the first free index |
| LogMonitor.Monitor.Iterate | examples/deployer/log_collect/log_monitor.py:382-441 | one iteration of the collector loop is one step of the state machine, whose target and effect are `LogReconnects.PullTarget` and `PullEffect` |
| LogMonitor.Monitor.PullLogAndSave | examples/deployer/log_collect/log_monitor.py:354-445 | a thread is one life, and its pulls use higher indexes than every file written before |
| TypingRewrite.FixPreservesMeaningIff | pre-commit/check_modern_typing.py:267-423 | with or without the future import: exactly when the fixed text can be read back, and exactly when it has the same meaning |
| Annotations.LiteralsPrinted | pre-commit/check_modern_typing.py:333-401 | a literal is printed between apostrophes, or quotation marks when it holds only apostrophes, and keeps its u |
| TypingRewrite.RenameOnlyAliases | pre-commit/check_modern_typing.py:291-306 | the run-time pass replaces the old aliases outside string literals and nothing else |
| TypingRewrite.SkippedIff | pre-commit/check_modern_typing.py:97-107 | an annotation is skipped exactly when there is no future import and a string literal occurs in it |
| TypingRewrite.RewriteIsFixedPoint | pre-commit/check_modern_typing.py:333-402 | the rewriter finds a change exactly where something is old, and none in its own output if and only if lost parentheses revived no old-style name |
| TypingRewrite.SecondFixIdleIff | pre-commit/check_modern_typing.py:267-423 | a second run over text that kept its quoting is idle unless a name was revived or a quoted old-style name came to the top |
| TypingRewrite.CheckAfterFixIff | pre-commit/check_modern_typing.py:638-712 | after a fix that kept the quoting, the check reports exactly the names the rewriter cannot see, and nothing for skipped annotations or when the text no longer parses |
| TypingRewrite.ReportedIff | pre-commit/check_modern_typing.py:638-712 | the annotation check reports exactly the old names that occur, string annotations included |
| TypingRewrite.BareNamesIff | pre-commit/check_modern_typing.py:638-712 | the name check reports exactly the old aliases outside string literals |
| TypingRewrite.EmptyTupleExample | pre-commit/check_modern_typing.py:404-423 | Tuple[()] becomes text that does not parse |
| TypingRewrite.MisquotedExample | pre-commit/check_modern_typing.py:310-322 | an apostrophe-quoted Optional["Foo"] and a u-prefixed Optional[int] are not read back as meant; with the other mark the first one is |
| TypingRewrite.RegroupedExample | pre-commit/check_modern_typing.py:364-395 | a union of A and B subscripted by List[int], and A & List[int], get other members |
| TypingRewrite.RevivedExample | pre-commit/check_modern_typing.py:364-371 | a union of A and List subscripted by Dict is changed again by a second run |
| TypingRewrite.SkippedExample | pre-commit/check_modern_typing.py:280-306 | without the future import List["Foo"] is passed over and still renamed, and the check reports it, as a run-time name |
| TypingRewrite.CallableExample | pre-commit/check_modern_typing.py:638-712 | an old-style name in a Callable parameter list is reported but never fixed |
| Splice.ApplyReplacements | pre-commit/check_modern_typing.py:547-549 | applying disjoint replacements from the end gives the simultaneous splice |
| Splice.SortOrders | pre-commit/check_modern_typing.py:587-591 | sorting by descending start lists disjoint spans from right to left and loses none |
| DockerFrames.TakeFrames | examples/deployer/lib/docker_utils.py:1638-1650 | the loop splits off all complete frames, or fails exactly when it reaches an oversized header |
| DockerFrames.WireFormat | examples/deployer/lib/docker_utils.py:1638-1650 | a header is eight bytes with a big-endian size in the last four, and a size above 16777216 is refused |
| DockerFrames.ScanInvertsEncoding | examples/deployer/lib/docker_utils.py:1638-1650 | encoded frames followed by an incomplete one are split exactly there |
| DockerFrames.EncodingInvertsScan | examples/deployer/lib/docker_utils.py:1638-1650 | every buffer is the encoding of the frames read followed by the tail |
| DockerFrames.RenderLogFollow.StreamUnix | examples/deployer/lib/docker_utils.py:1753-1767 | the file gets what the buffered loop takes out of each chunk, and the error line after an oversized header |
| DockerFrames.DeliveredUntil | examples/deployer/lib/docker_utils.py:1753-1767 | reading ends at the first empty read or lost connection |
| DockerFrames.OutputEnds | examples/deployer/lib/docker_utils.py:1753-1767 | the file ends with the message about the frame size exactly after a header that announces too much |
| DockerFrames.StreamIsScan | examples/deployer/lib/docker_utils.py:1753-1767 | without an oversized header the loop writes the payload of one decode of the whole stream and keeps its tail |
| DockerFrames.StreamBreaks | examples/deployer/lib/docker_utils.py:1753-1767 | with one it writes what the chunks before the failing one complete |
| DockerCuts.CutWrites | examples/deployer/lib/docker_utils.py:1753-1767 | every cut into reads of 1 to 4096 bytes writes the payload up to a byte with which the failing read can begin |
| DockerCuts.CutAt | examples/deployer/lib/docker_utils.py:1753-1767 | and for each such byte up to the header there is a cut that does |
| DockerCuts.CutsAgreeIff | examples/deployer/lib/docker_utils.py:1753-1767 | all cuts agree if and only if no header is oversized or all payload before it is complete where the earliest read can begin that completes it |
| DockerCuts.CutsDiffer | examples/deployer/lib/docker_utils.py:1753-1767 | otherwise one cut loses payload that another one writes |
| PodLayout.LayoutPlacesWorld | examples/deployer/config_tool/vllm_to_motor.py:654-673 | which sizes have a layout; pods x npu is the world size, and the validator accepts it |
| PodLayout.LayoutIs | examples/deployer/config_tool/vllm_to_motor.py:654-673 | the layout as products: when it exists, the pods, the NPUs of each and the nodes of a group |
| PodLayout.ValidateIff | examples/deployer/lib/docker_utils.py:1106-1122 | a layout is accepted exactly when its NPUs hold dp x tp x pp, and then with its NPUs per pod |
| PodLayout.EndpointsSumIff | motor/config/node_manager.py:1072-1094 | endpoints over all pods sum to dp if and only if the world fits one pod or a group divides a node |
| PodLayout.CrossNodeAcceptedIff | motor/config/node_manager.py:684-708 | across nodes the NodeManager accepts if and only if tp divides the cards, with the cards as local world size |
| PodLayout.LocalIs | motor/config/node_manager.py:684-708 | a group is split evenly over the nodes, and refused when their number does not divide pcp x pp |
| PodLayout.EndpointsAre | motor/config/node_manager.py:1072-1094 | one endpoint without multiple endpoints; otherwise as many groups as fit the devices, at most dp, and refused when none fits |
| PodLayout.DockerMatchesIff | examples/deployer/lib/docker_utils.py:1145-1170 | for all sizes that the NodeManager accepts: a configured endpoint_num matches only if it is the number started; with none, the counts match unless dp > 1 groups split over nodes share a pod (npu at least two local worlds) in which not all dp whole groups fit |
| PodLayout.ExpectedEndpoints | examples/deployer/lib/docker_utils.py:1145-1170 | the endpoints that Docker expects: a configured positive number, else as many groups as fit, at most dp and at least one |
| PodLayout.DockerMatchesNodeManager | examples/deployer/lib/docker_utils.py:1145-1170 | this covers every layout the converter emits |
| PodLayout.DockerMismatch | motor/config/node_manager.py:684-708 | dp = 2 across two nodes, set by hand, is such a case |
| PodLayout.CrossNodeRefused | motor/config/node_manager.py:684-708 | tp = 3 and pp = 16 on eight-card nodes get a layout that the NodeManager refuses |
| PodLayout.EndpointsFallShort | motor/config/node_manager.py:1072-1094 | a layout whose endpoints are fewer than dp |
| PodLayout.EngineConfig.ApplyCrossNode | examples/deployer/config_tool/vllm_to_motor.py:746-769 | dp > 1 across nodes is refused; otherwise nnodes and master port 7060 are set unless present, and no other entry changes |
| PodLayout.NodeManager.constructor | motor/config/node_manager.py:684-694 | a configuration before the adjustment |
| PodLayout.NodeManager.AdjustCrossNode | motor/config/node_manager.py:684-708 | the local world size is divided by nnodes, or the configuration refused; it stays positive |
| PodLayout.NodeManager.GenerateEndpointPorts | motor/config/node_manager.py:1072-1094 | endpoint count and service ports, or a refusal that changes nothing |
| KvParallel.StripParallelFromTree | examples/deployer/config_tool/vllm_to_motor.py:1145-1163 | filling a fresh mapping item by item gives the stripped tree |
| KvParallel.StripTwice | examples/deployer/config_tool/vllm_to_motor.py:1145-1163 | stripping is idempotent |
| KvParallel.FindStripped | examples/deployer/config_tool/vllm_to_motor.py:550-573 | the search in a stripped tree yields role mappings without dp, tp or pp size |
| KvParallel.FindHere | examples/deployer/config_tool/vllm_to_motor.py:550-573 | a mapping with a prefill or decode mapping in it gives these two, each under its own name |
| KvParallel.FindInFieldsFirst | examples/deployer/config_tool/vllm_to_motor.py:550-573 | any other mapping gives what its first field with a non-empty result gives |
| KvParallel.FindInItemsFirst | examples/deployer/config_tool/vllm_to_motor.py:550-573 | a list gives what its first item with a non-empty result gives |
| KvParallel.ResolveReads | examples/deployer/config_tool/vllm_to_motor.py:541-584 | a size is the positive command-line flag, dashed before underscored, else the entry of the role mapping |
| KvParallel.StripRoleEntry | examples/deployer/config_tool/vllm_to_motor.py:1145-1163 | a role mapping loses its three sizes, and disappears when nothing is left or it is no mapping |
| KvParallel.StrippedResolvesFromCli | examples/deployer/config_tool/vllm_to_motor.py:576-584 | after stripping, sizes come from the command line or from nowhere |
| KvParallel.StripKeepsShape | examples/deployer/config_tool/vllm_to_motor.py:1145-1163 | away from role mappings the tree keeps its shape and leaves |
| KvParallel.StripDropsOnlySizes | examples/deployer/config_tool/vllm_to_motor.py:1145-1163 | a role mapping loses exactly its three sizes |
| ProcessTree.ExpandTree | examples/deployer/lib/in_place_run.py:199-208 | the worklist ends with exactly the processes reachable from its roots, on any child relation |
| ProcessTree.Descendants | examples/deployer/lib/in_place_run.py:211-222 | every other reachable process exactly once |
| ProcessTree.Signals.KillProcessTree | examples/deployer/lib/in_place_run.py:225-240 | each unprotected reachable process above 1 is signalled once, the root last, and nobody else |
| RadixTree.Reconcile | motor/kv_conductor/src/concurrent_tree.rs:196-238 | one level of the walk, the short cut for a single worker included, keeps the holders and records the others |
| RadixTree.RadixTree.FindMatchesDetailed | motor/kv_conductor/src/concurrent_tree.rs:148-266 | exactly the workers with a match, each with its longest one and the hash of its last block |
| RadixTree.RadixTree.constructor | motor/kv_conductor/src/concurrent_tree.rs:121-127 | an empty tree |
| RadixTree.RadixTree.LinkBlock | motor/kv_conductor/src/concurrent_tree.rs:321-353 | the child is the existing one, else the worker's own block of that hash, else a new one |
| RadixTree.RadixTree.StoreBlock | motor/kv_conductor/src/concurrent_tree.rs:308-372 | one iteration of the loop, with the deferred insertion, is one step of the specified store |
| RadixTree.RadixTree.StoreBlocks | motor/kv_conductor/src/concurrent_tree.rs:306-380 | the loop and the last insertion are the specified store |
| RadixTree.RadixTree.ApplyStore | motor/kv_conductor/src/concurrent_tree.rs:276-383 | the in-place event is the specified store with its errors, and only grows the graph, for its worker alone |
| RadixTree.RadixTree.ApplyRemove | motor/kv_conductor/src/concurrent_tree.rs:389-411 | the in-place event drops exactly the blocks its hashes lead to and removes the hashes |
| RadixTree.RadixTree.RemoveWorker | motor/kv_conductor/src/concurrent_tree.rs:414-419 | the same for the whole table, which ends empty |
| RadixEvents.StoreTrail | motor/kv_conductor/src/concurrent_tree.rs:276-383 | a store runs along a trail below its parent: the worker holds all of it on success, the table leads to its end, and nothing off the trail is new |
| RadixBlocks.LinkedBlock | motor/kv_conductor/src/concurrent_tree.rs:321-372 | an existing child is used; else the worker's own block of the hash becomes the child, or a new block with that hash and nothing else |
| RadixBlocks.StoreOutcome | motor/kv_conductor/src/concurrent_tree.rs:276-320 | a missing parent is reported exactly when the given hash is not in the worker's table, and then nothing changes |
| RadixBlocks.ChainOutcome | motor/kv_conductor/src/concurrent_tree.rs:321-383 | the chain is refused exactly at a block that would become its own child, with the state that is left behind |
| RadixBlocks.NewBlocksHashed | motor/kv_conductor/src/concurrent_tree.rs:321-383 | every created block carries the hash of a stored one |
| RadixEvents.StoreKeepsCover | motor/kv_conductor/src/concurrent_tree.rs:276-383 | unless it remaps a hash, a store keeps every block of its worker in the worker's table |
| RadixGraph.GrowthKeepsMatches | motor/kv_conductor/src/concurrent_tree.rs:276-383 | growth never shortens a match of any worker |
| RadixGraph.DropKeepsOthers | motor/kv_conductor/src/concurrent_tree.rs:76-81 | dropping a worker, with the children of an emptied block, does not change other workers' matches |
| RadixGraph.DropAllMatches | motor/kv_conductor/src/concurrent_tree.rs:389-419 | the effect of a series of drops on every query |
| RadixBlocks.DroppedBlocks | motor/kv_conductor/src/concurrent_tree.rs:76-81 | a removal takes the worker from exactly the dropped blocks, and the children from those that nobody holds any more |
| RadixBlocks.DepthIff | motor/kv_conductor/src/concurrent_tree.rs:148-266 | a match has length n exactly when n blocks follow and the worker holds each of them |
| RadixGraph.TrailMatches | motor/kv_conductor/src/concurrent_tree.rs:148-266 | a chain held throughout is a full match |
| RadixRuns.StepMatches | motor/kv_conductor/src/concurrent_tree.rs:276-419 | an event's effect on every query: a store shortens nothing, a removal leaves others alone and cuts its own worker in front of the first dropped block |
| RadixBlocks.StepTables | motor/kv_conductor/src/concurrent_tree.rs:276-419 | an event changes its own worker's table only: a removal takes out the named hashes, a clear all of them |
| RadixRuns.RunNeverShortens | motor/kv_conductor/src/concurrent_tree.rs:276-419 | over every run of events of all workers only its own removals shorten a worker's match |
| RadixRuns.RunCovers | motor/kv_conductor/src/concurrent_tree.rs:276-419 | after every run without a remapped hash each table lists every block its worker holds |
| RadixRuns.ClearedIff | motor/kv_conductor/src/concurrent_tree.rs:414-419 | a removed worker matches nothing if and only if its table listed every block it held directly below the root |
| RadixRuns.RunThenClear | motor/kv_conductor/src/concurrent_tree.rs:414-419 | after every run without a remapped hash, removing a worker removes it from every query |
| RadixRuns.StaleWorker | motor/kv_conductor/src/concurrent_tree.rs:321-372 | three stores of one worker from an empty tree, the last remapping a hash: the removed worker still matches |
| RadixRuns.ChainedStoresMatch | motor/kv_conductor/src/concurrent_tree.rs:276-383 | a store, any events of others and further stores, then a store chained to the first: the joined sequence matches in full |

## Where code and documentation differ

- `--check` and auto-fix are documented to agree on what will be changed (`pre-commit/check_modern_typing.py:641-643`).
  They do not for names inside list displays, nested string literals, or bare `Optional` and `Union`:
  `TypingRewrite.CheckAfterFixIff` gives the exact difference.
- Annotations with string literals are documented to be skipped without the future import
  (`pre-commit/check_modern_typing.py:274-275`). The run-time pass still renames their aliases, as
  `TypingRewrite.SkippedExample` shows.
- `_instance_endpoint_num` is documented to match the NodeManager (`examples/deployer/lib/docker_utils.py:1146`).
  `PodLayout.DockerMatchesIff` says exactly when it does.

## Left out

- Whitelist keys: configuration keys contain no `.` or `[` and the first key is not empty, because the dotted syntax cannot carry others.
- WhitelistUpdate.UpdateCorrect: therefore stated for pairs of configurations with such keys.
- WhitelistConvergence.SecondRunIsIdle: likewise.
- Whitelist values: the deep copy is updated as a value, so aliasing inside the copied tree is not captured; NaN is not modelled.
- Slurm: file writes do not fail, jobs do not end by themselves, and the validators of other configuration sections and a missing state file are not modelled.
- SlurmScaling.UpdateKeepsAligned: starts from aligned counts, and so do SlurmScaling.ChangesLeaveAligned and SlurmRuns.UpdateProgress; SlurmRuns.RunMatchesIff covers negative counts.
- NodePorts: purpose labels, guidance texts and conflict log files; a session without a terminal is an empty list of answers.
- Engine ports: endpoint and card counts are inputs of the collection; holder descriptions in messages are not modelled.
- EngineDialogue.DialogueKeepsRanges: the ranges start disjoint and within 1-65535. For other starts EngineDialogue.DialogueMovesClear states what each move keeps, not whether all ranges end disjoint, which depends on the answers.
- Log collector: one pod, no log rotation; kubectl results and clock readings are events.
- Typing modernizer: tuples occur only directly in brackets, `v[x,]` is not told from `v[x]`, and `**` and expressions that bind more loosely than `|` occur only where they need no parentheses. Old-style names inside calls, attributes and other expressions, positions in the text and the import clean-up are not modelled.
- Typing literals: of a literal only quote marks, prefix and fragile characters are modelled.
- TypingRewrite.CheckAfterFixIff: what the check reports on a misquoted text is not stated, because that text may or may not parse.
- TypingRewrite.SecondFixIdleIff: the second run over a misquoted text is not stated, for the same reason.
- Docker logs: HTTP errors before the stream starts and a handle closed by another thread.
- NodeManager: only the cross-node adjustment and the endpoint count; single-container mode is not modelled.
- Process trees: the child relation is one snapshot; which processes are service processes is not modelled.
- Radix tree: events and queries run one at a time, depths do not wrap at 32 bits, and sweep_stale_nodes and the lower storage tiers are not modelled.
- Controller, coordinator and HTTP services: lifecycle glue and field checks that would only add easy members.
