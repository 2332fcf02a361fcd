# Compose Manager: proofs about its deletion protocol and its text and cache algorithms

The program is a web panel for the Docker Compose projects of a NAS. Most of what it does can be
repeated when it goes wrong; deleting a project cannot. These files model the code that decides when a
deletion is safe, the code that keeps deletions and updates apart, and the algorithms around them that
need real arguments: the directory walk, path containment and host mapping, image references, the
output splitter, password strings, timestamps that are compared as text, and the two read caches.

Everything the program asks of the outside world (Docker, the file system, the clock, random numbers,
the audit table, hash functions) is an arbitrary answer, a parameter or a nondeterministic choice, so
that a theorem about a run holds whatever the world answers, and whenever it changes between two
steps. Methods follow the loops of the source and are proved equal to functions or predicates; the
theorems are about those.

| file | what it models |
|---|---|
| `paths.dfy`, `removal_paths.dfy` | clean paths as component sequences, the containment test, mapping to host paths |
| `options.dfy`, `strings.dfy`, `sorting.dfy`, `sets.dfy`, `docker.dfy` | optional values, string and sort operations of the standard library, set sizes, Docker's records |
| `image_refs.dfy` | the three readers of image references |
| `walker.dfy`, `discovery.dfy`, `discovery_reach.dfy`, `inventory_reach.dfy` | the batched walk, its two visitors, exactly what the display shows and the inventory holds |
| `removal_plan.dfy`, `removal_items.dfy`, `plan_contents.dfy` | what a removal would touch and why not, and exactly what a plan lists |
| `tickets.dfy`, `removal_trace.dfy`, `removal_facts.dfy`, `delete_project.dfy` | preview tickets, the trace of effects and what it means for containers and file, the protocol itself |
| `update_registry.dfy`, `update_gate.dfy`, `shared_gate.dfy` | the table of update tasks, all interleavings of gate, starters, runners and deletions, and the gate as one request among them uses it |
| `progress_writer.dfy` | splitting a command's output into lines while it arrives |
| `timestamps.dfy`, `sessions.dfy` | RFC 3339 text of instants, session expiry by text comparison |
| `base64.dfy`, `decimals.dfy`, `passwords.dfy` | password strings |
| `scan_cache.dfy`, `stats_pool.dfy` | the display cache and the worker pool behind the statistics cache |
| `demux.dfy` | the multiplexed log stream |

Main results, in words:

* **Deletion.** Every run of `DeleteProject`, whatever the system answers, is a lawful trace
  (`DeleteProject.Service.DeleteProject`). In a lawful trace effects come in stages and a failure up to
  the file or directory ends the run; only containers of the confirmed plan are touched, each stopped
  first if it runs; an image or a volume goes only if it was ticked, was free when confirmed and is
  unused in readings made directly before; the directory goes only after a second planning that finds
  nobody else in that directory, and after a last look at the same path. Nothing is stopped or removed
  without a record and a backup of the very file. Over any run of previews and confirmations, a deletion
  that acts carries out the plan an earlier preview showed with its token
  (`DeleteProject.ConfirmedIsPreviewed`).
* **Gate.** In every reachable state of every interleaving, behind a deletion that has passed its check no
  update is active and nothing else is inside the gate. The registry invariant holds in the same states.
  Before every single event of a request all other threads may move; still every reading and every effect
  of a deletion happens in a state in which it is alone in this sense (`DeleteProject.Service.DeleteProject`),
  and every reading of a preview in one in which no deletion holds the gate
  (`DeleteProject.Service.PreviewProjectRemoval`).
* **Ownership.** A plan lists exactly what carries the project's label, the images that belong to it, and what
  it keeps. The directory verdict is empty if and only if the directory is the project's alone; an
  image's reason is empty if and only if no foreign container uses it and no other file names it by
  canonical tag, by the digest Docker lists or by a variable, or is uncertain; a volume's if and only if no
  foreign container mounts it and no other file names it or is uncertain.
* **Discovery.** Where the inventory succeeds the display shows nothing the inventory lacks. Exactly which
  files a scan of all roots shows is stated, and none of them is excluded from deletion. So is exactly what
  a successful inventory holds, markers for refused directories included, and when it succeeds.
* **Text.** What each text means, by its parts: lines with any line ends, image references, timestamps in the
  Gregorian calendar, base64 as numbers, password strings, log frames. Chunk independence of the line
  splitter, idempotence and agreement of the image reference readers, exact conditions for the text order of
  timestamps, and round trips.
* **Caches.** Freshness, isolation of memory, and correctness of the sampling pool under every schedule.

Four properties one might expect do not hold, and are stated with the exact condition:

* Text order of timestamps inside one second (`Timestamps.FractionsSort`, `Sessions.FractionsDoNotSort`):
  a session that expires on a whole second is honoured throughout that second.
* The registry client and the canonical form do not name the same registry for a host written with upper
  case letters or for two other names of Docker Hub, nor for a reference with a digest, which the canonical
  form keeps as it is and the client cuts off (`ImageRefs.ParseAgrees`; `ImageRefs.HubIndexDisagrees` is an
  example).
* A file that pins a tag by digest need not keep the image of that tag. A reference with `@` matches an
  image if and only if it is the very text Docker lists as its digest (`ImageRefs.PinnedMatchesOnlyListed`;
  `ImageRefs.PinnedTagIsNotMatched` gives the references that do not, `ImageRefs.PinnedWitness` one of them).
* A directory may contain a path for the manager and not on the host. It contains on the host all it
  contains for the manager if and only if every mount strictly inside it leads back into its own place on
  the host (`RemovalPaths.HostKeepsContainmentExactly`; `RemovalPaths.NestedMountLeavesDirectory` is an
  example).

A scan root that is `/` is searched seven directories deep instead of six, because depth is counted in
separators of the path's text (`DiscoveryReach.ScanFinds`).

## Model

| member | source | states |
|---|---|---|
| Paths.ContainsIsPrefix | backend/internal/compose/removal.go:163-166 | the textual test on relative paths holds for all paths exactly when the cleaned parent is a component-wise prefix of the cleaned child |
| Paths.CleanRewrites | backend/internal/compose/removal.go:163-166 | cleaning drops empty and "." components anywhere in a path, lets ".." undo the component in front of it and has no effect above the root; with `filepath.Clean` fixed on clean paths this determines it |
| Paths.RelLeads | backend/internal/compose/removal.go:163-166 | the relative path leads from the one directory to the other |
| Paths.OverlapMeans | backend/internal/app/project_removal.go:335 | two directories overlap if and only if some path lies in both |
| Paths.DeeperIsLonger | backend/internal/app/removal_paths.go:31 | why sorting by text length works: among ancestors of one path the longer text is the deeper directory |
| RemovalPaths.NewRemovalPathMapper | backend/internal/app/removal_paths.go:17-33 | the loop finds the manager's own container and its bind mounts, sorted longest destination first |
| RemovalPaths.MapperHolds | backend/internal/app/removal_paths.go:17-33 | the mapper holds every bind mount of the first container whose identifier begins with a host name of at least twelve characters, as often as Docker lists it, nothing else, and that container's project; without such a container it is empty |
| RemovalPaths.MapperIsSorted | backend/internal/app/removal_paths.go:17-33 | every mapper is sorted and holds only bind mounts of the manager's container |
| RemovalPaths.HostUsesDeepest | backend/internal/app/removal_paths.go:31-44 | a path is mapped through the deepest mount that contains it, and stays itself when none does |
| RemovalPaths.HostIgnoresMountOrder | backend/internal/app/removal_paths.go:31-44 | any two sorted orders of the same mounts map every path alike, although `sort.Slice` is not stable |
| RemovalPaths.HostKeepsContainmentExactly | backend/internal/app/removal_paths.go:35-44 | a directory, mounted or not, contains on the host whatever it contains for the manager if and only if every mount strictly inside it has its source inside the directory's place on the host |
| RemovalPaths.HostKeepsContainment | backend/internal/app/removal_paths.go:35-44 | with no destination strictly inside the directory, containment survives the mapping to the host |
| RemovalPaths.NestedMountLeavesDirectory | backend/internal/app/removal_paths.go:35-44 | an example in which it does not: data of a project mounted from elsewhere |
| ImageRefs.CanonicalIdempotent | backend/internal/app/service.go:935-956 | canonicalising twice is canonicalising once, for every string |
| ImageRefs.SplitImageAgrees | backend/internal/docker/engine.go:323-330 | splitting into repository and tag and gluing again does not change the canonical form |
| ImageRefs.HostedMeans | backend/internal/app/service.go:935-956 | host, path and tag put together mean that host, in lower case, and that path, with `library` in front of a single name on Docker Hub |
| ImageRefs.PlainMeans | backend/internal/app/service.go:935-956 | a path and tag whose first component has no dot, no colon and is not `localhost`, or that is a single name, mean Docker Hub |
| ImageRefs.UntaggedMeans | backend/internal/app/service.go:935-956 | a reference without a tag means `latest` |
| ImageRefs.HostedParses | backend/internal/update/registry.go:196-225 | the registry client takes host, path and tag apart again and asks Docker Hub, under any of three names, by that of its registry |
| ImageRefs.PlainNameParses | backend/internal/update/registry.go:196-225 | and takes a reference without a host to Docker Hub |
| ImageRefs.ParseAgrees | backend/internal/update/registry.go:196-225 | for every reference the registry client accepts, spaces around it and digests included, its triple is the canonical form up to case and the Hub alias if and only if there is no digest, the reference is not `<none>`, and the host is absent or lower case and not another name of Docker Hub |
| ImageRefs.PinnedMatchesOnlyListed | backend/internal/app/project_removal.go:336-338 | a reference with `@` matches an image of plain tag exactly if it is the digest Docker lists, letter for letter |
| ImageRefs.PinnedTagIsNotMatched | backend/internal/app/service.go:935-938 | so a tag pinned by digest does not match the image of that tag unless Docker lists this very text |
| ImageRefs.PinnedWitness | backend/internal/app/project_removal.go:336-338 | an example: `nginx:1.25` pinned to the digest Docker lists for it does not match |
| ImageRefs.OtherHostsDisagree | backend/internal/update/registry.go:196-225 | every well-formed reference with another host is accepted and taken to a registry the canonical form does not name |
| ImageRefs.HubIndexDisagrees | backend/internal/update/registry.go:207-209 | an example: Docker Hub by its index host |
| Walker.WalkDiscoveryEntry | backend/internal/compose/discovery.go:168-203 | the recursive method with its batch loop computes the walk function for every visitor, tree, batching and fault |
| Walker.SkipNeverEscapes | backend/internal/compose/discovery.go:168-183 | if the visitor skips only directories, the walk never returns the skip request as a failure |
| Walker.BatchesAreInvisible | backend/internal/compose/discovery.go:186-202 | how a directory is cut into batches changes no result of any visitor |
| Walker.WalkIsPreOrder | backend/internal/compose/discovery.go:168-203 | on fault-free trees the entries visited are exactly those not below a skipped directory, in pre-order |
| Walker.VisitedOnce | backend/internal/compose/discovery.go:168-203 | with distinct names per directory no path is visited twice |
| Discovery.WalkDiscovery | backend/internal/compose/discovery.go:160-166 | a missing root is one failed visit, a present one is walked |
| Discovery.Scan | backend/internal/compose/discovery.go:78-133 | the scan lists every file the walks saw once, sorted by name and path, and fails only when a walk fails otherwise than by a missing file |
| Discovery.RemovalInventory | backend/internal/compose/removal.go:27-160 | the inventory is the file list of the fail-closed walk over all roots, and fails when any walk does |
| Discovery.SkippedMeansIgnored | backend/internal/compose/removal.go:56 | every directory the inventory leaves out is also left out of the display |
| Discovery.IgnoredMeans | backend/internal/compose/discovery.go:207-224 | which directories the display leaves out: hidden ones, source snapshots, three names and two kinds of backup, whatever their case |
| Discovery.InventoryDominatesScan | backend/internal/compose/removal.go:27-160 | on the same file system with the same faults: when the inventory succeeds the scan succeeds and every file it shows is in the inventory |
| DiscoveryReach.VisitorsSkipOnlyDirectories | backend/internal/compose/discovery.go:94-102 | both visitors ask to skip directories only, so no skip request escapes from either walk |
| DiscoveryReach.ScanOfRootEnds | backend/internal/compose/discovery.go:82-120 | the walk over a root runs to its end unless something other than a missing or refused entry fails |
| DiscoveryReach.ScanFinds | backend/internal/compose/discovery.go:78-123 | a successful scan of all roots shows exactly the openable, resolvable, parsable Compose files below some root with no ignored directory between and at most the depth limit |
| DiscoveryReach.ScanShowsDecoded | backend/internal/compose/discovery.go:105-123 | every file is shown with what was decoded from it |
| DiscoveryReach.ExcludedMeans | backend/internal/compose/discovery.go:226-248 | a path is excluded if and only if under every root that contains it a directory between root and file is left out of the display |
| DiscoveryReach.ScannedIsNotExcluded | backend/internal/compose/discovery.go:226-248 | with clean roots and names and no links, no file the scan of all roots shows is excluded as a deletion target |
| InventoryReach.InventoryHolds | backend/internal/compose/removal.go:27-160 | a successful inventory holds exactly a record of each resolving Compose file below a root with no directory between them left out, with the key, name, images, hash, binds, volumes and uncertainty decoded from it and the directory it is in, and an uncertain marker for each directory on such a way that refuses access; no path has two records |
| InventoryReach.InventorySucceeds | backend/internal/compose/removal.go:27-160 | the inventory succeeds if and only if every Compose file it comes to resolves and can be decoded, every directory can be read or refuses access, and there are at most five hundred thousand entries |
| RemovalPlan.FindTarget | backend/internal/app/project_removal.go:104-115 | finds the only file with the key, or nothing when there is none or more than one |
| RemovalPlan.OwnContainers | backend/internal/app/project_removal.go:132-156 | accepts exactly when every labelled container belongs to the directory and file and none is the manager; lists those containers and the mounts they keep outside |
| RemovalPlan.RemovalDirectoryMeans | backend/internal/compose/removal.go:169-197 | the guard objects to nothing if and only if the path is a real directory strictly inside a root that contains no root and no mount point |
| RemovalPlan.CheckFiles | backend/internal/app/project_removal.go:169-189 | the nested loops with their overwriting verdicts compute the verdict function over all files |
| RemovalPlan.CheckMounts | backend/internal/app/project_removal.go:190-209 | the same for the bind mounts of other containers, the manager's scan mounts excepted |
| RemovalPlan.CheckTree | backend/internal/app/project_removal.go:210-240 | the walk over the directory stops at the first link, special or unreadable entry, or past one hundred thousand entries |
| RemovalPlan.CheckOwnership | backend/internal/app/project_removal.go:157-209 | the verdict before the contents are read, protected manager directories included |
| RemovalPlan.UnblockedMeansOwned | backend/internal/app/project_removal.go:157-240 | the verdict is empty if and only if the directory holds no root, no other file and no manager data, overlaps nobody's bind, uncertain file or mount, and contains only plain entries |
| RemovalItems.CollectCandidates | backend/internal/app/project_removal.go:241-253 | the candidates are the images of the project's containers and those its file names by tag or digest |
| RemovalItems.BuildImageItems | backend/internal/app/project_removal.go:254-280 | one item per candidate with its reason, in whatever order the map is iterated |
| RemovalItems.BuildVolumes | backend/internal/app/project_removal.go:281-317 | one item per volume of the project, one retained line per foreign volume mount of its containers |
| RemovalItems.BuildNetworkLines | backend/internal/app/project_removal.go:318-323 | every network of the project is retained |
| RemovalItems.ImageReasonMeans | backend/internal/app/project_removal.go:254-280 | an image's reason is empty if and only if no foreign container uses it and no other file names it by canonical tag, listed digest or variable, or is uncertain |
| RemovalItems.VolumeReasonMeans | backend/internal/app/project_removal.go:294-316 | the same for volumes |
| RemovalItems.PlanIsDetermined | backend/internal/app/project_removal.go:241-332 | two plans from the same readings are equal, so their fingerprints are, whatever the map order |
| PlanContents.PlanListsExactly | backend/internal/app/project_removal.go:129-317 | a plan lists exactly the containers and volumes with the project's label and the images its containers run from or its file names, with their titles, and an item's reason is empty if and only if nobody else is known to need it |
| PlanContents.PlanListsOnce | backend/internal/app/project_removal.go:129-325 | if Docker names containers and volumes once, nothing is listed twice |
| PlanContents.PlanRetainsExactly | backend/internal/app/project_removal.go:140-323 | the retained lines name exactly the outside bind mounts of the project's containers, the volumes of others they mount, and the project's networks |
| Sorting.SortedPermutationUnique | backend/internal/app/project_removal.go:324-325 | a sorted permutation is unique when no two different elements compare equal |
| Tickets.TicketTable.Purge | backend/internal/app/project_removal.go:79-83 | exactly tickets found expired are dropped, whenever the clock is read |
| Tickets.TicketTable.Issue | backend/internal/app/project_removal.go:74-89 | purges what has expired, refuses at 64 tickets, else adds one that lives ten minutes |
| Tickets.TicketTable.Redeem | backend/internal/app/project_removal.go:353-359 | the ticket is gone whatever is decided; it passes only for its project and in time |
| Tickets.TableIsBounded | backend/internal/app/project_removal.go:84-87 | in every reachable state the table holds at most 64 tickets |
| Tickets.RedeemedWasIssued | backend/internal/app/project_removal.go:74-89 | a confirmation that passes uses a ticket issued for the same project with that fingerprint at most ten minutes before |
| Tickets.ValidTicketPasses | backend/internal/app/project_removal.go:353-359 | no ticket is refused that should pass: the first attempt for its project within ten minutes passes |
| Tickets.RedeemedOnce | backend/internal/app/project_removal.go:353-359 | after any attempt, accepted or not, no later attempt with the token passes |
| Tickets.NeverTwice | backend/internal/app/project_removal.go:353-359 | no token lets two confirmations pass |
| DeleteProject.Service.ReadReferences | backend/internal/app/project_removal.go:100-128 | reads inventory, resources and images in this order and refuses for a failed reading or a target that is missing, ambiguous or excluded |
| DeleteProject.Service.Inspect | backend/internal/app/project_removal.go:157-240 | the target's own directory is looked at, its contents are read only when nothing else blocks, and the verdict is that of the readings |
| DeleteProject.Service.Assemble | backend/internal/app/project_removal.go:241-332 | items and retained lines are put together and sorted into the plan of these readings |
| DeleteProject.Service.PlanRemoval | backend/internal/app/project_removal.go:92-333 | planning only reads; it refuses if and only if the readings show a reason to, and otherwise returns the plan of the readings, made of the planned directory |
| DeleteProject.Service.PreviewProjectRemoval | backend/internal/app/project_removal.go:63-90 | a preview only reads, and every reading is made in a state of the gate in which no deletion holds it; it leaves a ticket with the fingerprint of exactly the plan it returns, or finds the table full, or leaves the table alone |
| DeleteProject.Service.Admit | backend/internal/app/project_removal.go:353-372 | takes the request's ticket out of the table and no other, and admits exactly a fresh plan with the ticket's fingerprint, the typed name and, for the directory, no objection |
| DeleteProject.Service.BackUp | backend/internal/app/project_removal.go:386-400 | the planned file is read, and what was read is written under its name and the token; any failure is reported |
| DeleteProject.Service.RemoveContainers | backend/internal/app/project_removal.go:402-418 | stops active containers and removes each in plan order, ends at the first failure, and reports exactly those removed until then |
| DeleteProject.Service.Recheck | backend/internal/app/project_removal.go:491-544 | passes if and only if new readings succeed and nothing in them needs the image or volume |
| DeleteProject.Service.HandleResource | backend/internal/app/project_removal.go:460-487 | a listed image or volume is removed if and only if it was selected, has no reason to stay and the recheck passes; its line says which of deleted, retained or failed it was |
| DeleteProject.Service.RemoveResources | backend/internal/app/project_removal.go:460-487 | every item is handled once, in plan order, and a failure does not stop the rest |
| DeleteProject.Service.LookAgain | backend/internal/app/project_removal.go:419-439 | goes on if and only if the second planning succeeds and confirms the file, its hash and the directory, no container is left and the directory, if asked for, is still free |
| DeleteProject.Service.RemoveTarget | backend/internal/app/project_removal.go:435-453 | the directory is removed if and only if the guard, asked once more about it, has no objection, the file if and only if it still resolves to itself |
| DeleteProject.Service.FinishTarget | backend/internal/app/project_removal.go:435-488 | the resources are handled exactly if the file or directory is gone |
| DeleteProject.Service.Finish | backend/internal/app/project_removal.go:419-488 | second planning, target, resources: every later part happens exactly if all earlier ones succeeded, and the result says what was done |
| DeleteProject.Service.Execute | backend/internal/app/project_removal.go:386-488 | the work between the audit records is lawful and accounted for, also when it stops early |
| DeleteProject.Service.Perform | backend/internal/app/project_removal.go:373-488 | an admitted deletion does nothing without its opening audit record and closes with a second one whatever happened |
| DeleteProject.Service.DeleteProject | backend/internal/app/project_removal.go:340-489 | the attempt on the gate and the update check come out as the states they are made in say, every event happens in a state of the gate in which the deletion is alone, and the gate is left in the end; every run is a lawful trace that takes its own ticket from the table and no other; one that acts was admitted by that ticket for its plan and one that is refused shows a reason; the result and the closing record say what was done; a busy gate or an active update means no effect at all |
| DeleteProject.AccountsAddUp | backend/internal/app/project_removal.go:401-488 | on a run that reaches the end the three lists together have one entry per listed item and retained line, one for what was removed and one for a directory that stays |
| DeleteProject.ReportIsTrue | backend/internal/app/project_removal.go:401-488 | on a run that reaches the end the result names as deleted, failed and retained exactly what was removed, could not be removed and was not tried, with the reason |
| DeleteProject.CallsAreOps | backend/internal/app/project_removal.go:63-90 | every run of previews and confirmations of the service is a run of the ticket table |
| DeleteProject.ServiceTableIsBounded | backend/internal/app/project_removal.go:84-87 | in every state the service can reach the table holds at most 64 tickets |
| DeleteProject.ConfirmedIsPreviewed | backend/internal/app/project_removal.go:353-366 | over any run of the service, with a collision-free digest and tokens that do not repeat: a deletion that acts carries out the plan that an earlier preview of the project showed with its token at most ten minutes before, and no other confirmation with that token acts |
| RemovalTrace.EffectsInOrder | backend/internal/app/project_removal.go:373-488 | audit, backup, containers, file or directory, resources, closing audit; a failure up to the file or directory rules out everything later but the closing record |
| RemovalTrace.EffectsAreBackedUp | backend/internal/app/project_removal.go:373-400 | every stop or removal comes after the opening audit record and after a backup of what was read from the planned file |
| RemovalTrace.ResourcesGoLast | backend/internal/app/project_removal.go:435-487 | every removal of an image or volume comes after the removal of the file or directory |
| RemovalTrace.SharedResourcesAreSafe | backend/internal/app/project_removal.go:460-487 | every removal of an image or volume was ticked, concerns an image the project runs from or names or a volume with its label, was free of other users when confirmed, and directly preceded by readings in which nothing needs it |
| RemovalTrace.OnlyOwnContainers | backend/internal/app/project_removal.go:402-418 | only containers of the confirmed plan are stopped or removed, and each carries the project's label, directory and file |
| RemovalTrace.OnlyOwnedDirectory | backend/internal/app/project_removal.go:420-453 | a directory goes only if asked for, and directly after a second planning of that directory shows it is the project's alone and a last look at it finds a real project directory; a file only at the planned path, directly after a second planning and if it still resolves to itself |
| RemovalFacts.ContainersStopFirst | backend/internal/app/project_removal.go:402-418 | in every run a container is stopped if and only if it is running, restarting or paused, directly before it is removed; and past the containers every listed one has been removed |
| RemovalFacts.TargetIsUnchanged | backend/internal/app/project_removal.go:419-439 | the file or directory goes only while the file has the place, directory and contents it had when confirmed and no container with the project's label is left |
| UpdateRegistry.Registry.PruneUpdateTasks | backend/internal/app/service.go:759-775 | at one hundred entries the oldest finished one goes, if there is one |
| UpdateRegistry.PruningKeepsUnfinished | backend/internal/app/service.go:759-775 | pruning drops no unfinished entry, changes none, and makes room unless all are unfinished |
| UpdateRegistry.Registry.Begin | backend/internal/app/service.go:627-637 | refused exactly while the project has an active update; otherwise prunes and registers |
| UpdateRegistry.Registry.SetUpdateTask | backend/internal/app/service.go:714-721 | a report changes one entry and no other |
| UpdateRegistry.Registry.FinishUpdateTask | backend/internal/app/service.go:723-732 | finishing sets the final status and releases one project |
| UpdateRegistry.Registry.AppendUpdateTaskOutput | backend/internal/app/service.go:734-748 | a non-empty line becomes the last one, and of the old ones the newest stay, three hundred in all at most; nothing else changes |
| UpdateGate.GateKept | backend/internal/app/service.go:611-656 | every step keeps reader-writer exclusion, including the hand-over from a starter to its runner |
| UpdateGate.SharedKept | backend/internal/app/service.go:611-775 | every step keeps the registry consistent with the threads that are in charge of it |
| UpdateGate.InvAlways | backend/internal/app/service.go:611-775 | the invariant holds in every state of every interleaving |
| UpdateGate.GateExclusion | backend/internal/app/project_removal.go:343-352 | behind a deletion that has passed its check nothing is active, no other thread is inside the gate, no thread is in charge of an update, and no step changes the tables |
| UpdateGate.RegistryInvariant | backend/internal/app/service.go:611-775 | in every reachable state the active updates are exactly the unfinished entries of their projects, outputs are the last 300 accepted lines, and the table holds at most one hundred or as many as updates were active in some state of the run |
| UpdateGate.PeakIsReached | backend/internal/app/service.go:627-637 | the peak is the number of active updates in a state of the run, and no state had more |
| UpdateGate.ProgressFitsStatus | backend/internal/app/service.go:658-732 | in every reachable state a queued task shows nothing done, a running one 8, 72 or 92, and one that has succeeded 100 |
| UpdateGate.UpdatesRunToTheirEnd | backend/internal/app/service.go:723-775 | in every step of every run no unfinished entry disappears and a project is released only when its own entry has finished |
| UpdateGate.HistoryIsKept | backend/internal/app/service.go:714-775 | over any stretch of a run finished entries never change, progress never goes back, identifiers never return and accepted lines are only added |
| SharedGate.SharedState.OthersMove | backend/internal/app/service.go:611-775 | any steps of other threads extend the run and leave the request's thread where it stands |
| SharedGate.SharedState.TryLock | backend/internal/app/project_removal.go:343-346 | the attempt succeeds exactly if nobody holds the gate in the state in which it is made |
| SharedGate.SharedState.UpdatesActive | backend/internal/app/project_removal.go:347-352 | the check sees exactly whether an update is active in the state in which it is made |
| SharedGate.SharedState.ReadLock | backend/internal/app/project_removal.go:64 | the wait for the gate can always end, and ends inside it |
| SharedGate.PassedIsAlone | backend/internal/app/project_removal.go:343-352 | in every state of every run a deletion past its check is alone: no update active or in anybody's charge, no other thread inside |
| SharedGate.InsideNobodyDeletes | backend/internal/app/project_removal.go:64-65 | in every state of every run in which an operation is inside the gate, no deletion holds it |
| DeleteProject.System.Happens | backend/internal/app/project_removal.go:340-489 | each event of a request happens after any steps of other threads, in the state they leave, and the request's own thread has not moved |
| ProgressWriting.ProgressWriter.EmitLines | backend/internal/compose/runner.go:144-161 | splitting the normalised buffer hands out its complete lines and keeps the rest; an absent callback is never called |
| ProgressWriting.ProgressWriter.Write | backend/internal/compose/runner.go:113-130 | takes what the limit leaves, reports the full length as written, and emits exactly the lines completed by it |
| ProgressWriting.ProgressWriter.Flush | backend/internal/compose/runner.go:132-136 | emits what remains of the last line |
| ProgressWriting.SplitIsReading | backend/internal/compose/runner.go:144-161 | all parts of the split of a normalised text but the last are its completed lines, and the last is what remains, whatever was read before |
| ProgressWriting.ReadOn | backend/internal/compose/runner.go:113-161 | reading in two pieces is reading at once wherever the cut falls, also inside CRLF |
| ProgressWriting.LinesByReading | backend/internal/compose/runner.go:144-161 | the non-empty lines of a text, defined by normalising and splitting, are those completed by reading it and the rest |
| ProgressWriting.LinesOfText | backend/internal/compose/runner.go:144-161 | lines ended by LF, CR or CRLF in any mixture are the lines of the text, empty ones aside |
| ProgressWriting.Collect | backend/internal/compose/runner.go:89-95 | for every cutting of the stream the buffer is its prefix up to the limit and the callback has received exactly the lines of that prefix |
| Timestamps.CivilAdvances | backend/internal/store/store.go:299-313 | a later second has a later calendar reading, leap years included |
| Timestamps.SecondsSort | backend/internal/store/store.go:299-313 | for instants of the years 0 to 9999 the text order is the order of time whenever the whole seconds differ |
| Timestamps.FractionsSort | backend/internal/store/store.go:299-313 | inside one second it is so if and only if the earlier fraction's digits do not begin the later one's, and reversed otherwise |
| Timestamps.CivilMeans | backend/internal/store/store.go:299-313 | the calendar reading of a second denotes it in the Gregorian calendar, all values in their ranges |
| Timestamps.FormatReads | backend/internal/store/store.go:299-313 | the text of an instant is its calendar reading with four and two digits in fixed places |
| Timestamps.FractionReads | backend/internal/store/store.go:299-313 | followed by the digits of the nanoseconds without trailing zeros, or by none |
| Sessions.HonouredExactly | backend/internal/store/store.go:308-313 | exactly when the query treats a session as unexpired |
| Sessions.WithinOneSecond | backend/internal/store/store.go:293-313 | a session is never honoured a full second after it expired and never refused a full second before |
| Sessions.FractionsDoNotSort | backend/internal/store/store.go:299-313 | on whole seconds the text order is wrong both ways for the rest of the second |
| Sessions.Store.CreateSession | backend/internal/store/store.go:293-306 | deletes what counts as expired and inserts, or changes nothing for an unknown user or a hash still in the table |
| Sessions.Store.SessionByTokenHash | backend/internal/store/store.go:308-322 | finds a session exactly if it is in the table and counts as unexpired, so within one second of the truth |
| Sessions.Store.DeleteSession | backend/internal/store/store.go:324-327 | removes the session and nothing else |
| Base64.AlphabetIsStandard | backend/internal/auth/password.go:46-78 | the alphabet is that of RFC 4648 |
| Base64.EncodeDenotes | backend/internal/auth/password.go:46-78 | the characters, read to base 64, are the number of the bytes, read to base 256, filled with zero bits |
| Base64.GroupsDenote | backend/internal/auth/password.go:46-78 | what is decoded is the number of the characters without the bits that fill no byte |
| Base64.DecodeAccepts | backend/internal/auth/password.go:46-78 | decoding fails if and only if, line breaks aside, there is a character outside the alphabet or one left over |
| Base64.RoundTrip | backend/internal/auth/password.go:46-78 | decoding an unpadded encoding recovers the bytes, for all byte strings |
| Decimals.AtoiOfPrint | backend/internal/auth/password.go:86-96 | parsing a printed number recovers it, or fails if it exceeds 64 bits |
| Decimals.AtoiReads | backend/internal/auth/password.go:86-96 | digits with or without a sign are read as the number they denote, if it has 64 bits |
| Decimals.AtoiRejects | backend/internal/auth/password.go:86-96 | and nothing else is read |
| Passwords.Parse | backend/internal/auth/password.go:49-81 | whatever is accepted is within the limits of the parser |
| Passwords.NothingIsTruncated | backend/internal/auth/password.go:82 | no accepted parameter is changed by the conversions to narrower integers |
| Passwords.ParseInvertsEncoded | backend/internal/auth/password.go:40-81 | a printed hash is parsed back to the same parameters, salt and key if they are within the limits, and rejected otherwise |
| Passwords.HashPasswordPrints | backend/internal/auth/password.go:40-47 | the stored string, with version 19, 65536 KiB, three iterations and two lanes |
| Passwords.ParseExactly | backend/internal/auth/password.go:49-81 | exactly the strings of these parts, in this order and within the limits, are accepted, with the values the parts denote |
| Passwords.VerifyMeans | backend/internal/auth/password.go:49-84 | a password verifies if and only if deriving it with what an accepted string says gives the key in it |
| Passwords.HashedPasswordVerifies | backend/internal/auth/password.go:40-84 | a password verifies against another's string exactly if both derive the same key, so always against its own |
| ScanCache.Discovery.CachedScan | backend/internal/compose/discovery.go:52-70 | a result shows a scan begun after the last invalidation and less than 30 seconds old at the check, and shares no memory with the cache |
| ScanCache.Discovery.Invalidate | backend/internal/compose/discovery.go:72-76 | afterwards only scans begun later can be shown |
| ScanCache.CopyProjects | backend/internal/compose/discovery.go:65-69 | structures and image lists are copied into new memory with equal content |
| ScanCache.CallersAreIsolated | backend/internal/compose/discovery.go:52-70 | no number of writes by a caller, into its list or the image lists, shows up in a later result from the same scan |
| StatsPool.Pool.SomeStepIsPossible | backend/internal/app/stats_cache.go:48-76 | while the pool runs some step is possible, cancelled or not: waiting for the workers ends |
| StatsPool.Pool.Run | backend/internal/app/stats_cache.go:48-76 | every schedule ends with all workers gone and every row as its answer says |
| StatsPool.RunPool | backend/internal/app/stats_cache.go:46-76 | the rows handed out are a prefix of the stale ones, all of them unless cancelled; each is read once and no other row is; only successful reads change a row |
| StatsPool.Sampler.Plan | backend/internal/app/stats_cache.go:27-40 | fresh samples are served, all other running rows are listed |
| StatsPool.Sampler.Prune | backend/internal/app/stats_cache.go:41-45 | entries of containers that do not run now are dropped |
| StatsPool.Sampler.Keep | backend/internal/app/stats_cache.go:79-83 | exactly successful reads are remembered |
| StatsPool.Sampler.ReadStale | backend/internal/app/stats_cache.go:46-83 | failed and unsent reads leave the cache as it was, successful ones replace the entry of their container |
| StatsPool.Sampler.SampleContainerStats | backend/internal/app/stats_cache.go:21-83 | whatever the schedule and the failures: a row that does not run stays, one with a sample younger than five seconds shows it unread, each other row is read at most once, and once unless cancelled, and shows what was read or stays; the cache holds successful reads and, for running containers without one, old entries |
| Demux.DemuxLogs | backend/internal/docker/engine.go:249-263 | raw data is returned as it is, a framed stream yields the payloads of its whole leading frames |
| Demux.FrameIsRead | backend/internal/docker/engine.go:249-263 | a frame with its length in bytes 4 to 7, most significant first, contributes its payload, and reading goes on behind it |
| Demux.NoFrameIsRead | backend/internal/docker/engine.go:249-263 | where no whole frame starts reading ends |
| Demux.FramesOfEncode | backend/internal/docker/engine.go:249-263 | demultiplexing recovers the payloads of all encoded frames, and drops an incomplete or foreign tail |

## Left out

- Cancellation of requests inside walks and Docker calls; a cancelled call is one that fails. The statistics pool and the display cache do model it.
- YAML decoding and the derivation of binds, volumes and uncertainty from a Compose file: a decoded record per path, or a failure, is an arbitrary function.
- Docker and registry requests, the mount table, link resolution of the path guard: arbitrary answers. The format check on identifiers in the removal request to Docker is one more way for the call to fail.
- SHA-256, the JSON text behind the fingerprint, and Argon2: functions given as parameters; only `DeleteProject.ConfirmedIsPreviewed` assumes that the digest tells plans apart.
- Creating the backup directory and writing the file are one write that may fail, named by token and file name; the text of messages, errors and audit details is not modelled, only how many there are of which kind.
- The display-only mark of nested files in the scan, and hiding them in the project list.
- DiscoveryReach.ScannedIsNotExcluded: without symbolic links only; a linked Compose file may resolve into a directory that is excluded.
- Relative paths and symbolic links in the walk (a link is a leaf), non-ASCII case folding and the Unicode spaces outside Latin-1 in image references.
- UpdateGate: fairness of the lock (a waiting writer stops new readers) is left out, which allows more interleavings than there are; panics inside a critical section are left out.
- Update tasks carry only the fields the invariants speak of; stage and message texts, and the cleaning of output lines from control sequences and secrets, are left out, so lines arrive already cleaned.
- The invalidation of both read caches when a mutator returns is modelled as a call of `Invalidate`; that each mutator makes that call last is not.
- Reading the expiry of a session back from its text, and instants outside the years 0 to 9999.
- The remaining user and settings tables, the editor and workspace save pipelines, the HTTP layer and the frontend.
- Short functions settled by reading them: `classifyImage`, `enrichProject`, `memoryUsage`, settings parsing, proxy parsing, registry endpoints.
