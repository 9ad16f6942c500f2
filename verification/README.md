# vpn-pack manager: models and proofs

The manager keeps several stores in step that fail independently: kernel routes and links, `ip rule` and
iptables entries, UDAPI ipsets and filter rules, UniFi zones and policies, Tailscale prefs, and its own
manifest and configuration files. This project models the code that does so and proves what it keeps.

Outside stores are plain state (maps of routes and links, sequences of rules and policies, a directory with
unsynced updates). Which outside call fails is decided by parameters, for every one of them, so that a
theorem about a run is about every pattern of failures its hypotheses allow. Clocks, generated IDs, random
names, parsing of addresses (`netip`, `net.ParseCIDR`) and the order in which a Go map is walked are parameters
too. `dafny verify dfyconfig.toml` verifies everything.

| files | what they model |
|---|---|
| `Text.dfy`, `Names.dfy` | decimal printing and searching in strings; interface names |
| `Routes.dfy`, `Ownership.dfy`, `Tunnels.dfy`, `TunnelManager.dfy` | shared kernel routes of site-to-site tunnels: claim and release, the ownership invariant, requests and restarts, the manager's objects |
| `Recovery.dfy`, `Crash.dfy` | when exactly a restart heals leftovers; crashes and failed saves inside a request |
| `Saga.dfy` | compose and roll back |
| `ExitRules.dfy`, `ExitPolicy.dfy`, `ExitNode.dfy`, `ExitService.dfy` | exit-node rules: printing and parsing, desired rules, apply and reconcile, the service |
| `RemoteExit.dfy`, `RemoteService.dfy` | remote exit node: enable, disable, sync, watcher tick |
| `IpsetEdits.dfy`, `IpsetRmw.dfy` | concurrent ipset edits under per-name locks |
| `AtomicFile.dfy`, `FileWriter.dfy` | crash-safe file replacement |
| `ChainOrder.dfy` | order of hooks in a base chain |
| `WanPorts.dfy`, `Zones.dfy`, `Markers.dfy` | ownership by policy name, by zone, by marker |
| `Subnets.dfy` | subnet conflicts |

A pattern recurs: a function says what an operation does to the state, lemmas say what that is worth, and a
class whose methods have the source's loops and assignments is proved to do what the function says.

Some promises do not hold of the code as it is. For these the condition under which they hold is proved in both
directions, next to an input or a family of inputs for which they fail: `Ownership.RecreateExact`,
`Tunnels.UpdateExact`, `Tunnels.UpdateSaveFails`, `Recovery.RestoreHealsExactly`, `Crash.DownSaveFails`, `ExitNode.QuietIffCanonical`, `RemoteExit.EnableFailureRestores`,
`ChainOrder.RepairExact`, `Zones.SetupByNameExact`, `Markers.MarkerRoundTrip`.

## Model

| member | source | states |
|---|---|---|
| Names.NextInterfaceName | manager/internal/wgs2s/config.go:42-53 | The unbounded search ends within one iteration more than there are names in use, and returns the least number whose name is unused. |
| Names.Pigeonhole | manager/internal/wgs2s/config.go:48-52 | If the first n names are all taken, at least n names are in use: why the search must end. |
| Names.IfaceNameInjective | manager/internal/wgs2s/config.go:49 | Different numbers give different interface names. |
| Routes.KeyTextIdentifiesRoute | manager/internal/wgs2s/route_refs.go:29-39 | Two CIDR spellings with metrics share a counter key exactly when the kernel takes them for one route. |
| Routes.UnregisterRestores | manager/internal/wgs2s/manager.go:687-691 | Registering a tunnel under any CIDRs (duplicates included) and unregistering it gives every owner list back unchanged. |
| Routes.ClaimOutcome | manager/internal/wgs2s/manager.go:627-659 | claimRoutes is all or nothing on the owner lists: it registers the tunnel under every CIDR and puts a route in for each first owner, or restores the lists; kernel routes it leaves on failure are at keys it was claiming and through its own interface. |
| Routes.ReleaseOutcome | manager/internal/wgs2s/manager.go:661-685 | releaseRoutes takes the tunnel off every list; a route with owners left goes through one of them, one without is deleted if it went through the leaving interface, no other route changes. |
| Ownership.OwnedMeaning | manager/internal/wgs2s/route_refs.go:9-23 | What the invariant says: with nothing stale, a route is in the kernel exactly when a tunnel that is up claims it or it is foreign, and goes through the live interface of a claimant. |
| Ownership.TearDownKeeps | manager/internal/wgs2s/manager.go:697-707 | Tearing down a tunnel, running or left over, keeps the invariant for all others and removes its link; it reports no error. |
| Ownership.FreshBringUp | manager/internal/wgs2s/manager.go:561-613 | A bring-up that fails part-way leaves owner lists, route table and links exactly as they were; one that succeeds holds exactly its routes. |
| Ownership.BringUpKeeps | manager/internal/wgs2s/manager.go:540-613 | bringUp over a stale interface of the same name: the stale one is cleared, then as for a fresh one. |
| Ownership.FreshClaim | manager/internal/wgs2s/manager.go:627-659 | Claiming for a linked tunnel without routes ends in the invariant with exactly those routes, or in a failed claim. |
| Ownership.FailedClaimIsStale | manager/internal/wgs2s/manager.go:433-437 | After a claim that gives up, the tunnel owns nothing and what it left in the kernel is confined to its own interface and keys. |
| Ownership.HotUpdateKeeps | manager/internal/wgs2s/manager.go:415-441 | hotUpdate with arbitrary new AllowedIPs and metric: on success the tunnel holds exactly the new routes; on a failed claim it is stale with confined leftovers; on a failed peer update nothing changed. |
| Ownership.RecreateKeeps | manager/internal/wgs2s/manager.go:709-732 | Recreating from any state whose routes are among the given ones, leftovers of a failed hot update included, ends in the invariant: up with exactly those routes, or down. |
| Ownership.RecreateExact | manager/internal/wgs2s/manager.go:390-395 | A recreate with a changed configuration keeps the invariant if and only if the change drops no route the tunnel holds, because the tear-down releases the merged configuration. |
| Ownership.RecreateElsewhere | manager/internal/wgs2s/manager.go:709-732 | For a dropped route the owner list stays as it was, whatever fails; once the key was found, the kernel route is gone if it went through the recreated interface, and a failed recreate leaves no link. |
| Ownership.RecreateLosesSharedRoute | manager/internal/wgs2s/manager.go:709-732 | The failing family: a route shared with another running tunnel disappears from the kernel although that tunnel still claims it. |
| Tunnels.CreateKeeps | manager/internal/wgs2s/manager.go:117-180 | CreateTunnel keeps the ownership invariant; if it fails, configuration, owner lists, routes and links are as before. |
| Tunnels.EnableKeeps | manager/internal/wgs2s/manager.go:248-279 | EnableTunnel keeps the invariant, and keeps every enabled tunnel up; on error the configuration is unchanged. |
| Tunnels.DisableKeeps | manager/internal/wgs2s/manager.go:281-305 | DisableTunnel keeps the invariant, and keeps every enabled tunnel up. |
| Tunnels.DeleteKeeps | manager/internal/wgs2s/manager.go:182-232 | DeleteTunnel keeps the invariant, enabled or not, and keeps every enabled tunnel up. |
| Tunnels.UpdatePlaneKeeps | manager/internal/wgs2s/manager.go:389-404 | The kernel side of an update, with its fallback from hot update to recreate: up with exactly the new routes, or down, or as before if its key could not be read; the others undisturbed. |
| Tunnels.UpdateKeeps | manager/internal/wgs2s/manager.go:349-413 | UpdateTunnel keeps the invariant for every update of a running tunnel that drops no held route on a recreate path, or whose own route deletions work on the hot path. |
| Tunnels.UpdateExact | manager/internal/wgs2s/manager.go:349-413 | An update of a running tunnel that recreates the device keeps the invariant if and only if it drops no route the tunnel holds, whether the recreate succeeds or fails. |
| Tunnels.UpdateSaveFails | manager/internal/wgs2s/manager.go:404-412 | An update whose kernel side worked and whose save fails keeps the invariant if and only if the tunnel is disabled or its routes did not change: the configuration goes back, the kernel does not. |
| Tunnels.UpdateIsAtomicOnConfig | manager/internal/wgs2s/manager.go:382-413 | On every error the configuration in memory and on disk is the old one; on success only that tunnel changed, to the merged settings, in both. |
| Tunnels.OrphansRemoved | manager/internal/wgs2s/manager.go:487-506 | removeOrphanInterfaces deletes exactly the links of ours that no tunnel is configured for, and the routes through them. |
| Tunnels.RestoreEachKeeps | manager/internal/wgs2s/manager.go:452-480 | The restore loop from any position: tunnels done hold their routes, those to come are stale, even where an early tunnel met a later one's stale route. |
| Tunnels.RestoreHeals | manager/internal/wgs2s/manager.go:443-506 | From an empty counter and any links of ours and routes through them, for every tunnel order and whichever bring-ups fail, RestoreAll re-establishes the invariant, provided no disabled tunnel has a link and a route on a later tunnel's link that an earlier one claims is among the later one's own; without an error every enabled tunnel is up. |
| Recovery.RestoreHealsExactly | manager/internal/wgs2s/manager.go:443-506 | When RestoreAll reports no error after any leftovers, the invariant holds only if no disabled tunnel's link was left and every claimed route on a later link is claimed from there on, or handed to its owner by an earlier cleanup; with route additions working these conditions also suffice. |
| Recovery.FaultlessRestart | manager/internal/wgs2s/manager.go:443-506 | With every call working and every CIDR parseable RestoreAll reports no error, and heals if and only if those two conditions hold. |
| Recovery.LosesRoute | manager/internal/wgs2s/manager.go:540-559 | The failing family: a route left on the link of a tunnel that neither it nor a later one claims is lost with that link although an earlier tunnel claims it and is up. |
| Recovery.RestartLosesRoute | manager/internal/wgs2s/manager.go:443-481 | The failing input: two enabled tunnels, the second one's leftover link carrying the first one's route; every call works, no error is reported, and the route is gone. |
| Recovery.UnreadableKeysBlockHealing | manager/internal/wgs2s/manager.go:237-246 | Without readable keys a leftover link of an enabled tunnel with routes keeps the invariant from coming back. |
| Tunnels.DisabledLinkStays | manager/internal/wgs2s/manager.go:487-506 | The failing family: a leftover link of a disabled tunnel is neither an orphan nor restored, and stays. |
| Tunnels.CrashLeavesLeftover | manager/internal/wgs2s/manager.go:70-106 | A manager killed between requests leaves only what RestoreAll heals. |
| Crash.CrashBeforeSave | manager/internal/wgs2s/manager.go:117-413 | A manager killed in any request between its kernel side and its save: what is left heals at the next start, except that an enable that brought its tunnel up never does, and an update that gained a route does exactly if the rescue condition holds. |
| Crash.CreateSaveFails | manager/internal/wgs2s/manager.go:169-176 | A create whose save fails leaves the links as they were and the new tunnel in memory; the invariant holds for what is in memory. |
| Crash.EnableSaveFails | manager/internal/wgs2s/manager.go:261-278 | An enable whose save fails leaves the tunnel enabled in memory and down; the invariant holds for what is in memory. |
| Crash.DownSaveFails | manager/internal/wgs2s/manager.go:193-220 | A disable or delete of an enabled tunnel whose save fails keeps the invariant for what is in memory if and only if bringing the tunnel up again fails. |
| Crash.FailedSaveLosesRoute | manager/internal/wgs2s/manager.go:404-412 | The failing input: one running tunnel, its route replaced by an update whose save fails. |
| Tunnels.RestartKeeps | manager/internal/wgs2s/manager.go:443-481 | A restart between requests keeps the invariant. |
| Tunnels.StepKeeps | manager/internal/wgs2s/manager.go:117-481 | Every request and restart keeps the invariant. |
| Tunnels.RunKeepsOwnership | manager/internal/wgs2s/manager.go:117-732 | Over every run of create, enable, disable, delete, update and restart on any tunnels with overlapping or duplicate CIDRs, route additions and deletions, link creations, key loads and peer updates failing anywhere: a route is in the kernel exactly when an enabled tunnel with a live interface claims it or it is foreign, and goes through a claimant's live interface; foreign routes are never touched. |
| Tunnels.RunKeepsAllUp | manager/internal/wgs2s/manager.go:117-732 | Along runs whose updates and restarts succeed the claimants are exactly the enabled tunnels that list the route. |
| Tunnels.RunKeepsNamesDistinct | manager/internal/wgs2s/manager.go:140-170 | Interface names stay pairwise distinct in memory and on disk over every run, whatever fails. |
| TunnelManager.RouteRefCounter.Add | manager/internal/wgs2s/route_refs.go:43-54 | The in-place update of the owner lists, and whether this is the first owner. |
| TunnelManager.RouteRefCounter.OwnsRoute | manager/internal/wgs2s/route_refs.go:57-64 | Whether the tunnel is on the route's list. |
| TunnelManager.RouteRefCounter.Remove | manager/internal/wgs2s/route_refs.go:68-82 | Takes the tunnel off one list, drops an empty list, returns the owners left. |
| TunnelManager.Manager.ClaimRoutes | manager/internal/wgs2s/manager.go:627-659 | The loop with its unregister on failure does to counter and kernel what the specified claim does. |
| TunnelManager.Manager.UnregisterRoutes | manager/internal/wgs2s/manager.go:687-691 | The loop takes the tunnel off the list of every CIDR. |
| TunnelManager.Manager.ReleaseRoutes | manager/internal/wgs2s/manager.go:661-685 | The loop with replace and delete does what the specified release does. |
| TunnelManager.Manager.TearDownTunnel | manager/internal/wgs2s/manager.go:697-707 | Release the routes, then delete the link; nothing when the link is gone. |
| TunnelManager.Manager.CleanupExistingInterface | manager/internal/wgs2s/manager.go:540-559 | A link of that name is released and deleted before a bring-up. |
| TunnelManager.Manager.BringUpTunnel | manager/internal/wgs2s/manager.go:561-613 | Link, configure, claim, and on any failure delete the link again. |
| TunnelManager.Manager.LoadAndBringUp | manager/internal/wgs2s/manager.go:237-246 | No bring-up without the tunnel's key. |
| TunnelManager.Manager.RecreateTunnel | manager/internal/wgs2s/manager.go:709-732 | Key first, then tear down and bring up. |
| TunnelManager.Manager.HotUpdateTunnel | manager/internal/wgs2s/manager.go:415-441 | Peer, release old, claim new, in that order. |
| TunnelManager.Manager.CreateTunnel | manager/internal/wgs2s/manager.go:117-180 | The in-place request does to configuration, disk, counter and kernel what the specified one does, on every error path. |
| TunnelManager.Manager.EnableTunnel | manager/internal/wgs2s/manager.go:248-279 | The same for enabling. |
| TunnelManager.Manager.DisableTunnel | manager/internal/wgs2s/manager.go:281-305 | The same for disabling. |
| TunnelManager.Manager.DeleteTunnel | manager/internal/wgs2s/manager.go:182-232 | The same for deleting. |
| TunnelManager.Manager.UpdateTunnel | manager/internal/wgs2s/manager.go:349-413 | The same for updating. |
| TunnelManager.Manager.RemoveOrphanInterfaces | manager/internal/wgs2s/manager.go:487-506 | The loop over the listed interfaces. |
| TunnelManager.Manager.RestoreAll | manager/internal/wgs2s/manager.go:443-481 | The sweep and the loop over all enabled tunnels, failures collected. |
| Saga.Run | manager/ops/op.go:29-44 | Final state, joined error and the exact sequence of calls: the completed prefix once each, at most one failing Do, then that prefix undone in reverse. |
| Saga.Rollback | manager/ops/op.go:46-58 | Undoes the done list last to first whatever undos fail, and joins the cause with every undo error. |
| Saga.StopsAtFirstFailure | manager/ops/op.go:29-44 | The pass stops at the first failing step or cancelled context, and the cause names it. |
| Saga.SuccessRunsAll | manager/ops/op.go:29-44 | No error means every step ran and succeeded. |
| Saga.FailureRestores | manager/ops/op.go:29-58 | If each Undo inverts its Do as far as an observation can tell and failed steps change nothing it sees, then after any failure or cancellation the final state looks like the initial one. |
| Saga.UndoErrorsExact | manager/ops/op.go:46-58 | The error carries an undo error exactly when some completed step's undo returned it. |
| ExitRules.ParseRules | manager/service/exitnode.go:405-423 | The line loop of the parser. |
| ExitRules.LineRoundTrip | manager/service/exitnode.go:405-467 | A printed rule parses back to its priority, source and interface if it is in the window, and is skipped otherwise. |
| ExitRules.ListingRoundTrip | manager/service/exitnode.go:385-423 | Parsing the listing of a rule table gives exactly the rules in the window, in order. |
| ExitPolicy.ValidateExitNodePolicy | manager/service/exitnode.go:565-586 | Which policies are accepted. |
| ExitPolicy.BuildDesiredRules | manager/service/exitnode.go:469-502 | The loops of the desired-rule generator with their bounded priorities. |
| ExitPolicy.PlanMatchesDesired | manager/service/exitnode.go:100-156 | For any bridge or client list, installed and predicted rules have the same priorities, families, interfaces and (host prefixes aside) sources, all within 5280..5300 and never two of a family at one priority. |
| ExitPolicy.ValidatedIsComplete | manager/service/exitnode.go:565-582 | A validated selective policy loses no client: client i gets priority 5281+i. |
| ExitPolicy.RuleKeyInjective | manager/service/exitnode.go:520-522 | Keys identify rules although sources may contain slashes. |
| ExitPolicy.RulesMatch | manager/service/exitnode.go:504-518 | The two loops compute length equality and one-way key membership. |
| ExitPolicy.MatchesExact | manager/service/exitnode.go:504-518 | For distinct desired rules that comparison holds if and only if the current rules are a permutation of them. |
| ExitNode.CleanupClears | manager/service/exitnode.go:200-219 | With working deletes a cleanup empties the window and removes the masquerade, and touches nothing else. |
| ExitNode.AddRuleEffect | manager/service/exitnode.go:249-263 | An added rule adds exactly itself to what is read back. |
| ExitNode.FinishedApply | manager/service/exitnode.go:100-190 | A finished apply leaves exactly the planned rules in the window and the masquerade in. |
| ExitNode.ApplyReaches | manager/service/exitnode.go:73-88 | Whatever was there before, a successful apply leaves the plan's rules and the masquerade exactly if there are any. |
| ExitNode.ReconcileConverges | manager/service/exitnode.go:221-247 | From any drift one successful Reconcile leaves the parsed rules a permutation of the desired ones and hasMasquerade equal to "desired is non-empty", and the next Reconcile runs no mutating command. |
| ExitNode.QuietIffCanonical | manager/service/exitnode.go:221-247 | After a successful selective apply the next Reconcile is quiet if and only if every client is spelled as the kernel prints it. |
| ExitNode.CapitalsNeverSettle | manager/service/exitnode.go:524-531 | The failing input: an IPv6 client spelled with capitals, which is printed in lower case. |
| ExitNode.FailedApplyLeavesNothing | manager/service/exitnode.go:73-190 | A failed or cancelled apply leaves no rule in the window and no masquerade, and touches nothing else but the recorded policy. |
| ExitService.ExitNodeService.RemoveRule | manager/service/exitnode.go:376-383 | Deletes the first rule at the priority, or fails. |
| ExitService.ExitNodeService.ListRules | manager/service/exitnode.go:385-391 | Prints and parses the table. |
| ExitService.ExitNodeService.CleanupLocked | manager/service/exitnode.go:200-219 | The command sequence does what the specified cleanup does. |
| ExitService.ExitNodeService.BuildApplyOps | manager/service/exitnode.go:100-190 | The loops build the specified steps, and reject catch-all clients, missing bridges and unknown modes. |
| ExitService.ExitNodeService.ApplyLocked | manager/service/exitnode.go:73-88 | Cleanup, then the saga. |
| ExitService.ExitNodeService.ReconcileRules | manager/service/exitnode.go:221-247 | Compare, and apply on drift. |
| RemoteExit.FilterNonExitRoutes | manager/service/remote_exit.go:379-387 | The filter loop. |
| RemoteExit.NonExitExact | manager/service/remote_exit.go:379-387 | Exactly the prefixes of length 0 are dropped, multiplicities kept. |
| RemoteExit.SyncAgrees | manager/service/remote_exit.go:289-336 | With readable prefs the sync makes the manifest name Tailscale's exit node, and changes nothing if it already does. |
| RemoteExit.TickHeals | manager/watcher_firewall.go:302-321 | An error-free tick brings any world into agreement: manifest and prefs name the same node, the local rules are what it requires, the prefs are untouched. |
| RemoteExit.TickIsIdempotent | manager/watcher_firewall.go:302-321 | The tick after it changes nothing and runs no mutating command. |
| RemoteExit.EnableFailureRestores | manager/service/remote_exit.go:163-240 | A failed or cancelled Enable restores the prefs; it restores the manifest's remote node if and only if it was not its first save that failed, or nothing was to change. |
| RemoteExit.FailedFirstSaveSticks | manager/state/manifest.go:382-394 | The failing family: the setter has changed the manifest when its save fails, and a failing step is not undone. |
| RemoteExit.EnableFailureHeals | manager/service/remote_exit.go:163-240 | From a synced state, a failed Enable followed by one error-free tick has remote node, prefs and local rules back to what the previous node requires. |
| RemoteExit.EnableSucceeds | manager/service/remote_exit.go:101-246 | A successful Enable leaves manifest and prefs naming the peer, no exit routes advertised, and the local rules of the request. |
| RemoteExit.DisableClears | manager/service/remote_exit.go:248-287 | Unless the prefs edit fails (then nothing changed), no remote node, no rule in the window and no masquerade are left. |
| RemoteService.RemoteExitService.CheckRequest | manager/service/remote_exit.go:111-161 | The refusals and confirmations, in order. |
| RemoteService.RemoteExitService.BuildSteps | manager/service/remote_exit.go:166-230 | The steps, with the masks captured before any change. |
| RemoteService.RemoteExitService.EnableNode | manager/service/remote_exit.go:101-246 | A busy service refuses; otherwise the specified Enable happens to manifest, prefs and rules. |
| RemoteService.RemoteExitService.DisableNode | manager/service/remote_exit.go:248-287 | The same for Disable. |
| RemoteService.RemoteExitService.SyncManifest | manager/service/remote_exit.go:289-336 | Nothing while a saga is in flight; otherwise the specified sync. |
| RemoteService.RemoteExitService.RestoreExitNodeRules | manager/watcher_firewall.go:302-321 | The tick: sync, then reconcile with the manifest's policy whatever the sync reported. |
| IpsetEdits.AddOne | manager/udapi/ipset.go:46-52 | The scan of EnsureZoneSubnet. |
| IpsetEdits.AddMany | manager/udapi/ipset.go:75-89 | The loops of EnsureZoneSubnets, which test membership against the entries as read. |
| IpsetEdits.Filter | manager/udapi/ipset.go:113-121 | The loop of RemoveZoneSubnet. |
| IpsetEdits.ApplyIsSetOperation | manager/udapi/ipset.go:36-130 | Each call is a union with, or a removal from, its own set; other sets are untouched. |
| IpsetRmw.LocksStep | manager/udapi/rmw.go:17-38 | Every step of every goroutine keeps one mutex per name with one holder, and what a holder has read current. |
| IpsetRmw.EffectStep | manager/udapi/ipset.go:36-130 | A step that logs a call applies it to the sets in that same instant; no other step changes them. |
| IpsetRmw.EveryRunIsLinearizable | manager/udapi/rmw.go:17-38 | Under every interleaving of any number of calls on any names: the sets are the log replayed, a call that returned without error is in the log exactly once, between its invocation and its return, a call that failed before its PUT is not, every entry belongs to a call that returned or is in flight, and real-time order is respected. |
| IpsetRmw.NoUpdateLost | manager/udapi/ipset.go:36-130 | An entry is in a set if and only if it was ensured and not removed since, or was there from the start and never removed. |
| IpsetRmw.SomebodyCanMove | manager/udapi/rmw.go:17-27 | The two levels of locks never deadlock. |
| AtomicFile.EveryStateIsSafe | manager/state/atomic.go:43-78 | In every intermediate state of a write, whatever survives a crash, the target is old or completely new and every other file is untouched. |
| AtomicFile.CrashLeavesOldOrNew | manager/state/atomic.go:43-78 | A crash at any point of WriteFileWith, with any subset of unsynced data and directory updates surviving, leaves exactly the old or exactly the new content. |
| AtomicFile.WriteOutcome | manager/state/atomic.go:43-78 | After a nil return the new content is there and the only one a crash can leave; an error before the rename changes nothing for the target; an error after it leaves the new content visible and old or new durable. |
| AtomicFile.WrittenIsDurable | manager/state/atomic.go:43-78 | Content written with a nil return survives every later run of crashes, sweeps and writes to other files. |
| AtomicFile.RunIsSafe | manager/state/atomic.go:43-121 | Over every run of writes, crashes at any point and sweeps, a file has one of the contents its writes allow, never a torn one. |
| AtomicFile.TmpNamesAreTmp | manager/state/atomic.go:45 | Temporary names end in .tmp and never equal the target. |
| AtomicFile.SweepExact | manager/state/atomic.go:103-121 | With working removals the sweep removes every file ending in .tmp and nothing else. |
| FileWriter.Directory.WriteFileWith | manager/state/atomic.go:43-78 | The sequence of system calls with its cleanups passes through exactly the specified states. |
| FileWriter.Directory.SweepOrphanTmp | manager/state/atomic.go:103-121 | The directory loop. |
| ChainOrder.BareJumps | manager/firewall.go:510-514 | A bare rule line is a jump to its target and to no other: exact-token matching. |
| ChainOrder.AuditTsChainOrder | manager/firewall.go:519-539 | The audit loop finds the first positions of hook and UniFi jump within the chain. |
| ChainOrder.MisplacedIffEarly | manager/firewall.go:502-504 | Misplaced means that some hook precedes the first UniFi jump. |
| ChainOrder.RepairExact | manager/firewall.go:558-587 | On every misplaced chain the rules and the order of all others are kept; without a bare hook it reports an error and changes nothing; it cuts the misplaced hooks by exactly one if and only if the first bare hook stands before the UniFi jump, and adds one if and only if it stands behind. |
| ChainOrder.GuardedHookMisleads | manager/firewall.go:574-583 | The failing family: a hook for one interface before the UniFi jump and a bare one behind it. |
| ChainOrder.RepairCutsOne | manager/firewall.go:558-587 | With only bare hooks each repair cuts the misplaced ones by exactly one. |
| ChainOrder.TicksConverge | manager/firewall.go:558-587 | With only bare hooks, as many ticks as hooks were misplaced end in an ordered chain that is a fixed point, with the same rules. |
| ChainOrder.FailedFix | manager/firewall.go:574-584 | A failing repair changed nothing, or took the hook out and could not put it back. |
| ChainOrder.FilterTable.AuditAndFix | manager/firewall.go:558-587 | Audit, delete, reinsert, in place. |
| WanPorts.PolicyNameInjective | manager/client/integration.go:636-648 | No two ports or markers share a policy name. |
| WanPorts.FindExistingPolicy | manager/client/integration.go:477-484 | The first policy of that name. |
| WanPorts.DistinctIds | manager/firewall.go:179-206 | No two markers hold the same policy ID. |
| WanPorts.OpenIsolated | manager/firewall.go:179-206 | Opening keeps that, deletes nothing and leaves every other marker's entry and policy. |
| WanPorts.CloseIsolated | manager/firewall.go:208-233 | Closing never deletes another marker's policy. |
| WanPorts.SwapIsolated | manager/service/settings.go:414-432 | Swapping a port, whichever half fails, never touches another marker's. |
| WanPorts.ReopenIsolated | manager/watcher_firewall.go:323-356 | Reconciling deletes no policy and keeps the isolation, in every order of markers. |
| WanPorts.RunIsolated | manager/firewall.go:179-233 | Over every run of open, close, swap and reconcile, with policies coming and going in the site, no two markers ever hold the same policy. |
| WanPorts.ReconcileHeals | manager/watcher_firewall.go:323-356 | A reconciliation whose calls work leaves every recorded port open under the same markers and ports. |
| WanPorts.WanPortManager.OpenWanPort | manager/firewall.go:179-206 | Find or create by name, then record. |
| WanPorts.WanPortManager.CloseWanPort | manager/firewall.go:208-233 | Delete by the recorded ID, then forget. |
| WanPorts.WanPortManager.SwapWanPort | manager/service/settings.go:414-432 | Close, then open whatever became of the close. |
| WanPorts.WanPortManager.ReconcileWanPortPolicies | manager/watcher_firewall.go:323-356 | The loop over the snapshot. |
| Zones.SetupByIdKeeps | manager/service/firewall.go:216-234 | Sharing a zone by ID records an existing zone and asks for no deletion. |
| Zones.SetupByNameExact | manager/service/firewall.go:236-276 | A successful setup by name records an existing zone and deletes nothing; one that fails after the zone is there leaves every recorded zone existing if and only if the rollback's deletion failed, or the policies were what failed and no tunnel had the zone. |
| Zones.RollbackTakesSharedZone | manager/service/firewall.go:251-256 | The failing input: a second tunnel whose policies fail takes the first one's zone away. |
| Zones.TeardownExact | manager/service/firewall.go:278-316 | A teardown asks for deletions exactly when the zone's last tunnel goes: its policies, then the zone; every other recorded zone stays. |
| Zones.OnlyLastTeardownDeletes | manager/service/firewall.go:207-316 | Over every run of setups and teardowns, whatever fails: wherever in the history a zone's deletion is asked for, some step of the run asked for it, either a teardown of the zone's last tunnel right after the deletions of its policies, or the rollback of a failed setup by name. |
| Zones.SuccessfulSetupsDeleteNothing | manager/service/firewall.go:207-316 | If every setup by name in the run succeeds, every zone deletion in the history is that of a teardown of the zone's last tunnel. |
| Zones.RunKeepsZones | manager/service/firewall.go:207-316 | Over every such run each tunnel's recorded zone exists. |
| Zones.TeardownUndoesSetup | manager/service/firewall.go:207-316 | Tearing down a tunnel set up in a new zone gives zones, policies and tunnels back. |
| Zones.FirewallOrchestrator.DeleteZoneAndPolicies | manager/service/firewall.go:193-205 | The rollback loop, whatever fails. |
| Zones.FirewallOrchestrator.SetupWgS2sZoneById | manager/service/firewall.go:216-234 | Setup by ID in place. |
| Zones.FirewallOrchestrator.SetupWgS2sZoneByName | manager/service/firewall.go:236-276 | Setup by name in place, with both rollbacks. |
| Zones.FirewallOrchestrator.TeardownWgS2sZone | manager/service/firewall.go:278-316 | Teardown in place: out of the manifest first, then the scan. |
| Markers.MarkerRoundTrip | manager/udapi/firewall.go:65-132 | A marker is read back from every description built with it if and only if it has no parentheses. |
| Markers.ParenthesisCutsMarker | manager/udapi/firewall.go:122-132 | The failing input. |
| Markers.RemoveRulesExact | manager/udapi/firewall.go:77-112 | Removal deletes exactly that marker's rules in the given chains, keeps the others in order, and touches no other chain. |
| Markers.AddRuleCounts | manager/udapi/firewall.go:30-53 | An add puts in at most one rule, only if there is none with the marker, and success means there is one. |
| Markers.RunKeepsAtMostOne | manager/udapi/firewall.go:30-112 | However often rules are added and removed and whichever calls fail, a chain never gets a second rule of a marker. |
| Markers.RemoveUndoesAdd | manager/udapi/firewall.go:55-86 | Adding an interface's rules and removing them by marker leaves every chain as it was. |
| Markers.FilterApi.HasMarkerRule | manager/udapi/firewall.go:134-155 | Whether some rule of the chain carries exactly the marker. |
| Markers.FilterApi.Add | manager/udapi/firewall.go:30-53 | Add unless present. |
| Markers.FilterApi.AddInterfaceRulesForZone | manager/udapi/firewall.go:55-63 | The loop over the three rules, errors collected. |
| Markers.FilterApi.RemoveMarkerRules | manager/udapi/firewall.go:88-112 | The loop over the listed rules, stopping at the first failed delete. |
| Markers.FilterApi.RemoveInterfaceRules | manager/udapi/firewall.go:77-86 | The loop over the three chains, errors collected. |
| Subnets.OverlapExact | manager/service/subnet_validator.go:262-264 | Two blocks overlap exactly when some address lies in both (prefix notation of section 3.1 of RFC 4632). |
| Subnets.ValidateAllowedIPs | manager/service/subnet_validator.go:162-260 | The nested loops give each CIDR its one verdict: first interface blocks, then table 52, traffic routes, other routes warn. |
| Subnets.BlockedIffConflicting | manager/service/subnet_validator.go:165-191 | A CIDR is blocked exactly if it parses and shares an address with an interface's subnet. |
| Subnets.FilterBlockedAllowedIPs | manager/firewall.go:126-145 | The filter; without the device's subnets nothing is dropped. |
| Subnets.FilterExact | manager/firewall.go:126-145 | Exactly the allowed IPs that share an address with an interface's subnet are dropped, every other one is kept as often as it was there. |

## Left out

- Tunnels.RunKeepsOwnership: saves, link deletes and route replacements succeed along the run. A failed save leaves memory and disk apart (`Tunnels.UpdateSaveFails`, `Crash.CreateSaveFails`, `Crash.EnableSaveFails` and `Crash.DownSaveFails` say what then holds); a link that cannot be deleted and a route that cannot be moved stay in the kernel, and nothing retries them. Updates that recreate the device must drop no held route (`Tunnels.UpdateExact` shows why), and restarts need readable keys.
- Tunnels.UpdateKeeps: an update that drops a held route on a recreate path is not covered, because the invariant then breaks (`Tunnels.UpdateExact`); for an update whose save fails see `Tunnels.UpdateSaveFails`.
- Tunnels.UpdatePlaneKeeps: the same restriction, on the kernel side alone.
- Tunnels.RestoreHeals: needs readable private keys, because the leftovers of a tunnel whose key cannot be read are not cleared (`Recovery.UnreadableKeysBlockHealing`); its condition on routes is sufficient whatever fails, and `Recovery.RestoreHealsExactly` has the exact one for a restart without errors.
- Recovery.RestoreHealsExactly: if a route addition fails without being reported, which happens for a route that has an owner already, the conditions need not suffice.
- Crash.CrashBeforeSave: the crash is after the last kernel call of the request, not between two of them.
- Routes.KeyTextIdentifiesRoute: assumes that the canonical spelling of networks is injective, since address printing is library code.
- ExitNode.ReconcileConverges: assumes, as the code does, that the priority window holds only rules of ours and that each masquerade rule is there at most once; `ip6tables` failures are "IPv6 absent" or not, without the text matching that tells them apart.
- RemoteExit.EnableFailureHeals: the manifest is its in-memory value, and the advertise flag is not among what is restored, because the code does not keep it in step.
- RemoteExit: the tick and the requests are one after the other; the flag that suppresses the sync is only looked at on entry. A service without a local exit-node service is not modelled.
- IpsetRmw: goroutines are a state machine over their lock, GET, PUT and unlock steps, not methods; other processes that edit the same sets are outside, as the code says.
- AtomicFile: one directory; file modes are not modelled, and a failed fsync leaves the data unsynced.
- ChainOrder: the saved table is taken as its lines; the cache in front of it is taken as current.
- WanPorts: policy IDs are numbers that the site never reuses; renaming a policy by hand is not modelled.
- Zones: the Tailscale zone's own setup (service/firewall.go, SetupTailscaleFirewall) is not modelled.
- Subnets: IPv4-mapped IPv6 prefixes, which the standard library treats as IPv4, are not modelled; nor is the collection of the device's subnets.
- Tunnels: key files, WireGuard device settings and handshake status.
- HTTP handlers, streaming, the web interface, nginx and service units.
- TLS pinning, key generation, log redaction.
- Netlink, wgctrl, iptables, UDAPI socket and Tailscale transport.
- Caches with expiry (filter rules, ipsets, zones) and request coalescing.
- Health counters and retry budgets of the watchers.
- Device detection, version comparison, DPI, diagnostics, DERP tables, settings validation, log buffer: small functions without shared state.
