# Verified models of the snapshot controller and its cloud providers

A Dafny 4.11 model of the parts of this repository that keep state, act on an outside world in
several steps, and can fail at any step. `dafny verify dfyconfig.toml` checks the whole project.

- **The snapshot controller.** `Controller` is a transition system over the API server's objects,
  the volume backend, the informer, the desired and actual state of world, and the create and delete
  operations in flight. Every remote call is a step of its own and may succeed, fail, or fail after
  taking effect, and the reconciler and the populator act on tests that may no longer hold.
  `ControllerInvariant` proves the inductive invariant and what it gives in every reachable state,
  `BackendSnapshots` what becomes of the snapshots in the volume backend, `InformerSync` that the
  informer and the desired state of world catch up with the API server, `Draining` that everything in flight ends, `Convergence` exactly when the controller converges
  once users have stopped, serving one name after another, and `Passes` the same for whole reconcile
  passes whose operations run side by side. `ControllerRaces` exhibits the runs that show the side
  conditions are needed, and `StateOfWorld` has the cache, the reconciler's pass and the populator's
  pass in their own imperative form. `SnapshotNames` is the name encoding all of it rests on.
- **Google Compute Engine.** `GceCloud` and `GceLoadBalancer` model EnsureLoadBalancer and
  EnsureLoadBalancerDeleted over an arbitrary failure schedule. A ghost history holds every state the
  cloud passes through, so the contracts speak about all intermediate states. `GceWitnesses` has the
  starting states from which a run does not leave what was asked for.
- **AWS.** `DeviceAllocator`, `AttachMap`, `AttachRuns` and `AttachCalls` (device names, attaches in
  flight and whole attach calls, over every interleaving), `IpPermissions` and `SecurityGroupIngress` (ungrouping permissions, making a
  group's ingress the requested one), `ElbSync` (listeners and proxy-protocol policies),
  `InstanceGroups`, `ElbSubnets`, and `Backoff` (over the reals).
- **OpenStack LBaaS v2.** `LbaasSlices` (the in-place removals), `LbaasCloud`, `LbaasMembers`,
  `LbaasPorts` and `LbaasV2` (listeners, pools, members and monitors).

`Faults` holds the three ways a call can end, `Wrappers` an option type.

## Assumptions

- Users create VolumeSnapshots with an empty SnapshotDataName and otherwise only delete them;
  namespaces and names contain no '/'. Data names and backend snapshot ids are never reused.
- The API server refuses a PUT that carries an outdated resource version.
- At most one operation runs per operation name, as goroutinemap guarantees. The reconciler and the
  populator may act on copies of any age and on tests that have become outdated, so the safety results
  cover every interleaving with them. Convergence assumes that no step of the populator is harmful:
  it does not remove the name of an object that is stored again, nor put another object in its place.
- The GETs of pkg/controller/snapshotter/snapshotter.go:462-466 and 511-515, whose error is
  overwritten, are modelled as failing the operation.
- The JSON key of an IP permission is injective, so a permission set is a set.
- OpenStack keeps one listener per port of a load balancer, one pool per listener, and one member per
  address and port of a pool, and refuses calls that would break this. EC2 refuses to authorize a
  rule that is present or to revoke one that is absent. ELB keeps one listener per port.
- A failed call to a cloud takes effect before it returns or never.

## Where a promise does not hold as it stands

Each of these has an exact condition in the model.

- Convergence: a create operation fired twice can bind a snapshot to a second data object that never
  becomes Ready (`ControllerRaces.StrandedSnapshot`). Once nothing is in flight the controller
  converges exactly when the state is healthy (`Convergence.ConvergesIffHealthy`).
- An actual entry's data can be present and not Ready: a POST that is reported failed after taking
  effect is retried, and brings back data deleted in the meantime
  (`ControllerRaces.ResurrectedData`). It happens exactly with two kinds of step
  (`ControllerInvariant.ReadyExactlyWhen`), and not at all in runs without such a POST
  (`ControllerInvariant.ActualReady`).
- A drained controller can miss a snapshot, or desire it with another claim, when the populator acts
  on an outdated test (`ControllerRaces.HarmfulRemoval`, `HarmfulAddition`). Stored objects are desired
  as they are in all states of a run if and only if no step of it is harmful
  (`InformerSync.SyncExactlyWhen`).
- A snapshot can be left in the backend with nothing to name it: exactly when SnapshotCreate is reported
  failed after taking it, or all five POSTs of its data fail without the data being there
  (`BackendSnapshots.LeftBehindExactly`, with a run for each in `ControllerRaces.LostOnTaking` and
  `LostOnPosting`). No delete operation leaves one.
- The reconciler dereferences nil exactly when a name leaves the actual state of world between its two
  lookups of that name (`StateOfWorld.Reconcile`), which can happen (`StateOfWorld.CrashReachable`).
- An attach stays in flight after its AttachDisk exactly when AttachVolume was accepted, waiting for the
  attachment status failed, and no other call ended it (`AttachCalls.OutlivesExactly`).
- GCE: another address reserved under the load balancer's name moves the service to it
  (`GceLoadBalancer.AddressKeptExactly`); a health check without a pool makes the next run rebuild
  everything (`StandsAfterEnsure`); the firewall's protocol is not compared
  (`FirewallProtocolExactly`); a drifted health-check port comes back when the pool is rebuilt
  (`HealthPortExactly`).
- `popMember` indexes out of range when duplicates lie near the end of the slice
  (`LbaasSlices.PopMember`, `DuplicateOverruns`).
- `Ungroup` leaves a permission with several user/group pairs whole
  (`IpPermissions.SingleExactlyWhen`), and setSecurityGroupIngress can then remove a requested rule
  and report success (`SecurityGroupIngress.LosesWantedRule`). With several such permissions it
  depends on the iteration order of a map whether the rule is lost or the request refused
  (`SecurityGroupIngress.OrderMatters`). A success leaves exactly the requested rules if and only if
  no kept permission shares a rule with a removed one.
- The instance security group change map removes a wanted group that is listed twice
  (`InstanceGroups.ApplyExactlyWhen`, `ClosesWantedGroup`).
- The back-off exceeds its maximum when errors are reported late (`Backoff.LateErrorsExceed`): exactly
  when the errors, weighted by the decay since, are no fewer than the weighted requests
  (`Backoff.HistoryBelowExactly`).

The code and its comments disagree in three places, and the model follows the code:
getSnapshotCreateFunc takes the backend snapshot before it creates the VolumeSnapshotData (its
comment says the reverse); createTargetPool dereferences a nil health check when ensuring it failed,
which is modelled as a failed call, as is the panic on an empty port list in the firewall object;
findELBSubnets does not prefer private subnets for an internal load balancer.

## Model

| member | source | states |
|---|---|---|
| SnapshotNames.MakeThenParse | pkg/controller/cache/util.go:29-39 | a made name parses back to its namespace and name exactly when neither contains a slash |
| SnapshotNames.ParseThenMake | pkg/controller/cache/util.go:29-39 | whatever parses is made from the parts it parses to |
| SnapshotNames.PrefixedNameIsNoName | pkg/controller/snapshotter/snapshotter.go:117-151 | a snapshot name with an empty namespace in front is no snapshot name, so the two tests of the lookup never confuse two snapshots |
| ControllerInvariant.StepKeepsInv | pkg/controller/snapshotter/snapshotter.go:153-383 | every step of users, informer, populator, reconciler and every call of every operation, with any outcome and on outdated tests, keeps the invariant |
| ControllerInvariant.LookupIsExact | pkg/controller/snapshotter/snapshotter.go:117-151 | the by-name lookup only returns data posted for the snapshot of that name |
| ControllerInvariant.TwoWayBinding | pkg/controller/snapshotter/snapshotter.go:452-505 | in every reachable state a snapshot that names existing data is the one that data's reference parses to |
| ControllerInvariant.ActualEntries | pkg/controller/snapshotter/snapshotter.go:153-204 | actual entries are keyed by their own name and bound, and their data if present is Ready and reported complete unless a POST for it took effect twice |
| ControllerInvariant.BreaksExactly | pkg/controller/snapshotter/snapshotter.go:288-338 | a step leaves an actual entry whose data is present and not Ready if and only if it is a POST for data the entry names, or adds an entry whose data is pending |
| ControllerInvariant.ReadyExactlyWhen | pkg/controller/snapshotter/snapshotter.go:153-338 | over every run, the data of an actual entry is Ready whenever present, in all states, if and only if no such step is taken |
| ControllerInvariant.BackendOrder | pkg/controller/snapshotter/snapshotter.go:208-246 | data exists only for a backend snapshot already taken, no two data share one, and it can lack it only after a delete of this data passed SnapshotDelete |
| ControllerInvariant.ReadyIsStable | pkg/controller/snapshotter/snapshotter.go:507-539 | no step takes Ready back, and Ready data has a source the plugin reported complete |
| ControllerInvariant.RefMatchesExactly | pkg/controller/snapshotter/snapshotter.go:136-144 | the lookup's test holds for exactly the two ways of referring to a snapshot, for every reference |
| ControllerInvariant.OpNamesExactly | pkg/controller/snapshotter/snapshotter.go:395-432 | operations of one snapshot name collide exactly when they are of one kind and for one claim |
| BackendSnapshots.FailedCall | pkg/controller/snapshotter/snapshotter.go:153-383 | for every call of every operation: failing ends the operation, except for the first four POSTs, and failing before taking effect changes nothing else |
| BackendSnapshots.GoneWithSource | pkg/controller/snapshotter/snapshotter.go:342-383 | in every reachable state the backend snapshot of data that is gone is gone too |
| BackendSnapshots.LeavesActualLast | pkg/controller/snapshotter/snapshotter.go:342-383 | a name leaves the actual state of world only after data posted for it was removed, and before that its backend snapshot |
| BackendSnapshots.OrphansExactly | pkg/controller/snapshotter/snapshotter.go:208-383 | nothing names a backend snapshot after a step if and only if nothing named it before or the step lost it, in one of two ways |
| BackendSnapshots.LeftBehindExactly | pkg/controller/snapshotter/snapshotter.go:208-383 | over every run a snapshot is left in the backend with nothing to name it if and only if such a step was taken |
| InformerSync.StepKeepsStream | pkg/controller/snapshot-controller/snapshot-controller.go:184-243 | every step, whatever the populator does, keeps the store with the pending events played over it equal to the API server's objects |
| InformerSync.DrainedStore | pkg/controller/snapshot-controller/snapshot-controller.go:184-243 | in every reachable state without pending events the store is what the API server has |
| InformerSync.HarmExactly | pkg/controller/populator/desired_state_of_world_populator.go:87-111 | from a state in which every stored object is desired as it is, a step keeps that if and only if it is harmless |
| InformerSync.SyncExactlyWhen | pkg/controller/populator/desired_state_of_world_populator.go:87-111 | over every run, stored objects are desired as they are in all states if and only if no step is harmful |
| InformerSync.DrainedIsSynced | pkg/controller/snapshot-controller/snapshot-controller.go:184-243 | in every state reached without a harmful step, once no event is pending every snapshot is stored and desired as it is |
| Draining.DrainBounded | pkg/controller/snapshotter/snapshotter.go:153-383 | no run of deliveries and calls, with any outcomes, is longer than what is in flight at its start |
| Draining.DrainsToCalm | pkg/controller/snapshotter/snapshotter.go:153-383 | such a run can only stop with nothing in flight, and then convergence applies |
| Convergence.BindService | pkg/controller/snapshotter/snapshotter.go:262-338 | the exact state after serving an unbound snapshot: it succeeds for a data object exactly when the lookup finds it |
| Convergence.StatusService | pkg/controller/snapshotter/snapshotter.go:153-204 | the exact state after serving a bound snapshot that is not actual |
| Convergence.DeleteService | pkg/controller/snapshotter/snapshotter.go:342-383 | the exact state after serving a name that is no longer desired |
| Convergence.RemoveService | pkg/controller/populator/desired_state_of_world_populator.go:87-99 | the exact state after the populator removes a desired name that is not on the API server, with a test that holds |
| Convergence.ServiceStep | pkg/controller/reconciler/reconciler.go:107-142 | every service keeps quiescence, strictly lowers the measure, and keeps health in both directions |
| Convergence.ServiceRunBounded | pkg/controller/reconciler/reconciler.go:107-142 | no run of services is longer than the measure it starts from |
| Convergence.ConvergesIffHealthy | pkg/controller/reconciler/reconciler.go:107-142 | from every state with nothing in flight, reached without a harmful step of the populator, the goal (actual = desired = API names, all bound to Ready data) can be reached if and only if the state is healthy, and then every run is bounded and every settled one ends in the goal |
| Passes.ReadyWhen | pkg/controller/reconciler/reconciler.go:107-142 | the pass theorems apply to every healthy state with nothing in flight, reached without a harmful step, whose desired names are all on the API server |
| Passes.PassStep | pkg/controller/reconciler/reconciler.go:107-142 | during a pass in which all calls succeed every interleaved step keeps every name where its operation should have brought it |
| Passes.PassOutcome | pkg/controller/reconciler/reconciler.go:107-142 | in every interleaving a complete pass deletes what is obsolete, makes the bound snapshots actual, binds the unbound ones and leaves a healthy state |
| Passes.PassLowersMeasure | pkg/controller/reconciler/reconciler.go:107-142 | every complete pass lowers the measure to the number of snapshots that were unbound |
| Passes.TwoPassesReachGoal | pkg/controller/reconciler/reconciler.go:107-142 | two complete passes reach the goal from every healthy state whose desired names are all on the API server, in every interleaving |
| Passes.PassContinues | pkg/controller/snapshotter/snapshotter.go:153-383 | a pass never gets stuck: while something is in flight some call can succeed or some event be delivered |
| Passes.PassExists | pkg/controller/reconciler/reconciler.go:107-142 | a complete pass exists when the operations have different names |
| ControllerRaces.StrandedSnapshot | pkg/controller/snapshotter/snapshotter.go:262-338 | a reachable state with nothing in flight that is not healthy: one snapshot, its create operation fired twice |
| ControllerRaces.ResurrectedData | pkg/controller/snapshotter/snapshotter.go:297-327 | a reachable state in which an actual entry's data is present, not Ready, and posted twice |
| ControllerRaces.HarmfulRemoval | pkg/controller/populator/desired_state_of_world_populator.go:87-99 | an outdated test of the populator leaves a snapshot undesired with nothing in flight |
| ControllerRaces.HarmfulAddition | pkg/controller/populator/desired_state_of_world_populator.go:101-111 | an outdated test of the populator leaves a snapshot desired with a claim it does not have |
| ControllerRaces.LostOnTaking | pkg/controller/snapshotter/snapshotter.go:208-228 | a run after which nothing is in flight and nothing names a snapshot in the backend: SnapshotCreate reported failed |
| ControllerRaces.LostOnPosting | pkg/controller/snapshotter/snapshotter.go:306-327 | the same after five failed POSTs |
| ControllerRaces.VanishingEntry | pkg/controller/reconciler/reconciler.go:121-131 | a reachable state from which one step takes a desired name out of the actual state of world |
| StateOfWorld.SnapshotCache.GetSnapshots | pkg/controller/cache/actual_state_of_world.go:86-97 | the copying loop returns the whole map |
| StateOfWorld.Reconcile | pkg/controller/reconciler/reconciler.go:107-142 | however the caches change and in whatever order names are visited: a pass fires for exactly the copied names the other cache lacked at their own lookup, with the copied objects; it crashes if and only if some name is there at its first lookup and gone at its second, and then at the first such name; with caches at rest it fires exactly the two differences |
| StateOfWorld.CrashReachable | pkg/controller/reconciler/reconciler.go:121-131 | a run of the controller in which a pass meets that condition |
| StateOfWorld.DeletesAreSteps | pkg/controller/reconciler/reconciler.go:111-119 | whatever happens after the copy, a fired delete is a step of the transition system unless its operation is running |
| StateOfWorld.CreatesAreSteps | pkg/controller/reconciler/reconciler.go:121-128 | the same for a fired create |
| StateOfWorld.NothingToRepair | pkg/controller/reconciler/reconciler.go:129-140 | over any reachable states the repair branch is never taken |
| StateOfWorld.PassIdleExactlyWhen | pkg/controller/reconciler/reconciler.go:107-142 | a pass over caches at rest fires nothing if and only if they have the same names |
| StateOfWorld.Populate | pkg/controller/populator/desired_state_of_world_populator.go:87-111 | afterwards the desired names are the informer's, entries that stay are the same objects, new ones are the informer's |
| GceLoadBalancer.Gce.EnsureLoadBalancer | pkg/cloudprovider/providers/gce/gce.go:576-859 | success leaves rule, pool, firewall and health check as specified for the service; without failures it succeeds exactly when it can and releases exactly the reservation it may; every state passed through satisfies the watch |
| GceLoadBalancer.EnsuredMeans | pkg/cloudprovider/providers/gce/gce.go:742-946 | what success comes to in the service's own terms, for valid ports: the rule forwards exactly from its lowest to its highest port in its protocol; exactly which rule and pool are kept and what new ones are; the firewall's address, ranges and port numbers; the health check |
| GceLoadBalancer.CanEnsureMeans | pkg/cloudprovider/providers/gce/gce.go:655-707 | what a run can succeed for: when a requested address is refused, which protocols, and that repeated hosts beyond the first 200 are refused for a new pool |
| GceLoadBalancer.PortNumbersExactly | pkg/cloudprovider/providers/gce/gce.go:1012-1048 | the firewall's ports are the service's, each as often as it occurs |
| GceLoadBalancer.Gce.EnsureLoadBalancerDeleted | pkg/cloudprovider/providers/gce/gce.go:1425-1462 | for every interleaving of the three tasks success leaves no rule, pool, firewall or reserved address, nor a health check if the service has one; without failures it succeeds and leaves no health check at all; no state has a rule without its pool if the first has not |
| GceLoadBalancer.Gce.ChooseAddress | pkg/cloudprovider/providers/gce/gce.go:655-707 | which address a run settles on, whether it is the user's, whether it may be released, and exactly when an address can be had |
| GceLoadBalancer.Gce.Replace | pkg/cloudprovider/providers/gce/gce.go:786-853 | the critical section: rule and pool are rebuilt exactly when needed, and the address is marked releasable only with the rule on it |
| GceLoadBalancer.Gce.UpdateTargetPool | pkg/cloudprovider/providers/gce/gce.go:1373-1422 | success leaves exactly the given hosts, which are then distinct |
| GceLoadBalancer.Gce.LoadBalancerPortRange | pkg/cloudprovider/providers/gce/gce.go:949-970 | the loop computes the specified range, and refuses no ports and other protocols |
| GceLoadBalancer.PortRangeIsTight | pkg/cloudprovider/providers/gce/gce.go:949-970 | the range covers every port and both ends are ports |
| GceLoadBalancer.EnsureKeepsAddress | pkg/cloudprovider/providers/gce/gce.go:624-853 | if neither the reservation nor the request names another address, then under every failure schedule each state has the rule on the address or the address reserved, and on success the rule is on it |
| GceLoadBalancer.AddressKeptExactly | pkg/cloudprovider/providers/gce/gce.go:655-707 | exactly when a successful run leaves the rule on the address it had, and reports the rule's address |
| GceLoadBalancer.FirewallProtocolExactly | pkg/cloudprovider/providers/gce/gce.go:1012-1048 | exactly when the firewall ends up with the service's protocol |
| GceLoadBalancer.HealthPortExactly | pkg/cloudprovider/providers/gce/gce.go:865-906 | exactly when the health check ends up on the service's port |
| GceLoadBalancer.StandsAfterEnsure | pkg/cloudprovider/providers/gce/gce.go:742-778 | after success nothing has to be torn down for the same service if and only if there was no stray health check and no shadowed request |
| GceLoadBalancer.EnsureTwice | pkg/cloudprovider/providers/gce/gce.go:600-859 | unless the first run met a stray health check or a shadowed request, a second one starts from what the first left for the service and deletes and recreates nothing in any of its states, whatever fails |
| GceLoadBalancer.Drive | pkg/cloudprovider/providers/gce/gce.go:723-853 | over any sequence of runs and failures no state has a rule without its pool, nor without its firewall while nothing is deleted |
| GceWitnesses.StrayHealthCheck | pkg/cloudprovider/providers/gce/gce.go:742-778 | from a health check without a pool: a successful run leaves a rule and pool the next one tears down |
| GceWitnesses.ShadowedAddress | pkg/cloudprovider/providers/gce/gce.go:655-707 | another address under the load balancer's name: the rule moves to it |
| GceWitnesses.WrongProtocol | pkg/cloudprovider/providers/gce/gce.go:1012-1048 | a firewall that differs only in its protocol keeps it |
| GceWitnesses.DriftedHealthPort | pkg/cloudprovider/providers/gce/gce.go:865-906 | a drifted health check keeps its port when the pool is built |
| DeviceAllocator.Allocator.constructor | pkg/cloudprovider/providers/aws/device_allocator.go:53-65 | the ring is ba..bz, ca..cz |
| DeviceAllocator.NamesExactly | pkg/cloudprovider/providers/aws/device_allocator.go:53-65 | exactly which strings are names, and where the two runs of letters start and end |
| DeviceAllocator.Allocator.GetNext | pkg/cloudprovider/providers/aws/device_allocator.go:67-87 | the loop ends within one lap with the first free name after the last one handed out, or an error and no change |
| DeviceAllocator.FailsIffAllTaken | pkg/cloudprovider/providers/aws/device_allocator.go:67-80 | a call fails if and only if every name is taken |
| AttachMap.Cloud.GetMountDevice | pkg/cloudprovider/providers/aws/aws.go:1271-1344 | the result and the whole new shared state: an existing device, none, a granted one, or too many |
| AttachMap.GrantedIsUnused | pkg/cloudprovider/providers/aws/aws.go:1281-1344 | a granted device is a ring name, not in flight, and no reported block is on it under /dev/xvd or /dev/sd |
| AttachMap.ExistingExactly | pkg/cloudprovider/providers/aws/aws.go:1281-1319 | a volume is answered with an existing device if and only if an attach of it is in flight, or the last reported block on a device that no attach has holds it; the answer is such a device |
| AttachMap.SuffixOfPath | pkg/cloudprovider/providers/aws/aws.go:1284-1289 | both paths of a device come to its name |
| AttachMap.Cloud.EndAttaching | pkg/cloudprovider/providers/aws/aws.go:1348-1367 | the entry goes exactly when it is for this volume and device, and nothing else changes |
| AttachMap.Cloud.AttachDisk | pkg/cloudprovider/providers/aws/aws.go:1532-1616 | a call without interference: its result, and the whole new shared state; the entry it was granted stays if and only if AttachVolume was accepted and the wait failed |
| AttachMap.Cloud.DetachDisk | pkg/cloudprovider/providers/aws/aws.go:1619-1679 | a call without interference: its result and the new shared state; the entry goes if and only if DetachVolume was accepted and the wait succeeded |
| AttachRuns.InFlightExactly | pkg/cloudprovider/providers/aws/aws.go:1271-1367 | over every interleaving an attach is in flight if and only if it was granted and not ended since for the same volume and device |
| AttachRuns.OneDevicePerVolume | pkg/cloudprovider/providers/aws/aws.go:1271-1344 | in every state a node's in-flight map is one-to-one |
| AttachRuns.ExclusiveWhileInFlight | pkg/cloudprovider/providers/aws/aws.go:1299-1344 | while an attach is in flight its device is not granted again and calls for its volume are answered with its device, or with another on which EC2 reports the volume |
| AttachCalls.OutlivesExactly | pkg/cloudprovider/providers/aws/aws.go:1532-1679 | over every interleaving of whole calls a granted attach is in flight after its AttachDisk if and only if AttachVolume was accepted, the wait failed, and no other call for the volume and device has ended it |
| AttachCalls.AloneOutlivesExactly | pkg/cloudprovider/providers/aws/aws.go:1532-1616 | a call alone with its volume leaves its entry, for good, if and only if AttachVolume was accepted and the wait failed |
| AttachRuns.LateReuse | pkg/cloudprovider/providers/aws/device_allocator.go:67-87 | over every interleaving, between two grants of a name on a node every other name free at each grant in between was granted |
| IpPermissions.UngroupKeepsRules | pkg/cloudprovider/providers/aws/sets_ippermissions.go:37-81 | ungrouping changes no rule, for every list of permissions |
| IpPermissions.SingleExactlyWhen | pkg/cloudprovider/providers/aws/sets_ippermissions.go:37-81 | every result has at most one range, pair and prefix if and only if no permission had several pairs |
| IpPermissions.UngroupExactly | pkg/cloudprovider/providers/aws/sets_ippermissions.go:37-81 | without several pairs the results are exactly the pieces of each permission |
| IpPermissions.Ungroup | pkg/cloudprovider/providers/aws/sets_ippermissions.go:37-89 | the three loops, for any iteration order, have the properties above |
| IpPermissions.Difference | pkg/cloudprovider/providers/aws/sets_ippermissions.go:124-133 | set difference |
| IpPermissions.Equal | pkg/cloudprovider/providers/aws/sets_ippermissions.go:101-116 | equal length and one inclusion decide equality |
| SecurityGroupIngress.Group.SetSecurityGroupIngress | pkg/cloudprovider/providers/aws/aws.go:2117-2182 | no state exceeds the old and requested rules; a success leaves exactly the requested rules if and only if no kept permission shares a rule with a removed one; without failures it is an error exactly when a rule to add is there; for sources of one kind neither goes wrong and a change is reported exactly when the rules differed |
| SecurityGroupIngress.AppliedExactlyWhen | pkg/cloudprovider/providers/aws/aws.go:2139-2179 | the set-level form of that equivalence, for all permission sets of which nothing to add is there |
| SecurityGroupIngress.PlainOutcome | pkg/cloudprovider/providers/aws/aws.go:2139-2179 | permissions with sources of one kind are never refused, lose nothing, and differ exactly when their rules do |
| SecurityGroupIngress.LosesWantedRule | pkg/cloudprovider/providers/aws/sets_ippermissions.go:52-64 | a described permission with two pairs and a request for the second end with no rule at all |
| SecurityGroupIngress.OrderMatters | pkg/cloudprovider/providers/aws/sets_ippermissions.go:52-64 | with two such permissions one iteration order loses the requested rule and the other has the request refused |
| ElbSync.LoadBalancer.EnsureLoadBalancer | pkg/cloudprovider/providers/aws/aws_loadbalancer.go:145-282 | success leaves exactly the expected listeners and the requested policies, no failures mean success, and whatever fails no expected listener goes |
| ElbSync.LoadBalancer.SyncListeners | pkg/cloudprovider/providers/aws/aws_loadbalancer.go:145-212 | the listener part, which makes no call when the listeners are as expected |
| ElbSync.LoadBalancer.Compare | pkg/cloudprovider/providers/aws/aws_loadbalancer.go:149-189 | removals are exactly the ports of unexpected listeners, additions exactly the missing ones |
| ElbSync.ChangesSuffice | pkg/cloudprovider/providers/aws/aws_loadbalancer.go:191-212 | deletions then additions give the expected listeners and no addition collides |
| ElbSync.LoadBalancer.SyncProxy | pkg/cloudprovider/providers/aws/aws_loadbalancer.go:214-282 | the policies of every backend port: one in use that was right is left alone, one that was not ends with the proxy policy alone or none, a stale one with none |
| InstanceGroups.Groups.UpdateInstanceSecurityGroups | pkg/cloudprovider/providers/aws/aws.go:3036-3111 | success leaves exactly the wanted groups open if and only if none of them is listed twice; whatever fails only wanted groups are opened, and none of them is closed unless one is listed twice |
| InstanceGroups.Groups.CompareToActual | pkg/cloudprovider/providers/aws/aws.go:3060-3077 | the change map for every number of listings of every group |
| InstanceGroups.ApplyExactlyWhen | pkg/cloudprovider/providers/aws/aws.go:3060-3111 | applying the change map opens exactly the wanted groups if and only if none is listed twice |
| InstanceGroups.ClosesWantedGroup | pkg/cloudprovider/providers/aws/aws.go:3060-3077 | one wanted group, open and listed twice, is closed |
| InstanceGroups.DistinctChangeMap | pkg/cloudprovider/providers/aws/aws.go:3060-3077 | with distinct ids true exactly on wanted minus actual and false exactly on actual minus wanted |
| ElbSubnets.IsSubnetPublic | pkg/cloudprovider/providers/aws/aws.go:2497-2540 | the two scans find the deciding table, and the answer is whether it routes to an internet gateway |
| ElbSubnets.TableForExactly | pkg/cloudprovider/providers/aws/aws.go:2497-2521 | the table that decides is the last that names the subnet, if any does, else the last main one, and none exactly when there is neither |
| ElbSubnets.ExplicitWins | pkg/cloudprovider/providers/aws/aws.go:2497-2540 | a subnet named by a table without an internet gateway is private, whatever the main table has |
| ElbSubnets.ChosenMeans | pkg/cloudprovider/providers/aws/aws.go:2427-2495 | subnets of an external load balancer route to an internet gateway by their own table, those of an internal one need not, and a subnet with the tag for the kind is preferred |
| ElbSubnets.LastExplicitIsLast | pkg/cloudprovider/providers/aws/aws.go:2498-2506 | the deciding table is the last that names the subnet |
| ElbSubnets.LastMainIsLast | pkg/cloudprovider/providers/aws/aws.go:2508-2521 | without one it is the last main table |
| ElbSubnets.FindElbSubnets | pkg/cloudprovider/providers/aws/aws.go:2427-2495 | an error exactly when a named subnet has no table; otherwise one subnet per zone with an eligible one, the earliest tagged or else the earliest |
| ElbSubnets.ChoiceIsUnique | pkg/cloudprovider/providers/aws/aws.go:2442-2487 | the rule fixes the subnet of a zone |
| Backoff.State.ComputeDelayForRequest | pkg/cloudprovider/providers/aws/retry_handler.go:117-153 | the new counts, the decay time and the delay |
| Backoff.DelayIsShare | pkg/cloudprovider/providers/aws/retry_handler.go:138-152 | below one error in ten requests there is no delay; from there on it is the maximum times errors over requests, rounded down to whole seconds, for all counts |
| Backoff.RequestBelowExactly | pkg/cloudprovider/providers/aws/retry_handler.go:117-153 | in the counts before a request and its decay factor: the delay is below the maximum if and only if (errors - requests) * factor < 1 |
| Backoff.HistoryBelowExactly | pkg/cloudprovider/providers/aws/retry_handler.go:107-161 | over every history that ends with a request the delay is below the maximum if and only if the errors, each weighted by the decay since, are fewer than the weighted requests |
| Backoff.PromptStaysBelow | pkg/cloudprovider/providers/aws/retry_handler.go:107-161 | in every history in which each error is reported before the next request the delay is below the maximum |
| Backoff.UndecayedBelowExactly | pkg/cloudprovider/providers/aws/retry_handler.go:107-161 | while nothing decays the delay is below the maximum if and only if twice the errors are fewer than four more than the events, in every order |
| Backoff.LateErrorsExceed | pkg/cloudprovider/providers/aws/retry_handler.go:107-161 | ten requests, one twelve decay intervals later, the ten errors, a request: a delay of 202 s for a maximum of 60 s |
| Backoff.Recovers | pkg/cloudprovider/providers/aws/retry_handler.go:117-153 | after n error-free requests from counts (e, r) the error fraction is at most e / (r + n), whatever decays |
| Backoff.RecoversToZero | pkg/cloudprovider/providers/aws/retry_handler.go:117-153 | the delay is zero from r + n > 10 e on until the next error |
| Backoff.ZeroExactlyWhen | pkg/cloudprovider/providers/aws/retry_handler.go:138-152 | without decay the delay is zero if and only if r + n > 10 e |
| LbaasSlices.PopMember | pkg/cloudprovider/providers/openstack/openstack_loadbalancer.go:382-391 | out of range exactly when last match and number of matches exceed the length; otherwise exactly the matches are gone |
| LbaasSlices.DistinctNeverOverruns | pkg/cloudprovider/providers/openstack/openstack_loadbalancer.go:382-391 | members with distinct addresses and ports never run out of range |
| LbaasSlices.DuplicateOverruns | pkg/cloudprovider/providers/openstack/openstack_loadbalancer.go:382-391 | two equal members do |
| LbaasSlices.PopListener | pkg/cloudprovider/providers/openstack/openstack_loadbalancer.go:370-380 | exactly the listener with the id is gone |
| LbaasSlices.MemberExists | pkg/cloudprovider/providers/openstack/openstack_loadbalancer.go:360-368 | true exactly when a member matches |
| LbaasMembers.SyncEnds | pkg/cloudprovider/providers/openstack/openstack_loadbalancer.go:709-752 | deleting what is left on the list leaves a member for every node and no other |
| LbaasMembers.Refused | pkg/cloudprovider/providers/openstack/openstack_loadbalancer.go:723-741 | creating a member is refused exactly when an earlier node has the same address |
| LbaasPorts.PortStep | pkg/cloudprovider/providers/openstack/openstack_loadbalancer.go:660-771 | one round serves its port and keeps all the others served |
| LbaasV2.RefusedExactly | pkg/cloudprovider/providers/openstack/openstack_loadbalancer.go:601-633 | exactly which services are refused before any call |
| LbaasV2.Provider.SyncMembers | pkg/cloudprovider/providers/openstack/openstack_loadbalancer.go:705-752 | success leaves a member for every node and no other, wanted members never go, a right pool is left alone |
| LbaasV2.Provider.EnsureLoadBalancer | pkg/cloudprovider/providers/openstack/openstack_loadbalancer.go:598-820 | success leaves exactly one listener per port with exactly one member per node; without failures it succeeds exactly for distinct free TCP ports and distinct node addresses; nothing that serves is ever taken away; a right load balancer is left alone |

## Left out

- ControllerInvariant.ActualEntries: Ready is not claimed for data that was posted twice, because ControllerRaces.ResurrectedData shows it is false there; ControllerInvariant.ReadyExactlyWhen has the exact condition.
- Convergence.ConvergesIffHealthy: after a harmful step of the populator a desired entry can be missing or another object; how far later passes of the populator make up for it is not stated.
- Passes.PassExists: two operations of one name cannot run together, so a pass in which the names of two operations collide fires one of them only.
- AttachMap.Cloud.GetMountDevice: the two halves around the lock are one step, with the EC2 report as an arbitrary argument, so reports of any age are covered.
- SecurityGroupIngress.Group.SetSecurityGroupIngress: IPv6 ranges are not modelled.
- ElbSync.LoadBalancer.EnsureLoadBalancer: only the listeners and proxy policies of an existing load balancer; creation, subnets, security groups and attributes are set differences or single calls.
- LbaasV2.Provider.EnsureLoadBalancer: up to the floating IP; an absent load balancer is one without listeners. Floating IPs, security groups, the session persistence of pools, UpdateLoadBalancer and EnsureLoadBalancerDeleted are not modelled, nor is the choice of a node's address.
- InstanceGroups.Groups.UpdateInstanceSecurityGroups: the lookup of an instance's security group and the cluster tag filter are its arguments.
- Backoff.State.ComputeDelayForRequest: float32 rounding and underflow are not modelled; the decay power is an arbitrary factor between 0 and 1.
- GceLoadBalancer.Gce.EnsureLoadBalancer: an operation that takes effect after its wait has timed out is not modelled; addresses, hosts and tags are opaque values.
- The JSON encoding, CRD creation, volume plugins, the provisioner, volume lookup from claim to volume, OpenStack routes and LBaaS v1 would add single calls or one-branch logic.
- AttachMap.Cloud.AttachDisk: the lookups of the disk and the instance and the polling for the attachment status are its arguments. The same goes for DetachDisk.
