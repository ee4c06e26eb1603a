# Hardware provisioner: a verified model

The repository lends laboratory hardware. A *provisioner* keeps leases in redis and divides each request among
*resource managers*; a *hypervisor* hands out virtual machines from pools of GPUs, MAC addresses and serial
ports; a *hardvisor* hands out whole machines from a table in redis; a libvirt network hands out IP addresses.
This project models the code that keeps those books and proves that they balance: what every interleaving
keeps, what a failed request gives back, what a restart restores, and exactly when the code falls short.

`dafny verify dfyconfig.toml` checks everything.

## How the model is laid out

| part | files | form |
|---|---|---|
| the hypervisor's allocator | `AllocatorSpec`, `AllocatorRuns`, `AllocatorLimits`, `AllocatorPorts`, `AllocatorOutcomes`, `AllocatorFaults`, `Allocator` | functions on the four pools; a step machine; a class whose methods compute those functions in place |
| crash recovery | `RestoreSpec`, `Restore`, `RestoreOutcomes`, `Restart`, `Allocator` | functions on the persisted records; the restoring methods of the class |
| requests for several VMs | `HyperVisor` | a class over the allocator |
| the provisioner | `HostSplit`, `HostPartition`, `Leases`, `Expiry`, `LeaseOutcomes`, `LeaseRuns`, `LeaseMachines`, `Reclaim`, `LeaseClock`, `Provisioner` | functions on the `allocations` hash; two step machines; a class and methods over the hash |
| whole machines | `Hardware`, `HardwareRuns`, `Hardvisor` | functions on the machine table; a step machine; classes |
| IP reservations | `Dhcp`, `DhcpRuns`, `DhcpHandlers` | functions on the reservation table; a step machine; classes |
| groundwork | `PyLists`, `MapSums`, `Ledger`, `Decimals`, `Vms` | Python list operations, sums over dictionaries, number rendering, the VM record |

**What a step is.** asyncio code is atomic between two suspension points. The body under `Allocator.lock` never
suspends, and neither does the code that follows it up to the creation of the VM: the lock of a VM that was made
a moment ago is free. So `allocate_vm` is two steps, before and after the VM manager's work; `destroy_vm` is
three, since it may also wait for the VM's lock. Everything outside (sockets, libvirt, storage, HTTP, redis
connections, clocks, cancellation) is an argument: an oracle that says how the call ends, for every possible way.
The redis hash operations are atomic; a read and a later write are two steps.

**Methods and functions.** Each class method is proved to compute a function of the old state; the lemmas are
about those functions and about runs of them. The `Outcomes` modules write out, without those
functions, what one request, destruction, restoration or pass answers and leaves, so that no branch rests on a
definition alone. Names, identifiers and addresses that the code only compares are numbers; strings that it builds
(VM names, ports read back from XML) are strings.

## Main results

1. *Conservation.* In every run of the allocator, whatever fails or is cancelled, free plus held GPUs and MACs
   are the configured ones and the used ports are those of the live VMs, exactly if every step's guard holds
   (`ConservedExactlyWhenSafe`); two conditions that can be read off the run suffice (`Conservation`), and one of
   them follows when the ports suffice for `max_vms` (`ConservationWhenPortsSuffice`). In conserving runs no two live
   VMs share a serial port exactly if no allocation comes to a bindable port of a live restored one
   (`ApartExactlyWhenClear`), so never while restored VMs hold theirs (`ApartWhenRestoredAreBusy`).
2. *Recovery.* Restoring a record is conservative exactly if the record fails the checks or is sound
   (`RecordExactly`); a fresh allocator rebuilds the listed VMs up to the first without an interface, and all of
   them exactly if each has one (`RoundTrip`); what is rebuilt is a sound start for every later run
   (`ConservationAfterRestart`).
3. *All or nothing.* A request for any number of VMs, or of machines, is served completely or leaves the books
   as they were; for VMs with the one exception of a failing port search, whose loss is stated exactly
   (`HyperVisor.Fulfill`, `AllOrNothing`). Machines are matched whenever that is possible (`GreedyIsComplete`).
4. *Leases.* In real time, a heartbeated lease is never reclaimed exactly if three delays add up to less than the
   lease (`SafeExactly`); no record that lists machines is dropped before they are freed or the grace period is
   over, exactly if no manager answers with an empty reply (`NoMachineForgotten`); machine by machine, exactly if
   moreover no reply leaves a listed one out and no overtaken heartbeat writes an old list back
   (`MachinesAreAccounted`); a lapsed record that nothing
   revives is gone after two effective passes, whatever happens to other records (`TwoPassesReclaim`).
5. *Splitting.* The loop that edits the list it iterates never drops a host from every list
   (`SplitKeepsUnion`), and it leaves a shared host exactly behind an odd number of shared ones (`PassExactly`). So
   for any number of managers the split is a partition exactly if no pass finds a host that an earlier list still
   has in such a place (`PartitionExactly`); for two managers this is a condition on their two lists
   (`TwoManagersExactly`), which lists in the order of the demands always meet (`TwoManagersPartition`).
6. *Exclusivity over a shared table.* Locked allocations racing with unlocked releases never grant a machine in
   use, exactly if machines carry the name they are stored under (`ExclusiveExactly`); a grant lasts until its own
   release under a discipline that is also necessary (`GrantsLast`, `DisciplineIsNeeded`); IP reservations stay
   injective and share out the range (`ReservationsStayApart`).

## Where the code falls short

Each of these is the condition of an if-and-only-if above, or has a lemma of its own.

- `_reserve_free_port` raising loses the GPUs and MACs that were already taken (`PortFailureLosesDevices`); inside a
  request for several VMs nothing gives them back (`HyperVisor.Fulfill`).
- A destroyer that waited on an old VM's lock while its name was reused frees the old VM's devices a second time and
  forgets the new one's (`StaleDestroyDuplicatesDevices`): the double check is by name, not by object.
- `max_vms` is tested with `==`, so above the limit, where a restore can lead, it no longer limits
  (`OverfullStillGrows`).
- A restored port is text and never matches the numeric port search (`SearchSeesNumbers`), so a new VM can get the
  port of a live restored one that is not bound at the moment (`RestoredPortIsReused`).
- A live VM without an interface ends the recovery: the empty list leaves no trace in the XML, iterating the
  missing value raises, and the clean-up that follows iterates it again (vm_manager.py:82-83) and raises out of
  `restore_vms`, so the VMs listed after it are lost and the start-up fails (`RoundTrip`). A record with a duplicate
  MAC or address, with a missing field, or under a name that is taken breaks the books (`RecordExactly`).
- `_free_vm_resources` hands the devices back before it removes the port, so a port that is not listed leaves
  the VM in place without its devices (`EndExactly`). A negative number of GPUs is sliced as Python does.
- An empty reply to the status query of a lapsed record drops it with its machines outstanding
  (`NoMachineForgotten`), and a reply that leaves machines out drops those (`MachinesAreAccounted`). A heartbeat that
  is overtaken by the release of its lease and a new request writes the old list over the new one
  (`OvertakenHeartbeatForgets`).
- The comment above the splitting loop promises no duplicates. Exactly when it keeps that promise is
  `PartitionExactly`; with three managers, or with two whose lists disagree on the order, a host can stay with two of
  them (`ThreeManagersOverlap`, `DisorderOverlaps`).
- With several managers, the record lists only the machines of the last one (`LastManagerWins`).
- A machine whose configured name is not its key is granted twice (`ExclusiveExactly`); two overlapping releases, or
  one of an idle machine, end a later grant (`DisciplineIsNeeded`).
- The pass that reclaims machines asks for the active allocations before it reads the machines, so it can free one
  that was granted in between (`FreshGrantIsCleaned`, `ActiveAreSparedExactly`).
- Reallocating an address outside the range loses the reservation (`ReallocationIsIdentity`), and a failing release
  turns a reallocation into a refusal (`FailedReleaseBlocks`).

## Model

| member | source | states |
|---|---|---|
| AllocatorSpec.NoDeviceInTwoVms | resource_managers/hypervisor/vms/allocator.py:182-258 | under conservation, if no device is configured twice, two live VMs share no GPU and no MAC |
| AllocatorSpec.ListedPortsCount | resource_managers/hypervisor/vms/allocator.py:121-135 | under conservation there are as many used ports as live VMs |
| AllocatorSpec.SearchIsExact | resource_managers/hypervisor/vms/allocator.py:121-135 | the port search returns the least port from the start that is neither listed nor in use, raises the socket's error exactly if that port cannot be bound, and gives up exactly if all of the attempts were skipped |
| AllocatorSpec.SearchSucceeds | resource_managers/hypervisor/vms/allocator.py:121-135 | pigeonhole: if no port of the window is denied, and fewer are listed or bound by others than there are attempts, a port is found |
| AllocatorSpec.SearchSeesNumbers | resource_managers/hypervisor/vms/allocator.py:121-135 | two lists of used ports with the same numbers give the same search, whatever text they also hold |
| AllocatorSpec.FreeIndex | resource_managers/hypervisor/vms/allocator.py:214-218 | the naming loop ends at the first index whose name is free, after at most as many steps as there are names |
| AllocatorSpec.FreeIndexIsLeast | resource_managers/hypervisor/vms/allocator.py:214-218 | that index is the only free one with no free index before it |
| AllocatorSpec.FreshNameIsFresh | resource_managers/hypervisor/vms/allocator.py:214-225 | with n live VMs the new name is unused and its index lies between n and 2n |
| Vms.VmNameIsInjective | resource_managers/hypervisor/vms/allocator.py:215-218 | different indices give different VM names |
| AllocatorRuns.HandBackExactly | resource_managers/hypervisor/vms/allocator.py:155-159 | giving a VM's resources back and dropping the entry under a name is conservative exactly if that entry held the same |
| AllocatorRuns.BeginExactly | resource_managers/hypervisor/vms/allocator.py:192-229 | the first half of `allocate_vm` is conservative exactly unless a failing port search follows a reservation of something |
| AllocatorRuns.BeginAccounts | resource_managers/hypervisor/vms/allocator.py:211-229 | what the first half loses is exactly what a failing port search had taken; the rest stays accounted for |
| AllocatorRuns.EndExactly | resource_managers/hypervisor/vms/allocator.py:231-240 | a failed or cancelled creation is conservative exactly if the name still stands for a VM with the same holdings, or the port is gone and there was nothing to give back |
| AllocatorRuns.DestroyExactly | resource_managers/hypervisor/vms/allocator.py:242-258 | a destruction is conservative exactly if the entry under the name has the holdings of the VM that was destroyed |
| AllocatorRuns.StepExactly | resource_managers/hypervisor/vms/allocator.py:182-258 | one step of any coroutine keeps conservation exactly if its guard holds |
| AllocatorRuns.ConservedExactlyWhenSafe | resource_managers/hypervisor/vms/allocator.py:182-258 | over every interleaving, conservation holds in all states exactly if every step's guard holds |
| AllocatorRuns.OwnedKept | resource_managers/hypervisor/vms/allocator.py:231-258 | whoever holds a VM's lock finds that very VM under its name, as long as woken destroyers do |
| AllocatorRuns.Conservation | resource_managers/hypervisor/vms/allocator.py:182-258 | in every run in which port searches succeed and a woken destroyer finds its own VM, free plus held devices are the configured ones and used ports are those of live VMs, whatever fails or is cancelled |
| AllocatorRuns.NeverShared | resource_managers/hypervisor/vms/allocator.py:182-258 | hence after any such run no GPU and no MAC is in two live VMs |
| AllocatorLimits.WithinMaxVms | resource_managers/hypervisor/vms/allocator.py:208-225 | from at most `max_vms` VMs every interleaving stays within `max_vms` |
| AllocatorLimits.OverfullStillGrows | resource_managers/hypervisor/vms/allocator.py:208-209 | above `max_vms` an allocation that has the resources still adds a VM |
| AllocatorLimits.ConservationWhenPortsSuffice | resource_managers/hypervisor/vms/allocator.py:208-213 | if no port that a search within `max_vms` can come to is denied, and `max_vms` plus the ports bound by others is at most 500, the reservation section never leaks, over every run whose destroyers are current |
| AllocatorLimits.BindablePortsSuffice | resource_managers/hypervisor/vms/allocator.py:121-135 | when every port binds, that is exactly `max_vms` at most 500 |
| AllocatorLimits.InfeasibleIsRefused | resource_managers/hypervisor/vms/allocator.py:167-180 | what `check_allocate` rejects is refused in every conserving state |
| AllocatorLimits.FeasibleIsServedWhenIdle | resource_managers/hypervisor/vms/allocator.py:167-213 | with no live VM a request is served exactly if it is feasible, `max_vms` is not zero and the search over an empty list finds a port |
| AllocatorLimits.FeasibilityOverRuns | resource_managers/hypervisor/vms/allocator.py:167-213 | both directions in every reachable state |
| AllocatorPorts.ReusesFound | resource_managers/hypervisor/vms/allocator.py:121-135 | the search ends at a restored VM's port exactly if, by the listed numbers and the sockets, the first port that is neither listed nor in use can be bound and is a restored one |
| AllocatorPorts.StepApartExactly | resource_managers/hypervisor/vms/allocator.py:121-135 | one step keeps the serial ports of live VMs apart exactly if it is not an admitted allocation of a VM that can be built for which the listed ports and the sockets say that |
| AllocatorPorts.ApartExactlyWhenClear | resource_managers/hypervisor/vms/allocator.py:182-258 | over every conserving run, no two live VMs ever share a port exactly if no step is such an allocation |
| AllocatorPorts.ApartWhenRestoredAreBusy | resource_managers/hypervisor/vms/allocator.py:121-135 | in a conserving run in which the ports of live restored VMs are in use whenever a search looks, no two live VMs ever share one |
| AllocatorPorts.ApartWithoutRestore | resource_managers/hypervisor/vms/allocator.py:182-258 | a conserving run that starts without restored VMs never makes two VMs share a port |
| AllocatorPorts.RestoredPortIsReused | resource_managers/hypervisor/vms/allocator.py:121-135 | after a restart that restored one VM with the second port, the next admitted request gets that port too, if it can be bound |
| AllocatorFaults.PortFailureLosesDevices | resource_managers/hypervisor/vms/allocator.py:211-213 | a concrete run in which a failing port search loses a GPU and a MAC |
| AllocatorFaults.StaleDestroyDuplicatesDevices | resource_managers/hypervisor/vms/allocator.py:242-258 | a concrete run in which a stale destroyer ends with one device free twice and another lost |
| AllocatorOutcomes.RefusedExactly | resource_managers/hypervisor/vms/allocator.py:198-209 | each of the four refusals has its exact condition on the counts, the network names and the limit, and a refused request changes nothing |
| AllocatorOutcomes.BegunExactly | resource_managers/hypervisor/vms/allocator.py:192-230 | a VM is begun exactly if nothing refuses it, the first of 500 ports that is neither listed nor in use can be bound, and the object can be made |
| AllocatorOutcomes.NotBegunAs | resource_managers/hypervisor/vms/allocator.py:211-229 | an admitted request that begins nothing raises one of three errors, each under its exact condition; a failing port search keeps the devices, a failing object gives everything back |
| AllocatorOutcomes.BegunIsWired | resource_managers/hypervisor/vms/allocator.py:142-153 | interface by interface, a begun VM has the first free MACs in order, the networks asked for in order, and the bridge device exactly on bridge networks and the private network on the others |
| AllocatorOutcomes.BegunHasGpus | resource_managers/hypervisor/vms/allocator.py:137-140 | a begun VM has the first free GPUs, up to where a Python slice ends, and the rest stay free in order |
| AllocatorOutcomes.BegunIsListed | resource_managers/hypervisor/vms/allocator.py:213-225 | its port is the first one free and is listed last; it stands under a name not used before, and no other VM changes |
| AllocatorOutcomes.BegunIsNamed | resource_managers/hypervisor/vms/allocator.py:214-218 | its name is the server's, `-vm-` and the least number, counted from the number of live VMs, whose name is not taken |
| AllocatorOutcomes.EndedAs | resource_managers/hypervisor/vms/allocator.py:231-240 | which error a creation ends with, and what is dropped and given back before it is raised |
| AllocatorOutcomes.DestroyedAs | resource_managers/hypervisor/vms/allocator.py:247-258 | the same for a destruction |
| AllocatorOutcomes.UninterruptedDestroy | resource_managers/hypervisor/vms/allocator.py:242-258 | with nothing in between, a destruction goes through its three steps, to what its end leaves; for an unknown name nothing happens |
| Allocator.Allocator.constructor | resource_managers/hypervisor/vms/allocator.py:19-33 | all configured devices are free, nothing is used, the totals are those of the pools |
| Allocator.Allocator.ReserveFreePort | resource_managers/hypervisor/vms/allocator.py:121-135 | the recursion computes the exact search and lists the port it finds |
| Allocator.Allocator.ReserveGpus | resource_managers/hypervisor/vms/allocator.py:137-140 | the two slices, for negative numbers too |
| Allocator.Allocator.ReserveNetworks | resource_managers/hypervisor/vms/allocator.py:142-153 | one interface per network from the first free MACs in order: on the bridge device exactly for bridge networks, and on the private network for the others |
| Allocator.Allocator.FreeVmResources | resource_managers/hypervisor/vms/allocator.py:155-159 | devices go back to the end of the pools; whether the port was listed |
| Allocator.Allocator.ValidateNetworks | resource_managers/hypervisor/vms/allocator.py:161-165 | exactly bridge and isolated networks are valid |
| Allocator.Allocator.ChooseName | resource_managers/hypervisor/vms/allocator.py:214-218 | the naming loop finds the fresh name |
| Allocator.Allocator.Admit | resource_managers/hypervisor/vms/allocator.py:198-209 | the four refusals, in their order |
| Allocator.Allocator.Construct | resource_managers/hypervisor/vms/allocator.py:214-229 | the new VM is listed under a fresh name, or its resources go back |
| Allocator.Allocator.Reserve | resource_managers/hypervisor/vms/allocator.py:211-213 | the three reservations in order, the first two staying in force when the third fails |
| Allocator.Allocator.AllocateBegin | resource_managers/hypervisor/vms/allocator.py:192-229 | the whole first half of `allocate_vm`, in place, equals its specification, and keeps the allocator valid exactly unless it leaks |
| Allocator.Allocator.AllocateEnd | resource_managers/hypervisor/vms/allocator.py:231-240 | the end of a creation, failures included, and exactly when it keeps the allocator valid |
| Allocator.Allocator.DestroyEnd | resource_managers/hypervisor/vms/allocator.py:247-258 | the end of a destruction, failures included, and exactly when it keeps the allocator valid |
| Allocator.Allocator.CheckAllocate | resource_managers/hypervisor/vms/allocator.py:167-180 | true exactly for feasible requests |
| Allocator.Allocator.TryRestoreIp | resource_managers/hypervisor/vms/allocator.py:35-45 | of ten tries, timeouts are retried and the first other answer counts |
| Allocator.Allocator.CheckNetworks | resource_managers/hypervisor/vms/allocator.py:59-75 | a record's interfaces pass exactly if each source is valid, each MAC is free and no renewal fails |
| Allocator.Allocator.MatchGpus | resource_managers/hypervisor/vms/allocator.py:77-81 | the first free device for each address, or none at all |
| Allocator.Allocator.TryRestoreVm | resource_managers/hypervisor/vms/allocator.py:47-96 | one record's restoration, in place, equals the one that `RestoredExactly` and `RestoredBecomes` characterize, and keeps the allocator valid exactly if the record fails the checks or is sound |
| Allocator.Allocator.RestoreVms | resource_managers/hypervisor/vms/allocator.py:98-110 | the loop over the records, each failure followed by a clean-up that may end the loop and does for a record without interfaces; well-formed records keep the allocator valid |
| RestoreSpec.LookupAllFinds | resource_managers/hypervisor/vms/allocator.py:77-81 | every address finds a free device exactly if each has one, and gets a device with that address |
| Restore.RecordExactly | resource_managers/hypervisor/vms/allocator.py:59-96 | restoring a record is conservative exactly if it fails the checks or asks for no more than is free, is complete and has a free name; if it passes and is sound it is restored |
| Restore.WellFormedRecord | resource_managers/hypervisor/vms/allocator.py:59-96 | a complete record without duplicates under a free name fails without changing anything or becomes a VM |
| Restore.RestoreConserves | resource_managers/hypervisor/vms/allocator.py:98-110 | over any list of such records free plus held stays what was configured |
| Restore.NeverBoth | resource_managers/hypervisor/vms/allocator.py:59-110 | two records that claim one device are never both restored |
| Restore.PersistedVmIsRestored | resource_managers/hypervisor/vms/physical_vm.py:22-35 | the persisted form of a VM whose devices are free is restored, with the same holdings, exactly if it has an interface |
| Restore.SameFreePools | resource_managers/hypervisor/vms/allocator.py:47-110 | equal holdings leave equal free multisets |
| Restore.RoundTrip | resource_managers/hypervisor/vms/allocator.py:47-110 | a fresh allocator that restores another one's live VMs ends with those listed before the first without an interface, each as it was but for the port's type, and is cut short there; it completes, and has all of them and equal free pools, exactly if each has an interface |
| RestoreOutcomes.RestoredExactly | resource_managers/hypervisor/vms/allocator.py:35-96 | a record is restored if and only if storage is valid, its interfaces are listed and on devices that are still there, of ten tries none is refused after only timeouts, its MACs are free with multiplicity, the first free devices with its addresses are there and free with multiplicity, and no field is missing |
| RestoreOutcomes.RestoredBecomes | resource_managers/hypervisor/vms/allocator.py:83-96 | it then is a VM under its own name with its interfaces, those devices and its port, and the pools lose just that |
| RestoreOutcomes.ReachedExactly | resource_managers/hypervisor/vms/allocator.py:98-110 | a restore goes past a record exactly if it was restored or it lists interfaces and the clean-up does not raise |
| Restart.RestoredIsOwned | resource_managers/hypervisor/vms/allocator.py:94-110 | restored VMs sit under their own names with identities of their own |
| Restart.ConservationAfterRestart | resource_managers/hypervisor/vms/allocator.py:98-258 | after a restart from well-formed records with different names, every proper run conserves what is configured |
| Restart.RestoredPortsStayApart | resource_managers/hypervisor/vms/allocator.py:90-95 | reading VMs back keeps their serial ports apart |
| HyperVisor.HyperVisor.TranslateToVmParams | resource_managers/hypervisor/vms/rest.py:30-45 | one request per demand, with the defaults |
| HyperVisor.DefaultDemand | resource_managers/hypervisor/vms/rest.py:30-36 | a demand that says nothing begins a VM with the first free GPU and one interface, the first free MAC on the bridge device |
| HyperVisor.HyperVisor.Gather | resource_managers/hypervisor/vms/rest.py:67-70 | creations start in order and end in any order; the live VMs are the old ones plus one for each that did not fail, and what failing port searches lost is on record |
| HyperVisor.HyperVisor.RollBack | resource_managers/hypervisor/vms/rest.py:75-78 | destroying what was made restores the VMs |
| HyperVisor.HyperVisor.Fulfill | resource_managers/hypervisor/vms/rest.py:61-82 | for any number of live VMs, the request succeeds exactly if every section began and every creation ended well, and then every demand has a new VM of its own that serves it; otherwise VMs and ports are as before, and the free multisets exactly unless a section's port search failed after taking something; within `max_vms` and when ports suffice nothing is lost, and with room for all it succeeds exactly if every VM can be made |
| HostSplit.Prune | hwallocator/provisioner/webapp/fulfiller.py:55-57 | the loop that removes from the list it iterates skips the element behind each removed one |
| HostPartition.PassIsSieve | hwallocator/provisioner/webapp/fulfiller.py:55-57 | on a list without duplicates the loop drops a shared host and keeps its successor unseen |
| HostPartition.FilteredInOrder | hwallocator/provisioner/webapp/fulfiller.py:64-68 | what is sent to a manager keeps the order of the demands |
| HostSplit.PassKeepsOwn | hwallocator/provisioner/webapp/fulfiller.py:55-57 | a manager only loses hosts that another one has |
| HostSplit.SplitKeepsUnion | hwallocator/provisioner/webapp/fulfiller.py:52-57 | for any number of managers no host is dropped from every list |
| HostSplit.FilterDemands | hwallocator/provisioner/webapp/fulfiller.py:64-68 | the demands sent to a manager are those it kept, in order |
| HostSplit.EveryDemandIsKept | hwallocator/provisioner/webapp/fulfiller.py:31-68 | after the cardinality test, every demand is kept by some manager's filtered demands exactly if no manager offered a host that was not demanded |
| HostSplit.PossibleExactly | hwallocator/provisioner/webapp/fulfiller.py:31-39 | on offers of demanded hosts, the cardinality test passes exactly if some manager answered and every demanded host is offered |
| HostPartition.PassExactly | hwallocator/provisioner/webapp/fulfiller.py:55-57 | on a list without duplicates a pass leaves a host exactly if nobody else has it or an odd number of shared hosts stands directly before it |
| HostPartition.PassKeepsSharedExactly | hwallocator/provisioner/webapp/fulfiller.py:55-57 | it leaves some shared host exactly if two neighbours in the list are shared |
| HostPartition.PartitionExactly | hwallocator/provisioner/webapp/fulfiller.py:52-57 | for any number of managers with lists without duplicates, the union is unchanged, and the lists end disjoint exactly if in no pass a host that an earlier list still has stands behind an odd number of shared hosts |
| HostPartition.TwoManagersExactly | hwallocator/provisioner/webapp/fulfiller.py:52-57 | two lists without duplicates end disjoint exactly if no two neighbours in the second both stand in the first behind an odd number of hosts of the second |
| HostPartition.SpreadListsPartition | hwallocator/provisioner/webapp/fulfiller.py:52-57 | so lists in which no two neighbours are offered by others end disjoint with their union unchanged |
| HostPartition.TwoManagersPartition | hwallocator/provisioner/webapp/fulfiller.py:52-57 | two lists in the order of the demands end disjoint with their union unchanged |
| HostPartition.ThreeManagersOverlap | hwallocator/provisioner/webapp/fulfiller.py:52-57 | three concrete lists in that order after which two managers have the same host |
| HostPartition.DisorderOverlaps | hwallocator/provisioner/webapp/fulfiller.py:52-57 | two concrete lists in different orders after which both have the same host |
| Leases.LastManagerWins | hwallocator/provisioner/webapp/redisclient.py:106-112 | when every manager allocates, the record lists what the last one allocated and nothing else |
| LeaseOutcomes.RequestOutcome | hwallocator/provisioner/webapp/fulfiller.py:59-86 | a feasible new request ends with the last manager's endpoint, the machines and the sixty seconds of the last one that allocated before the first that did not (none, and the initial expiration, if there is none); it is a success exactly if all allocate or a bad reply follows a success, and otherwise an exception, cancelled or allocating as that first one says; no other record changes |
| LeaseOutcomes.ReleaseOutcome | hwallocator/provisioner/webapp/fulfiller.py:122-130 | a release drops its record exactly if as many machines could be freed as are listed, and touches no other |
| Expiry.ScanIsPointwise | hwallocator/provisioner/webapp/expires.py:39-78 | the first loop decides each record by itself, up to the one that raises |
| Expiry.TasksAreExpired | hwallocator/provisioner/webapp/expires.py:66-72 | deallocation is scheduled exactly for the leases that ran out, once each |
| Expiry.SettleIsPointwise | hwallocator/provisioner/webapp/expires.py:80-86 | the second loop deletes exactly the records whose machines were all freed and marks the other scheduled ones |
| Expiry.PassIsPointwise | hwallocator/provisioner/webapp/expires.py:39-86 | an unbroken pass equals deciding every record alone, in any order |
| Expiry.CutPass | hwallocator/provisioner/webapp/expires.py:87-88 | in a pass that an exception ends, a record is untouched or was only scanned |
| Expiry.PassLowersRank | hwallocator/provisioner/webapp/expires.py:39-86 | an unbroken pass after a record's expiration lowers its rank if that record's manager answers and its machines can be freed, whatever happens to other records |
| Expiry.PassKeepsRank | hwallocator/provisioner/webapp/expires.py:39-86 | no unbroken pass raises it unless a deallocation that it starts fails |
| Reclaim.EffectivePassesCount | hwallocator/provisioner/webapp/expires.py:39-86 | over any run of the provisioner that does not revive a record, its rank at the end plus the number of effective passes is at most its rank at the start |
| Reclaim.TwoPassesReclaim | hwallocator/provisioner/webapp/expires.py:39-86 | so it is gone after two of them, or one if its status needs no recovery |
| LeaseRuns.StepDropsJustified | hwallocator/provisioner/webapp/expires.py:39-86 | a step deletes such a record only with its machines freed or the grace period over, exactly if no such empty reply is met |
| LeaseRuns.NoMachineForgotten | hwallocator/provisioner/webapp/expires.py:39-86 | the same over whole runs of fulfilments, releases, passes and two-step heartbeats |
| Expiry.PassAt | hwallocator/provisioner/webapp/expires.py:39-88 | what any pass, cut short or not, makes of each record |
| LeaseOutcomes.RecoveryOutcome | hwallocator/provisioner/webapp/expires.py:40-72 | what each answer makes of a record in recovery that a pass goes past, cut short later or not: no endpoint or more than fifteen minutes past, gone; unreachable, `unknown` with all else unchanged; machines, a success that lists them for sixty seconds; nothing, gone exactly if expired |
| LeaseOutcomes.PendingOutcome | hwallocator/provisioner/webapp/expires.py:66-76 | a request under way goes exactly if it has expired |
| LeaseOutcomes.LeaseOutcome | hwallocator/provisioner/webapp/expires.py:66-86 | a lease is unchanged until it expires; then it is deallocating if the pass is cut short, gone if all its machines were freed, and an error otherwise |
| LeaseOutcomes.BeyondOutcome | hwallocator/provisioner/webapp/expires.py:87-88 | the record whose answer ends the pass and those behind it are unchanged |
| LeaseOutcomes.SuccessNeedsAnAnswer | hwallocator/provisioner/webapp/expires.py:50-64 | in any pass a record becomes a success only if its own manager answered with machines, and lists those |
| LeaseOutcomes.HeartbeatOutcome | hwallocator/heartbeat_server/webapp/heartbeats.py:31-41 | an uninterrupted heartbeat of the step machine gives a success sixty seconds from now and changes nothing else |
| LeaseMachines.StepExactly | hwallocator/provisioner/webapp/expires.py:39-86 | in a step every listed machine that leaves its record was deallocated or past the grace period, exactly if no empty reply and no reply that leaves one out is met, and no heartbeat writes over a newer list |
| LeaseMachines.MachinesAreAccounted | hwallocator/provisioner/webapp/expires.py:39-86 | the same over whole runs |
| LeaseMachines.OvertakenHeartbeatForgets | hwallocator/heartbeat_server/webapp/heartbeats.py:31-41 | a concrete run in which a heartbeat overtaken by a release and a new request makes the new machine disappear |
| LeaseClock.NeverReclaimed | hwallocator/provisioner/webapp/expires.py:38-72 | with heartbeat gap, write lag and look delay adding up to less than 60 seconds, no interleaving reclaims the lease or changes anything in its record but the expiration |
| LeaseClock.SlowPassReclaims | hwallocator/heartbeat_server/webapp/heartbeats.py:31-41 | for every timing that adds up to 60 or more, with heartbeats a second or more apart, a run in which a lease with timely heartbeats is reclaimed |
| LeaseClock.SafeExactly | hwallocator/provisioner/webapp/expires.py:38-72 | with heartbeats a second or more apart, the lease is safe in all runs exactly if the delays add up to less than 60 seconds |
| LeaseClock.LookReclaimsExactly | hwallocator/provisioner/webapp/expires.py:66-72 | a look reclaims the lease exactly if its snapshot is a success that has expired by then, whatever the store says |
| LeaseClock.UninterruptedSweep | hwallocator/provisioner/webapp/expires.py:38-78 | the steps of a sweep with nothing in between do what the first loop does to every record, up to the one that raises, and end it |
| Provisioner.RedisClient.SaveRequest | hwallocator/provisioner/webapp/redisclient.py:87-91 | a received record that lasts 60 seconds |
| Provisioner.RedisClient.SaveFulfilledRequest | hwallocator/provisioner/webapp/redisclient.py:94-112 | the record's machines are replaced by the reply's, one entry each in order, with status and expiration |
| Provisioner.RedisClient.UpdateStatus | hwallocator/provisioner/webapp/redisclient.py:114-118 | changes one record, and raises without a change if it is gone |
| Provisioner.RedisClient.Delete | hwallocator/provisioner/webapp/redisclient.py:120-123 | removes one record and nothing else |
| Provisioner.UpdateExpires | hwallocator/heartbeat_server/webapp/heartbeats.py:31-41 | an uninterrupted heartbeat extends exactly a successful lease, and raises without a change otherwise |
| Provisioner.Deallocate | hwallocator/provisioner/webapp/expires.py:22-26 | machines are freed in order up to the first failure |
| Provisioner.ExpireAllocations | hwallocator/provisioner/webapp/expires.py:35-88 | the two loops over the live hash equal the pass whose effect on each record `RecoveryOutcome`, `PendingOutcome` and `LeaseOutcome` write out |
| Provisioner.Fulfiller.Divide | hwallocator/provisioner/webapp/fulfiller.py:52-62 | the splitting loop, and a record that is allocating with the last manager's endpoint |
| Provisioner.EveryDemandIsSent | hwallocator/provisioner/webapp/fulfiller.py:31-86 | every manager is asked exactly if all but the last allocate, and then every demand is sent to one exactly if no manager offered a host that was not demanded |
| Provisioner.Fulfiller.AskManagers | hwallocator/provisioner/webapp/fulfiller.py:64-86 | managers are sent the demands they kept, in turn, up to the first that does not allocate, and the record becomes what `RequestOutcome` says |
| Provisioner.Fulfiller.Fulfill | hwallocator/provisioner/webapp/fulfiller.py:16-87 | a known request is answered from the record, an impossible one leaves no record, any other ends with the record its managers' outcomes call for |
| Provisioner.Fulfiller.Release | hwallocator/provisioner/webapp/fulfiller.py:122-130 | the record goes exactly if all of its machines were deallocated |
| Hardware.RegisterKeeps | resource_managers/hardvisor/redis_client.py:21-31 | registration forgets no entry, and keeps the table well keyed exactly if new machines have no other name |
| Hardware.RegisteredAs | resource_managers/hardvisor/redis_client.py:21-31 | a machine new to the table is available, belongs to nobody, and has its configured name or its key and its configured architecture or `x86_64` |
| Hardware.RegisterFrees | resource_managers/hardvisor/redis_client.py:21-31 | the available machines of each architecture are those of before and exactly the new ones configured for it |
| Hardware.FirstRequestExactly | resource_managers/hardvisor/__init__.py:67-72 | after the first registration a request alone is met exactly if enough machines of each architecture are configured, whatever order the hash lists them in |
| Hardware.AllocateExactly | resource_managers/hardvisor/manager.py:32-47 | an allocation fails exactly if no machine of the architecture is available, and otherwise takes one and touches no other |
| Hardware.AllocatedAs | resource_managers/hardvisor/manager.py:32-62 | an allocation grants the first machine listed that is available and matches, marks it in use for the demand's allocation and requestor, and writes it under its own name |
| Hardware.GreedyIsComplete | resource_managers/hardvisor/__init__.py:67-72 | a request alone gets all its machines exactly if every architecture has as many available machines as demands, however the hash lists them |
| Hardware.GrantsAreMarked | resource_managers/hardvisor/manager.py:41-62 | granted machines are distinct, were available, match their demands and are marked for them; the rest is unchanged |
| Hardware.AllOrNothing | resource_managers/hardvisor/__init__.py:67-80 | a request is met by distinct matching machines exactly if there are enough; otherwise every machine is as it was, but for its last requestor |
| Hardware.CleanIsPointwise | resource_managers/hardvisor/periodically.py:39-50 | the reclaiming loop releases exactly the machines in use whose allocation is not active |
| Hardware.CleanedAs | resource_managers/hardvisor/periodically.py:39-50 | in a well-keyed table the pass frees a machine in use that has no allocation, or one that is not active, and leaves every other as it was |
| Hardware.ActiveAreSparedExactly | resource_managers/hardvisor/periodically.py:44-50 | it spares every machine of an active allocation exactly if none of those became active after it asked |
| HardwareRuns.CallsAreRuns | resource_managers/hardvisor/manager.py:41-76 | any sequence of uninterrupted `allocate` and `release` calls is a run of the step machine with the same table |
| HardwareRuns.UninterruptedClean | resource_managers/hardvisor/periodically.py:39-50 | the steps of a reclaiming pass with nothing in between do what the loop does, and end it |
| HardwareRuns.NeverOverwritten | resource_managers/hardvisor/manager.py:41-47 | in every interleaving of a well-keyed table an allocation writes over no machine in use |
| HardwareRuns.ExclusiveExactly | resource_managers/hardvisor/manager.py:55-62 | that holds for all interleavings exactly if the table is well keyed |
| HardwareRuns.GrantsLast | resource_managers/hardvisor/manager.py:55-76 | if releases of one machine never overlap and each starts while the grant it is meant for is in force, those of the reclaiming pass included, a grant lasts until its own release |
| HardwareRuns.DisciplineIsNeeded | resource_managers/hardvisor/manager.py:64-76 | from any orderly state, an allocation in progress or not, after any release that breaks the discipline some disciplined continuation ends a grant that is not its own |
| HardwareRuns.FreshGrantIsCleaned | resource_managers/hardvisor/periodically.py:44-50 | a machine granted after the pass asked for the active allocations can be freed by it again |
| Hardvisor.HardwareManager.UpdateMachines | resource_managers/hardvisor/redis_client.py:21-31 | the loop adds exactly the unknown machines, available and in no allocation, with the defaults of `RegisteredAs` |
| Hardvisor.HardwareManager.MatchingMachines | resource_managers/hardvisor/manager.py:24-30 | the machines of the architecture, in the hash's order |
| Hardvisor.HardwareManager.MatchReqsToAvailableMachine | resource_managers/hardvisor/manager.py:32-36 | the first machine that matches and is available |
| Hardvisor.HardwareManager.CheckAllocate | resource_managers/hardvisor/manager.py:38-39 | possible exactly if some machine, in use or not, has the architecture |
| Hardvisor.HardwareManager.ReserveMachine | resource_managers/hardvisor/manager.py:55-62 | the machine is marked and written under its own name |
| Hardvisor.HardwareManager.Allocate | resource_managers/hardvisor/manager.py:41-47 | an uninterrupted allocation, in place |
| Hardvisor.HardwareManager.Release | resource_managers/hardvisor/manager.py:64-76 | an uninterrupted release, in place; of an unknown machine, nothing |
| Hardvisor.HardwareManager.CleanDanglingHardware | resource_managers/hardvisor/periodically.py:39-50 | the reclaiming loop, in place |
| Hardvisor.HardVisor.ParseRequirements | resource_managers/hardvisor/__init__.py:24-41 | one demand per host, for `x86_64` unless it says otherwise |
| Hardvisor.HardVisor.Fulfill | resource_managers/hardvisor/__init__.py:67-80 | the request in place: it succeeds exactly if there is enough, and otherwise leaves every machine's use as it was |
| Dhcp.HostsExactly | resource_managers/hypervisor/vms/libvirt_wrapper.py:155-168 | the free hosts are exactly the unreserved addresses of the range, ascending |
| Dhcp.HighestIsChosen | resource_managers/hypervisor/vms/dhcp_handlers.py:119-129 | without a preference the highest free address is chosen, and one is chosen exactly if one is free |
| Dhcp.PreferenceExactly | resource_managers/hypervisor/vms/dhcp_handlers.py:124-127 | a preference is met exactly if it is in the range and unreserved |
| Dhcp.RefusedExactly | resource_managers/hypervisor/vms/dhcp_handlers.py:119-129 | a request is refused as out of addresses exactly if none is free, and as not free exactly if one is but the preference is not |
| Dhcp.ServedExactly | resource_managers/hypervisor/vms/libvirt_wrapper.py:122-135 | one that is not refused is served exactly if adding works for a new MAC, or modifying for a known one |
| Dhcp.AllocateIpExactly | resource_managers/hypervisor/vms/dhcp_handlers.py:115-133 | a served request moves the MAC to a free address of the range and nothing else, any other changes nothing, and addresses stay unshared |
| Dhcp.HeldIsRefused | resource_managers/hypervisor/vms/dhcp_handlers.py:124-126 | a request for an address that is held fails and changes nothing |
| Dhcp.ReallocationIsIdentity | resource_managers/hypervisor/vms/dhcp_handlers.py:161-168 | reallocating a MAC's own address leaves the table unchanged exactly if it is in the range; otherwise the reservation is lost |
| Dhcp.FailedReleaseBlocks | resource_managers/hypervisor/vms/dhcp_handlers.py:161-168 | if the release fails, the reallocation raises and changes nothing |
| Dhcp.RangeIsSharedOut | resource_managers/hypervisor/vms/libvirt_wrapper.py:155-168 | free addresses and reservations in the range add up to the range exactly if those reservations share no address |
| DhcpRuns.ReservationsStayApart | resource_managers/hypervisor/vms/dhcp_handlers.py:115-140 | over every run of serialized requests and unlocked releases, with any call failing, no address is shared, every new one is in the range, and free plus reserved is the whole range |
| DhcpRuns.CallsAreRuns | resource_managers/hypervisor/vms/dhcp_handlers.py:115-168 | any sequence of uninterrupted requests and releases is a run of the step machine with the same table |
| DhcpRuns.CallsStayApart | resource_managers/hypervisor/vms/dhcp_handlers.py:115-168 | so every such sequence keeps all of that |
| DhcpHandlers.LibvirtWrapper.GetNetworkDhcpInfo | resource_managers/hypervisor/vms/libvirt_wrapper.py:155-168 | the range less every reservation, in the table or out of the range, listed in order |
| DhcpHandlers.LibvirtWrapper.AddDhcpEntry | resource_managers/hypervisor/vms/libvirt_wrapper.py:122-135 | adding, and if that is refused modifying the MAC's entry; whether either worked |
| DhcpHandlers.LibvirtWrapper.RemoveDhcpEntry | resource_managers/hypervisor/vms/libvirt_wrapper.py:138-147 | deletes the MAC's entry, and raises if there is none |
| DhcpHandlers.LibvirtDHCPAllocator.AllocateIpSync | resource_managers/hypervisor/vms/dhcp_handlers.py:115-133 | an uninterrupted request, in place, with each of its errors |
| DhcpHandlers.LibvirtDHCPAllocator.ReallocateIp | resource_managers/hypervisor/vms/dhcp_handlers.py:161-168 | an uninterrupted reallocation, in place |

## Left out

- HyperVisor.HyperVisor.Fulfill: assumes that nothing else uses the allocator meanwhile and that rollback destroys succeed, since the code does not handle one that fails. A creation that ends by being cancelled inside `gather` counts as a failure here, while the code's filter lets a `CancelledError` through as a result.
- Restore.RoundTrip: assumes storage that is valid, unchanged network sources, PCI addresses that identify devices and DHCP that raises nothing but timeouts; the reallocation inside it is an oracle, not the reservation table of `Dhcp`.
- LeaseRuns.NoMachineForgotten: counts deleted records; machines that leave a record which stays are the subject of `LeaseMachines.MachinesAreAccounted`. In both, each request, release and pass is uninterrupted and only heartbeats interleave with them, and with several managers a record never lists the machines of more than one.
- LeaseClock.NeverReclaimed: whole-second clocks shared by the provisioner and the heartbeat server; the calls to `time.time()` in one visit to a record are one instant.
- Reclaim.TwoPassesReclaim: counts passes that no malformed reply cuts short, since such a pass leaves what it has scheduled unsettled; each pass is uninterrupted.
- HardwareRuns.GrantsLast: the active allocations that the reclaiming pass is told are an oracle.
- Provisioner.Fulfiller.Fulfill: the managers' answers arrive as arguments; the lookup of managers and the removal of dead ones are not modelled, nor are messages, users and keys in a record, which are only carried along. `fulfill_lock` belongs to an object made for each message and excludes nothing, so it is not modelled.
- Hardware.AllOrNothing: the machine's address, interfaces, GPU, CPU and type entries are only carried along and left out, since matching looks at the architecture alone.
- DhcpRuns.ReservationsStayApart: libvirt's own behaviour is taken to be that adding is refused for a known MAC or address and that modifying matches by MAC; one allocator object per network.
- Concurrent uses of a VM's lock by the update and status handlers, and of one VM's storage, CPU, memory, disks, image and identifiers.
- Storage creation and deletion, domain XML, cloud-init, PCI binding, network set-up and all other I/O: they are outcomes that an oracle decides.
- Atomicity of a dictionary under threads: everything but the DHCP calls runs on one event loop.
- The handlers that answer whether a request could be served in theory: they only collect what `check_allocate` says of each demand.
- The packet-building DHCP client, the cloud resource manager, the jobs, claim and volunteer endpoints, command-line tools, logging and deployment files.
- A multi-manager request's completeness: the code records only the machines of the last manager that allocated.
