# Impala's simple scheduler, modelled in Dafny

This project models the locality-aware assignment engine of Impala's
`SimpleScheduler` (`be/src/statestore/simple-scheduler.h`). The scheduler keeps
a locality map (`host_map_`) from a host IP to the list of backends (impalad
addresses) running on that host. Each data location is matched to a backend:

- A location whose host string is a key of the map gets the front backend of
  that list. That backend then goes to the back of the list, so consecutive
  requests for one host cycle through the host's backends.
- Any other location gets a backend from the entry under the round-robin
  iterator `next_nonlocal_host_entry_`. The iterator then moves on to the
  next entry and wraps around after the last one.
- Two locality counters record how many locations were served and how many
  of those were served locally.

The map is rebuilt from scratch whenever the set of backends changes, and the
round robin restarts at the first entry after every rebuild.

The project has four modules:

- `HostTable` (`host_table.dfy`) holds the data:
  - `Addr` is a host/port address.
  - `Table` holds the groups, the key order the iterator walks, and the cursor.
  - `Build` rebuilds a table from a backend list.
  - `Rotate` moves a group's front backend to its back.
  - `Flatten` lists every backend in key order.
- `Assignment` (`assignment.dfy`) is the assignment policy as functions:
  - `PickOne` serves one location.
  - `Assign` serves a batch in input order.
  - Lemmas prove locality, round-robin fairness (local and fallback), the
    reset on rebuild, and counter accounting.
- `SimpleScheduler` (`scheduler.dfy`) is the scheduler object:
  - The class `Scheduler` has the map, key order, cursor and both counters as
    fields.
  - Its methods update those fields in place, and each is proved against the
    functions above.
- `Example` (`example.dfy`) works through concrete scenarios:
  - Backends A and B are on 10.0.0.1 and C is on 10.0.0.2.
  - The batch is two locations on 10.0.0.1, then one on 10.0.0.3.
  - The result is `[A, B, A]`: two of the three are local and the cursor ends
    on the second entry.
  - With the unknown host in the middle of the batch, the result is also
    `[A, B, A]`, because the fallback takes B from 10.0.0.1's group.

## Model

| member | source | states |
|---|---|---|
| HostTable.Build | be/src/statestore/simple-scheduler.h:80-85 | a rebuilt table is well formed: keys unique and listed once each, no empty group, cursor at the first entry |
| HostTable.BuildGroups | be/src/statestore/simple-scheduler.h:80-85 | after a rebuild a host has an entry exactly when some backend runs on it, and its group is exactly the backends on that host in membership order |
| HostTable.BuildKeepsBackends | be/src/statestore/simple-scheduler.h:118-119 | a rebuild neither loses nor duplicates a backend: all groups together hold the multiset of the membership list |
| HostTable.Rotate | be/src/statestore/simple-scheduler.h:54-55 | moving a group's front backend to its back keeps the group's length; `RotateMoves` states the move itself |
| HostTable.RotateKeepsCycle | be/src/statestore/simple-scheduler.h:54-55 | rotating a group that is a turned-round copy of another gives another turned-round copy of it |
| HostTable.Flatten | be/src/statestore/simple-scheduler.h:66 | the list of known backends contains every listed key's group; `FlattenMembers` states that it contains nothing else |
| HostTable.RotateMoves | be/src/statestore/simple-scheduler.h:54-55 | rotating a group moves its front backend to the back, shifts the others forward by one, and keeps the same multiset of backends |
| HostTable.OnHost | be/src/statestore/simple-scheduler.h:80-83 | the backends on a host are exactly the members of the list whose host field equals it |
| HostTable.FlattenMembers | be/src/statestore/simple-scheduler.h:66 | a backend is listed exactly when some key's group holds it |
| Assignment.Next | be/src/statestore/simple-scheduler.h:94-95 | the round-robin entry advances by one modulo the number of entries, wrapping to the first after the last |
| Assignment.PickOne | be/src/statestore/simple-scheduler.h:54-57 | serving one location keeps the table well formed, with the same key order |
| Assignment.PickOneChoice | be/src/statestore/simple-scheduler.h:54-57 | a pick is local exactly when the host string is a key; a local pick takes that group's front backend and leaves the cursor alone; any other pick takes the front of the entry under the cursor and advances the cursor with wrap-around; only the group picked from is rotated, and no group changes its members |
| Assignment.Assign | be/src/statestore/simple-scheduler.h:52-53 | one backend per location, and no more local assignments than locations; the table stays well formed with the same key order |
| Assignment.AssignAt | be/src/statestore/simple-scheduler.h:52-55 | the i-th result is what serving the i-th location gives, from the table left by the locations before it: the output is aligned with the input and produced in input order |
| Assignment.AssignKeepsMembers | be/src/statestore/simple-scheduler.h:54-57 | after any batch, each group holds the same backends as before, and is its original turned round by some number of places, so its cyclic order is never disturbed |
| Assignment.AssignKeepsKnownHosts | be/src/statestore/simple-scheduler.h:66 | after any batch, the known backends are the same multiset as before |
| Assignment.LocalAssignmentIsLocal | be/src/statestore/simple-scheduler.h:54-55 | a location whose host has an entry is given a backend from that host's group |
| Assignment.AssignedIsKnown | be/src/statestore/simple-scheduler.h:56-57 | every assigned backend is one of the known backends |
| Assignment.LocalCountMatches | be/src/statestore/simple-scheduler.h:111-113 | the local count of a batch is the number of its locations whose host string is a key of the table |
| Assignment.SingleIsPick | be/src/statestore/simple-scheduler.h:61-64 | a batch of one location gives exactly the pick for that location |
| Assignment.LocalRoundRobin | be/src/statestore/simple-scheduler.h:54-55 | n requests (n at most the group size) for a host with an entry return the first n backends of its group in order; the group is rotated by n; the cursor is unchanged; all n are local |
| Assignment.LocalFullRound | be/src/statestore/simple-scheduler.h:54-55 | as many requests as the host has backends return each of them exactly once, in group order, and leave the group as it was |
| Assignment.FallbackRoundRobin | be/src/statestore/simple-scheduler.h:56-57 | n non-local requests (n at most the number of entries) return the front backends of n consecutive entries from the cursor, wrapping around; the cursor moves on by n; exactly those n groups are rotated once; none of the n is local |
| Assignment.RebuildRestartsRoundRobin | be/src/statestore/simple-scheduler.h:58 | right after a rebuild, the j-th of up to m non-local requests goes to the j-th host of the new table, taking its front backend |
| SimpleScheduler.ServeOne | be/src/statestore/simple-scheduler.h:54-57 | serving one location from the table's parts gives the same backend, locality and new table as `PickOne` |
| SimpleScheduler.AssignAll | be/src/statestore/simple-scheduler.h:52-57 | serving a batch from the table's parts gives the same backends, local count and new table as `Assign` |
| SimpleScheduler.Scheduler.Dynamic | be/src/statestore/simple-scheduler.h:40-43 | dynamic mode starts with an empty table and zero counters |
| SimpleScheduler.Scheduler.Static | be/src/statestore/simple-scheduler.h:45-48 | static mode starts with the table built from the fixed backend list and zero counters |
| SimpleScheduler.Scheduler.UpdateMembership | be/src/statestore/simple-scheduler.h:118-119 | the fields hold exactly the table rebuilt from the new backend list, with the cursor reset; the counters are unchanged |
| SimpleScheduler.Scheduler.GetHosts | be/src/statestore/simple-scheduler.h:52-59 | with locations and no backend, it fails with NoBackendsAvailable and changes nothing; otherwise it returns `Assign`'s backends, leaves `Assign`'s table, and adds the batch size to the total counter and the local count to the local counter |
| SimpleScheduler.Scheduler.GetHost | be/src/statestore/simple-scheduler.h:61-64 | fails with NoBackendsAvailable on an empty table and changes nothing; otherwise returns `PickOne`'s backend, leaves its table, and adds one to the total counter and one to the local counter exactly when the pick is local |
| SimpleScheduler.Scheduler.HasLocalHost | be/src/statestore/simple-scheduler.h:68-71 | true exactly when the literal host string is a key; on a non-empty table, exactly when an assignment of that location would be local; it reads and changes nothing else |
| SimpleScheduler.Scheduler.GetAllKnownHosts | be/src/statestore/simple-scheduler.h:66 | returns every group concatenated in key order; a backend is listed exactly when some group holds it |
| Example.ExampleTable | be/src/statestore/simple-scheduler.h:80-85 | backends A, B on 10.0.0.1 and C on 10.0.0.2 build the table {10.0.0.1: [A, B], 10.0.0.2: [C]}, keyed in first-appearance order |
| Example.ExampleFirst | be/src/statestore/simple-scheduler.h:54-55 | the first request for 10.0.0.1 gets A, is local, and leaves the group as [B, A] |
| Example.ExampleSecond | be/src/statestore/simple-scheduler.h:54-55 | the second request for 10.0.0.1 gets B, and the group is back to [A, B] |
| Example.ExampleKeys | be/src/statestore/simple-scheduler.h:58 | no batch changes the key order, and there is never a key for 10.0.0.3 |
| Example.ExampleScenario | be/src/statestore/simple-scheduler.h:52-57 | the batch [10.0.0.1, 10.0.0.1, 10.0.0.3] is served as [A, B, A], two of them locally, and the cursor ends on the second entry |
| Example.ExampleInterleavedFallback | be/src/statestore/simple-scheduler.h:56-57 | after a request for 10.0.0.1 takes A, a request for 10.0.0.3 falls back to 10.0.0.1's entry and takes B, restoring the group to [A, B] and moving the cursor on |
| Example.ExampleInterleaved | be/src/statestore/simple-scheduler.h:52-57 | the batch [10.0.0.1, 10.0.0.3, 10.0.0.1] is served as [A, B, A]: both local requests get A |

## Left out

- Locking: `host_map_lock_` (be/src/statestore/simple-scheduler.h:90-92) guards the map against the asynchronous `UpdateMembership` (be/src/statestore/simple-scheduler.h:118-119). The model has no concurrency, and every method runs as one atomic step on the object.
- `SimpleScheduler.Scheduler.HasLocalHost`: the inline source (be/src/statestore/simple-scheduler.h:68-71) reads `host_map_` without taking `host_map_lock_`. A lookup concurrent with `UpdateMembership` may therefore race with the rebuild. The sequential model cannot show this race; it gives the answer of a lookup made between two whole calls.
- `SimpleScheduler.Scheduler.GetHosts`: the per-location updates are made to local copies of the map and cursor, which are stored back into the fields at the end of the call. The source updates the fields in place under the lock, where no other caller can see the difference.
- `Init`, `Close` and the subscription fields (be/src/statestore/simple-scheduler.h:73-77, 97-109) are left out. Registration with the subscription manager is I/O with an external service.
- `UpdateMembership` takes the already-extracted list of backends. The decoding of the statestore's `ServiceStateMap` is not part of this model.
- The metrics object and the `initialised_` flag (be/src/statestore/simple-scheduler.h:87-88, 112-116) are left out.
- The two counters are plain unbounded naturals. The 64-bit width of the metric is not modelled.
- `TNetworkAddress` is modelled as a host string and an integer port. The Thrift type's other fields and its wire format are left out.
- Hostname resolution of static-mode backends is left out. Backends are grouped under their host field as given.
- `host_map_` is a `boost::unordered_map`, whose iteration order is implementation-defined. The model fixes it as the order in which each host's first backend appears in the membership list. Within a group, backends keep their order in that list.
- Source file `simple-scheduler.cc` is not part of this model, so behaviour that only the header's comments describe was decided as follows:
  - An empty batch returns an empty result, even on an empty table.
  - A non-empty batch on an empty table fails with `NoBackendsAvailable` and changes nothing.
  - A non-local pick also moves the chosen backend to the back of its group. Round robin then reaches every backend of every host, as "to any of the backends" (be/src/statestore/simple-scheduler.h:56-57) asks. As a consequence, a non-local location can take a backend from a host's group in the middle of a batch: with backends A, B on 10.0.0.1, the batch [10.0.0.1, 10.0.0.3, 10.0.0.1] starting with the cursor on 10.0.0.1 is served as [A, B, A], so the two local requests both get A (`Example.ExampleInterleaved`).
