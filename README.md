# Fleet host liveness, host store, carve store and software inventory

A Dafny model of part of Fleet's server, which manages osquery agents:

- **Host liveness** (`hosts.dfy`, module `Fleet`). `Status` classifies a host by how long ago it was last seen. A host is MIA after 30 days of silence. It is offline once it is silent for longer than its online interval: the smaller of its distributed interval and its TLS config refresh, plus a 30-second buffer. Otherwise it is online. `IsNew` says whether the host enrolled within the last 24 hours. That flag is independent of the other three statuses. `GenerateHostStatusStatistics` counts a set of hosts by status.
- **Host store** (`hosts.dfy`, class `Fleet.HostStore`). The abstract store's contract is modelled over a map from host id to host. That covers:
  - enrollment with a per-identifier cooldown;
  - lookup by id and by node key;
  - marking hosts seen;
  - moving hosts between teams;
  - deleting a host;
  - cleaning up "incoming" hosts that enrolled but never reported a hostname or an osquery version.

  Each state-changing method is tied to a pure function of the old state (`Enroll`, `MarkedSeen`, `WithTeam`, `WithoutIncoming`). The properties are proved about those functions.
- **Carve store** (`carves.dfy`, class `Carves.CarveStore`). This models the store of file carves and their data blocks as the datastore tests use it:
  - creating a carve; a session opens with no block written, so MaxBlock is -1;
  - lookup by id, session id and name;
  - writing blocks, which raises MaxBlock;
  - reading blocks;
  - expiring carves older than a day, which also drops their blocks;
  - listing carves with or without the expired ones;
  - updating a carve, which writes only Expired and MaxBlock.
- **Software inventory** (`software.dfy`, module `Inventory`). Each host's installed software is stored as a set of (name, version, source) items. Saving a modified report reconciles the stored set with a delete-then-insert diff. Loading replaces the host's in-memory list with the stored items, unmarked.
- **Scenarios** (`scenarios.dfy`). Client methods that replay the datastore's carve and software tests. Each assertion in them is derived from the stores' contracts.

Instants and durations are integer nanoseconds (`common.dfy`, module `Durations`), as Go's `time.Time` and `time.Duration` are.

## Model

| member | source | states |
|---|---|---|
| Fleet.OnlineInterval | server/fleet/hosts.go:215-221 | the online interval is the smaller of DistributedInterval and ConfigTLSRefresh, plus the 30-second buffer |
| Fleet.Status | server/fleet/hosts.go:210-231 | the liveness status is never "new"; newness is a separate flag |
| Fleet.StatusByAge | server/fleet/hosts.go:223-230 | MIA iff silent for more than 30 days; offline iff not MIA and silent for more than the online interval in seconds; online iff silent for at most both |
| Fleet.StatusAtDeadlines | server/fleet/hosts.go:224-226 | the comparisons are strict: exactly 30 days of silence is not MIA, and exactly the online interval is not offline |
| Fleet.StatusOnlyMovesForward | server/fleet/hosts.go:223-230 | as time passes without a check-in, a MIA host stays MIA and an offline host never turns online again |
| Fleet.IsNew | server/fleet/hosts.go:233-240 | a host is new iff at most 24 hours have passed since it was created, the 24-hour instant included |
| Fleet.NewIsIndependentOfStatus | server/fleet/hosts.go:18-20 | newness depends only on the creation time, and status depends only on the seen time and the intervals |
| Fleet.NewAndMIAAtOnce | server/fleet/hosts.go:18-20 | a host created an hour ago but last seen 40 days ago is both new and MIA |
| Fleet.GenerateHostStatusStatistics | server/fleet/hosts.go:65-67 | each host counts once as online, offline or MIA, so those three add up to the host count; the new count is at most the host count |
| Fleet.Enroll | server/fleet/hosts.go:43-47 | enrollment is throttled iff a host with the identifier enrolled less than the cooldown ago; otherwise the host gets the node key, team and enrollment time, keeps its id if it existed and takes the next id as an incoming host if not, and no other host changes |
| Fleet.EnrollmentCooldown | server/fleet/hosts.go:43-47 | re-enrolling the same identifier is refused iff the cooldown is positive and has not yet elapsed; otherwise it keeps the host's id, and a new node key replaces the old one |
| Fleet.HostStore.EnrollHost | server/fleet/hosts.go:43-47 | the store's new state and result are those of Enroll on the old state, and the store stays well formed |
| Fleet.HostStore.Host | server/fleet/hosts.go:42 | returns the host with the id, or a not-found error when there is none |
| Fleet.HostStore.AuthenticateHost | server/fleet/hosts.go:49-53 | returns a stored host with the node key, and fails with not-found iff no host has it |
| Fleet.MarkedSeen | server/fleet/hosts.go:54-55 | the listed hosts get the new seen time and nothing else changes; unlisted hosts are untouched |
| Fleet.SeenHostsAreOnline | server/fleet/hosts.go:54-55 | a host marked seen at t is online at t |
| Fleet.HostStore.MarkHostsSeen | server/fleet/hosts.go:55 | the store becomes MarkedSeen of its old hosts |
| Fleet.HostStore.MarkHostSeen | server/fleet/hosts.go:54 | the store becomes MarkedSeen of its old hosts for that one host |
| Fleet.WithTeam | server/fleet/hosts.go:74-76 | the listed hosts move to the team, and a missing team clears their team; other hosts are untouched |
| Fleet.HostStore.AddHostsToTeam | server/fleet/hosts.go:74-76 | the store becomes WithTeam of its old hosts |
| Fleet.WithoutIncoming | server/fleet/hosts.go:57-64 | every incoming host (empty hostname and osquery version) created more than the grace period ago is removed; nothing else is removed, every host that is not incoming is kept, and kept hosts are unchanged |
| Fleet.CleanupIsIdempotent | server/fleet/hosts.go:57-64 | a second cleanup at the same instant removes nothing more |
| Fleet.HostStore.CleanupIncomingHosts | server/fleet/hosts.go:57-64 | the store becomes WithoutIncoming of its old hosts, so every stale incoming host leaves it and no other host does |
| Fleet.HostStore.DeleteHost | server/fleet/hosts.go:41 | removes exactly the host with the id, or fails with not-found and changes nothing |
| Carves.FirstMatch | server/datastore/mysql/carves_test.go:39-45 | a lookup finds the first stored carve matching the key, or reports that none matches |
| Carves.LookupsAgree | server/datastore/mysql/carves_test.go:39-45 | a stored carve reads back whole by its id and by its session id, and by its name when no earlier carve shares the name |
| Carves.FirstMatchFollowsMatches | server/datastore/mysql/carves_test.go:53-59 | changing fields a key does not look at leaves the lookup's answer unchanged |
| Carves.CarveStore.NewCarve | server/datastore/mysql/carves_test.go:34-37 | a new session gets a fresh non-zero id, MaxBlock -1 and not expired, and is appended; an existing session id is refused and the store is unchanged |
| Carves.CarveStore.Find | server/datastore/mysql/carves_test.go:39-45 | the scan returns the first match, as FirstMatch defines it |
| Carves.CarveStore.Carve | server/datastore/mysql/carves_test.go:43-45 | reads the carve by id, or fails with not-found |
| Carves.CarveStore.CarveBySessionId | server/datastore/mysql/carves_test.go:39-41 | reads the carve by session id, or fails with not-found |
| Carves.CarveStore.CarveByName | server/datastore/mysql/carves_test.go:71-74 | reads the carve by name, or fails with not-found |
| Carves.WithBlockRecorded | server/datastore/mysql/carves_test.go:47-65 | writing a block raises the carve's MaxBlock to the block index when that is larger and changes nothing else |
| Carves.CarveStore.NewBlock | server/datastore/mysql/carves_test.go:49-65 | a write to a missing or expired carve, or with an index outside 0 to BlockCount-1, fails and changes nothing; otherwise the data is stored under (carve, index) and MaxBlock is recorded; every stored block keeps belonging to a stored carve, within its block count |
| Carves.WriteThenRead | server/datastore/mysql/carves_test.go:100-117 | a written block reads back exactly as written, and writing it leaves every other block's read unchanged |
| Carves.ReadBlockWithinCount | server/datastore/mysql/carves_test.go:112-117 | in a store whose blocks all belong to stored carves, a read succeeds only for an index within the carve's declared block count |
| Carves.CarveStore.GetBlock | server/datastore/mysql/carves_test.go:113-117 | reads the stored block of a live carve, or fails |
| Carves.Swept | server/datastore/mysql/carves_test.go:163-173 | the sweep marks expired exactly the carves already expired or created more than a day before; no other field changes |
| Carves.ExpiryCount | server/datastore/mysql/carves_test.go:156-165 | the sweep reports zero iff no carve is due for expiry, and never more than the carve count |
| Carves.WithoutBlocksOf | server/datastore/mysql/carves_test.go:167-169 | the blocks of the expired carves are dropped and every other block is kept unchanged |
| Carves.SweepIsIdempotent | server/datastore/mysql/carves_test.go:163-165 | after a sweep nothing is due any more, and a second sweep changes nothing |
| Carves.SweepWithinWindowExpiresNothing | server/datastore/mysql/carves_test.go:156-161 | a sweep within a day of every creation expires nothing and leaves the carves as they were |
| Carves.SweptCarveUnreadable | server/datastore/mysql/carves_test.go:167-173 | after a carve is swept its blocks no longer read, and it still reads back by id, marked expired |
| Carves.CarveStore.CleanupCarves | server/datastore/mysql/carves_test.go:156-173 | the store becomes the swept carves without their blocks, and returns how many carves it expired |
| Carves.NonExpired | server/datastore/mysql/carves_test.go:228-230 | the listing without expired carves holds exactly the stored carves that are not expired |
| Carves.NonExpiredKeepsOrder | server/datastore/mysql/carves_test.go:220-230 | that listing keeps the store's ascending id order |
| Carves.CarveStore.ListCarves | server/datastore/mysql/carves_test.go:220-234 | listing with expired carves returns every carve in insertion order; listing without them returns NonExpired |
| Carves.Updated | server/datastore/mysql/carves_test.go:259-268 | an update writes only Expired and MaxBlock of the carve with the id, keeps its stored block count, and leaves other carves alone |
| Carves.CarveStore.UpdateCarve | server/datastore/mysql/carves_test.go:259-268 | the store's carves become Updated of the old carves; the blocks are unchanged |
| Inventory.Reconciled | server/datastore/mysql/software_test.go:38-51 | applying the delete-then-insert diff leaves exactly the reported set stored |
| Inventory.DiffTouchesOnlyChanges | server/datastore/mysql/software_test.go:53-76 | the diff deletes no item still reported and inserts none already stored, and an unchanged report writes nothing |
| Inventory.AfterSave | server/datastore/mysql/software_test.go:68-81 | after a save the host holds exactly its reported items, and every other host keeps its own |
| Inventory.VersionsAreDistinctItems | server/datastore/mysql/software_test.go:20-26 | two versions of the same name and source are two items |
| Inventory.SameItemsMatch | server/datastore/mysql/software_test.go:43-46 | two duplicate-free lists with the same items match element for element in any order |
| Inventory.ListOf | server/datastore/mysql/software_test.go:43-46 | a load lists each stored item exactly once |
| Inventory.SoftwareStore.SaveHostSoftware | server/datastore/mysql/software_test.go:38-41 | a modified report is reconciled into the store and the mark is cleared; an unmodified one is not saved |
| Inventory.SoftwareStore.LoadHostSoftware | server/datastore/mysql/software_test.go:43-46 | the host's list becomes the stored items, each once, with Modified false |
| InventoryScenarios.SaveThenLoad | server/datastore/mysql/software_test.go:38-46 | saving a report and loading it back gives an unmarked list matching the report item for item |

## Left out

- Fleet.Status: the Go code adds the 30-second buffer to an unsigned interval and multiplies it by a second in a 64-bit Duration. Integers are unbounded here, so wrap-around on absurd intervals is not modelled.
- Fleet.Status: the comparisons follow the code's `Before`, which is strict. A host silent for exactly 30 days is not MIA, and one silent for exactly its online interval is not offline. A reading with `>=` would differ only at those instants.
- Fleet.GenerateHostStatusStatistics: it counts an in-memory sequence of hosts. The SQL query, the team filter and the error return are not modelled.
- Fleet.HostStore.CleanupIncomingHosts: how old an incoming host must be before it is removed is a parameter (`grace`). The interface does not fix it, and it lies in the SQL implementation, which is not part of this model.
- Fleet.Enroll: the cooldown throttles when the earlier enrollment lies strictly within it. A cooldown of zero or less never throttles.
- NewHost (deprecated), SaveHost, ListHosts, SearchHosts, HostIDsByName, HostByIdentifier and SaveHostAdditional are not modelled. They are SQL queries over filters, search text, pagination and additional-query JSON, and no contract beyond storage is given for them.
- Team filters, the Host record's hardware, network and label fields, and JSON encoding are not modelled.
- Carves.CarveStore.NewBlock: the Go datastore receives the caller's metadata pointer. The model takes the carve id, and the caller re-reads the stored metadata; updating the caller's copy in place is not modelled.
- Carves.CarveStore.NewBlock: the tests only exercise accepted writes. Refusing a write to an expired carve (CarveExpired) is a choice of this model. Refusing an index outside 0 to BlockCount-1 (InvalidBlockIndex) follows the store's validation of block indices. Neither error is fixed by the tests.
- Carves.CarveStore.CleanupCarves: a carve is due when it was created strictly more than 24 hours before the sweep instant. The tests only fix instants well inside and well past that bound.
- Carves.CarveStore.NewCarve: the tests do not fix the error for a duplicate session id. The model reports DuplicateSession and changes nothing.
- Inventory.SoftwareStore.LoadHostSoftware: the order of the loaded list is left open. The tests compare element for element, ignoring order and row ids, and row ids are not modelled.
- Concurrency, transactions, SQL errors, database connections and the random block contents of the tests are not modelled. The stores never fail for those reasons here.
