/**
 * Clients of the carve store that replay the datastore's carve tests: each
 * assertion below is one the tests make, derived from the store's contracts
 * alone.
 */
module CarveScenarios {
  import opened Results
  import opened Durations
  import opened Carves

  /** A new carve reads back by session id, id and name, and its MaxBlock
      follows the blocks written: -1, then 0, then 1. */
  method CarveMetadataScenario(hostID: nat, createdAt: Time)
  {
    var ds := new CarveStore();
    var expected := CarveMetadata(0, hostID, "foobar", 10, 12, 123, "carve_id", "request_id", "session_id",
                                  createdAt, 0, false);
    var created := ds.NewCarve(expected);
    expected := created.value.(MaxBlock := -1);
    assert expected.ID != 0;

    var carve := ds.CarveBySessionId(expected.SessionId);
    assert carve == Ok(expected);
    carve := ds.Carve(expected.ID);
    assert carve == Ok(expected);

    var written := ds.NewBlock(expected.ID, 0, []);
    assert written == Pass;
    expected := expected.(MaxBlock := 0);
    carve := ds.CarveBySessionId(expected.SessionId);
    assert carve == Ok(expected);
    carve := ds.Carve(expected.ID);
    assert carve == Ok(expected);

    written := ds.NewBlock(expected.ID, 1, []);
    assert written == Pass;
    expected := expected.(MaxBlock := 1);
    carve := ds.CarveBySessionId(expected.SessionId);
    assert carve == Ok(expected);
    carve := ds.CarveByName(expected.Name);
    assert carve == Ok(expected);
  }

  /** Blocks 0 to N-1 written in order read back exactly as written, and
      MaxBlock ends at N-1. */
  method CarveBlocksScenario(hostID: nat, createdAt: Time, payload: seq<seq<Byte>>)
  {
    var ds := new CarveStore();
    var n := |payload|;
    var created := ds.NewCarve(CarveMetadata(0, hostID, "foobar", n, 30, n * 30, "carve_id", "request_id",
                                             "session_id", createdAt, 0, false));
    var id := created.value.ID;

    var i := 0;
    while i < n
      invariant 0 <= i <= n
      invariant ds.Valid() && |ds.carves| == 1
      invariant ds.carves[0].ID == id && ds.carves[0].BlockCount == n && !ds.carves[0].Expired
      invariant ds.carves[0].MaxBlock == i - 1
      invariant forall j :: 0 <= j < i ==> ReadBlock(ds.carves, ds.blocks, id, j) == Ok(payload[j])
      modifies ds
    {
      ghost var before, blocksBefore := ds.carves, ds.blocks;
      assert FirstMatch(before, ByID(id)) == 0;
      var written := ds.NewBlock(id, i, payload[i]);
      assert written == Pass;
      forall j | 0 <= j <= i
        ensures ReadBlock(ds.carves, ds.blocks, id, j) == Ok(payload[j])
      {
        WriteThenRead(before, blocksBefore, id, i, payload[i], id, j);
      }
      i := i + 1;
    }
    assert n > 0 ==> ds.carves[0].MaxBlock == n - 1;

    for j := 0 to n
      modifies {}
    {
      var data := ds.GetBlock(id, j);
      assert data == Ok(payload[j]);
    }
  }

  /** A sweep within a day of creation expires nothing and blocks stay
      readable; a sweep a day later expires the carve, its blocks stop
      reading, and its metadata reads back marked expired. */
  method CarveCleanupScenario(hostID: nat, createdAt: Time, now: Time, block: seq<Byte>)
    requires now - RetentionWindow <= createdAt < now
  {
    var ds := new CarveStore();
    var created := ds.NewCarve(CarveMetadata(0, hostID, "foobar", 25, 30, 750, "carve_id", "request_id",
                                             "session_id", createdAt, 0, false));
    var id := created.value.ID;
    var written := ds.NewBlock(id, 0, block);
    assert written == Pass;

    var expired := ds.CleanupCarves(now);
    assert expired == 0;
    var data := ds.GetBlock(id, 0);
    assert data == Ok(block);

    expired := ds.CleanupCarves(now + 24 * Hour);
    assert expired == 1;
    data := ds.GetBlock(id, 0);
    assert data.Err?;
    var carve := ds.Carve(id);
    assert carve.Ok? && carve.value.Expired;
  }

  /** Listing with expired carves included returns every carve in insertion
      order with its declared size; after both expire, the listing without
      expired carves is empty and the one with them still has both. */
  method CarveListScenario(hostID: nat, createdAt: Time, now: Time)
    requires createdAt < now
  {
    var ds := new CarveStore();
    var first := CarveMetadata(0, hostID, "foobar", 10, 12, 113, "carve_id", "request_id", "session_id",
                               createdAt, -1, false);
    var created := ds.NewCarve(first);
    first := created.value;
    var written := ds.NewBlock(first.ID, 0, []);
    assert written == Pass;
    first := first.(MaxBlock := 0);

    var second := CarveMetadata(0, hostID, "foobar2", 42, 13, 42 * 13, "carve_id2", "request_id2",
                                "session_id2", createdAt, 0, false);
    created := ds.NewCarve(second);
    assert created.Ok?;
    second := created.value.(MaxBlock := -1);

    var listed := ds.ListCarves(CarveListOptions(true));
    assert listed == [first, second];
    assert listed[0].CarveSize == 113;

    var expired := ds.CleanupCarves(now + 24 * Hour);
    listed := ds.ListCarves(CarveListOptions(false));
    assert ds.carves[0].Expired && ds.carves[1].Expired;
    assert listed == [];
    listed := ds.ListCarves(CarveListOptions(true));
    assert |listed| == 2;
  }

  /** An update persists Expired and MaxBlock (even a MaxBlock equal to the
      block count) and leaves the block count as stored. */
  method CarveUpdateScenario(hostID: nat, createdAt: Time)
  {
    var ds := new CarveStore();
    var created := ds.NewCarve(CarveMetadata(0, hostID, "foobar", 10, 20, 200, "carve_id", "request_id",
                                             "session_id", createdAt, 0, false));
    var carve := created.value.(Expired := true, MaxBlock := 10, BlockCount := 15);
    ds.UpdateCarve(carve);

    carve := carve.(BlockCount := 10);
    var stored := ds.Carve(carve.ID);
    assert stored == Ok(carve);
  }
}

/**
 * A client of the software inventory that replays the datastore's software
 * test on two hosts.
 */
module InventoryScenarios {
  import opened Inventory

  const Foo1 := Software("foo", "0.0.1", "chrome_extensions")
  const Foo2 := Software("foo", "0.0.2", "chrome_extensions")
  const Foo3 := Software("foo", "0.0.3", "chrome_extensions")
  const Bar3 := Software("bar", "0.0.3", "deb_packages")
  const Towel := Software("towel", "42.0.0", "apps")

  /** Saves a modified report for the host and loads it back: the loaded
      list is unmarked and matches the report item for item. */
  method SaveThenLoad(store: SoftwareStore, host: HostRecord, report: seq<Software>)
    requires Distinct(report)
    modifies store, host
    ensures store.installed == AfterSave(old(store.installed), host.ID, report)
    ensures !host.HostSoftware.Modified
    ensures multiset(host.HostSoftware.Software) == multiset(report)
  {
    host.HostSoftware := HostSoftware(true, report);
    store.SaveHostSoftware(host);
    store.LoadHostSoftware(host);
    SameItemsMatch(report, host.HostSoftware.Software);
  }

  /** The reports of the test carry no duplicates. */
  lemma ReportsAreDistinct()
    ensures Distinct([Foo1, Foo3]) && Distinct([Foo2, Foo3, Bar3])
    ensures Distinct([Foo1, Foo3, Towel]) && Distinct([Foo3, Towel])
  {
  }

  /** Two hosts report lists sharing an item; then host 1 gains an item while
      host 2 reports nothing; then host 1 drops an item. Each load matches the
      host's last report, whatever the other host saved. */
  method SaveHostSoftwareScenario()
  {
    var store := new SoftwareStore();
    var host1 := new HostRecord(1, HostSoftware(false, []));
    var host2 := new HostRecord(2, HostSoftware(false, []));
    ReportsAreDistinct();

    SaveThenLoad(store, host1, [Foo1, Foo3]);
    SaveThenLoad(store, host2, [Foo2, Foo3, Bar3]);

    SaveThenLoad(store, host1, [Foo1, Foo3, Towel]);
    SaveThenLoad(store, host2, []);
    assert |host2.HostSoftware.Software| == 0;

    SaveThenLoad(store, host1, [Foo3, Towel]);
    assert Foo1 !in store.installed[1];
  }
}
