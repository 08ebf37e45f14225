/**
 * The carve store: metadata of chunked file-transfer sessions ("carves") and
 * their blocks. Each session opens with no block received, takes blocks in
 * any order, and is expired by a time-based sweep that keeps its metadata
 * but drops its blocks.
 */
module Carves {
  import opened Results
  import opened Durations

  type Byte = bv8

  /** Carves older than this are expired by the sweep. */
  const RetentionWindow: Duration := 24 * Hour

  /** Metadata of one carve session. MaxBlock is the highest block index
      received, or -1 before any. */
  datatype CarveMetadata = CarveMetadata(
    ID: nat,
    HostId: nat,
    Name: string,
    BlockCount: int,
    BlockSize: int,
    CarveSize: int,
    CarveId: string,
    RequestId: string,
    SessionId: string,
    CreatedAt: Time,
    MaxBlock: int,
    Expired: bool)

  /** Listing options: `Expired` asks for expired carves to be included. */
  datatype CarveListOptions = CarveListOptions(Expired: bool)

  datatype CarveError = NotFound | DuplicateSession | CarveExpired | InvalidBlockIndex

  /** The three keys a carve can be looked up by. */
  datatype CarveKey = ByID(id: nat) | BySessionId(sessionId: string) | ByName(name: string)

  predicate Matches(c: CarveMetadata, key: CarveKey)
  {
    match key
    case ByID(id) => c.ID == id
    case BySessionId(s) => c.SessionId == s
    case ByName(n) => c.Name == n
  }

  /** The position of the first carve matching `key`, or -1 if none does. */
  function FirstMatch(cs: seq<CarveMetadata>, key: CarveKey): (i: int)
    ensures -1 <= i < |cs|
    ensures 0 <= i ==> Matches(cs[i], key)
    ensures forall j :: 0 <= j < |cs| && (i == -1 || j < i) ==> !Matches(cs[j], key)
  {
    if cs == [] then -1
    else if Matches(cs[0], key) then 0
    else
      var i := FirstMatch(cs[1..], key);
      if i == -1 then -1 else i + 1
  }

  /** The carve a lookup by `key` returns. */
  function Lookup(cs: seq<CarveMetadata>, key: CarveKey): Result<CarveMetadata, CarveError>
  {
    var i := FirstMatch(cs, key);
    if i < 0 then Err(NotFound) else Ok(cs[i])
  }

  ghost predicate IDsAscending(cs: seq<CarveMetadata>)
  {
    forall i, j :: 0 <= i < j < |cs| ==> cs[i].ID < cs[j].ID
  }

  ghost predicate SessionsUnique(cs: seq<CarveMetadata>)
  {
    forall i, j :: 0 <= i < j < |cs| ==> cs[i].SessionId != cs[j].SessionId
  }

  /** A carve is found under its own id and session id, and under its name
      when no earlier carve has the same name: the three lookups agree. */
  lemma LookupsAgree(cs: seq<CarveMetadata>, i: nat)
    requires IDsAscending(cs) && SessionsUnique(cs) && i < |cs|
    ensures Lookup(cs, ByID(cs[i].ID)) == Ok(cs[i])
    ensures Lookup(cs, BySessionId(cs[i].SessionId)) == Ok(cs[i])
    ensures (forall j :: 0 <= j < i ==> cs[j].Name != cs[i].Name) ==> Lookup(cs, ByName(cs[i].Name)) == Ok(cs[i])
  {
    assert Matches(cs[i], ByID(cs[i].ID));
    assert Matches(cs[i], BySessionId(cs[i].SessionId));
    assert Matches(cs[i], ByName(cs[i].Name));
  }

  /** A lookup depends only on which carves match its key. */
  lemma {:induction false} FirstMatchFollowsMatches(cs: seq<CarveMetadata>, ds: seq<CarveMetadata>, key: CarveKey)
    requires |cs| == |ds|
    requires forall j :: 0 <= j < |cs| ==> Matches(cs[j], key) == Matches(ds[j], key)
    ensures FirstMatch(cs, key) == FirstMatch(ds, key)
  {
    if cs != [] && !Matches(cs[0], key) {
      FirstMatchFollowsMatches(cs[1..], ds[1..], key);
    }
  }

  /** Metadata as stored when a session opens: its id assigned, no block
      received, not expired; every declared field kept as given. */
  function Opened(metadata: CarveMetadata, id: nat): CarveMetadata
  {
    metadata.(ID := id, MaxBlock := -1, Expired := false)
  }

  /** Whether a block may be written: the carve exists, has not expired, and
      the index lies within its declared block count. */
  function BlockWriteCheck(cs: seq<CarveMetadata>, carveID: nat, blockIndex: int): Outcome<CarveError>
  {
    var k := FirstMatch(cs, ByID(carveID));
    if k < 0 then Fail(NotFound)
    else if cs[k].Expired then Fail(CarveExpired)
    else if blockIndex < 0 || blockIndex >= cs[k].BlockCount then Fail(InvalidBlockIndex)
    else Pass
  }

  /** The metadata after a block is accepted: the carve's MaxBlock is raised
      to the block index if that is higher; nothing else changes. */
  function WithBlockRecorded(cs: seq<CarveMetadata>, carveID: nat, blockIndex: int): (r: seq<CarveMetadata>)
    requires BlockWriteCheck(cs, carveID, blockIndex).Pass?
    ensures |r| == |cs|
    ensures forall j :: 0 <= j < |cs| ==> r[j].(MaxBlock := cs[j].MaxBlock) == cs[j]
    ensures forall j :: 0 <= j < |cs| && cs[j].ID != carveID ==> r[j] == cs[j]
    ensures var k := FirstMatch(cs, ByID(carveID));
            r[k].MaxBlock >= blockIndex && r[k].MaxBlock >= cs[k].MaxBlock
            && (r[k].MaxBlock == blockIndex || r[k].MaxBlock == cs[k].MaxBlock)
  {
    var k := FirstMatch(cs, ByID(carveID));
    if blockIndex > cs[k].MaxBlock then cs[k := cs[k].(MaxBlock := blockIndex)] else cs
  }

  /** What reading a block returns. */
  function ReadBlock(cs: seq<CarveMetadata>, blocks: map<(nat, int), seq<Byte>>, carveID: nat, blockIndex: int)
    : Result<seq<Byte>, CarveError>
  {
    var k := FirstMatch(cs, ByID(carveID));
    if k < 0 then Err(NotFound)
    else if cs[k].Expired then Err(CarveExpired)
    else if (carveID, blockIndex) !in blocks then Err(NotFound)
    else Ok(blocks[(carveID, blockIndex)])
  }

  /** Lookups by id look at nothing but the ids, so carves that keep their
      ids in place keep every id lookup's answer. */
  lemma SameIDsSameLookups(cs: seq<CarveMetadata>, ds: seq<CarveMetadata>)
    requires |cs| == |ds|
    requires forall j :: 0 <= j < |cs| ==> cs[j].ID == ds[j].ID
    ensures forall id :: FirstMatch(cs, ByID(id)) == FirstMatch(ds, ByID(id))
  {
    forall id
      ensures FirstMatch(cs, ByID(id)) == FirstMatch(ds, ByID(id))
    {
      FirstMatchFollowsMatches(cs, ds, ByID(id));
    }
  }

  /** Appending a carve leaves every lookup that already succeeded as it was. */
  lemma FirstMatchAfterAppend(cs: seq<CarveMetadata>, c: CarveMetadata, key: CarveKey)
    requires FirstMatch(cs, key) >= 0
    ensures FirstMatch(cs + [c], key) == FirstMatch(cs, key)
  {
    var i := FirstMatch(cs, key);
    assert (cs + [c])[i] == cs[i];
    assert forall j :: 0 <= j < |cs| ==> (cs + [c])[j] == cs[j];
  }

  /** Every stored block belongs to a stored carve and its index lies
      within that carve's declared block count. */
  ghost predicate BlocksBelong(cs: seq<CarveMetadata>, blocks: map<(nat, int), seq<Byte>>)
  {
    forall k :: k in blocks ==>
      var i := FirstMatch(cs, ByID(k.0));
      0 <= i && 0 <= k.1 < cs[i].BlockCount
  }

  /** A block read succeeds only for an index within the carve's declared
      block count. */
  lemma ReadBlockWithinCount(cs: seq<CarveMetadata>, blocks: map<(nat, int), seq<Byte>>, carveID: nat, blockIndex: int)
    requires BlocksBelong(cs, blocks)
    requires ReadBlock(cs, blocks, carveID, blockIndex).Ok?
    ensures 0 <= blockIndex < cs[FirstMatch(cs, ByID(carveID))].BlockCount
  {
    assert (carveID, blockIndex) in blocks;
  }

  /** After a block is accepted it reads back as written, and every other
      block reads as before. */
  lemma WriteThenRead(cs: seq<CarveMetadata>, blocks: map<(nat, int), seq<Byte>>,
                      carveID: nat, blockIndex: int, data: seq<Byte>, otherID: nat, otherIndex: int)
    requires BlockWriteCheck(cs, carveID, blockIndex).Pass?
    ensures ReadBlock(WithBlockRecorded(cs, carveID, blockIndex), blocks[(carveID, blockIndex) := data], carveID, blockIndex)
            == Ok(data)
    ensures (otherID, otherIndex) != (carveID, blockIndex) ==>
      ReadBlock(WithBlockRecorded(cs, carveID, blockIndex), blocks[(carveID, blockIndex) := data], otherID, otherIndex)
      == ReadBlock(cs, blocks, otherID, otherIndex)
  {
    var cs' := WithBlockRecorded(cs, carveID, blockIndex);
    FirstMatchFollowsMatches(cs, cs', ByID(carveID));
    FirstMatchFollowsMatches(cs, cs', ByID(otherID));
  }

  /** A carve the sweep at `now` expires: not yet expired, and created more
      than the retention window before `now`. */
  predicate DueForExpiry(c: CarveMetadata, now: Time)
  {
    !c.Expired && c.CreatedAt < now - RetentionWindow
  }

  /** The metadata after the sweep at `now`: due carves are marked expired;
      nothing else changes. */
  function Swept(cs: seq<CarveMetadata>, now: Time): (r: seq<CarveMetadata>)
    ensures |r| == |cs|
    ensures forall i :: 0 <= i < |cs| ==> r[i].Expired == (cs[i].Expired || DueForExpiry(cs[i], now))
    ensures forall i :: 0 <= i < |cs| ==> r[i].(Expired := cs[i].Expired) == cs[i]
  {
    seq(|cs|, i requires 0 <= i < |cs| => if DueForExpiry(cs[i], now) then cs[i].(Expired := true) else cs[i])
  }

  /** The number of carves the sweep at `now` expires. */
  function ExpiryCount(cs: seq<CarveMetadata>, now: Time): (n: nat)
    ensures n <= |cs|
    ensures n == 0 <==> forall i :: 0 <= i < |cs| ==> !DueForExpiry(cs[i], now)
  {
    if cs == [] then 0
    else (if DueForExpiry(cs[0], now) then 1 else 0) + ExpiryCount(cs[1..], now)
  }

  /** The ids of the carves the sweep at `now` expires. */
  function SweptIDs(cs: seq<CarveMetadata>, now: Time): set<nat>
  {
    set i | 0 <= i < |cs| && DueForExpiry(cs[i], now) :: cs[i].ID
  }

  /** The blocks that remain once the blocks of the given carves are dropped. */
  function WithoutBlocksOf(blocks: map<(nat, int), seq<Byte>>, ids: set<nat>): (r: map<(nat, int), seq<Byte>>)
    ensures forall k :: k in r <==> k in blocks && k.0 !in ids
    ensures forall k :: k in r ==> r[k] == blocks[k]
  {
    map k | k in blocks && k.0 !in ids :: blocks[k]
  }

  /** A second sweep at the same instant expires nothing more and changes nothing. */
  lemma SweepIsIdempotent(cs: seq<CarveMetadata>, now: Time)
    ensures ExpiryCount(Swept(cs, now), now) == 0
    ensures Swept(Swept(cs, now), now) == Swept(cs, now)
  {
    var once := Swept(cs, now);
    assert forall i :: 0 <= i < |once| ==> !DueForExpiry(once[i], now);
  }

  /** A sweep before any carve has outlived the retention window expires nothing. */
  lemma SweepWithinWindowExpiresNothing(cs: seq<CarveMetadata>, now: Time)
    requires forall i :: 0 <= i < |cs| ==> cs[i].CreatedAt >= now - RetentionWindow
    ensures ExpiryCount(cs, now) == 0
    ensures Swept(cs, now) == cs
  {
  }

  /** After the sweep expires a carve, its blocks no longer read, while its
      metadata still does, now marked expired. */
  lemma SweptCarveUnreadable(cs: seq<CarveMetadata>, blocks: map<(nat, int), seq<Byte>>, now: Time, i: nat, blockIndex: int)
    requires IDsAscending(cs) && i < |cs| && DueForExpiry(cs[i], now)
    ensures ReadBlock(Swept(cs, now), WithoutBlocksOf(blocks, SweptIDs(cs, now)), cs[i].ID, blockIndex).Err?
    ensures Lookup(Swept(cs, now), ByID(cs[i].ID)).Ok?
    ensures Lookup(Swept(cs, now), ByID(cs[i].ID)).value.Expired
  {
    var swept := Swept(cs, now);
    FirstMatchFollowsMatches(cs, swept, ByID(cs[i].ID));
    assert Matches(cs[i], ByID(cs[i].ID));
    assert FirstMatch(cs, ByID(cs[i].ID)) == i;
  }

  /** The carves that are not expired, in their stored order. */
  function NonExpired(cs: seq<CarveMetadata>): (r: seq<CarveMetadata>)
    ensures |r| <= |cs|
    ensures forall c :: c in r ==> c in cs && !c.Expired
    ensures forall c :: c in cs && !c.Expired ==> c in r
  {
    if cs == [] then []
    else
      var last := cs[|cs| - 1];
      NonExpired(cs[..|cs| - 1]) + (if last.Expired then [] else [last])
  }

  /** Filtering keeps the ascending id order. */
  lemma {:induction false} NonExpiredKeepsOrder(cs: seq<CarveMetadata>)
    requires IDsAscending(cs)
    ensures IDsAscending(NonExpired(cs))
  {
    if cs != [] {
      var init := cs[..|cs| - 1];
      var last := cs[|cs| - 1];
      NonExpiredKeepsOrder(init);
      var r := NonExpired(init);
      forall c | c in r ensures c.ID < last.ID {
        var j :| 0 <= j < |init| && init[j] == c;
      }
    }
  }

  /** The carve store: metadata in insertion (and id) order, the blocks by
      (carve id, block index), and the next id to assign. */
  class CarveStore {
    var carves: seq<CarveMetadata>
    var blocks: map<(nat, int), seq<Byte>>
    var nextID: nat

    ghost predicate Valid()
      reads this
    {
      && 0 < nextID
      && (forall i :: 0 <= i < |carves| ==> 0 < carves[i].ID < nextID)
      && IDsAscending(carves)
      && SessionsUnique(carves)
      && BlocksBelong(carves, blocks)
    }

    constructor ()
      ensures Valid() && carves == [] && blocks == map[] && nextID == 1
    {
      carves, blocks, nextID := [], map[], 1;
    }

    /** The position of the first carve matching `key`, or -1. */
    method Find(key: CarveKey) returns (i: int)
      ensures i == FirstMatch(carves, key)
    {
      i := 0;
      while i < |carves|
        invariant 0 <= i <= |carves|
        invariant forall j :: 0 <= j < i ==> !Matches(carves[j], key)
      {
        if Matches(carves[i], key) {
          return;
        }
        i := i + 1;
      }
      i := -1;
    }

    /** Opens a session: assigns the next id and stores the metadata with no
        block received; a session id already in use is refused. */
    method NewCarve(metadata: CarveMetadata) returns (r: Result<CarveMetadata, CarveError>)
      requires Valid()
      modifies this
      ensures Valid() && blocks == old(blocks)
      ensures FirstMatch(old(carves), BySessionId(metadata.SessionId)) >= 0 ==>
        r == Err(DuplicateSession) && carves == old(carves) && nextID == old(nextID)
      ensures FirstMatch(old(carves), BySessionId(metadata.SessionId)) < 0 ==>
        && r == Ok(metadata.(ID := old(nextID)))
        && carves == old(carves) + [Opened(metadata, old(nextID))]
        && nextID == old(nextID) + 1
    {
      var k := Find(BySessionId(metadata.SessionId));
      if k >= 0 {
        r := Err(DuplicateSession);
      } else {
        forall b | b in blocks
          ensures FirstMatch(carves + [Opened(metadata, nextID)], ByID(b.0)) == FirstMatch(carves, ByID(b.0))
        {
          FirstMatchAfterAppend(carves, Opened(metadata, nextID), ByID(b.0));
        }
        carves := carves + [Opened(metadata, nextID)];
        r := Ok(metadata.(ID := nextID));
        nextID := nextID + 1;
      }
    }

    /** Looks a carve up by id. */
    method Carve(id: nat) returns (r: Result<CarveMetadata, CarveError>)
      ensures r == Lookup(carves, ByID(id))
    {
      var k := Find(ByID(id));
      r := if k < 0 then Err(NotFound) else Ok(carves[k]);
    }

    /** Looks a carve up by session id. */
    method CarveBySessionId(sessionId: string) returns (r: Result<CarveMetadata, CarveError>)
      ensures r == Lookup(carves, BySessionId(sessionId))
    {
      var k := Find(BySessionId(sessionId));
      r := if k < 0 then Err(NotFound) else Ok(carves[k]);
    }

    /** Looks a carve up by name; the earliest carve of that name wins. */
    method CarveByName(name: string) returns (r: Result<CarveMetadata, CarveError>)
      ensures r == Lookup(carves, ByName(name))
    {
      var k := Find(ByName(name));
      r := if k < 0 then Err(NotFound) else Ok(carves[k]);
    }

    /** Stores a block of a carve (a re-sent block overwrites) and raises the
        carve's MaxBlock to its index if that is higher. */
    method NewBlock(carveID: nat, blockIndex: int, data: seq<Byte>) returns (r: Outcome<CarveError>)
      requires Valid()
      modifies this
      ensures Valid() && nextID == old(nextID)
      ensures r == BlockWriteCheck(old(carves), carveID, blockIndex)
      ensures r.Fail? ==> carves == old(carves) && blocks == old(blocks)
      ensures r.Pass? ==>
        && carves == WithBlockRecorded(old(carves), carveID, blockIndex)
        && blocks == old(blocks)[(carveID, blockIndex) := data]
    {
      r := BlockWriteCheck(carves, carveID, blockIndex);
      if r.Pass? {
        SameIDsSameLookups(carves, WithBlockRecorded(carves, carveID, blockIndex));
        carves := WithBlockRecorded(carves, carveID, blockIndex);
        blocks := blocks[(carveID, blockIndex) := data];
      }
    }

    /** Reads a block back; fails for an unknown carve, an expired carve or
        a block never written. */
    method GetBlock(carveID: nat, blockIndex: int) returns (r: Result<seq<Byte>, CarveError>)
      ensures r == ReadBlock(carves, blocks, carveID, blockIndex)
    {
      r := ReadBlock(carves, blocks, carveID, blockIndex);
    }

    /** Expires every carve older than the retention window, drops their
        blocks and returns how many carves it expired. */
    method CleanupCarves(now: Time) returns (expired: nat)
      requires Valid()
      modifies this
      ensures Valid() && nextID == old(nextID)
      ensures expired == ExpiryCount(old(carves), now)
      ensures carves == Swept(old(carves), now)
      ensures blocks == WithoutBlocksOf(old(blocks), SweptIDs(old(carves), now))
    {
      expired := ExpiryCount(carves, now);
      SameIDsSameLookups(carves, Swept(carves, now));
      blocks := WithoutBlocksOf(blocks, SweptIDs(carves, now));
      carves := Swept(carves, now);
    }

    /** All carves when `opt.Expired` is set, otherwise the non-expired ones;
        in insertion order either way. */
    method ListCarves(opt: CarveListOptions) returns (r: seq<CarveMetadata>)
      ensures opt.Expired ==> r == carves
      ensures !opt.Expired ==> r == NonExpired(carves)
    {
      if opt.Expired {
        return carves;
      }
      r := [];
      var i := 0;
      while i < |carves|
        invariant 0 <= i <= |carves|
        invariant r == NonExpired(carves[..i])
      {
        assert carves[..i + 1][..i] == carves[..i];
        if !carves[i].Expired {
          r := r + [carves[i]];
        }
        i := i + 1;
      }
      assert carves[..|carves|] == carves;
    }

    /** Persists the carve's Expired flag and MaxBlock; every other field of
        the argument is ignored. An unknown id changes nothing. */
    method UpdateCarve(carve: CarveMetadata)
      requires Valid()
      modifies this
      ensures Valid() && blocks == old(blocks) && nextID == old(nextID)
      ensures carves == Updated(old(carves), carve)
    {
      SameIDsSameLookups(carves, Updated(carves, carve));
      carves := Updated(carves, carve);
    }
  }

  /** The metadata after an update: the carve with the argument's id takes
      its Expired flag and MaxBlock; sizes, counts and every other field keep
      their stored values. */
  function Updated(cs: seq<CarveMetadata>, carve: CarveMetadata): (r: seq<CarveMetadata>)
    ensures |r| == |cs|
    ensures forall i :: 0 <= i < |cs| ==> r[i].(Expired := cs[i].Expired, MaxBlock := cs[i].MaxBlock) == cs[i]
    ensures forall i :: 0 <= i < |cs| ==>
      r[i].BlockCount == cs[i].BlockCount && r[i].BlockSize == cs[i].BlockSize && r[i].CarveSize == cs[i].CarveSize
    ensures forall i :: 0 <= i < |cs| && cs[i].ID != carve.ID ==> r[i] == cs[i]
    ensures var k := FirstMatch(cs, ByID(carve.ID));
            0 <= k ==> r[k].Expired == carve.Expired && r[k].MaxBlock == carve.MaxBlock
  {
    var k := FirstMatch(cs, ByID(carve.ID));
    if k < 0 then cs else cs[k := cs[k].(Expired := carve.Expired, MaxBlock := carve.MaxBlock)]
  }
}
