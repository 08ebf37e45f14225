/**
 * The host software inventory: each host's stored set of software tuples,
 * reconciled against a freshly reported list by a delete-then-insert diff,
 * and loaded back into the in-memory host record.
 */
module Inventory {

  /** One installed item; two items differing in any field are distinct. */
  datatype Software = Software(Name: string, Version: string, Source: string)

  /** The in-memory inventory of a host. `Modified` marks a list that differs
      from what was last loaded or saved and so must be reconciled. */
  datatype HostSoftware = HostSoftware(Modified: bool, Software: seq<Software>)

  /** The in-memory host record, which embeds the host's software inventory,
      reduced to the id and the inventory: the fields the store reads and
      writes. */
  class HostRecord {
    const ID: nat
    var HostSoftware: HostSoftware

    constructor (id: nat, software: HostSoftware)
      ensures ID == id && HostSoftware == software
    {
      ID := id;
      HostSoftware := software;
    }
  }

  function Elements(s: seq<Software>): set<Software>
  {
    set x | x in s
  }

  predicate Distinct(s: seq<Software>)
  {
    forall i, j :: 0 <= i < j < |s| ==> s[i] != s[j]
  }

  /** The set stored for a host; a host never saved has none. */
  function Stored(installed: map<nat, set<Software>>, hostID: nat): set<Software>
  {
    if hostID in installed then installed[hostID] else {}
  }

  /** Stored rows that the report no longer lists. */
  function RowsToDelete(stored: set<Software>, reported: set<Software>): set<Software>
  {
    stored - reported
  }

  /** Reported rows not stored yet. */
  function RowsToInsert(stored: set<Software>, reported: set<Software>): set<Software>
  {
    reported - stored
  }

  /** The stored set after applying the diff: exactly the reported set. */
  function Reconciled(stored: set<Software>, reported: set<Software>): (r: set<Software>)
    ensures r == reported
  {
    (stored - RowsToDelete(stored, reported)) + RowsToInsert(stored, reported)
  }

  /** The diff writes nothing twice: it deletes no row that is still
      reported and inserts none already stored, so rows in both sets are left
      alone, and reconciling an unchanged set writes nothing. */
  lemma DiffTouchesOnlyChanges(stored: set<Software>, reported: set<Software>)
    ensures RowsToDelete(stored, reported) !! reported
    ensures RowsToInsert(stored, reported) !! stored
    ensures stored * reported <= stored - RowsToDelete(stored, reported)
    ensures stored == reported ==> RowsToDelete(stored, reported) == {} && RowsToInsert(stored, reported) == {}
  {
  }

  /** The inventory after a host's report is saved: that host holds exactly
      the reported items, and every other host keeps its own. */
  function AfterSave(installed: map<nat, set<Software>>, hostID: nat, reported: seq<Software>)
    : (r: map<nat, set<Software>>)
    ensures r.Keys == installed.Keys + {hostID}
    ensures r[hostID] == Elements(reported)
    ensures forall id :: id in installed && id != hostID ==> r[id] == installed[id]
  {
    installed[hostID := Reconciled(Stored(installed, hostID), Elements(reported))]
  }

  /** Items that differ only in version are kept as two items. */
  lemma VersionsAreDistinctItems(a: Software, b: Software)
    requires a.Name == b.Name && a.Source == b.Source && a.Version != b.Version
    ensures |Elements([a, b])| == 2
  {
    assert Elements([a, b]) == {a, b};
  }

  /** A list without duplicates has the same multiset as its set. */
  lemma {:induction false} DistinctMultiset(s: seq<Software>)
    requires Distinct(s)
    ensures multiset(s) == multiset(Elements(s))
  {
    if s != [] {
      var rest := s[1..];
      assert s == [s[0]] + rest;
      assert Distinct(rest);
      DistinctMultiset(rest);
      assert s[0] !in Elements(rest);
      assert Elements(s) == {s[0]} + Elements(rest);
      calc {
        multiset(Elements(s));
        multiset({s[0]} + Elements(rest));
        multiset{s[0]} + multiset(Elements(rest));
        multiset{s[0]} + multiset(rest);
        multiset(s);
      }
    }
  }

  /** Two duplicate-free lists with the same items match element for element,
      in any order. */
  lemma SameItemsMatch(saved: seq<Software>, loaded: seq<Software>)
    requires Distinct(saved) && Distinct(loaded) && Elements(saved) == Elements(loaded)
    ensures multiset(saved) == multiset(loaded)
  {
    DistinctMultiset(saved);
    DistinctMultiset(loaded);
  }

  /** The items of a set as a list, each once, in some order. */
  method ListOf(s: set<Software>) returns (r: seq<Software>)
    ensures Distinct(r) && Elements(r) == s
  {
    r := [];
    var rest := s;
    while rest != {}
      invariant Distinct(r)
      invariant Elements(r) !! rest && Elements(r) + rest == s
      decreases |rest|
    {
      var x :| x in rest;
      r := r + [x];
      rest := rest - {x};
    }
  }

  /** The software inventory of every host: host id to its stored set. */
  class SoftwareStore {
    var installed: map<nat, set<Software>>

    constructor ()
      ensures installed == map[]
    {
      installed := map[];
    }

    /** Reconciles the host's reported list into the store when it is marked
        modified, and clears the mark; an unmodified list is not saved. */
    method SaveHostSoftware(host: HostRecord)
      modifies this, host
      ensures host.HostSoftware == old(host.HostSoftware).(Modified := false)
      ensures old(host.HostSoftware.Modified) ==>
        installed == AfterSave(old(installed), host.ID, old(host.HostSoftware.Software))
      ensures !old(host.HostSoftware.Modified) ==> installed == old(installed)
    {
      if host.HostSoftware.Modified {
        installed := AfterSave(installed, host.ID, host.HostSoftware.Software);
        host.HostSoftware := host.HostSoftware.(Modified := false);
      }
    }

    /** Replaces the host's in-memory inventory with the stored one, each item
        once, unmarked. */
    method LoadHostSoftware(host: HostRecord)
      modifies host
      ensures !host.HostSoftware.Modified
      ensures Distinct(host.HostSoftware.Software)
      ensures Elements(host.HostSoftware.Software) == Stored(installed, host.ID)
    {
      var items := ListOf(Stored(installed, host.ID));
      host.HostSoftware := HostSoftware(false, items);
    }
  }
}
