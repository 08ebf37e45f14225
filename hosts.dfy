/**
 * Hosts of the fleet: the liveness evaluator (Status, IsNew and the duration
 * constants) and the host table behind the HostStore interface (enrollment
 * with a cooldown, seen-time updates, team assignment, clean-up of incoming
 * hosts).
 */
module Fleet {
  import opened Results
  import opened Durations

  /** The liveness classes a host can be reported in. */
  datatype HostStatus = StatusOnline | StatusOffline | StatusMIA | StatusNew

  /** A host created within this period is new. */
  const NewDuration: Duration := 24 * Hour

  /** A host silent for longer than this is missing in action. */
  const MIADuration: Duration := 30 * 24 * Hour

  /** Slack, in seconds, added to the online interval against flapping. */
  const OnlineIntervalBuffer: nat := 30

  /**
   * The host record, reduced to the fields that liveness and the host table
   * read or write. The two intervals are in seconds (unsigned in the source).
   */
  datatype Host = Host(
    ID: nat,
    OsqueryHostID: string,
    NodeKey: string,
    CreatedAt: Time,
    LastEnrolledAt: Time,
    SeenTime: Time,
    Hostname: string,
    OsqueryVersion: string,
    DistributedInterval: nat,
    ConfigTLSRefresh: nat,
    TeamID: Option<nat>)

  // ---------------------------------------------------------------------
  // Liveness
  // ---------------------------------------------------------------------

  /** The check-in interval in seconds: the smaller of the two configured
      refresh periods plus the buffer. */
  function OnlineInterval(h: Host): (r: nat)
    ensures r >= OnlineIntervalBuffer
    ensures r - OnlineIntervalBuffer <= h.DistributedInterval
    ensures r - OnlineIntervalBuffer <= h.ConfigTLSRefresh
    ensures r - OnlineIntervalBuffer == h.DistributedInterval || r - OnlineIntervalBuffer == h.ConfigTLSRefresh
  {
    var onlineInterval := if h.DistributedInterval < h.ConfigTLSRefresh then h.DistributedInterval else h.ConfigTLSRefresh;
    onlineInterval + OnlineIntervalBuffer
  }

  /** The online status of a host at `now`; deadlines must be strictly
      before `now` to count as missed. */
  function Status(h: Host, now: Time): (s: HostStatus)
    ensures s != StatusNew
  {
    if h.SeenTime + MIADuration < now then StatusMIA
    else if h.SeenTime + OnlineInterval(h) * Second < now then StatusOffline
    else StatusOnline
  }

  /** Status by the time elapsed since the host was last seen: MIA is checked
      first, so it wins over offline; both need the silence to exceed the limit. */
  lemma StatusByAge(h: Host, now: Time)
    ensures Status(h, now) == StatusMIA <==> now - h.SeenTime > MIADuration
    ensures Status(h, now) == StatusOffline <==>
      now - h.SeenTime <= MIADuration && now - h.SeenTime > OnlineInterval(h) * Second
    ensures Status(h, now) == StatusOnline <==>
      now - h.SeenTime <= MIADuration && now - h.SeenTime <= OnlineInterval(h) * Second
  {
  }

  /** At a deadline exactly, the deadline is not yet missed. */
  lemma StatusAtDeadlines(h: Host)
    ensures Status(h, h.SeenTime + MIADuration) != StatusMIA
    ensures Status(h, h.SeenTime + OnlineInterval(h) * Second) != StatusOffline
  {
  }

  /** With the host fixed, status only moves forward in time:
      online, then offline, then MIA. */
  lemma StatusOnlyMovesForward(h: Host, earlier: Time, later: Time)
    requires earlier <= later
    ensures Status(h, earlier) == StatusMIA ==> Status(h, later) == StatusMIA
    ensures Status(h, earlier) == StatusOffline ==> Status(h, later) != StatusOnline
  {
  }

  /** Whether the host was created at most NewDuration before `now`
      (inclusive at the boundary). */
  function IsNew(h: Host, now: Time): (r: bool)
    ensures r <==> now - h.CreatedAt <= NewDuration
  {
    var withDuration := h.CreatedAt + NewDuration;
    withDuration > now || withDuration == now
  }

  /** Newness reads only the creation time and status never reads it, so the
      two are independent. */
  lemma NewIsIndependentOfStatus(h: Host, g: Host, now: Time)
    ensures g.CreatedAt == h.CreatedAt ==> IsNew(g, now) == IsNew(h, now)
    ensures (g.SeenTime == h.SeenTime && g.DistributedInterval == h.DistributedInterval
             && g.ConfigTLSRefresh == h.ConfigTLSRefresh) ==> Status(g, now) == Status(h, now)
  {
  }

  /** A host created an hour ago but last seen forty days ago is both new and MIA. */
  lemma NewAndMIAAtOnce(h: Host, now: Time)
    requires h.CreatedAt == now - Hour && h.SeenTime == now - 40 * 24 * Hour
    ensures IsNew(h, now) && Status(h, now) == StatusMIA
  {
  }

  /** Counts of online, offline, MIA and new hosts. */
  datatype HostSummary = HostSummary(OnlineCount: nat, OfflineCount: nat, MIACount: nat, NewCount: nat)

  /** Status statistics over a population, counted through Status itself so
      that every host lands in exactly one of online, offline and MIA. */
  function GenerateHostStatusStatistics(hosts: seq<Host>, now: Time): (c: HostSummary)
    ensures c.OnlineCount + c.OfflineCount + c.MIACount == |hosts|
    ensures c.NewCount <= |hosts|
  {
    if hosts == [] then HostSummary(0, 0, 0, 0)
    else
      var c := GenerateHostStatusStatistics(hosts[..|hosts| - 1], now);
      var h := hosts[|hosts| - 1];
      var s := Status(h, now);
      HostSummary(
        c.OnlineCount + (if s == StatusOnline then 1 else 0),
        c.OfflineCount + (if s == StatusOffline then 1 else 0),
        c.MIACount + (if s == StatusMIA then 1 else 0),
        c.NewCount + (if IsNew(h, now) then 1 else 0))
  }

  // ---------------------------------------------------------------------
  // The host table
  // ---------------------------------------------------------------------

  datatype HostError = EnrollmentThrottled | NotFound

  /** Every host is stored under its own non-zero id below the next id to
      assign, and no two hosts share an osquery host identifier. */
  ghost predicate WellFormed(m: map<nat, Host>, nextID: nat)
  {
    && 0 < nextID
    && (forall id :: id in m ==> m[id].ID == id && 0 < id < nextID)
    && (forall a, b :: a in m && b in m && m[a].OsqueryHostID == m[b].OsqueryHostID ==> a == b)
  }

  /** A host that enrolled but never reported its details. */
  predicate Incoming(h: Host)
  {
    h.Hostname == "" && h.OsqueryVersion == ""
  }

  /** Whether the host's last enrollment lies within the cooldown before
      `now`; a cooldown of zero never throttles. */
  predicate EnrolledWithin(h: Host, cooldown: Duration, now: Time)
  {
    cooldown > 0 && now - h.LastEnrolledAt < cooldown
  }

  /** The outcome of an enrollment on the table: refused, or the new table,
      the enrolled host and the next id to assign. */
  datatype Enrollment = Throttled | Enrolled(hosts: map<nat, Host>, host: Host, nextID: nat)

  /** Enrollment: a known identifier re-enrolls (new node key and team, same
      id) unless it enrolled within the cooldown; an unknown one gets a fresh
      host that has not reported its details yet. */
  function Enroll(m: map<nat, Host>, nextID: nat, osqueryHostId: string, nodeKey: string,
                  teamID: Option<nat>, cooldown: Duration, now: Time): (r: Enrollment)
    requires WellFormed(m, nextID)
    ensures r.Throttled? <==>
      exists id :: id in m && m[id].OsqueryHostID == osqueryHostId && EnrolledWithin(m[id], cooldown, now)
    ensures r.Enrolled? ==>
      && WellFormed(r.hosts, r.nextID)
      && r.host.ID in r.hosts && r.hosts[r.host.ID] == r.host
      && r.host.OsqueryHostID == osqueryHostId && r.host.NodeKey == nodeKey
      && r.host.TeamID == teamID && r.host.LastEnrolledAt == now
      && r.hosts.Keys == m.Keys + {r.host.ID}
      && (forall id :: id in m && id != r.host.ID ==> r.hosts[id] == m[id])
    ensures r.Enrolled? && r.host.ID in m ==>
      && m[r.host.ID].OsqueryHostID == osqueryHostId && r.nextID == nextID
      && r.host == m[r.host.ID].(NodeKey := nodeKey, TeamID := teamID, LastEnrolledAt := now)
    ensures r.Enrolled? && r.host.ID !in m ==>
      && (forall id :: id in m ==> m[id].OsqueryHostID != osqueryHostId)
      && r.host.ID == nextID && r.nextID == nextID + 1
      && r.host.CreatedAt == now && r.host.SeenTime == now && Incoming(r.host)
  {
    if exists id :: id in m && m[id].OsqueryHostID == osqueryHostId then
      var id :| id in m && m[id].OsqueryHostID == osqueryHostId;
      if EnrolledWithin(m[id], cooldown, now) then Throttled
      else
        var h := m[id].(NodeKey := nodeKey, TeamID := teamID, LastEnrolledAt := now);
        Enrolled(m[id := h], h, nextID)
    else
      var h := Host(nextID, osqueryHostId, nodeKey, now, now, now, "", "", 0, 0, teamID);
      Enrolled(m[nextID := h], h, nextID + 1)
  }

  /** Enrolling the same identifier again is refused while the cooldown since
      the first enrollment lasts, and afterwards re-enrolls the same host
      rather than creating a second one. */
  lemma {:induction false} EnrollmentCooldown(m: map<nat, Host>, nextID: nat, osqueryHostId: string,
                                             key1: string, team1: Option<nat>, key2: string, team2: Option<nat>,
                                             cooldown: Duration, first: Time, second: Time)
    requires WellFormed(m, nextID)
    requires Enroll(m, nextID, osqueryHostId, key1, team1, cooldown, first).Enrolled?
    ensures var e := Enroll(m, nextID, osqueryHostId, key1, team1, cooldown, first);
            var again := Enroll(e.hosts, e.nextID, osqueryHostId, key2, team2, cooldown, second);
            && (again.Throttled? <==> cooldown > 0 && second - first < cooldown)
            && (again.Enrolled? ==>
                  again.host.ID == e.host.ID && again.nextID == e.nextID
                  && again.host.LastEnrolledAt == second && again.host.NodeKey == key2)
  {
    var e := Enroll(m, nextID, osqueryHostId, key1, team1, cooldown, first);
    var again := Enroll(e.hosts, e.nextID, osqueryHostId, key2, team2, cooldown, second);
    assert e.host.ID in e.hosts && e.hosts[e.host.ID].OsqueryHostID == osqueryHostId;
    if again.Enrolled? {
      assert again.host.ID in e.hosts;
    }
  }

  /** The table after marking the listed hosts seen at `t`. */
  function MarkedSeen(m: map<nat, Host>, hostIDs: seq<nat>, t: Time): (r: map<nat, Host>)
    ensures r.Keys == m.Keys
    ensures forall id :: id in m && id in hostIDs ==>
      r[id].SeenTime == t && r[id].(SeenTime := m[id].SeenTime) == m[id]
    ensures forall id :: id in m && id !in hostIDs ==> r[id] == m[id]
  {
    map id | id in m :: if id in hostIDs then m[id].(SeenTime := t) else m[id]
  }

  /** A host just marked seen at `t` is online at `t`. */
  lemma SeenHostsAreOnline(m: map<nat, Host>, hostIDs: seq<nat>, t: Time, id: nat)
    requires id in m && id in hostIDs
    ensures Status(MarkedSeen(m, hostIDs, t)[id], t) == StatusOnline
  {
  }

  /** The table after moving the listed hosts to `teamID`; no team clears
      their membership. */
  function WithTeam(m: map<nat, Host>, teamID: Option<nat>, hostIDs: seq<nat>): (r: map<nat, Host>)
    ensures r.Keys == m.Keys
    ensures forall id :: id in m && id in hostIDs ==>
      r[id].TeamID == teamID && r[id].(TeamID := m[id].TeamID) == m[id]
    ensures teamID.None? ==> forall id :: id in m && id in hostIDs ==> r[id].TeamID.None?
    ensures forall id :: id in m && id !in hostIDs ==> r[id] == m[id]
  {
    map id | id in m :: if id in hostIDs then m[id].(TeamID := teamID) else m[id]
  }

  /** An incoming host older than the grace period. */
  predicate StaleIncoming(h: Host, now: Time, grace: Duration)
  {
    Incoming(h) && h.CreatedAt < now - grace
  }

  /** The table after deleting stale incoming hosts: every incoming host
      older than the grace period goes, only incoming hosts go, and every
      other host stays untouched. */
  function WithoutIncoming(m: map<nat, Host>, now: Time, grace: Duration): (r: map<nat, Host>)
    ensures r.Keys <= m.Keys
    ensures forall id :: id in r ==> r[id] == m[id]
    ensures forall id :: id in m && StaleIncoming(m[id], now, grace) ==> id !in r
    ensures forall id :: id in m && id !in r ==> Incoming(m[id]) && m[id].CreatedAt < now - grace
    ensures forall id :: id in m && !Incoming(m[id]) ==> id in r
  {
    map id | id in m && !StaleIncoming(m[id], now, grace) :: m[id]
  }

  /** A second clean-up at the same instant deletes nothing more. */
  lemma CleanupIsIdempotent(m: map<nat, Host>, now: Time, grace: Duration)
    ensures WithoutIncoming(WithoutIncoming(m, now, grace), now, grace) == WithoutIncoming(m, now, grace)
  {
  }

  /** The host table: hosts by id and the next id to assign. */
  class HostStore {
    var hosts: map<nat, Host>
    var nextID: nat

    ghost predicate Valid()
      reads this
    {
      WellFormed(hosts, nextID)
    }

    constructor ()
      ensures Valid() && hosts == map[] && nextID == 1
    {
      hosts := map[];
      nextID := 1;
    }

    /** Enrolls a host, refusing one that enrolled within the cooldown. */
    method EnrollHost(osqueryHostId: string, nodeKey: string, teamID: Option<nat>, cooldown: Duration, now: Time)
      returns (r: Result<Host, HostError>)
      requires Valid()
      modifies this
      ensures Valid()
      ensures match Enroll(old(hosts), old(nextID), osqueryHostId, nodeKey, teamID, cooldown, now)
              case Throttled => r == Err(EnrollmentThrottled) && hosts == old(hosts) && nextID == old(nextID)
              case Enrolled(m, h, n) => r == Ok(h) && hosts == m && nextID == n
    {
      match Enroll(hosts, nextID, osqueryHostId, nodeKey, teamID, cooldown, now)
      case Throttled =>
        r := Err(EnrollmentThrottled);
      case Enrolled(m, h, n) =>
        hosts, nextID := m, n;
        r := Ok(h);
    }

    /** The host with the given id. */
    method Host(id: nat) returns (r: Result<Host, HostError>)
      ensures id in hosts ==> r == Ok(hosts[id])
      ensures id !in hosts ==> r == Err(NotFound)
    {
      if id in hosts {
        r := Ok(hosts[id]);
      } else {
        r := Err(NotFound);
      }
    }

    /** A host holding the given node key. */
    method AuthenticateHost(nodeKey: string) returns (r: Result<Host, HostError>)
      ensures r.Ok? ==> r.value in hosts.Values && r.value.NodeKey == nodeKey
      ensures r.Err? <==> forall id :: id in hosts ==> hosts[id].NodeKey != nodeKey
      ensures r.Err? ==> r.error == NotFound
    {
      if id :| id in hosts && hosts[id].NodeKey == nodeKey {
        r := Ok(hosts[id]);
      } else {
        r := Err(NotFound);
      }
    }

    /** Sets the seen time of the listed hosts to `t`. */
    method MarkHostsSeen(hostIDs: seq<nat>, t: Time)
      requires Valid()
      modifies this
      ensures Valid() && nextID == old(nextID)
      ensures hosts == MarkedSeen(old(hosts), hostIDs, t)
    {
      hosts := MarkedSeen(hosts, hostIDs, t);
    }

    /** Sets the seen time of one host to `t`. */
    method MarkHostSeen(id: nat, t: Time)
      requires Valid()
      modifies this
      ensures Valid() && nextID == old(nextID)
      ensures hosts == MarkedSeen(old(hosts), [id], t)
    {
      MarkHostsSeen([id], t);
    }

    /** Moves the listed hosts to a team, or out of any team when `teamID` is none. */
    method AddHostsToTeam(teamID: Option<nat>, hostIDs: seq<nat>)
      requires Valid()
      modifies this
      ensures Valid() && nextID == old(nextID)
      ensures hosts == WithTeam(old(hosts), teamID, hostIDs)
    {
      hosts := WithTeam(hosts, teamID, hostIDs);
    }

    /** Deletes the incoming hosts created more than `grace` before `now`. */
    method CleanupIncomingHosts(now: Time, grace: Duration)
      requires Valid()
      modifies this
      ensures Valid() && nextID == old(nextID)
      ensures hosts == WithoutIncoming(old(hosts), now, grace)
    {
      hosts := WithoutIncoming(hosts, now, grace);
    }

    /** Deletes the host with the given id. */
    method DeleteHost(id: nat) returns (r: Outcome<HostError>)
      requires Valid()
      modifies this
      ensures Valid() && nextID == old(nextID)
      ensures id in old(hosts) ==> r == Pass && hosts == old(hosts) - {id}
      ensures id !in old(hosts) ==> r == Fail(NotFound) && hosts == old(hosts)
    {
      if id in hosts {
        hosts := hosts - {id};
        r := Pass;
      } else {
        r := Fail(NotFound);
      }
    }
  }
}
