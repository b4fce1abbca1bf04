/**
 * Per-IP admission control (backend/src/ws/limits.ts): a table from IP to the
 * number of connections it holds and when it was last seen, a cap of 5
 * connections per IP and a sweep that forgets IPs not seen for a minute.
 *
 * `Tracks` relates the table to the number of sockets each IP really has open
 * (connections admitted and not yet closed). The sweep as written deletes
 * entries whatever their count, which breaks that relation and with it the cap:
 * `ExpireBreaksTracking` exhibits a sixth admitted connection. `ExpireIdle`
 * deletes only entries with no open connection and keeps the relation.
 */
module Limits {

  datatype IpStats = IpStats(connections: int, lastSeen: int)

  type Table = map<string, IpStats>

  const MAX_CONNECTIONS_PER_IP := 5
  const IP_TTL_MS := 60000

  /** An entry not seen for more than the TTL. */
  predicate Expired(s: IpStats, now: int)
  {
    now - s.lastSeen > IP_TTL_MS
  }

  /** An expired entry that holds no open connection. */
  predicate Idle(s: IpStats, now: int)
  {
    Expired(s, now) && s.connections == 0
  }

  /** Whether `canConnect` lets the connection in. */
  predicate Admits(t: Table, ip: string)
  {
    ip !in t || t[ip].connections < MAX_CONNECTIONS_PER_IP
  }

  /** The table after `canConnect(ip)` at time `now`. */
  function AfterConnect(t: Table, ip: string, now: int): (r: Table)
    ensures r.Keys == t.Keys + {ip}
    ensures ip !in t ==> r[ip] == IpStats(1, now)
    ensures ip in t && !Admits(t, ip) ==> r[ip] == IpStats(t[ip].connections, now)
    ensures ip in t && Admits(t, ip) ==> r[ip] == IpStats(t[ip].connections + 1, now)
    ensures forall other :: other in t && other != ip ==> r[other] == t[other]
  {
    if ip !in t then t[ip := IpStats(1, now)]
    else if t[ip].connections >= MAX_CONNECTIONS_PER_IP then t[ip := t[ip].(lastSeen := now)]
    else t[ip := IpStats(t[ip].connections + 1, now)]
  }

  /** The table after `onDisconnect(ip)` at time `now`. */
  function AfterDisconnect(t: Table, ip: string, now: int): (r: Table)
    ensures ip !in t ==> r == t
    ensures r.Keys == t.Keys
    ensures ip in t ==> r[ip] == IpStats(if t[ip].connections >= 1 then t[ip].connections - 1 else 0, now)
    ensures forall other :: other in t && other != ip ==> r[other] == t[other]
  {
    if ip !in t then t
    else t[ip := IpStats(if t[ip].connections - 1 >= 0 then t[ip].connections - 1 else 0, now)]
  }

  /** The table after `cleanupIps` as written: every expired entry goes. */
  function Expire(t: Table, now: int): (r: Table)
    ensures forall ip :: ip in r <==> ip in t && !Expired(t[ip], now)
    ensures forall ip :: ip in r ==> r[ip] == t[ip]
  {
    map ip | ip in t && !Expired(t[ip], now) :: t[ip]
  }

  /** The corrected sweep: only expired entries with no open connection go. */
  function ExpireIdle(t: Table, now: int): (r: Table)
    ensures forall ip :: ip in r <==> ip in t && !Idle(t[ip], now)
    ensures forall ip :: ip in r ==> r[ip] == t[ip]
  {
    map ip | ip in t && !Idle(t[ip], now) :: t[ip]
  }

  /** No entry counts more than the cap. */
  predicate WithinCap(t: Table)
  {
    forall ip :: ip in t ==> t[ip].connections <= MAX_CONNECTIONS_PER_IP
  }

  lemma ConnectKeepsWithinCap(t: Table, ip: string, now: int)
    requires WithinCap(t)
    ensures WithinCap(AfterConnect(t, ip, now))
  {
  }

  /** A disconnect never drives a count below zero. */
  lemma DisconnectNeverNegative(t: Table, ip: string, now: int)
    requires forall a :: a in t ==> t[a].connections >= 0
    ensures forall a :: a in AfterDisconnect(t, ip, now) ==> AfterDisconnect(t, ip, now)[a].connections >= 0
  {
  }

  /** The number of sockets an IP really has open. */
  function OpenCount(open: map<string, nat>, ip: string): nat
  {
    if ip in open then open[ip] else 0
  }

  /**
   * The table tells the truth about open sockets: every IP with an open socket
   * has an entry, and every entry counts exactly that IP's open sockets.
   */
  predicate Tracks(t: Table, open: map<string, nat>)
  {
    (forall ip :: ip in open && open[ip] > 0 ==> ip in t)
    && (forall ip :: ip in t ==> t[ip].connections == OpenCount(open, ip))
  }

  /** No IP really holds more than the cap. */
  predicate OpenWithinCap(open: map<string, nat>)
  {
    forall ip :: ip in open ==> open[ip] <= MAX_CONNECTIONS_PER_IP
  }

  /**
   * While the table tracks the open sockets, it admits exactly when the IP holds
   * fewer than 5, and it keeps tracking them afterwards; so the real number of
   * open sockets per IP never exceeds the cap.
   */
  lemma ConnectTracks(t: Table, open: map<string, nat>, ip: string, now: int)
    requires Tracks(t, open)
    ensures Admits(t, ip) <==> OpenCount(open, ip) < MAX_CONNECTIONS_PER_IP
    ensures Tracks(AfterConnect(t, ip, now), if Admits(t, ip) then open[ip := OpenCount(open, ip) + 1] else open)
    ensures OpenWithinCap(open) ==>
      OpenWithinCap(if Admits(t, ip) then open[ip := OpenCount(open, ip) + 1] else open)
  {
  }

  /** Closing one of an IP's open sockets keeps the table tracking them. */
  lemma DisconnectTracks(t: Table, open: map<string, nat>, ip: string, now: int)
    requires Tracks(t, open) && OpenCount(open, ip) > 0
    ensures Tracks(AfterDisconnect(t, ip, now), open[ip := OpenCount(open, ip) - 1])
  {
  }

  /** The corrected sweep keeps the table tracking the open sockets. */
  lemma ExpireIdleTracks(t: Table, open: map<string, nat>, now: int)
    requires Tracks(t, open)
    ensures Tracks(ExpireIdle(t, now), open)
  {
  }

  /**
   * The sweep as written: an IP opens 5 sockets at time 0 and keeps them open;
   * the sweep at 60,001 ms forgets the IP, and the next connection from it is
   * admitted although it already holds 5.
   */
  lemma ExpireBreaksTracking()
    ensures var t := map["10.0.0.1" := IpStats(5, 0)];
            var open := map["10.0.0.1" := 5];
            Tracks(t, open)
            && Expire(t, 60001) == map[]
            && !Tracks(Expire(t, 60001), open)
            && Admits(Expire(t, 60001), "10.0.0.1")
            && OpenCount(open, "10.0.0.1") + 1 > MAX_CONNECTIONS_PER_IP
  {
    var t := map["10.0.0.1" := IpStats(5, 0)];
    assert Expired(t["10.0.0.1"], 60001);
    assert Expire(t, 60001).Keys == {};
  }

  /** The same run with the corrected sweep: the entry stays and the sixth connection is refused. */
  lemma ExpireIdleKeepsCap()
    ensures var t := map["10.0.0.1" := IpStats(5, 0)];
            ExpireIdle(t, 60001) == t && !Admits(ExpireIdle(t, 60001), "10.0.0.1")
  {
    var t := map["10.0.0.1" := IpStats(5, 0)];
    assert ExpireIdle(t, 60001).Keys == t.Keys;
  }

  /** The `ipStats` table. */
  class IpTable {
    var stats: Table

    constructor ()
      ensures stats == map[]
    {
      stats := map[];
    }

    /** `canConnect`: admits an unseen IP or one under the cap; always refreshes `lastSeen`. */
    method CanConnect(ip: string, now: int) returns (ok: bool)
      modifies this
      ensures ok <==> Admits(old(stats), ip)
      ensures stats == AfterConnect(old(stats), ip, now)
    {
      if ip !in stats {
        stats := stats[ip := IpStats(1, now)];
        return true;
      }
      var s := stats[ip].(lastSeen := now);
      stats := stats[ip := s];
      if s.connections >= MAX_CONNECTIONS_PER_IP {
        return false;
      }
      stats := stats[ip := s.(connections := s.connections + 1)];
      ok := true;
    }

    /** `onDisconnect`: one fewer connection, never below zero; unknown IPs are ignored. */
    method OnDisconnect(ip: string, now: int)
      modifies this
      ensures stats == AfterDisconnect(old(stats), ip, now)
    {
      if ip !in stats {
        return;
      }
      var s := stats[ip];
      stats := stats[ip := IpStats(if s.connections - 1 >= 0 then s.connections - 1 else 0, now)];
    }

    /** `cleanupIps` as written: walks the table and deletes every expired entry. */
    method CleanupIps(now: int)
      modifies this
      ensures stats == Expire(old(stats), now)
    {
      var pending := stats.Keys;
      while pending != {}
        invariant pending <= old(stats).Keys
        invariant forall ip :: ip in stats <==> ip in old(stats) && (ip in pending || !Expired(old(stats)[ip], now))
        invariant forall ip :: ip in stats ==> stats[ip] == old(stats)[ip]
        decreases pending
      {
        var ip :| ip in pending;
        if Expired(stats[ip], now) {
          stats := stats - {ip};
        }
        pending := pending - {ip};
      }
    }

    /** The corrected sweep: an expired entry goes only when it holds no connection. */
    method CleanupIdleIps(now: int)
      modifies this
      ensures stats == ExpireIdle(old(stats), now)
    {
      var pending := stats.Keys;
      while pending != {}
        invariant pending <= old(stats).Keys
        invariant forall ip :: ip in stats <==> ip in old(stats) && (ip in pending || !Idle(old(stats)[ip], now))
        invariant forall ip :: ip in stats ==> stats[ip] == old(stats)[ip]
        decreases pending
      {
        var ip :| ip in pending;
        if Idle(stats[ip], now) {
          stats := stats - {ip};
        }
        pending := pending - {ip};
      }
    }
  }
}
