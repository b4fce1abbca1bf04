/**
 * The WebSocket server of backend/src/server.ts: the boot-time restore, the
 * per-IP gate on a new connection, the per-connection state (authentication,
 * pending nonce, message-rate window) and the handlers of its messages, and
 * the IP-table sweep that backend/src/index.ts runs on a timer.
 *
 * Every frame a handler sends goes to the shared wire log, addressed to the
 * connection's socket; broadcasts go through the hub. Clock readings, random
 * bytes, signer recovery, keccak and the proof hash are parameters.
 */
module Server {

  import opened Wrappers
  import opened Players
  import opened SessionData
  import opened ServerRules
  import Protocol
  import Hub
  import Runtime
  import Limits
  import Allowance
  import PlayerSnapshot
  import Scheduler
  import Store
  import Chain
  import Rebuild
  import Probability

  /** The close code of a connection refused by the per-IP cap (policy violation). */
  const POLICY_VIOLATION: nat := 1008

  /** The `player_state` reply after a successful `auth_verify`: only for a player the live table knows. */
  function KnownPlayerReply(socket: Hub.Socket, session: Option<Session>, balances: map<string, int>,
                            address: string, now: int): (r: seq<Hub.Delivery>)
    ensures |r| <= 1
    ensures r == [] <==> session.None? || Get(session.value.players, address).None?
    ensures r != [] ==> r[0] == Hub.Frame(socket, Protocol.PlayerState(
      PlayerSnapshot.BuildPlayerSnapshot(address, Get(session.value.players, address).value, balances, now)))
  {
    if session.None? then []
    else match Get(session.value.players, address)
      case None => []
      case Some(p) => [Hub.Frame(socket, Protocol.PlayerState(PlayerSnapshot.BuildPlayerSnapshot(address, p, balances, now)))]
  }

  /**
   * The two frames an accepted flip sends: the outcome with the credit left
   * after the flip, then the player's updated snapshot.
   */
  function FlipReplies(socket: Hub.Socket, address: string, r: FlipStepResult, balances: map<string, int>, now: int): (d: seq<Hub.Delivery>)
    ensures |d| == 2
    ensures d[0] == Hub.Frame(socket, Protocol.FlipResult(r.heads, r.player.streak, r.probability, Allowance.Balance(balances, address)))
    ensures d[1] == Hub.Frame(socket, Protocol.PlayerState(PlayerSnapshot.BuildPlayerSnapshot(address, r.player, balances, now)))
  {
    [Hub.Frame(socket, Protocol.FlipResult(r.heads, r.player.streak, r.probability, Allowance.Balance(balances, address))),
     Hub.Frame(socket, Protocol.PlayerState(PlayerSnapshot.BuildPlayerSnapshot(address, r.player, balances, now)))]
  }

  /**
   * After an accepted flip both replies report exactly one credit fewer than
   * before, agree on the streak, and the snapshot shows a full cooldown.
   */
  lemma FlipRepliesAfterUse(socket: Hub.Socket, s: Session, address: string, keccak: string -> nat,
                            rates: Probability.Rates, balances: map<string, int>, now: int)
    requires Allowance.Balance(balances, address) > 0
    ensures var r := FlipStep(s, address, keccak, rates, now);
      var after := balances[address := Allowance.Balance(balances, address) - 1];
      var d := FlipReplies(socket, address, r, after, now);
      && d[0].payload.remainingFlips == Allowance.Balance(balances, address) - 1
      && d[1].payload.state.remainingFlips == Allowance.Balance(balances, address) - 1
      && d[1].payload.state.streak == d[0].payload.streak
      && d[1].payload.state.cooldownMs == PlayerSnapshot.COOLDOWN_MS
  {
  }

  /** The state of one open connection, and the handlers of its messages. */
  class Connection {
    const socket: Hub.Socket
    const ip: string
    const hub: Hub.Hub
    const rt: Runtime.SessionRuntime
    var authenticated: bool
    var authedAddress: Option<string>
    var authNonce: Option<string>
    var messageCount: nat
    var windowStart: int

    /** What every handler keeps: a well-formed hub, and a well-formed session. */
    predicate Valid()
      reads this, hub, rt
    {
      hub.Valid() && (rt.session.Some? ==> SessionOk(rt.session.value))
    }

    /** The message-rate window, as one value. */
    function RateWindow(): Window
      reads this
    {
      Window(windowStart, messageCount)
    }

    constructor (socket: Hub.Socket, ip: string, hub: Hub.Hub, rt: Runtime.SessionRuntime, now: int)
      ensures this.socket == socket && this.ip == ip && this.hub == hub && this.rt == rt
      ensures !authenticated && authedAddress == None && authNonce == None
      ensures messageCount == 0 && windowStart == now
    {
      this.socket := socket;
      this.ip := ip;
      this.hub := hub;
      this.rt := rt;
      authenticated := false;
      authedAddress := None;
      authNonce := None;
      messageCount := 0;
      windowStart := now;
    }

    /** `ws.send` on this connection's own socket. */
    method Send(msg: Protocol.Message)
      modifies hub.wire
      ensures hub.wire.log == old(hub.wire.log) + [Hub.Frame(socket, msg)]
    {
      hub.wire.Send(socket, msg);
    }

    /**
     * One incoming frame at time `now`. The rate window is advanced first; a
     * frame over the limit gets the rate-limit error and nothing else happens.
     * Otherwise the frame is dispatched on its type; a malformed frame or one
     * of another type changes nothing.
     */
    method OnMessage(msg: Inbound, now: int, entropy: string,
                     recover: (string, string) -> Option<string>, keccak: string -> nat,
                     hash: ProofPayload -> string, sendFails: Hub.Socket -> bool)
      requires Valid()
      modifies this, rt, rt.ledger, rt.store, rt.chain, hub, hub.wire
      ensures Valid()
      ensures RateWindow() == Arrive(old(RateWindow()), now)
      ensures Limited(RateWindow()) || msg.Malformed? || msg.Other? ==>
        && authenticated == old(authenticated) && authedAddress == old(authedAddress) && authNonce == old(authNonce)
        && RuntimeAsBefore(old(rt.session), old(rt.lastFinalized), old(rt.ledger.balances), old(rt.store.pointer),
                           old(rt.chain.requests), old(hub.clients))
      ensures Limited(RateWindow()) ==> hub.wire.log == old(hub.wire.log) + [Hub.Frame(socket, Protocol.RateLimitedError)]
      ensures !Limited(RateWindow()) && (msg.Malformed? || msg.Other?) ==> hub.wire.log == old(hub.wire.log)
      // auth_request
      ensures !Limited(RateWindow()) && msg.AuthRequest? ==>
        && authenticated == old(authenticated) && authedAddress == old(authedAddress)
        && RuntimeAsBefore(old(rt.session), old(rt.lastFinalized), old(rt.ledger.balances), old(rt.store.pointer),
                           old(rt.chain.requests), old(hub.clients))
        && (!Truthy(msg.address) ==> authNonce == old(authNonce) && hub.wire.log == old(hub.wire.log))
        && (Truthy(msg.address) ==>
              && authNonce == Some(NonceText(now, entropy))
              && hub.wire.log == old(hub.wire.log) + [Hub.Frame(socket, Protocol.AuthChallenge(NonceText(now, entropy)))])
      // auth_verify
      ensures !Limited(RateWindow()) && msg.AuthVerify? ==>
        && authNonce == old(authNonce)
        && RuntimeAsBefore(old(rt.session), old(rt.lastFinalized), old(rt.ledger.balances), old(rt.store.pointer),
                           old(rt.chain.requests), old(hub.clients))
        && var ok := Verifies(old(authNonce), msg.address, msg.signature, recover);
        && (ok ==>
              && authenticated && authedAddress == msg.address
              && hub.wire.log == old(hub.wire.log) + [Hub.Frame(socket, Protocol.AuthOk)]
                 + KnownPlayerReply(socket, rt.session, rt.ledger.balances, msg.address.value, now))
        && (!ok ==>
              && authenticated == old(authenticated) && authedAddress == old(authedAddress)
              && hub.wire.log == old(hub.wire.log) + [Hub.Frame(socket, Protocol.AuthFailed)])
      // hello
      ensures !Limited(RateWindow()) && msg.Hello? ==>
        && authenticated == old(authenticated) && authedAddress == old(authedAddress) && authNonce == old(authNonce)
        && RuntimeAsBefore(old(rt.session), old(rt.lastFinalized), old(rt.ledger.balances), old(rt.store.pointer),
                           old(rt.chain.requests), old(hub.clients))
        && (!Truthy(msg.address) || rt.session.None? ==> hub.wire.log == old(hub.wire.log))
        && (Truthy(msg.address) && rt.session.Some? ==>
              hub.wire.log == old(hub.wire.log) + [Hub.Frame(socket, Protocol.PlayerState(
                HelloSnapshot(rt.session.value.players, rt.ledger.balances, msg.address.value, now)))])
      // flip
      ensures !Limited(RateWindow()) && msg.FlipRequest? ==>
        && authenticated == old(authenticated) && authedAddress == old(authedAddress) && authNonce == old(authNonce)
        && var o := AdmitFlip(old(authenticated), old(authedAddress), old(rt.session), old(rt.ledger.balances), now);
        && (o != Accepted ==>
              && RuntimeAsBefore(old(rt.session), old(rt.lastFinalized), old(rt.ledger.balances), old(rt.store.pointer),
                                 old(rt.chain.requests), old(hub.clients))
              && hub.wire.log == old(hub.wire.log) + (if o.Rejected? then [Hub.Frame(socket, Protocol.FlipRejected(o.reason))] else []))
        && (o == Accepted ==>
              Played(old(rt.session).value, old(authedAddress).value, old(rt.ledger.balances), old(rt.store.pointer),
                     old(rt.chain.requests), old(rt.lastFinalized), old(hub.clients), old(hub.wire.log),
                     now, keccak, hash, sendFails))
    {
      if now - windowStart > RATE_WINDOW_MS {
        windowStart := now;
        messageCount := 0;
      }
      messageCount := messageCount + 1;
      if messageCount > MAX_MESSAGES_PER_SECOND {
        Send(Protocol.RateLimitedError);
        return;
      }
      match msg
      case AuthRequest(address) => HandleAuthRequest(address, now, entropy);
      case AuthVerify(address, signature) => HandleAuthVerify(address, signature, now, recover);
      case Hello(address) => HandleHello(address, now);
      case FlipRequest => HandleFlip(now, keccak, hash, sendFails);
      case Malformed =>
      case Other =>
    }

    /** The runtime's session, record, ledger, pointer, chain requests and the hub's members are the given ones. */
    predicate RuntimeAsBefore(session: Option<Session>, lastFinalized: Option<LastFinalized>, balances: map<string, int>,
                              pointer: Option<Store.Pointer>, requests: seq<Chain.Request>, clients: seq<Hub.Socket>)
      reads rt, rt.ledger, rt.store, rt.chain, hub
    {
      && rt.session == session && rt.lastFinalized == lastFinalized && rt.ledger.balances == balances
      && rt.store.pointer == pointer && rt.chain.requests == requests && hub.clients == clients
    }

    /**
     * `auth_request`: with an address, a new challenge replaces any pending one
     * and is sent; without one, nothing happens.
     */
    method HandleAuthRequest(address: Option<string>, now: int, entropy: string)
      modifies this, hub.wire
      ensures authenticated == old(authenticated) && authedAddress == old(authedAddress)
      ensures RateWindow() == old(RateWindow())
      ensures !Truthy(address) ==> authNonce == old(authNonce) && hub.wire.log == old(hub.wire.log)
      ensures Truthy(address) ==>
        && authNonce == Some(NonceText(now, entropy))
        && hub.wire.log == old(hub.wire.log) + [Hub.Frame(socket, Protocol.AuthChallenge(NonceText(now, entropy)))]
    {
      if !Truthy(address) {
        return;
      }
      var nonce := NonceText(now, entropy);
      authNonce := Some(nonce);
      Send(Protocol.AuthChallenge(nonce));
    }

    /**
     * `auth_verify`: when the pending nonce's signer is the claimed address,
     * the connection becomes authenticated as that address, gets `auth_ok` and,
     * if the live table knows the address, its player state; otherwise
     * `auth_failed` and nothing changes. The nonce stays pending either way.
     */
    method HandleAuthVerify(address: Option<string>, signature: Option<string>, now: int,
                            recover: (string, string) -> Option<string>)
      modifies this, hub.wire
      ensures authNonce == old(authNonce) && RateWindow() == old(RateWindow())
      ensures var ok := Verifies(old(authNonce), address, signature, recover);
        && (ok ==>
              && authenticated && authedAddress == address
              && hub.wire.log == old(hub.wire.log) + [Hub.Frame(socket, Protocol.AuthOk)]
                 + KnownPlayerReply(socket, rt.session, rt.ledger.balances, address.value, now))
        && (!ok ==>
              && authenticated == old(authenticated) && authedAddress == old(authedAddress)
              && hub.wire.log == old(hub.wire.log) + [Hub.Frame(socket, Protocol.AuthFailed)])
    {
      if !Verifies(authNonce, address, signature, recover) {
        Send(Protocol.AuthFailed);
        return;
      }
      authenticated := true;
      authedAddress := address;
      Send(Protocol.AuthOk);
      var reply := KnownPlayerReply(socket, rt.session, rt.ledger.balances, address.value, now);
      if reply != [] {
        Send(reply[0].payload);
        assert reply == [Hub.Frame(socket, reply[0].payload)];
      }
    }

    /**
     * `hello`: with an address and a session (live or finalized), the player
     * state of that address is sent; otherwise nothing.
     */
    method HandleHello(address: Option<string>, now: int)
      modifies hub.wire
      ensures !Truthy(address) || rt.session.None? ==> hub.wire.log == old(hub.wire.log)
      ensures Truthy(address) && rt.session.Some? ==>
        hub.wire.log == old(hub.wire.log) + [Hub.Frame(socket, Protocol.PlayerState(
          HelloSnapshot(rt.session.value.players, rt.ledger.balances, address.value, now)))]
    {
      if !Truthy(address) || rt.session.None? {
        return;
      }
      Send(Protocol.PlayerState(HelloSnapshot(rt.session.value.players, rt.ledger.balances, address.value, now)));
    }

    /**
     * `flip`: the gate decides; a rejection is sent back, a flip with no live
     * session is ignored, and an accepted flip is played (`PlayFlip`).
     */
    method HandleFlip(now: int, keccak: string -> nat, hash: ProofPayload -> string, sendFails: Hub.Socket -> bool)
      requires Valid()
      modifies rt, rt.ledger, rt.store, rt.chain, hub, hub.wire
      ensures Valid()
      ensures var o := AdmitFlip(authenticated, authedAddress, old(rt.session), old(rt.ledger.balances), now);
        o != Accepted ==>
          && rt.session == old(rt.session) && rt.lastFinalized == old(rt.lastFinalized)
          && rt.ledger.balances == old(rt.ledger.balances) && rt.store.pointer == old(rt.store.pointer)
          && rt.chain.requests == old(rt.chain.requests) && hub.clients == old(hub.clients)
          && hub.wire.log == old(hub.wire.log) + (if o.Rejected? then [Hub.Frame(socket, Protocol.FlipRejected(o.reason))] else [])
      ensures AdmitFlip(authenticated, authedAddress, old(rt.session), old(rt.ledger.balances), now) == Accepted ==>
        Played(old(rt.session).value, authedAddress.value, old(rt.ledger.balances), old(rt.store.pointer),
               old(rt.chain.requests), old(rt.lastFinalized), old(hub.clients), old(hub.wire.log),
               now, keccak, hash, sendFails)
    {
      if !authenticated || !Truthy(authedAddress) {
        Send(Protocol.FlipRejected(Protocol.Unauthenticated));
        return;
      }
      var address := authedAddress.value;
      if rt.session.None? || rt.session.value.finalized {
        return;
      }
      if rt.ledger.GetFlips(address) <= 0 {
        Send(Protocol.FlipRejected(Protocol.NoFlipsLeft));
        return;
      }
      var player := PlayerOrFresh(rt.session.value.players, address);
      if now - player.lastFlipAt < PlayerSnapshot.COOLDOWN_MS {
        Send(Protocol.FlipRejected(Protocol.RateLimited));
        return;
      }
      PlayFlip(address, now, keccak, hash, sendFails);
    }

    /**
     * The state after an accepted flip by `address` from session `s`, given the
     * state before it: one credit used, the session advanced by `FlipStep`, the
     * two replies sent and, on a win, the session finalized and announced.
     */
    predicate Played(s: Session, address: string, balances: map<string, int>, pointer: Option<Store.Pointer>,
                              requests: seq<Chain.Request>, lastFinalized: Option<LastFinalized>,
                              clients: seq<Hub.Socket>, log: seq<Hub.Delivery>,
                              now: int, keccak: string -> nat, hash: ProofPayload -> string, sendFails: Hub.Socket -> bool)
      reads this, rt, rt.ledger, rt.store, rt.chain, hub, hub.wire
    {
      var r := FlipStep(s, address, keccak, rt.rates, now);
      var after := balances[address := Allowance.Balance(balances, address) - 1];
      && rt.ledger.balances == after
      && (!Wins(r) ==>
            && rt.session == Some(r.session) && rt.lastFinalized == lastFinalized
            && rt.store.pointer == pointer && rt.chain.requests == requests && hub.clients == clients
            && hub.wire.log == log + FlipReplies(socket, address, r, after, now))
      && (Wins(r) ==>
            var ended := r.session.(finalized := true);
            var record := FinalRecord(r.session, address, now);
            && rt.session == Some(ended) && rt.lastFinalized == Some(record)
            && rt.chain.requests == requests + [Chain.FinalizeSession(s.id, address, hash(Runtime.ProofPayloadOf(ended, record)))]
            && rt.store.pointer == None
            && hub.clients == Hub.Survivors(clients, sendFails)
            && hub.wire.log == log + FlipReplies(socket, address, r, after, now)
               + Hub.FramesTo(hub.clients, Protocol.SessionEnded(record, Scheduler.NextSessionStart(rt.startHour, now))))
    }

    /**
     * An accepted flip: the session's flip count goes up, one credit is used,
     * the coin is flipped and the player's record replaced; the result and
     * the player state are sent, and a streak of 10 ends the session.
     */
    method PlayFlip(address: string, now: int, keccak: string -> nat, hash: ProofPayload -> string, sendFails: Hub.Socket -> bool)
      requires Valid()
      requires address != "" && rt.session.Some? && !rt.session.value.finalized
      requires Allowance.Balance(rt.ledger.balances, address) > 0
      modifies rt, rt.ledger, rt.store, rt.chain, hub, hub.wire
      ensures Valid()
      ensures Played(old(rt.session).value, address, old(rt.ledger.balances), old(rt.store.pointer),
                     old(rt.chain.requests), old(rt.lastFinalized), old(hub.clients), old(hub.wire.log),
                     now, keccak, hash, sendFails)
    {
      var s := rt.session.value;
      var r := FlipStep(s, address, keccak, rt.rates, now);
      FlipStepKeepsSessionOk(s, address, keccak, rt.rates, now);
      var used := rt.ledger.UseFlip(address);
      rt.session := Some(r.session);
      var balances := rt.ledger.balances;
      Send(Protocol.FlipResult(r.heads, r.player.streak, r.probability, rt.ledger.GetFlips(address)));
      Send(Protocol.PlayerState(PlayerSnapshot.BuildPlayerSnapshot(address, r.player, balances, now)));
      assert hub.wire.log == old(hub.wire.log) + FlipReplies(socket, address, r, balances, now);
      if Wins(r) {
        EndSession(address, now, hash, sendFails);
      }
    }

    /**
     * The win: the session is marked finalized, the result recorded, the
     * on-chain finalization issued with the proof hash computed at once, the
     * pointer saved as finalized, `session_ended` broadcast with the next
     * start, and the persisted pointer deleted. The in-memory session stays,
     * finalized, until the next start replaces it.
     */
    method EndSession(address: string, now: int, hash: ProofPayload -> string, sendFails: Hub.Socket -> bool)
      requires hub.Valid() && rt.session.Some? && DistinctAddresses(rt.session.value.players)
      modifies rt, rt.store, rt.chain, hub, hub.wire
      ensures Valid()
      ensures var ended := old(rt.session).value.(finalized := true);
        var record := FinalRecord(old(rt.session).value, address, now);
        && rt.session == Some(ended) && rt.lastFinalized == Some(record)
        && rt.chain.requests == old(rt.chain.requests) + [Chain.FinalizeSession(ended.id, address, hash(Runtime.ProofPayloadOf(ended, record)))]
        && rt.store.pointer == None
        && hub.clients == Hub.Survivors(old(hub.clients), sendFails)
        && hub.wire.log == old(hub.wire.log)
           + Hub.FramesTo(hub.clients, Protocol.SessionEnded(record, Scheduler.NextSessionStart(rt.startHour, now)))
    {
      var ended := rt.session.value.(finalized := true);
      rt.session := Some(ended);
      var record := FinalRecord(ended, address, now);
      rt.SetLastFinalizedSession(record);
      var proofHash := rt.ComputeSessionProofHash(hash);
      if proofHash.Some? {
        rt.chain.Submit(Chain.FinalizeSession(ended.id, address, proofHash.value));
      }
      rt.store.Save(Store.Pointer(ended.id, ended.startedAt, true));
      hub.Broadcast(Protocol.SessionEnded(record, Scheduler.NextSessionStart(rt.startHour, now)), sendFails);
      rt.store.Clear();
    }

    /** The `close` event: the socket leaves the hub and the IP's count goes down. */
    method OnClose(limits: Limits.IpTable, now: int)
      requires hub.Valid()
      modifies hub, limits
      ensures hub.Valid()
      ensures hub.clients == Hub.Without(old(hub.clients), socket)
      ensures limits.stats == Limits.AfterDisconnect(old(limits.stats), ip, now)
    {
      hub.Remove(socket);
      limits.OnDisconnect(ip, now);
    }
  }

  /**
   * A new WebSocket connection from `ip` at `now`. Over the per-IP cap it is
   * closed with 1008 and nothing else happens; otherwise the socket joins the
   * hub, gets a fresh connection state and is sent the public session snapshot.
   */
  method Accept(limits: Limits.IpTable, hub: Hub.Hub, rt: Runtime.SessionRuntime, socket: Hub.Socket, ip: string, now: int)
    returns (c: Connection?)
    requires hub.Valid()
    modifies limits, hub, hub.wire
    ensures hub.Valid()
    ensures limits.stats == Limits.AfterConnect(old(limits.stats), ip, now)
    ensures c == null <==> !Limits.Admits(old(limits.stats), ip)
    ensures c == null ==>
      hub.clients == old(hub.clients) && hub.wire.log == old(hub.wire.log) + [Hub.Close(socket, POLICY_VIOLATION)]
    ensures c != null ==>
      && fresh(c) && c.socket == socket && c.ip == ip && c.hub == hub && c.rt == rt
      && !c.authenticated && c.authedAddress == None && c.authNonce == None && c.RateWindow() == Window(now, 0)
      && (socket in old(hub.clients) ==> hub.clients == old(hub.clients))
      && (socket !in old(hub.clients) ==> hub.clients == old(hub.clients) + [socket])
      && hub.wire.log == old(hub.wire.log) + [Hub.Frame(socket, Protocol.SessionSnapshot(rt.GetPublicSessionSnapshot(now)))]
  {
    var ok := limits.CanConnect(ip, now);
    if !ok {
      hub.wire.CloseSocket(socket, POLICY_VIOLATION);
      return null;
    }
    hub.Add(socket);
    c := new Connection(socket, ip, hub, rt, now);
    c.Send(Protocol.SessionSnapshot(rt.GetPublicSessionSnapshot(now)));
  }

  /**
   * The boot-time restore: a persisted pointer of a session that did not
   * finish is reinstated with a new seed, and its credits are replayed from
   * the purchase logs. Anything else leaves the runtime as it is.
   */
  method RestoreOnBoot(rt: Runtime.SessionRuntime, seed: string, eventDefined: bool, getLogs: string -> seq<Rebuild.PurchaseLog>)
    modifies rt, rt.ledger
    ensures var p := rt.store.pointer;
      && (p.None? || p.value.finalized ==>
            rt.session == old(rt.session) && rt.ledger.balances == old(rt.ledger.balances))
      && (p.Some? && !p.value.finalized ==>
            && rt.session == Some(Runtime.RestoredSession(p.value, seed))
            && rt.ledger.balances == (if eventDefined then Rebuild.Replay(map[], getLogs(Rebuild.SessionTopic(p.value.sessionId))) else map[]))
    ensures rt.lastFinalized == old(rt.lastFinalized)
  {
    var persisted := rt.store.pointer;
    if persisted.None? || persisted.value.finalized {
      return;
    }
    rt.RestoreSessionFromDisk(persisted.value, seed);
    Rebuild.RebuildAllowanceFromChain(rt.ledger, eventDefined, persisted.value.sessionId, getLogs);
  }

  /**
   * The timer of backend/src/index.ts that sweeps the IP table every 30 seconds.
   * It runs the sweep as written, which also drops entries that still count open
   * connections (see `Limits.ExpireBreaksTracking`).
   */
  const CLEANUP_INTERVAL_MS := 30000

  method CleanupTick(limits: Limits.IpTable, now: int)
    modifies limits
    ensures limits.stats == Limits.Expire(old(limits.stats), now)
  {
    limits.CleanupIps(now);
  }
}
