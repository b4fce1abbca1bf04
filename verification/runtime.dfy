/**
 * The session runtime (backend/src/session/runtime.ts): the one live session,
 * the result of the last finalized session and an optional hub for
 * announcements. The ledger, the persisted pointer and the contract bridge are
 * the process-wide singletons the runtime writes. Clock readings and the random
 * seed are parameters.
 */
module Runtime {

  import opened Wrappers
  import opened Players
  import opened Leaderboard
  import opened SessionData
  import Probability
  import Scheduler
  import Allowance
  import Store
  import Chain
  import Protocol
  import Hub

  /** `hasActiveSession`: a session exists and is not finalized. */
  predicate IsActive(session: Option<Session>)
  {
    session.Some? && !session.value.finalized
  }

  /** `getPublicSessionSnapshot` as a function of the runtime state and the clock. */
  function PublicSnapshotOf(
    session: Option<Session>, lastFinalized: Option<LastFinalized>,
    rates: Probability.Rates, startHour: int, now: int): (r: PublicSnapshot)
    ensures r.Inactive? <==> !IsActive(session)
    ensures r.Inactive? ==>
      r.lastSession == lastFinalized && r.nextSessionStartsAt == Scheduler.NextSessionStart(startHour, now)
    ensures r.Active? ==>
      var s := session.value;
      && r.id == s.id && r.startedAt == s.startedAt && r.totalFlips == s.totalFlips
      && r.headsProbability == Probability.HeadsProbability(rates, s.startedAt, s.totalFlips, now)
      && r.leaderboard == BuildLeaderboard(s.players)
      && !r.finalized
      && r.players == |s.players|
  {
    if !IsActive(session) then
      Inactive(lastFinalized, Scheduler.NextSessionStart(startHour, now))
    else
      var s := session.value;
      Active(s.id, s.startedAt, s.totalFlips,
             Probability.HeadsProbability(rates, s.startedAt, s.totalFlips, now),
             BuildLeaderboard(s.players), s.finalized, |s.players|)
  }

  /** The public snapshot never depends on the seed: it cannot leak it. */
  lemma SnapshotIgnoresSeed(
    s: Session, seed: string, lastFinalized: Option<LastFinalized>,
    rates: Probability.Rates, startHour: int, now: int)
    ensures PublicSnapshotOf(Some(s), lastFinalized, rates, startHour, now)
         == PublicSnapshotOf(Some(s.(seed := seed)), lastFinalized, rates, startHour, now)
  {
  }

  /** An active snapshot's leaderboard is the top of the final standings: at most 10 entries, positive streaks, sorted. */
  lemma ActiveLeaderboardShape(
    s: Session, lastFinalized: Option<LastFinalized>, rates: Probability.Rates, startHour: int, now: int)
    requires !s.finalized
    ensures var r := PublicSnapshotOf(Some(s), lastFinalized, rates, startHour, now);
      && r.Active?
      && |r.leaderboard| <= DEFAULT_LIMIT
      && SortedByStreak(r.leaderboard)
      && (forall i :: 0 <= i < |r.leaderboard| ==> r.leaderboard[i].streak > 0)
      && r.leaderboard == Take(Filter(BuildFinalLeaderboard(s.players), PositiveStreak), DEFAULT_LIMIT)
  {
    LeaderboardIsTopOfFinal(s.players, DEFAULT_LIMIT);
  }

  /** The payload hashed for the proof: the live seed and the last result. */
  function ProofPayloadOf(s: Session, last: LastFinalized): (p: ProofPayload)
    ensures p.seed == s.seed && p.sessionId == last.sessionId && p.winner == last.winner
    ensures p.totalFlips == last.totalFlips && p.leaderboard == last.finalLeaderboard
  {
    ProofPayload(s.seed, last.sessionId, last.winner, last.totalFlips, last.finalLeaderboard)
  }

  /**
   * `computeSessionProofHash`, the hash being a parameter: no hash unless both a
   * session and a last result exist.
   */
  function ProofHashOf(session: Option<Session>, lastFinalized: Option<LastFinalized>, hash: ProofPayload -> string): (r: Option<string>)
    ensures r.None? <==> session.None? || lastFinalized.None?
    ensures r.Some? ==> r.value == hash(ProofPayloadOf(session.value, lastFinalized.value))
  {
    if session.None? then None
    else if lastFinalized.None? then None
    else Some(hash(ProofPayloadOf(session.value, lastFinalized.value)))
  }

  /** Of the live session, the proof hash uses only the seed. */
  lemma ProofHashUsesOnlySeed(s: Session, t: Session, last: LastFinalized, hash: ProofPayload -> string)
    requires s.seed == t.seed
    ensures ProofHashOf(Some(s), Some(last), hash) == ProofHashOf(Some(t), Some(last), hash)
  {
  }

  /** The session `startNewSession` installs at time `now`. */
  function FreshSession(now: int, seed: string): (s: Session)
    ensures s.id == now && s.startedAt == now && !s.finalized && s.seed == seed
    ensures s.players == [] && s.totalFlips == 0
  {
    Session(now, now, false, seed, [], 0)
  }

  /** The session `restoreSessionFromDisk` rebuilds from the pointer. */
  function RestoredSession(p: Store.Pointer, seed: string): (s: Session)
    ensures s.id == p.sessionId && s.startedAt == p.startedAt && s.finalized == p.finalized
    ensures s.seed == seed && s.players == [] && s.totalFlips == 0
  {
    Session(p.sessionId, p.startedAt, p.finalized, seed, [], 0)
  }

  class SessionRuntime {
    var session: Option<Session>
    var lastFinalized: Option<LastFinalized>
    var hubRef: Hub.Hub?
    const ledger: Allowance.Ledger
    const store: Store.PointerSlot
    const chain: Chain.ChainBridge
    /** The three probability rates, read once at load. */
    const rates: Probability.Rates
    /** The configured daily start hour (UTC). */
    const startHour: int

    constructor (ledger: Allowance.Ledger, store: Store.PointerSlot, chain: Chain.ChainBridge, rates: Probability.Rates, startHour: int)
      ensures session == None && lastFinalized == None && hubRef == null
      ensures this.ledger == ledger && this.store == store && this.chain == chain
      ensures this.rates == rates && this.startHour == startHour
    {
      session := None;
      lastFinalized := None;
      hubRef := null;
      this.ledger := ledger;
      this.store := store;
      this.chain := chain;
      this.rates := rates;
      this.startHour := startHour;
    }

    /** The objects a runtime method may change besides itself. */
    function HubFrame(): set<object>
      reads this
    {
      if hubRef != null then {hubRef, hubRef.wire} else {}
    }

    predicate HasActiveSession()
      reads this
    {
      IsActive(session)
    }

    function GetPublicSessionSnapshot(now: int): (r: PublicSnapshot)
      reads this
      ensures r == PublicSnapshotOf(session, lastFinalized, rates, startHour, now)
    {
      PublicSnapshotOf(session, lastFinalized, rates, startHour, now)
    }

    function ComputeSessionProofHash(hash: ProofPayload -> string): (r: Option<string>)
      reads this
      ensures r == ProofHashOf(session, lastFinalized, hash)
    {
      ProofHashOf(session, lastFinalized, hash)
    }

    /** `setLastFinalizedSession`: only the last-result slot changes. */
    method SetLastFinalizedSession(data: LastFinalized)
      modifies this
      ensures lastFinalized == Some(data)
      ensures session == old(session) && hubRef == old(hubRef)
    {
      lastFinalized := Some(data);
    }

    /** `clearSession`: afterwards there is no session and none is active. */
    method ClearSession()
      modifies this
      ensures session == None && !HasActiveSession()
      ensures lastFinalized == old(lastFinalized) && hubRef == old(hubRef)
    {
      session := None;
    }

    /**
     * `restoreSessionFromDisk`: empties the ledger and installs the pointer's
     * session with a new seed, no players and no flips.
     */
    method RestoreSessionFromDisk(p: Store.Pointer, seed: string)
      modifies this, ledger
      ensures session == Some(RestoredSession(p, seed))
      ensures ledger.balances == map[]
      ensures lastFinalized == old(lastFinalized) && hubRef == old(hubRef)
    {
      ledger.ResetAllowance();
      session := Some(RestoredSession(p, seed));
    }

    /**
     * The synchronous part of `startNewSession`: empties the ledger, installs a
     * fresh session whose id and start are `now`, and issues the on-chain start.
     * Persisting and announcing wait for that call (`CompleteSessionStart`).
     */
    method StartNewSession(now: int, seed: string)
      modifies this, ledger, chain
      ensures session == Some(FreshSession(now, seed)) && HasActiveSession()
      ensures ledger.balances == map[]
      ensures chain.requests == old(chain.requests) + [Chain.StartSession(now)]
      ensures lastFinalized == old(lastFinalized) && hubRef == old(hubRef)
      ensures store.pointer == old(store.pointer)
    {
      ledger.ResetAllowance();
      session := Some(FreshSession(now, seed));
      chain.Submit(Chain.StartSession(now));
    }

    /**
     * The rest of `startNewSession`, run when the on-chain start settles. When it
     * failed the function rejects and nothing more happens; otherwise the
     * session then current is persisted as not finalized and, when a hub is
     * attached, its snapshot is broadcast as `session_started`.
     */
    method CompleteSessionStart(chainOk: bool, now: int, sendFails: Hub.Socket -> bool)
      requires hubRef != null ==> hubRef.Valid()
      modifies store, HubFrame()
      ensures !chainOk || session.None? ==> store.pointer == old(store.pointer)
      ensures chainOk && session.Some? ==>
        store.pointer == Some(Store.Pointer(session.value.id, session.value.startedAt, false))
      ensures hubRef != null ==> hubRef.Valid()
      ensures hubRef != null && chainOk && session.Some? ==>
        && hubRef.clients == Hub.Survivors(old(hubRef.clients), sendFails)
        && hubRef.wire.log == old(hubRef.wire.log) +
             Hub.FramesTo(hubRef.clients, Protocol.SessionStarted(GetPublicSessionSnapshot(now)))
      ensures hubRef != null && !(chainOk && session.Some?) ==>
        hubRef.clients == old(hubRef.clients) && hubRef.wire.log == old(hubRef.wire.log)
    {
      if !chainOk || session.None? {
        return;
      }
      var s := session.value;
      store.Save(Store.Pointer(s.id, s.startedAt, false));
      if hubRef != null {
        hubRef.Broadcast(Protocol.SessionStarted(GetPublicSessionSnapshot(now)), sendFails);
      }
    }

    /** `initRuntimeSession`: attaches the hub, then starts a session. */
    method InitRuntimeSession(hub: Hub.Hub, now: int, seed: string)
      modifies this, ledger, chain
      ensures hubRef == hub
      ensures session == Some(FreshSession(now, seed))
      ensures ledger.balances == map[]
      ensures chain.requests == old(chain.requests) + [Chain.StartSession(now)]
      ensures lastFinalized == old(lastFinalized)
    {
      hubRef := hub;
      StartNewSession(now, seed);
    }
  }
}
