/**
 * The records the session runtime holds and publishes
 * (backend/src/session/runtime.ts): the live session, the result of the last
 * finalized session, the public snapshot and the payload the proof hash covers.
 */
module SessionData {

  import opened Players
  import opened Leaderboard

  /** `RuntimeSession`. `id` and `startedAt` are epoch milliseconds. */
  datatype Session = Session(
    id: int,
    startedAt: int,
    finalized: bool,
    seed: string,
    players: PlayerMap,
    totalFlips: nat)

  /** `LastFinalizedSession`. */
  datatype LastFinalized = LastFinalized(
    sessionId: int,
    winner: string,
    finalLeaderboard: seq<LeaderEntry>,
    totalFlips: nat,
    endedAt: int)

  /**
   * What `getPublicSessionSnapshot` returns: the inactive shape (with the last
   * result when there is one) or the active shape. Neither carries the seed.
   */
  datatype PublicSnapshot =
    | Inactive(lastSession: Wrappers.Option<LastFinalized>, nextSessionStartsAt: int)
    | Active(
        id: int,
        startedAt: int,
        totalFlips: nat,
        headsProbability: real,
        leaderboard: seq<LeaderEntry>,
        finalized: bool,
        players: nat)

  /** The object serialised and hashed as the session proof. */
  datatype ProofPayload = ProofPayload(
    seed: string,
    sessionId: int,
    winner: string,
    totalFlips: nat,
    leaderboard: seq<LeaderEntry>)
}
