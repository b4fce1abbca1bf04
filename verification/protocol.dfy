/**
 * The server-to-client messages of the WebSocket protocol
 * (backend/src/server.ts, backend/src/session/runtime.ts). Each constructor is
 * one `type` value; its fields are the message's other fields.
 */
module Protocol {

  import opened SessionData
  import PlayerSnapshot

  datatype RejectReason = Unauthenticated | NoFlipsLeft | RateLimited

  datatype Message =
    | SessionSnapshot(data: PublicSnapshot)
    | SessionStarted(data: PublicSnapshot)
    | SessionEnded(ended: LastFinalized, nextSessionStartsAt: int)
    | AuthChallenge(nonce: string)
    | AuthOk
    | AuthFailed
    | PlayerState(state: PlayerSnapshot.Snapshot)
    | FlipResult(heads: bool, streak: nat, probability: real, remainingFlips: int)
    | FlipRejected(reason: RejectReason)
    /** The reply to a message over the per-connection rate limit. */
    | RateLimitedError
}
