/**
 * The two contract calls the backend issues (backend/src/chain/startSession.ts,
 * backend/src/chain/finalizeSession.ts). Submitting and awaiting a transaction
 * is outside the model; the bridge records which calls were issued, in order.
 */
module Chain {

  datatype Request =
    | StartSession(sessionId: int)
    | FinalizeSession(sessionId: int, winner: string, proofHash: string)

  class ChainBridge {
    var requests: seq<Request>

    constructor ()
      ensures requests == []
    {
      requests := [];
    }

    method Submit(r: Request)
      modifies this
      ensures requests == old(requests) + [r]
    {
      requests := requests + [r];
    }
  }
}
