/**
 * Applying on-chain purchases (backend/src/chain/events.ts): the
 * `FlipPackagePurchased` handler credits the buyer when the event is for the
 * live session, and the provider-recreation routine is guarded against
 * re-entry. Creating the provider and the contract object is outside the model: its
 * success is a parameter.
 */
module Events {

  import opened Wrappers
  import opened SessionData
  import Allowance
  import Runtime

  /** Whether a purchase event is applied: a session exists and its id equals the event's. */
  predicate Applies(session: Option<Session>, eventSessionId: int)
  {
    session.Some? && session.value.id == eventSessionId
  }

  /**
   * `onFlipPurchased`: with no session, or for another session's id, nothing
   * changes; otherwise the buyer gains exactly `flips` and nobody else changes.
   */
  method OnFlipPurchased(rt: Runtime.SessionRuntime, eventSessionId: int, buyer: string, flips: nat)
    modifies rt.ledger
    ensures !Applies(rt.session, eventSessionId) ==> rt.ledger.balances == old(rt.ledger.balances)
    ensures Applies(rt.session, eventSessionId) ==>
      rt.ledger.balances == Allowance.Credit(old(rt.ledger.balances), buyer, flips)
  {
    if rt.session.None? {
      return;
    }
    if rt.session.value.id != eventSessionId {
      return;
    }
    rt.ledger.AddFlips(buyer, flips);
  }

  const RESUBSCRIBE_INTERVAL_MS := 4 * 60 * 60 * 1000
  const RECREATE_COOLDOWN_MS := 1000

  /**
   * The subscription state of the module: the `recreating` flag, how many
   * delayed resets of it are pending, how many contract listeners were attached
   * and whether the periodic resubscription timer is armed.
   */
  class Resubscriber {
    var recreating: bool
    var pendingResets: nat
    var listenersAttached: nat
    var resubscriptionArmed: bool

    constructor ()
      ensures !recreating && pendingResets == 0 && listenersAttached == 0 && !resubscriptionArmed
    {
      recreating := false;
      pendingResets := 0;
      listenersAttached := 0;
      resubscriptionArmed := false;
    }

    /**
     * `recreateProviderAndContract`: a call while `recreating` is set does
     * nothing. Otherwise the flag is set, a listener is attached when creating
     * the provider and contract succeeds, and in every case one delayed reset is
     * scheduled; a failure is reported to the caller.
     */
    method RecreateProviderAndContract(providerOk: bool) returns (r: Result<(), string>)
      modifies this
      ensures old(recreating) ==>
        r.Ok? && recreating && pendingResets == old(pendingResets) && listenersAttached == old(listenersAttached)
      ensures !old(recreating) ==>
        && recreating
        && pendingResets == old(pendingResets) + 1
        && listenersAttached == old(listenersAttached) + (if providerOk then 1 else 0)
        && (r.Ok? <==> providerOk)
      ensures resubscriptionArmed == old(resubscriptionArmed)
    {
      if recreating {
        return Ok(());
      }
      recreating := true;
      if providerOk {
        listenersAttached := listenersAttached + 1;
        r := Ok(());
      } else {
        r := Err("provider recreation failed");
      }
      pendingResets := pendingResets + 1;
    }

    /** The delayed callback: the only place that clears `recreating`. */
    method OnResetTimer()
      requires pendingResets > 0
      modifies this
      ensures !recreating && pendingResets == old(pendingResets) - 1
      ensures listenersAttached == old(listenersAttached) && resubscriptionArmed == old(resubscriptionArmed)
    {
      recreating := false;
      pendingResets := pendingResets - 1;
    }

    /** `scheduleResubscription`: any previous timer is cleared, so exactly one is armed. */
    method ScheduleResubscription()
      modifies this
      ensures resubscriptionArmed
      ensures recreating == old(recreating) && pendingResets == old(pendingResets)
      ensures listenersAttached == old(listenersAttached)
    {
      resubscriptionArmed := true;
    }

    /** `subscribeToFlipPurchases`: the first recreation, then the periodic timer. */
    method SubscribeToFlipPurchases(providerOk: bool) returns (r: Result<(), string>)
      modifies this
      ensures old(recreating) ==>
        && r.Ok? && recreating && resubscriptionArmed
        && pendingResets == old(pendingResets) && listenersAttached == old(listenersAttached)
      ensures !old(recreating) && providerOk ==>
        && r.Ok? && recreating && resubscriptionArmed
        && pendingResets == old(pendingResets) + 1 && listenersAttached == old(listenersAttached) + 1
      ensures !old(recreating) && !providerOk ==>
        && r.Err? && recreating && resubscriptionArmed == old(resubscriptionArmed)
        && pendingResets == old(pendingResets) + 1 && listenersAttached == old(listenersAttached)
    {
      r := RecreateProviderAndContract(providerOk);
      if r.Err? {
        return;
      }
      ScheduleResubscription();
    }
  }
}
