/**
 * The credit ledger (backend/src/session/allowance.ts): a module-level map from
 * address to the number of flips that address has bought and not yet used.
 */
module Allowance {

  import opened Wrappers

  /** The credit of an address: one never credited reads as 0. */
  function Balance(balances: map<string, int>, address: string): int
  {
    if address in balances then balances[address] else 0
  }

  /** Credits never go negative. */
  ghost predicate NonNegative(balances: map<string, int>)
  {
    forall a :: a in balances ==> balances[a] >= 0
  }

  /** `addFlips` as a function of the balances: the one address gains `flips`. */
  function Credit(balances: map<string, int>, address: string, flips: int): (r: map<string, int>)
    ensures r.Keys == balances.Keys + {address}
    ensures Balance(r, address) == Balance(balances, address) + flips
    ensures forall a :: a != address ==> Balance(r, a) == Balance(balances, a)
  {
    balances[address := Balance(balances, address) + flips]
  }

  lemma CreditKeepsNonNegative(balances: map<string, int>, address: string, flips: nat)
    requires NonNegative(balances)
    ensures NonNegative(Credit(balances, address, flips))
  {
  }

  datatype LedgerError = NoFlipsLeft

  class Ledger {
    var balances: map<string, int>

    constructor ()
      ensures balances == map[]
    {
      balances := map[];
    }

    /** `resetAllowance`: a fresh, empty map, so every address reads 0. */
    method ResetAllowance()
      modifies this
      ensures balances == map[]
      ensures forall a :: Balance(balances, a) == 0
    {
      balances := map[];
    }

    /** `addFlips`: the address's balance becomes old + flips; nobody else changes. */
    method AddFlips(address: string, flips: nat)
      modifies this
      ensures balances == Credit(old(balances), address, flips)
      ensures NonNegative(old(balances)) ==> NonNegative(balances)
    {
      balances := balances[address := Balance(balances, address) + flips];
    }

    /** `getFlips`. */
    function GetFlips(address: string): (r: int)
      reads this
      ensures address !in balances ==> r == 0
      ensures address in balances ==> r == balances[address]
    {
      Balance(balances, address)
    }

    /**
     * `useFlip`: throws NO_FLIPS_LEFT, changing nothing, when the balance is at
     * most 0; otherwise takes exactly one credit from exactly that address.
     */
    method UseFlip(address: string) returns (r: Result<(), LedgerError>)
      modifies this
      ensures old(Balance(balances, address)) <= 0 ==> r == Err(NoFlipsLeft) && balances == old(balances)
      ensures old(Balance(balances, address)) > 0 ==>
        r.Ok? && balances == old(balances)[address := old(Balance(balances, address)) - 1]
      ensures NonNegative(old(balances)) ==> NonNegative(balances)
    {
      var current := Balance(balances, address);
      if current <= 0 {
        return Err(NoFlipsLeft);
      }
      balances := balances[address := current - 1];
      r := Ok(());
    }
  }
}
