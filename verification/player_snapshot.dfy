/**
 * The per-player view sent as `player_state` (backend/src/session/playerSnapshot.ts):
 * the streak, the ledger balance and how long the one-second flip cooldown
 * still runs. The clock reading is a parameter.
 */
module PlayerSnapshot {

  import opened Players
  import Allowance

  const COOLDOWN_MS := 1000

  /** The condition under which a flip passes the per-player cooldown. */
  predicate CooldownElapsed(lastFlipAt: int, now: int)
  {
    now - lastFlipAt >= COOLDOWN_MS
  }

  datatype Snapshot = Snapshot(streak: nat, remainingFlips: int, cooldownMs: int)

  function Max(a: int, b: int): int
  {
    if a >= b then a else b
  }

  function BuildPlayerSnapshot(address: string, player: PlayerState, balances: map<string, int>, now: int): (r: Snapshot)
    ensures r.streak == player.streak
    ensures r.remainingFlips == Allowance.Balance(balances, address)
    ensures r.cooldownMs >= 0
    ensures now >= player.lastFlipAt ==> r.cooldownMs <= COOLDOWN_MS
    ensures r.cooldownMs == 0 <==> CooldownElapsed(player.lastFlipAt, now)
    ensures r.cooldownMs > 0 ==> player.lastFlipAt + COOLDOWN_MS == now + r.cooldownMs
  {
    Snapshot(player.streak, Allowance.Balance(balances, address), Max(0, COOLDOWN_MS - (now - player.lastFlipAt)))
  }
}
