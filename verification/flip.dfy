/**
 * The coin flip of backend/src/session/flip.ts. Keccak-256 of the UTF-8 text
 * `seed:player:nonce`, read as an unsigned 256-bit number, is an oracle
 * parameter; the flip is heads when that number modulo 10,000 falls below the
 * probability scaled to 10,000.
 */
module Flip {

  import Digits

  const ROLL_RANGE: nat := 10000

  /** The hashed message: seed, player and the decimal nonce, joined by colons. */
  function FlipMessage(seed: string, player: string, nonce: nat): string
  {
    seed + ":" + player + ":" + Digits.ToBase(nonce, 10)
  }

  /** The roll: the hash as a number, reduced modulo 10,000. */
  function Roll(keccak: string -> nat, seed: string, player: string, nonce: nat): (r: nat)
    ensures r < ROLL_RANGE
  {
    keccak(FlipMessage(seed, player, nonce)) % ROLL_RANGE
  }

  /** The probability scaled to 10,000 and rounded down. */
  function Threshold(probability: real): int
  {
    (probability * ROLL_RANGE as real).Floor
  }

  /**
   * `performFlip`: heads exactly when the roll is below the threshold. What this
   * means for probabilities 0 and 1 and for a larger probability is stated by
   * `NeverHeadsAtZero`, `AlwaysHeadsAtOne` and `MonotoneInProbability` below.
   */
  function PerformFlip(keccak: string -> nat, seed: string, player: string, nonce: nat, probability: real): (heads: bool)
    ensures heads <==> Roll(keccak, seed, player, nonce) < Threshold(probability)
  {
    Roll(keccak, seed, player, nonce) < Threshold(probability)
  }

  /** A probability of 0 or less never gives heads. */
  lemma NeverHeadsAtZero(keccak: string -> nat, seed: string, player: string, nonce: nat, probability: real)
    requires probability <= 0.0
    ensures !PerformFlip(keccak, seed, player, nonce, probability)
  {
    assert probability * ROLL_RANGE as real <= 0.0;
  }

  /** A probability of 1 or more always gives heads. */
  lemma AlwaysHeadsAtOne(keccak: string -> nat, seed: string, player: string, nonce: nat, probability: real)
    requires probability >= 1.0
    ensures PerformFlip(keccak, seed, player, nonce, probability)
  {
    assert probability * ROLL_RANGE as real >= ROLL_RANGE as real;
  }

  /** For the same roll, raising the probability can only turn tails into heads. */
  lemma MonotoneInProbability(keccak: string -> nat, seed: string, player: string, nonce: nat, p: real, q: real)
    requires p <= q
    ensures PerformFlip(keccak, seed, player, nonce, p) ==> PerformFlip(keccak, seed, player, nonce, q)
  {
    assert p * ROLL_RANGE as real <= q * ROLL_RANGE as real;
  }

  /**
   * Of the 10,000 possible rolls, exactly `Threshold(p)` give heads when
   * 0 <= p <= 1: heads is decided by the roll lying in [0, Threshold(p)).
   */
  lemma ThresholdInRange(p: real)
    requires 0.0 <= p <= 1.0
    ensures 0 <= Threshold(p) <= ROLL_RANGE
  {
    assert 0.0 <= p * ROLL_RANGE as real <= ROLL_RANGE as real;
  }

  /**
   * The player's successive nonces give pairwise different hashed messages, so
   * no two flips of one player in one session share a preimage.
   */
  lemma FlipMessagesDistinct(seed: string, player: string, n1: nat, n2: nat)
    requires n1 != n2
    ensures FlipMessage(seed, player, n1) != FlipMessage(seed, player, n2)
  {
    var prefix := seed + ":" + player + ":";
    if FlipMessage(seed, player, n1) == FlipMessage(seed, player, n2) {
      assert FlipMessage(seed, player, n1)[|prefix|..] == Digits.ToBase(n1, 10);
      assert FlipMessage(seed, player, n2)[|prefix|..] == Digits.ToBase(n2, 10);
      Digits.ToBaseInjective(n1, n2, 10);
    }
  }
}
