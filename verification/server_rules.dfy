/**
 * The decisions the per-connection handler of backend/src/server.ts takes,
 * as functions of the state it reads: the message-rate window, the auth
 * challenge text and its check, the flip gate, the flip's effect on the
 * session and the win.
 */
module ServerRules {

  import opened Wrappers
  import opened Players
  import opened Leaderboard
  import opened SessionData
  import Digits
  import Allowance
  import Probability
  import Flip
  import PlayerSnapshot
  import Protocol

  // ---- Message-rate window ----

  const MAX_MESSAGES_PER_SECOND := 20
  const RATE_WINDOW_MS := 1000

  /** When the current window started and how many messages it has seen. */
  datatype Window = Window(start: int, count: nat)

  /**
   * A message arrives at `now`: more than a second after the window start, the
   * window restarts at `now`; either way the message is counted.
   */
  function Arrive(w: Window, now: int): (r: Window)
    ensures now - w.start > RATE_WINDOW_MS ==> r == Window(now, 1)
    ensures now - w.start <= RATE_WINDOW_MS ==> r == Window(w.start, w.count + 1)
  {
    var w' := if now - w.start > RATE_WINDOW_MS then Window(now, 0) else w;
    w'.(count := w'.count + 1)
  }

  /** The message just counted is over the limit. */
  predicate Limited(w: Window)
  {
    w.count > MAX_MESSAGES_PER_SECOND
  }

  /** The window after messages arriving at `times`, in order. */
  function ArriveAll(w: Window, times: seq<int>): Window
    decreases |times|
  {
    if times == [] then w else ArriveAll(Arrive(w, times[0]), times[1..])
  }

  /** Messages that all arrive within a second of the window start are all counted in it. */
  lemma {:induction false} CountWithinWindow(w: Window, times: seq<int>)
    requires forall i :: 0 <= i < |times| ==> times[i] - w.start <= RATE_WINDOW_MS
    ensures ArriveAll(w, times) == Window(w.start, w.count + |times|)
    decreases |times|
  {
    if times != [] {
      CountWithinWindow(Arrive(w, times[0]), times[1..]);
    }
  }

  /**
   * A message that opens a window at `t` counts as its first; of the messages
   * following within a second of `t`, the one that is the window's k-th is
   * limited exactly when k > 20.
   */
  lemma LimitedFromTheTwentyFirst(w: Window, t: int, following: seq<int>)
    requires t - w.start > RATE_WINDOW_MS
    requires forall i :: 0 <= i < |following| ==> following[i] - t <= RATE_WINDOW_MS
    ensures Limited(ArriveAll(w, [t] + following)) <==> 1 + |following| > MAX_MESSAGES_PER_SECOND
  {
    assert ([t] + following)[0] == t && ([t] + following)[1..] == following;
    CountWithinWindow(Window(t, 1), following);
  }

  // ---- Parsed messages ----

  /** An incoming frame after `JSON.parse`: the fields the handler reads. */
  datatype Inbound =
    | Malformed
    | AuthRequest(address: Option<string>)
    | AuthVerify(address: Option<string>, signature: Option<string>)
    | Hello(address: Option<string>)
    | FlipRequest
    | Other

  /** A string field that is present and non-empty (JavaScript truthiness). */
  predicate Truthy(v: Option<string>)
  {
    v.Some? && v.value != ""
  }

  // ---- Auth handshake ----

  const NONCE_PREFIX := "flip10:"

  /** The challenge: the prefix, the decimal clock reading, a colon and the random hex. */
  function NonceText(now: int, entropy: string): (n: string)
    ensures NONCE_PREFIX <= n
  {
    NONCE_PREFIX + Digits.IntToDecimal(now) + ":" + entropy
  }

  /** Challenges issued at different milliseconds differ, whatever the random part. */
  lemma NonceDistinctTimes(n1: nat, n2: nat, e1: string, e2: string)
    requires n1 != n2
    ensures NonceText(n1, e1) != NonceText(n2, e2)
  {
    var d1, d2 := Digits.ToBase(n1, 10), Digits.ToBase(n2, 10);
    NonceTextSplit(n1, e1);
    NonceTextSplit(n2, e2);
    if NonceText(n1, e1) == NonceText(n2, e2) {
      PrefixCancels(NONCE_PREFIX, d1 + ":" + e1, d2 + ":" + e2);
      DigitsBeforeColon(d1, d2, e1, e2);
      Digits.ToBaseInjective(n1, n2, 10);
    }
  }

  lemma NonceTextSplit(n: nat, e: string)
    ensures NonceText(n, e) == NONCE_PREFIX + (Digits.ToBase(n, 10) + ":" + e)
  {
    assert Digits.IntToDecimal(n) == Digits.ToBase(n, 10);
    RegroupFour(NONCE_PREFIX, Digits.ToBase(n, 10), ":", e);
  }

  lemma RegroupFour(a: string, b: string, c: string, d: string)
    ensures a + b + c + d == a + (b + c + d)
  {
  }

  lemma PrefixCancels(p: string, t1: string, t2: string)
    requires p + t1 == p + t2
    ensures t1 == t2
  {
    assert t1 == (p + t1)[|p|..];
    assert t2 == (p + t2)[|p|..];
  }

  /** A run of decimal digits ended by a colon is recovered from the text that starts with it. */
  lemma DigitsBeforeColon(d1: string, d2: string, e1: string, e2: string)
    requires Digits.IsDigitString(d1, 10) && Digits.IsDigitString(d2, 10)
    requires d1 + ":" + e1 == d2 + ":" + e2
    ensures d1 == d2
  {
    ColonAfterDigits(d1, e1);
    ColonAfterDigits(d2, e2);
    assert (d1 + ":" + e1)[..|d1|] == d1;
    assert (d2 + ":" + e2)[..|d2|] == d2;
  }

  /** The position of the first colon, or the length when there is none. */
  function ColonAt(s: string): (k: nat)
    ensures k <= |s|
  {
    if s == [] then 0 else if s[0] == ':' then 0 else 1 + ColonAt(s[1..])
  }

  lemma {:induction false} ColonAfterDigits(d: string, e: string)
    requires Digits.IsDigitString(d, 10)
    ensures ColonAt(d + ":" + e) == |d|
  {
    if d == [] {
      assert d + ":" + e == ":" + e;
    } else {
      assert ':' !in Digits.DIGITS[..10];
      assert d[0] in Digits.DIGITS[..10];
      assert (d + ":" + e)[0] == d[0];
      assert (d + ":" + e)[1..] == d[1..] + ":" + e;
      ColonAfterDigits(d[1..], e);
    }
  }

  /**
   * The `auth_verify` check: a pending nonce, an address and a signature are
   * present, the signer recovers, and it equals the address ignoring case.
   * `recover` gives None where signer recovery throws.
   */
  predicate Verifies(nonce: Option<string>, address: Option<string>, signature: Option<string>,
                     recover: (string, string) -> Option<string>)
  {
    nonce.Some? && Truthy(address) && Truthy(signature)
    && recover(nonce.value, signature.value).Some?
    && Digits.EqualsIgnoringCase(recover(nonce.value, signature.value).value, address.value)
  }

  // ---- Hello ----

  /**
   * The `player_state` a `hello` gets: the player's snapshot, or for an address
   * without a record, streak 0, its balance and no cooldown.
   */
  function HelloSnapshot(players: PlayerMap, balances: map<string, int>, address: string, now: int): (r: PlayerSnapshot.Snapshot)
    ensures Get(players, address).Some? ==>
      r == PlayerSnapshot.BuildPlayerSnapshot(address, Get(players, address).value, balances, now)
    ensures Get(players, address).None? ==> r == PlayerSnapshot.Snapshot(0, Allowance.Balance(balances, address), 0)
  {
    match Get(players, address)
    case Some(p) => PlayerSnapshot.BuildPlayerSnapshot(address, p, balances, now)
    case None => PlayerSnapshot.Snapshot(0, Allowance.Balance(balances, address), 0)
  }

  /**
   * Once the clock is a second past the epoch, the reply for an unknown address
   * is the snapshot of the fresh record its first flip would start from.
   */
  lemma HelloUnknownIsFresh(players: PlayerMap, balances: map<string, int>, address: string, now: int)
    requires Get(players, address).None? && now >= PlayerSnapshot.COOLDOWN_MS
    ensures HelloSnapshot(players, balances, address, now)
         == PlayerSnapshot.BuildPlayerSnapshot(address, PlayerOrFresh(players, address), balances, now)
  {
  }

  // ---- Flip gate ----

  datatype FlipOutcome = Rejected(reason: Protocol.RejectReason) | Ignored | Accepted

  /** The record a flip starts from: the player's, or a fresh one. */
  function PlayerOrFresh(players: PlayerMap, address: string): (p: PlayerState)
    ensures Get(players, address).Some? ==> p == Get(players, address).value
    ensures Get(players, address).None? ==> p == FRESH_PLAYER
  {
    match Get(players, address)
    case Some(p) => p
    case None => FRESH_PLAYER
  }

  /**
   * What a `flip` message leads to, checked in the handler's order: not
   * authenticated, no live session, no credit, still cooling down.
   */
  function AdmitFlip(authenticated: bool, authedAddress: Option<string>, session: Option<Session>,
                     balances: map<string, int>, now: int): FlipOutcome
  {
    if !authenticated || !Truthy(authedAddress) then Rejected(Protocol.Unauthenticated)
    else if session.None? || session.value.finalized then Ignored
    else if Allowance.Balance(balances, authedAddress.value) <= 0 then Rejected(Protocol.NoFlipsLeft)
    else if !PlayerSnapshot.CooldownElapsed(PlayerOrFresh(session.value.players, authedAddress.value).lastFlipAt, now)
    then Rejected(Protocol.RateLimited)
    else Accepted
  }

  /** A flip goes through exactly when every condition of the gate holds. */
  lemma AdmitFlipIff(authenticated: bool, authedAddress: Option<string>, session: Option<Session>,
                     balances: map<string, int>, now: int)
    ensures AdmitFlip(authenticated, authedAddress, session, balances, now) == Accepted
      <==> authenticated && Truthy(authedAddress) && session.Some? && !session.value.finalized
           && Allowance.Balance(balances, authedAddress.value) > 0
           && now - PlayerOrFresh(session.value.players, authedAddress.value).lastFlipAt >= PlayerSnapshot.COOLDOWN_MS
    ensures AdmitFlip(authenticated, authedAddress, session, balances, now) == Ignored
      <==> authenticated && Truthy(authedAddress) && (session.None? || session.value.finalized)
  {
  }

  /**
   * For an authenticated player with credit in a live session, the cooldown the
   * player snapshot reports is zero exactly when the player's flip goes through.
   */
  lemma SnapshotCooldownMatchesGate(address: string, session: Session, balances: map<string, int>, now: int)
    requires address != "" && !session.finalized && Allowance.Balance(balances, address) > 0
    ensures PlayerSnapshot.BuildPlayerSnapshot(address, PlayerOrFresh(session.players, address), balances, now).cooldownMs == 0
      <==> AdmitFlip(true, Some(address), Some(session), balances, now) == Accepted
  {
  }

  // ---- The accepted flip ----

  const WIN_STREAK: nat := 10

  datatype FlipStepResult = FlipStepResult(session: Session, player: PlayerState, heads: bool, probability: real)

  /**
   * An accepted flip: one more flip in the session, the probability read after
   * that increment, the player's own flip count as the nonce, and the player's
   * record updated (streak up on heads, back to 0 on tails).
   */
  function FlipStep(s: Session, address: string, keccak: string -> nat, rates: Probability.Rates, now: int): (r: FlipStepResult)
    ensures r.session.totalFlips == s.totalFlips + 1
    ensures r.session.id == s.id && r.session.startedAt == s.startedAt && r.session.seed == s.seed
    ensures r.session.finalized == s.finalized
    ensures r.probability == Probability.HeadsProbability(rates, s.startedAt, s.totalFlips + 1, now)
    ensures r.heads == Flip.PerformFlip(keccak, s.seed, address, PlayerOrFresh(s.players, address).flips, r.probability)
    ensures r.player.lastFlipAt == now
    ensures r.player.flips == PlayerOrFresh(s.players, address).flips + 1
    ensures r.heads ==> r.player.streak == PlayerOrFresh(s.players, address).streak + 1
    ensures !r.heads ==> r.player.streak == 0
    ensures r.session.players == Put(s.players, address, r.player)
  {
    var totalFlips := s.totalFlips + 1;
    var p := Probability.HeadsProbability(rates, s.startedAt, totalFlips, now);
    var before := PlayerOrFresh(s.players, address);
    var heads := Flip.PerformFlip(keccak, s.seed, address, before.flips, p);
    var after := PlayerState(if heads then before.streak + 1 else 0, now, before.flips + 1);
    FlipStepResult(s.(totalFlips := totalFlips, players := Put(s.players, address, after)), after, heads, p)
  }

  /** Other players' records are untouched by a flip. */
  lemma FlipStepLeavesOthers(s: Session, address: string, keccak: string -> nat, rates: Probability.Rates, now: int, other: string)
    requires other != address
    ensures Get(FlipStep(s, address, keccak, rates, now).session.players, other) == Get(s.players, other)
  {
    PutGetOther(s.players, address, FlipStep(s, address, keccak, rates, now).player, other);
  }

  /**
   * The player's next flip uses the next nonce, so no two flips of a player in
   * a session hash the same message.
   */
  lemma NextFlipUsesNextNonce(s: Session, address: string, keccak: string -> nat, rates: Probability.Rates, now: int)
    ensures var r := FlipStep(s, address, keccak, rates, now);
      PlayerOrFresh(r.session.players, address).flips == PlayerOrFresh(s.players, address).flips + 1
    ensures Flip.FlipMessage(s.seed, address, PlayerOrFresh(s.players, address).flips)
         != Flip.FlipMessage(s.seed, address, PlayerOrFresh(s.players, address).flips + 1)
  {
    PutGetSame(s.players, address, FlipStep(s, address, keccak, rates, now).player);
    Flip.FlipMessagesDistinct(s.seed, address, PlayerOrFresh(s.players, address).flips, PlayerOrFresh(s.players, address).flips + 1);
  }

  /** The flip that wins: the player's streak reaches 10. */
  predicate Wins(r: FlipStepResult)
  {
    r.player.streak >= WIN_STREAK
  }

  /** No player of the table has reached the winning streak. */
  predicate StreaksBelowWin(players: PlayerMap)
  {
    forall i :: 0 <= i < |players| ==> players[i].player.streak < WIN_STREAK
  }

  /**
   * What the model keeps about a session: distinct player addresses, and while
   * it is live, nobody at the winning streak (a win finalizes at once).
   */
  predicate SessionOk(s: Session)
  {
    DistinctAddresses(s.players) && (!s.finalized ==> StreaksBelowWin(s.players))
  }

  /** A win needs heads and a streak of 9 before it; hence with every streak below 10, the winner ends at exactly 10. */
  lemma WinNeedsHeads(s: Session, address: string, keccak: string -> nat, rates: Probability.Rates, now: int)
    requires StreaksBelowWin(s.players)
    ensures var r := FlipStep(s, address, keccak, rates, now);
      Wins(r) <==> r.heads && PlayerOrFresh(s.players, address).streak == WIN_STREAK - 1
  {
    var before := PlayerOrFresh(s.players, address);
    if Get(s.players, address).Some? {
      var i :| 0 <= i < |s.players| && s.players[i] == Entry(address, before);
    }
  }

  /** A flip that does not win keeps the session's invariant. */
  lemma FlipStepKeepsSessionOk(s: Session, address: string, keccak: string -> nat, rates: Probability.Rates, now: int)
    requires SessionOk(s) && !s.finalized
    ensures var r := FlipStep(s, address, keccak, rates, now);
      DistinctAddresses(r.session.players)
      && (!Wins(r) ==> SessionOk(r.session))
      && (Wins(r) ==> SessionOk(r.session.(finalized := true)))
  {
    var r := FlipStep(s, address, keccak, rates, now);
    PutKeepsDistinct(s.players, address, r.player);
    if !Wins(r) {
      PutKeepsBelowWin(s.players, address, r.player);
    }
  }

  lemma PutKeepsBelowWin(players: PlayerMap, address: string, p: PlayerState)
    requires StreaksBelowWin(players) && p.streak < WIN_STREAK
    ensures StreaksBelowWin(Put(players, address, p))
  {
    PutKeepsOrder(players, address, p);
    if Has(players, address) {
      var i :| 0 <= i < |players| && players[i].address == address && Put(players, address, p) == players[i := Entry(address, p)];
    } else {
      assert Put(players, address, p) == players + [Entry(address, p)];
    }
  }

  /** The result recorded when the flip at `now` by `winner` ends the session. */
  function FinalRecord(s: Session, winner: string, now: int): (f: LastFinalized)
    ensures f.sessionId == s.id && f.winner == winner && f.totalFlips == s.totalFlips && f.endedAt == now
    ensures f.finalLeaderboard == BuildFinalLeaderboard(s.players)
  {
    LastFinalized(s.id, winner, BuildFinalLeaderboard(s.players), s.totalFlips, now)
  }

  /**
   * On a win, the winner heads the final leaderboard: every other player is
   * still below the winning streak.
   */
  lemma WinnerHeadsFinalLeaderboard(s: Session, address: string, keccak: string -> nat, rates: Probability.Rates, now: int)
    requires SessionOk(s) && !s.finalized
    requires Wins(FlipStep(s, address, keccak, rates, now))
    ensures var final := FinalRecord(FlipStep(s, address, keccak, rates, now).session, address, now).finalLeaderboard;
      |final| > 0 && final[0] == LeaderEntry(address, FlipStep(s, address, keccak, rates, now).player.streak)
      && final[0].streak == WIN_STREAK
      && forall k :: 0 < k < |final| ==> final[k].streak < WIN_STREAK
  {
    var r := FlipStep(s, address, keccak, rates, now);
    WinNeedsHeads(s, address, keccak, rates, now);
    var players := r.session.players;
    FlipStepKeepsSessionOk(s, address, keccak, rates, now);
    PutKeepsOrder(s.players, address, r.player);
    PutGetSame(s.players, address, r.player);
    var i: nat :| i < |players| && players[i] == Entry(address, r.player);
    forall k | 0 <= k < |players| && players[k].address != address
      ensures players[k].player.streak < WIN_STREAK
    {
      OthersBelowWin(s.players, address, r.player, k);
    }
    TopOfFinal(players, address, r.player, i);
  }

  /**
   * When one player has reached the winning streak and every other player is
   * below it, that player's entry comes first in the final leaderboard.
   */
  lemma TopOfFinal(players: PlayerMap, address: string, p: PlayerState, i: nat)
    requires DistinctAddresses(players)
    requires i < |players| && players[i] == Entry(address, p)
    requires p.streak >= WIN_STREAK
    requires forall k :: 0 <= k < |players| && players[k].address != address ==> players[k].player.streak < WIN_STREAK
    ensures var final := BuildFinalLeaderboard(players);
      |final| > 0 && final[0] == LeaderEntry(address, p.streak)
      && forall k :: 0 < k < |final| ==> final[k].streak < WIN_STREAK
  {
    var final := BuildFinalLeaderboard(players);
    var w := LeaderEntry(address, p.streak);
    FinalLeaderboardListsEveryPlayerOnce(players);
    assert w in final;
    var j :| 0 <= j < |final| && final[j] == w;
    assert final[0].streak >= w.streak;
    var es := ToEntries(players);
    assert final[0] in multiset(es);
    var k :| 0 <= k < |es| && es[k] == final[0];
    assert players[k].address == address;
    FinalOthersBelowWin(players, address, final);
  }

  lemma FinalOthersBelowWin(players: PlayerMap, address: string, final: seq<LeaderEntry>)
    requires final == BuildFinalLeaderboard(players)
    requires DistinctEntryAddresses(final) && |final| > 0 && final[0].address == address
    requires forall k :: 0 <= k < |players| && players[k].address != address ==> players[k].player.streak < WIN_STREAK
    ensures forall n :: 0 < n < |final| ==> final[n].streak < WIN_STREAK
  {
    var es := ToEntries(players);
    forall n | 0 < n < |final| ensures final[n].streak < WIN_STREAK {
      assert final[n].address != address;
      assert final[n] in multiset(es);
      var m :| 0 <= m < |es| && es[m] == final[n];
    }
  }

  lemma OthersBelowWin(m: PlayerMap, address: string, p: PlayerState, k: nat)
    requires StreaksBelowWin(m)
    requires k < |Put(m, address, p)| && Put(m, address, p)[k].address != address
    ensures Put(m, address, p)[k].player.streak < WIN_STREAK
  {
    PutKeepsOrder(m, address, p);
  }
}
