/**
 * Rebuilding the ledger from the chain after a restart
 * (backend/src/chain/rebuildAllowance.ts): the purchase logs are selected by
 * the session id written as a 32-byte hex topic, and each log that parses
 * credits its buyer. Fetching the logs is an oracle parameter from topic to logs.
 */
module Rebuild {

  import opened Digits
  import Allowance

  /** A fetched log: parsed into its buyer and flip count, or not parseable. */
  datatype PurchaseLog = Parsed(buyer: string, flips: nat) | Unparseable

  /** `BigInt(n).toString(16)`: lower-case hex, with a minus sign for negatives. */
  function Hex(n: int): string
  {
    if n < 0 then "-" + ToBase(-n, 16) else ToBase(n, 16)
  }

  /** The topic: "0x" followed by the hex id left-padded with zeros to 64 characters. */
  function SessionTopic(sessionId: int): (t: string)
    ensures |t| >= 66 && t[..2] == "0x"
  {
    "0x" + PadStart(Hex(sessionId), 64, '0')
  }

  function Pow(b: nat, k: nat): nat
  {
    if k == 0 then 1 else b * Pow(b, k - 1)
  }

  lemma MulCancelLess(a: int, b: int, c: int)
    requires c > 0 && a * c < b * c
    ensures a < b
  {
  }

  lemma DivBelow(n: nat, base: nat, p: nat)
    requires 2 <= base && n < base * p
    ensures n / base < p
  {
    DivMod(n, base);
    MulCancelLess(n / base, p, base);
  }

  /** A number below base^k has at most k digits. */
  lemma {:induction false} ToBaseLength(n: nat, base: nat, k: nat)
    requires 2 <= base <= 16
    requires 1 <= k && n < Pow(base, k)
    ensures |ToBase(n, base)| <= k
    decreases k
  {
    if n >= base {
      assert k >= 2;
      DivBelow(n, base, Pow(base, k - 1));
      ToBaseLength(n / base, base, k - 1);
    }
  }

  /**
   * For an id in [0, 2^256) the topic is exactly 66 characters, its 64 after
   * "0x" are hex digits, and they read back as the id.
   */
  lemma TopicShape(sessionId: nat)
    requires sessionId < Pow(16, 64)
    ensures |SessionTopic(sessionId)| == 66
    ensures IsDigitString(SessionTopic(sessionId)[2..], 16)
    ensures ValueIn(SessionTopic(sessionId)[2..], 16) == sessionId
  {
    var h := ToBase(sessionId, 16);
    ToBaseLength(sessionId, 16, 64);
    assert SessionTopic(sessionId)[2..] == PadStart(h, 64, '0');
    PaddedHex(h);
    LeadingZerosValue(64 - |h|, h, 16);
    ToBaseRoundTrip(sessionId, 16);
  }

  /** A hex digit string of at most 64 digits, zero-padded to 64, is still hex and has the same value. */
  lemma PaddedHex(h: string)
    requires |h| <= 64 && IsDigitString(h, 16)
    ensures PadStart(h, 64, '0') == Repeat('0', 64 - |h|) + h
    ensures |PadStart(h, 64, '0')| == 64
    ensures IsDigitString(PadStart(h, 64, '0'), 16)
  {
    var padded := PadStart(h, 64, '0');
    assert padded == Repeat('0', 64 - |h|) + h;
    forall i | 0 <= i < 64
      ensures padded[i] in DIGITS[..16]
    {
      if i < 64 - |h| {
        assert padded[i] == '0' == DIGITS[0];
      } else {
        assert padded[i] == h[i - (64 - |h|)];
      }
    }
  }

  /** Different ids in [0, 2^256) select different topics. */
  lemma TopicInjective(a: nat, b: nat)
    requires a < Pow(16, 64) && b < Pow(16, 64)
    requires SessionTopic(a) == SessionTopic(b)
    ensures a == b
  {
    TopicShape(a);
    TopicShape(b);
  }

  /** One step of the replay loop: a parsed log credits its buyer, another is skipped. */
  function ApplyLog(balances: map<string, int>, log: PurchaseLog): (r: map<string, int>)
    ensures log.Unparseable? ==> r == balances
    ensures log.Parsed? ==> r == Allowance.Credit(balances, log.buyer, log.flips)
  {
    match log
    case Unparseable => balances
    case Parsed(buyer, flips) => Allowance.Credit(balances, buyer, flips)
  }

  /** The ledger after replaying `logs` in order. */
  function Replay(balances: map<string, int>, logs: seq<PurchaseLog>): map<string, int>
    decreases |logs|
  {
    if logs == [] then balances else Replay(ApplyLog(balances, logs[0]), logs[1..])
  }

  /** The flips bought by `buyer` in the parsed logs. */
  function Purchased(logs: seq<PurchaseLog>, buyer: string): nat
  {
    if logs == [] then 0
    else (if logs[0].Parsed? && logs[0].buyer == buyer then logs[0].flips else 0) + Purchased(logs[1..], buyer)
  }

  /** Each buyer ends with its initial balance plus everything it bought. */
  lemma {:induction false} ReplayBalance(balances: map<string, int>, logs: seq<PurchaseLog>, a: string)
    ensures Allowance.Balance(Replay(balances, logs), a) == Allowance.Balance(balances, a) + Purchased(logs, a)
    decreases |logs|
  {
    if logs != [] {
      ReplayBalance(ApplyLog(balances, logs[0]), logs[1..], a);
    }
  }

  lemma {:induction false} ReplayAppend(balances: map<string, int>, u: seq<PurchaseLog>, v: seq<PurchaseLog>)
    ensures Replay(balances, u + v) == Replay(Replay(balances, u), v)
    decreases |u|
  {
    if u == [] {
      assert [] + v == v;
    } else {
      assert (u + v)[0] == u[0] && (u + v)[1..] == u[1..] + v;
      ReplayAppend(ApplyLog(balances, u[0]), u[1..], v);
    }
  }

  lemma ReplaySnoc(balances: map<string, int>, u: seq<PurchaseLog>, x: PurchaseLog)
    ensures Replay(balances, u + [x]) == ApplyLog(Replay(balances, u), x)
  {
    ReplayAppend(balances, u, [x]);
    assert [x][1..] == [];
  }

  lemma ReplayPrefixStep(balances: map<string, int>, logs: seq<PurchaseLog>, i: nat)
    requires i < |logs|
    ensures Replay(balances, logs[..i + 1]) == ApplyLog(Replay(balances, logs[..i]), logs[i])
  {
    assert logs[..i + 1] == logs[..i] + [logs[i]];
    ReplaySnoc(balances, logs[..i], logs[i]);
  }

  /** An unparseable log anywhere in the sequence changes nothing. */
  lemma SkipsUnparseable(balances: map<string, int>, u: seq<PurchaseLog>, v: seq<PurchaseLog>)
    ensures Replay(balances, u + [Unparseable] + v) == Replay(balances, u + v)
  {
    ReplayAppend(balances, u + [Unparseable], v);
    ReplayAppend(balances, u, [Unparseable]);
    ReplayAppend(balances, u, v);
  }

  lemma {:induction false} PurchasedAppend(u: seq<PurchaseLog>, v: seq<PurchaseLog>, a: string)
    ensures Purchased(u + v, a) == Purchased(u, a) + Purchased(v, a)
    decreases |u|
  {
    if u == [] {
      assert [] + v == v;
    } else {
      assert (u + v)[0] == u[0] && (u + v)[1..] == u[1..] + v;
      PurchasedAppend(u[1..], v, a);
    }
  }

  lemma {:induction false} PurchasedPermutation(l1: seq<PurchaseLog>, l2: seq<PurchaseLog>, a: string)
    requires multiset(l1) == multiset(l2)
    ensures Purchased(l1, a) == Purchased(l2, a)
    decreases |l1|
  {
    if l1 == [] {
      assert |multiset(l2)| == 0;
    } else {
      var x := l1[0];
      assert x in multiset(l2);
      var j :| 0 <= j < |l2| && l2[j] == x;
      var rest := l2[..j] + l2[j + 1..];
      assert l2 == l2[..j] + [x] + l2[j + 1..];
      assert l1 == [x] + l1[1..];
      assert multiset(l2) == multiset(l2[..j]) + multiset{x} + multiset(l2[j + 1..]);
      assert multiset(l1) == multiset{x} + multiset(l1[1..]);
      assert multiset(rest) == multiset(l2[..j]) + multiset(l2[j + 1..]);
      assert multiset(rest) == multiset(l2) - multiset{x};
      assert multiset(l1[1..]) == multiset(l1) - multiset{x};
      PurchasedPermutation(l1[1..], rest, a);
      PurchasedAppend(l2[..j] + [x], l2[j + 1..], a);
      PurchasedAppend(l2[..j], [x], a);
      PurchasedAppend(l2[..j], l2[j + 1..], a);
      assert [x][1..] == [];
    }
  }

  /** The balances do not depend on the order the logs come in. */
  lemma ReplayOrderIndependent(balances: map<string, int>, l1: seq<PurchaseLog>, l2: seq<PurchaseLog>, a: string)
    requires multiset(l1) == multiset(l2)
    ensures Allowance.Balance(Replay(balances, l1), a) == Allowance.Balance(Replay(balances, l2), a)
  {
    ReplayBalance(balances, l1, a);
    ReplayBalance(balances, l2, a);
    PurchasedPermutation(l1, l2, a);
  }

  /** Replaying is additive, not idempotent: the same logs applied twice credit twice. */
  lemma ReplayTwice(balances: map<string, int>, logs: seq<PurchaseLog>, a: string)
    ensures Allowance.Balance(Replay(Replay(balances, logs), logs), a)
         == Allowance.Balance(balances, a) + 2 * Purchased(logs, a)
  {
    ReplayBalance(balances, logs, a);
    ReplayBalance(Replay(balances, logs), logs, a);
  }

  /** Replaying purchases keeps every balance non-negative. */
  lemma {:induction false} ReplayKeepsNonNegative(balances: map<string, int>, logs: seq<PurchaseLog>)
    requires Allowance.NonNegative(balances)
    ensures Allowance.NonNegative(Replay(balances, logs))
    decreases |logs|
  {
    if logs != [] {
      if logs[0].Parsed? {
        Allowance.CreditKeepsNonNegative(balances, logs[0].buyer, logs[0].flips);
      }
      ReplayKeepsNonNegative(ApplyLog(balances, logs[0]), logs[1..]);
    }
  }

  /**
   * `rebuildAllowanceFromChain`: when the contract interface lacks the event,
   * the ledger is left alone; otherwise the logs for the session's topic are
   * replayed into it, in order.
   */
  method RebuildAllowanceFromChain(
    ledger: Allowance.Ledger, eventDefined: bool, sessionId: int, getLogs: string -> seq<PurchaseLog>)
    modifies ledger
    ensures !eventDefined ==> ledger.balances == old(ledger.balances)
    ensures eventDefined ==> ledger.balances == Replay(old(ledger.balances), getLogs(SessionTopic(sessionId)))
  {
    if !eventDefined {
      return;
    }
    var logs := getLogs(SessionTopic(sessionId));
    var i := 0;
    while i < |logs|
      invariant 0 <= i <= |logs|
      invariant ledger.balances == Replay(old(ledger.balances), logs[..i])
    {
      var log := logs[i];
      ReplayPrefixStep(old(ledger.balances), logs, i);
      if log.Parsed? {
        ledger.AddFlips(log.buyer, log.flips);
      }
      i := i + 1;
    }
    assert logs[..i] == logs;
  }
}
