/**
 * A session's player table (the `players` field of `RuntimeSession` in
 * backend/src/session/runtime.ts). JavaScript's `Map` remembers insertion order,
 * and the leaderboards depend on that order, so the table is a sequence of
 * entries with pairwise distinct addresses: `Put` on a known address updates its
 * entry where it stands, on a new address appends.
 */
module Players {

  import opened Wrappers

  datatype PlayerState = PlayerState(streak: nat, lastFlipAt: int, flips: nat)

  /** The record a flip starts from when the address has no entry yet. */
  const FRESH_PLAYER := PlayerState(0, 0, 0)

  datatype Entry = Entry(address: string, player: PlayerState)

  type PlayerMap = seq<Entry>

  predicate DistinctAddresses(m: PlayerMap)
  {
    forall i, j :: 0 <= i < j < |m| ==> m[i].address != m[j].address
  }

  function Addresses(m: PlayerMap): (r: seq<string>)
    ensures |r| == |m| && forall i :: 0 <= i < |m| ==> r[i] == m[i].address
  {
    if m == [] then [] else [m[0].address] + Addresses(m[1..])
  }

  predicate Has(m: PlayerMap, address: string)
  {
    exists i :: 0 <= i < |m| && m[i].address == address
  }

  /** The `get` of the map: the entry for `address`, if any. */
  function Get(m: PlayerMap, address: string): (r: Option<PlayerState>)
    ensures r.None? <==> !Has(m, address)
    ensures r.Some? ==> exists i :: 0 <= i < |m| && m[i] == Entry(address, r.value)
  {
    if m == [] then None
    else if m[0].address == address then Some(m[0].player)
    else Get(m[1..], address)
  }

  /** The `set` of the map. */
  function Put(m: PlayerMap, address: string, p: PlayerState): (r: PlayerMap)
    ensures |r| == if Has(m, address) then |m| else |m| + 1
  {
    if m == [] then [Entry(address, p)]
    else if m[0].address == address then [Entry(address, p)] + m[1..]
    else [m[0]] + Put(m[1..], address, p)
  }

  lemma {:induction false} GetOfDistinct(m: PlayerMap, i: nat)
    requires DistinctAddresses(m) && i < |m|
    ensures Get(m, m[i].address) == Some(m[i].player)
  {
    if i > 0 {
      GetOfDistinct(m[1..], i - 1);
    }
  }

  lemma {:induction false} PutGetSame(m: PlayerMap, address: string, p: PlayerState)
    ensures Get(Put(m, address, p), address) == Some(p)
  {
    if m != [] && m[0].address != address {
      PutGetSame(m[1..], address, p);
    }
  }

  lemma {:induction false} PutGetOther(m: PlayerMap, address: string, p: PlayerState, other: string)
    requires other != address
    ensures Get(Put(m, address, p), other) == Get(m, other)
  {
    if m != [] && m[0].address != address {
      PutGetOther(m[1..], address, p, other);
    }
  }

  /**
   * The position of every other entry is kept: a known address is updated
   * where it stands, a new one goes to the end.
   */
  lemma {:induction false} PutKeepsOrder(m: PlayerMap, address: string, p: PlayerState)
    ensures Has(m, address) ==>
      exists i :: 0 <= i < |m| && m[i].address == address && Put(m, address, p) == m[i := Entry(address, p)]
    ensures !Has(m, address) ==> Put(m, address, p) == m + [Entry(address, p)]
  {
    if m != [] && m[0].address != address {
      PutKeepsOrder(m[1..], address, p);
      if Has(m, address) {
        var i :| 0 <= i < |m[1..]| && m[1..][i].address == address && Put(m[1..], address, p) == m[1..][i := Entry(address, p)];
        assert Put(m, address, p) == m[i + 1 := Entry(address, p)];
      } else {
        assert !Has(m[1..], address);
        assert Put(m, address, p) == m + [Entry(address, p)];
      }
    } else if m != [] {
      assert Put(m, address, p) == m[0 := Entry(address, p)];
    }
  }

  lemma PutKeepsDistinct(m: PlayerMap, address: string, p: PlayerState)
    requires DistinctAddresses(m)
    ensures DistinctAddresses(Put(m, address, p))
    ensures Addresses(Put(m, address, p)) == if Has(m, address) then Addresses(m) else Addresses(m) + [address]
  {
    PutKeepsOrder(m, address, p);
    if Has(m, address) {
      var i :| 0 <= i < |m| && m[i].address == address && Put(m, address, p) == m[i := Entry(address, p)];
      UpdateKeepsAddresses(m, i, p);
    } else {
      AppendNewAddress(m, Entry(address, p));
    }
  }

  lemma UpdateKeepsAddresses(m: PlayerMap, i: nat, p: PlayerState)
    requires DistinctAddresses(m) && i < |m|
    ensures DistinctAddresses(m[i := Entry(m[i].address, p)])
    ensures Addresses(m[i := Entry(m[i].address, p)]) == Addresses(m)
  {
    var r := m[i := Entry(m[i].address, p)];
    assert forall k :: 0 <= k < |r| ==> r[k].address == m[k].address;
  }

  lemma AppendNewAddress(m: PlayerMap, e: Entry)
    requires DistinctAddresses(m) && !Has(m, e.address)
    ensures DistinctAddresses(m + [e])
    ensures Addresses(m + [e]) == Addresses(m) + [e.address]
  {
    var r := m + [e];
    assert forall k :: 0 <= k < |m| ==> r[k] == m[k];
  }
}
