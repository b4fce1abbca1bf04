/**
 * The connection hub (backend/src/ws/hub.ts): the set of open sockets that
 * broadcasts go to. A JavaScript `Set` iterates in insertion order, so the
 * members are a sequence without repetitions. Whether a send throws is an
 * oracle parameter of `Broadcast`; a socket whose send throws is dropped.
 */
module Hub {

  import opened Protocol

  type Socket = nat

  /** What reaches a socket: a frame carrying a message, or a close with a code. */
  datatype Delivery = Frame(to: Socket, payload: Message) | Close(to: Socket, code: nat)

  /** Everything the server has put on its sockets, in order. */
  class Wire {
    var log: seq<Delivery>

    constructor ()
      ensures log == []
    {
      log := [];
    }

    method Send(to: Socket, payload: Message)
      modifies this
      ensures log == old(log) + [Frame(to, payload)]
    {
      log := log + [Frame(to, payload)];
    }

    method CloseSocket(to: Socket, code: nat)
      modifies this
      ensures log == old(log) + [Close(to, code)]
    {
      log := log + [Close(to, code)];
    }
  }

  /** No socket occurs twice. */
  predicate Distinct(s: seq<Socket>)
  {
    s == [] || (s[0] !in s[1..] && Distinct(s[1..]))
  }

  /** `s` without `x`, the rest in order. */
  function Without(s: seq<Socket>, x: Socket): (r: seq<Socket>)
    ensures forall y :: y in r <==> y in s && y != x
    ensures |r| <= |s|
  {
    if s == [] then [] else (if s[0] == x then [] else [s[0]]) + Without(s[1..], x)
  }

  function Elements(s: seq<Socket>): set<Socket>
  {
    set x | x in s
  }

  /** The members whose send does not throw, in order. */
  function Survivors(s: seq<Socket>, sendFails: Socket -> bool): (r: seq<Socket>)
    ensures |r| <= |s|
  {
    if s == [] then [] else (if sendFails(s[0]) then [] else [s[0]]) + Survivors(s[1..], sendFails)
  }

  /** One frame of `msg` for each socket of `s`, in order. */
  function FramesTo(s: seq<Socket>, msg: Message): (r: seq<Delivery>)
    ensures |r| == |s|
  {
    if s == [] then [] else [Frame(s[0], msg)] + FramesTo(s[1..], msg)
  }

  /** Every socket of `s` gets the very same message, in the order of `s`. */
  lemma {:induction false} FramesToContents(s: seq<Socket>, msg: Message)
    ensures forall i :: 0 <= i < |s| ==> FramesTo(s, msg)[i] == Frame(s[i], msg)
  {
    if s != [] {
      FramesToContents(s[1..], msg);
    }
  }

  lemma {:induction false} DistinctSnoc(s: seq<Socket>, x: Socket)
    requires Distinct(s) && x !in s
    ensures Distinct(s + [x])
  {
    if s != [] {
      assert (s + [x])[1..] == s[1..] + [x];
      DistinctSnoc(s[1..], x);
    } else {
      assert [] + [x] == [x];
    }
  }

  lemma {:induction false} WithoutKeepsDistinct(s: seq<Socket>, x: Socket)
    requires Distinct(s)
    ensures Distinct(Without(s, x))
  {
    if s != [] {
      WithoutKeepsDistinct(s[1..], x);
      var t := Without(s[1..], x);
      if s[0] == x {
        assert Without(s, x) == t;
      } else {
        assert Without(s, x) == [s[0]] + t && ([s[0]] + t)[1..] == t;
      }
    }
  }

  /** Removing twice is removing once. */
  lemma {:induction false} WithoutIdempotent(s: seq<Socket>, x: Socket)
    ensures Without(Without(s, x), x) == Without(s, x)
  {
    if s != [] {
      WithoutIdempotent(s[1..], x);
      var t := Without(s, x);
      if s[0] != x {
        assert t == [s[0]] + Without(s[1..], x);
        assert t[0] == s[0] && t[1..] == Without(s[1..], x);
      } else {
        assert t == Without(s[1..], x);
      }
    }
  }

  /** Removing a non-member changes nothing. */
  lemma {:induction false} WithoutAbsent(s: seq<Socket>, x: Socket)
    requires x !in s
    ensures Without(s, x) == s
  {
    if s != [] {
      WithoutAbsent(s[1..], x);
    }
  }

  /** The survivors are exactly the members whose send does not throw: a broadcast never adds a member. */
  lemma {:induction false} SurvivorsMembership(s: seq<Socket>, sendFails: Socket -> bool)
    ensures forall y :: y in Survivors(s, sendFails) <==> y in s && !sendFails(y)
  {
    if s != [] {
      SurvivorsMembership(s[1..], sendFails);
      assert s == [s[0]] + s[1..];
    }
  }

  lemma {:induction false} SurvivorsKeepDistinct(s: seq<Socket>, sendFails: Socket -> bool)
    requires Distinct(s)
    ensures Distinct(Survivors(s, sendFails))
  {
    if s != [] {
      SurvivorsKeepDistinct(s[1..], sendFails);
      SurvivorsMembership(s[1..], sendFails);
      var t := Survivors(s[1..], sendFails);
      if sendFails(s[0]) {
        assert Survivors(s, sendFails) == t;
      } else {
        assert Survivors(s, sendFails) == [s[0]] + t && ([s[0]] + t)[1..] == t;
      }
    }
  }

  /** A sequence without repetitions has as many elements as the set of its elements. */
  lemma {:induction false} DistinctCardinality(s: seq<Socket>)
    requires Distinct(s)
    ensures |Elements(s)| == |s|
  {
    if s != [] {
      DistinctCardinality(s[1..]);
      var rest := Elements(s[1..]);
      assert Elements(s) == rest + {s[0]};
      assert s[0] !in rest;
    } else {
      assert Elements(s) == {};
    }
  }

  /** The hub returned by `createHub`. */
  class Hub {
    var clients: seq<Socket>
    const wire: Wire

    predicate Valid()
      reads this
    {
      Distinct(clients)
    }

    constructor (wire: Wire)
      ensures Valid() && clients == [] && this.wire == wire
    {
      clients := [];
      this.wire := wire;
    }

    /** `add`: set semantics, so adding a member again changes nothing. */
    method Add(ws: Socket)
      requires Valid()
      modifies this
      ensures Valid()
      ensures ws in old(clients) ==> clients == old(clients)
      ensures ws !in old(clients) ==> clients == old(clients) + [ws]
    {
      if ws !in clients {
        DistinctSnoc(clients, ws);
        clients := clients + [ws];
      }
    }

    /** `remove`: only `ws` goes, and removing a non-member is a no-op. */
    method Remove(ws: Socket)
      requires Valid()
      modifies this
      ensures Valid()
      ensures clients == Without(old(clients), ws)
    {
      WithoutKeepsDistinct(clients, ws);
      clients := Without(clients, ws);
    }

    /**
     * `broadcast`: the message is serialised once and sent to every member in
     * order; a member whose send throws is removed. Afterwards the members are
     * exactly the old members whose send went through, and each of them received
     * the message. Deleting a visited member from a JavaScript `Set` does not
     * disturb the iteration over the rest, so the model collects the survivors
     * and installs them once the loop is done.
     */
    method Broadcast(msg: Message, sendFails: Socket -> bool)
      requires Valid()
      modifies this, wire
      ensures Valid()
      ensures clients == Survivors(old(clients), sendFails)
      ensures wire.log == old(wire.log) + FramesTo(Survivors(old(clients), sendFails), msg)
    {
      var members := clients;
      var kept := Deliver(members, msg, sendFails);
      SurvivorsKeepDistinct(members, sendFails);
      clients := kept;
    }

    /**
     * The sending loop of `broadcast`: tries every socket of `members` in order
     * and returns those whose send went through.
     */
    method Deliver(members: seq<Socket>, msg: Message, sendFails: Socket -> bool) returns (kept: seq<Socket>)
      modifies wire
      ensures kept == Survivors(members, sendFails)
      ensures wire.log == old(wire.log) + FramesTo(kept, msg)
    {
      var i := 0;
      kept := [];
      while i < |members|
        invariant 0 <= i <= |members|
        invariant kept == Survivors(members[..i], sendFails)
        invariant wire.log == old(wire.log) + FramesTo(kept, msg)
      {
        var ws := members[i];
        SurvivorsAppend(members[..i], ws, sendFails);
        FramesAppend(kept, ws, msg);
        assert members[..i + 1] == members[..i] + [ws];
        if !sendFails(ws) {
          wire.Send(ws, msg);
          kept := kept + [ws];
        }
        i := i + 1;
      }
      assert members[..i] == members;
    }

    /** `size`: the number of members. */
    function Size(): (n: nat)
      requires Valid()
      reads this
      ensures n == |Elements(clients)|
    {
      DistinctCardinality(clients);
      |clients|
    }
  }

  lemma {:induction false} SurvivorsAppend(s: seq<Socket>, x: Socket, sendFails: Socket -> bool)
    ensures Survivors(s + [x], sendFails) == Survivors(s, sendFails) + (if sendFails(x) then [] else [x])
  {
    if s == [] {
      assert [] + [x] == [x];
    } else {
      assert (s + [x])[1..] == s[1..] + [x];
      SurvivorsAppend(s[1..], x, sendFails);
    }
  }

  lemma {:induction false} FramesAppend(s: seq<Socket>, x: Socket, msg: Message)
    ensures FramesTo(s + [x], msg) == FramesTo(s, msg) + [Frame(x, msg)]
  {
    if s == [] {
      assert [] + [x] == [x];
    } else {
      assert (s + [x])[1..] == s[1..] + [x];
      FramesAppend(s[1..], x, msg);
    }
  }
}
