/**
 Where the particles and packets of a heap pool are, over whole runs. A packet is idle in the
 pool, dropped into the return queue, or out with some caller; a particle is free in the pool or
 part of the chain of one packet. The steps are what the packet and pool operations do to these
 places.
 */
module PoolRuns {
  import opened Basics
  import opened Particles
  import opened Packets

  datatype Pools = Pools(
    free: seq<Particle>,
    idle: seq<Packet>,
    queue: seq<Packet>,
    chains: map<Packet, seq<Particle>>)  // of the packets that are queued or out

  datatype Op =
    | Take                           // pkt
    | Grow(pkt: Packet, n: nat)      // append, taking n particles
    | GrowFront(pkt: Packet, n: nat) // prepend, taking n particles
    | Drop(pkt: Packet)
    | Recycle                        // the oldest packet of the queue is freed

  ghost predicate Out(s: Pools, pkt: Packet) {
    pkt in s.chains && pkt !in s.queue
  }

  // The caller owns the packet it works on, and an operation takes no more than there is.
  ghost predicate Enabled(s: Pools, op: Op) {
    match op
    case Take => s.idle != [] && s.free != []
    case Grow(pkt, n) => Out(s, pkt) && n <= |s.free|
    case GrowFront(pkt, n) => Out(s, pkt) && n <= |s.free|
    case Drop(pkt) => Out(s, pkt)
    case Recycle => s.queue != [] && s.queue[0] in s.chains
  }

  ghost function Step(s: Pools, op: Op): Pools {
    if !Enabled(s, op) then s else
    match op
    case Take => s.(idle := s.idle[1..], free := s.free[1..], chains := s.chains[s.idle[0] := [s.free[0]]])
    case Grow(pkt, n) => s.(free := s.free[n..], chains := s.chains[pkt := s.chains[pkt] + s.free[..n]])
    case GrowFront(pkt, n) => s.(free := s.free[n..], chains := s.chains[pkt := Reversed(s.free[..n]) + s.chains[pkt]])
    case Drop(pkt) => s.(queue := s.queue + [pkt])
    case Recycle =>
      var pkt := s.queue[0];
      s.(queue := s.queue[1..], idle := [pkt] + s.idle, free := Reversed(s.chains[pkt]) + s.free,
        chains := s.chains - {pkt})
  }

  ghost function Run(s: Pools, ops: seq<Op>): Pools {
    if ops == [] then s else Step(Run(s, ops[..|ops| - 1]), ops[|ops| - 1])
  }

  // Every packet is in one place.
  ghost predicate PacketsOnce(s: Pools, pkts: set<Packet>) {
    && NoDup(s.idle) && NoDup(s.queue)
    && (forall p :: p in s.queue ==> p in s.chains)
    && (forall p :: p in s.idle ==> p !in s.chains)
    && (forall p :: p in pkts ==> p in s.idle || p in s.chains)
    && (forall p :: p in s.idle ==> p in pkts)
    && (forall p :: p in s.chains ==> p in pkts)
  }

  ghost predicate ChainOnce(s: Pools, p: Packet)
    requires p in s.chains
  {
    s.chains[p] != [] && NoDup(s.chains[p]) && forall x :: x in s.chains[p] ==> x !in s.free
  }

  ghost predicate Disjoint(a: seq<Particle>, b: seq<Particle>) {
    forall x :: x in a ==> x !in b
  }

  // Every particle is in one place.
  ghost predicate ParticlesOnce(s: Pools, parts: set<Particle>) {
    && NoDup(s.free)
    && (forall p :: p in s.chains ==> ChainOnce(s, p))
    && (forall p, q {:trigger Disjoint(s.chains[p], s.chains[q])} :: p in s.chains && q in s.chains && p != q ==>
      Disjoint(s.chains[p], s.chains[q]))
    && (forall x :: x in parts ==> x in s.free || exists p :: p in s.chains && x in s.chains[p])
    && (forall x :: x in s.free ==> x in parts)
    && (forall p, x :: p in s.chains && x in s.chains[p] ==> x in parts)
  }

  ghost predicate Inv(s: Pools, pkts: set<Packet>, parts: set<Particle>) {
    PacketsOnce(s, pkts) && ParticlesOnce(s, parts)
  }

  lemma ReversedNoDup<T>(s: seq<T>)
    requires NoDup(s)
    ensures NoDup(Reversed(s))
  {
    var r := Reversed(s);
    if s != [] {
      ReversedAt(s, 0);
    }
    forall i, j | 0 <= i < j < |r| ensures r[i] != r[j] {
      ReversedAt(s, i);
      ReversedAt(s, j);
    }
  }

  lemma PacketsStep(s: Pools, op: Op, pkts: set<Packet>)
    requires PacketsOnce(s, pkts)
    ensures PacketsOnce(Step(s, op), pkts)
  {
    var t := Step(s, op);
    if Enabled(s, op) {
      match op
      case Take =>
        assert s.idle == [s.idle[0]] + s.idle[1..];
      case Recycle =>
        assert s.queue == [s.queue[0]] + s.queue[1..];
      case _ =>
    }
  }

  lemma ConcatNoDup<T>(a: seq<T>, b: seq<T>)
    requires NoDup(a) && NoDup(b) && forall x :: x in a ==> x !in b
    ensures NoDup(a + b)
  {
    forall i, j | 0 <= i < j < |a + b| ensures (a + b)[i] != (a + b)[j] {
      if i < |a| <= j {
        assert a[i] in a && b[j - |a|] in b;
      }
    }
  }

  lemma SplitNoDup<T>(s: seq<T>, n: nat)
    requires NoDup(s) && n <= |s|
    ensures NoDup(s[..n]) && NoDup(s[n..])
    ensures forall x :: x in s[..n] ==> x !in s[n..]
    ensures forall x :: x in s <==> x in s[..n] || x in s[n..]
  {
    assert s == s[..n] + s[n..];
  }

  ghost function Held(s: Pools, p: Packet): seq<Particle> {
    if p in s.chains then s.chains[p] else []
  }

  // The particles of one packet and of the free list exchanged in some way.
  ghost predicate Exchanged(s: Pools, t: Pools, p: Packet) {
    && t.chains - {p} == s.chains - {p}
    && NoDup(t.free) && (p in t.chains ==> ChainOnce(t, p))
    && (forall x :: x in Held(t, p) ==> x in Held(s, p) || x in s.free)
    && (forall x :: x in t.free ==> x in Held(s, p) || x in s.free)
    && (forall x :: x in Held(s, p) ==> x in Held(t, p) || x in t.free)
    && (forall x :: x in s.free ==> x in Held(t, p) || x in t.free)
  }

  lemma OthersKept(s: Pools, t: Pools, p: Packet, q: Packet)
    requires t.chains - {p} == s.chains - {p} && q != p
    ensures q in t.chains <==> q in s.chains
    ensures q in s.chains ==> t.chains[q] == s.chains[q]
  {
    assert q in t.chains - {p} <==> q in t.chains;
    assert q in s.chains - {p} <==> q in s.chains;
    if q in s.chains {
      assert (t.chains - {p})[q] == t.chains[q] && (s.chains - {p})[q] == s.chains[q];
    }
  }

  lemma ChainsApart(s: Pools, t: Pools, p: Packet, parts: set<Particle>)
    requires ParticlesOnce(s, parts) && Exchanged(s, t, p)
    ensures forall q :: q in t.chains ==> ChainOnce(t, q)
    ensures forall q, r {:trigger Disjoint(t.chains[q], t.chains[r])} :: q in t.chains && r in t.chains && q != r ==>
      Disjoint(t.chains[q], t.chains[r])
  {
    forall q | q in t.chains ensures ChainOnce(t, q) {
      if q != p {
        OthersKept(s, t, p, q);
        assert ChainOnce(s, q) && (p in s.chains ==> Disjoint(s.chains[q], s.chains[p]));
      }
    }
    forall q, r | q in t.chains && r in t.chains && q != r ensures Disjoint(t.chains[q], t.chains[r]) {
      if q != p { OthersKept(s, t, p, q); assert ChainOnce(s, q); }
      if r != p { OthersKept(s, t, p, r); assert ChainOnce(s, r); }
      if q in s.chains && r in s.chains {
        assert Disjoint(s.chains[q], s.chains[r]) && Disjoint(s.chains[r], s.chains[q]);
      }
    }
  }

  lemma Exchange(s: Pools, t: Pools, p: Packet, parts: set<Particle>)
    requires ParticlesOnce(s, parts) && Exchanged(s, t, p)
    ensures ParticlesOnce(t, parts)
  {
    ChainsApart(s, t, p, parts);
    forall x | x in parts ensures x in t.free || exists q :: q in t.chains && x in t.chains[q] {
      if x in s.free {
      } else {
        var q :| q in s.chains && x in s.chains[q];
        if q != p {
          OthersKept(s, t, p, q);
        }
      }
    }
    forall q, x | q in t.chains && x in t.chains[q] ensures x in parts {
      if q != p {
        OthersKept(s, t, p, q);
      }
    }
  }

  // The first n free particles put around a chain, at its end or, reversed, at its front.
  lemma Attached(s: Pools, pkt: Packet, n: nat, c: seq<Particle>, chain: seq<Particle>, parts: set<Particle>)
    requires ParticlesOnce(s, parts) && n <= |s.free| && c == Held(s, pkt) && (c == [] ==> n > 0)
    requires chain == c + s.free[..n] || chain == Reversed(s.free[..n]) + c
    ensures ParticlesOnce(s.(free := s.free[n..], chains := s.chains[pkt := chain]), parts)
  {
    var t := s.(free := s.free[n..], chains := s.chains[pkt := chain]);
    SplitNoDup(s.free, n);
    ReversedNoDup(s.free[..n]);
    ReversedMembers(s.free[..n]);
    if pkt in s.chains {
      assert ChainOnce(s, pkt);
    }
    ConcatNoDup(c, s.free[..n]);
    ConcatNoDup(Reversed(s.free[..n]), c);
    assert t.chains - {pkt} == s.chains - {pkt};
    Exchange(s, t, pkt, parts);
  }

  lemma Released(s: Pools, pkt: Packet, parts: set<Particle>)
    requires ParticlesOnce(s, parts) && pkt in s.chains
    ensures ParticlesOnce(s.(free := Reversed(s.chains[pkt]) + s.free, chains := s.chains - {pkt}), parts)
  {
    var t := s.(free := Reversed(s.chains[pkt]) + s.free, chains := s.chains - {pkt});
    assert ChainOnce(s, pkt);
    ReversedNoDup(s.chains[pkt]);
    ReversedMembers(s.chains[pkt]);
    ConcatNoDup(Reversed(s.chains[pkt]), s.free);
    assert t.chains - {pkt} == s.chains - {pkt};
    forall x | x in t.free ensures x in Held(s, pkt) || x in s.free {
      var r := Reversed(s.chains[pkt]);
      if x in r {
        var i :| 0 <= i < |r| && r[i] == x;
        ReversedAt(s.chains[pkt], i);
      }
    }
    Exchange(s, t, pkt, parts);
  }

  lemma SamePlaces(s: Pools, t: Pools, parts: set<Particle>)
    requires ParticlesOnce(s, parts) && t.free == s.free && t.chains == s.chains
    ensures ParticlesOnce(t, parts)
  {
    forall p | p in t.chains ensures ChainOnce(t, p) {
      assert ChainOnce(s, p);
    }
  }

  lemma ParticlesStep(s: Pools, op: Op, pkts: set<Packet>, parts: set<Particle>)
    requires Inv(s, pkts, parts)
    ensures ParticlesOnce(Step(s, op), parts)
  {
    var t := Step(s, op);
    if Enabled(s, op) {
      match op
      case Take =>
        assert s.free[..1] == [s.free[0]];
        Attached(s, s.idle[0], 1, [], [s.free[0]], parts);
        SamePlaces(s.(free := t.free, chains := t.chains), t, parts);
      case Grow(pkt, n) =>
        assert ChainOnce(s, pkt);
        Attached(s, pkt, n, s.chains[pkt], t.chains[pkt], parts);
      case GrowFront(pkt, n) =>
        assert ChainOnce(s, pkt);
        Attached(s, pkt, n, s.chains[pkt], t.chains[pkt], parts);
      case Drop(pkt) =>
        SamePlaces(s, t, parts);
      case Recycle =>
        Released(s, s.queue[0], parts);
        SamePlaces(s.(free := t.free, chains := t.chains), t, parts);
    }
  }

  // At the start every packet is idle and every particle free.
  ghost predicate Initial(s: Pools, pkts: set<Packet>, parts: set<Particle>) {
    && s.queue == [] && s.chains == map[]
    && NoDup(s.idle) && (forall p :: p in s.idle ==> p in pkts) && (forall p :: p in pkts ==> p in s.idle)
    && NoDup(s.free) && (forall x :: x in s.free ==> x in parts) && (forall x :: x in parts ==> x in s.free)
  }

  // Nothing is lost or duplicated over any run.
  lemma {:induction false} RunKeepsPlaces(s: Pools, ops: seq<Op>, pkts: set<Packet>, parts: set<Particle>)
    requires Initial(s, pkts, parts)
    ensures Inv(Run(s, ops), pkts, parts)
  {
    if ops != [] {
      var was := Run(s, ops[..|ops| - 1]);
      RunKeepsPlaces(s, ops[..|ops| - 1], pkts, parts);
      PacketsStep(was, ops[|ops| - 1], pkts);
      ParticlesStep(was, ops[|ops| - 1], pkts, parts);
    }
  }

  lemma {:induction false} NoDupSize<T>(s: seq<T>, all: set<T>)
    requires NoDup(s) && forall x :: x in s ==> x in all
    ensures |s| <= |all|
  {
    if s != [] {
      var rest := s[1..];
      forall x | x in rest ensures x in all - {s[0]} {
        var i :| 0 <= i < |rest| && rest[i] == x;
        assert s[i + 1] == x && s[0] != s[i + 1];
      }
      NoDupSize(rest, all - {s[0]});
    }
  }

  lemma RoomForDrop(s: Pools, pkts: set<Packet>, pkt: Packet)
    requires PacketsOnce(s, pkts) && Out(s, pkt)
    ensures |s.queue| < |pkts|
  {
    NoDupSize(s.queue + [pkt], pkts);
  }

  // A return queue with room for all packets never overflows: whenever a packet that is out is
  // dropped, the queue still has room for it.
  lemma QueueHasRoom(s: Pools, ops: seq<Op>, pkts: set<Packet>, parts: set<Particle>, pkt: Packet, capacity: nat)
    requires Initial(s, pkts, parts) && Enabled(Run(s, ops), Drop(pkt)) && |pkts| <= capacity
    ensures |Run(s, ops).queue| < capacity
  {
    RunKeepsPlaces(s, ops, pkts, parts);
    RoomForDrop(Run(s, ops), pkts, pkt);
  }

  // All packets taken and dropped without any being recycled.
  ghost function TakeAndDrop(s: Pools, n: nat): seq<Op>
    requires n <= |s.idle|
  {
    if n == 0 then [] else TakeAndDrop(s, n - 1) + [Take, Drop(s.idle[n - 1])]
  }

  // With a particle for every packet, a smaller queue can overflow: this run fills it with all packets.
  lemma {:induction false} QueueFills(s: Pools, n: nat)
    requires s.queue == [] && s.chains == map[] && NoDup(s.idle) && n <= |s.idle| <= |s.free|
    ensures var t := Run(s, TakeAndDrop(s, n)); t.queue == s.idle[..n] && t.idle == s.idle[n..] && t.free == s.free[n..]
  {
    if n != 0 {
      QueueFills(s, n - 1);
      var ops, p := TakeAndDrop(s, n), s.idle[n - 1];
      var before := Run(s, TakeAndDrop(s, n - 1));
      assert ops[..|ops| - 1][..|ops| - 2] == TakeAndDrop(s, n - 1);
      var taken := Run(s, ops[..|ops| - 1]);
      assert taken == Step(before, Take);
      assert before.idle[0] == p && p !in taken.queue;
      assert Run(s, ops) == Step(taken, Drop(p));
      assert s.idle[..n] == s.idle[..n - 1] + [p];
    }
  }

  // When no packet is out or queued, the pool has all its particles back.
  lemma AllReturned(s: Pools, ops: seq<Op>, pkts: set<Packet>, parts: set<Particle>)
    requires Initial(s, pkts, parts) && Run(s, ops).chains == map[]
    ensures multiset(Run(s, ops).free) == multiset(parts) && multiset(Run(s, ops).idle) == multiset(pkts)
  {
    RunKeepsPlaces(s, ops, pkts, parts);
    var now := Run(s, ops);
    AllOnce(now.free, parts);
    AllOnce(now.idle, pkts);
  }

  lemma {:induction false} AllOnce<T>(s: seq<T>, all: set<T>)
    requires NoDup(s) && (forall x :: x in s ==> x in all) && (forall x :: x in all ==> x in s)
    ensures multiset(s) == multiset(all)
  {
    forall x ensures multiset(s)[x] == multiset(all)[x] {
      CountNoDup(s, x);
    }
  }

  lemma {:induction false} CountNoDup<T>(s: seq<T>, x: T)
    requires NoDup(s)
    ensures multiset(s)[x] == if x in s then 1 else 0
  {
    if s != [] {
      CountNoDup(s[1..], x);
      assert s == [s[0]] + s[1..];
    }
  }
}
