/**
 A heap pool, its return queue and the packets made from it, as one system. Every operation is the
 step of the same name of the run model, and keeps every other packet as it is.
 */
module PoolSystem {
  import opened Basics
  import opened Particles
  import opened Packets
  import opened PacketPool
  import opened PoolRuns

  // Particles of the pool's size with buffers of their own.
  ghost predicate Buffers(parts: set<Particle>, size: nat) {
    && (forall p :: p in parts ==> p.raw.Length == size)
    && (forall p, q {:trigger Distinct(p, q)} :: p in parts && q in parts && p != q ==> Distinct(p, q))
  }

  ghost function Members<T>(s: seq<T>): set<T> {
    set x | x in s
  }

  // A new pool: so many packets and particles, all different and of their own memory.
  method NewPool(numPkts: nat, numParts: nat, size: nat) returns (pool: PktsHeap)
    requires numParts >= numPkts  // asserted by the pool
    ensures fresh(pool) && pool.particle_sz == size && |pool.pkts| == numPkts && |pool.particles| == numParts
    ensures NoDup(pool.pkts) && NoDup(pool.particles) && Buffers(Members(pool.particles), size)
    ensures forall p :: p in pool.pkts ==> fresh(p) && p.particle == null
    ensures forall x :: x in pool.particles ==> fresh(x) && fresh(x.raw) && x.next == null
  {
    pool := new PktsHeap(size);
    for i := 0 to numPkts
      invariant fresh(pool) && |pool.pkts| == i && NoDup(pool.pkts) && pool.particles == []
      invariant forall p :: p in pool.pkts ==> fresh(p) && p.particle == null
    {
      var p := new Packet();
      pool.pkts := [p] + pool.pkts;
    }
    for i := 0 to numParts
      invariant fresh(pool) && |pool.pkts| == numPkts && NoDup(pool.pkts)
      invariant forall p :: p in pool.pkts ==> fresh(p) && p.particle == null
      invariant |pool.particles| == i && NoDup(pool.particles) && Buffers(Members(pool.particles), size)
      invariant forall x :: x in pool.particles ==> fresh(x) && fresh(x.raw) && x.next == null
    {
      var x := new Particle(size);
      pool.particles := [x] + pool.particles;
    }
  }

  // The packets are valid and have these chains.
  ghost predicate Shows(chains: map<Packet, seq<Particle>>)
    reads *
  {
    forall p {:trigger chains[p]} :: p in chains ==> p.chain == chains[p] && p.Valid()
  }

  ghost predicate Unused(idle: seq<Packet>)
    reads idle`particle
  {
    forall p :: p in idle ==> p.particle == null
  }

  // The pool, the queue and the packets are as the run model has them.
  ghost predicate Reflects(pool: PktsHeap, queue: ReturnQueue, s: Pools, parts: set<Particle>)
    reads *
  {
    && Buffers(parts, pool.particle_sz) && pool.Valid()
    && pool.particles == s.free && pool.pkts == s.idle && queue.items == s.queue
    && Unused(s.idle) && Shows(s.chains)
  }

  // A new pool with an empty queue is at the start of a run.
  lemma Start(pool: PktsHeap, queue: ReturnQueue) returns (s: Pools)
    requires NoDup(pool.pkts) && NoDup(pool.particles) && Buffers(Members(pool.particles), pool.particle_sz)
    requires (forall p :: p in pool.pkts ==> p.particle == null) && (forall x :: x in pool.particles ==> x.next == null)
    requires queue.items == []
    ensures Initial(s, Members(pool.pkts), Members(pool.particles)) && Reflects(pool, queue, s, Members(pool.particles))
  {
    s := Pools(pool.particles, pool.pkts, [], map[]);
    OwnMemory(pool.particles, Members(pool.particles), pool.particle_sz);
  }

  // What the operations on a packet need of it and of the pool.
  lemma Ready(pool: PktsHeap, queue: ReturnQueue, s: Pools, pkts: set<Packet>, parts: set<Particle>, pkt: Packet)
    requires Inv(s, pkts, parts) && Reflects(pool, queue, s, parts) && pkt in s.chains
    ensures pkt.chain == s.chains[pkt] && pkt.Valid() && SharesNothing(pkt, pool) && pkt !in s.idle
    ensures Shows(s.chains - {pkt}) && Elsewhere(s.chains - {pkt}, Objects(Both(pkt, pool)))
  {
    ShowsLess(s.chains, pkt);
    assert ChainOnce(s, pkt);
    ConcatNoDup(pkt.chain, pool.particles);
    OwnMemory(pkt.chain + pool.particles, parts, pool.particle_sz);
    forall q | q in s.chains && q != pkt ensures Objects(s.chains[q]) !! Objects(Both(pkt, pool)) {
      var chain := s.chains[q];
      assert ChainOnce(s, q) && Disjoint(chain, s.chains[pkt]);
      assert forall x :: x in chain ==> x !in pkt.chain && x !in pool.particles;
      ApartObjects(chain, pkt.chain + pool.particles, parts, pool.particle_sz);
    }
  }

  lemma NoObject(q: Packet, ps: seq<Particle>)
    ensures q !in Objects(ps)
  {
  }

  lemma NoParts(pool: PktsHeap, queue: ReturnQueue, ps: seq<Particle>)
    ensures pool !in Objects(ps) && queue !in Objects(ps)
  {
  }

  lemma ShowsLess(chains: map<Packet, seq<Particle>>, pkt: Packet)
    requires Shows(chains) && pkt in chains
    ensures Shows(chains - {pkt}) && pkt.Valid() && pkt.chain == chains[pkt]
  {
    assert pkt.chain == chains[pkt];
    forall p | p in chains - {pkt} ensures p.chain == (chains - {pkt})[p] && p.Valid() {
      assert p.chain == chains[p];
    }
  }

  lemma ShowsMore(chains: map<Packet, seq<Particle>>, pkt: Packet)
    requires Shows(chains - {pkt}) && pkt.Valid()
    ensures Shows(chains[pkt := pkt.chain])
  {
    var rest := chains - {pkt};
    forall p | p in chains[pkt := pkt.chain] && p != pkt ensures p.chain == chains[p] && p.Valid() {
      assert p.chain == rest[p];
    }
  }

  // The packets share no memory with this one or the pool.
  ghost predicate Elsewhere(rest: map<Packet, seq<Particle>>, memory: set<object>) {
    forall p {:trigger rest[p]} :: p in rest ==> Objects(rest[p]) !! memory
  }

  lemma ShownAndElsewhere(rest: map<Packet, seq<Particle>>, memory: set<object>)
    requires Shows(rest) && Elsewhere(rest, memory)
    ensures forall q :: q in rest.Keys ==> q.Valid() && q.chain == rest[q] && Objects(q.chain) !! memory
  {
    forall q | q in rest.Keys ensures q.Valid() && q.chain == rest[q] && Objects(rest[q]) !! memory {
    }
  }

  // Appending to a packet among others that share none of its memory.
  method AppendAmong(pkt: Packet, pool: PktsHeap, bytes: seq<byte>, ghost others: set<Packet>, ghost idle: seq<Packet>)
    returns (ok: bool, ghost n: nat)
    requires pkt.Valid() && pool.Valid() && SharesNothing(pkt, pool) && pkt !in idle && Unused(idle)
    requires forall q :: q in others ==> q != pkt && q.Valid() && Objects(q.chain) !! Objects(Both(pkt, pool))
    modifies pkt`chain, pkt`pieces, pkt`length, pool`particles, Objects(Both(pkt, pool))
    ensures pkt.Valid() && pool.Valid() && n <= |old(pool.particles)|
    ensures pkt.chain == old(pkt.chain) + old(pool.particles)[..n] && pool.particles == old(pool.particles)[n..]
    ensures ok <==> |bytes| <= old(RoomBehind(pkt, pool))
    ensures ok ==> pkt.Bytes() == old(pkt.Bytes()) + bytes && pkt.length == old(pkt.length) + |bytes|
    ensures !ok ==>
      pkt.Bytes() == old(pkt.Bytes()) + bytes[..old(RoomBehind(pkt, pool))] && pkt.length == old(pkt.length)
    ensures forall q :: q in others ==> q.Valid() && q.chain == old(q.chain) && q.pieces == old(q.pieces)
    ensures Unused(idle)
  {
    ghost var memory, chain, free := Objects(Both(pkt, pool)), pkt.chain, pool.particles;
    forall q | q in others || q in idle ensures q !in memory {
      NoObject(q, Both(pkt, pool));
    }
    ok, n := Packets.Append(pkt, pool, bytes);
    Split(chain, free, pkt.chain, pool.particles, n);
    forall q | q in others ensures q.Valid() && q.chain == old(q.chain) && q.pieces == old(q.pieces) {
      assert old(q.Valid() && Objects(q.chain) !! memory);
      assert Chained(q.chain) && Holds(q.chain, q.pieces);
    }
  }

  // Appending is one step; the packet grows by the bytes if they fit, and no other changes.
  method Append(pool: PktsHeap, queue: ReturnQueue, pkt: Packet, bytes: seq<byte>, ghost s: Pools,
      ghost pkts: set<Packet>, ghost parts: set<Particle>)
    returns (ok: bool, ghost n: nat)
    requires Inv(s, pkts, parts) && Reflects(pool, queue, s, parts) && Out(s, pkt)
    modifies pool`particles, pkt, Objects(Both(pkt, pool))
    ensures Enabled(s, Grow(pkt, n)) && Reflects(pool, queue, Step(s, Grow(pkt, n)), parts)
    ensures forall q :: q in s.chains && q != pkt ==> q.pieces == old(q.pieces)
    ensures ok <==> |bytes| <= old(RoomBehind(pkt, pool))
    ensures ok ==> pkt.Bytes() == old(pkt.Bytes()) + bytes && pkt.length == old(pkt.length) + |bytes|
    ensures !ok ==>
      pkt.Bytes() == old(pkt.Bytes()) + bytes[..old(RoomBehind(pkt, pool))] && pkt.length == old(pkt.length)
  {
    Ready(pool, queue, s, pkts, parts, pkt);
    NoParts(pool, queue, Both(pkt, pool));
    ghost var rest := s.chains - {pkt};
    ShownAndElsewhere(rest, Objects(Both(pkt, pool)));
    ok, n := AppendAmong(pkt, pool, bytes, rest.Keys, s.idle);
    assert Shows(rest);
    ShowsMore(s.chains, pkt);
  }

  lemma Split(chain: seq<Particle>, free: seq<Particle>, chain': seq<Particle>, free': seq<Particle>, n: nat)
    requires chain' + free' == chain + free && |chain'| == |chain| + n
    ensures n <= |free| && chain' == chain + free[..n] && free' == free[n..]
  {
    assert |chain' + free'| == |chain + free|;
    assert chain' == (chain' + free')[..|chain'|] == (chain + free)[..|chain| + n];
    assert free' == (chain' + free')[|chain'|..] == (chain + free)[|chain| + n..];
  }

  lemma ApartObjects(a: seq<Particle>, b: seq<Particle>, parts: set<Particle>, size: nat)
    requires Buffers(parts, size) && (forall x :: x in a ==> x in parts && x !in b) && forall x :: x in b ==> x in parts
    ensures Objects(a) !! Objects(b)
  {
    forall o | o in Raws(a) ensures o !in Raws(b) {
      var x :| x in a && x.raw == o;
      forall y | y in b ensures y.raw != o {
        assert Distinct(x, y);
      }
    }
    assert Raws(a) !! Raws(b);
  }

  lemma OwnMemory(s: seq<Particle>, parts: set<Particle>, size: nat)
    requires NoDup(s) && Buffers(parts, size) && forall x :: x in s ==> x in parts
    ensures Separate(s)
  {
    forall i, j | 0 <= i < j < |s| ensures Distinct(s[i], s[j]) {
      assert s[i] in parts && s[j] in parts;
    }
  }

  lemma SplitFront(chain: seq<Particle>, free: seq<Particle>, chain': seq<Particle>, free': seq<Particle>, n: nat)
    requires Reversed(chain') + free' == Reversed(chain) + free && |chain'| == |chain| + n
    ensures n <= |free| && chain' == Reversed(free[..n]) + chain && free' == free[n..]
  {
    ReversedMembers(chain);
    ReversedMembers(chain');
    Split(Reversed(chain), free, Reversed(chain'), free', n);
    ReversedTwice(chain');
    ReversedTwice(chain);
    ReversedConcat(Reversed(chain), free[..n]);
  }

  lemma {:induction false} ReversedConcat<T>(a: seq<T>, b: seq<T>)
    ensures Reversed(a + b) == Reversed(b) + Reversed(a)
  {
    if a == [] {
      assert a + b == b;
    } else {
      assert (a + b)[1..] == a[1..] + b;
      ReversedConcat(a[1..], b);
    }
  }

  method PrependAmong(pkt: Packet, pool: PktsHeap, bytes: seq<byte>, ghost others: set<Packet>, ghost idle: seq<Packet>)
    returns (ok: bool, ghost n: nat)
    requires pkt.Valid() && pool.Valid() && SharesNothing(pkt, pool) && pkt !in idle && Unused(idle)
    requires forall q :: q in others ==> q != pkt && q.Valid() && Objects(q.chain) !! Objects(Both(pkt, pool))
    modifies pkt`particle, pkt`chain, pkt`pieces, pkt`length, pool`particles, Objects(Both(pkt, pool))
    ensures pkt.Valid() && pool.Valid() && n <= |old(pool.particles)|
    ensures pkt.chain == Reversed(old(pool.particles)[..n]) + old(pkt.chain)
      && pool.particles == old(pool.particles)[n..]
    ensures ok <==> |bytes| <= old(RoomBefore(pkt, pool))
    ensures ok ==> pkt.Bytes() == bytes + old(pkt.Bytes()) && pkt.length == old(pkt.length) + |bytes|
    ensures !ok ==>
      && pkt.Bytes() == bytes[|bytes| - old(RoomBefore(pkt, pool))..] + old(pkt.Bytes())
      && pkt.length == old(pkt.length)
    ensures forall q :: q in others ==> q.Valid() && q.chain == old(q.chain) && q.pieces == old(q.pieces)
    ensures Unused(idle)
  {
    ghost var memory, chain, free := Objects(Both(pkt, pool)), pkt.chain, pool.particles;
    forall q | q in others || q in idle ensures q !in memory {
      NoObject(q, Both(pkt, pool));
    }
    ok, n := Packets.Prepend(pkt, pool, bytes);
    SplitFront(chain, free, pkt.chain, pool.particles, n);
    forall q | q in others ensures q.Valid() && q.chain == old(q.chain) && q.pieces == old(q.pieces) {
      assert old(q.Valid() && Objects(q.chain) !! memory);
      assert Chained(q.chain) && Holds(q.chain, q.pieces);
    }
  }

  // Prepending is one step.
  method Prepend(pool: PktsHeap, queue: ReturnQueue, pkt: Packet, bytes: seq<byte>, ghost s: Pools,
      ghost pkts: set<Packet>, ghost parts: set<Particle>)
    returns (ok: bool, ghost n: nat)
    requires Inv(s, pkts, parts) && Reflects(pool, queue, s, parts) && Out(s, pkt)
    modifies pool`particles, pkt, Objects(Both(pkt, pool))
    ensures Enabled(s, GrowFront(pkt, n)) && Reflects(pool, queue, Step(s, GrowFront(pkt, n)), parts)
    ensures forall q :: q in s.chains && q != pkt ==> q.pieces == old(q.pieces)
    ensures ok <==> |bytes| <= old(RoomBefore(pkt, pool))
    ensures ok ==> pkt.Bytes() == bytes + old(pkt.Bytes()) && pkt.length == old(pkt.length) + |bytes|
    ensures !ok ==>
      && pkt.Bytes() == bytes[|bytes| - old(RoomBefore(pkt, pool))..] + old(pkt.Bytes())
      && pkt.length == old(pkt.length)
  {
    Ready(pool, queue, s, pkts, parts, pkt);
    NoParts(pool, queue, Both(pkt, pool));
    ghost var rest := s.chains - {pkt};
    ShownAndElsewhere(rest, Objects(Both(pkt, pool)));
    ok, n := PrependAmong(pkt, pool, bytes, rest.Keys, s.idle);
    assert Shows(rest);
    ShowsMore(s.chains, pkt);
  }

  method PushAmong(queue: ReturnQueue, pkt: Packet, pool: PktsHeap, ghost others: set<Packet>, ghost idle: seq<Packet>)
    returns (ok: bool)
    requires pool.Valid() && Unused(idle) && forall q :: q in others ==> q.Valid()
    modifies queue
    ensures ok == (|old(queue.items)| < queue.capacity)
    ensures queue.items == if ok then old(queue.items) + [pkt] else old(queue.items)
    ensures pool.Valid() && Unused(idle) && forall q :: q in others ==> q.Valid()
  {
    forall q | q in others ensures queue !in Objects(q.chain) {
      NoParts(pool, queue, q.chain);
    }
    ok := queue.Push(pkt);
    forall q | q in others ensures q.Valid() {
      assert old(q.Valid());
      assert Chained(q.chain) && Holds(q.chain, q.pieces);
    }
  }

  lemma ShowsValid(chains: map<Packet, seq<Particle>>)
    requires Shows(chains)
    ensures forall q :: q in chains.Keys ==> q.Valid() && q.chain == chains[q]
  {
    forall q | q in chains.Keys ensures q.Valid() && q.chain == chains[q] {
      assert chains[q] == q.chain;
    }
  }

  // Dropping a packet is one step if the queue has room, as it has in every run if it has room for
  // all packets; the code panics if it has none.
  method Drop(pool: PktsHeap, queue: ReturnQueue, pkt: Packet, ghost s: Pools, ghost parts: set<Particle>)
    returns (ok: bool)
    requires Reflects(pool, queue, s, parts) && Out(s, pkt)
    modifies queue
    ensures ok == (|s.queue| < queue.capacity)
    ensures Reflects(pool, queue, if ok then Step(s, PoolRuns.Drop(pkt)) else s, parts)
  {
    ShowsValid(s.chains);
    ok := PushAmong(queue, pkt, pool, s.chains.Keys, s.idle);
    assert Shows(s.chains);
  }

  method NewAmong(pool: PktsHeap, headroom: nat, ghost others: set<Packet>, ghost idle: seq<Packet>)
    returns (pkt: Packet?)
    requires pool.Valid() && headroom <= pool.particle_sz
    requires NoDup(idle) && pool.pkts == idle && Unused(idle)
    requires forall q :: q in others ==>
      q.Valid() && q !in idle && (pool.particles != [] ==> pool.particles[0] !in q.chain)
    modifies pool`pkts, pool`particles, Next(pool)
    ensures pool.Valid() && (pkt != null <==> idle != [] && old(pool.particles) != [])
    ensures pkt == null ==> pool.pkts == idle && pool.particles == old(pool.particles) && Unused(idle)
    ensures pkt != null ==>
      pkt == idle[0] && pool.pkts == idle[1..] && pool.particles == old(pool.particles)[1..] && Unused(idle[1..])
    ensures pkt != null ==> pkt.Valid() && pkt.chain == [old(pool.particles)[0]] && pkt.Bytes() == [] && pkt.length == 0
    ensures pkt != null ==> pkt.First().head == headroom
    ensures forall q :: q in others ==> q.Valid() && q.chain == old(q.chain) && q.pieces == old(q.pieces)
  {
    pkt := Pkt(pool, headroom);
    forall q | q in others ensures q.Valid() && q.chain == old(q.chain) && q.pieces == old(q.pieces) {
      assert old(q.Valid()) && q in others;
      assert Chained(q.chain) && Holds(q.chain, q.pieces);
    }
  }

  lemma FreeElsewhere(s: Pools, pkts: set<Packet>, parts: set<Particle>)
    requires Inv(s, pkts, parts) && Shows(s.chains)
    ensures NoDup(s.idle)
    ensures forall q :: q in s.chains.Keys ==>
      q.Valid() && q.chain == s.chains[q] && q !in s.idle && (s.free != [] ==> s.free[0] !in q.chain)
  {
    forall q | q in s.chains.Keys
      ensures q.Valid() && q.chain == s.chains[q] && (s.free != [] ==> s.free[0] !in q.chain)
    {
      assert s.chains[q] == q.chain && ChainOnce(s, q);
    }
  }

  method NewShown(pool: PktsHeap, queue: ReturnQueue, headroom: nat, ghost s: Pools, ghost parts: set<Particle>)
    returns (pkt: Packet?)
    requires Reflects(pool, queue, s, parts) && headroom <= pool.particle_sz && NoDup(s.idle)
    requires forall q :: q in s.chains.Keys ==>
      q.Valid() && q.chain == s.chains[q] && q !in s.idle && (s.free != [] ==> s.free[0] !in q.chain)
    modifies pool`pkts, pool`particles, Next(pool)
    ensures pkt != null <==> s.idle != [] && s.free != []
    ensures Reflects(pool, queue, Step(s, Take), parts)
    ensures pkt != null ==> pkt == s.idle[0] && pkt.Valid() && pkt.Bytes() == [] && pkt.length == 0
    ensures pkt != null ==> pkt.First().head == headroom
  {
    pkt := NewAmong(pool, headroom, s.chains.Keys, s.idle);
    assert Shows(s.chains);
    if pkt != null {
      assert s.chains - {pkt} == s.chains;
      ShowsMore(s.chains, pkt);
    }
  }

  // A new packet is one step; there is one if there is an idle packet and a free particle.
  method NewPkt(pool: PktsHeap, queue: ReturnQueue, headroom: nat, ghost s: Pools, ghost pkts: set<Packet>,
      ghost parts: set<Particle>)
    returns (pkt: Packet?)
    requires Inv(s, pkts, parts) && Reflects(pool, queue, s, parts) && headroom <= pool.particle_sz
    modifies pool`pkts, pool`particles, Next(pool)
    ensures pkt != null <==> s.idle != [] && s.free != []
    ensures Reflects(pool, queue, Step(s, Take), parts)
    ensures pkt != null ==> pkt == s.idle[0] && pkt.Valid() && pkt.Bytes() == [] && pkt.length == 0
    ensures pkt != null ==> pkt.First().head == headroom
  {
    FreeElsewhere(s, pkts, parts);
    pkt := NewShown(pool, queue, headroom, s, parts);
  }

  lemma FreedValid(pool: PktsHeap, chain: seq<Particle>, free: seq<Particle>)
    requires pool.particles == Reversed(chain) + free && Separate(pool.particles)
    requires Unlinked(chain, |chain|) && forall i :: 0 <= i < |free| ==> free[i].next == null
    requires forall i :: 0 <= i < |free| ==> free[i].raw.Length == pool.particle_sz
    requires forall x :: x in chain ==> x.raw.Length == pool.particle_sz
    ensures pool.Valid()
  {
    ReversedMembers(chain);
    forall i | 0 <= i < |pool.particles|
      ensures pool.particles[i].raw.Length == pool.particle_sz && pool.particles[i].next == null
    {
      var x := pool.particles[i];
      if i < |chain| {
        ReversedAt(chain, i);
        assert x == chain[|chain| - 1 - i];
      } else {
        assert x == free[i - |chain|];
      }
    }
  }

  // Freeing a packet among others that share none of its particles.
  method FreeAmong(pool: PktsHeap, pkt: Packet, ghost others: set<Packet>, ghost idle: seq<Packet>)
    requires pkt.Valid() && pool.Valid() && Unused(idle) && pkt !in idle
    requires Separate(Reversed(pkt.chain) + pool.particles)
      && forall x :: x in pkt.chain ==> x.raw.Length == pool.particle_sz
    requires forall q :: q in others ==> q != pkt && q.Valid() && forall x :: x in q.chain ==> x !in pkt.chain
    modifies pool`particles, pool`pkts, pkt`particle, pkt`chain, pkt`pieces, pkt.chain`next
    ensures pool.particles == Reversed(old(pkt.chain)) + old(pool.particles) && pool.pkts == [pkt] + old(pool.pkts)
    ensures pool.Valid() && Unused([pkt] + idle)
    ensures forall q :: q in others ==> q.Valid() && q.chain == old(q.chain) && q.pieces == old(q.pieces)
  {
    ghost var chain, free := pkt.chain, pool.particles;
    Free(pool, pkt);
    FreedValid(pool, chain, free);
    forall q | q in others ensures q.Valid() && q.chain == old(q.chain) && q.pieces == old(q.pieces) {
      assert old(q.Valid()) && q in others;
      assert forall x :: x in q.chain ==> x !in chain;
      assert forall x :: x in q.chain ==> x.next == old(x.next);
      assert Chained(q.chain) && Holds(q.chain, q.pieces);
    }
  }

  method PopAmong(queue: ReturnQueue, pool: PktsHeap, ghost others: set<Packet>, ghost idle: seq<Packet>)
    returns (pkt: Packet)
    requires queue.items != [] && pool.Valid() && Unused(idle) && forall q :: q in others ==> q.Valid()
    modifies queue
    ensures pkt == old(queue.items)[0] && queue.items == old(queue.items)[1..]
    ensures pool.Valid() && Unused(idle) && forall q :: q in others ==> q.Valid()
  {
    forall q | q in others ensures queue !in Objects(q.chain) {
      NoParts(pool, queue, q.chain);
    }
    pkt := queue.Pop();
    forall q | q in others ensures q.Valid() {
      assert old(q.Valid());
      assert Chained(q.chain) && Holds(q.chain, q.pieces);
    }
  }

  // What RecycleOne needs of a packet to be freed, besides the packet's own validity.
  ghost predicate CanFree(s: Pools, pkt: Packet, size: nat)
    reads if pkt in s.chains then s.chains[pkt] else []
  {
    && pkt in s.chains && pkt !in s.idle
    && Separate(Reversed(s.chains[pkt]) + s.free) && (forall x :: x in s.chains[pkt] ==> x.raw.Length == size)
    && forall q, x :: q in s.chains && q != pkt && x in s.chains[q] ==> x !in s.chains[pkt]
  }

  lemma Freeable(s: Pools, pkts: set<Packet>, parts: set<Particle>, size: nat)
    requires Inv(s, pkts, parts) && Buffers(parts, size) && s.queue != []
    ensures s.queue[0] in s.chains && CanFree(s.(queue := s.queue[1..]), s.queue[0], size)
    ensures Step(s, Recycle) == Freed(s.(queue := s.queue[1..]), s.queue[0])
  {
    var pkt := s.queue[0];
    var chain := s.chains[pkt];
    assert ChainOnce(s, pkt);
    ConcatNoDup(chain, s.free);
    OwnMemory(chain + s.free, parts, size);
    SeparateReversed(chain, s.free);
    forall q, x | q in s.chains && q != pkt && x in s.chains[q] ensures x !in chain {
      assert Disjoint(s.chains[q], chain);
    }
  }

  // Taking the oldest packet out of the queue, which is the first half of the step.
  method PopShown(pool: PktsHeap, queue: ReturnQueue, ghost s: Pools, ghost parts: set<Particle>) returns (pkt: Packet)
    requires Reflects(pool, queue, s, parts) && s.queue != []
    modifies queue
    ensures pkt == s.queue[0] && Reflects(pool, queue, s.(queue := s.queue[1..]), parts)
  {
    ShowsValid(s.chains);
    pkt := PopAmong(queue, pool, s.chains.Keys, s.idle);
    assert Shows(s.chains);
  }

  // Freeing it, which is the other half.
  ghost function Freed(s: Pools, pkt: Packet): Pools
    requires pkt in s.chains
  {
    Pools(Reversed(s.chains[pkt]) + s.free, [pkt] + s.idle, s.queue, s.chains - {pkt})
  }

  method FreeShown(pool: PktsHeap, queue: ReturnQueue, pkt: Packet, ghost s: Pools, ghost parts: set<Particle>)
    requires Reflects(pool, queue, s, parts) && CanFree(s, pkt, pool.particle_sz)
    modifies pool`particles, pool`pkts, pkt`particle, pkt`chain, pkt`pieces, s.chains[pkt]`next
    ensures Reflects(pool, queue, Freed(s, pkt), parts)
    ensures forall q :: q in s.chains && q != pkt ==> q.pieces == old(q.pieces)
  {
    ShowsValid(s.chains);
    ghost var rest := s.chains - {pkt};
    FreeAmong(pool, pkt, rest.Keys, s.idle);
    assert Shows(rest);
  }

  // Freeing the oldest packet of the queue is one step.
  method RecycleOne(pool: PktsHeap, queue: ReturnQueue, ghost s: Pools, ghost pkts: set<Packet>,
      ghost parts: set<Particle>)
    requires Inv(s, pkts, parts) && Reflects(pool, queue, s, parts) && s.queue != []
    modifies queue, pool`particles, pool`pkts, pkts, parts`next
    ensures Reflects(pool, queue, Step(s, Recycle), parts)
    ensures forall q :: q in s.chains && q != s.queue[0] ==> q.pieces == old(q.pieces)
  {
    var pkt := PopShown(pool, queue, s, parts);
    Freeable(s, pkts, parts, pool.particle_sz);
    FreeShown(pool, queue, pkt, s.(queue := s.queue[1..]), parts);
  }

  // The start of every run of the graph: the queue is emptied, and the pool then has back every
  // queued packet and its particles.
  method RecycleAll(pool: PktsHeap, queue: ReturnQueue, ghost s: Pools, ghost pkts: set<Packet>,
      ghost parts: set<Particle>)
    returns (ghost t: Pools)
    requires Inv(s, pkts, parts) && Reflects(pool, queue, s, parts)
    modifies queue, pool`particles, pool`pkts, pkts, parts`next
    ensures Inv(t, pkts, parts) && Reflects(pool, queue, t, parts)
    ensures t.queue == [] && t.chains.Keys == s.chains.Keys - Members(s.queue)
  {
    t := s;
    while queue.items != []
      invariant Inv(t, pkts, parts) && Reflects(pool, queue, t, parts)
      invariant t.chains.Keys - Members(t.queue) == s.chains.Keys - Members(s.queue)
      decreases |queue.items|
    {
      RecycleOne(pool, queue, t, pkts, parts);
      t := Recycled(t, pkts, parts);
    }
  }

  lemma Recycled(s: Pools, pkts: set<Packet>, parts: set<Particle>) returns (t: Pools)
    requires Inv(s, pkts, parts) && s.queue != []
    ensures t == Step(s, Recycle) && Inv(t, pkts, parts) && t.queue == s.queue[1..]
    ensures t.chains.Keys - Members(t.queue) == s.chains.Keys - Members(s.queue)
  {
    t := Step(s, Recycle);
    PacketsStep(s, Recycle, pkts);
    ParticlesStep(s, Recycle, pkts, parts);
    assert s.queue == [s.queue[0]] + s.queue[1..];
  }
}
