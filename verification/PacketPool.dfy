/**
 A thread's packet pool together with its return queue: making a packet, freeing one with its whole
 chain, and dropping one into the queue. PoolSystem shows these to be steps of a run.
 */
module PacketPool {
  import opened Particles
  import opened Packets

  class ReturnQueue {
    var items: seq<Packet>
    const capacity: nat

    constructor (capacity: nat)
      ensures items == [] && this.capacity == capacity
    {
      items := [];
      this.capacity := capacity;
    }

    method Push(pkt: Packet) returns (ok: bool)
      modifies this
      ensures ok == (|old(items)| < capacity)
      ensures items == if ok then old(items) + [pkt] else old(items)
    {
      ok := |items| < capacity;
      if ok {
        items := items + [pkt];
      }
    }

    method Pop() returns (pkt: Packet?)
      modifies this
      ensures old(items) == [] ==> pkt == null && items == []
      ensures old(items) != [] ==> pkt == old(items)[0] && items == old(items)[1..]
    {
      if items == [] {
        return null;
      }
      pkt := items[0];
      items := items[1..];
    }
  }

  // What the next packet is made of, if the pool has it.
  ghost function Next(pool: PktsHeap): set<object>
    reads pool`pkts, pool`particles
  {
    if pool.pkts == [] || pool.particles == [] then {} else {pool.pkts[0], pool.particles[0]}
  }

  // A packet of one particle, both the pool's next ones; or none, and the pool is as before.
  method Pkt(pool: PktsHeap, headroom: nat) returns (pkt: Packet?)
    requires pool.Valid() && headroom <= pool.particle_sz
    modifies pool`pkts, pool`particles, Next(pool)
    ensures pool.Valid()
    ensures old(pool.pkts) == [] || old(pool.particles) == [] ==>
      pkt == null && pool.pkts == old(pool.pkts) && pool.particles == old(pool.particles)
    ensures old(pool.pkts) != [] && old(pool.particles) != [] ==>
      && pkt == old(pool.pkts)[0] && pool.pkts == old(pool.pkts)[1..] && pool.particles == old(pool.particles)[1..]
      && pkt.Valid() && pkt.chain == [old(pool.particles)[0]] && pkt.Bytes() == [] && pkt.length == 0
      && pkt.First().head == headroom && pkt.l2_len == pkt.l3_len == 0
  {
    if pool.pkts == [] {
      return null;
    }
    pkt := pool.pkts[0];
    pool.pkts := pool.pkts[1..];
    var part := pool.TakeParticle(headroom);
    if part == null {
      pool.pkts := [pkt] + pool.pkts;
      return null;
    }
    pkt.length, pkt.l2, pkt.l2_len, pkt.l3, pkt.l3_len := 0, 0, 0, 0, 0;
    pkt.particle := part;
    pkt.chain, pkt.pieces := [part], [[]];
    JoinOne([]);
  }

  ghost predicate Unlinked(chain: seq<Particle>, n: nat)
    reads chain`next
  {
    forall j {:trigger chain[j]} :: 0 <= j < n && j < |chain| ==> chain[j].next == null
  }

  ghost function Nth(chain: seq<Particle>, i: nat): Particle? {
    if i < |chain| then chain[i] else null
  }

  ghost predicate LinkedFrom(chain: seq<Particle>, n: nat)
    reads chain`next
  {
    forall j {:trigger chain[j].next} :: n <= j < |chain| ==> chain[j].next == Nth(chain, j + 1)
  }

  method FreeNext(pool: PktsHeap, part: Particle, ghost chain: seq<Particle>, ghost i: nat) returns (next: Particle?)
    requires Separate(chain) && i < |chain| && part == chain[i]
    requires Unlinked(chain, i) && LinkedFrom(chain, i)
    modifies part`next, pool`particles
    ensures pool.particles == [part] + old(pool.particles) && next == Nth(chain, i + 1)
    ensures Unlinked(chain, i + 1) && LinkedFrom(chain, i + 1)
  {
    next := part.next;
    part.next := null;
    forall j | 0 <= j < |chain| && j != i ensures chain[j] != part {
      assert Distinct(chain[if i < j then i else j], chain[if i < j then j else i]);
    }
    pool.FreePart(part);
  }

  method FreeChain(pool: PktsHeap, first: Particle, ghost chain: seq<Particle>)
    requires Separate(chain) && chain != [] && first == chain[0] && LinkedFrom(chain, 0)
    modifies pool`particles, chain`next
    ensures pool.particles == Reversed(chain) + old(pool.particles) && Unlinked(chain, |chain|)
  {
    ghost var i, free := 0, pool.particles;
    var part: Particle? := first;
    while part != null
      invariant i <= |chain| && part == Nth(chain, i)
      invariant pool.particles == Reversed(chain[..i]) + free
      invariant Unlinked(chain, i) && LinkedFrom(chain, i)
      decreases |chain| - i
    {
      part := FreeNext(pool, part, chain, i);
      Freed(chain, i, free);
      i := i + 1;
    }
    assert chain[..i] == chain;
  }

  // Frees the whole chain, first particle first, and then the packet.
  method Free(pool: PktsHeap, pkt: Packet)
    requires pkt.Valid()
    modifies pool`particles, pool`pkts, pkt`particle, pkt`chain, pkt`pieces, pkt.chain`next
    ensures pool.particles == Reversed(old(pkt.chain)) + old(pool.particles)
    ensures pool.pkts == [pkt] + old(pool.pkts)
    ensures pkt.particle == null && pkt.chain == []
    ensures Unlinked(old(pkt.chain), |old(pkt.chain)|)
  {
    var part := pkt.particle;
    pkt.particle := null;
    FreeChain(pool, part, pkt.chain);
    pkt.chain, pkt.pieces := [], [];
    pool.FreePkt(pkt);
  }

  lemma Freed(chain: seq<Particle>, i: nat, free: seq<Particle>)
    requires i < |chain|
    ensures [chain[i]] + (Reversed(chain[..i]) + free) == Reversed(chain[..i + 1]) + free
  {
    assert chain[..i + 1] == chain[..i] + [chain[i]];
    ReversedSnoc(chain[..i], chain[i]);
  }

  lemma {:induction false} ReversedSnoc<T>(s: seq<T>, x: T)
    ensures Reversed(s + [x]) == [x] + Reversed(s)
  {
    if s == [] {
    } else {
      assert (s + [x])[1..] == s[1..] + [x];
      ReversedSnoc(s[1..], x);
    }
  }
}
