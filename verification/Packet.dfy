/**
 Packets as chains of particles, and the pool the particles come from. A packet behaves like the
 one byte sequence that its particles hold together; growing it takes particles from the pool
 in the pool's order.
 */
module Packets {
  import opened Basics
  import opened Particles

  class PktsHeap {
    var pkts: seq<Packet>
    var particles: seq<Particle>
    const particle_sz: nat

    constructor (particle_sz: nat)
      ensures pkts == [] && particles == [] && this.particle_sz == particle_sz
    {
      pkts, particles := [], [];
      this.particle_sz := particle_sz;
    }

    // Free particles are separate, unchained and of the pool's size.
    ghost predicate Valid()
      reads this`particles, particles`next
    {
      && Separate(particles)
      && forall i :: 0 <= i < |particles| ==> particles[i].raw.Length == particle_sz && particles[i].next == null
    }

    method TakeParticle(headroom: nat) returns (p: Particle?)
      requires Valid() && headroom <= particle_sz
      modifies this`particles, if particles == [] then {} else {particles[0]}
      ensures Valid()
      ensures old(particles) == [] ==> p == null && particles == []
      ensures old(particles) != [] ==>
        && p == old(particles)[0] && particles == old(particles)[1..]
        && p.Ok() && p.head == p.tail == headroom && p.next == null
    {
      if particles == [] {
        return null;
      }
      p := particles[0];
      particles := particles[1..];
      p.Reinit(headroom);
    }

    method FreePart(p: Particle)
      requires p.next == null  // asserted by the pool
      modifies this`particles
      ensures particles == [p] + old(particles)
    {
      particles := [p] + particles;
    }

    method FreePkt(pkt: Packet)
      requires pkt.particle == null  // asserted by the pool
      modifies this`pkts
      ensures pkts == [pkt] + old(pkts)
    {
      pkts := [pkt] + pkts;
    }
  }

  class Packet {
    var particle: Particle?
    var length: nat
    var l2: nat
    var l2_len: nat
    var l3: nat
    var l3_len: nat
    ghost var chain: seq<Particle>        // the particles, first to last
    ghost var pieces: seq<seq<byte>>  // and the data of each

    constructor ()
      ensures particle == null && chain == []
    {
      particle, chain, pieces := null, [], [];
      length, l2, l2_len, l3, l3_len := 0, 0, 0, 0, 0;
    }

    ghost predicate Valid()
      reads this`particle, this`chain, this`pieces, chain`next, chain`head, chain`tail, Raws(chain)
    {
      chain != [] && particle == chain[0] && Separate(chain) && Chained(chain) && Holds(chain, pieces)
    }

    // The bytes that the packet stands for.
    ghost function Bytes(): seq<byte>
      reads this`pieces
    {
      Join(pieces)
    }

    ghost function Last(): Particle
      requires chain != []
      reads this`chain
    {
      chain[|chain| - 1]
    }

    ghost function First(): Particle
      requires chain != []
      reads this`chain
    {
      chain[0]
    }

    // How many more bytes fit into the last particle.
    ghost function Left(): nat
      requires chain != []
      reads this`chain, chain`tail
    {
      Last().Tailroom()
    }

    ghost function Front(): Placed
      requires chain != [] && pieces != []
      reads this`chain, this`pieces, chain`head, chain`tail
    {
      Placed(First().head, First().tail, First().raw.Length, pieces[0])
    }

    method LastParticle() returns (p: Particle)
      requires Valid()
      ensures p == Last()
    {
      p := particle;
      ghost var i := 0;
      while p.next != null
        invariant 0 <= i < |chain| && p == chain[i]
        decreases |chain| - i
      {
        p := p.next;
        i := i + 1;
      }
    }
  }

  // A packet whose chain shares nothing with the free particles.
  ghost predicate SharesNothing(pkt: Packet, pool: PktsHeap)
    reads pkt`chain, pool`particles
  {
    Separate(Both(pkt, pool))
  }

  // Counts n more bytes in, which leaves everything else alone.
  method Lengthen(pkt: Packet, pool: PktsHeap, n: nat)
    requires pkt.Valid() && pool.Valid()
    modifies pkt`length
    ensures pkt.Valid() && pool.Valid() && pkt.length == old(pkt.length) + n
    ensures pkt.Front() == old(pkt.Front()) && pkt.Left() == old(pkt.Left())
  {
    pkt.length := pkt.length + n;
  }

  /// ## Growing at the end

  // The particle taken from the pool becomes the last of the chain.
  method PushParticle(pkt: Packet, next: Particle)
    requires pkt.Valid() && next.Ok() && next.next == null && next.head == next.tail && Separate(pkt.chain + [next])
    modifies pkt`chain, pkt`pieces, pkt.Last()`next
    ensures pkt.Valid() && pkt.chain == old(pkt.chain) + [next]
    ensures pkt.Bytes() == old(pkt.Bytes())
  {
    ghost var was := pkt.chain;
    var p := pkt.LastParticle();
    JoinConcat(pkt.pieces, [[]]);
    JoinOne([]);
    SeparateSplit(was, [next]);
    forall i | 0 <= i < |was| ensures Distinct(was[i], next) && (i < |was| - 1 ==> Distinct(was[i], p)) {
      assert Distinct(was[i], [next][0]);
      assert i < |was| - 1 ==> Distinct(was[i], was[|was| - 1]);
    }
    p.next := next;
    pkt.chain := was + [next];
    pkt.pieces := pkt.pieces + [[]];
    forall i | 0 <= i < |was| ensures pkt.chain[i].next == pkt.chain[i + 1] {
      assert pkt.chain[i] == was[i];
    }
    assert Chained(pkt.chain) && Holds(pkt.chain, pkt.pieces);
  }

  // Appending within the last particle.
  method AppendToLast(pkt: Packet, data: seq<byte>) returns (n: nat)
    requires pkt.Valid()
    modifies pkt`pieces, pkt.Last()`tail, pkt.Last().raw
    ensures pkt.Valid()
    ensures n == if old(pkt.Left()) < |data| then old(pkt.Left()) else |data|
    ensures pkt.Left() == old(pkt.Left()) - n
    ensures pkt.Bytes() == old(pkt.Bytes()) + data[..n]
  {
    var p := pkt.LastParticle();
    ghost var k, chain, pieces := |pkt.chain| - 1, pkt.chain, pkt.pieces;
    n := p.Append(data);
    forall i | 0 <= i < k ensures chain[i].Ok() && chain[i].Data() == pieces[i] {
      assert Distinct(chain[i], chain[k]);
    }
    LastGrows(pieces, data[..n]);
    pkt.pieces := pkt.pieces[k := pkt.pieces[k] + data[..n]];
  }

  // How many more bytes fit behind the packet, in its last particle and in the pool.
  ghost function RoomBehind(pkt: Packet, pool: PktsHeap): nat
    requires pkt.chain != []
    reads pkt`chain, pkt.chain`tail, pool`particles
  {
    pkt.Left() + Capacity(|pool.particles|, pool.particle_sz)
  }

  // The bytes that n particles hold.
  function Capacity(n: nat, size: nat): nat {
    if n == 0 then 0 else size + Capacity(n - 1, size)
  }

  lemma {:induction false} CapacityProduct(n: nat, size: nat)
    ensures Capacity(n, size) == n * size
  {
    if n != 0 {
      CapacityProduct(n - 1, size);
      assert n * size == (n - 1) * size + size;
    }
  }

  // The packet and the pool together keep their particles, in this order.
  ghost function Both(pkt: Packet, pool: PktsHeap): seq<Particle>
    reads pkt`chain, pool`particles
  {
    pkt.chain + pool.particles
  }

  // Takes one particle from a pool that has one, to the end of the chain.
  method Extend(pkt: Packet, pool: PktsHeap)
    requires pkt.Valid() && pool.Valid() && SharesNothing(pkt, pool) && pool.particles != []
    modifies pkt`chain, pkt`pieces, pkt.Last()`next, pool`particles, pool.particles[0]
    ensures pkt.Valid() && pool.Valid()
    ensures Both(pkt, pool) == old(Both(pkt, pool)) && |pkt.chain| == |old(pkt.chain)| + 1
    ensures pkt.Bytes() == old(pkt.Bytes())
    ensures pkt.Left() == pool.particle_sz
    ensures RoomBehind(pkt, pool) == old(RoomBehind(pkt, pool)) - old(pkt.Left())
  {
    ghost var chain, free := pkt.chain, pool.particles;
    SeparateSplit(chain, free);
    forall i | 0 <= i < |chain| ensures chain[i] != free[0] && chain[i].raw != free[0].raw {
      assert Distinct(chain[i], free[0]);
    }
    forall j | 1 <= j < |free| ensures free[j] != free[0] && free[j] != chain[|chain| - 1] {
      assert Distinct(free[0], free[j]) && Distinct(chain[|chain| - 1], free[j]);
    }
    var p := pool.TakeParticle(0);
    assert chain + free == (chain + [p]) + free[1..];
    SeparateSplit(chain + [p], free[1..]);
    PushParticle(pkt, p);
  }

  // So many bytes have used up the room and all particles taken but for what is left in the last, and
  // none was taken that all n bytes do not need.
  ghost predicate JustEnough(n: nat, offset: nat, room: nat, left: nat, taken: nat, size: nat) {
    && offset + left == room + Capacity(taken, size)
    && (taken > 0 ==> room + Capacity(taken - 1, size) < n)
  }

  lemma StillEnough(n: nat, offset: nat, room: nat, left: nat, taken: nat, size: nat, next: nat, left': nat, more: bool)
    requires JustEnough(n, offset, room, left, taken, size) && offset < n
    requires if more then left == 0 && next == offset && left' == size else next + left' == offset + left
    ensures JustEnough(n, next, room, left', if more then taken + 1 else taken, size)
  {
    assert Capacity(taken + 1, size) == size + Capacity(taken, size);
  }

  // One round of append: as much as fits into the last particle or, if nothing does, a new one.
  method AppendRound(pkt: Packet, pool: PktsHeap, bytes: seq<byte>, offset: nat)
    returns (next: nat, ok: bool, ghost more: bool)
    requires pkt.Valid() && pool.Valid() && SharesNothing(pkt, pool) && offset < |bytes|
    modifies pkt`chain, pkt`pieces, pool`particles, pkt.Last(), pkt.Last().raw
    modifies if pool.particles == [] then {} else {pool.particles[0]}
    ensures pkt.Valid() && pool.Valid()
    ensures offset <= next <= |bytes| && pkt.Bytes() == old(pkt.Bytes()) + bytes[offset..next]
    ensures Both(pkt, pool) == old(Both(pkt, pool)) && |pkt.chain| == |old(pkt.chain)| + if more then 1 else 0
    ensures if more then old(pkt.Left()) == 0 && next == offset && pkt.Left() == pool.particle_sz
      else next + pkt.Left() == offset + old(pkt.Left())
    ensures next - offset + RoomBehind(pkt, pool) == old(RoomBehind(pkt, pool))
    ensures !ok ==> next == offset && RoomBehind(pkt, pool) == 0 && pool.particles == []
    ensures |pool.particles| <= |old(pool.particles)|
      && (ok ==> next > offset || |pool.particles| < |old(pool.particles)|)
  {
    var n := AppendToLast(pkt, bytes[offset..]);
    assert bytes[offset..][..n] == bytes[offset..offset + n];
    next, ok, more := offset + n, true, false;
    assert n + RoomBehind(pkt, pool) == old(RoomBehind(pkt, pool));
    if n == 0 {
      if pool.particles == [] {
        ok := false;
      } else {
        Extend(pkt, pool);
        more := true;
      }
    }
  }

  lemma NoParticle(pkt: Packet, pool: PktsHeap, ps: seq<Particle>)
    ensures pkt !in Objects(ps) && pool !in Objects(ps)
  {
  }

  lemma LastInAll(pkt: Packet, pool: PktsHeap, all: seq<Particle>)
    requires pkt.chain != [] && Both(pkt, pool) == all
    ensures pkt.Last() in Objects(all) && pkt.Last().raw in Objects(all)
    ensures pool.particles != [] ==> pool.particles[0] in Objects(all)
  {
    InAll(pkt.chain, pool.particles);
  }

  // The loop of append: bytes go in until they are used up or there is no particle left.
  method AppendRounds(pkt: Packet, pool: PktsHeap, bytes: seq<byte>) returns (offset: nat, ghost taken: nat)
    requires pkt.Valid() && pool.Valid() && SharesNothing(pkt, pool)
    modifies pkt`chain, pkt`pieces, pool`particles, Objects(Both(pkt, pool))
    ensures pkt.Valid() && pool.Valid()
    ensures Both(pkt, pool) == old(Both(pkt, pool)) && |pkt.chain| == |old(pkt.chain)| + taken
    ensures JustEnough(|bytes|, offset, old(pkt.Left()), pkt.Left(), taken, pool.particle_sz)
    ensures offset <= |bytes| && pkt.Bytes() == old(pkt.Bytes()) + bytes[..offset]
    ensures offset + RoomBehind(pkt, pool) == old(RoomBehind(pkt, pool))
    ensures offset < |bytes| ==> RoomBehind(pkt, pool) == 0 && pool.particles == []
  {
    offset, taken := 0, 0;
    ghost var all, was, before := Both(pkt, pool), pkt.Bytes(), RoomBehind(pkt, pool);
    ghost var count, left, size := |pkt.chain|, pkt.Left(), pool.particle_sz;
    while offset != |bytes|
      invariant offset <= |bytes| && pkt.Valid() && pool.Valid()
      invariant Both(pkt, pool) == all && |pkt.chain| == count + taken
      invariant JustEnough(|bytes|, offset, left, pkt.Left(), taken, size)
      invariant pkt.Bytes() == was + bytes[..offset]
      invariant offset + RoomBehind(pkt, pool) == before
      decreases |bytes| - offset + |pool.particles|
    {
      LastInAll(pkt, pool, all);
      ghost var l := pkt.Left();
      var next, ok, more := AppendRound(pkt, pool, bytes, offset);
      NextSlice(was, bytes, offset, next);
      StillEnough(|bytes|, offset, left, l, taken, size, next, pkt.Left(), more);
      offset, taken := next, if more then taken + 1 else taken;
      if !ok {
        break;
      }
    }
  }

  // Appends the bytes, over as many particles as it takes. It fails exactly when the last particle
  // and the whole pool have not enough room, after using up all of it.
  method Append(pkt: Packet, pool: PktsHeap, bytes: seq<byte>) returns (ok: bool, ghost taken: nat)
    requires pkt.Valid() && pool.Valid() && SharesNothing(pkt, pool)
    modifies pkt`chain, pkt`pieces, pkt`length, pool`particles, Objects(Both(pkt, pool))
    ensures pkt.Valid() && pool.Valid()
    ensures Both(pkt, pool) == old(Both(pkt, pool)) && |pkt.chain| == |old(pkt.chain)| + taken
    ensures ok <==> |bytes| <= old(RoomBehind(pkt, pool))
    ensures ok ==> JustEnough(|bytes|, |bytes|, old(pkt.Left()), pkt.Left(), taken, pool.particle_sz)
    ensures ok ==> pkt.Bytes() == old(pkt.Bytes()) + bytes && pkt.length == old(pkt.length) + |bytes|
    ensures !ok ==> pkt.length == old(pkt.length) && pool.particles == []
    ensures !ok ==> pkt.Bytes() == old(pkt.Bytes()) + bytes[..old(RoomBehind(pkt, pool))]
  {
    NoParticle(pkt, pool, Both(pkt, pool));
    ghost var length := pkt.length;
    var offset;
    offset, taken := AppendRounds(pkt, pool, bytes);
    assert pkt.length == length;
    ok := offset == |bytes|;
    if !ok {
      return;
    }
    assert bytes[..offset] == bytes;
    Lengthen(pkt, pool, |bytes|);
  }

  lemma NextSlice(was: seq<byte>, bytes: seq<byte>, offset: nat, next: nat)
    requires offset <= next <= |bytes|
    ensures (was + bytes[..offset]) + bytes[offset..next] == was + bytes[..next]
  {
  }

  lemma InAll(a: seq<Particle>, b: seq<Particle>)
    ensures a != [] ==> a[|a| - 1] in Objects(a + b) && a[|a| - 1].raw in Objects(a + b)
    ensures a != [] ==> a[0] in Objects(a + b) && a[0].raw in Objects(a + b)
    ensures b != [] ==> b[0] in Objects(a + b)
  {
    if a != [] {
      assert (a + b)[|a| - 1] == a[|a| - 1] && (a + b)[0] == a[0];
    }
    if b != [] {
      assert (a + b)[|a|] == b[0];
    }
  }

  /// ## Growing at the front

  function Reversed<T>(s: seq<T>): seq<T> {
    if s == [] then [] else Reversed(s[1..]) + [s[0]]
  }

  lemma {:induction false} ReversedAt<T>(s: seq<T>, i: nat)
    requires i < |s|
    ensures |Reversed(s)| == |s| && Reversed(s)[i] == s[|s| - 1 - i]
  {
    if i < |s| - 1 {
      ReversedAt(s[1..], i);
    } else if |s| > 1 {
      ReversedAt(s[1..], 0);
    }
  }

  // The order of a chain does not matter to separation.
  lemma SeparateReversed(a: seq<Particle>, b: seq<Particle>)
    requires Separate(a + b)
    ensures Separate(Reversed(a) + b)
  {
    SeparateSplit(a, b);
    var r := Reversed(a);
    if a != [] {
      ReversedAt(a, 0);
    }
    var all := r + b;
    forall i, j | 0 <= i < j < |all| ensures Distinct(all[i], all[j]) {
      if i < |r| {
        ReversedAt(a, i);
        if j < |r| {
          ReversedAt(a, j);
          assert Distinct(a[|a| - 1 - j], a[|a| - 1 - i]);
        } else {
          assert Distinct(a[|a| - 1 - i], b[j - |r|]);
        }
      } else {
        assert Distinct(b[i - |r|], b[j - |r|]);
      }
    }
  }

  lemma {:induction false} ReversedTwice<T>(s: seq<T>)
    ensures Reversed(Reversed(s)) == s
  {
    var r := Reversed(s);
    if s != [] {
      ReversedAt(s, 0);
      ReversedAt(r, 0);
      forall i | 0 <= i < |s| ensures Reversed(r)[i] == s[i] {
        ReversedAt(r, i);
        ReversedAt(s, |s| - 1 - i);
      }
    }
  }

  // The chain backwards and then the pool: the order that prepending keeps.
  ghost function BothBackwards(pkt: Packet, pool: PktsHeap): seq<Particle>
    reads pkt`chain, pool`particles
  {
    Reversed(pkt.chain) + pool.particles
  }

  lemma BackwardsApart(pkt: Packet, pool: PktsHeap)
    ensures SharesNothing(pkt, pool) <==> Separate(BothBackwards(pkt, pool))
  {
    if SharesNothing(pkt, pool) {
      SeparateReversed(pkt.chain, pool.particles);
    }
    if Separate(BothBackwards(pkt, pool)) {
      SeparateReversed(Reversed(pkt.chain), pool.particles);
      ReversedTwice(pkt.chain);
    }
  }

  ghost function RoomBefore(pkt: Packet, pool: PktsHeap): nat
    requires pkt.chain != []
    reads pkt`chain, pkt.chain`head, pool`particles
  {
    pkt.First().head + Capacity(|pool.particles|, pool.particle_sz)
  }

  // Prepending within the first particle.
  method PrependToFirst(pkt: Packet, data: seq<byte>) returns (n: nat)
    requires pkt.Valid()
    modifies pkt`pieces, pkt.First()`head, pkt.First().raw
    ensures pkt.Valid()
    ensures n == if |data| > old(pkt.First().head) then old(pkt.First().head) else |data|
    ensures pkt.First().head == old(pkt.First().head) - n
    ensures pkt.pieces[0] == data[|data| - n..] + old(pkt.pieces[0])
    ensures pkt.Bytes() == data[|data| - n..] + old(pkt.Bytes())
  {
    n := pkt.particle.Prepend(data);
    assert forall i :: 1 <= i < |pkt.chain| ==> Distinct(pkt.chain[0], pkt.chain[i]);
    FirstGrows(pkt.pieces, data[|data| - n..]);
    pkt.pieces := pkt.pieces[0 := data[|data| - n..] + pkt.pieces[0]];
  }

  // The particle taken from the pool becomes the first of the chain.
  method PushFront(pkt: Packet, p: Particle)
    requires pkt.Valid() && p.Ok() && p.head == p.tail && Separate([p] + pkt.chain)
    modifies pkt`particle, pkt`chain, pkt`pieces, p`next
    ensures pkt.Valid() && pkt.chain == [p] + old(pkt.chain)
    ensures pkt.Bytes() == old(pkt.Bytes()) && pkt.pieces[0] == []
  {
    ghost var chain := pkt.chain;
    SeparateSplit([p], chain);
    forall i | 0 <= i < |chain| ensures chain[i] != p {
      assert Distinct([p][0], chain[i]);
    }
    var prev := pkt.particle;
    pkt.particle := p;
    p.next := prev;
    pkt.chain := [p] + chain;
    pkt.pieces := [[]] + pkt.pieces;
    assert pkt.pieces[1..] == old(pkt.pieces);
    assert Chained(pkt.chain) && Holds(pkt.chain, pkt.pieces);
  }

  // Takes one particle from a pool that has one, to the front of the chain.
  method ExtendFront(pkt: Packet, pool: PktsHeap)
    requires pkt.Valid() && pool.Valid() && SharesNothing(pkt, pool) && pool.particles != []
    modifies pkt`particle, pkt`chain, pkt`pieces, pool`particles, pool.particles[0]
    ensures pkt.Valid() && pool.Valid()
    ensures pkt.chain == [old(pool.particles)[0]] + old(pkt.chain) && pool.particles == old(pool.particles)[1..]
    ensures pkt.Bytes() == old(pkt.Bytes()) && pkt.pieces[0] == []
    ensures pkt.First().head == pool.particle_sz == pkt.First().raw.Length
  {
    ghost var chain, free := pkt.chain, pool.particles;
    SeparateSplit(chain, free);
    forall i | 0 <= i < |chain| ensures chain[i] != free[0] && chain[i].raw != free[0].raw {
      assert Distinct(chain[i], free[0]);
    }
    forall j | 1 <= j < |free| ensures free[j] != free[0] {
      assert Distinct(free[0], free[j]);
    }
    var p := pool.TakeParticle(pool.particle_sz);
    forall i, j | 0 <= i < j < |[p] + chain| ensures Distinct(([p] + chain)[i], ([p] + chain)[j]) {
      if i > 0 {
        assert Distinct(chain[i - 1], chain[j - 1]);
      }
    }
    PushFront(pkt, p);
  }

  lemma BackwardsStep(chain: seq<Particle>, free: seq<Particle>)
    requires free != []
    ensures Reversed([free[0]] + chain) + free[1..] == Reversed(chain) + free
  {
    assert ([free[0]] + chain)[1..] == chain;
    assert Reversed(chain) + free == (Reversed(chain) + [free[0]]) + free[1..];
  }

  // The same when the first particle is full: the room there is has only moved.
  method NextFront(pkt: Packet, pool: PktsHeap)
    requires pkt.Valid() && pool.Valid() && SharesNothing(pkt, pool) && pool.particles != [] && pkt.First().head == 0
    modifies pkt`particle, pkt`chain, pkt`pieces, pool`particles, pool.particles[0]
    ensures pkt.Valid() && pool.Valid() && pkt.Bytes() == old(pkt.Bytes())
    ensures BothBackwards(pkt, pool) == old(BothBackwards(pkt, pool))
    ensures RoomBefore(pkt, pool) == old(RoomBefore(pkt, pool))
    ensures |pool.particles| == |old(pool.particles)| - 1 && |pkt.chain| == |old(pkt.chain)| + 1
    ensures pkt.Front() == Placed(pool.particle_sz, pool.particle_sz, pool.particle_sz, [])
  {
    BackwardsStep(pkt.chain, pool.particles);
    ExtendFront(pkt, pool);
  }

  // The room that a packet can grow into, at either end: what its own buffers leave and all of the
  // free particles.
  lemma RoomIs(pkt: Packet, pool: PktsHeap)
    requires pkt.Valid()
    ensures RoomBehind(pkt, pool) == pkt.Last().Tailroom() + |pool.particles| * pool.particle_sz
    ensures RoomBefore(pkt, pool) == pkt.First().head + |pool.particles| * pool.particle_sz
  {
    CapacityProduct(|pool.particles|, pool.particle_sz);
  }

  // One round of prepend: as much as fits into the first particle and, if that is not all, a new one.
  method PrependRound(pkt: Packet, pool: PktsHeap, data: seq<byte>) returns (n: nat, ok: bool)
    requires pkt.Valid() && pool.Valid() && SharesNothing(pkt, pool)
    modifies pkt`particle, pkt`chain, pkt`pieces, pool`particles, pkt.First(), pkt.First().raw
    modifies if pool.particles == [] then {} else {pool.particles[0]}
    ensures pkt.Valid() && pool.Valid()
    ensures n == if |data| > old(pkt.First().head) then old(pkt.First().head) else |data|
    ensures pkt.Bytes() == data[|data| - n..] + old(pkt.Bytes())
    ensures BothBackwards(pkt, pool) == old(BothBackwards(pkt, pool))
    ensures n + RoomBefore(pkt, pool) == old(RoomBefore(pkt, pool))
    ensures !ok ==> n < |data| && RoomBefore(pkt, pool) == 0 && pool.particles == [] && pkt.chain == old(pkt.chain)
    ensures ok && n < |data| ==> |pool.particles| == |old(pool.particles)| - 1 && |pkt.chain| == |old(pkt.chain)| + 1
    ensures ok && n < |data| ==> pkt.Front() == Placed(pool.particle_sz, pool.particle_sz, pool.particle_sz, [])
    ensures n == |data| ==> ok && pkt.chain == old(pkt.chain)
    ensures n == |data| ==> var f := old(pkt.Front()); pkt.Front() == f.(head := f.head - n, data := data + f.data)
  {
    n := PrependToFirst(pkt, data);
    ok := true;
    assert n + RoomBefore(pkt, pool) == old(RoomBefore(pkt, pool));
    if n != |data| {
      if pool.particles == [] {
        ok := false;
      } else {
        NextFront(pkt, pool);
      }
    }
  }

  // A particle's bounds and data.
  datatype Placed = Placed(head: nat, tail: nat, size: nat, data: seq<byte>)

  // How the bytes lie in the first particle once bytes[l..] are in: in front of what was there as
  // long as the old headroom suffices, else alone at the end of the last particle taken.
  ghost predicate InFront(f: Placed, bytes: seq<byte>, l: nat, room: nat, was: seq<byte>, taken: nat, size: nat) {
    l <= |bytes|
    && if taken == 0 then
      room == |bytes| - l + f.head && f.data == bytes[l..] + was
    else
      var m := |bytes| - room - Capacity(taken - 1, size);
      l <= m && 0 < m <= |bytes| && f.tail == f.size == size && f.data == bytes[l..m]
  }

  lemma FrontStep(f: Placed, g: Placed, bytes: seq<byte>, l: nat, n: nat, room: nat, was: seq<byte>, taken: nat,
      size: nat)
    requires InFront(f, bytes, l, room, was, taken, size) && l > 0
    requires f.tail == f.head + |f.data| && n == if l > f.head then f.head else l
    requires n == l ==> g == Placed(f.head - n, f.tail, f.size, bytes[..l] + f.data)
    requires n < l ==> g == Placed(size, size, size, [])
    ensures InFront(g, bytes, l - n, room, was, if n < l then taken + 1 else taken, size)
  {
    if n == l {
      if taken == 0 {
        assert bytes[..l] + (bytes[l..] + was) == bytes[0..] + was;
      } else {
        var m := |bytes| - room - Capacity(taken - 1, size);
        assert bytes[..l] + bytes[l..m] == bytes[0..m];
      }
    } else if taken > 0 {
      assert Capacity(taken, size) == size + Capacity(taken - 1, size);
    }
  }

  lemma FirstInAll(pkt: Packet, pool: PktsHeap, all: seq<Particle>)
    requires pkt.chain != [] && BothBackwards(pkt, pool) == all
    ensures pkt.First() in Objects(all) && pkt.First().raw in Objects(all)
    ensures pool.particles != [] ==> pool.particles[0] in Objects(all)
  {
    ReversedAt(pkt.chain, |pkt.chain| - 1);
    InAll(Reversed(pkt.chain), pool.particles);
  }

  lemma ObjectsBackwards(pkt: Packet, pool: PktsHeap)
    ensures Objects(BothBackwards(pkt, pool)) == Objects(Both(pkt, pool))
  {
    ReversedMembers(pkt.chain);
    var a, b := BothBackwards(pkt, pool), Both(pkt, pool);
    assert forall p :: p in a <==> p in b;
    assert Raws(a) == Raws(b);
  }

  lemma {:induction false} ReversedMembers<T>(s: seq<T>)
    ensures |Reversed(s)| == |s| && forall x :: x in Reversed(s) <==> x in s
  {
    if s != [] {
      ReversedMembers(s[1..]);
      assert s == [s[0]] + s[1..];
    }
  }

  lemma PreviousSlice(was: seq<byte>, bytes: seq<byte>, l: nat, rest: nat)
    requires rest <= l <= |bytes|
    ensures bytes[rest..l] + (bytes[l..] + was) == bytes[rest..] + was
  {
  }

  // The same round, told of bytes[..l] as what is still to be prepended.
  method PrependPart(pkt: Packet, pool: PktsHeap, bytes: seq<byte>, l: nat) returns (rest: nat, ok: bool)
    requires pkt.Valid() && pool.Valid() && Separate(BothBackwards(pkt, pool)) && 0 < l <= |bytes|
    modifies pkt`particle, pkt`chain, pkt`pieces, pool`particles, pkt.First(), pkt.First().raw
    modifies if pool.particles == [] then {} else {pool.particles[0]}
    ensures pkt.Valid() && pool.Valid() && BothBackwards(pkt, pool) == old(BothBackwards(pkt, pool))
    ensures rest == if l > old(pkt.First().head) then l - old(pkt.First().head) else 0
    ensures pkt.Bytes() == bytes[rest..l] + old(pkt.Bytes())
    ensures l - rest + RoomBefore(pkt, pool) == old(RoomBefore(pkt, pool))
    ensures !ok ==> 0 < rest && RoomBefore(pkt, pool) == 0 && pool.particles == [] && pkt.chain == old(pkt.chain)
    ensures ok && rest > 0 ==> |pool.particles| == |old(pool.particles)| - 1 && |pkt.chain| == |old(pkt.chain)| + 1
    ensures ok && rest > 0 ==> pkt.Front() == Placed(pool.particle_sz, pool.particle_sz, pool.particle_sz, [])
    ensures rest == 0 ==> ok && pkt.chain == old(pkt.chain)
    ensures rest == 0 ==>
      var f := old(pkt.Front()); pkt.Front() == f.(head := f.head - l, data := bytes[..l] + f.data)
  {
    BackwardsApart(pkt, pool);
    var n;
    n, ok := PrependRound(pkt, pool, bytes[..l]);
    assert bytes[..l][l - n..] == bytes[l - n..l];
    rest := l - n;
  }

  // And where that leaves the bytes in the first particle.
  method PrependNext(pkt: Packet, pool: PktsHeap, bytes: seq<byte>, l: nat, ghost room: nat, ghost was: seq<byte>,
      ghost taken: nat)
    returns (rest: nat, ok: bool, ghost now: nat)
    requires pkt.Valid() && pool.Valid() && Separate(BothBackwards(pkt, pool))
    requires 0 < l <= |bytes| && InFront(pkt.Front(), bytes, l, room, was, taken, pool.particle_sz)
    modifies pkt`particle, pkt`chain, pkt`pieces, pool`particles, pkt.First(), pkt.First().raw
    modifies if pool.particles == [] then {} else {pool.particles[0]}
    ensures pkt.Valid() && pool.Valid()
    ensures BothBackwards(pkt, pool) == old(BothBackwards(pkt, pool)) && |pkt.chain| >= |old(pkt.chain)|
    ensures rest <= l && pkt.Bytes() == bytes[rest..l] + old(pkt.Bytes())
    ensures l - rest + RoomBefore(pkt, pool) == old(RoomBefore(pkt, pool))
    ensures !ok ==> 0 < rest && RoomBefore(pkt, pool) == 0 && pool.particles == []
    ensures ok ==> InFront(pkt.Front(), bytes, rest, room, was, now, pool.particle_sz)
    ensures now == taken + |pkt.chain| - |old(pkt.chain)| == taken + |old(pool.particles)| - |pool.particles|
    ensures |pool.particles| <= |old(pool.particles)| && (ok && rest == l ==> now > taken)
  {
    ghost var f := pkt.Front();
    assert f.tail == f.head + |f.data|;
    rest, ok := PrependPart(pkt, pool, bytes, l);
    now := if ok && rest > 0 then taken + 1 else taken;
    if ok {
      FrontStep(f, pkt.Front(), bytes, l, l - rest, room, was, taken, pool.particle_sz);
    }
  }

  // The loop of prepend: bytes go in, the end of them first, until they are used up or there is no
  // particle left.
  method PrependRounds(pkt: Packet, pool: PktsHeap, bytes: seq<byte>) returns (l: nat, ghost taken: nat)
    requires pkt.Valid() && pool.Valid() && SharesNothing(pkt, pool)
    modifies pkt`particle, pkt`chain, pkt`pieces, pool`particles, Objects(Both(pkt, pool))
    ensures pkt.Valid() && pool.Valid()
    ensures BothBackwards(pkt, pool) == old(BothBackwards(pkt, pool)) && |pkt.chain| == |old(pkt.chain)| + taken
    ensures l <= |bytes| && pkt.Bytes() == bytes[l..] + old(pkt.Bytes())
    ensures |bytes| - l + RoomBefore(pkt, pool) == old(RoomBefore(pkt, pool))
    ensures l > 0 ==> RoomBefore(pkt, pool) == 0 && pool.particles == []
    ensures l == 0 ==>
      InFront(pkt.Front(), bytes, 0, old(pkt.First().head), old(pkt.pieces[0]), taken, pool.particle_sz)
  {
    l := |bytes|;
    ghost var all, was, first, size := BothBackwards(pkt, pool), pkt.Bytes(), pkt.pieces[0], pool.particle_sz;
    ghost var room := pkt.First().head;
    ghost var count, before := |pkt.chain|, RoomBefore(pkt, pool);
    taken := 0;
    ObjectsBackwards(pkt, pool);
    BackwardsApart(pkt, pool);
    while l != 0
      invariant l <= |bytes| && pkt.Valid() && pool.Valid()
      invariant BothBackwards(pkt, pool) == all && |pkt.chain| == count + taken
      invariant pkt.Bytes() == bytes[l..] + was
      invariant |bytes| - l + RoomBefore(pkt, pool) == before
      invariant InFront(pkt.Front(), bytes, l, room, first, taken, size)
      decreases l + |pool.particles|
    {
      FirstInAll(pkt, pool, all);
      var more;
      ghost var upto := l;
      l, more, taken := PrependNext(pkt, pool, bytes, l, room, first, taken);
      PreviousSlice(was, bytes, upto, l);
      if !more {
        break;
      }
    }
  }

  // Prepends the bytes, over as many particles as it takes. It fails exactly when the first particle
  // and the whole pool have not enough room, after using up all of it.
  method Prepend(pkt: Packet, pool: PktsHeap, bytes: seq<byte>) returns (ok: bool, ghost taken: nat)
    requires pkt.Valid() && pool.Valid() && SharesNothing(pkt, pool)
    modifies pkt`particle, pkt`chain, pkt`pieces, pkt`length, pool`particles, Objects(Both(pkt, pool))
    ensures pkt.Valid() && pool.Valid()
    ensures BothBackwards(pkt, pool) == old(BothBackwards(pkt, pool)) && |pkt.chain| == |old(pkt.chain)| + taken
    ensures ok <==> |bytes| <= old(RoomBefore(pkt, pool))
    ensures ok ==> pkt.Bytes() == bytes + old(pkt.Bytes()) && pkt.length == old(pkt.length) + |bytes|
    ensures ok ==> InFront(pkt.Front(), bytes, 0, old(pkt.First().head), old(pkt.pieces[0]), taken, pool.particle_sz)
    ensures !ok ==> pkt.length == old(pkt.length) && pool.particles == []
    ensures !ok ==> pkt.Bytes() == bytes[|bytes| - old(RoomBefore(pkt, pool))..] + old(pkt.Bytes())
  {
    var l;
    NoParticle(pkt, pool, Both(pkt, pool));
    ghost var length := pkt.length;
    l, taken := PrependRounds(pkt, pool, bytes);
    assert pkt.length == length;
    ok := l == 0;
    if ok {
      Lengthen(pkt, pool, |bytes|);
    }
  }
}
