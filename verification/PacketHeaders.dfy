/**
 The layer 2 and layer 3 headers of a packet. A header is remembered as an offset into the first
 particle's buffer and a length, so it survives being pulled off the front of the packet; and it
 can be read back after a push exactly when it did not have to be spread over particles.
 */
module PacketHeaders {
  import opened Basics
  import opened Particles
  import opened Packets
  import opened PacketAccess

  datatype Layer = L2 | L3

  function Other(layer: Layer): Layer {
    if layer == L2 then L3 else L2
  }

  function Start(pkt: Packet, layer: Layer): nat
    reads pkt`l2, pkt`l3
  {
    if layer == L2 then pkt.l2 else pkt.l3
  }

  function Size(pkt: Packet, layer: Layer): nat
    reads pkt`l2_len, pkt`l3_len
  {
    if layer == L2 then pkt.l2_len else pkt.l3_len
  }

  function Cut(raw: seq<byte>, start: nat, size: nat): seq<byte> {
    if start + size <= |raw| then raw[start..start + size] else []
  }

  // The header as it can be read back, or nothing.
  ghost function Header(pkt: Packet, layer: Layer): seq<byte>
    requires pkt.chain != []
    reads pkt`l2, pkt`l3, pkt`l2_len, pkt`l3_len, pkt`chain, pkt.chain[0].raw
  {
    Cut(pkt.First().raw[..], Start(pkt, layer), Size(pkt, layer))
  }

  method SetMark(pkt: Packet, layer: Layer, start: nat, size: nat)
    requires pkt.Valid()
    modifies pkt`l2, pkt`l3, pkt`l2_len, pkt`l3_len
    ensures pkt.Valid() && Start(pkt, layer) == start && Size(pkt, layer) == size
    ensures Start(pkt, Other(layer)) == old(Start(pkt, Other(layer)))
      && Size(pkt, Other(layer)) == old(Size(pkt, Other(layer)))
  {
    if layer == L2 {
      pkt.l2 := start;
      pkt.l2_len := size;
    } else {
      pkt.l3 := start;
      pkt.l3_len := size;
    }
  }

  method GetHeader(pkt: Packet, layer: Layer) returns (d: seq<byte>, n: nat)
    requires pkt.Valid()
    ensures n == |Header(pkt, layer)| && n <= |d| && d[..n] == Header(pkt, layer)
  {
    if Size(pkt, layer) == 0 {
      return [], 0;
    }
    d := pkt.particle.DataRaw(Start(pkt, layer));
    if |d| < Size(pkt, layer) {
      return [], 0;
    }
    n := Size(pkt, layer);
    assert d[..n] == pkt.First().raw[..][Start(pkt, layer)..Start(pkt, layer) + n];
  }

  // Marks the first bytes of the packet as a header, if they are all in the first particle.
  method SetHeader(pkt: Packet, layer: Layer, len: nat) returns (ok: bool)
    requires pkt.Valid()
    modifies pkt`l2, pkt`l3, pkt`l2_len, pkt`l3_len
    ensures pkt.Valid()
    ensures ok <==> len <= |pkt.pieces[0]|
    ensures ok ==> len <= |pkt.Bytes()| && Header(pkt, layer) == pkt.Bytes()[..len]
    ensures !ok ==> Header(pkt, layer) == old(Header(pkt, layer))
    ensures Header(pkt, Other(layer)) == old(Header(pkt, Other(layer)))
  {
    var p := pkt.particle;
    ok := p.tail - p.head >= len;
    if ok {
      SetMark(pkt, layer, p.head, len);
      assert pkt.pieces[0][..len] == p.raw[..][p.head..p.head + len];
    }
  }

  lemma FirstIsPrefix(pieces: seq<seq<byte>>)
    requires pieces != []
    ensures pieces[0] <= Join(pieces)
  {
    FirstGrows(pieces[0 := []], pieces[0]);
    assert [] + pieces[0] == pieces[0] && pieces[0 := []][0 := pieces[0]] == pieces;
    assert pieces[0] + [] == pieces[0];
  }

  // The first bytes of a packet as its first buffer holds them.
  lemma HeaderBytes(pieces: seq<seq<byte>>, raw: seq<byte>, head: nat, tail: nat, len: nat)
    requires pieces != [] && head <= tail <= |raw| && pieces[0] == raw[head..tail] && len <= |pieces[0]|
    ensures len <= |Join(pieces)| && Cut(raw, head, len) == Join(pieces)[..len]
  {
    FirstIsPrefix(pieces);
    assert raw[head..head + len] == pieces[0][..len];
  }

  // Takes bytes off the front, all in the first particle, or none. Its buffer keeps them.
  method MoveOff(pkt: Packet, len: nat) returns (moved: int)
    requires pkt.Valid()
    modifies pkt`pieces, pkt`length, pkt.First()`head
    ensures pkt.Valid() && moved == if len <= |old(pkt.pieces[0])| then len else 0
    ensures pkt.length == AsUsize(old(pkt.length) - moved)
    ensures 0 <= moved <= |old(pkt.Bytes())| && pkt.Bytes() == old(pkt.Bytes())[moved..]
    ensures moved == len ==> Cut(pkt.First().raw[..], old(pkt.First().head), len) == old(pkt.Bytes())[..len]
  {
    var p := pkt.particle;
    ghost var bytes, head, piece, raw := pkt.Bytes(), p.head, pkt.pieces[0], p.raw[..];
    assert |piece| == p.tail - head;
    if len <= |piece| {
      HeaderBytes(pkt.pieces, raw, head, p.tail, len);
    }
    moved := MoveHead(pkt, len);
    assert p == pkt.First() && p.raw[..] == raw;
    assert pkt.Bytes() == HeadMoved(bytes, raw, head, moved) == bytes[moved..];
  }

  // Takes a header off the front. It can still be read, and so can the other one.
  method PullHeader(pkt: Packet, layer: Layer, len: nat) returns (n: nat)
    requires pkt.Valid()
    modifies pkt`l2, pkt`l3, pkt`l2_len, pkt`l3_len, pkt`pieces, pkt`length, pkt.First()`head
    ensures pkt.Valid() && pkt.length == AsUsize(old(pkt.length) - n)
    ensures n == if len <= |old(pkt.pieces[0])| then len else 0
    ensures n <= |old(pkt.Bytes())| && pkt.Bytes() == old(pkt.Bytes())[n..]
    ensures Header(pkt, layer) == if n == len then old(pkt.Bytes())[..len] else old(Header(pkt, layer))
    ensures Header(pkt, Other(layer)) == old(Header(pkt, Other(layer)))
  {
    var start := pkt.particle.head;
    var moved := MoveOff(pkt, len);
    if moved != len {
      return 0;
    }
    SetMark(pkt, layer, start, len);
    return len;
  }

  // A header within the data of the first particle.
  ghost predicate Inside(f: Placed, start: nat, size: nat) {
    f.head <= start && start + size <= f.tail
  }

  ghost predicate Bounded(f: Placed, raw: seq<byte>) {
    f.head <= f.tail <= f.size == |raw| && f.data == raw[f.head..f.tail]
  }

  // What a push leaves to be read: the whole header if it went into one particle, else nothing.
  lemma Pushed(f: Placed, raw: seq<byte>, bytes: seq<byte>, room: nat, was: seq<byte>, taken: nat, size: nat)
    requires Bounded(f, raw) && InFront(f, bytes, 0, room, was, taken, size)
    ensures Cut(raw, f.head, |bytes|) == if |bytes| <= room || (room == 0 && |bytes| <= size) then bytes else []
    ensures |bytes| <= room <==> taken == 0
    ensures |bytes| <= |f.data| <==> (|bytes| <= room || (room == 0 && |bytes| <= size))
  {
    if taken == 0 {
      assert bytes[0..] == bytes && f.data[..|bytes|] == bytes;
      assert raw[f.head..f.head + |bytes|] == f.data[..|bytes|];
    } else {
      var m := |bytes| - room - Capacity(taken - 1, size);
      if taken >= 2 {
        assert Capacity(taken - 1, size) == size + Capacity(taken - 2, size);
      }
      assert |f.data| == m;
      assert m == |bytes| ==> f.data == bytes;
    }
  }

  lemma OtherStays(f: Placed, raw: seq<byte>, g: Placed, now: seq<byte>, bytes: seq<byte>, start: nat, size: nat)
    requires Bounded(f, raw) && Bounded(g, now) && Inside(f, start, size)
    requires g.head + |bytes| == f.head && g.data == bytes + f.data
    ensures Cut(now, start, size) == Cut(raw, start, size)
  {
    var i, j := start - f.head, start - g.head;
    SliceOfSlice(raw, f.head, f.tail, i, i + size);
    SliceOfSlice(now, g.head, g.tail, j, j + size);
    SliceBehind(bytes, f.data, i, i + size);
    assert f.head + i == g.head + j == start && j == |bytes| + i && j + size == |bytes| + (i + size);
    assert raw[start..start + size] == f.data[i..i + size] == g.data[j..j + size] == now[start..start + size];
  }

  lemma SliceOfSlice(s: seq<byte>, lo: nat, hi: nat, i: nat, j: nat)
    requires lo <= hi <= |s| && i <= j <= hi - lo
    ensures s[lo..hi][i..j] == s[lo + i..lo + j]
  {
    var a, b := s[lo..hi][i..j], s[lo + i..lo + j];
    assert |a| == |b| && forall k :: 0 <= k < |a| ==> a[k] == b[k];
  }

  lemma SliceBehind(a: seq<byte>, b: seq<byte>, i: nat, j: nat)
    requires i <= j <= |b|
    ensures (a + b)[|a| + i..|a| + j] == b[i..j]
  {
  }

  // Prepending, seen from the buffer that is then the first one: the new bytes are at its head if
  // they are whole, and what was marked within the data stays if they fitted into the headroom.
  method PrependWhole(pkt: Packet, pool: PktsHeap, bytes: seq<byte>, ghost start: nat, ghost size: nat)
    returns (ok: bool)
    requires pkt.Valid() && pool.Valid() && SharesNothing(pkt, pool)
    modifies pkt`particle, pkt`chain, pkt`pieces, pkt`length, pool`particles, Objects(Both(pkt, pool))
    ensures pkt.Valid() && pool.Valid() && BothBackwards(pkt, pool) == old(BothBackwards(pkt, pool))
    ensures ok <==> |bytes| <= old(RoomBefore(pkt, pool))
    ensures ok ==> pkt.Bytes() == bytes + old(pkt.Bytes()) && pkt.length == old(pkt.length) + |bytes|
    ensures ok ==> (|bytes| <= |pkt.pieces[0]| <==> InOnePiece(bytes, old(pkt.First().head), pool.particle_sz))
    ensures ok ==>
      Cut(pkt.First().raw[..], pkt.First().head, |bytes|)
        == if InOnePiece(bytes, old(pkt.First().head), pool.particle_sz) then bytes else []
    ensures |bytes| <= old(pkt.First().head) && old(Inside(pkt.Front(), start, size)) ==>
      Cut(pkt.First().raw[..], start, size) == old(Cut(pkt.First().raw[..], start, size))
  {
    ghost var f, raw := pkt.Front(), pkt.First().raw[..];
    assert Bounded(f, raw);
    ghost var taken;
    ok, taken := Prepend(pkt, pool, bytes);
    ghost var g, now := pkt.Front(), pkt.First().raw[..];
    assert Bounded(g, now);
    if ok {
      Pushed(g, now, bytes, f.head, f.data, taken, pool.particle_sz);
      if taken == 0 && Inside(f, start, size) {
        assert g.data == bytes + f.data;
        OtherStays(f, raw, g, now, bytes, start, size);
      }
    }
  }

  // Puts a header on the front. Once it is on, it can be read back exactly when it fitted into the
  // headroom, or there was no headroom and it fitted into one new particle; a header of the other
  // layer within the first particle's data can still be read if this one fitted into the headroom.
  method PushHeader(pkt: Packet, pool: PktsHeap, layer: Layer, bytes: seq<byte>) returns (ok: bool)
    requires pkt.Valid() && pool.Valid() && SharesNothing(pkt, pool)
    modifies pkt, pool`particles, Objects(Both(pkt, pool))
    ensures pkt.Valid() && pool.Valid() && BothBackwards(pkt, pool) == old(BothBackwards(pkt, pool))
    ensures ok <==> |bytes| <= old(RoomBefore(pkt, pool))
    ensures ok ==> pkt.Bytes() == bytes + old(pkt.Bytes()) && pkt.length == old(pkt.length) + |bytes|
    ensures ok ==> (|bytes| <= |pkt.pieces[0]| <==> InOnePiece(bytes, old(pkt.First().head), pool.particle_sz))
    ensures ok ==>
      Header(pkt, layer) == if InOnePiece(bytes, old(pkt.First().head), pool.particle_sz) then bytes else []
    ensures old(|bytes| <= pkt.First().head
      && Inside(pkt.Front(), Start(pkt, Other(layer)), Size(pkt, Other(layer)))) ==>
      Header(pkt, Other(layer)) == old(Header(pkt, Other(layer)))
  {
    NoParticle(pkt, pool, Both(pkt, pool));
    ghost var s, n := Start(pkt, Other(layer)), Size(pkt, Other(layer));
    ok := PrependWhole(pkt, pool, bytes, s, n);
    assert Start(pkt, Other(layer)) == s && Size(pkt, Other(layer)) == n;
    if ok {
      SetMark(pkt, layer, pkt.particle.head, |bytes|);
    }
  }

  predicate InOnePiece(bytes: seq<byte>, room: nat, size: nat) {
    |bytes| <= room || (room == 0 && |bytes| <= size)
  }

  // A header pushed whole and pulled again leaves the packet's bytes as they were, and can be read.
  method PushThenPull(pkt: Packet, pool: PktsHeap, layer: Layer, bytes: seq<byte>) returns (n: nat)
    requires pkt.Valid() && pool.Valid() && SharesNothing(pkt, pool)
    requires |bytes| <= RoomBefore(pkt, pool)
    modifies pkt, pool`particles, Objects(Both(pkt, pool))
    ensures pkt.Valid() && pool.Valid()
    ensures n == |bytes| <==> InOnePiece(bytes, old(pkt.First().head), pool.particle_sz)
    ensures n == |bytes| ==>
      pkt.Bytes() == old(pkt.Bytes()) && pkt.length == old(pkt.length) && Header(pkt, layer) == bytes
    ensures n != |bytes| ==> n == 0 && pkt.Bytes() == bytes + old(pkt.Bytes()) && Header(pkt, layer) == []
  {
    ghost var was, all := pkt.Bytes(), BothBackwards(pkt, pool);
    ObjectsBackwards(pkt, pool);
    var ok := PushHeader(pkt, pool, layer, bytes);
    FirstInAll(pkt, pool, all);
    assert (bytes + was)[|bytes|..] == was && (bytes + was)[..|bytes|] == bytes;
    assert (bytes + was)[0..] == bytes + was;
    n := PullHeader(pkt, layer, |bytes|);
    assert pool.Valid();
  }
}
