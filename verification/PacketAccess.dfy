/**
 Reading a packet: the byte at an offset, the slices of all its particles, and the layer 2 and
 layer 3 headers that are pulled off and pushed onto its front.
 */
module PacketAccess {
  import opened Basics
  import opened Particles
  import opened Packets

  lemma {:induction false} JoinSplit(pieces: seq<seq<byte>>, i: nat)
    requires i < |pieces|
    ensures Join(pieces) == Join(pieces[..i]) + (pieces[i] + Join(pieces[i + 1..]))
    ensures Join(pieces[..i + 1]) == Join(pieces[..i]) + pieces[i]
  {
    assert pieces == pieces[..i] + pieces[i..];
    JoinConcat(pieces[..i], pieces[i..]);
    assert pieces[i..][1..] == pieces[i + 1..];
    assert pieces[..i + 1] == pieces[..i] + [pieces[i]];
    JoinConcat(pieces[..i], [pieces[i]]);
    JoinOne(pieces[i]);
  }

  // A particle's data from an offset on, if there is any.
  method ParticleData(p: Particle, offset: nat) returns (d: Option<seq<byte>>)
    requires p.Ok()
    ensures d == if offset >= |p.Data()| then None else Some(p.Data()[offset..])
  {
    if offset >= p.tail - p.head {
      return None;
    }
    return Some(p.raw[p.head + offset..p.tail]);
  }

  lemma InPiece(a: seq<byte>, piece: seq<byte>, c: seq<byte>, offset: nat)
    requires |a| <= offset < |a| + |piece|
    ensures piece[offset - |a|..] <= (a + (piece + c))[offset..]
  {
    var d := piece[offset - |a|..];
    assert (a + (piece + c))[offset..] == d + c;
  }

  // The bytes d are what piece i has from an offset of the whole on.
  ghost predicate RestOf(pieces: seq<seq<byte>>, i: nat, offset: nat, d: seq<byte>) {
    && i < |pieces| && |Join(pieces[..i])| <= offset < |Join(pieces[..i])| + |pieces[i]|
    && d == pieces[i][offset - |Join(pieces[..i])|..]
  }

  // A packet has data at exactly the offsets within its bytes, and what comes back starts there and
  // reaches to the end of the particle that the offset falls into.
  method Data(pkt: Packet, offset: nat) returns (d: Option<seq<byte>>)
    requires pkt.Valid()
    ensures d.Some? <==> offset < |pkt.Bytes()|
    ensures d.Some? ==> d.value != [] && d.value <= pkt.Bytes()[offset..]
    ensures d.Some? ==> exists i: nat :: RestOf(pkt.pieces, i, offset, d.value)
  {
    var l := 0;
    var p := pkt.particle;
    ghost var i, pieces := 0, pkt.pieces;
    while true
      invariant 0 <= i < |pkt.chain| && p == pkt.chain[i]
      invariant l == |Join(pieces[..i])| <= offset
      decreases |pkt.chain| - i
    {
      JoinSplit(pieces, i);
      d := ParticleData(p, offset - l);
      if d.Some? {
        InPiece(Join(pieces[..i]), pieces[i], Join(pieces[i + 1..]), offset);
        assert RestOf(pieces, i, offset, d.value);
        return;
      }
      l := l + (p.tail - p.head);
      if p.next == null {
        break;
      }
      p := p.next;
      i := i + 1;
    }
    assert pieces[..i + 1] == pieces;
  }

  // The slices are the pieces at these places, in order: all of the first n that are not empty.
  ghost predicate Filled(v: seq<seq<byte>>, pieces: seq<seq<byte>>, at: seq<nat>, n: nat) {
    && |at| == |v| && n <= |pieces|
    && (forall k :: 0 <= k < |at| ==> at[k] < n && v[k] == pieces[at[k]] != [])
    && (forall j, k :: 0 <= j < k < |at| ==> at[j] < at[k])
    && forall i :: 0 <= i < n && pieces[i] != [] ==> i in at
  }

  lemma FilledNext(v: seq<seq<byte>>, pieces: seq<seq<byte>>, at: seq<nat>, n: nat)
    requires Filled(v, pieces, at, n) && n < |pieces|
    ensures if pieces[n] == [] then Filled(v, pieces, at, n + 1)
      else Filled(v + [pieces[n]], pieces, at + [n], n + 1)
  {
    if pieces[n] != [] {
      var more := at + [n];
      assert more[|at|] == n;
      forall i | 0 <= i < n + 1 && pieces[i] != [] ensures i in more {
        assert i == n || i in at;
      }
    }
  }

  ghost predicate InOrder(v: seq<seq<byte>>, pieces: seq<seq<byte>>, n: nat) {
    exists at :: Filled(v, pieces, at, n)
  }

  // The slices of the first n pieces.
  ghost predicate SlicesOf(v: seq<seq<byte>>, pieces: seq<seq<byte>>, n: nat) {
    n <= |pieces| && Join(v) == Join(pieces[..n]) && [] !in v && InOrder(v, pieces, n)
  }

  lemma NoSlices(pieces: seq<seq<byte>>)
    ensures SlicesOf([], pieces, 0)
  {
    assert Filled([], pieces, [], 0);
  }

  lemma NextInOrder(v: seq<seq<byte>>, pieces: seq<seq<byte>>, n: nat)
    requires InOrder(v, pieces, n) && n < |pieces|
    ensures InOrder(if pieces[n] == [] then v else v + [pieces[n]], pieces, n + 1)
  {
    var at :| Filled(v, pieces, at, n);
    FilledNext(v, pieces, at, n);
  }

  lemma NextSliced(v: seq<seq<byte>>, pieces: seq<seq<byte>>, n: nat)
    requires n < |pieces| && Join(v) == Join(pieces[..n])
    ensures Join(if pieces[n] == [] then v else v + [pieces[n]]) == Join(pieces[..n + 1])
  {
    JoinSplit(pieces, n);
    JoinConcat(v, [pieces[n]]);
    JoinOne(pieces[n]);
  }

  // The data of one more particle.
  method AddSlice(v: seq<seq<byte>>, p: Particle, ghost pieces: seq<seq<byte>>, ghost n: nat)
    returns (r: seq<seq<byte>>)
    requires SlicesOf(v, pieces, n) && n < |pieces| && p.Ok() && p.Data() == pieces[n]
    ensures SlicesOf(r, pieces, n + 1)
  {
    NextInOrder(v, pieces, n);
    NextSliced(v, pieces, n);
    var d := ParticleData(p, 0);
    match d
    case Some(data) => r := v + [data];
    case None => r := v;
  }

  // The slices are the bytes cut into non-empty pieces, one for each particle that has data.
  method Slices(pkt: Packet) returns (v: seq<seq<byte>>)
    requires pkt.Valid()
    ensures Join(v) == pkt.Bytes() && [] !in v
    ensures InOrder(v, pkt.pieces, |pkt.pieces|)
  {
    v := [];
    var p := pkt.particle;
    ghost var i, chain, pieces := 0, pkt.chain, pkt.pieces;
    NoSlices(pieces);
    while true
      invariant 0 <= i < |chain| && p == chain[i]
      invariant SlicesOf(v, pieces, i)
      decreases |chain| - i
    {
      v := AddSlice(v, p, pieces, i);
      if p.next == null {
        break;
      }
      p := p.next;
      i := i + 1;
    }
    assert pieces[..i + 1] == pieces;
  }

  /// ## Moving the ends

  // The length field counts the bytes. A failed append or prepend that put some bytes in breaks this.
  ghost predicate Counted(pkt: Packet)
    reads pkt`length, pkt`pieces
  {
    pkt.length == |pkt.Bytes()|
  }

  const USIZE: nat := 0x1_0000_0000_0000_0000

  // A signed length as an unsigned one: a negative one, which only a packet that is not counted can
  // come to, wraps around. None is below the smallest signed one.
  function AsUsize(len: int): (n: nat)
    ensures len >= 0 <==> n == len
    ensures len < 0 <= USIZE + len ==> n == USIZE + len
  {
    if len >= 0 then len else if USIZE + len >= 0 then USIZE + len else 0
  }

  // A last or first piece cut short is the whole cut short.
  lemma LastShrinks(pieces: seq<seq<byte>>, k: nat)
    requires pieces != [] && k <= |pieces[|pieces| - 1]|
    ensures var n := |pieces| - 1;
      && |Join(pieces)| >= k
      && Join(pieces[n := pieces[n][..|pieces[n]| - k]]) == Join(pieces)[..|Join(pieces)| - k]
  {
    var n := |pieces| - 1;
    var last := pieces[n];
    LastGrows(pieces[n := last[..|last| - k]], last[|last| - k..]);
    assert last[..|last| - k] + last[|last| - k..] == last;
    assert pieces[n := last[..|last| - k]][n := last] == pieces;
  }

  lemma FirstShrinks(pieces: seq<seq<byte>>, k: nat)
    requires pieces != [] && k <= |pieces[0]|
    ensures |Join(pieces)| >= k && Join(pieces[0 := pieces[0][k..]]) == Join(pieces)[k..]
  {
    var first := pieces[0];
    FirstGrows(pieces[0 := first[k..]], first[..k]);
    assert first[..k] + first[k..] == first;
    assert pieces[0 := first[k..]][0 := first] == pieces;
  }

  // The end of a packet moved: bytes cut off, or bytes of the buffer behind it taken in.
  ghost function TailMoved(was: seq<byte>, raw: seq<byte>, tail: nat, mv: int): (r: seq<byte>)
    requires 0 <= |was| + mv && tail + mv <= |raw|
    ensures |r| == |was| + mv
  {
    if mv <= 0 then was[..|was| + mv] else was + raw[tail..tail + mv]
  }

  ghost function HeadMoved(was: seq<byte>, raw: seq<byte>, head: nat, mv: int): (r: seq<byte>)
    requires mv <= |was| && 0 <= head + mv && head <= |raw|
    ensures |r| == |was| - mv
  {
    if mv >= 0 then was[mv..] else raw[head + mv..head] + was
  }

  lemma LastMoved(pieces: seq<seq<byte>>, raw: seq<byte>, head: nat, tail: nat, mv: int)
    requires pieces != [] && head <= tail <= |raw| && pieces[|pieces| - 1] == raw[head..tail]
    requires head <= tail + mv <= |raw|
    ensures 0 <= |Join(pieces)| + mv
    ensures Join(pieces[|pieces| - 1 := raw[head..tail + mv]]) == TailMoved(Join(pieces), raw, tail, mv)
  {
    var last := pieces[|pieces| - 1];
    if mv <= 0 {
      assert raw[head..tail + mv] == last[..|last| + mv];
      LastShrinks(pieces, -mv);
    } else {
      assert raw[head..tail + mv] == last + raw[tail..tail + mv];
      LastGrows(pieces, raw[tail..tail + mv]);
    }
  }

  lemma FirstMoved(pieces: seq<seq<byte>>, raw: seq<byte>, head: nat, tail: nat, mv: int)
    requires pieces != [] && head <= tail <= |raw| && pieces[0] == raw[head..tail]
    requires 0 <= head + mv <= tail
    ensures mv <= |Join(pieces)|
    ensures Join(pieces[0 := raw[head + mv..tail]]) == HeadMoved(Join(pieces), raw, head, mv)
  {
    if mv >= 0 {
      assert raw[head + mv..tail] == pieces[0][mv..];
      FirstShrinks(pieces, mv);
    } else {
      assert raw[head + mv..tail] == raw[head + mv..head] + pieces[0];
      FirstGrows(pieces, raw[head + mv..head]);
    }
  }

  // The last piece after its tail moved.
  method MoveLast(pkt: Packet, p: Particle, mv: int) returns (moved: int)
    requires pkt.Valid() && p == pkt.Last()
    modifies pkt`pieces, p`tail
    ensures pkt.Valid()
    ensures moved == if p.head <= old(p.tail) + mv <= p.raw.Length then mv else 0
    ensures p.head <= p.tail == old(p.tail) + moved <= p.raw.Length
    ensures pkt.pieces == old(pkt.pieces)[|pkt.chain| - 1 := p.raw[..][p.head..old(p.tail) + moved]]
  {
    ghost var k, chain, pieces, t, raw := |pkt.chain| - 1, pkt.chain, pkt.pieces, p.tail, p.raw[..];
    moved := p.MoveTail(mv);
    forall i | 0 <= i < k ensures chain[i].Ok() && chain[i].Data() == pieces[i] {
      assert Distinct(chain[i], chain[k]);
    }
    ghost var last := raw[p.head..t + moved];
    assert p.raw[..] == raw && last == p.Data();
    assert Chained(chain) && Holds(chain, pieces[k := last]);
    pkt.pieces := pieces[k := last];
  }

  method MoveLastTail(pkt: Packet, mv: int) returns (moved: int)
    requires pkt.Valid()
    modifies pkt`pieces, pkt.Last()`tail
    ensures pkt.Valid()
    ensures moved == if old(pkt.Last().head) <= old(pkt.Last().tail) + mv <= pkt.Last().raw.Length then mv else 0
    ensures 0 <= |old(pkt.Bytes())| + moved && old(pkt.Last().tail) + moved <= pkt.Last().raw.Length
    ensures pkt.Bytes() == TailMoved(old(pkt.Bytes()), pkt.Last().raw[..], old(pkt.Last().tail), moved)
  {
    var p := pkt.LastParticle();
    ghost var pieces, t, raw := pkt.pieces, p.tail, p.raw[..];
    assert p.Ok() && pieces[|pieces| - 1] == p.Data();
    LastMoved(pieces, raw, p.head, t, if p.head <= t + mv <= p.raw.Length then mv else 0);
    moved := MoveLast(pkt, p, mv);
    assert p == pkt.Last() && p.raw[..] == raw;
  }

  method MoveFirstHead(pkt: Packet, mv: int) returns (moved: int)
    requires pkt.Valid()
    modifies pkt`pieces, pkt.First()`head
    ensures pkt.Valid()
    ensures moved == if 0 <= old(pkt.First().head) + mv <= old(pkt.First().tail) then mv else 0
    ensures moved <= |old(pkt.Bytes())| && pkt.First().head == old(pkt.First().head) + moved
    ensures old(pkt.First().head) <= pkt.First().raw.Length
    ensures pkt.Bytes() == HeadMoved(old(pkt.Bytes()), pkt.First().raw[..], old(pkt.First().head), moved)
  {
    var p := pkt.particle;
    ghost var chain, pieces, h := pkt.chain, pkt.pieces, p.head;
    moved := p.MoveHead(mv);
    forall i | 1 <= i < |chain| ensures chain[i].Ok() && chain[i].Data() == pieces[i] {
      assert Distinct(chain[0], chain[i]);
    }
    FirstMoved(pieces, p.raw[..], h, p.tail, moved);
    ghost var first := p.raw[..][h + moved..p.tail];
    assert first == p.Data();
    pkt.pieces := pieces[0 := first];
  }

  // Cuts bytes off the end or takes in what the buffer holds behind them, within the last
  // particle or not at all.
  method MoveTail(pkt: Packet, mv: int) returns (moved: int)
    requires pkt.Valid()
    modifies pkt`pieces, pkt`length, pkt.Last()`tail
    ensures pkt.Valid() && (old(Counted(pkt)) ==> Counted(pkt)) && pkt.length == AsUsize(old(pkt.length) + moved)
    ensures moved == if old(pkt.Last().head) <= old(pkt.Last().tail) + mv <= pkt.Last().raw.Length then mv else 0
    ensures 0 <= |old(pkt.Bytes())| + moved && old(pkt.Last().tail) + moved <= pkt.Last().raw.Length
    ensures pkt.Bytes() == TailMoved(old(pkt.Bytes()), pkt.Last().raw[..], old(pkt.Last().tail), moved)
  {
    moved := MoveLastTail(pkt, mv);
    if moved != mv {
      return 0;
    }
    pkt.length := AsUsize(pkt.length + mv);
  }

  // Cuts bytes off the front or takes in what the buffer holds before them, within the first
  // particle or not at all.
  method MoveHead(pkt: Packet, mv: int) returns (moved: int)
    requires pkt.Valid()
    modifies pkt`pieces, pkt`length, pkt.First()`head
    ensures pkt.Valid() && (old(Counted(pkt)) ==> Counted(pkt)) && pkt.length == AsUsize(old(pkt.length) - moved)
    ensures moved == if 0 <= old(pkt.First().head) + mv <= old(pkt.First().tail) then mv else 0
    ensures moved <= |old(pkt.Bytes())| && pkt.First().head == old(pkt.First().head) + moved
    ensures old(pkt.First().head) <= pkt.First().raw.Length
    ensures pkt.Bytes() == HeadMoved(old(pkt.Bytes()), pkt.First().raw[..], old(pkt.First().head), moved)
  {
    moved := MoveFirstHead(pkt, mv);
    if moved != mv {
      return 0;
    }
    pkt.length := AsUsize(pkt.length - mv);
  }
}
