/**
 Particles: fixed buffers with a stretch of data between head and tail, chained by `next`. The
 data of a chain, taken together, is one sequence of bytes.
 */
module Particles {
  import opened Basics

  class Particle {
    const raw: array<byte>
    var head: nat
    var tail: nat
    var next: Particle?

    constructor (size: nat)
      ensures fresh(this) && fresh(raw) && raw.Length == size && head == tail == 0 && next == null
    {
      raw := new byte[size];
      head, tail, next := 0, 0, null;
    }

    predicate Ok()
      reads this`head, this`tail
    {
      head <= tail <= raw.Length
    }

    function Data(): seq<byte>
      requires Ok()
      reads this`head, this`tail, raw
    {
      raw[head..tail]
    }

    function Tailroom(): nat
      reads this`tail
    {
      if tail <= raw.Length then raw.Length - tail else 0
    }

    method Reinit(headroom: nat)
      requires headroom <= raw.Length
      modifies this
      ensures Ok() && head == tail == headroom && next == null && Data() == []
    {
      head := headroom;
      tail := headroom;
      next := null;
    }

    // Adds as much of the end of data as fits before the head.
    method Prepend(data: seq<byte>) returns (count: nat)
      requires Ok()
      modifies this`head, raw
      ensures Ok()
      ensures count == if |data| > old(head) then old(head) else |data|
      ensures head == old(head) - count
      ensures Data() == data[|data| - count..] + old(Data())
      ensures forall i :: 0 <= i < raw.Length && !(head <= i < old(head)) ==> raw[i] == old(raw[i])
    {
      var dlen := |data|;
      if dlen > head {
        count := head;
        forall i | 0 <= i < count {
          raw[i] := data[dlen - count + i];
        }
        head := 0;
      } else {
        count := dlen;
        var start := head - count;
        forall i | 0 <= i < count {
          raw[start + i] := data[i];
        }
        head := start;
      }
    }

    // Adds as much of the start of data as fits after the tail.
    method Append(data: seq<byte>) returns (len: nat)
      requires Ok()
      modifies this`tail, raw
      ensures Ok()
      ensures len == if old(Tailroom()) < |data| then old(Tailroom()) else |data|
      ensures tail == old(tail) + len
      ensures Data() == old(Data()) + data[..len]
      ensures forall i :: 0 <= i < raw.Length && !(old(tail) <= i < tail) ==> raw[i] == old(raw[i])
    {
      len := if raw.Length - tail < |data| then raw.Length - tail else |data|;
      forall i | 0 <= i < len {
        raw[tail + i] := data[i];
      }
      tail := tail + len;
    }

    // Moves the tail within the buffer and not before the head, or not at all.
    method MoveTail(mv: int) returns (moved: int)
      requires Ok()
      modifies this`tail
      ensures Ok()
      ensures moved == (if head <= old(tail) + mv <= raw.Length then mv else 0) && tail == old(tail) + moved
    {
      var newTail := tail + mv;
      if newTail < head || newTail > raw.Length {
        moved := 0;
      } else {
        tail := newTail;
        moved := mv;
      }
    }

    // Moves the head within the data already there or before it, or not at all.
    method MoveHead(mv: int) returns (moved: int)
      requires Ok()
      modifies this`head
      ensures Ok()
      ensures moved == (if 0 <= old(head) + mv <= tail then mv else 0) && head == old(head) + moved
    {
      var newHead := head + mv;
      if newHead < 0 || newHead > tail {
        moved := 0;
      } else {
        head := newHead;
        moved := mv;
      }
    }

    // The buffer from an offset on, whatever part of it is data.
    function DataRaw(offset: nat): seq<byte>
      reads this, raw
    {
      if offset >= raw.Length then [] else raw[offset..]
    }
  }

  /// ## Chains

  ghost function Raws(chain: seq<Particle>): set<object> {
    set p | p in chain :: p.raw
  }

  ghost function Objects(ps: seq<Particle>): set<object> {
    (set p | p in ps) + Raws(ps)
  }

  ghost predicate Distinct(p: Particle, q: Particle) {
    p != q && p.raw != q.raw
  }

  // Separate particles with separate buffers.
  ghost predicate Separate(ps: seq<Particle>) {
    forall i, j {:trigger Distinct(ps[i], ps[j])} :: 0 <= i < j < |ps| ==> Distinct(ps[i], ps[j])
  }

  lemma SeparateSplit(a: seq<Particle>, b: seq<Particle>)
    requires Separate(a + b)
    ensures Separate(a) && Separate(b)
    ensures forall i, j {:trigger Distinct(a[i], b[j])} :: 0 <= i < |a| && 0 <= j < |b| ==> Distinct(a[i], b[j])
  {
    var all := a + b;
    forall i, j | 0 <= i < j < |a| ensures Distinct(a[i], a[j]) {
      assert Distinct(all[i], all[j]);
    }
    forall i, j | 0 <= i < j < |b| ensures Distinct(b[i], b[j]) {
      assert Distinct(all[|a| + i], all[|a| + j]);
    }
    forall i, j | 0 <= i < |a| && 0 <= j < |b| ensures Distinct(a[i], b[j]) {
      assert Distinct(all[i], all[|a| + j]);
    }
  }

  ghost predicate Chained(chain: seq<Particle>)
    reads chain`next
  {
    && (forall i {:trigger chain[i].next} :: 0 <= i < |chain| - 1 ==> chain[i].next == chain[i + 1])
    && (chain != [] ==> chain[|chain| - 1].next == null)
  }

  // The data of each particle in turn.
  ghost predicate Holds(chain: seq<Particle>, pieces: seq<seq<byte>>)
    reads chain`head, chain`tail, Raws(chain)
  {
    |pieces| == |chain| && forall i :: 0 <= i < |chain| ==> chain[i].Ok() && chain[i].Data() == pieces[i]
  }

  function Join(pieces: seq<seq<byte>>): seq<byte> {
    if pieces == [] then [] else pieces[0] + Join(pieces[1..])
  }

  lemma {:induction false} JoinConcat(a: seq<seq<byte>>, b: seq<seq<byte>>)
    ensures Join(a + b) == Join(a) + Join(b)
  {
    if a == [] {
      assert a + b == b;
    } else {
      assert (a + b)[1..] == a[1..] + b;
      JoinConcat(a[1..], b);
    }
  }

  lemma JoinOne(d: seq<byte>)
    ensures Join([d]) == d
  {
    assert [d][1..] == [];
  }

  // More bytes at the end of the last piece, or at the start of the first, are more bytes at the
  // end, or at the start, of the whole.
  lemma {:induction false} LastGrows(pieces: seq<seq<byte>>, x: seq<byte>)
    requires pieces != []
    ensures var n := |pieces| - 1; Join(pieces[n := pieces[n] + x]) == Join(pieces) + x
  {
    var n := |pieces| - 1;
    var front := pieces[..n];
    assert pieces == front + [pieces[n]];
    assert pieces[n := pieces[n] + x] == front + [pieces[n] + x];
    JoinConcat(front, [pieces[n]]);
    JoinConcat(front, [pieces[n] + x]);
    JoinOne(pieces[n]);
    JoinOne(pieces[n] + x);
    Associate(Join(front), pieces[n], x);
  }

  lemma {:induction false} FirstGrows(pieces: seq<seq<byte>>, x: seq<byte>)
    requires pieces != []
    ensures Join(pieces[0 := x + pieces[0]]) == x + Join(pieces)
  {
    assert pieces[0 := x + pieces[0]][1..] == pieces[1..];
    Associate(x, pieces[0], Join(pieces[1..]));
  }
}
