/**
 One slot of the log: an index, a time and then the values of a call one after the other, each in
 its own size and low byte first, as far as they fit.
 */
module LogSlot {
  import opened Basics
  import opened FloorDivision

  const HEADER: nat := 12     // the index and the time
  const MAX_VALUES: nat := 16

  /// ## Numbers as bytes

  function Power256(n: nat): (p: nat)
    ensures p > 0
  {
    if n == 0 then 1 else 256 * Power256(n - 1)
  }

  function ToBytes(v: nat, n: nat): (b: seq<byte>)
    ensures |b| == n
    decreases n
  {
    if n == 0 then [] else [(v % 256) as byte] + ToBytes(v / 256, n - 1)
  }

  function FromBytes(b: seq<byte>): nat {
    if b == [] then 0 else b[0] as nat + 256 * FromBytes(b[1..])
  }

  lemma {:induction false} BytesRoundTrip(v: nat, n: nat)
    requires v < Power256(n)
    ensures FromBytes(ToBytes(v, n)) == v
    decreases n
  {
    if n != 0 {
      BytesRoundTrip(v / 256, n - 1);
      assert ToBytes(v, n)[1..] == ToBytes(v / 256, n - 1);
    }
  }

  // Byte k is the one of weight 256 to the k: the low byte is first.
  lemma {:induction false} LowByteFirst(v: nat, n: nat, k: nat)
    requires k < n
    ensures ToBytes(v, n)[k] as nat == v / Power256(k) % 256
    decreases n
  {
    if k != 0 {
      LowByteFirst(v / 256, n - 1, k - 1);
      DivideTwice(v, Power256(k - 1));
    }
  }

  lemma DivideTwice(v: nat, p: nat)
    requires p > 0
    ensures v / 256 / p == v / (256 * p)
  {
    var q := v / 256 / p;
    FloorBounds(v / 256, p);
    assert (256 * p) * q == 256 * (p * q);
    FloorUnique(v, 256 * p, q);
  }

  /// ## Values

  datatype Value = Value(size: nat, bits: nat)

  predicate Ok(v: Value) {
    v.size in {1, 2, 4, 8} && v.bits < Power256(v.size)
  }

  predicate AllOk(vals: seq<Value>) {
    forall i :: 0 <= i < |vals| ==> Ok(vals[i])
  }

  function Sizes(vals: seq<Value>): (s: seq<nat>)
    ensures |s| == |vals|
  {
    if vals == [] then [] else [vals[0].size] + Sizes(vals[1..])
  }

  function Sum(sizes: seq<nat>): nat {
    if sizes == [] then 0 else sizes[0] + Sum(sizes[1..])
  }

  function Bits(vals: seq<Value>): seq<nat> {
    if vals == [] then [] else [vals[0].bits] + Bits(vals[1..])
  }

  // As many values from the first on as fit into the room.
  function Keep(vals: seq<Value>, room: nat): seq<Value> {
    if vals == [] || vals[0].size > room then [] else [vals[0]] + Keep(vals[1..], room - vals[0].size)
  }

  // They are the longest prefix that fits.
  lemma {:induction false} KeepIsLongest(vals: seq<Value>, room: nat)
    ensures var n := |Keep(vals, room)|; n <= |vals| && Keep(vals, room) == vals[..n] && Sum(Sizes(vals[..n])) <= room
    ensures var n := |Keep(vals, room)|; n < |vals| ==> Sum(Sizes(vals[..n + 1])) > room
  {
    if vals == [] {
    } else if vals[0].size > room {
      assert vals[..1][1..] == [] && vals[..1][0] == vals[0];
    } else {
      var rest := Keep(vals[1..], room - vals[0].size);
      KeepIsLongest(vals[1..], room - vals[0].size);
      var n := |rest| + 1;
      assert vals[..n] == [vals[0]] + vals[1..][..n - 1] && vals[..n][1..] == vals[1..][..n - 1];
      if n < |vals| {
        assert vals[..n + 1] == [vals[0]] + vals[1..][..n] && vals[..n + 1][1..] == vals[1..][..n];
      }
    }
  }

  /// ## Writing and reading a slot

  function Put(slot: seq<byte>, at: nat, bytes: seq<byte>): (s: seq<byte>)
    requires at + |bytes| <= |slot|
    ensures |s| == |slot|
  {
    slot[..at] + bytes + slot[at + |bytes|..]
  }

  // Copies values in after so many bytes of values, skipping what does not fit.
  function CopyFrom(slot: seq<byte>, vals: seq<Value>, bytes: nat): (s: seq<byte>)
    ensures |s| == |slot|
    decreases |vals|
  {
    if vals == [] then slot
    else
      var at := HEADER + bytes;
      var v := vals[0];
      var after := if at + v.size <= |slot| then Put(slot, at, ToBytes(v.bits, v.size)) else slot;
      CopyFrom(after, vals[1..], bytes + v.size)
  }

  // Reads numbers of these sizes back, up to the first that would not fit.
  function Read(slot: seq<byte>, sizes: seq<nat>, bytes: nat): seq<nat>
    decreases |sizes|
  {
    var at := HEADER + bytes;
    if sizes == [] || at + sizes[0] > |slot| then []
    else [FromBytes(slot[at..at + sizes[0]])] + Read(slot, sizes[1..], bytes + sizes[0])
  }

  lemma {:induction false} CopyLeavesBefore(slot: seq<byte>, vals: seq<Value>, bytes: nat, n: nat)
    requires n <= |slot| && n <= HEADER + bytes
    ensures CopyFrom(slot, vals, bytes)[..n] == slot[..n]
    decreases |vals|
  {
    if vals != [] {
      var at, v := HEADER + bytes, vals[0];
      var now := if at + v.size <= |slot| then Put(slot, at, ToBytes(v.bits, v.size)) else slot;
      CopyLeavesBefore(now, vals[1..], bytes + v.size, n);
      assert now[..n] == slot[..n];
    }
  }

  // Reading gives back the values that fit, whatever was in the slot before.
  lemma {:induction false} ReadsWhatFits(slot: seq<byte>, vals: seq<Value>, bytes: nat)
    requires AllOk(vals) && HEADER + bytes <= |slot|
    ensures Read(CopyFrom(slot, vals, bytes), Sizes(vals), bytes) == Bits(Keep(vals, |slot| - HEADER - bytes))
    decreases |vals|
  {
    if vals != [] {
      var at, v := HEADER + bytes, vals[0];
      if at + v.size <= |slot| {
        var now := Put(slot, at, ToBytes(v.bits, v.size));
        var end := CopyFrom(now, vals[1..], bytes + v.size);
        assert Ok(vals[0]) && AllOk(vals[1..]);
        CopyLeavesBefore(now, vals[1..], bytes + v.size, at + v.size);
        assert end[at..at + v.size] == end[..at + v.size][at..] == now[..at + v.size][at..] == ToBytes(v.bits, v.size);
        BytesRoundTrip(v.bits, v.size);
        ReadsWhatFits(now, vals[1..], bytes + v.size);
        assert Sizes(vals)[1..] == Sizes(vals[1..]);
      }
    }
  }

  function First<T>(s: seq<T>, n: nat): seq<T> {
    if |s| <= n then s else s[..n]
  }

  lemma FirstMore<T>(s: seq<T>, n: nat)
    requires s != [] && n > 0
    ensures First(s, n) != [] && First(s, n)[0] == s[0] && First(s, n)[1..] == First(s[1..], n - 1)
    ensures First(s, n) == [s[0]] + First(s[1..], n - 1)
  {
  }

  // Only as many values as have their sizes recorded are read.
  lemma {:induction false} ReadFewer(slot: seq<byte>, sizes: seq<nat>, bytes: nat, n: nat)
    ensures Read(slot, First(sizes, n), bytes) == First(Read(slot, sizes, bytes), n)
    decreases |sizes|
  {
    if sizes != [] && n > 0 {
      FirstMore(sizes, n);
      if HEADER + bytes + sizes[0] <= |slot| {
        ReadFewer(slot, sizes[1..], bytes + sizes[0], n - 1);
        var r := Read(slot, sizes, bytes);
        assert r[1..] == Read(slot, sizes[1..], bytes + sizes[0]);
        FirstMore(r, n);
      }
    }
  }

  lemma {:induction false} BitsFirst(vals: seq<Value>, n: nat)
    ensures |Bits(vals)| == |vals| && Bits(First(vals, n)) == First(Bits(vals), n)
  {
    if vals != [] {
      if n == 0 {
        BitsFirst(vals[1..], 0);
      } else {
        BitsFirst(vals[1..], n - 1);
        if |vals| > n {
          assert vals[..n][1..] == vals[1..][..n - 1] && vals[..n][0] == vals[0];
        }
      }
    }
  }

  lemma {:induction false} KeepFirst(vals: seq<Value>, room: nat, n: nat)
    ensures Keep(First(vals, n), room) == First(Keep(vals, room), n)
  {
    if vals != [] && n > 0 && vals[0].size <= room {
      KeepFirst(vals[1..], room - vals[0].size, n - 1);
      if |vals| > n {
        assert vals[..n][1..] == vals[1..][..n - 1] && vals[..n][0] == vals[0];
      }
    }
  }

  // What is read of a call: of its first values, as many as fit into a slot.
  function Shown(vals: seq<Value>, esz: nat): seq<nat>
    requires esz >= HEADER
  {
    Bits(Keep(First(vals, MAX_VALUES), esz - HEADER))
  }

  lemma ReadsShown(slot: seq<byte>, vals: seq<Value>)
    requires AllOk(vals) && HEADER <= |slot|
    ensures Read(CopyFrom(slot, vals, 0), First(Sizes(vals), MAX_VALUES), 0) == Shown(vals, |slot|)
  {
    var end, n, room := CopyFrom(slot, vals, 0), MAX_VALUES, |slot| - HEADER;
    ReadsWhatFits(slot, vals, 0);
    KeepFirst(vals, room, n);
    BitsFirst(Keep(vals, room), n);
    ReadFewer(end, Sizes(vals), 0, n);
  }

  /// ## The memory of all slots

  // The address of slot k.
  function Base(esz: nat, k: nat): nat {
    if k == 0 then 0 else Base(esz, k - 1) + esz
  }

  lemma {:induction false} BaseIs(esz: nat, k: nat)
    ensures Base(esz, k) == esz * k
  {
    if k != 0 {
      BaseIs(esz, k - 1);
      assert esz * (k - 1) + esz == esz * k;
    }
  }

  lemma {:induction false} SlotsApart(esz: nat, j: nat, k: nat)
    requires j < k
    ensures Base(esz, j) + esz <= Base(esz, k)
  {
    if j < k - 1 {
      SlotsApart(esz, j, k - 1);
    }
  }

  function SlotAt(mem: seq<byte>, esz: nat, k: nat): (s: seq<byte>)
    requires Base(esz, k) + esz <= |mem|
    ensures |s| == esz
  {
    mem[Base(esz, k)..Base(esz, k) + esz]
  }

  lemma PartOfSlot(mem: seq<byte>, esz: nat, k: nat, at: nat, n: nat)
    requires Base(esz, k) + esz <= |mem| && at + n <= esz
    ensures SlotAt(mem, esz, k)[at..at + n] == mem[Base(esz, k) + at..Base(esz, k) + at + n]
  {
  }

  // A write within one stretch of the memory, seen from that stretch and from one apart from it.
  lemma PutWithin(mem: seq<byte>, a: nat, n: nat, at: nat, bytes: seq<byte>)
    requires a + n <= |mem| && at + |bytes| <= n
    ensures Put(mem, a + at, bytes)[a..a + n] == Put(mem[a..a + n], at, bytes)
  {
  }

  lemma PutApart(mem: seq<byte>, a: nat, bytes: seq<byte>, b: nat, n: nat)
    requires a + |bytes| <= |mem| && b + n <= |mem| && (b + n <= a || a + |bytes| <= b)
    ensures Put(mem, a, bytes)[b..b + n] == mem[b..b + n]
  {
  }

  // A write within one slot, seen from that slot and from another.
  lemma PutSlot(mem: seq<byte>, esz: nat, k: nat, at: nat, bytes: seq<byte>)
    requires Base(esz, k) + esz <= |mem| && at + |bytes| <= esz
    ensures SlotAt(Put(mem, Base(esz, k) + at, bytes), esz, k) == Put(SlotAt(mem, esz, k), at, bytes)
  {
    PutWithin(mem, Base(esz, k), esz, at, bytes);
  }

  lemma PutOtherSlot(mem: seq<byte>, esz: nat, k: nat, at: nat, bytes: seq<byte>, j: nat)
    requires Base(esz, k) + esz <= |mem| && Base(esz, j) + esz <= |mem| && at + |bytes| <= esz && j != k
    ensures SlotAt(Put(mem, Base(esz, k) + at, bytes), esz, j) == SlotAt(mem, esz, j)
  {
    var a, b := Base(esz, k), Base(esz, j);
    assert b + esz <= a || a + esz <= b by {
      if j < k {
        SlotsApart(esz, j, k);
      } else {
        SlotsApart(esz, k, j);
      }
    }
    PutApart(mem, a + at, bytes, b, esz);
  }
}
