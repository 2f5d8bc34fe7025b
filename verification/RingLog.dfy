/**
 A logger: a ring of fixed-size slots that calls are written into, and the dump of the ring as text.
 */
module RingLog {
  import opened Basics
  import opened FloorDivision
  import opened LogSlot

  // A place in the code that logs: its format and what it records of the sizes of its values.
  class Entry {
    const format: string
    ghost const shape: seq<nat>  // the sizes of the values logged there
    var index: nat
    var inited: bool
    var sizes: seq<nat>

    constructor (format: string, ghost shape: seq<nat>)
      ensures this.format == format && this.shape == shape && index == 0 && !inited && Ok()
    {
      this.format, this.shape := format, shape;
      index, inited, sizes := 0, false, seq(MAX_VALUES, _ => 0);
    }

    // Records the size of the i-th value, if this is the first call.
    method Note(size: nat, i: nat, last: bool)
      requires |sizes| == MAX_VALUES
      modifies this`inited, this`sizes
      ensures sizes == if !old(inited) && i < MAX_VALUES then old(sizes)[i := size] else old(sizes)
      ensures inited == (old(inited) || last)
    {
      if !inited {
        if i < MAX_VALUES {
          sizes := sizes[i := size];
        }
        if last {
          inited := true;
        }
      }
    }

    // The sizes are recorded by the first call.
    ghost predicate Ok()
      reads this
    {
      sizes == Padded(if inited then shape else [])
    }
  }

  function Padded(sizes: seq<nat>): seq<nat> {
    First(sizes, MAX_VALUES) + seq(MAX_VALUES - |First(sizes, MAX_VALUES)|, _ => 0)
  }

  // The recorded sizes are the known ones, and zero from there on.
  ghost predicate Recorded(sizes: seq<nat>, known: seq<nat>) {
    && |known| <= MAX_VALUES == |sizes|
    && forall i :: 0 <= i < MAX_VALUES ==> RecordedAt(sizes, known, i)
  }

  ghost predicate RecordedAt(sizes: seq<nat>, known: seq<nat>, i: nat)
    requires i < |sizes|
  {
    if i < |known| then sizes[i] == known[i] && known[i] in {1, 2, 4, 8} else sizes[i] == 0
  }

  lemma PaddedMore(shape: seq<nat>, i: nat)
    requires i < |shape|
    ensures Padded(shape[..i + 1]) == if i < MAX_VALUES then Padded(shape[..i])[i := shape[i]] else Padded(shape[..i])
  {
  }

  datatype Call = Call(entry: Entry, index: nat, time: nat, vals: seq<Value>)

  /// ## The dump as text

  function Decimal(n: nat): string {
    if n < 10 then ["0123456789"[n]] else Decimal(n / 10) + ["0123456789"[n % 10]]
  }

  function Decimals(ns: seq<nat>): (s: seq<string>)
    ensures |s| == |ns|
  {
    if ns == [] then [] else Decimals(ns[..|ns| - 1]) + [Decimal(ns[|ns| - 1])]
  }

  // The texts with a separator between each two.
  function Joined(texts: seq<string>, sep: string): string {
    if texts == [] then ""
    else if |texts| == 1 then texts[0]
    else Joined(texts[..|texts| - 1], sep) + sep + texts[|texts| - 1]
  }

  // The texts with a separator after each.
  function Terminated(texts: seq<string>, sep: string): string {
    if texts == [] then "" else Terminated(texts[..|texts| - 1], sep) + texts[|texts| - 1] + sep
  }

  lemma {:induction false} JoinedLast(texts: seq<string>, last: string, sep: string)
    ensures Joined(texts + [last], sep) == Terminated(texts, sep) + last
  {
    var all := texts + [last];
    assert all[..|all| - 1] == texts;
    if texts != [] {
      JoinedLast(texts[..|texts| - 1], texts[|texts| - 1], sep);
      assert texts == texts[..|texts| - 1] + [texts[|texts| - 1]];
    }
  }

  function Json(index: nat, format: string, time: nat, vals: seq<nat>): string {
    "{ \"index\": " + Decimal(index) + ", \"format\": \"" + format + "\", \"timestamp\": " + Decimal(time)
      + ", \"vals\": ["
    + Joined(Decimals(vals), ",") + "]}"
  }

  method ToJson(index: nat, format: string, time: nat, vals: seq<nat>) returns (s: string)
    ensures s == Json(index, format, time, vals)
  {
    var head := "{ \"index\": " + Decimal(index) + ", \"format\": \"" + format + "\", \"timestamp\": " + Decimal(time)
      + ", \"vals\": [";
    var body := "";
    var first := true;
    for i := 0 to |vals|
      invariant first == (i == 0)
      invariant body == Joined(Decimals(vals[..i]), ",")
    {
      if !first {
        body := body + ",";
      }
      body := body + Decimal(vals[i]);
      assert vals[..i + 1][..i] == vals[..i];
      assert Decimals(vals[..i + 1])[..i] == Decimals(vals[..i]);
      first := false;
    }
    assert vals[..|vals|] == vals;
    s := head + body + "]}";
  }

  /// ## The ring

  // Where number n falls, going around e places.
  function Place(n: nat, e: nat): (r: nat)
    requires e > 0
    ensures r < e
    decreases n
  {
    if n < e then n else Place(n - e, e)
  }

  lemma {:induction false} PlaceIs(n: nat, e: nat)
    requires e > 0
    ensures Place(n, e) == n % e
    decreases n
  {
    if n < e {
      FloorUnique(n, e, 0);
    } else {
      PlaceIs(n - e, e);
      var q := (n - e) / e;
      FloorBounds(n - e, e);
      assert e * (q + 1) == e * q + e;
      FloorUnique(n, e, q + 1);
    }
  }

  // Fewer than e numbers apart, the places differ.
  lemma {:induction false} OtherPlace(e: nat, i: nat, n: nat)
    requires i < n < i + e
    ensures Place(i, e) != Place(n, e)
    decreases n
  {
    if i >= e {
      OtherPlace(e, i - e, n - e);
    }
  }

  lemma {:induction false} NextPlace(n: nat, e: nat)
    requires e > 0
    ensures Place(n + 1, e) == if Place(n, e) + 1 == e then 0 else Place(n, e) + 1
    decreases n
  {
    if n >= e {
      NextPlace(n - e, e);
    }
  }

  class Logger {
    const esz: nat
    const emax: nat
    const mem: array<byte>
    var stopped: bool
    var enext: nat
    var index: nat
    var hash: map<nat, Entry>
    ghost var calls: seq<Call>

    // A log is sound exactly if it has a slot and its slots hold an index and a time.
    constructor (esz: nat, emax: nat)
      ensures Valid() <==> emax > 0 && esz >= HEADER
      ensures calls == [] && !stopped && fresh(mem) && this.esz == esz && this.emax == emax && hash == map[]
    {
      this.esz, this.emax := esz, emax;
      mem := new byte[esz * emax](_ => 0);
      stopped, enext, index, hash, calls := false, 0, 1, map[], [];
      new;
      if emax > 0 && esz >= HEADER {
        BaseIs(esz, emax);
        AllUnused();
      }
    }

    lemma AllUnused()
      requires Sized() && forall x :: 0 <= x < mem.Length ==> mem[x] == 0
      ensures forall k: nat :: k < emax ==> Unused(Slot(k))
    {
      Zeros();
      forall k: nat | k < emax ensures Unused(Slot(k)) {
        SlotsApart(esz, k, emax);
        assert forall x :: 0 <= x < esz ==> Slot(k)[x] == mem[Base(esz, k) + x] == 0;
        assert Slot(k)[..4] == [0, 0, 0, 0];
      }
    }

    ghost predicate Sized() {
      emax > 0 && esz >= HEADER && mem.Length == Base(esz, emax)
    }

    ghost function Slot(k: nat): (s: seq<byte>)
      requires Sized() && k < emax
      reads mem
      ensures |s| == esz
    {
      SlotsApart(esz, k, emax);
      SlotAt(mem[..], esz, k)
    }

    // The indices are those of the entries seen so far, all of which have recorded their sizes.
    ghost predicate Indexed()
      reads this, hash.Values
    {
      index >= 1 && forall i :: i in hash ==> 1 <= i < index && hash[i].index == i && hash[i].inited && hash[i].Ok()
    }

    ghost predicate Known(c: Call)
      reads this, hash.Values, c.entry
    {
      && c.entry.index == c.index && c.index in hash && hash[c.index] == c.entry && c.index < Power256(4)
      && c.time < Power256(8) && AllOk(c.vals) && Sizes(c.vals) == c.entry.shape
    }

    ghost function Slots(): (s: seq<seq<byte>>)
      requires Sized()
      reads mem
      ensures |s| == emax && forall k: nat {:trigger s[k]} :: k < emax ==> s[k] == Slot(k)
    {
      seq(emax, k requires Sized() && 0 <= k < emax reads mem => Slot(k))
    }

    ghost predicate Valid()
      reads this, mem, hash.Values, set c | c in calls :: c.entry
    {
      && Sized() && Indexed() && enext == |calls|
      && (forall c :: c in calls ==> Known(c))
      && RingOk(Slots(), calls, esz)
    }

    method Stop()
      modifies this`stopped
      ensures stopped
    {
      stopped := true;
    }

    method WriteAt(k: nat, at: nat, bytes: seq<byte>)
      requires Sized() && k < emax && at + |bytes| <= esz
      modifies mem
      ensures forall j: nat {:trigger Slot(j)} :: j < emax ==>
        Slot(j) == if j == k then Put(old(Slot(k)), at, bytes) else old(Slot(j))
    {
      SlotsApart(esz, k, emax);
      BaseIs(esz, k);
      ghost var was := mem[..];
      var base := esz * k;
      forall i | 0 <= i < |bytes| {
        mem[base + at + i] := bytes[i];
      }
      assert mem[..] == Put(was, base + at, bytes);
      forall j: nat | j < emax ensures Slot(j) == if j == k then Put(old(Slot(k)), at, bytes) else old(Slot(j)) {
        SlotsApart(esz, j, emax);
        if j == k {
          PutSlot(was, esz, k, at, bytes);
        } else {
          PutOtherSlot(was, esz, k, at, bytes, j);
        }
      }
    }

    // An entry that this logger has indexed, or that nobody has logged at yet.
    ghost predicate Own(entry: Entry)
      reads this, entry
    {
      entry.Ok() && if entry.index == 0 then !entry.inited else entry.index in hash && hash[entry.index] == entry
    }

    method EntryIndex(entry: Entry) returns (ret: nat)
      modifies this`index, this`hash, entry`index
      ensures ret == entry.index == if old(entry.index) != 0 then old(entry.index) else old(index)
      ensures if old(entry.index) != 0 then hash == old(hash) && index == old(index)
              else hash == old(hash)[ret := entry] && index == old(index) + 1
    {
      if entry.index != 0 {
        ret := entry.index;
      } else {
        ret := index;
        index := ret + 1;
        entry.index := ret;
        hash := hash[ret := entry];
      }
    }

    // The next slot of the ring, with the index and the time filled in.
    method GetEntry(entry: Entry, time: nat) returns (k: nat)
      requires Sized()
      modifies this`enext, this`index, this`hash, entry`index, mem
      ensures enext == old(enext) + 1 && k == Place(old(enext), emax)
      ensures entry.index == if old(entry.index) != 0 then old(entry.index) else old(index)
      ensures if old(entry.index) != 0 then hash == old(hash) && index == old(index)
              else hash == old(hash)[entry.index := entry] && index == old(index) + 1
      ensures Slot(k) == Put(Put(old(Slot(k)), 0, ToBytes(entry.index, 4)), 4, ToBytes(time, 8))
      ensures forall j: nat {:trigger Slot(j)} :: j < emax && j != k ==> Slot(j) == old(Slot(j))
    {
      var cur := enext;
      enext := cur + 1;
      PlaceIs(cur, emax);
      k := cur % emax;
      var ret := EntryIndex(entry);
      WriteAt(k, 0, ToBytes(ret, 4));
      WriteAt(k, 4, ToBytes(time, 8));
    }

    // Copies one value into a slot if it fits, and records its size if this is the entry's first call.
    method Copy(val: Value, k: nat, entry: Entry, bytes: nat, i: nat, last: bool) returns (next: nat)
      requires Sized() && k < emax && |entry.sizes| == MAX_VALUES
      modifies mem, entry`inited, entry`sizes
      ensures next == bytes + val.size
      ensures entry.sizes ==
        if !old(entry.inited) && i < MAX_VALUES then old(entry.sizes)[i := val.size] else old(entry.sizes)
      ensures entry.inited == (old(entry.inited) || last)
      ensures forall j: nat {:trigger Slot(j)} :: j < emax && j != k ==> Slot(j) == old(Slot(j))
      ensures Slot(k) ==
        if HEADER + bytes + val.size <= esz then Put(old(Slot(k)), HEADER + bytes, ToBytes(val.bits, val.size))
        else old(Slot(k))
    {
      entry.Note(val.size, i, last);
      if HEADER + bytes + val.size <= esz {
        WriteAt(k, HEADER + bytes, ToBytes(val.bits, val.size));
      }
      next := bytes + val.size;
    }

    // Copies all values of a call, one after the other.
    method CopyAll(vals: seq<Value>, k: nat, entry: Entry)
      requires Sized() && k < emax && vals != [] && entry.Ok() && Sizes(vals) == entry.shape
      modifies mem, entry`inited, entry`sizes
      ensures entry.inited && entry.Ok()
      ensures Slot(k) == CopyFrom(old(Slot(k)), vals, 0)
      ensures forall j: nat {:trigger Slot(j)} :: j < emax && j != k ==> Slot(j) == old(Slot(j))
    {
      var bytes := 0;
      assert Padded(entry.shape[..0]) == Padded([]);
      for i := 0 to |vals|
        invariant CopyFrom(Slot(k), vals[i..], bytes) == CopyFrom(old(Slot(k)), vals, 0)
        invariant entry.inited == (old(entry.inited) || i == |vals|)
        invariant entry.sizes == Padded(if old(entry.inited) then entry.shape else entry.shape[..i])
        invariant forall j: nat {:trigger Slot(j)} :: j < emax && j != k ==> Slot(j) == old(Slot(j))
      {
        assert vals[i..][0] == vals[i] && vals[i..][1..] == vals[i + 1..];
        SizesAt(vals, i);
        PaddedMore(entry.shape, i);
        bytes := Copy(vals[i], k, entry, bytes, i, i == |vals| - 1);
      }
      assert entry.shape[..|vals|] == entry.shape;
    }

    // Writes a call into the next slot.
    method Record(entry: Entry, time: nat, vals: seq<Value>)
      requires Sized() && enext == |calls| && RingOk(Slots(), calls, esz)
      requires entry.Ok() && Sizes(vals) == entry.shape && vals != [] && AllOk(vals) && time < Power256(8)
      requires index < Power256(4) && entry.index < Power256(4)
      modifies this`enext, this`index, this`hash, mem, entry`index, entry`inited, entry`sizes
      ensures enext == old(enext) + 1 && entry.inited && entry.Ok()
      ensures entry.index == if old(entry.index) != 0 then old(entry.index) else old(index)
      ensures if old(entry.index) != 0 then hash == old(hash) && index == old(index)
              else hash == old(hash)[entry.index := entry] && index == old(index) + 1
      ensures RingOk(Slots(), calls + [Call(entry, entry.index, time, vals)], esz)
    {
      ghost var slots := Slots();
      var k := GetEntry(entry, time);
      CopyAll(vals, k, entry);
      HeaderStays(slots[k], entry.index, time, vals);
      RingMore(slots, Slots(), calls, Call(entry, entry.index, time, vals), esz);
    }

    // Logs a call, unless the logger is stopped.
    method Log(entry: Entry, time: nat, vals: seq<Value>)
      requires Valid() && Own(entry) && index < Power256(4) && time < Power256(8)
      requires vals != [] && AllOk(vals) && Sizes(vals) == entry.shape
      modifies this`enext, this`index, this`hash, this`calls, mem, entry`index, entry`inited, entry`sizes
      ensures Valid() && Own(entry)
      ensures calls == if stopped then old(calls) else old(calls) + [Call(entry, entry.index, time, vals)]
      ensures forall i :: i in old(hash) ==> i in hash && hash[i] == old(hash)[i]
    {
      if stopped {
        return;
      }
      Record(entry, time, vals);
      assert Indexed();
      ghost var was, c := calls, Call(entry, entry.index, time, vals);
      calls := was + [c];
      forall d | d in was ensures Known(d) {
        assert old(Known(d));
      }
      assert Known(c) && Indexed();
    }

    method Load(k: nat, at: nat, n: nat) returns (v: nat)
      requires Sized() && k < emax && at + n <= esz
      ensures v == FromBytes(Slot(k)[at..at + n])
    {
      SlotsApart(esz, k, emax);
      BaseIs(esz, k);
      var base := esz * k;
      v := FromBytes(mem[base + at..base + at + n]);
      assert mem[base + at..base + at + n] == mem[..][base + at..base + at + n];
      PartOfSlot(mem[..], esz, k, at, n);
    }

    // The next of the values of a slot, after those read so far.
    method LoadValue(k: nat, base: nat, sz: nat, ghost known: seq<nat>, ghost i: nat, ghost vals: seq<nat>,
        ghost all: seq<nat>)
      returns (v: nat)
      requires Sized() && k < emax && HEADER <= base && base + sz <= esz && i < |known| && sz == known[i]
      requires vals + Read(Slot(k), known[i..], base - HEADER) == all
      ensures (vals + [v]) + Read(Slot(k), known[i + 1..], base + sz - HEADER) == all
    {
      v := Load(k, base, sz);
      ReadOne(Slot(k), known, i, base - HEADER, vals, v, all);
    }

    // The values of a slot, read by the sizes that its entry recorded.
    method LoadValues(k: nat, sizes: seq<nat>, ghost known: seq<nat>) returns (vals: seq<nat>)
      requires Sized() && k < emax && Recorded(sizes, known)
      ensures vals == Read(Slot(k), known, 0)
    {
      vals := [];
      var base := HEADER;
      ghost var all := Read(Slot(k), known, 0);
      var i := 0;
      while i < MAX_VALUES
        invariant 0 <= i <= |known| && HEADER <= base
        invariant vals + Read(Slot(k), known[i..], base - HEADER) == all
      {
        var sz := sizes[i];
        assert RecordedAt(sizes, known, i);
        if sz == 0 || base + sz > esz {
          break;
        }
        assert sz in {1, 2, 4, 8};  // other sizes would be fatal
        var v := LoadValue(k, base, sz, known, i, vals, all);
        vals := vals + [v];
        base := base + sz;
        i := i + 1;
      }
      ReadNone(Slot(k), known, i, base - HEADER);
    }

    // The text for a slot that has a call, or nothing for one that has none.
    method LoadSlot(k: nat, ghost m: int) returns (used: bool, text: string)
      requires Sized() && k < emax && Indexed() && m < |calls|
      requires if m < 0 then Unused(Slot(k)) else Known(calls[m]) && Shows(Slot(k), calls[m])
      ensures used == (m >= 0) && text == if used then Text(calls[m], esz) else ""
    {
      var i := Load(k, 0, 4);
      if i == 0 {
        return false, "";
      }
      ghost var c := calls[m];
      var time := Load(k, 4, 8);
      var entry := hash[i];
      PaddedRecords(c.vals);
      var vals := LoadValues(k, entry.sizes, First(entry.shape, MAX_VALUES));
      text := ToJson(i, entry.format, time, vals);
      used := true;
    }

    lemma StepShows(i: nat)
      requires Sized() && RingOk(Slots(), calls, esz) && i < emax
      ensures var e, m := Turn(Place(|calls|, emax), emax, i), |calls| - emax + i;
        if m < 0 then Unused(Slot(e)) else m < |calls| && Shows(Slot(e), calls[m])
    {
      var slots, e := Slots(), Turn(Place(|calls|, emax), emax, i);
      assert slots[e] == Slot(e);
      RingStep(slots, calls, esz, i);
    }

    // What the slot after i steps holds.
    lemma SlotIs(e: nat, i: nat)
      requires Valid() && i < emax && e == Turn(Place(enext, emax), emax, i)
      ensures var m := |calls| + i - emax;
        e < emax && m < |calls| && if m < 0 then Unused(Slot(e)) else Known(calls[m]) && Shows(Slot(e), calls[m])
    {
      StepShows(i);
    }

    // The text for the slot after i steps.
    method DumpSlot(e: nat, ghost i: nat) returns (used: bool, text: string)
      requires Valid() && i < emax && e == Turn(Place(enext, emax), emax, i)
      ensures used == (|calls| + i >= emax) && text == if used then Text(calls[|calls| + i - emax], esz) else ""
    {
      SlotIs(e, i);
      used, text := LoadSlot(e, |calls| + i - emax);
    }

    // Walks the slots once around, from the oldest, and writes out those that are used.
    method WriteCalls(open: string, between: string) returns (file: string)
      requires Valid()
      ensures file == open + Joined(Texts(calls[Oldest(|calls|, emax)..], esz), between)
    {
      file := open;
      PlaceIs(enext, emax);
      var start := enext % emax;
      var e := start;
      ghost var i, body := 0, "";
      Begun(calls, esz, emax, between);
      while true
        invariant 0 <= i < emax && e == Turn(start, emax, i)
        invariant file == open + body && body == Body(calls, esz, emax, i, between)
        decreases emax - i
      {
        var used, text := DumpSlot(e, i);
        BodyMore(calls, esz, emax, i, between, text, open);
        file := file + text;
        body := body + text;
        e := Advance(e, start, emax, i);
        i := i + 1;
        if e == start {
          break;
        }
        if used {
          file := file + between;
          body := body + between;
        }
      }
    }

    // The dump is the last calls, as many as there are slots, oldest first, with commas between them.
    method Serialize() returns (file: string)
      requires Valid()
      ensures file == Dump(calls, esz, emax)
    {
      file := WriteCalls("{\"logs\":[\n", ",\n");
      file := file + "\n]}";
    }
  }

  lemma ReadOne(slot: seq<byte>, sizes: seq<nat>, i: nat, bytes: nat, vals: seq<nat>, v: nat, all: seq<nat>)
    requires i < |sizes| && HEADER + bytes + sizes[i] <= |slot| && vals + Read(slot, sizes[i..], bytes) == all
    requires v == FromBytes(slot[HEADER + bytes..HEADER + bytes + sizes[i]])
    ensures (vals + [v]) + Read(slot, sizes[i + 1..], bytes + sizes[i]) == all
  {
    assert sizes[i..][0] == sizes[i] && sizes[i..][1..] == sizes[i + 1..];
    Associate(vals, [v], Read(slot, sizes[i + 1..], bytes + sizes[i]));
  }

  lemma ReadNone(slot: seq<byte>, sizes: seq<nat>, i: nat, bytes: nat)
    requires i <= |sizes| && (i < |sizes| ==> HEADER + bytes + sizes[i] > |slot|)
    ensures Read(slot, sizes[i..], bytes) == []
  {
    if i < |sizes| {
      assert sizes[i..][0] == sizes[i];
    }
  }

  // The number of the oldest call still in a ring of emax slots after n calls.
  function Oldest(n: nat, emax: nat): nat {
    if n >= emax then n - emax else 0
  }

  // And one past that of the last call seen after i steps from the oldest slot.
  function Upto(n: nat, emax: nat, i: nat): nat {
    if n + i >= emax then Min(n, n + i - emax) else 0
  }

  function Texts(calls: seq<Call>, esz: nat): (t: seq<string>)
    requires esz >= HEADER
    ensures |t| == |calls|
  {
    if calls == [] then [] else Texts(calls[..|calls| - 1], esz) + [Text(calls[|calls| - 1], esz)]
  }

  function Dump(calls: seq<Call>, esz: nat, emax: nat): string
    requires esz >= HEADER
  {
    "{\"logs\":[\n" + Joined(Texts(calls[Oldest(|calls|, emax)..], esz), ",\n") + "\n]}"
  }

  // The middle of the file after i steps: every call seen is followed by a comma.
  function Body(calls: seq<Call>, esz: nat, emax: nat, i: nat, sep: string): string
    requires esz >= HEADER && i <= emax
  {
    Terminated(Texts(calls[Oldest(|calls|, emax)..Upto(|calls|, emax, i)], esz), sep)
  }

  lemma Begun(calls: seq<Call>, esz: nat, emax: nat, sep: string)
    requires esz >= HEADER && emax > 0
    ensures Body(calls, esz, emax, 0, sep) == ""
  {
    assert calls[Oldest(|calls|, emax)..Upto(|calls|, emax, 0)] == [];
  }

  lemma TextsMore(calls: seq<Call>, esz: nat, lo: nat, m: nat)
    requires esz >= HEADER && lo <= m < |calls|
    ensures Texts(calls[lo..m + 1], esz) == Texts(calls[lo..m], esz) + [Text(calls[m], esz)]
  {
    assert calls[lo..m + 1][..m - lo] == calls[lo..m];
  }

  lemma TerminatedMore(t: seq<string>, last: string, sep: string)
    ensures Terminated(t + [last], sep) == Terminated(t, sep) + last + sep
  {
    assert (t + [last])[..|t|] == t;
  }

  // A step that sees a call adds it and a comma; without the last comma, the texts are joined.
  lemma CallAdded(calls: seq<Call>, esz: nat, lo: nat, m: nat, sep: string)
    requires esz >= HEADER && lo <= m < |calls|
    ensures var was, text := Terminated(Texts(calls[lo..m], esz), sep), Text(calls[m], esz);
      && Terminated(Texts(calls[lo..m + 1], esz), sep) == was + text + sep
      && Joined(Texts(calls[lo..m + 1], esz), sep) == was + text
  {
    var t, last := Texts(calls[lo..m], esz), Text(calls[m], esz);
    TextsMore(calls, esz, lo, m);
    TerminatedMore(t, last, sep);
    JoinedLast(t, last, sep);
  }

  // What step i adds to the middle: its call, if it sees one, and a comma; at the last step no comma.
  lemma BodyMore(calls: seq<Call>, esz: nat, emax: nat, i: nat, sep: string, text: string, open: string)
    requires esz >= HEADER && i < emax
    requires text == if |calls| + i >= emax then Text(calls[|calls| + i - emax], esz) else ""
    ensures var was, now := Body(calls, esz, emax, i, sep), Body(calls, esz, emax, i + 1, sep);
      && now == (if |calls| + i >= emax then was + text + sep else was + text)
      && (i + 1 == emax ==> Joined(Texts(calls[Oldest(|calls|, emax)..], esz), sep) == was + text)
      && (open + was) + text == open + (was + text)
      && (open + (was + text)) + sep == open + (was + text + sep)
  {
    var n, lo, was := |calls|, Oldest(|calls|, emax), Body(calls, esz, emax, i, sep);
    Associate(open, was, text);
    Associate(open, was + text, sep);
    if n + i >= emax {
      CallSeen(calls, esz, emax, i, sep);
    } else {
      assert was + text == was;
      if i + 1 == emax {
        assert calls[lo..] == calls[lo..Upto(n, emax, i)] == [];
      }
    }
  }

  lemma CallSeen(calls: seq<Call>, esz: nat, emax: nat, i: nat, sep: string)
    requires esz >= HEADER && i < emax && |calls| + i >= emax
    ensures var was, text := Body(calls, esz, emax, i, sep), Text(calls[|calls| + i - emax], esz);
      && Body(calls, esz, emax, i + 1, sep) == was + text + sep
      && (i + 1 == emax ==> Joined(Texts(calls[Oldest(|calls|, emax)..], esz), sep) == was + text)
  {
    var n, lo, m := |calls|, Oldest(|calls|, emax), |calls| + i - emax;
    assert Upto(n, emax, i) == m && Upto(n, emax, i + 1) == m + 1;
    CallAdded(calls, esz, lo, m, sep);
    assert i + 1 == emax ==> calls[lo..] == calls[lo..m + 1];
  }

  // The slot after i steps from a start, going around.
  function Turn(start: nat, e: nat, i: nat): (r: nat)
    requires start < e
    ensures r < e
  {
    if i == 0 then start
    else
      var r := Turn(start, e, i - 1);
      if r + 1 == e then 0 else r + 1
  }

  lemma {:induction false} TurnPlace(n: nat, e: nat, i: nat)
    requires e > 0
    ensures Turn(Place(n, e), e, i) == Place(n + i, e)
    decreases i
  {
    if i > 0 {
      TurnPlace(n, e, i - 1);
      NextPlace(n + i - 1, e);
    }
  }

  // The walk is back at its start after e steps and not before.
  method Advance(at: nat, start: nat, e: nat, ghost i: nat) returns (next: nat)
    requires start < e && i < e && at == Turn(start, e, i)
    ensures next == Turn(start, e, i + 1) && (next == start <==> i + 1 == e)
  {
    TurnPlace(start, e, i + 1);
    if i + 1 < e {
      OtherPlace(e, start, start + i + 1);
    }
    PlaceIs(at + 1, e);
    next := (at + 1) % e;
  }

  // Around the ring from its oldest slot: the slot after i steps has the call that many after the
  // oldest kept, or is unused.
  lemma RingStep(slots: seq<seq<byte>>, calls: seq<Call>, esz: nat, i: nat)
    requires RingOk(slots, calls, esz) && i < |slots|
    ensures var emax, n := |slots|, |calls|; var e, m := Turn(Place(n, emax), emax, i), n - emax + i;
      if m < 0 then Unused(slots[e]) else m < n && Shows(slots[e], calls[m])
  {
    var emax, n := |slots|, |calls|;
    TurnPlace(n, emax, i);
    if n + i >= emax {
      assert Shows(slots[Place(n + i - emax, emax)], calls[n + i - emax]);
    }
  }

  function Text(c: Call, esz: nat): string
    requires esz >= HEADER
  {
    Json(c.index, c.entry.format, c.time, Shown(c.vals, esz))
  }

  lemma PaddedRecords(vals: seq<Value>)
    requires AllOk(vals)
    ensures Recorded(Padded(Sizes(vals)), First(Sizes(vals), MAX_VALUES))
  {
    var shape := Sizes(vals);
    forall i | 0 <= i < |shape| ensures shape[i] in {1, 2, 4, 8} {
      SizesAt(vals, i);
      assert Ok(vals[i]);
    }
  }

  lemma {:induction false} SizesAt(vals: seq<Value>, i: nat)
    requires i < |vals|
    ensures Sizes(vals)[i] == vals[i].size
  {
    if i > 0 {
      SizesAt(vals[1..], i - 1);
    }
  }

  // A slot just written shows its call.
  lemma HeaderStays(slot: seq<byte>, index: nat, time: nat, vals: seq<Value>)
    requires |slot| >= HEADER && index < Power256(4) && time < Power256(8) && AllOk(vals)
    ensures var end := CopyFrom(Put(Put(slot, 0, ToBytes(index, 4)), 4, ToBytes(time, 8)), vals, 0);
      && FromBytes(end[..4]) == index && FromBytes(end[4..HEADER]) == time
      && Read(end, First(Sizes(vals), MAX_VALUES), 0) == Shown(vals, |slot|)
  {
    var begun := Put(Put(slot, 0, ToBytes(index, 4)), 4, ToBytes(time, 8));
    var end := CopyFrom(begun, vals, 0);
    CopyLeavesBefore(begun, vals, 0, HEADER);
    assert end[..4] == end[..HEADER][..4] == begun[..4] == ToBytes(index, 4);
    assert end[4..HEADER] == end[..HEADER][4..] == begun[4..HEADER] == ToBytes(time, 8);
    BytesRoundTrip(index, 4);
    BytesRoundTrip(time, 8);
    ReadsShown(begun, vals);
  }

  lemma Zeros()
    ensures FromBytes([0, 0, 0, 0]) == 0
  {
    assert [0, 0, 0, 0][1..] == [0, 0, 0] && [0, 0, 0][1..] == [0, 0] && [0, 0][1..] == [0];
    assert FromBytes([0]) == 0 && FromBytes([0, 0]) == 0 && FromBytes([0, 0, 0]) == 0;
  }

  ghost predicate Unused(slot: seq<byte>)
    requires |slot| >= HEADER
  {
    FromBytes(slot[..4]) == 0
  }

  // A slot has a call: the index of its entry, the time and the values that fit.
  ghost predicate Shows(slot: seq<byte>, c: Call)
    requires |slot| >= HEADER
  {
    && FromBytes(slot[..4]) == c.index && FromBytes(slot[4..HEADER]) == c.time
    && Read(slot, First(Sizes(c.vals), MAX_VALUES), 0) == Shown(c.vals, |slot|)
  }

  // The slots have the last calls, each where its number falls going around, and are otherwise unused.
  ghost predicate RingOk(slots: seq<seq<byte>>, calls: seq<Call>, esz: nat) {
    var emax, n := |slots|, |calls|;
    && emax > 0 && esz >= HEADER && (forall k :: 0 <= k < emax ==> |slots[k]| == esz)
    && (forall i: nat {:trigger calls[i]} :: n - emax <= i < n ==> Shows(slots[Place(i, emax)], calls[i]))
    && (forall k: nat {:trigger slots[k]} :: n <= k < emax ==> Unused(slots[k]))
  }

  // The next call takes the slot of the oldest.
  lemma RingMore(slots: seq<seq<byte>>, now: seq<seq<byte>>, calls: seq<Call>, c: Call, esz: nat)
    requires RingOk(slots, calls, esz) && |now| == |slots|
    requires var k := Place(|calls|, |slots|);
      |now[k]| == esz && Shows(now[k], c) && forall j :: 0 <= j < |slots| && j != k ==> now[j] == slots[j]
    ensures RingOk(now, calls + [c], esz)
  {
    var emax, n, more := |slots|, |calls|, calls + [c];
    forall i: nat | n + 1 - emax <= i < n + 1 ensures Shows(now[Place(i, emax)], more[i]) {
      if i < n {
        OtherPlace(emax, i, n);
        assert more[i] == calls[i];
      }
    }
    forall k: nat | n + 1 <= k < emax ensures Unused(now[k]) {
      assert now[k] == slots[k];
    }
  }
}
