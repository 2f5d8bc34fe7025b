/**
 The counters in shared memory: a writer that allocates and frees named groups of counters, and a
 reader that rebuilds from the memory alone the table of the counters there are.
 */
module CounterDirectory {
  import opened Basics
  import opened PowerOfTwo
  import opened CounterMemory
  import opened Bins

  // A named group of counters and its places within the name and value areas.
  datatype Entry = Entry(name: seq<byte>, noff: nat, voff: nat, veclen: nat)

  type Entries = map<nat, Entry>  // by the offset of their directory entry

  /// ## What the memory holds

  function Stored(e: Entry): Dir {
    Dir(NAME_START + e.noff, |e.name|, VEC_START + e.voff, e.veclen)
  }

  ghost predicate Named(mem: Memory, e: Entry) {
    forall k {:trigger e.name[k]} :: 0 <= k < |e.name| ==> At(mem, NAME_START + e.noff + k) == e.name[k]
  }

  ghost predicate Shown(mem: Memory, d: nat, e: Entry) {
    DirAt(mem, DIR_START + d) == Stored(e) && Named(mem, e)
  }

  ghost predicate Unused(mem: Memory, d: nat) {
    DirAt(mem, DIR_START + d).nameLen == 0
  }

  // An entry is within its areas and has a name and counters.
  ghost predicate Placed(d: nat, e: Entry) {
    && d % DIR_SIZE == 0 && d + DIR_SIZE <= DIR_TOTAL
    && 0 < |e.name| && e.noff + |e.name| <= NAME_TOTAL
    && 0 < e.veclen && e.voff + e.veclen <= VEC_TOTAL
  }

  ghost predicate Separate(e: Entry, f: Entry) {
    && (e.noff + |e.name| <= f.noff || f.noff + |f.name| <= e.noff)
    && (e.voff + e.veclen <= f.voff || f.voff + f.veclen <= e.voff)
  }

  ghost predicate AllSeparate(entries: Entries) {
    forall d, c {:trigger Separate(entries[d], entries[c])} :: d in entries && c in entries && d != c ==>
      Separate(entries[d], entries[c])
  }

  // Every entry is in the memory as it is, and the directory is empty everywhere else.
  ghost predicate Holds(mem: Memory, entries: Entries) {
    (forall d :: d in entries ==> Placed(d, entries[d]) && Shown(mem, d, entries[d])) && EmptyElsewhere(mem, entries)
  }

  ghost predicate EmptyElsewhere(mem: Memory, entries: Entries) {
    forall d: nat {:trigger Unused(mem, d)} :: d % DIR_SIZE == 0 && d + DIR_SIZE <= DIR_TOTAL && d !in entries ==>
      Unused(mem, d)
  }

  ghost predicate SameOutside(mem: Memory, now: Memory, at: nat, n: nat) {
    forall x: nat {:trigger At(now, x)} :: !(at <= x < at + n) ==> At(now, x) == At(mem, x)
  }

  // Nothing but an entry's own name and directory entry, and the header, changed.
  ghost predicate ChangedOnly(mem: Memory, now: Memory, d: nat, e: Entry) {
    forall x: nat {:trigger At(now, x)} ::
      4 <= x && !(DIR_START + d <= x < DIR_START + d + DIR_SIZE)
        && !(NAME_START + e.noff <= x < NAME_START + e.noff + |e.name|) ==>
      At(now, x) == At(mem, x)
  }

  lemma OthersShown(mem: Memory, now: Memory, d: nat, e: Entry, c: nat, f: Entry)
    requires Placed(d, e) && Placed(c, f) && c != d && Separate(e, f) && ChangedOnly(mem, now, d, e) && Shown(mem, c, f)
    ensures Shown(now, c, f)
  {
    SameDir(mem, now, DIR_START + c);
    forall k | 0 <= k < |f.name| ensures At(now, NAME_START + f.noff + k) == f.name[k] {
      var x := NAME_START + f.noff + k;
      assert At(now, x) == At(mem, x);
    }
  }

  lemma UnusedStays(mem: Memory, now: Memory, d: nat, e: Entry, c: nat)
    requires Placed(d, e) && c % DIR_SIZE == 0 && c + DIR_SIZE <= DIR_TOTAL && c != d && ChangedOnly(mem, now, d, e)
      && Unused(mem, c)
    ensures Unused(now, c)
  {
    SameDir(mem, now, DIR_START + c);
  }

  lemma EmptyStays(mem: Memory, now: Memory, entries: Entries, d: nat, e: Entry)
    requires EmptyElsewhere(mem, entries) && Placed(d, e) && ChangedOnly(mem, now, d, e)
    ensures EmptyElsewhere(now, entries[d := e])
  {
    forall c: nat | c % DIR_SIZE == 0 && c + DIR_SIZE <= DIR_TOTAL && c !in entries[d := e] ensures Unused(now, c) {
      assert Unused(mem, c);
      UnusedStays(mem, now, d, e, c);
    }
  }

  lemma EntryAdded(mem: Memory, now: Memory, entries: Entries, d: nat, e: Entry)
    requires Holds(mem, entries) && d !in entries && Placed(d, e) && ChangedOnly(mem, now, d, e) && Shown(now, d, e)
    requires forall c :: c in entries ==> Separate(e, entries[c])
    ensures Holds(now, entries[d := e])
  {
    forall c | c in entries ensures Shown(now, c, entries[c]) {
      OthersShown(mem, now, d, e, c, entries[c]);
    }
    EmptyStays(mem, now, entries, d, e);
  }

  lemma EntryRemoved(mem: Memory, now: Memory, entries: Entries, d: nat)
    requires Holds(mem, entries) && AllSeparate(entries) && d in entries && ChangedOnly(mem, now, d, entries[d])
      && Unused(now, d)
    ensures Holds(now, entries - {d})
  {
    var e := entries[d];
    forall c | c in entries - {d} ensures Placed(c, entries[c]) && Shown(now, c, entries[c]) {
      assert Separate(entries[d], entries[c]);
      OthersShown(mem, now, d, e, c, entries[c]);
    }
    forall c: nat | c % DIR_SIZE == 0 && c + DIR_SIZE <= DIR_TOTAL && c !in entries - {d} ensures Unused(now, c) {
      if c != d {
        assert Unused(mem, c);
        UnusedStays(mem, now, d, e, c);
      }
    }
  }

  lemma ShownStays(mem: Memory, now: Memory, d: nat, e: Entry)
    requires SameOutside(mem, now, VEC_START, VEC_TOTAL) && Placed(d, e) && Shown(mem, d, e)
    ensures Shown(now, d, e)
  {
    SameDir(mem, now, DIR_START + d);
    forall k | 0 <= k < |e.name| ensures At(now, NAME_START + e.noff + k) == e.name[k] {
      var x := NAME_START + e.noff + k;
      assert At(now, x) == At(mem, x);
    }
  }

  // Counting in a counter disturbs nothing the reader looks at.
  lemma CountingIsHarmless(mem: Memory, now: Memory, entries: Entries)
    requires Holds(mem, entries) && SameOutside(mem, now, VEC_START, VEC_TOTAL)
    ensures Holds(now, entries) && WordAt(now, 0) == WordAt(mem, 0)
  {
    SameWord(mem, now, 0);
    forall d | d in entries ensures Shown(now, d, entries[d]) {
      ShownStays(mem, now, d, entries[d]);
    }
    forall d: nat | d % DIR_SIZE == 0 && d + DIR_SIZE <= DIR_TOTAL && d !in entries ensures Unused(now, d) {
      assert Unused(mem, d);
      SameDir(mem, now, DIR_START + d);
    }
  }

  /// ## The reader

  // The reader passes over entries with longer names or more counters than it expects.
  predicate Listed(e: Entry) {
    |e.name| <= NAME_MAX * NAME_SIZE && e.veclen <= VEC_MAX * VEC_SIZE
  }

  // Where the counters of an entry are for someone who has the memory mapped at base.
  function Addresses(base: nat, e: Entry): seq<nat> {
    seq(e.veclen / VEC_SIZE, i requires 0 <= i => base + VEC_START + e.voff + i * VEC_SIZE)
  }

  // The table of the first n directory entries; a later entry of the same name replaces an earlier one.
  ghost function Listing(entries: Entries, n: nat, base: nat): map<seq<byte>, seq<nat>> {
    if n == 0 then map[]
    else
      var d := (n - 1) * DIR_SIZE;
      var rest := Listing(entries, n - 1, base);
      if d in entries && Listed(entries[d]) then rest[entries[d].name := Addresses(base, entries[d])] else rest
  }

  // Entry d is within the limits, and the last of its name in that part of the directory.
  ghost predicate LastNamed(entries: Entries, upto: nat, d: nat) {
    && InTable(entries, upto, d)
    && forall c: nat :: InTable(entries, upto, c) && d < c ==> entries[c].name != entries[d].name
  }

  ghost predicate InTable(entries: Entries, upto: nat, d: nat) {
    d in entries && Listed(entries[d]) && d % DIR_SIZE == 0 && d < upto
  }

  // A name's counter in the table is the last one of that name, and the table has no other names.
  ghost predicate ListingOf(hash: map<seq<byte>, seq<nat>>, entries: Entries, upto: nat, base: nat) {
    && (forall d: nat :: LastNamed(entries, upto, d) ==> MapsTo(hash, entries[d], base))
    && (forall name :: name in hash ==> HasLast(entries, upto, name))
  }

  ghost predicate NamedAt(entries: Entries, upto: nat, name: seq<byte>) {
    InTable(entries, upto + DIR_SIZE, upto) && entries[upto].name == name
  }

  ghost predicate MapsTo(hash: map<seq<byte>, seq<nat>>, e: Entry, base: nat) {
    e.name in hash && hash[e.name] == Addresses(base, e)
  }

  ghost predicate HasLast(entries: Entries, upto: nat, name: seq<byte>) {
    exists d: nat :: LastNamed(entries, upto, d) && entries[d].name == name
  }

  // One more directory entry is the last of its name, and the others are as before except those of that name.
  lemma LastNamedMore(entries: Entries, upto: nat, d: nat)
    requires upto % DIR_SIZE == 0
    ensures InTable(entries, upto + DIR_SIZE, upto) ==> LastNamed(entries, upto + DIR_SIZE, upto)
    ensures d != upto && d in entries ==>
      LastNamed(entries, upto + DIR_SIZE, d) ==
        (LastNamed(entries, upto, d) && !NamedAt(entries, upto, entries[d].name))
  {
    forall c: nat | c != upto ensures InTable(entries, upto + DIR_SIZE, c) == InTable(entries, upto, c) {
    }
    assert !InTable(entries, upto, upto);
  }

  lemma OneMoreListed(entries: Entries, upto: nat, rest: map<seq<byte>, seq<nat>>, base: nat)
    requires upto % DIR_SIZE == 0 && ListingOf(rest, entries, upto, base)
    ensures InTable(entries, upto + DIR_SIZE, upto) ==>
      ListingOf(rest[entries[upto].name := Addresses(base, entries[upto])], entries, upto + DIR_SIZE, base)
    ensures !InTable(entries, upto + DIR_SIZE, upto) ==> ListingOf(rest, entries, upto + DIR_SIZE, base)
  {
    var more := InTable(entries, upto + DIR_SIZE, upto);
    var now := if more then rest[entries[upto].name := Addresses(base, entries[upto])] else rest;
    forall d: nat | LastNamed(entries, upto + DIR_SIZE, d) ensures MapsTo(now, entries[d], base) {
      LastNamedMore(entries, upto, d);
    }
    forall name | name in now ensures HasLast(entries, upto + DIR_SIZE, name) {
      LastNamedMore(entries, upto, upto);
      if !(more && entries[upto].name == name) {
        assert HasLast(entries, upto, name);
        var d: nat :| LastNamed(entries, upto, d) && entries[d].name == name;
        LastNamedMore(entries, upto, d);
      }
    }
  }

  lemma {:induction false} ListingIsExact(entries: Entries, n: nat, base: nat)
    ensures ListingOf(Listing(entries, n, base), entries, n * DIR_SIZE, base)
  {
    if n != 0 {
      ListingIsExact(entries, n - 1, base);
      OneMoreListed(entries, (n - 1) * DIR_SIZE, Listing(entries, n - 1, base), base);
    }
  }

  method ReadName(mem: Memory, d: Dir, ghost e: Entry) returns (name: seq<byte>)
    requires d == Stored(e) && Named(mem, e)
    ensures name == e.name
  {
    name := [];
    for i := 0 to d.nameLen
      invariant name == e.name[..i]
    {
      assert At(mem, NAME_START + e.noff + i) == e.name[i];
      name := name + [At(mem, d.nameOff + i)];
    }
  }

  method CounterAddresses(base: nat, len: nat) returns (val: seq<nat>)
    ensures val == seq(len / VEC_SIZE, i requires 0 <= i => base + i * VEC_SIZE)
  {
    val := [];
    for i := 0 to len / VEC_SIZE
      invariant val == seq(i, j requires 0 <= j => base + j * VEC_SIZE)
    {
      val := val + [base + i * VEC_SIZE];
    }
  }

  // A read of the memory gives the table of the entries there are.
  method ReadAll(mem: Memory, base: nat, ghost entries: Entries) returns (hash: map<seq<byte>, seq<nat>>)
    requires Holds(mem, entries) && WordAt(mem, 0) * DIR_SIZE <= DIR_TOTAL
    ensures hash == Listing(entries, WordAt(mem, 0), base)
  {
    hash := map[];
    for i := 0 to WordAt(mem, 0)
      invariant hash == Listing(entries, i, base)
    {
      var dir := DirAt(mem, DIR_START + i * DIR_SIZE);
      ghost var d := i * DIR_SIZE;
      if d in entries {
        assert Placed(d, entries[d]) && Shown(mem, d, entries[d]);
      } else {
        assert Unused(mem, d);
      }
      if dir.nameLen != 0 && dir.vecLen != 0 && dir.nameLen <= NAME_MAX * NAME_SIZE
        && dir.vecLen <= VEC_MAX * VEC_SIZE {
        var name := ReadName(mem, dir, entries[d]);
        var val := CounterAddresses(base + dir.vecOff, dir.vecLen);
        assert val == Addresses(base, entries[d]);
        hash := hash[name := val];
      }
    }
  }

  /// ## The writer

  // The objects of an area and those that are handed out.
  datatype Area = Area(objs: map<nat, nat>, live: set<nat>)

  ghost function AreaOf(b: Bin): Area
    reads b`objs, b`live
  {
    Area(b.objs, b.live)
  }

  ghost predicate InArea(off: nat, len: nat, a: Area, size: nat) {
    0 < len <= HALF && off in a.live && off in a.objs && a.objs[off] == Rounded(len, size)
  }

  // An entry's places are objects that were handed out for it.
  ghost predicate Allotted(e: Entry, vec: Area, names: Area) {
    InArea(e.voff, e.veclen, vec, VEC_SIZE) && InArea(e.noff, |e.name|, names, NAME_SIZE)
  }

  ghost predicate AllAllotted(entries: Entries, vec: Area, names: Area) {
    && (forall d :: d in entries ==> Allotted(entries[d], vec, names))
    && (forall d, c {:trigger Different(entries[d], entries[c])} :: d in entries && c in entries && d != c ==>
      Different(entries[d], entries[c]))
  }

  // One more object handed out, and possibly more carved.
  ghost predicate Extended(a: Area, b: Area, off: nat) {
    off !in a.live && b.live == a.live + {off} && forall x :: x in a.objs ==> x in b.objs && b.objs[x] == a.objs[x]
  }

  lemma AllottedMore(entries: Entries, vec: Area, names: Area, vec': Area, names': Area, d: nat, e: Entry)
    requires AllAllotted(entries, vec, names) && Extended(vec, vec', e.voff) && Extended(names, names', e.noff)
    requires d !in entries && Allotted(e, vec', names')
    ensures AllAllotted(entries[d := e], vec', names')
    ensures forall c :: c in entries ==> Different(e, entries[c])
  {
    forall c | c in entries
      ensures Allotted(entries[c], vec', names') && Different(e, entries[c]) && Different(entries[c], e)
    {
      assert Allotted(entries[c], vec, names);
    }
    var more := entries[d := e];
    forall b, c | b in more && c in more && b != c ensures Different(more[b], more[c]) {
      if b != d && c != d {
        assert Different(entries[b], entries[c]);
      }
    }
  }

  // What taking an object of len bytes made of an area; there may be none.
  ghost predicate Drawn(a: Area, b: Area, r: Option<nat>, len: nat, size: nat) {
    match r
    case None => b == a
    case Some(off) => Extended(a, b, off) && InArea(off, len, b, size)
  }

  // Everything handed out is still handed out.
  ghost predicate StillOut(a: Area, b: Area) {
    a.live <= b.live && forall x :: x in a.objs ==> x in b.objs && b.objs[x] == a.objs[x]
  }

  lemma TakenBack(a: set<nat>, b: set<nat>, x: nat)
    requires x !in a && b == a + {x}
    ensures b - {x} == a
  {
  }

  lemma StillOutTaken(a: Area, b: Area, r: Option<nat>, len: nat, size: nat)
    requires Drawn(a, b, r, len, size)
    ensures StillOut(a, b) && b.live == a.live + if r.Some? then {r.value} else {}
    ensures r.Some? ==> b.live - {r.value} == a.live && StillOut(a, b.(live := b.live - {r.value}))
  {
  }

  lemma AllottedStill(entries: Entries, vec: Area, names: Area, vec': Area, names': Area)
    requires AllAllotted(entries, vec, names) && StillOut(vec, vec') && StillOut(names, names')
    ensures AllAllotted(entries, vec', names')
  {
    forall c | c in entries ensures Allotted(entries[c], vec', names') {
      assert Allotted(entries[c], vec, names);
    }
  }

  lemma AllottedLess(entries: Entries, vec: Area, names: Area, d: nat)
    requires AllAllotted(entries, vec, names) && d in entries
    ensures AllAllotted(entries - {d}, vec.(live := vec.live - {entries[d].voff}),
      names.(live := names.live - {entries[d].noff}))
  {
    var less := entries - {d};
    forall c | c in less
      ensures Allotted(less[c], vec.(live := vec.live - {entries[d].voff}),
                       names.(live := names.live - {entries[d].noff}))
    {
      assert Allotted(entries[c], vec, names) && Different(entries[c], entries[d]);
    }
    forall b, c | b in less && c in less && b != c ensures Different(less[b], less[c]) {
      assert Different(entries[b], entries[c]);
    }
  }

  ghost predicate Different(e: Entry, f: Entry) {
    e.noff != f.noff && e.voff != f.voff
  }

  method NewArea(size: nat, total: nat, page: nat) returns (b: Bin)
    requires 1 <= size <= HALF && 1 <= page <= HALF && NextPow2(size) == size && NextPow2(page) == page
    ensures fresh(b) && b.Valid() && b.binsz == size && b.max == total && b.pagesz == page
    ensures b.offset == 0 && b.bins == [] && b.objs == map[] && b.live == {}
  {
    b := new Bin(size, total, page);
  }

  // The memory holds these entries, which its header counts, when the directory is carved up to an
  // offset and the other areas are these.
  ghost predicate Keeps(mem: Memory, entries: Entries, offset: nat, vec: Area, names: Area) {
    && Holds(mem, entries) && AllAllotted(entries, vec, names)
    && Covers(WordAt(mem, 0), entries, offset)
  }

  // The header counts enough directory entries, and no more than have been carved.
  ghost predicate Covers(count: nat, entries: Entries, offset: nat) {
    count * DIR_SIZE <= offset && forall d :: d in entries ==> d + DIR_SIZE <= count * DIR_SIZE
  }

  lemma KeepsStill(mem: Memory, entries: Entries, offset: nat, vec: Area, names: Area, offset': nat, vec': Area,
      names': Area)
    requires Keeps(mem, entries, offset, vec, names)
    requires offset <= offset' && StillOut(vec, vec') && StillOut(names, names')
    ensures Keeps(mem, entries, offset', vec', names')
  {
    AllottedStill(entries, vec, names, vec', names');
  }

  // What the areas have to give.
  datatype Stocks = Stocks(dir: Stock, vec: Stock, names: Stock)

  // No area has carved anything.
  ghost predicate Uncarved(s: Stocks) {
    s.dir.offset == s.vec.offset == s.names.offset == 0 && s.dir.bins == s.vec.bins == s.names.bins == []
  }

  // Each area gave an object for a counter.
  ghost predicate Spent(was: Stocks, now: Stocks, nameLen: nat, veclen: nat) {
    && Took(was.dir, now.dir, DIR_SIZE, DIR_SIZE, DIR_TOTAL, PAGE)
    && Took(was.vec, now.vec, veclen, VEC_SIZE, VEC_TOTAL, PAGE)
    && Took(was.names, now.names, nameLen, NAME_SIZE, NAME_TOTAL, PAGE)
  }

  // What becomes of a request for a counter.
  datatype Outcome = Got(daddr: nat, vaddr: nat) | Refused | Panicked

  class Counters {
    const base: nat
    const dir: Bin
    const vec: Bin
    const names: Bin
    var mem: Memory
    ghost var entries: Entries

    // New shared memory, which is zero and mapped at base, without counters.
    constructor (base: nat, shared: Memory)
      requires Zero(shared)
      ensures Valid() && fresh(dir) && fresh(vec) && fresh(names) && entries == map[] && this.base == base
      ensures Uncarved(Held())
    {
      SizesStay();
      var dirBin := NewArea(DIR_SIZE, DIR_TOTAL, PAGE);
      var vecBin := NewArea(VEC_SIZE, VEC_TOTAL, PAGE);
      var nameBin := NewArea(NAME_SIZE, NAME_TOTAL, PAGE);
      dir, vec, names := dirBin, vecBin, nameBin;
      this.base, mem, entries := base, shared, map[];
      new;
      StartsEmpty();
    }

    lemma StartsEmpty()
      requires Sizes() && dir.Valid() && vec.Valid() && names.Valid() && Zero(mem) && entries == map[]
      requires dir.bins == [] && dir.objs == map[] && dir.live == {}
      ensures Valid()
    {
      NothingHeld(mem, entries);
    }

    ghost predicate Sizes()
      reads dir, vec, names
    {
      && dir != vec && vec != names && dir != names
      && dir.binsz == DIR_SIZE && dir.max == DIR_TOTAL && dir.pagesz == PAGE
      && vec.binsz == VEC_SIZE && vec.max == VEC_TOTAL && vec.pagesz == PAGE
      && names.binsz == NAME_SIZE && names.max == NAME_TOTAL && names.pagesz == PAGE
    }

    ghost predicate AreasOk()
      reads dir, vec, names
    {
      && Sizes() && dir.Valid() && vec.Valid() && names.Valid()
      && |dir.bins| <= 1 && forall b :: b in dir.objs ==> dir.objs[b] == DIR_SIZE
    }

    // The memory holds these entries, and their places are what the areas handed out.
    ghost predicate Booked(mem: Memory, entries: Entries)
      reads dir, vec, names
    {
      dir.live == entries.Keys && Keeps(mem, entries, dir.offset, AreaOf(vec), AreaOf(names))
    }

    ghost predicate Valid()
      reads this, dir, vec, names
    {
      AreasOk() && Booked(mem, entries)
    }

    ghost function Held(): Stocks
      reads dir, vec, names
    {
      Stocks(dir.Stocks(), vec.Stocks(), names.Stocks())
    }

    // The three areas each have room for their part of a new counter.
    ghost predicate CanGet(nameLen: nat, veclen: nat)
      requires Sizes()
      reads dir, vec, names
    {
      dir.Serves(DIR_SIZE) && vec.Serves(veclen) && names.Serves(nameLen)
    }

    // What a new counter's objects mean for its entry and the others.
    lemma NewEntry(d: nat, e: Entry)
      requires Sizes() && dir.Valid() && vec.Valid() && names.Valid()
      requires d in dir.objs && dir.objs[d] == DIR_SIZE && Allotted(e, AreaOf(vec), AreaOf(names))
      requires forall c :: c in entries ==> Allotted(entries[c], AreaOf(vec), AreaOf(names)) && Different(e, entries[c])
      ensures Placed(d, e) && forall c :: c in entries ==> Separate(e, entries[c])
    {
      assert Multiple(d, DIR_SIZE);
      InVec(e);
      InNames(e);
      forall c | c in entries ensures Separate(e, entries[c]) {
        PlacesApart(e, entries[c]);
      }
    }

    lemma InVec(e: Entry)
      requires Sizes() && vec.Valid() && InArea(e.voff, e.veclen, AreaOf(vec), VEC_SIZE)
      ensures e.voff + e.veclen <= VEC_TOTAL
    {
      SizesArePowers();
      ObjectIs(vec.objs, vec.offset, e.voff, e.veclen, VEC_SIZE, 3);
    }

    lemma InNames(e: Entry)
      requires Sizes() && names.Valid() && InArea(e.noff, |e.name|, AreaOf(names), NAME_SIZE)
      ensures e.noff + |e.name| <= NAME_TOTAL
    {
      SizesArePowers();
      ObjectIs(names.objs, names.offset, e.noff, |e.name|, NAME_SIZE, 5);
    }

    // Entries with objects of their own are apart.
    lemma PlacesApart(e: Entry, f: Entry)
      requires Sizes() && vec.Valid() && names.Valid() && Different(e, f)
      requires Allotted(e, AreaOf(vec), AreaOf(names)) && Allotted(f, AreaOf(vec), AreaOf(names))
      ensures Separate(e, f)
    {
      SizesArePowers();
      ObjectsApart(vec.objs, vec.offset, e.voff, f.voff, e.veclen, f.veclen, VEC_SIZE, 3);
      ObjectsApart(names.objs, names.offset, e.noff, f.noff, |e.name|, |f.name|, NAME_SIZE, 5);
    }

    lemma Separated()
      requires Valid()
      ensures AllSeparate(entries)
    {
      forall d, c | d in entries && c in entries && d != c ensures Separate(entries[d], entries[c]) {
        assert Different(entries[d], entries[c]);
        PlacesApart(entries[d], entries[c]);
      }
    }

    // Takes an object of each area that has one.
    method TakePlaces(nameLen: nat, veclen: nat) returns (d: Option<nat>, v: Option<nat>, n: Option<nat>)
      requires AreasOk() && nameLen <= HALF && veclen <= HALF
      modifies dir`offset, dir`bins, dir`objs, dir`live, vec`offset, vec`bins, vec`objs, vec`live, names`offset,
        names`bins, names`objs, names`live
      ensures AreasOk() && |dir.bins| == 1 && old(dir.offset) <= dir.offset
      ensures Drawn(old(AreaOf(dir)), AreaOf(dir), d, DIR_SIZE, DIR_SIZE) && (d.Some? <==> old(dir.Serves(DIR_SIZE)))
      ensures Drawn(old(AreaOf(vec)), AreaOf(vec), v, veclen, VEC_SIZE) && (v.Some? <==> old(vec.Serves(veclen)))
      ensures Drawn(old(AreaOf(names)), AreaOf(names), n, nameLen, NAME_SIZE)
        && (n.Some? <==> old(names.Serves(nameLen)))
      ensures d.Some? ==> Took(old(dir.Stocks()), dir.Stocks(), DIR_SIZE, dir.binsz, dir.max, dir.pagesz)
      ensures v.Some? ==> Took(old(vec.Stocks()), vec.Stocks(), veclen, vec.binsz, vec.max, vec.pagesz)
      ensures n.Some? ==> Took(old(names.Stocks()), names.Stocks(), nameLen, names.binsz, names.max, names.pagesz)
    {
      SizesStay();
      FitsEntryBin(DIR_SIZE);
      d := Take(dir, DIR_SIZE, DIR_SIZE);
      v := Take(vec, veclen, VEC_SIZE);
      n := Take(names, nameLen, NAME_SIZE);
    }

    lemma NewPlaces(d: nat, e: Entry, vec0: Area, names0: Area)
      requires Sizes() && dir.Valid() && vec.Valid() && names.Valid() && d !in entries && d in dir.objs
        && dir.objs[d] == DIR_SIZE
      requires AllAllotted(entries, vec0, names0) && Allotted(e, AreaOf(vec), AreaOf(names))
      requires Extended(vec0, AreaOf(vec), e.voff) && Extended(names0, AreaOf(names), e.noff)
      ensures Placed(d, e) && AllAllotted(entries[d := e], AreaOf(vec), AreaOf(names))
        && forall c :: c in entries ==> Separate(e, entries[c])
    {
      AllottedMore(entries, vec0, names0, AreaOf(vec), AreaOf(names), d, e);
      forall c | c in entries ensures Allotted(entries[c], AreaOf(vec), AreaOf(names)) {
        assert entries[c] == entries[d := e][c];
      }
      NewEntry(d, e);
    }

    // The memory after a change of the entries.
    method Store(now: Memory, ghost changed: Entries)
      requires AreasOk() && Booked(now, changed)
      modifies this`mem, this`entries
      ensures Valid() && mem == now && entries == changed
    {
      mem, entries := now, changed;
    }

    lemma EntryBooked(d: nat, e: Entry, now: Memory)
      requires Holds(mem, entries) && d !in entries && dir.live == entries.Keys + {d}
      requires Placed(d, e) && AllAllotted(entries[d := e], AreaOf(vec), AreaOf(names))
        && forall c :: c in entries ==> Separate(e, entries[c])
      requires ChangedOnly(mem, now, d, e) && Shown(now, d, e) && Covers(WordAt(now, 0), entries[d := e], dir.offset)
      ensures Booked(now, entries[d := e])
    {
      EntryAdded(mem, now, entries, d, e);
      assert entries[d := e].Keys == entries.Keys + {d};
    }

    // The number of directory entries carved so far covers every entry handed out.
    lemma AllCovered(out: Entries)
      requires AreasOk() && dir.live == out.Keys
      ensures Covers(dir.offset / DIR_SIZE, out, dir.offset)
    {
      assert Multiple(dir.offset, DIR_SIZE);
      forall d | d in out ensures d + DIR_SIZE <= dir.offset / DIR_SIZE * DIR_SIZE {
        assert d in dir.live && d in dir.objs;
      }
    }

    // Enters a counter that has got all its places.
    method Enter(name: seq<byte>, veclen: nat, d: nat, v: nat, n: nat, ghost vec0: Area, ghost names0: Area)
      requires AreasOk() && Holds(mem, entries) && AllAllotted(entries, vec0, names0)
      requires d !in entries && d in dir.objs && dir.live == entries.Keys + {d}
      requires Allotted(Entry(name, n, v, veclen), AreaOf(vec), AreaOf(names))
      requires Extended(vec0, AreaOf(vec), v) && Extended(names0, AreaOf(names), n)
      modifies this`mem, this`entries
      ensures Valid() && entries == old(entries)[d := Entry(name, n, v, veclen)]
    {
      ghost var e := Entry(name, n, v, veclen);
      NewPlaces(d, e, vec0, names0);
      AllCovered(entries[d := e]);
      var now := Record(mem, d, e, name, DIR_START + d, NAME_START + n,
        Dir(NAME_START + n, |name|, VEC_START + v, veclen), dir.offset / DIR_SIZE);
      EntryBooked(d, e, now);
      Store(now, entries[d := e]);
    }

    // Gives a directory entry back under the size of its counters. The directory has the one bin
    // of its entries, so this fails unless the counters take no more than an entry.
    method GiveEntryBack(d: nat, veclen: nat) returns (ok: bool)
      requires AreasOk() && |dir.bins| == 1 && veclen <= HALF && InArea(d, DIR_SIZE, AreaOf(dir), DIR_SIZE)
      modifies dir`bins, dir`live
      ensures ok <==> 0 < veclen <= DIR_SIZE
      ensures ok ==> AreasOk() && dir.live == old(dir.live) - {d}
    {
      SizesStay();
      if 0 < veclen {
        FitsEntryBin(veclen);
      }
      ok := dir.Free(d, veclen);
    }

    method ReleaseValues(off: nat, len: nat)
      requires AreasOk() && InArea(off, len, AreaOf(vec), VEC_SIZE)
      modifies vec`bins, vec`live
      ensures AreasOk() && AreaOf(vec) == old(AreaOf(vec)).(live := old(vec.live) - {off})
    {
      GiveBack(vec, off, len, VEC_SIZE);
    }

    // A request has taken what the areas had for it, and nothing is entered yet. The ghost arguments
    // are the areas before.
    ghost predicate Pending(d: Option<nat>, v: Option<nat>, n: Option<nat>, veclen: nat, nameLen: nat,
        offset0: nat, vec0: Area, names0: Area)
      reads this, dir, vec, names
    {
      && AreasOk() && |dir.bins| == 1 && offset0 <= dir.offset && Keeps(mem, entries, offset0, vec0, names0)
      && (if d.None? then dir.live == entries.Keys
          else && InArea(d.value, DIR_SIZE, AreaOf(dir), DIR_SIZE) && d.value !in entries
               && dir.live == entries.Keys + {d.value})
      && Drawn(vec0, AreaOf(vec), v, veclen, VEC_SIZE) && Drawn(names0, AreaOf(names), n, nameLen, NAME_SIZE)
    }

    // Without a new entry everything in the memory stays as it is, even if some area has handed out
    // or carved more.
    lemma PendingKeeps(d: Option<nat>, v: Option<nat>, n: Option<nat>, veclen: nat, nameLen: nat, offset0: nat,
        vec0: Area, names0: Area)
      requires Pending(d, v, n, veclen, nameLen, offset0, vec0, names0)
      ensures Keeps(mem, entries, dir.offset, AreaOf(vec), AreaOf(names))
      ensures v.Some? ==> Keeps(mem, entries, dir.offset, AreaOf(vec).(live := vec.live - {v.value}), AreaOf(names))
    {
      StillOutTaken(names0, AreaOf(names), n, nameLen, NAME_SIZE);
      StillOutTaken(vec0, AreaOf(vec), v, veclen, VEC_SIZE);
      KeepsStill(mem, entries, offset0, vec0, names0, dir.offset, AreaOf(vec), AreaOf(names));
      if v.Some? {
        KeepsStill(mem, entries, offset0, vec0, names0, dir.offset, AreaOf(vec).(live := vec.live - {v.value}),
          AreaOf(names));
      }
    }

    lemma PendingTaken(d: Option<nat>, v: Option<nat>, n: Option<nat>, veclen: nat, nameLen: nat, offset0: nat,
        vec0: Area, names0: Area)
      requires Pending(d, v, n, veclen, nameLen, offset0, vec0, names0)
      ensures vec.live == vec0.live + if v.Some? then {v.value} else {}
      ensures v.Some? ==> vec.live - {v.value} == vec0.live
      ensures d.Some? ==> dir.live - {d.value} == entries.Keys
    {
      if d.Some? {
        TakenBack(entries.Keys, dir.live, d.value);
      }
      StillOutTaken(vec0, AreaOf(vec), v, veclen, VEC_SIZE);
    }

    // Ends a request that did not get all its places: nothing is entered. Values taken without
    // a directory entry are not given back, and neither is a name.
    method GiveUp(d: Option<nat>, v: Option<nat>, ghost n: Option<nat>, veclen: nat, ghost nameLen: nat,
        ghost offset0: nat, ghost vec0: Area, ghost names0: Area)
      returns (r: Outcome)
      requires veclen <= HALF && Pending(d, v, n, veclen, nameLen, offset0, vec0, names0)
      modifies dir`bins, dir`live, vec`bins, vec`live
      ensures r == if d.None? || 0 < veclen <= DIR_SIZE then Refused else Panicked
      ensures r.Refused? ==> Valid() && vec.live == vec0.live + if d.None? && v.Some? then {v.value} else {}
    {
      PendingKeeps(d, v, n, veclen, nameLen, offset0, vec0, names0);
      PendingTaken(d, v, n, veclen, nameLen, offset0, vec0, names0);
      if d.Some? {
        var ok := GiveEntryBack(d.value, veclen);
        if !ok {
          return Panicked;
        }
        if v.Some? {
          ReleaseValues(v.value, veclen);
        }
      }
      r := Refused;
    }

    // Enters a counter that has got all its places, and returns where they are.
    method Admit(name: seq<byte>, veclen: nat, daddr: nat, vaddr: nat, naddr: nat, ghost offset0: nat, ghost vec0: Area,
        ghost names0: Area)
      returns (r: Outcome, ghost e: Entry)
      requires Pending(Some(daddr), Some(vaddr), Some(naddr), veclen, |name|, offset0, vec0, names0)
      modifies this`mem, this`entries
      ensures Valid() && daddr !in old(entries) && entries == old(entries)[daddr := e]
      ensures r == Located(daddr, e.voff) && e.name == name && e.veclen == veclen
    {
      e := Entry(name, naddr, vaddr, veclen);
      Enter(name, veclen, daddr, vaddr, naddr, vec0, names0);
      r := Located(daddr, vaddr);
    }

    // Enters the counter if it has got all its places.
    method Settle(name: seq<byte>, veclen: nat, daddr: Option<nat>, vaddr: Option<nat>, naddr: Option<nat>,
        ghost offset0: nat, ghost vec0: Area, ghost names0: Area)
      returns (r: Outcome, ghost d: nat, ghost e: Entry)
      requires veclen <= HALF && Pending(daddr, vaddr, naddr, veclen, |name|, offset0, vec0, names0)
      modifies this`mem, this`entries, dir`bins, dir`live, vec`bins, vec`live
      ensures r.Got? <==> daddr.Some? && vaddr.Some? && naddr.Some?
      ensures r.Panicked? <==> daddr.Some? && !r.Got? && !(0 < veclen <= DIR_SIZE)
      ensures !r.Panicked? ==> Valid()
      ensures r.Got? ==> d !in old(entries) && entries == old(entries)[d := e] && r == Located(d, e.voff)
      ensures r.Got? ==> e.name == name && e.veclen == veclen
      ensures !r.Got? ==> unchanged(this)
      ensures r.Got? ==> dir.bins == old(dir.bins) && vec.bins == old(vec.bins)
      ensures r.Refused? ==> vec.live == vec0.live + if daddr.None? && vaddr.Some? then {vaddr.value} else {}
    {
      d, e := 0, Entry(name, 0, 0, veclen);
      if daddr.Some? && vaddr.Some? && naddr.Some? {
        d := daddr.value;
        r, e := Admit(name, veclen, daddr.value, vaddr.value, naddr.value, offset0, vec0, names0);
      } else {
        r := GiveUp(daddr, vaddr, naddr, veclen, |name|, offset0, vec0, names0);
      }
    }

    // Where a counter is in memory.
    function Located(d: nat, voff: nat): Outcome {
      Got(base + DIR_START + d, base + VEC_START + voff)
    }

    // Allocates a counter of nvecs values if each of the three areas has room for its part. The result
    // is where its directory entry and its values are in memory. Otherwise no counter is added, and a
    // directory entry that was there for it is given back under the size of its counters, which
    // panics unless they take no more than an entry. The places of values that were taken without a
    // directory entry are lost, and so is a name's.
    method Get(name: seq<byte>, nvecs: nat) returns (r: Outcome, ghost d: nat, ghost e: Entry)
      requires Valid() && |name| <= HALF && nvecs * VEC_SIZE <= HALF
      modifies this`mem, this`entries
      modifies dir`offset, dir`bins, dir`objs, dir`live, vec`offset, vec`bins, vec`objs, vec`live, names`offset,
        names`bins, names`objs, names`live
      ensures r.Got? <==> old(CanGet(|name|, nvecs * VEC_SIZE))
      ensures r.Panicked? <==> old(dir.Serves(DIR_SIZE)) && !r.Got? && !(1 <= nvecs <= 2)
      ensures !r.Panicked? ==> Valid()
      ensures r.Got? ==> d !in old(entries) && entries == old(entries)[d := e] && r == Located(d, e.voff)
      ensures r.Got? ==> e.name == name && e.veclen == nvecs * VEC_SIZE
      ensures !r.Got? ==> unchanged(this)
      ensures r.Refused? ==>
        (vec.live != old(vec.live) <==> old(vec.Serves(nvecs * VEC_SIZE)) && !old(dir.Serves(DIR_SIZE)))
      ensures r.Refused? ==> (names.live != old(names.live) <==> old(names.Serves(|name|)))
      ensures r.Got? ==> Spent(old(Held()), Held(), |name|, nvecs * VEC_SIZE)
    {
      ghost var offset0, vec0, names0 := dir.offset, AreaOf(vec), AreaOf(names);
      var veclen := nvecs * VEC_SIZE;
      var daddr, vaddr, naddr := TakePlaces(|name|, veclen);
      r, d, e := Settle(name, veclen, daddr, vaddr, naddr, offset0, vec0, names0);
    }

    lemma EntryUnbooked(d: nat, now: Memory, vec0: Area, names0: Area)
      requires Keeps(mem, entries, dir.offset, vec0, names0)
      requires d in entries && dir.live == entries.Keys - {d} && AllSeparate(entries)
      requires AreaOf(vec) == vec0.(live := vec0.live - {entries[d].voff})
        && AreaOf(names) == names0.(live := names0.live - {entries[d].noff})
      requires ChangedOnly(mem, now, d, entries[d]) && Unused(now, d) && WordAt(now, 0) == WordAt(mem, 0)
      ensures Booked(now, entries - {d})
    {
      EntryRemoved(mem, now, entries, d);
      AllottedLess(entries, vec0, names0, d);
    }

    method ReleaseName(off: nat, len: nat)
      requires AreasOk() && InArea(off, len, AreaOf(names), NAME_SIZE)
      modifies names`bins, names`live
      ensures AreasOk() && AreaOf(names) == old(AreaOf(names)).(live := old(names.live) - {off})
    {
      GiveBack(names, off, len, NAME_SIZE);
    }

    method ReleaseEntry(d: nat)
      requires AreasOk() && InArea(d, DIR_SIZE, AreaOf(dir), DIR_SIZE)
      modifies dir`bins, dir`live
      ensures AreasOk() && dir.live == old(dir.live) - {d}
    {
      GiveBack(dir, d, DIR_SIZE, DIR_SIZE);
    }

    // Gives the places of a counter back, as its directory entry has them.
    method ReleasePlaces(d: nat, r: Dir, ghost e: Entry)
      requires AreasOk() && r == Stored(e) && Allotted(e, AreaOf(vec), AreaOf(names))
        && InArea(d, DIR_SIZE, AreaOf(dir), DIR_SIZE)
      modifies dir`bins, dir`live, vec`bins, vec`live, names`bins, names`live
      ensures AreasOk() && dir.live == old(dir.live) - {d}
      ensures AreaOf(vec) == old(AreaOf(vec)).(live := old(vec.live) - {e.voff})
      ensures AreaOf(names) == old(AreaOf(names)).(live := old(names.live) - {e.noff})
    {
      var noff, voff := r.nameOff - NAME_START, r.vecOff - VEC_START;
      assert noff == e.noff && voff == e.voff && r.nameLen == |e.name| && r.vecLen == e.veclen;
      ReleaseName(noff, r.nameLen);
      ReleaseValues(voff, r.vecLen);
      ReleaseEntry(d);
    }

    // What the memory and the areas have for an entry.
    lemma Found(d: nat)
      requires Valid() && d in entries
      ensures InArea(d, DIR_SIZE, AreaOf(dir), DIR_SIZE) && Allotted(entries[d], AreaOf(vec), AreaOf(names))
      ensures DirAt(mem, DIR_START + d) == Stored(entries[d]) && AllSeparate(entries)
    {
      SizesStay();
      Separated();
      assert Placed(d, entries[d]) && Shown(mem, d, entries[d]);
    }

    // Clears a directory entry whose places have been given back.
    method Erase(d: nat, ghost vec0: Area, ghost names0: Area)
      requires AreasOk() && Keeps(mem, entries, dir.offset, vec0, names0)
      requires d in entries && dir.live == entries.Keys - {d} && AllSeparate(entries)
      requires AreaOf(vec) == vec0.(live := vec0.live - {entries[d].voff})
        && AreaOf(names) == names0.(live := names0.live - {entries[d].noff})
      modifies this`mem, this`entries
      ensures Valid() && entries == old(entries) - {d}
    {
      var now := ClearDir(mem, d, entries[d]);
      EntryUnbooked(d, now, vec0, names0);
      Store(now, entries - {d});
    }

    // Frees the counter of a directory entry: it is gone from the table, and the others stay.
    method Free(daddr: nat, ghost d: nat)
      requires Valid() && d in entries && daddr == base + DIR_START + d
      modifies this`mem, this`entries, dir`bins, dir`live, vec`bins, vec`live, names`bins, names`live
      ensures Valid() && entries == old(entries) - {d} && dir.live == old(dir.live) - {d}
      ensures vec.live == old(vec.live) - {old(entries)[d].voff}
      ensures names.live == old(names.live) - {old(entries)[d].noff}
    {
      ghost var vec0, names0, e := AreaOf(vec), AreaOf(names), entries[d];
      Found(d);
      var at := daddr - base;
      var r := DirAt(mem, at);
      ReleasePlaces(at - DIR_START, r, e);
      Erase(at - DIR_START, vec0, names0);
    }

    // Every entry is among the directory entries that the header counts.
    lemma Counted()
      requires Valid()
      ensures WordAt(mem, 0) * DIR_SIZE <= DIR_TOTAL
      ensures forall d :: d in entries ==> d % DIR_SIZE == 0 && d < WordAt(mem, 0) * DIR_SIZE
    {
      forall d | d in entries ensures d % DIR_SIZE == 0 {
        assert d in dir.live && d in dir.objs && Multiple(d, DIR_SIZE);
      }
    }

    // Counter d is within the reader's limits, and the last of its name in the directory.
    ghost predicate Last(d: nat)
      reads this`entries
    {
      && d in entries && Listed(entries[d])
      && forall c :: c in entries && Listed(entries[c]) && d < c ==> entries[c].name != entries[d].name
    }

    lemma AllInTable()
      requires Valid()
      ensures forall d: nat :: InTable(entries, WordAt(mem, 0) * DIR_SIZE, d) <==> d in entries && Listed(entries[d])
      ensures forall d: nat :: LastNamed(entries, WordAt(mem, 0) * DIR_SIZE, d) <==> Last(d)
    {
      Counted();
    }

    // Writer and reader agree: whoever maps the memory, wherever it is mapped, finds in it exactly
    // the names of the counters there are, each with the addresses of the values of its last counter.
    method Snapshot(base: nat) returns (hash: map<seq<byte>, seq<nat>>)
      requires Valid()
      ensures forall d: nat :: Last(d) ==> MapsTo(hash, entries[d], base)
      ensures forall name :: name in hash ==> exists d: nat :: Last(d) && entries[d].name == name
    {
      Counted();
      AllInTable();
      hash := ReadAll(mem, base, entries);
      ListingIsExact(entries, WordAt(mem, 0), base);
      forall name | name in hash ensures exists d: nat :: Last(d) && entries[d].name == name {
        assert HasLast(entries, WordAt(mem, 0) * DIR_SIZE, name);
      }
    }
  }

  // An object of that many bytes goes to the one bin of directory entries, and has their size,
  // exactly if it takes no more than an entry.
  lemma FitsEntryBin(veclen: nat)
    requires 0 < veclen <= HALF
    ensures IndexOf(veclen, DIR_SIZE) == 0 <==> veclen <= DIR_SIZE
    ensures Rounded(veclen, DIR_SIZE) == DIR_SIZE <==> veclen <= DIR_SIZE
  {
    SizesArePowers();
    SizesStay();
    RoundedIs(veclen, 4);
    LargeEnough(veclen, 4);
    NextIsLeast(veclen, 4);
    ExpLength(4);
  }

  // Gives one back.
  method GiveBack(b: Bin, off: nat, len: nat, size: nat)
    requires b.Valid() && b.binsz == size && InArea(off, len, AreaOf(b), size)
    modifies b`bins, b`live
    ensures b.Valid() && AreaOf(b) == old(AreaOf(b)).(live := old(b.live) - {off}) && |b.bins| == |old(b.bins)|
  {
    b.HasItsBin(off, len);
    var _ := b.Free(off, len);
  }

  // Takes an object of an area, if there is one.
  method Take(b: Bin, len: nat, size: nat) returns (r: Option<nat>)
    requires b.Valid() && b.binsz == size && len <= HALF
    modifies b`offset, b`bins, b`objs, b`live
    ensures b.Valid() && Drawn(old(AreaOf(b)), AreaOf(b), r, len, size) && (r.Some? <==> old(b.Serves(len)))
    ensures forall x :: x in b.objs && x !in old(b.objs) ==> b.objs[x] == Rounded(len, size)
    ensures old(b.offset) <= b.offset
    ensures r.Some? ==> Took(old(b.Stocks()), b.Stocks(), len, size, b.max, b.pagesz)
    ensures len != 0 && |old(b.bins)| <= 1 && IndexOf(len, size) == 0 ==> |b.bins| == 1
  {
    r := b.Get(len);
  }

  ghost predicate Zero(mem: Memory) {
    forall x: nat :: At(mem, x) == 0
  }

  lemma NothingHeld(mem: Memory, entries: Entries)
    requires Zero(mem) && entries.Keys == {}
    ensures Holds(mem, entries)
  {
    forall d: nat | d % DIR_SIZE == 0 && d + DIR_SIZE <= DIR_TOTAL ensures Unused(mem, d) {
    }
  }

  lemma SizesArePowers()
    ensures VEC_SIZE == Exp(3) && DIR_SIZE == Exp(4) && NAME_SIZE == Exp(5) && PAGE == Exp(12)
  {
    assert Exp(1) == 2 && Exp(2) == 4 && Exp(3) == 8;
    assert Exp(4) == 2 * Exp(3) && Exp(5) == 2 * Exp(4);
    ExpSum(4, 4);
    ExpSum(4, 8);
  }

  lemma SizesStay()
    ensures NextPow2(VEC_SIZE) == VEC_SIZE && NextPow2(DIR_SIZE) == DIR_SIZE && NextPow2(NAME_SIZE) == NAME_SIZE
      && NextPow2(PAGE) == PAGE
  {
    SizesArePowers();
    PowerStays(3);
    PowerStays(4);
    PowerStays(5);
    PowerStays(12);
  }

  method WriteBytes(mem: Memory, at: nat, bytes: seq<byte>) returns (now: Memory)
    ensures forall x: nat :: At(now, x) == if at <= x < at + |bytes| then bytes[x - at] else At(mem, x)
  {
    now := mem;
    for n := 0 to |bytes|
      invariant forall x: nat :: At(now, x) == if at <= x < at + n then bytes[x - at] else At(mem, x)
    {
      ghost var was := now;
      now := now[at + n := bytes[n]];
      forall x: nat ensures At(now, x) == if at <= x < at + n + 1 then bytes[x - at] else At(mem, x) {
        assert At(now, x) == if x == at + n then bytes[n] else At(was, x);
      }
    }
  }

  method ClearDir(mem: Memory, d: nat, ghost e: Entry) returns (now: Memory)
    ensures ChangedOnly(mem, now, d, e) && Unused(now, d) && WordAt(now, 0) == WordAt(mem, 0)
  {
    now := PutDir(mem, DIR_START + d, Dir(0, 0, 0, 0));
    PutDirIs(mem, DIR_START + d, Dir(0, 0, 0, 0));
    SameWord(mem, now, 0);
  }

  lemma Recorded(mem: Memory, named: Memory, listed: Memory, now: Memory, d: nat, e: Entry)
    requires Placed(d, e) && Named(named, e) && DirAt(listed, DIR_START + d) == Stored(e)
    requires SameOutside(mem, named, NAME_START + e.noff, |e.name|)
      && SameOutside(named, listed, DIR_START + d, DIR_SIZE) && SameOutside(listed, now, 0, 4)
    ensures ChangedOnly(mem, now, d, e) && Shown(now, d, e)
  {
    SameDir(listed, now, DIR_START + d);
    forall k | 0 <= k < |e.name| ensures At(now, NAME_START + e.noff + k) == e.name[k] {
      var x := NAME_START + e.noff + k;
      assert At(now, x) == At(listed, x) && At(listed, x) == At(named, x);
    }
    forall x: nat | 4 <= x && !(DIR_START + d <= x < DIR_START + d + DIR_SIZE)
      && !(NAME_START + e.noff <= x < NAME_START + e.noff + |e.name|)
      ensures At(now, x) == At(mem, x)
    {
      assert At(now, x) == At(listed, x) && At(listed, x) == At(named, x) && At(named, x) == At(mem, x);
    }
  }

  method WriteName(mem: Memory, naddr: nat, name: seq<byte>, ghost e: Entry) returns (now: Memory)
    requires naddr == NAME_START + e.noff && name == e.name
    ensures Named(now, e) && SameOutside(mem, now, NAME_START + e.noff, |e.name|)
  {
    now := WriteBytes(mem, naddr, name);
    forall k | 0 <= k < |e.name| ensures At(now, NAME_START + e.noff + k) == e.name[k] {
      assert At(now, naddr + k) == name[k];
    }
  }

  method WriteDir(mem: Memory, daddr: nat, dir: Dir) returns (now: Memory)
    requires Words(dir)
    ensures DirAt(now, daddr) == dir && SameOutside(mem, now, daddr, DIR_SIZE)
  {
    now := PutDir(mem, daddr, dir);
    PutDirIs(mem, daddr, dir);
  }

  // Writes an entry's name and directory entry, and the number of directory entries there are.
  method Record(mem: Memory, ghost d: nat, ghost e: Entry, name: seq<byte>, daddr: nat, naddr: nat, dir: Dir,
      count: nat)
    returns (now: Memory)
    requires Placed(d, e) && name == e.name && daddr == DIR_START + d && naddr == NAME_START + e.noff
      && dir == Stored(e) && count < WORD
    ensures ChangedOnly(mem, now, d, e) && Shown(now, d, e) && WordAt(now, 0) == count
  {
    var named := WriteName(mem, naddr, name, e);
    var listed := WriteDir(named, daddr, dir);
    now := Put(listed, 0, WordBytes(count));
    WordRoundTrip(now, 0, count);
    Recorded(mem, named, listed, now, d, e);
  }

  lemma ObjectIs(objs: map<nat, nat>, offset: nat, a: nat, m: nat, binsz: nat, k: nat)
    requires Tiles(objs, offset) && a in objs && k <= 31 && binsz == Exp(k) && m <= HALF && objs[a] == Rounded(m, binsz)
    ensures a + m <= offset
  {
    LargeEnough(m, k);
  }

  lemma ObjectsApart(objs: map<nat, nat>, offset: nat, a: nat, b: nat, m: nat, n: nat, binsz: nat, k: nat)
    requires Tiles(objs, offset) && a in objs && b in objs && a != b && k <= 31 && binsz == Exp(k) && m <= HALF
      && n <= HALF
    requires objs[a] == Rounded(m, binsz) && objs[b] == Rounded(n, binsz)
    ensures a + m <= b || b + n <= a
    ensures a + m <= offset && b + n <= offset
  {
    LargeEnough(m, k);
    LargeEnough(n, k);
    assert Bins.Apart(objs, a, b);
  }
}
