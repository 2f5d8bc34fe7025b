/**
 The flavours of counters that callers ask for: single ones, pairs, and arrays of up to 32. Whoever
 gets none of their own shares a dummy. An array of none or of more than two, however, panics when
 there is nothing for it.
 */
module CounterFlavors {
  import opened Basics
  import opened PowerOfTwo
  import opened CounterMemory
  import opened Bins
  import opened CounterDirectory

  // Where a counter's directory entry and its first value are.
  datatype Place = Place(dir: nat, base: nat)

  datatype Dummies = Dummies(counter: Place, pktsbytes: Place, arrays: Place)

  // The texts dummy1, dummy2 and dummyN.
  const DUMMY_1: seq<byte> := [100, 117, 109, 109, 121, 49]
  const DUMMY_2: seq<byte> := [100, 117, 109, 109, 121, 50]
  const DUMMY_N: seq<byte> := [100, 117, 109, 109, 121, 78]

  /// ## How many objects there are

  // The bin of a size that is at most a power of two, and perhaps above another one.
  lemma SizeBetween(len: nat, k: nat, lo: nat, hi: nat, binsz: nat)
    requires binsz == Exp(k) && k <= hi <= 31 && 0 < len <= Exp(hi)
    ensures var m := k + IndexOf(len, binsz); m <= hi && Rounded(len, binsz) == Exp(m) && (Exp(lo) < len ==> lo < m)
  {
    ExpInHalf(hi);
    RoundedIs(len, k);
    NextIsLeast(len, hi);
    ExpGrows(k, hi);
    var m := k + IndexOf(len, binsz);
    ExpGrows(m, lo);
    ExpGrows(hi, m);
  }

  // A page of objects at a time.
  lemma PageOfObjects(m: nat, p: nat)
    requires m <= p
    ensures Batch(Exp(m), Exp(p)) == Exp(p) && ObjectsIn(Exp(p), Exp(m)) == Exp(p - m) > 0
  {
    BatchIs(m, p);
    Commutes(Exp(p - m), Exp(m));
    DivideBack(Exp(p - m), Exp(m));
  }

  lemma {:induction false} SupplyIs(n: nat, batch: nat, per: nat, room: int)
    requires batch > 0 && room == n * batch
    ensures Supply(room, batch, per) == n * per
  {
    if n == 0 {
      assert room == 0;
    } else {
      assert room == (n - 1) * batch + batch && n * per == (n - 1) * per + per;
      assert 0 <= (n - 1) * batch;
      SupplyIs(n - 1, batch, per, room - batch);
    }
  }

  // The bin of each size that callers ask for values of, and that a page is carved for it.
  lemma VecSizes(nvecs: nat)
    requires 1 <= nvecs <= VEC_MAX
    ensures var len := nvecs * VEC_SIZE; var i := IndexOf(len, VEC_SIZE);
      && i <= 5 && (nvecs == 1 ==> i == 0) && (nvecs == 2 ==> i == 1) && (nvecs > 2 ==> 2 <= i)
      && (nvecs == 32 ==> i == 5)
      && Batch(Rounded(len, VEC_SIZE), PAGE) == PAGE && ObjectsIn(PAGE, Rounded(len, VEC_SIZE)) == Exp(9 - i)
  {
    var len := nvecs * VEC_SIZE;
    SizesArePowers();
    MorePowers();
    SizeBetween(len, 3, if nvecs == 32 then 7 else if nvecs > 2 then 4 else 3,
                if nvecs == 1 then 3 else if nvecs == 2 then 4 else 8, VEC_SIZE);
    PageOfObjects(3 + IndexOf(len, VEC_SIZE), 12);
  }

  lemma MorePowers()
    ensures Exp(3) == 8 && Exp(4) == 16 && Exp(7) == 128 && Exp(8) == 256
  {
    assert Exp(1) == 2 && Exp(2) == 4 && Exp(3) == 8;
    assert Exp(4) == 2 * Exp(3) && Exp(5) == 2 * Exp(4) && Exp(6) == 2 * Exp(5);
    assert Exp(7) == 2 * Exp(6) && Exp(8) == 2 * Exp(7);
  }

  // Directory entries and short names have one bin each.
  lemma OtherSizes(nameLen: nat)
    requires 0 < nameLen <= NAME_SIZE
    ensures IndexOf(DIR_SIZE, DIR_SIZE) == 0 && Batch(Rounded(DIR_SIZE, DIR_SIZE), PAGE) == PAGE
      && ObjectsIn(PAGE, Rounded(DIR_SIZE, DIR_SIZE)) == 256
    ensures IndexOf(nameLen, NAME_SIZE) == 0 && Rounded(nameLen, NAME_SIZE) == NAME_SIZE
      && Batch(NAME_SIZE, PAGE) == PAGE && ObjectsIn(PAGE, NAME_SIZE) == 128
  {
    SizesArePowers();
    MorePowers();
    SizeBetween(DIR_SIZE, 4, 0, 4, DIR_SIZE);
    SizeBetween(nameLen, 5, 0, 5, NAME_SIZE);
    PageOfObjects(4, 12);
    PageOfObjects(5, 12);
  }

  // Whoever carves a page at a time has an object left as long as there is room for a page.
  lemma RoomForPage(s: Stock, now: Stock, size: nat, binsz: nat, max: nat)
    requires binsz > 0 && Batch(Rounded(size, binsz), PAGE) == PAGE && ObjectsIn(PAGE, Rounded(size, binsz)) > 0
    ensures s.offset + PAGE <= max ==> Left(s, size, binsz, max, PAGE) > 0
    ensures Took(s, now, size, binsz, max, PAGE) ==> now.offset <= s.offset + PAGE
  {
  }

  // Each area is carved up to so many pages at most.
  ghost predicate CarvedPages(s: Stocks, n: nat) {
    s.dir.offset <= n * PAGE && s.vec.offset <= n * PAGE && s.names.offset <= n * PAGE
  }

  // Each area has an object for a counter.
  ghost predicate Plenty(s: Stocks, nameLen: nat, veclen: nat) {
    && Left(s.dir, DIR_SIZE, DIR_SIZE, DIR_TOTAL, PAGE) > 0
    && Left(s.vec, veclen, VEC_SIZE, VEC_TOTAL, PAGE) > 0
    && Left(s.names, nameLen, NAME_SIZE, NAME_TOTAL, PAGE) > 0
  }

  lemma VecPages(s: Stock, now: Stock, n: nat, nvecs: nat)
    requires s.offset <= n * PAGE && 1 <= nvecs <= VEC_MAX
    ensures n < 3 ==> Left(s, nvecs * VEC_SIZE, VEC_SIZE, VEC_TOTAL, PAGE) > 0
    ensures Took(s, now, nvecs * VEC_SIZE, VEC_SIZE, VEC_TOTAL, PAGE) ==> now.offset <= (n + 1) * PAGE
  {
    VecSizes(nvecs);
    RoomForPage(s, now, nvecs * VEC_SIZE, VEC_SIZE, VEC_TOTAL);
  }

  lemma DirPages(s: Stock, now: Stock, n: nat)
    requires s.offset <= n * PAGE
    ensures n < 3 ==> Left(s, DIR_SIZE, DIR_SIZE, DIR_TOTAL, PAGE) > 0
    ensures Took(s, now, DIR_SIZE, DIR_SIZE, DIR_TOTAL, PAGE) ==> now.offset <= (n + 1) * PAGE
  {
    OtherSizes(1);
    RoomForPage(s, now, DIR_SIZE, DIR_SIZE, DIR_TOTAL);
  }

  lemma NamePages(s: Stock, now: Stock, n: nat, nameLen: nat)
    requires s.offset <= n * PAGE && 0 < nameLen <= NAME_SIZE
    ensures n < 3 ==> Left(s, nameLen, NAME_SIZE, NAME_TOTAL, PAGE) > 0
    ensures Took(s, now, nameLen, NAME_SIZE, NAME_TOTAL, PAGE) ==> now.offset <= (n + 1) * PAGE
  {
    OtherSizes(nameLen);
    RoomForPage(s, now, nameLen, NAME_SIZE, NAME_TOTAL);
  }

  lemma OneMorePage(s: Stocks, now: Stocks, n: nat, nameLen: nat, nvecs: nat)
    requires CarvedPages(s, n) && 0 < nameLen <= NAME_SIZE && 1 <= nvecs <= VEC_MAX
    ensures n < 3 ==> Plenty(s, nameLen, nvecs * VEC_SIZE)
    ensures Spent(s, now, nameLen, nvecs * VEC_SIZE) ==> CarvedPages(now, n + 1)
  {
    DirPages(s.dir, now.dir, n);
    VecPages(s.vec, now.vec, n, nvecs);
    NamePages(s.names, now.names, n, nameLen);
  }

  // The bins from 2 to 4 are empty, for the sizes of 3 to 16 values.
  ghost predicate NoneBetween(bins: seq<seq<nat>>) {
    forall j: nat {:trigger BinAt(bins, j)} :: 2 <= j < 5 ==> BinAt(bins, j) == []
  }

  // There are n objects for arrays of 32 and none for other arrays but in new pages, and more than n
  // directory entries and short names.
  ghost predicate ArraysLeft(s: Stocks, nameLen: nat, n: nat) {
    && Left(s.vec, VEC_MAX * VEC_SIZE, VEC_SIZE, VEC_TOTAL, PAGE) == n && NoneBetween(s.vec.bins)
    && Left(s.dir, DIR_SIZE, DIR_SIZE, DIR_TOTAL, PAGE) > n && Left(s.names, nameLen, NAME_SIZE, NAME_TOTAL, PAGE) > n
  }

  // After the dummies there are 15 arrays of 32 in the bin and 16 in each of 4093 pages.
  const ARRAYS: nat := 65503

  lemma VecAfterDummies(s0: Stock, s1: Stock, s2: Stock, s3: Stock)
    requires s0.bins == [] && s0.offset == 0 && Took(s0, s1, 1 * VEC_SIZE, VEC_SIZE, VEC_TOTAL, PAGE)
    requires Took(s1, s2, 2 * VEC_SIZE, VEC_SIZE, VEC_TOTAL, PAGE)
      && Took(s2, s3, VEC_MAX * VEC_SIZE, VEC_SIZE, VEC_TOTAL, PAGE)
    ensures Left(s3, VEC_MAX * VEC_SIZE, VEC_SIZE, VEC_TOTAL, PAGE) == ARRAYS && NoneBetween(s3.bins)
  {
    VecSizes(1);
    VecSizes(2);
    VecSizes(VEC_MAX);
    assert KeptBin(s0, s1, 1);
    forall j: nat | 2 <= j <= 5 ensures BinAt(s2.bins, j) == [] {
      assert KeptBin(s0, s1, j) && KeptBin(s1, s2, j);
    }
    assert Exp(9 - 5) == 16 by { MorePowers(); }
    SupplyIs(4094, PAGE, 16, VEC_TOTAL - s2.offset);
    forall j: nat | 2 <= j < 5 ensures BinAt(s3.bins, j) == [] {
      assert KeptBin(s2, s3, j);
    }
  }

  // A size that is taken three times from the start, a page at a time.
  lemma OthersAfterDummies(s0: Stocks, s1: Stocks, s2: Stocks, s3: Stocks, dummyLen: nat, nameLen: nat)
    requires Uncarved(s0) && 0 < dummyLen <= NAME_SIZE && 0 < nameLen <= NAME_SIZE
    requires Spent(s0, s1, dummyLen, 1 * VEC_SIZE) && Spent(s1, s2, dummyLen, 2 * VEC_SIZE)
      && Spent(s2, s3, dummyLen, VEC_MAX * VEC_SIZE)
    ensures Left(s3.dir, DIR_SIZE, DIR_SIZE, DIR_TOTAL, PAGE) > ARRAYS
      && Left(s3.names, nameLen, NAME_SIZE, NAME_TOTAL, PAGE) > ARRAYS
  {
    OtherSizes(dummyLen);
    OtherSizes(nameLen);
    SupplyIs(1024, PAGE, 256, DIR_TOTAL);
    SupplyIs(8192, PAGE, 128, NAME_TOTAL);
  }

  // What is left when the dummies have been made, whatever the names that come.
  ghost predicate Stocked(s: Stocks) {
    forall nameLen: nat :: 0 < nameLen <= NAME_SIZE ==> ArraysLeft(s, nameLen, ARRAYS)
  }

  // From the start on, counters of these sizes were taken under names of one length.
  ghost predicate Trail(t: seq<Stocks>, nameLen: nat, sizes: seq<nat>) {
    && |t| == |sizes| + 1 && Uncarved(t[0])
    && forall i {:trigger Step(t, nameLen, sizes, i)} :: 0 <= i < |sizes| ==> Step(t, nameLen, sizes, i)
  }

  ghost predicate Step(t: seq<Stocks>, nameLen: nat, sizes: seq<nat>, i: nat)
    requires i < |sizes| && i + 1 < |t|
  {
    Spent(t[i], t[i + 1], nameLen, sizes[i] * VEC_SIZE)
  }

  lemma TrailOn(t: seq<Stocks>, now: Stocks, nameLen: nat, sizes: seq<nat>, nvecs: nat)
    requires Trail(t, nameLen, sizes) && CarvedPages(t[|sizes|], |sizes|)
    requires 0 < nameLen <= NAME_SIZE && 1 <= nvecs <= VEC_MAX && Spent(t[|sizes|], now, nameLen, nvecs * VEC_SIZE)
    ensures Trail(t + [now], nameLen, sizes + [nvecs]) && CarvedPages(now, |sizes| + 1)
  {
    OneMorePage(t[|sizes|], now, |sizes|, nameLen, nvecs);
    forall i | 0 <= i < |sizes| + 1 ensures Step(t + [now], nameLen, sizes + [nvecs], i) {
      if i < |sizes| {
        assert Step(t, nameLen, sizes, i);
      }
    }
  }

  lemma AfterDummies(t: seq<Stocks>, dummyLen: nat, sizes: seq<nat>)
    requires 0 < dummyLen <= NAME_SIZE && sizes == [] + [1] + [2] + [VEC_MAX] && Trail(t, dummyLen, sizes)
    ensures Stocked(t[|sizes|])
  {
    var s0, s1, s2, s3 := t[0], t[1], t[2], t[3];
    ThreeSteps(t, dummyLen, sizes, 1, 2, VEC_MAX);
    VecAfterDummies(s0.vec, s1.vec, s2.vec, s3.vec);
    forall nameLen: nat | 0 < nameLen <= NAME_SIZE ensures ArraysLeft(s3, nameLen, ARRAYS) {
      OthersAfterDummies(s0, s1, s2, s3, dummyLen, nameLen);
    }
  }

  lemma ThreeSteps(t: seq<Stocks>, dummyLen: nat, sizes: seq<nat>, a: nat, b: nat, c: nat)
    requires sizes == [] + [a] + [b] + [c] && Trail(t, dummyLen, sizes)
    ensures Spent(t[0], t[1], dummyLen, a * VEC_SIZE) && Spent(t[1], t[2], dummyLen, b * VEC_SIZE)
      && Spent(t[2], t[3], dummyLen, c * VEC_SIZE)
  {
    assert sizes == [a, b, c];
    assert Step(t, dummyLen, sizes, 0) && Step(t, dummyLen, sizes, 1) && Step(t, dummyLen, sizes, 2);
  }

  /// ## The pool

  // A name is cut off at the size of two name objects: the longest part of it from its start that fits.
  function Clipped(name: seq<byte>): (r: seq<byte>)
    ensures r <= name && |r| <= NAME_MAX * NAME_SIZE <= HALF
    ensures |r| < |name| ==> |r| == NAME_MAX * NAME_SIZE
  {
    if |name| > NAME_MAX * NAME_SIZE then name[..NAME_MAX * NAME_SIZE] else name
  }

  // Counter e with directory entry d is at place p.
  ghost predicate IsAt(c: Counters, p: Place, d: nat, e: Entry) {
    p == Place(c.base + DIR_START + d, c.base + VEC_START + e.voff)
  }

  // The counters there are are the dummies.
  ghost predicate HasDummies(c: Counters, dummies: Dummies)
    reads c
  {
    exists d1, d2, d3, e1, e2, e3 ::
      && IsAt(c, dummies.counter, d1, e1) && IsAt(c, dummies.pktsbytes, d2, e2) && IsAt(c, dummies.arrays, d3, e3)
      && AreDummies(c.entries, d1, d2, d3, e1, e2, e3)
  }

  ghost predicate AreDummies(entries: Entries, d1: nat, d2: nat, d3: nat, e1: Entry, e2: Entry, e3: Entry) {
    && d1 != d2 && d2 != d3 && d1 != d3 && entries == map[d1 := e1, d2 := e2, d3 := e3]
    && e1.name == DUMMY_1 && e2.name == DUMMY_2 && e3.name == DUMMY_N
    && e1.veclen == 1 * VEC_SIZE && e2.veclen == 2 * VEC_SIZE && e3.veclen == VEC_MAX * VEC_SIZE
  }

  // A counter can be had exactly while each area has an object for it.
  lemma ServedWhilePlenty(c: Counters, nameLen: nat, veclen: nat)
    requires c.Valid() && 0 < nameLen < WORD && 0 < veclen < WORD
    ensures c.CanGet(nameLen, veclen) <==> Plenty(c.Held(), nameLen, veclen)
  {
    c.dir.ServedWhileLeft(DIR_SIZE);
    c.vec.ServedWhileLeft(veclen);
    c.names.ServedWhileLeft(nameLen);
  }

  method Obtain(c: Counters, name: seq<byte>, nvecs: nat) returns (p: Place, ghost d: nat, ghost e: Entry)
    requires 0 < |name| <= NAME_SIZE && 1 <= nvecs <= VEC_MAX && c.Valid()
    requires Plenty(c.Held(), |name|, nvecs * VEC_SIZE)
    modifies c, c.dir, c.vec, c.names
    ensures c.Valid() && Spent(old(c.Held()), c.Held(), |name|, nvecs * VEC_SIZE)
    ensures d !in old(c.entries) && c.entries == old(c.entries)[d := e] && IsAt(c, p, d, e)
      && e.name == name && e.veclen == nvecs * VEC_SIZE
  {
    ServedWhilePlenty(c, |name|, nvecs * VEC_SIZE);
    var r, at, entry := c.Get(name, nvecs);
    p, d, e := Place(r.daddr, r.vaddr), at, entry;
  }

  // The areas are what is left after that trail of up to three dummies.
  ghost predicate At(c: Counters, t: seq<Stocks>, nameLen: nat, sizes: seq<nat>)
    reads c, c.dir, c.vec, c.names
  {
    Trail(t, nameLen, sizes) && t[|sizes|] == c.Held() && CarvedPages(t[|sizes|], |sizes|)
  }

  // One of the dummies; there is always room for them.
  method MakeDummy(c: Counters, name: seq<byte>, nvecs: nat, ghost t: seq<Stocks>, ghost sizes: seq<nat>)
    returns (p: Place, ghost now: seq<Stocks>, ghost taken: seq<nat>, ghost d: nat, ghost e: Entry)
    requires 0 < |name| <= NAME_SIZE && 1 <= nvecs <= VEC_MAX && |sizes| < 3
    requires c.Valid() && At(c, t, |name|, sizes)
    modifies c, c.dir, c.vec, c.names
    ensures c.Valid() && taken == sizes + [nvecs] && At(c, now, |name|, taken)
    ensures d !in old(c.entries) && c.entries == old(c.entries)[d := e] && IsAt(c, p, d, e)
      && e.name == name && e.veclen == nvecs * VEC_SIZE
  {
    OneMorePage(t[|sizes|], t[|sizes|], |sizes|, |name|, nvecs);
    p, d, e := Obtain(c, name, nvecs);
    now, taken := t + [c.Held()], sizes + [nvecs];
    TrailOn(t, c.Held(), |name|, sizes, nvecs);
  }

  method MakeSmall(c: Counters)
    returns (one: Place, two: Place, ghost t: seq<Stocks>, ghost sizes: seq<nat>, ghost d1: nat, ghost d2: nat,
      ghost e1: Entry, ghost e2: Entry)
    requires c.Valid() && c.entries == map[] && Uncarved(c.Held())
    modifies c, c.dir, c.vec, c.names
    ensures c.Valid() && sizes == [] + [1] + [2] && At(c, t, |DUMMY_1|, sizes)
    ensures d1 != d2 && c.entries == map[d1 := e1, d2 := e2] && IsAt(c, one, d1, e1) && IsAt(c, two, d2, e2)
      && e1.name == DUMMY_1 && e2.name == DUMMY_2 && e1.veclen == 1 * VEC_SIZE && e2.veclen == 2 * VEC_SIZE
  {
    t, sizes := [c.Held()], [];
    one, t, sizes, d1, e1 := MakeDummy(c, DUMMY_1, 1, t, sizes);
    two, t, sizes, d2, e2 := MakeDummy(c, DUMMY_2, 2, t, sizes);
  }

  method MakeLarge(c: Counters, ghost t: seq<Stocks>, ghost sizes: seq<nat>)
    returns (many: Place, ghost d: nat, ghost e: Entry)
    requires c.Valid() && sizes == [] + [1] + [2] && At(c, t, |DUMMY_1|, sizes)
    modifies c, c.dir, c.vec, c.names
    ensures c.Valid() && Stocked(c.Held())
    ensures d !in old(c.entries) && c.entries == old(c.entries)[d := e] && IsAt(c, many, d, e)
      && e.name == DUMMY_N && e.veclen == VEC_MAX * VEC_SIZE
  {
    ghost var now, taken;
    many, now, taken, d, e := MakeDummy(c, DUMMY_N, VEC_MAX, t, sizes);
    AfterDummies(now, |DUMMY_1|, taken);
  }

  method MakeDummies(c: Counters) returns (dummies: Dummies)
    requires c.Valid() && c.entries == map[] && Uncarved(c.Held())
    modifies c, c.dir, c.vec, c.names
    ensures c.Valid() && HasDummies(c, dummies) && Stocked(c.Held())
  {
    var one, two, t, sizes, d1, d2, e1, e2 := MakeSmall(c);
    var many, d3, e3 := MakeLarge(c, t, sizes);
    dummies := Dummies(one, two, many);
    assert AreDummies(c.entries, d1, d2, d3, e1, e2, e3);
  }

  // A reader that has the memory mapped there lists the counter, with its values at these addresses.
  ghost predicate ReadAs(base: nat, e: Entry, all: seq<nat>) {
    Listed(e) && Addresses(base, e) == all
  }

  lemma HandedOutAsRead(base: nat, e: Entry, nvecs: nat, first: nat)
    requires e.veclen == nvecs * VEC_SIZE && nvecs <= VEC_MAX && |e.name| <= NAME_MAX * NAME_SIZE
    requires first == base + VEC_START + e.voff
    ensures ReadAs(base, e, Consecutive(first, nvecs))
  {
    assert e.veclen / VEC_SIZE == nvecs;
  }

  lemma OneOrTwo(first: nat)
    ensures Consecutive(first, 1) == [first] && Consecutive(first, 2) == [first, first + VEC_SIZE]
  {
  }

  // A pool of counters with the dummies.
  class Pool {
    const counters: Counters
    const dummies: Dummies

    ghost predicate Valid()
      reads counters, counters.dir, counters.vec, counters.names
    {
      counters.Valid()
    }

    // A new pool holds the three dummies and no other counter.
    constructor (base: nat, shared: Memory)
      requires Zero(shared)
      ensures Valid() && fresh(counters) && fresh(counters.dir) && fresh(counters.vec) && fresh(counters.names)
      ensures counters.base == base && HasDummies(counters, dummies) && Stocked(counters.Held())
    {
      var c := new Counters(base, shared);
      var found := MakeDummies(c);
      counters, dummies := c, found;
    }

    // A counter of the caller's own if there is one, or else the dummy, unless the request panics.
    method HandOut(name: seq<byte>, nvecs: nat, dummy: Place) returns (r: Option<Place>, ghost d: nat, ghost e: Entry)
      requires Valid() && nvecs <= VEC_MAX
      modifies counters, counters.dir, counters.vec, counters.names
      ensures r.None? <==> old(counters.dir.Serves(DIR_SIZE)) && !old(Available(name, nvecs)) && !(1 <= nvecs <= 2)
      ensures r.Some? ==> Valid()
      ensures old(Available(name, nvecs)) ==>
        r.Some? && Added(old(counters.entries), counters.entries, r.value, d, e, name, nvecs)
          && Spent(old(counters.Held()), counters.Held(), |Clipped(name)|, nvecs * VEC_SIZE)
      ensures old(Available(name, nvecs)) ==> ReadAs(counters.base, e, Consecutive(r.value.base, nvecs))
      ensures r.Some? && !old(Available(name, nvecs)) ==> r.value == dummy && counters.entries == old(counters.entries)
    {
      var got, at, entry := counters.Get(Clipped(name), nvecs);
      d, e := at, entry;
      match got
      case Got(daddr, vaddr) =>
        r := Some(Place(daddr, vaddr));
        HandedOutAsRead(counters.base, e, nvecs, vaddr);
      case Refused => r := Some(dummy);
      case Panicked => r := None;
    }

    ghost predicate Available(name: seq<byte>, nvecs: nat)
      requires Valid()
      reads counters, counters.dir, counters.vec, counters.names
    {
      counters.CanGet(|Clipped(name)|, nvecs * VEC_SIZE)
    }

    // Counter e of nvecs values is new, at place p.
    ghost predicate Added(was: Entries, now: Entries, p: Place, d: nat, e: Entry, name: seq<byte>, nvecs: nat) {
      && d !in was && now == was[d := e] && IsAt(counters, p, d, e)
      && e.name == Clipped(name) && e.veclen == nvecs * VEC_SIZE
    }

    // A single counter is always handed out: a new one under that name, or the dummy.
    method NewCounter(name: seq<byte>) returns (p: Place, ghost d: nat, ghost e: Entry)
      requires Valid()
      modifies counters, counters.dir, counters.vec, counters.names
      ensures Valid()
      ensures if old(Available(name, 1)) then Added(old(counters.entries), counters.entries, p, d, e, name, 1)
        else p == dummies.counter && counters.entries == old(counters.entries)
      ensures old(Available(name, 1)) ==> ReadAs(counters.base, e, [p.base])
    {
      var r, at, entry := HandOut(name, 1, dummies.counter);
      p, d, e := r.value, at, entry;
      OneOrTwo(p.base);
    }

    // So is a pair of counters.
    method NewPktsBytes(name: seq<byte>) returns (dir: nat, pkts: nat, bytes: nat, ghost d: nat, ghost e: Entry)
      requires Valid()
      modifies counters, counters.dir, counters.vec, counters.names
      ensures Valid() && bytes == pkts + VEC_SIZE
      ensures if old(Available(name, 2)) then
          Added(old(counters.entries), counters.entries, Place(dir, pkts), d, e, name, 2)
        else Place(dir, pkts) == dummies.pktsbytes && counters.entries == old(counters.entries)
      ensures old(Available(name, 2)) ==> ReadAs(counters.base, e, [pkts, bytes])
    {
      var r, at, entry := HandOut(name, 2, dummies.pktsbytes);
      dir, pkts, d, e := r.value.dir, r.value.base, at, entry;
      bytes := pkts + VEC_SIZE;
      OneOrTwo(pkts);
    }

    // An array of at most 32 counters is handed out in the same way, except that without an object for
    // one of its parts it panics if it is for none or more than two.
    method NewArray(name: seq<byte>, size: nat) returns (r: Option<CounterArray>, ghost d: nat, ghost e: Entry)
      requires Valid()
      modifies counters, counters.dir, counters.vec, counters.names
      ensures var nvecs := Capped(size);
        r.None? <==> old(counters.dir.Serves(DIR_SIZE)) && !old(Available(name, nvecs)) && !(1 <= size <= 2)
      ensures r.Some? ==> Valid() && r.value.all == Consecutive(r.value.base, Capped(size))
      ensures var nvecs := Capped(size);
        old(Available(name, nvecs)) ==>
          r.Some? && Added(old(counters.entries), counters.entries, Place(r.value.dir, r.value.base), d, e, name, nvecs)
            && Spent(old(counters.Held()), counters.Held(), |Clipped(name)|, nvecs * VEC_SIZE)
      ensures r.Some? && old(Available(name, Capped(size))) ==>
        ReadAs(counters.base, e, r.value.all)
      ensures r.Some? && !old(Available(name, Capped(size))) ==>
        Place(r.value.dir, r.value.base) == dummies.arrays && counters.entries == old(counters.entries)
    {
      var veclen := Capped(size);
      var p, at, entry := HandOut(name, veclen, dummies.arrays);
      d, e := at, entry;
      if p.None? {
        return None, d, e;
      }
      var all := Addressed(p.value.base, veclen);
      r := Some(CounterArray(p.value.dir, p.value.base, all));
    }
  }

  // An array's directory entry, its first counter and all of them.
  datatype CounterArray = CounterArray(dir: nat, base: nat, all: seq<nat>)

  function Capped(size: nat): nat {
    if size < VEC_MAX then size else VEC_MAX
  }

  function Consecutive(base: nat, n: nat): seq<nat> {
    seq(n, i requires 0 <= i => base + i * VEC_SIZE)
  }

  method Addressed(base: nat, veclen: nat) returns (all: seq<nat>)
    ensures all == Consecutive(base, veclen)
  {
    all := [];
    for i := 0 to veclen
      invariant all == Consecutive(base, i)
    {
      all := all + [base + i * VEC_SIZE];
    }
  }

  /// ## Requests that panic

  // An array of no counters panics already in a new pool.
  method EmptyArrayPanics(base: nat, shared: Memory, name: seq<byte>) returns (panicked: bool)
    requires Zero(shared)
    ensures panicked
  {
    var pool := new Pool(base, shared);
    assert ArraysLeft(pool.counters.Held(), 1, ARRAYS);
    pool.counters.dir.ServedWhileLeft(DIR_SIZE);
    var r, _, _ := pool.NewArray(name, 0);
    panicked := r.None?;
  }

  lemma OneArrayLess(s: Stocks, now: Stocks, nameLen: nat, n: nat)
    requires ArraysLeft(s, nameLen, n + 1) && Spent(s, now, nameLen, VEC_MAX * VEC_SIZE)
    ensures ArraysLeft(now, nameLen, n)
  {
    VecSizes(VEC_MAX);
    forall j: nat | 2 <= j < 5 ensures BinAt(now.vec.bins, j) == [] {
      assert KeptBin(s.vec, now.vec, j);
    }
  }

  // Without objects for arrays of 32 there are none for more than two counters either.
  lemma NoArrays(s: Stocks, nameLen: nat, nvecs: nat)
    requires ArraysLeft(s, nameLen, 0) && 3 <= nvecs <= VEC_MAX
    ensures Left(s.vec, nvecs * VEC_SIZE, VEC_SIZE, VEC_TOTAL, PAGE) == 0
  {
    VecSizes(VEC_MAX);
    VecSizes(nvecs);
  }

  // A pool after so many arrays of 32 counters that there is no object for another one.
  method FillArrays(base: nat, shared: Memory, name: seq<byte>) returns (pool: Pool)
    requires Zero(shared) && 0 < |name| <= NAME_SIZE
    ensures fresh(pool.counters) && fresh(pool.counters.dir) && fresh(pool.counters.vec) && fresh(pool.counters.names)
    ensures pool.Valid() && ArraysLeft(pool.counters.Held(), |name|, 0)
  {
    pool := new Pool(base, shared);
    for n := ARRAYS downto 0
      invariant fresh(pool.counters) && fresh(pool.counters.dir) && fresh(pool.counters.vec)
        && fresh(pool.counters.names)
      invariant pool.Valid() && ArraysLeft(pool.counters.Held(), |name|, n)
    {
      MakeArray(pool, name, n);
    }
  }

  lemma ArrayAvailable(c: Counters, nameLen: nat, n: nat)
    requires c.Valid() && 0 < nameLen <= NAME_SIZE && ArraysLeft(c.Held(), nameLen, n + 1)
    ensures c.CanGet(nameLen, VEC_MAX * VEC_SIZE)
  {
    ServedWhilePlenty(c, nameLen, VEC_MAX * VEC_SIZE);
  }

  method MakeArray(pool: Pool, name: seq<byte>, ghost n: nat)
    requires pool.Valid() && 0 < |name| <= NAME_SIZE && ArraysLeft(pool.counters.Held(), |name|, n + 1)
    modifies pool.counters, pool.counters.dir, pool.counters.vec, pool.counters.names
    ensures pool.Valid() && ArraysLeft(pool.counters.Held(), |name|, n)
  {
    ghost var was := pool.counters.Held();
    ArrayAvailable(pool.counters, |name|, n);
    var r, _, _ := pool.NewArray(name, VEC_MAX);
    OneArrayLess(was, pool.counters.Held(), |name|, n);
  }

  lemma NoneAvailable(c: Counters, nameLen: nat, nvecs: nat)
    requires c.Valid() && 0 < nameLen <= NAME_SIZE && ArraysLeft(c.Held(), nameLen, 0) && 3 <= nvecs <= VEC_MAX
    ensures c.dir.Serves(DIR_SIZE) && !c.CanGet(nameLen, nvecs * VEC_SIZE)
  {
    NoArrays(c.Held(), nameLen, nvecs);
    ServedWhilePlenty(c, nameLen, nvecs * VEC_SIZE);
    c.dir.ServedWhileLeft(DIR_SIZE);
  }

  // After 65503 arrays of 32 counters an array of any size but 1 and 2 panics.
  method FullArrayPanics(base: nat, shared: Memory, name: seq<byte>, size: nat) returns (panicked: bool)
    requires Zero(shared) && 0 < |name| <= NAME_SIZE && 3 <= size
    ensures panicked
  {
    var pool := FillArrays(base, shared, name);
    NoneAvailable(pool.counters, |name|, Capped(size));
    var r, _, _ := pool.NewArray(name, size);
    panicked := r.None?;
  }
}
