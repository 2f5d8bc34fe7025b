/**
 The power-of-two allocator of the counter memory. A range of addresses from 0 up is carved into
 objects whose sizes are powers of two; an object stays what it is, and is at any time
 either handed out or in the bin of its size. Sizes are 32-bit words that wrap around.
 */
module Bins {
  import opened Basics
  import opened FloorDivision
  import opened PowerOfTwo

  // The objects of that many bytes carved from an offset on, as the bin receives them: last first.
  function Carved(offset: nat, size: nat, n: nat): seq<nat>
    decreases n
  {
    if n == 0 then [] else Carved(offset + size, size, n - 1) + [offset]
  }

  // Objects that overlap nowhere.
  ghost predicate Apart(objs: map<nat, nat>, a: nat, b: nat)
    requires a in objs && b in objs
  {
    a + objs[a] <= b || b + objs[b] <= a
  }

  ghost predicate Covered(objs: map<nat, nat>, address: nat) {
    exists b :: b in objs && b <= address < b + objs[b]
  }

  // Every address below the offset is in one object, and none above is in any.
  ghost predicate Tiles(objs: map<nat, nat>, offset: nat) {
    && (forall a, b {:trigger Apart(objs, a, b)} :: a in objs && b in objs && a != b ==> Apart(objs, a, b))
    && (forall a :: a in objs ==> 0 < objs[a] && a + objs[a] <= offset)
    && (forall x {:trigger Covered(objs, x)} :: 0 <= x < offset ==> Covered(objs, x))
  }

  lemma TilesOnce(objs: map<nat, nat>, offset: nat, x: nat, a: nat, b: nat)
    requires Tiles(objs, offset) && a in objs && b in objs && a <= x < a + objs[a] && b <= x < b + objs[b]
    ensures a == b
  {
    assert a != b ==> Apart(objs, a, b);
  }

  // The next object at the end of the range.
  lemma TilesMore(objs: map<nat, nat>, offset: nat, size: nat)
    requires Tiles(objs, offset) && size > 0
    ensures offset !in objs && Tiles(objs[offset := size], offset + size)
  {
    var more := objs[offset := size];
    assert offset !in objs;
    forall a, b | a in more && b in more && a != b ensures Apart(more, a, b) {
      if a != offset && b != offset {
        assert Apart(objs, a, b);
      }
    }
    forall x | 0 <= x < offset + size ensures Covered(more, x) {
      if x < offset {
        assert Covered(objs, x);
        var b :| b in objs && b <= x < b + objs[b];
        assert b in more && more[b] == objs[b];
      } else {
        assert offset in more;
      }
    }
  }

  function BinAt(bins: seq<seq<nat>>, i: nat): seq<nat> {
    if i < |bins| then bins[i] else []
  }

  // A bin holds objects of its size that are not handed out, each once.
  ghost predicate BinOk(bins: seq<seq<nat>>, i: nat, objs: map<nat, nat>, live: set<nat>, binsz: nat) {
    NoDup(BinAt(bins, i)) && forall b :: b in BinAt(bins, i) ==> b in objs && objs[b] == binsz * Exp(i) && b !in live
  }

  ghost predicate InBin(b: nat, bins: seq<seq<nat>>) {
    exists i: nat {:trigger BinAt(bins, i)} :: b in BinAt(bins, i)
  }

  // The objects are those handed out and those in the bins.
  ghost predicate Sorted(bins: seq<seq<nat>>, objs: map<nat, nat>, live: set<nat>, binsz: nat) {
    && (forall i: nat {:trigger BinAt(bins, i)} :: BinOk(bins, i, objs, live, binsz))
    && (forall b :: b in live ==> b in objs)
    && (forall b {:trigger InBin(b, bins)} :: b in objs && b !in live ==> InBin(b, bins))
    && (forall b {:trigger HasBin(objs[b], |bins|, binsz)} :: b in objs ==> HasBin(objs[b], |bins|, binsz))
  }

  ghost predicate HasBin(size: nat, n: nat, binsz: nat) {
    exists i: nat {:trigger Exp(i)} :: i < n && size == binsz * Exp(i)
  }

  lemma {:induction false} CarvedMore(offset: nat, size: nat, n: nat)
    ensures Carved(offset, size, n + 1) == [offset + n * size] + Carved(offset, size, n)
    decreases n
  {
    if n != 0 {
      CarvedMore(offset + size, size, n - 1);
      assert offset + size + (n - 1) * size == offset + n * size;
    }
  }

  // The size of the object that is handed out for a request.
  function Rounded(size: nat, binsz: nat): nat {
    if NextPow2(size) > binsz then NextPow2(size) else binsz
  }

  function IndexOf(size: nat, binsz: nat): nat {
    var s := Rounded(size, binsz);
    if BitLength(s) > BitLength(binsz) then BitLength(s) - BitLength(binsz) else 0
  }

  // How many bytes are carved when the bin for objects of a size is empty.
  function Batch(size: nat, pagesz: nat): nat
    requires pagesz > 0
  {
    if size > pagesz then (pagesz * size % WORD) / pagesz else pagesz
  }

  // How many objects of a size that is.
  function ObjectsIn(batch: nat, size: nat): nat
    requires size > 0
  {
    batch / size
  }

  lemma ExpLength(n: nat)
    ensures BitLength(Exp(n)) == n + 1
  {
    assert Exp(n + 1) == 2 * Exp(n);
    LengthIs(Exp(n), n + 1);
  }

  // A requested size is rounded up to a power of two, at least the smallest, in the bin of its exponent.
  lemma RoundedIs(size: nat, k: nat)
    requires size < WORD && k <= 31
    ensures k + IndexOf(size, Exp(k)) <= 31
    ensures Rounded(size, Exp(k)) == Exp(k + IndexOf(size, Exp(k))) == Exp(k) * Exp(IndexOf(size, Exp(k)))
    ensures 1 <= size <= HALF ==> size <= Rounded(size, Exp(k))
  {
    var m := k;
    if NextPow2(size) > Exp(k) {
      NextIsLeast(size, 0);
      m := BitLength(size - 1);
      ExpGrows(m, k);
    }
    ExpLength(k);
    ExpLength(m);
    ExpSum(k, m - k);
    assert Rounded(size, Exp(k)) == Exp(m) && IndexOf(size, Exp(k)) == m - k;
    if 1 <= size <= HALF {
      NextIsLeast(size, 0);
    }
  }

  // An object is large enough exactly for the sizes that have a next power of two: a larger request
  // gets the smallest object.
  lemma LargeEnough(size: nat, k: nat)
    requires size < WORD && k <= 31
    ensures size <= Rounded(size, Exp(k)) <==> size <= HALF
    ensures size > HALF ==> Rounded(size, Exp(k)) == Exp(k)
  {
    RoundedIs(size, k);
    ExpInHalf(k);
  }

  lemma DivideBack(a: nat, b: nat)
    requires b > 0
    ensures (b * a) / b == a && (b * a) % b == 0
  {
    FloorUnique(b * a, b, a);
  }

  lemma {:induction false} WordMultiple(n: nat)
    requires n >= 32
    ensures Exp(n) % WORD == 0
  {
    var bits: nat := 32;
    FullWord(bits);
    ExpSum(bits, n - bits);
    DivideBack(Exp(n - bits), WORD);
  }

  // The product of page and object size, as a word.
  lemma ProductWord(m: nat, p: nat)
    ensures Exp(p) * Exp(m) % WORD == if m + p < 32 then Exp(p) * Exp(m) else 0
  {
    ExpSum(p, m);
    if m + p < 32 {
      var bits: nat := 32;
      FullWord(bits);
      ExpGrows(m + p, bits);
    } else {
      WordMultiple(m + p);
    }
  }

  lemma PageDivides(m: nat, p: nat)
    requires m > p
    ensures Exp(m) % Exp(p) == 0
  {
    ExpSum(p, m - p);
    DivideBack(Exp(m - p), Exp(p));
  }

  // One page of objects is carved, or one object larger than a page; or nothing, if the product of
  // page and object size does not fit into a word.
  lemma BatchIs(m: nat, p: nat)
    ensures m <= p ==> Batch(Exp(m), Exp(p)) == Exp(p) == Exp(p - m) * Exp(m)
    ensures m > p ==> Batch(Exp(m), Exp(p)) == if m + p < 32 then Exp(m) else 0
  {
    ExpGrows(m, p);
    ExpGrows(p, m);
    if m <= p {
      ExpSum(p - m, m);
    } else {
      ProductWord(m, p);
      DivideBack(Exp(m), Exp(p));
    }
  }

  // A new object at the end, put in front of its bin.
  lemma CarveOne(bins: seq<seq<nat>>, objs: map<nat, nat>, live: set<nat>, binsz: nat, offset: nat, i: nat, size: nat)
    requires Sorted(bins, objs, live, binsz) && Tiles(objs, offset) && i < |bins| && size == binsz * Exp(i) && size > 0
    ensures Sorted(bins[i := [offset] + bins[i]], objs[offset := size], live, binsz)
    ensures Tiles(objs[offset := size], offset + size) && offset !in objs
  {
    TilesMore(objs, offset, size);
    var now, more := bins[i := [offset] + bins[i]], objs[offset := size];
    assert HasBin(size, |now|, binsz);
    forall j: nat ensures BinOk(now, j, more, live, binsz) {
      assert BinOk(bins, j, objs, live, binsz);
    }
    forall b | b in more && b !in live ensures InBin(b, now) {
      if b == offset {
        assert b in BinAt(now, i);
      } else {
        assert InBin(b, bins);
        var j: nat :| b in BinAt(bins, j);
        assert b in BinAt(now, j);
      }
    }
  }

  lemma NotTwice(b: nat, rest: seq<nat>, bin: seq<nat>)
    requires NoDup(bin) && (bin == [b] + rest || bin == rest + [b])
    ensures b !in rest && NoDup(rest)
  {
    if bin == [b] + rest {
      assert forall i :: 0 <= i < |rest| ==> rest[i] == bin[i + 1] && bin[0] != bin[i + 1];
    } else {
      assert forall i :: 0 <= i < |rest| ==> rest[i] == bin[i] && bin[i] != bin[|rest|];
    }
  }

  // An object taken out of the bin and handed out; the rest of the bin stays.
  lemma HandOut(bins: seq<seq<nat>>, objs: map<nat, nat>, live: set<nat>, binsz: nat, i: nat, b: nat, rest: seq<nat>)
    requires binsz > 0 && Sorted(bins, objs, live, binsz) && i < |bins|
      && (bins[i] == [b] + rest || bins[i] == rest + [b])
    ensures b in objs && objs[b] == binsz * Exp(i) && b !in live
    ensures Sorted(bins[i := rest], objs, live + {b}, binsz)
  {
    var now := bins[i := rest];
    assert BinOk(bins, i, objs, live, binsz) && b in BinAt(bins, i);
    NotTwice(b, rest, bins[i]);
    forall j: nat ensures BinOk(now, j, objs, live + {b}, binsz) {
      assert BinOk(bins, j, objs, live, binsz);
      if j != i && b in BinAt(bins, j) {
        SameBin(binsz, i, j);
      }
    }
    forall c | c in objs && c !in live + {b} ensures InBin(c, now) {
      assert InBin(c, bins);
      var j: nat :| c in BinAt(bins, j);
      assert c in BinAt(now, j);
    }
  }

  lemma SameBin(binsz: nat, i: nat, j: nat)
    requires binsz > 0 && binsz * Exp(i) == binsz * Exp(j)
    ensures i == j
  {
    ExpGrows(i, j);
    ExpGrows(j, i);
    if Exp(i) < Exp(j) {
      MulMono(Exp(i) + 1, Exp(j), binsz);
    } else if Exp(j) < Exp(i) {
      MulMono(Exp(j) + 1, Exp(i), binsz);
    }
  }

  lemma PutBack(bins: seq<seq<nat>>, objs: map<nat, nat>, live: set<nat>, binsz: nat, i: nat, b: nat)
    requires Sorted(bins, objs, live, binsz) && i < |bins| && b in live && objs[b] == binsz * Exp(i)
    ensures Sorted(bins[i := [b] + bins[i]], objs, live - {b}, binsz)
  {
    var now := bins[i := [b] + bins[i]];
    forall j: nat ensures BinOk(now, j, objs, live - {b}, binsz) {
      assert BinOk(bins, j, objs, live, binsz);
    }
    forall c | c in objs && c !in live - {b} ensures InBin(c, now) {
      if c == b {
        assert c in BinAt(now, i);
      } else {
        assert InBin(c, bins);
        var j: nat :| c in BinAt(bins, j);
        assert c in BinAt(now, j);
      }
    }
  }

  // Putting an object into bin i keeps the bins exact only if it was handed out and has the size of
  // that bin.
  lemma {:induction false} PutBackExact(bins: seq<seq<nat>>, objs: map<nat, nat>, live: set<nat>, binsz: nat, i: nat,
      b: nat)
    requires binsz > 0 && Sorted(bins, objs, live, binsz) && i < |bins|
    ensures Sorted(bins[i := [b] + bins[i]], objs, live - {b}, binsz) <==>
      b in live && b in objs && objs[b] == binsz * Exp(i)
  {
    var now := bins[i := [b] + bins[i]];
    if b in live && objs[b] == binsz * Exp(i) {
      PutBack(bins, objs, live, binsz, i, b);
    } else if Sorted(now, objs, live - {b}, binsz) {
      assert BinOk(now, i, objs, live - {b}, binsz) && BinAt(now, i)[0] == b;
      NotTwice(b, bins[i], now[i]);
      assert InBin(b, bins);
      var j: nat :| b in BinAt(bins, j);
      assert BinOk(bins, j, objs, live, binsz);
      SameBin(binsz, i, j);
      assert false;
    }
  }

  predicate Multiple(a: nat, size: nat)
    requires size > 0
  {
    a % size == 0
  }

  // Everything begins at a multiple of the smallest size.
  ghost predicate Aligned(objs: map<nat, nat>, offset: nat, binsz: nat)
    requires binsz > 0
  {
    Multiple(offset, binsz) && forall b {:trigger Multiple(b, binsz)} :: b in objs ==> Multiple(b, binsz)
  }

  lemma StaysAligned(offset: nat, binsz: nat, n: nat)
    requires binsz > 0 && offset % binsz == 0
    ensures (offset + binsz * n) % binsz == 0
  {
    var q := offset / binsz;
    assert offset == binsz * q;
    assert offset + binsz * n == binsz * (q + n);
    DivideBack(q + n, binsz);
  }

  // More empty bins hold no more.
  lemma MoreBins(bins: seq<seq<nat>>, now: seq<seq<nat>>, objs: map<nat, nat>, live: set<nat>, binsz: nat)
    requires Sorted(bins, objs, live, binsz) && |bins| <= |now|
    requires forall j: nat {:trigger BinAt(now, j)} :: BinAt(now, j) == BinAt(bins, j)
    ensures Sorted(now, objs, live, binsz)
  {
    forall b | b in objs ensures HasBin(objs[b], |now|, binsz) {
      assert HasBin(objs[b], |bins|, binsz);
    }
    forall j: nat ensures BinOk(now, j, objs, live, binsz) {
      assert BinOk(bins, j, objs, live, binsz) && BinAt(now, j) == BinAt(bins, j);
    }
    forall c | c in objs && c !in live ensures InBin(c, now) {
      assert InBin(c, bins);
      var j: nat :| c in BinAt(bins, j);
      assert c in BinAt(now, j);
    }
  }

  lemma NothingSorted(binsz: nat)
    ensures Sorted([], map[], {}, binsz)
  {
    forall j: nat ensures BinOk([], j, map[], {}, binsz) {
    }
  }

  /// ## How many objects are left

  // What an allocator has: its bins, and how far it has carved.
  datatype Stock = Stock(bins: seq<seq<nat>>, offset: nat)

  // How many objects there are in all the batches that fit into so much room.
  function Supply(room: int, batch: nat, per: nat): nat {
    if batch == 0 || room < batch then 0 else per + Supply(room - batch, batch, per)
  }

  // How many more objects there are for a size: those in its bin and those of the batches that fit.
  function Left(s: Stock, size: nat, binsz: nat, max: nat, pagesz: nat): nat
    requires binsz > 0 && pagesz > 0
  {
    var rounded := Rounded(size, binsz);
    var batch := Batch(rounded, pagesz);
    |BinAt(s.bins, IndexOf(size, binsz))| + Supply(max - s.offset, batch, ObjectsIn(batch, rounded))
  }

  ghost predicate KeptBin(s: Stock, now: Stock, j: nat) {
    BinAt(now.bins, j) == BinAt(s.bins, j)
  }

  // One object was taken for a size, after a batch was carved if its bin was empty.
  ghost predicate Took(s: Stock, now: Stock, size: nat, binsz: nat, max: nat, pagesz: nat)
    requires binsz > 0 && pagesz > 0
  {
    var i := IndexOf(size, binsz);
    && Left(now, size, binsz, max, pagesz) == Left(s, size, binsz, max, pagesz) - 1
    && (forall j: nat :: j != i ==> KeptBin(s, now, j))
    && now.offset == s.offset + if BinAt(s.bins, i) == [] then Batch(Rounded(size, binsz), pagesz) else 0
  }

  // An object from the bin, or the first one of a batch, once the list of bins is long enough.
  lemma OneFewer(s: Stock, reserved: Stock, now: Stock, size: nat, binsz: nat, max: nat, pagesz: nat)
    requires binsz > 0 && pagesz > 0 && reserved.offset == s.offset && |now.bins| == |reserved.bins|
    requires forall j: nat {:trigger BinAt(reserved.bins, j)} :: BinAt(reserved.bins, j) == BinAt(s.bins, j)
    requires forall j :: 0 <= j < |now.bins| && j != IndexOf(size, binsz) ==> now.bins[j] == reserved.bins[j]
    requires var i, rounded := IndexOf(size, binsz), Rounded(size, binsz);
      var batch := Batch(rounded, pagesz);
      if BinAt(reserved.bins, i) != [] then
        |BinAt(now.bins, i)| == |BinAt(reserved.bins, i)| - 1 && now.offset == s.offset
      else
        && |BinAt(now.bins, i)| == ObjectsIn(batch, rounded) - 1
        && now.offset == s.offset + batch && 0 < batch <= max - s.offset
    ensures Took(s, now, size, binsz, max, pagesz)
  {
    assert forall j: nat :: BinAt(reserved.bins, j) == BinAt(s.bins, j);
  }

  class Bin {
    var binsz: nat
    var max: nat
    var zeroes: nat
    var pagesz: nat
    var offset: nat
    var bins: seq<seq<nat>>
    ghost var objs: map<nat, nat>  // the size of every object carved so far, by its offset
    ghost var live: set<nat>       // those handed out
    ghost var k: nat               // binsz and pagesz are these powers of two
    ghost var p: nat

    ghost predicate Valid()
      reads this
    {
      && k <= 31 && p <= 31 && binsz == Exp(k) && pagesz == Exp(p) && zeroes == LeadingZeros(binsz)
      && Tiles(objs, offset) && offset <= max && Aligned(objs, offset, binsz) && Sorted(bins, objs, live, binsz)
    }

    // The allocator is sound exactly for sizes that have a next power of two; with others it would
    // carve objects of no size or divide by a page of no size.
    constructor (binsz: nat, max: nat, pagesz: nat)
      requires binsz < WORD && pagesz < WORD
      ensures Valid() <==> 1 <= binsz <= HALF && 1 <= pagesz <= HALF
      ensures offset == 0 && bins == [] && objs == map[] && live == {}
      ensures this.binsz == NextPow2(binsz) && this.pagesz == NextPow2(pagesz) && this.max == max
    {
      var size := Pow2U32(binsz);
      var page := Pow2U32(pagesz);
      if 1 <= binsz <= HALF {
        NextIsLeast(binsz, 0);
      }
      if 1 <= pagesz <= HALF {
        NextIsLeast(pagesz, 0);
      }
      this.binsz, this.max, this.pagesz := size, max, page;
      zeroes := LeadingZeros(size);
      offset, bins := 0, [];
      objs, live := map[], {};
      k := if 1 <= binsz <= HALF then BitLength(binsz - 1) else 0;
      p := if 1 <= pagesz <= HALF then BitLength(pagesz - 1) else 0;
      NothingSorted(size);
    }

    // The rounded size and the number of its bin.
    method Index(size: nat) returns (s: nat, i: nat)
      requires Valid() && size < WORD
      ensures s == Rounded(size, binsz) && i == IndexOf(size, binsz) && s == binsz * Exp(i) && 0 < s && k + i <= 31
    {
      s := Pow2U32(size);
      if s < binsz {
        s := binsz;
      }
      RoundedIs(size, k);
      ExpLength(k);
      ExpLength(k + IndexOf(size, binsz));
      i := zeroes - LeadingZeros(s);
    }

    // How much to carve for objects of a size, and how many of them that is.
    method BatchSize(s: nat, ghost m: nat) returns (alloc: nat, ghost n: nat)
      requires pagesz == Exp(p) && s == Exp(m)
      ensures alloc == Batch(s, pagesz) == n * s && n == ObjectsIn(alloc, s)
    {
      BatchCount(m, p);
      if s > pagesz {
        ExpGrows(m, p);
        PageDivides(m, p);
        assert s % pagesz == 0;  // so the code's other case, one byte more, does not come up
        alloc := pagesz * s % WORD / pagesz;
      } else {
        alloc := pagesz;
      }
      n := alloc / s;
    }

    // Carves n objects for an empty bin.
    method Fill(s: nat, i: nat, alloc: nat, ghost n: nat)
      requires Valid() && i < |bins| && bins[i] == [] && s == binsz * Exp(i) && s > 0 && alloc == n * s
        && offset + alloc <= max
      modifies this`offset, this`bins, this`objs
      ensures Valid() && offset == old(offset) + alloc && bins == old(bins)[i := Carved(old(offset), s, n)]
      ensures Grown(old(objs), objs, s) && (alloc == 0 ==> objs == old(objs))
    {
      var j := 0;
      ghost var start, c := offset, 0;
      while j < alloc
        invariant c <= n && j == c * s && offset == start + j
        invariant i < |bins| && bins == old(bins)[i := Carved(start, s, c)]
        invariant Tiles(objs, offset) && Aligned(objs, offset, binsz) && Sorted(bins, objs, live, binsz)
          && Grown(old(objs), objs, s) && (j == 0 ==> objs == old(objs))
        decreases n - c
      {
        Counted(c, n, s);
        CarveOne(bins, objs, live, binsz, offset, i, s);
        StaysAligned(offset, binsz, Exp(i));
        CarvedMore(start, s, c);
        bins := bins[i := [offset] + bins[i]];
        objs := objs[offset := s];
        j := j + s;
        offset := offset + s;
        c := c + 1;
      }
      Counted(c, n, s);
    }

    // Carves a batch of objects for an empty bin, if there is room for all of it.
    method Resize(s: nat, i: nat, ghost m: nat)
      requires s > 0 && Valid() && i < |bins| && bins[i] == [] && m <= 31 && s == Exp(m) && s == binsz * Exp(i)
      modifies this`offset, this`bins, this`objs
      ensures Valid() && Grown(old(objs), objs, s) && (Batch(s, pagesz) == 0 ==> objs == old(objs))
      ensures var batch := Batch(s, pagesz);
        if batch + old(offset) <= max then
          offset == old(offset) + batch && bins == old(bins)[i := Carved(old(offset), s, ObjectsIn(batch, s))]
        else
          offset == old(offset) && bins == old(bins) && objs == old(objs)
    {
      var alloc, n := BatchSize(s, m);
      if alloc + offset <= max {
        Fill(s, i, alloc, n);
      }
    }

    // Makes the list of bins long enough for bin i.
    method Reserve(i: nat)
      requires Valid()
      modifies this`bins
      ensures Valid() && forall j: nat {:trigger BinAt(bins, j)} :: BinAt(bins, j) == BinAt(old(bins), j)
      ensures |bins| == if i < |old(bins)| then |old(bins)| else i + 1
    {
      if i >= |bins| {
        ghost var was := bins;
        bins := bins + seq(i + 1 - |bins|, _ => []);
        MoreBins(was, bins, objs, live, binsz);
      }
    }

    // The bin that serves a size.
    ghost function BinFor(size: nat): seq<nat>
      reads this
    {
      BinAt(bins, IndexOf(size, binsz))
    }

    ghost function BatchFor(size: nat): nat
      requires pagesz > 0
      reads this
    {
      Batch(Rounded(size, binsz), pagesz)
    }

    // There is nothing for size 0, and nothing if the bin is empty and a batch, which can be
    // 0, does not fit.
    ghost predicate Serves(size: nat)
      requires pagesz > 0
      reads this
    {
      size != 0 && (BinFor(size) != [] || 0 < BatchFor(size) <= max - offset)
    }

    function Stocks(): Stock
      reads this
    {
      Stock(bins, offset)
    }

    // A size is served exactly as long as there is an object left for it.
    lemma ServedWhileLeft(size: nat)
      requires Valid() && size < WORD
      ensures Serves(size) <==> size != 0 && Left(Stocks(), size, binsz, max, pagesz) > 0
    {
      RoundedIs(size, k);
      BatchLength(0, Rounded(size, binsz), BatchFor(size), k + IndexOf(size, binsz), p);
    }

    method TakeFront(i: nat) returns (b: nat)
      requires Valid() && i < |bins| && bins[i] != []
      modifies this`bins, this`live
      ensures Valid() && b == old(bins)[i][0] && bins == old(bins)[i := old(bins)[i][1..]]
      ensures b in objs && objs[b] == binsz * Exp(i) && b !in old(live) && live == old(live) + {b}
    {
      b := bins[i][0];
      HandOut(bins, objs, live, binsz, i, b, bins[i][1..]);
      bins := bins[i := bins[i][1..]];
      live := live + {b};
    }

    method TakeLast(i: nat) returns (b: nat)
      requires Valid() && i < |bins| && bins[i] != []
      modifies this`bins, this`live
      ensures Valid() && b == old(bins)[i][|old(bins)[i]| - 1]
        && bins == old(bins)[i := old(bins)[i][..|old(bins)[i]| - 1]]
      ensures b in objs && objs[b] == binsz * Exp(i) && b !in old(live) && live == old(live) + {b}
    {
      var last := |bins[i]| - 1;
      b := bins[i][last];
      HandOut(bins, objs, live, binsz, i, b, bins[i][..last]);
      bins := bins[i := bins[i][..last]];
      live := live + {b};
    }

    // The first object of a new batch.
    method TakeNew(s: nat, i: nat, ghost m: nat) returns (r: Option<nat>)
      requires s > 0 && Valid() && i < |bins| && bins[i] == [] && m <= 31 && s == Exp(m) && s == binsz * Exp(i)
      modifies this`offset, this`bins, this`objs, this`live
      ensures Valid() && Grown(old(objs), objs, s)
      ensures r.None? <==> !(0 < Batch(s, pagesz) <= max - old(offset))
      ensures r.None? ==> objs == old(objs) && live == old(live) && offset == old(offset)
      ensures r.Some? ==> r.value == old(offset) && offset == old(offset) + Batch(s, pagesz)
      ensures r.Some? ==>
        r.value in objs && objs[r.value] == s && r.value !in old(live) && live == old(live) + {r.value}
      ensures |bins| == |old(bins)| && (forall j :: 0 <= j < |bins| && j != i ==> bins[j] == old(bins)[j])
      ensures r.Some? ==> |bins[i]| == ObjectsIn(Batch(s, pagesz), s) - 1
    {
      ghost var start, batch := offset, Batch(s, pagesz);
      BatchLength(start, s, batch, m, p);
      Resize(s, i, m);
      if bins[i] == [] {
        return None;
      }
      assert bins[i] == Carved(start, s, ObjectsIn(batch, s));
      var b := TakeLast(i);
      r := Some(b);
    }

    // An object from bin i or, if that is empty, the first one of a new batch.
    method TakeAny(s: nat, i: nat, ghost m: nat) returns (r: Option<nat>)
      requires s > 0 && Valid() && i < |bins| && m <= 31 && s == Exp(m) && s == binsz * Exp(i)
      modifies this`offset, this`bins, this`objs, this`live
      ensures |bins| == |old(bins)| && forall j :: 0 <= j < |bins| && j != i ==> bins[j] == old(bins)[j]
      ensures Valid() && Grown(old(objs), objs, s)
      ensures r.Some? <==> old(bins)[i] != [] || 0 < Batch(s, pagesz) <= max - old(offset)
      ensures r.None? ==> objs == old(objs) && live == old(live) && offset == old(offset)
      ensures r.Some? ==>
        r.value in objs && objs[r.value] == s && r.value !in old(live) && live == old(live) + {r.value}
      ensures r.Some? && old(bins)[i] != [] ==>
        r.value == old(bins)[i][0] && bins[i] == old(bins)[i][1..] && objs == old(objs) && offset == old(offset)
      ensures r.Some? && old(bins)[i] == [] ==>
        r.value == old(offset) && offset == old(offset) + Batch(s, pagesz)
          && |bins[i]| == ObjectsIn(Batch(s, pagesz), s) - 1
    {
      if bins[i] != [] {
        var b := TakeFront(i);
        r := Some(b);
      } else {
        r := TakeNew(s, i, m);
      }
    }

    // Hands out an object for a size: the one last put into its bin or, if that is empty, the first
    // of a new batch.
    method Get(size: nat) returns (r: Option<nat>)
      requires Valid() && size < WORD
      modifies this`offset, this`bins, this`objs, this`live
      ensures Valid() && Grown(old(objs), objs, Rounded(size, binsz))
      ensures r.Some? <==> old(Serves(size))
      ensures r.None? ==> objs == old(objs) && live == old(live) && offset == old(offset)
      ensures r.Some? ==> r.value in objs && objs[r.value] == Rounded(size, binsz)
      ensures r.Some? ==> r.value !in old(live) && live == old(live) + {r.value}
      ensures r.Some? && old(BinFor(size)) != [] ==>
        r.value == old(BinFor(size))[0] && BinFor(size) == old(BinFor(size))[1..] && objs == old(objs)
      ensures r.Some? && old(BinFor(size)) == [] ==> r.value == old(offset)
      ensures r.Some? ==> Took(old(Stocks()), Stocks(), size, binsz, max, pagesz)
      ensures |bins| ==
        if size != 0 && |old(bins)| <= IndexOf(size, binsz) then IndexOf(size, binsz) + 1 else |old(bins)|
    {
      if size == 0 {
        return None;
      }
      ghost var was := Stocks();
      var s, i := Index(size);
      Reserve(i);
      assert BinFor(size) == bins[i] == old(BinFor(size));
      ghost var reserved := Stocks();
      ExpSum(k, i);
      r := TakeAny(s, i, k + i);
      if r.Some? {
        OneFewer(was, reserved, Stocks(), size, binsz, max, pagesz);
      }
    }

    // Puts an object in front of the bin of a size, or fails if the size is 0 or has no bin yet. The
    // allocator stays sound if and only if the object was handed out, for a size of that bin.
    method Free(base: nat, size: nat) returns (ok: bool)
      requires Valid() && size < WORD
      modifies this`bins, this`live
      ensures ok <==> size != 0 && IndexOf(size, binsz) < |old(bins)|
      ensures !ok ==> bins == old(bins) && live == old(live)
      ensures ok ==> live == old(live) - {base}
      ensures ok ==> bins == old(bins)[IndexOf(size, binsz) := [base] + old(bins)[IndexOf(size, binsz)]]
      ensures ok ==> (Valid() <==> base in old(live) && base in objs && objs[base] == Rounded(size, binsz))
    {
      if size == 0 {
        return false;
      }
      var s, i := Index(size);
      if i >= |bins| {
        return false;
      }
      PutBackExact(bins, objs, live, binsz, i, base);
      bins := bins[i := [base] + bins[i]];
      live := live - {base};
      ok := true;
    }

    // The size of an object handed out has a bin.
    lemma HasItsBin(base: nat, size: nat)
      requires Valid() && size < WORD && base in live && base in objs && objs[base] == Rounded(size, binsz)
      ensures IndexOf(size, binsz) < |bins|
    {
      RoundedIs(size, k);
      assert HasBin(objs[base], |bins|, binsz);
      ghost var j: nat :| j < |bins| && objs[base] == binsz * Exp(j);
      SameBin(binsz, IndexOf(size, binsz), j);
    }
  }

  lemma {:induction false} CarvedEnds(offset: nat, size: nat, n: nat)
    ensures |Carved(offset, size, n)| == n && (n > 0 ==> Carved(offset, size, n)[n - 1] == offset)
    decreases n
  {
    if n > 0 {
      CarvedEnds(offset + size, size, n - 1);
    }
  }

  lemma BatchLength(start: nat, s: nat, batch: nat, m: nat, p: nat)
    requires s == Exp(m) && batch == Batch(Exp(m), Exp(p))
    ensures |Carved(start, s, ObjectsIn(batch, s))| == ObjectsIn(batch, s) && (ObjectsIn(batch, s) == 0 <==> batch == 0)
    ensures batch > 0 ==> var c := Carved(start, s, ObjectsIn(batch, s)); c[|c| - 1] == start
  {
    BatchCount(m, p);
    CarvedEnds(start, s, ObjectsIn(batch, s));
  }

  // The objects there were, and more of one size.
  ghost predicate Grown(was: map<nat, nat>, now: map<nat, nat>, size: nat) {
    && (forall b :: b in was ==> b in now && now[b] == was[b])
    && (forall b :: b in now && b !in was ==> now[b] == size)
  }

  // A count below n, times s, is below n times s.
  lemma Counted(c: nat, n: nat, s: nat)
    requires s > 0
    ensures c * s < n * s <==> c < n
    ensures c < n ==> c * s + s == (c + 1) * s <= n * s
  {
    if c < n {
      MulMono(c + 1, n, s);
    } else {
      MulMono(n, c, s);
    }
  }

  lemma BatchCount(m: nat, p: nat)
    ensures var batch, s := Batch(Exp(m), Exp(p)), Exp(m); batch == (batch / s) * s
  {
    BatchIs(m, p);
    var n := if m <= p then Exp(p - m) else if m + p < 32 then 1 else 0;
    DivideBack(n, Exp(m));
    Commutes(n, Exp(m));
  }

  lemma Commutes(a: nat, b: nat)
    ensures a * b == b * a
  {
  }
}
