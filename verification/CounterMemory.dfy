/**
 The shared memory of the counters as bytes: words and directory entries in it, and what a write to
 one place leaves as it is. Addresses count from the start of the memory, which is zero at first.
 */
module CounterMemory {
  import opened Basics
  import opened PowerOfTwo

  type Memory = map<nat, byte>

  // The areas of the memory and their sizes.
  const DIR_SIZE: nat := 16
  const DIR_START: nat := 64
  const DIR_TOTAL: nat := 4 * 1024 * 1024
  const VEC_SIZE: nat := 8
  const VEC_MAX: nat := 32
  const VEC_START: nat := DIR_START + DIR_TOTAL
  const VEC_TOTAL: nat := 16 * 1024 * 1024
  const NAME_SIZE: nat := 32
  const NAME_MAX: nat := 2
  const NAME_START: nat := VEC_START + VEC_TOTAL
  const NAME_TOTAL: nat := 32 * 1024 * 1024
  const PAGE: nat := 4 * 1024

  // The areas follow one another, after the header, and fit into the memory that is mapped.
  lemma AreasFit()
    ensures 4 <= DIR_START && DIR_START + DIR_TOTAL <= VEC_START && VEC_START + VEC_TOTAL <= NAME_START
    ensures NAME_START + NAME_TOTAL <= 64 * 1024 * 1024
  {
  }

  function At(mem: Memory, a: nat): byte {
    if a in mem then mem[a] else 0
  }

  function Put(mem: Memory, at: nat, bytes: seq<byte>): (now: Memory)
    ensures forall a: nat :: At(now, a) == if at <= a < at + |bytes| then bytes[a - at] else At(mem, a)
    decreases |bytes|
  {
    if bytes == [] then mem else Put(mem[at := bytes[0]], at + 1, bytes[1..])
  }

  // Words are stored low byte first.
  function WordAt(mem: Memory, a: nat): (w: nat)
    ensures w < WORD
  {
    At(mem, a) as nat + 0x100 * At(mem, a + 1) as nat + 0x1_0000 * At(mem, a + 2) as nat
      + 0x100_0000 * At(mem, a + 3) as nat
  }

  function WordBytes(w: nat): (b: seq<byte>)
    requires w < WORD
    ensures |b| == 4
  {
    var u := w / 256;
    var v := u / 256;
    [(w % 256) as byte, (u % 256) as byte, (v % 256) as byte, (v / 256) as byte]
  }

  lemma WordRoundTrip(mem: Memory, a: nat, w: nat)
    requires w < WORD
    requires forall k :: 0 <= k < 4 ==> At(mem, a + k) == WordBytes(w)[k]
    ensures WordAt(mem, a) == w
  {
    var b, u := WordBytes(w), w / 256;
    var v := u / 256;
    assert At(mem, a + 0) == b[0] && At(mem, a + 1) == b[1] && At(mem, a + 2) == b[2] && At(mem, a + 3) == b[3];
    assert w == 256 * u + w % 256 && u == 256 * v + u % 256 && v == 256 * (v / 256) + v % 256;
  }

  lemma WordBytesAre(w: nat)
    requires w < WORD
    ensures var b := WordBytes(w);
      && b[0] as nat == w % 0x100 && b[1] as nat == w / 0x100 % 0x100
      && b[2] as nat == w / 0x1_0000 % 0x100 && b[3] as nat == w / 0x100_0000
  {
  }

  // A directory entry: where a counter's name and values are, and how long they are.
  datatype Dir = Dir(nameOff: nat, nameLen: nat, vecOff: nat, vecLen: nat)

  predicate Words(d: Dir) {
    d.nameOff < WORD && d.nameLen < WORD && d.vecOff < WORD && d.vecLen < WORD
  }

  function DirAt(mem: Memory, a: nat): (d: Dir)
    ensures Words(d)
  {
    Dir(WordAt(mem, a), WordAt(mem, a + 4), WordAt(mem, a + 8), WordAt(mem, a + 12))
  }

  function PutDir(mem: Memory, a: nat, d: Dir): Memory
    requires Words(d)
  {
    Put(Put(Put(Put(mem, a, WordBytes(d.nameOff)), a + 4, WordBytes(d.nameLen)), a + 8, WordBytes(d.vecOff)), a + 12,
      WordBytes(d.vecLen))
  }

  lemma PutWord(mem: Memory, a: nat, w: nat) returns (now: Memory)
    requires w < WORD
    ensures now == Put(mem, a, WordBytes(w)) && WordAt(now, a) == w
    ensures forall x: nat :: !(a <= x < a + 4) ==> At(now, x) == At(mem, x)
  {
    now := Put(mem, a, WordBytes(w));
    WordRoundTrip(now, a, w);
  }

  lemma PutDirIs(mem: Memory, a: nat, d: Dir)
    requires Words(d)
    ensures DirAt(PutDir(mem, a, d), a) == d
    ensures forall x: nat :: !(a <= x < a + DIR_SIZE) ==> At(PutDir(mem, a, d), x) == At(mem, x)
  {
    var m0 := PutWord(mem, a, d.nameOff);
    var m1 := PutWord(m0, a + 4, d.nameLen);
    var m2 := PutWord(m1, a + 8, d.vecOff);
    var m3 := PutWord(m2, a + 12, d.vecLen);
    SameWord(m0, m3, a);
    SameWord(m1, m3, a + 4);
    SameWord(m2, m3, a + 8);
  }

  // Where no byte changes, no directory entry does.
  lemma SameDir(mem: Memory, now: Memory, a: nat)
    requires forall x: nat :: a <= x < a + DIR_SIZE ==> At(now, x) == At(mem, x)
    ensures DirAt(now, a) == DirAt(mem, a)
  {
    SameWord(mem, now, a);
    SameWord(mem, now, a + 4);
    SameWord(mem, now, a + 8);
    SameWord(mem, now, a + 12);
  }

  lemma SameWord(mem: Memory, now: Memory, a: nat)
    requires forall x: nat :: a <= x < a + 4 ==> At(now, x) == At(mem, x)
    ensures WordAt(now, a) == WordAt(mem, a)
  {
  }
}
