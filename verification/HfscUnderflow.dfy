/**
 The virtual time of a class that stays active, in 64-bit words. The code subtracts the class's offset
 from the time of its curve, which in some ordinary runs is the smaller of the two.
 */
module HfscUnderflow {
  import opened Basics
  import opened ServiceCurve
  import opened CurveMinimum
  import opened KeyTree
  import opened HfscState
  import opened HfscScheduling
  import opened HfscRuns

  /// ## When words are enough

  // Advance with every result a word.
  function AdvanceWord(sh: Share, pvmin: int): Share {
    var vtime := WrapSum(WrapSum(RtscY2X(sh.f_run, sh.f_bytes), -sh.voff), sh.vadj);
    if vtime < pvmin then sh.(vtime := pvmin, vadj := WrapSum(sh.vadj, pvmin - vtime)) else sh.(vtime := vtime)
  }

  ghost predicate IsWord(n: int) {
    0 <= n < U64_MODULUS
  }

  ghost predicate WordShare(sh: Share) {
    IsWord(RtscY2X(sh.f_run, sh.f_bytes)) && IsWord(sh.voff) && IsWord(sh.vadj)
  }

  // The virtual time before it is raised to the floor.
  function RawTime(sh: Share): int {
    RtscY2X(sh.f_run, sh.f_bytes) - sh.voff + sh.vadj
  }

  // The words are the exact values if and only if the virtual time is not negative and fits, and
  // so does the adjustment if it is raised. They are whenever the subtraction does not underflow and
  // the sum fits.
  lemma AdvanceWordExact(sh: Share, pvmin: int)
    requires WordShare(sh) && IsWord(pvmin)
    ensures AdvanceWord(sh, pvmin) == Advance(sh, pvmin) <==>
      IsWord(RawTime(sh)) && (RawTime(sh) < pvmin ==> IsWord(sh.vadj + pvmin - RawTime(sh)))
    ensures sh.voff <= RtscY2X(sh.f_run, sh.f_bytes) && RawTime(sh) < U64_MODULUS ==>
      AdvanceWord(sh, pvmin) == Advance(sh, pvmin)
  {
    var y := RtscY2X(sh.f_run, sh.f_bytes);
    WrapAgain(y, -sh.voff, sh.vadj);
    var w := WrapSum(y - sh.voff, sh.vadj);
    if !IsWord(RawTime(sh)) {
      assert AdvanceWord(sh, pvmin).vtime != Advance(sh, pvmin).vtime
        || AdvanceWord(sh, pvmin).vadj != Advance(sh, pvmin).vadj;
    }
  }

  // Reducing in between makes no difference.
  lemma WrapAgain(a: int, b: int, c: int)
    ensures WrapSum(WrapSum(a, b), c) == WrapSum(a + b, c)
  {
    var q := (a + b) / U64_MODULUS;
    assert a + b == WrapSum(a, b) + q * U64_MODULUS;
    ShiftedWrap(WrapSum(a, b) + c, q);
  }

  lemma ShiftedWrap(n: int, q: int)
    ensures (n + q * U64_MODULUS) % U64_MODULUS == n % U64_MODULUS
  {
  }

  /// ## One class active at a time

  // Leaf c under the root, without a real-time curve.
  ghost predicate LeafUnderRoot(s: Sched, c: nat) {
    && Linked(s) && ROOT < c < |s.classes| && s.classes[ROOT].cfg.parent == 0 && s.eligible == []
    && s.classes[c].cfg.in_use && s.classes[c].cfg.leaf && s.classes[c].cfg.parent == ROOT
      && s.classes[c].cfg.qlimit == 0
    && s.classes[c].cfg.r_isc.None? && s.classes[c].sh.children == []
  }

  // Class c and the root get new link-sharing fields, and class c a new queue.
  function Replaced(s: Sched, c: nat, sh: Share, root: Share, packets: seq<Packet>, queued: int): Sched
    requires ROOT < c < |s.classes|
  {
    s.(classes := s.classes[c := s.classes[c].(sh := sh, packets := packets)][ROOT := s.classes[ROOT].(sh := root)],
      queued := queued)
  }

  lemma PutAlone(s: Sched, c: nat, pkt: Packet, time: int)
    requires LeafUnderRoot(s, c) && s.classes[c].packets == [] && s.classes[c].sh.nactive == 0
      && s.classes[ROOT].sh.children == []
    ensures var root := StartRound(s.classes[ROOT].sh);
      var sh := Join(s.classes[c].cfg, s.classes[c].sh.(nactive := 1), root, 0);
      Enqueue(s, c, pkt, time) == (Replaced(s, c, sh, root.(children := [Key(0, c)]), [pkt], s.queued + 1), true)
  {
    var cs := s.classes;
    var counted := OneMoreActive(cs, c);
    ActivateForest(counted, c);
    assert InitV(cs, c) == Activate(counted, c);
    var root := StartRound(cs[ROOT].sh);
    var sh := Join(cs[c].cfg, cs[c].sh.(nactive := 1), root, 0);
    var awake := Activate(counted, c);
    assert With(root.children, Key(0, c)) == [Key(0, c)];
    assert counted[c].sh == cs[c].sh.(nactive := 1) && counted[ROOT] == cs[ROOT];
    assert awake[c] == cs[c].(sh := sh) && awake[ROOT] == cs[ROOT].(sh := root.(children := [Key(0, c)]));
    assert awake == cs[c := awake[c]][ROOT := awake[ROOT]];
    assert WakeUp(s, c, pkt.len, time) == s.(classes := awake);
    assert cs[c].packets + [pkt] == [pkt];
    assert Enqueue(s, c, pkt, time).0.classes
      == Replaced(s, c, sh, root.(children := [Key(0, c)]), [pkt], s.queued + 1).classes;
  }

  lemma PutAgain(s: Sched, c: nat, pkt: Packet, time: int)
    requires LeafUnderRoot(s, c) && s.classes[c].packets != []
    ensures Enqueue(s, c, pkt, time)
         == (Replaced(s, c, s.classes[c].sh, s.classes[ROOT].sh, s.classes[c].packets + [pkt], s.queued + 1), true)
  {
    assert Enqueue(s, c, pkt, time).0.classes
        == Replaced(s, c, s.classes[c].sh, s.classes[ROOT].sh, s.classes[c].packets + [pkt], s.queued + 1).classes;
  }

  function RaisedTo(root: Share, vtime: int): Share {
    if vtime > root.vmin then root.(vmin := vtime) else root
  }

  lemma DescentAlone(s: Sched, c: nat, time: int)
    requires LeafUnderRoot(s, c) && s.classes[ROOT].sh.children == [Key(s.classes[c].sh.vtime, c)]
    ensures GetMinV(s.classes, ROOT) == (RaiseFloor(s.classes, ROOT, s.classes[c].sh.vtime), c) && Picked(s, time) == c
  {
    var raised := RaiseFloor(s.classes, ROOT, s.classes[c].sh.vtime);
    assert GetMinV(raised, c) == (raised, 0);
  }

  // Serving at c ends at the root.
  lemma ServeAlone(cs: seq<Class>, c: nat, len: nat, passive: bool)
    requires Forest(cs) && ROOT < c < |cs| && cs[c].cfg.parent == ROOT && cs[ROOT].cfg.parent == 0
      && cs[c].sh.nactive > 0
    ensures var (sh, root) := ServeShares(cs[c].sh, cs[ROOT].sh, c, len, passive);
      UpdateV(cs, c, len, passive) == cs[c := cs[c].(sh := sh)][ROOT := cs[ROOT].(sh := root)]
  {
    ServeForest(cs, c, len, passive);
  }

  lemma TakeAlone(s: Sched, c: nat, time: int)
    requires LeafUnderRoot(s, c) && s.classes[c].packets != [] && s.classes[c].sh.nactive > 0
      && s.classes[ROOT].sh.children == [Key(s.classes[c].sh.vtime, c)]
    ensures Picked(s, time) == c
    ensures var cl, rest := s.classes[c], s.classes[c].packets[1..];
      var (sh, root) := ServeShares(cl.sh, RaisedTo(s.classes[ROOT].sh, cl.sh.vtime), c, cl.packets[0].len, rest == []);
      Dequeue(s, time) == (Replaced(s, c, sh, root, rest, s.queued - 1), Some(cl.packets[0]))
  {
    var cl, rest := s.classes[c], s.classes[c].packets[1..];
    DescentAlone(s, c, time);
    var raised := RaiseFloor(s.classes, ROOT, cl.sh.vtime);
    assert raised == s.classes[ROOT := s.classes[ROOT].(sh := RaisedTo(s.classes[ROOT].sh, cl.sh.vtime))];
    var taken := raised[c := raised[c].(packets := rest)];
    assert Forest(raised) && Forest(taken);
    ServeAlone(taken, c, cl.packets[0].len, rest == []);
    var (sh, root) := ServeShares(cl.sh, RaisedTo(s.classes[ROOT].sh, cl.sh.vtime), c, cl.packets[0].len, rest == []);
    assert UpdateV(taken, c, cl.packets[0].len, rest == []) == Replaced(s, c, sh, root, rest, s.queued - 1).classes;
  }

  /// ## A run in which the subtraction underflows
  ///
  /// Two leaves of 8000 bit/s under the root, one of them active at a time.

  const RATE := Sc(8000, 0, 8000)
  const LINE := InternalSc(16, 1_024_000_000, 0, 0, 16, 1_024_000_000)

  lemma RateIs()
    ensures Sc2Isc(RATE) == LINE
  {
    SegX2YExact(0, 16);
  }

  datatype Leaf = Leaf(run: RuntimeSc, bytes: nat, vtime: int, voff: int, packets: seq<Packet>)

  datatype Root = Root(vmin: int, vmax: int, voff: int, children: seq<Key>)

  ghost predicate IsLeaf(cl: Class, l: Leaf) {
    && cl.cfg.in_use && cl.cfg.leaf && cl.cfg.parent == ROOT && cl.cfg.qlimit == 0 && cl.cfg.pvoff == 0
    && cl.cfg.f_isc == LINE && cl.cfg.r_isc.None? && cl.sh.children == [] && cl.sh.vadj == 0
    && cl.sh.nactive == (if l.packets == [] then 0 else 1)
    && l == Leaf(cl.sh.f_run, cl.sh.f_bytes, cl.sh.vtime, cl.sh.voff, cl.packets)
  }

  ghost predicate Pair(s: Sched, r: Root, ls: seq<Leaf>) {
    && Linked(s) && |s.classes| == 4 && |ls| == 2 && s.eligible == []
    && s.classes[ROOT].cfg.parent == 0
    && r == Root(s.classes[ROOT].sh.vmin, s.classes[ROOT].sh.vmax, s.classes[ROOT].sh.voff, s.classes[ROOT].sh.children)
    && forall i :: 0 <= i < 2 ==> IsLeaf(s.classes[i + 2], ls[i])
  }

  lemma PairReplaced(s: Sched, r: Root, ls: seq<Leaf>, i: nat, sh: Share, root: Share, packets: seq<Packet>,
      queued: int, l: Leaf)
    requires Pair(s, r, ls) && i < 2 && IsLeaf(s.classes[i + 2].(sh := sh, packets := packets), l)
    requires root.children == [] || root.children == [Key(l.vtime, i + 2)]
    ensures Pair(Replaced(s, i + 2, sh, root, packets, queued), Root(root.vmin, root.vmax, root.voff, root.children),
      ls[i := l])
  {
    var s' := Replaced(s, i + 2, sh, root, packets, queued);
    assert Linked(s');
    assert IsLeaf(s.classes[2], ls[0]) && IsLeaf(s.classes[3], ls[1]);
    assert IsLeaf(s'.classes[2], ls[i := l][0]) && IsLeaf(s'.classes[3], ls[i := l][1]);
  }

  // A leaf that joins with no sibling active, under a root with offset voff.
  function Joined(l: Leaf, voff: int, pkt: Packet): Leaf {
    var run := RtscMin(l.run, LINE, voff, l.bytes);
    Leaf(if run.x == voff then run.(x := 0) else run, l.bytes, 0, if run.x == voff then 0 else voff, [pkt])
  }

  lemma FirstPut(s: Sched, r: Root, ls: seq<Leaf>, i: nat, pkt: Packet, time: int)
    requires Pair(s, r, ls) && i < 2 && ls[i].packets == [] && r.children == []
    ensures Pair(Enqueue(s, i + 2, pkt, time).0, Root(0, 0, r.voff + r.vmax, [Key(0, i + 2)]),
                 ls[i := Joined(ls[i], r.voff + r.vmax, pkt)])
  {
    assert IsLeaf(s.classes[i + 2], ls[i]);
    PutAlone(s, i + 2, pkt, time);
  }

  lemma NextPut(s: Sched, r: Root, ls: seq<Leaf>, i: nat, pkt: Packet, time: int)
    requires Pair(s, r, ls) && i < 2 && ls[i].packets != []
    ensures Pair(Enqueue(s, i + 2, pkt, time).0, r, ls[i := ls[i].(packets := ls[i].packets + [pkt])])
  {
    assert IsLeaf(s.classes[i + 2], ls[i]);
    PutAgain(s, i + 2, pkt, time);
  }

  function Larger(a: int, b: int): int {
    if b > a then b else a
  }

  lemma LastShares(sh: Share, root: Share, c: nat, len: nat)
    requires sh.nactive == 1 && root.children == [Key(sh.vtime, c)]
    ensures ServeShares(sh, root, c, len, true)
         == (sh.(f_bytes := sh.f_bytes + len, nactive := 0), root.(children := [], vmax := Larger(root.vmax, sh.vtime)))
  {
    assert Without(root.children, Key(sh.vtime, c)) == [];
  }

  // The last packet of the only active leaf.
  lemma LastTake(s: Sched, r: Root, ls: seq<Leaf>, i: nat, time: int)
    requires Pair(s, r, ls) && i < 2 && |ls[i].packets| == 1 && r.children == [Key(ls[i].vtime, i + 2)]
    ensures Pair(Dequeue(s, time).0, Root(Larger(r.vmin, ls[i].vtime), Larger(r.vmax, ls[i].vtime), r.voff, []),
                 ls[i := ls[i].(bytes := ls[i].bytes + ls[i].packets[0].len, packets := [])])
  {
    var cl := s.classes[i + 2];
    assert IsLeaf(cl, ls[i]);
    var raised := RaisedTo(s.classes[ROOT].sh, cl.sh.vtime);
    TakeAlone(s, i + 2, time);
    LastShares(cl.sh, raised, i + 2, cl.packets[0].len);
    assert cl.packets[1..] == [];
    var (sh, root) := ServeShares(cl.sh, raised, i + 2, cl.packets[0].len, true);
    PairReplaced(s, r, ls, i, sh, root, [], s.queued - 1, ls[i].(bytes := sh.f_bytes, packets := []));
  }

  lemma NextShares(sh: Share, root: Share, c: nat, len: nat, vtime: int)
    requires sh.nactive == 1 && sh.vadj == 0 && root.children == [Key(sh.vtime, c)]
    requires root.vmin <= vtime == RtscY2X(sh.f_run, sh.f_bytes + len) - sh.voff
    ensures ServeShares(sh, root, c, len, false)
         == (sh.(f_bytes := sh.f_bytes + len, vtime := vtime), root.(children := [Key(vtime, c)]))
  {
  }

  lemma NextServed(s: Sched, c: nat, time: int, vtime: int)
    requires LeafUnderRoot(s, c) && |s.classes[c].packets| > 1 && s.classes[c].sh.nactive == 1
      && s.classes[c].sh.vadj == 0
      && s.classes[ROOT].sh.children == [Key(s.classes[c].sh.vtime, c)]
    requires var sh := s.classes[c].sh;
      s.classes[ROOT].sh.vmin <= vtime
        && sh.vtime <= vtime == RtscY2X(sh.f_run, sh.f_bytes + s.classes[c].packets[0].len) - sh.voff
    ensures var cl, root := s.classes[c], RaisedTo(s.classes[ROOT].sh, s.classes[c].sh.vtime);
      Dequeue(s, time).0 == Replaced(s, c, cl.sh.(f_bytes := cl.sh.f_bytes + cl.packets[0].len, vtime := vtime),
                                     root.(children := [Key(vtime, c)]), cl.packets[1..], s.queued - 1)
  {
    var cl := s.classes[c];
    assert cl.packets[1..] != [];
    TakeAlone(s, c, time);
    NextShares(cl.sh, RaisedTo(s.classes[ROOT].sh, cl.sh.vtime), c, cl.packets[0].len, vtime);
  }

  // Another packet of the only active leaf, which stays above the floor.
  lemma NextTake(s: Sched, r: Root, ls: seq<Leaf>, i: nat, time: int, vtime: int)
    requires Pair(s, r, ls) && i < 2 && |ls[i].packets| > 1 && r.children == [Key(ls[i].vtime, i + 2)]
    requires Larger(r.vmin, ls[i].vtime) <= vtime == RtscY2X(ls[i].run, ls[i].bytes + ls[i].packets[0].len) - ls[i].voff
    ensures Pair(Dequeue(s, time).0, Root(Larger(r.vmin, ls[i].vtime), r.vmax, r.voff, [Key(vtime, i + 2)]),
                 ls[i := ls[i].(bytes := ls[i].bytes + ls[i].packets[0].len, vtime := vtime,
                   packets := ls[i].packets[1..])])
  {
    var cl := s.classes[i + 2];
    assert IsLeaf(cl, ls[i]);
    NextServed(s, i + 2, time, vtime);
    var rest, root := cl.packets[1..], RaisedTo(s.classes[ROOT].sh, cl.sh.vtime);
    var sh := cl.sh.(f_bytes := cl.sh.f_bytes + cl.packets[0].len, vtime := vtime);
    PairReplaced(s, r, ls, i, sh, root.(children := [Key(vtime, i + 2)]), rest, s.queued - 1,
                 ls[i].(bytes := sh.f_bytes, vtime := vtime, packets := rest));
  }

  /// One step of a run at a time.

  ghost predicate Reached(bandwidth: nat, ops: seq<Op>, s: Sched) {
    AllAllowed(NewSched(bandwidth), ops) && Run(NewSched(bandwidth), ops) == s
  }

  lemma {:induction false} RunSnoc(s: Sched, ops: seq<Op>, op: Op)
    requires AllAllowed(s, ops) && Allowed(Run(s, ops), op) && Linked(Run(s, ops)) && Linked(Apply(Run(s, ops), op))
    ensures AllAllowed(s, ops + [op]) && Run(s, ops + [op]) == Apply(Run(s, ops), op)
    decreases |ops|
  {
    if ops == [] {
      assert ops + [op] == [op] && [op][1..] == [];
    } else {
      RunSnoc(Apply(s, ops[0]), ops[1..], op);
      assert (ops + [op])[1..] == ops[1..] + [op];
    }
  }

  lemma Reach(bandwidth: nat, ops: seq<Op>, s: Sched, op: Op)
    requires Reached(bandwidth, ops, s) && Linked(s) && Allowed(s, op) && Linked(Apply(s, op))
    ensures Reached(bandwidth, ops + [op], Apply(s, op))
  {
    RunSnoc(NewSched(bandwidth), ops, op);
  }

  // The steps above as steps of a run.

  lemma FirstPutRun(bandwidth: nat, ops: seq<Op>, s: Sched, r: Root, ls: seq<Leaf>, i: nat, pkt: Packet, time: int)
    returns (more: seq<Op>, now: Sched)
    requires Reached(bandwidth, ops, s) && Pair(s, r, ls) && i < 2 && ls[i].packets == [] && r.children == []
    ensures Reached(bandwidth, more, now)
    ensures Pair(now, Root(0, 0, r.voff + r.vmax, [Key(0, i + 2)]), ls[i := Joined(ls[i], r.voff + r.vmax, pkt)])
  {
    FirstPut(s, r, ls, i, pkt, time);
    assert IsLeaf(s.classes[i + 2], ls[i]);
    Reach(bandwidth, ops, s, Put(i + 2, pkt, time));
    more, now := ops + [Put(i + 2, pkt, time)], Apply(s, Put(i + 2, pkt, time));
  }

  lemma NextPutRun(bandwidth: nat, ops: seq<Op>, s: Sched, r: Root, ls: seq<Leaf>, i: nat, pkt: Packet, time: int)
    returns (more: seq<Op>, now: Sched)
    requires Reached(bandwidth, ops, s) && Pair(s, r, ls) && i < 2 && ls[i].packets != []
    ensures Reached(bandwidth, more, now) && Pair(now, r, ls[i := ls[i].(packets := ls[i].packets + [pkt])])
  {
    NextPut(s, r, ls, i, pkt, time);
    assert IsLeaf(s.classes[i + 2], ls[i]);
    Reach(bandwidth, ops, s, Put(i + 2, pkt, time));
    more, now := ops + [Put(i + 2, pkt, time)], Apply(s, Put(i + 2, pkt, time));
  }

  lemma LastTakeRun(bandwidth: nat, ops: seq<Op>, s: Sched, r: Root, ls: seq<Leaf>, i: nat, time: int)
    returns (more: seq<Op>, now: Sched)
    requires Reached(bandwidth, ops, s) && Pair(s, r, ls) && i < 2 && |ls[i].packets| == 1
      && r.children == [Key(ls[i].vtime, i + 2)]
    ensures Reached(bandwidth, more, now)
    ensures Pair(now, Root(Larger(r.vmin, ls[i].vtime), Larger(r.vmax, ls[i].vtime), r.voff, []),
                 ls[i := ls[i].(bytes := ls[i].bytes + ls[i].packets[0].len, packets := [])])
  {
    LastTake(s, r, ls, i, time);
    Reach(bandwidth, ops, s, Take(time));
    more, now := ops + [Take(time)], Apply(s, Take(time));
  }

  lemma NextTakeRun(bandwidth: nat, ops: seq<Op>, s: Sched, r: Root, ls: seq<Leaf>, i: nat, time: int, vtime: int)
    returns (more: seq<Op>, now: Sched)
    requires Reached(bandwidth, ops, s) && Pair(s, r, ls) && i < 2 && |ls[i].packets| > 1
      && r.children == [Key(ls[i].vtime, i + 2)]
    requires Larger(r.vmin, ls[i].vtime) <= vtime == RtscY2X(ls[i].run, ls[i].bytes + ls[i].packets[0].len) - ls[i].voff
    ensures Reached(bandwidth, more, now)
    ensures Pair(now, Root(Larger(r.vmin, ls[i].vtime), r.vmax, r.voff, [Key(vtime, i + 2)]),
                 ls[i := ls[i].(bytes := ls[i].bytes + ls[i].packets[0].len, vtime := vtime,
                                packets := ls[i].packets[1..])])
  {
    NextTake(s, r, ls, i, time, vtime);
    Reach(bandwidth, ops, s, Take(time));
    more, now := ops + [Take(time)], Apply(s, Take(time));
  }

  function IdleLeaf(bytes: nat, vtime: int): Leaf {
    Leaf(RuntimeInit(LINE, 0, 0), bytes, vtime, 0, [])
  }

  // A class of the rate above, created under the root.
  lemma LeafCreated(s: Sched, name: string)
    requires Linked(s) && name !in s.names && "root" in s.names && s.names["root"] == ROOT && s.classes[ROOT].cfg.in_use
      && s.classes[ROOT].cfg.pvoff == 0
    ensures var s' := CreateClass(s, name, "root", 0, true, Curves(None, RATE)).0;
      && Linked(s') && s'.eligible == s.eligible && s'.names == s.names[name := |s.classes|]
      && s'.classes == s.classes + [s'.classes[|s.classes|]] && |s'.classes| == |s.classes| + 1
      && IsLeaf(s'.classes[|s.classes|], IdleLeaf(0, 0))
  {
    RateIs();
  }

  lemma TwoLeaves(bandwidth: nat) returns (ops: seq<Op>, s: Sched)
    ensures Reached(bandwidth, ops, s) && Pair(s, Root(0, 0, 0, []), [IdleLeaf(0, 0), IdleLeaf(0, 0)])
  {
    var a := Create("a", "root", 0, true, Curves(None, RATE));
    var b := Create("b", "root", 0, true, Curves(None, RATE));
    ops, s := [], NewSched(bandwidth);
    LeafCreated(s, "a");
    Reach(bandwidth, ops, s, a);
    ops, s := ops + [a], Apply(s, a);
    LeafCreated(s, "b");
    Reach(bandwidth, ops, s, b);
    ops, s := ops + [b], Apply(s, b);
  }

  // In nanoseconds.
  const SECOND := 1_000_000_000

  // The first leaf sends 960 bytes and is idle again.
  lemma FirstRound(bandwidth: nat, time: int) returns (ops: seq<Op>, s: Sched)
    ensures Reached(bandwidth, ops, s) && Pair(s, Root(0, 0, 0, []), [IdleLeaf(960, 0), IdleLeaf(0, 0)])
  {
    var p, ls := Packet(0, 960), [IdleLeaf(0, 0), IdleLeaf(0, 0)];
    ops, s := TwoLeaves(bandwidth);
    ops, s := FirstPutRun(bandwidth, ops, s, Root(0, 0, 0, []), ls, 0, p, time);
    FreshCurve(p);
    ls := ls[0 := IdleLeaf(0, 0).(packets := [p])];
    ops, s := LastTakeRun(bandwidth, ops, s, Root(0, 0, 0, [Key(0, 2)]), ls, 0, time);
    assert ls[0 := IdleLeaf(960, 0)] == [IdleLeaf(960, 0), IdleLeaf(0, 0)];
  }

  lemma FreshCurve(pkt: Packet)
    ensures Joined(IdleLeaf(0, 0), 0, pkt) == IdleLeaf(0, 0).(packets := [pkt])
  {
    SegX2YExact(0, 16);
  }

  // The second leaf sends two packets, the first of them 1000 bytes long.
  lemma SecondRound(bandwidth: nat, time: int) returns (ops: seq<Op>, s: Sched)
    ensures Reached(bandwidth, ops, s)
    ensures Pair(s, Root(SECOND, SECOND, 0, []), [IdleLeaf(960, 0), IdleLeaf(1001, SECOND)])
  {
    var p, q, ls := Packet(1, 1000), Packet(2, 1), [IdleLeaf(960, 0), IdleLeaf(0, 0)];
    ops, s := FirstRound(bandwidth, time);
    ops, s := FirstPutRun(bandwidth, ops, s, Root(0, 0, 0, []), ls, 1, p, time);
    FreshCurve(p);
    ls := ls[1 := IdleLeaf(0, 0).(packets := [p])];
    ops, s := NextPutRun(bandwidth, ops, s, Root(0, 0, 0, [Key(0, 3)]), ls, 1, q, time);
    assert [p] + [q] == [p, q] && [p, q][1..] == [q];
    ls := ls[1 := IdleLeaf(0, 0).(packets := [p, q])];
    ops, s := NextTakeRun(bandwidth, ops, s, Root(0, 0, 0, [Key(0, 3)]), ls, 1, time, SECOND);
    ls := ls[1 := IdleLeaf(1000, SECOND).(packets := [q])];
    ops, s := LastTakeRun(bandwidth, ops, s, Root(0, 0, 0, [Key(SECOND, 3)]), ls, 1, time);
    assert ls[1 := IdleLeaf(1001, SECOND)] == [IdleLeaf(960, 0), IdleLeaf(1001, SECOND)];
  }

  lemma KeptCurve(pkt: Packet)
    ensures Joined(IdleLeaf(960, 0), SECOND, pkt) == Back([pkt])
  {
    SegX2YExact(SECOND, 16);
  }

  function Back(packets: seq<Packet>): Leaf {
    Leaf(RuntimeInit(LINE, 0, 0), 960, 0, SECOND, packets)
  }

  // The first leaf comes back. Its curve is kept, as it has granted no more than 953 bytes in the
  // first second, and with it the offset of one second.
  lemma ThirdRound(bandwidth: nat, time: int) returns (ops: seq<Op>, s: Sched)
    ensures Reached(bandwidth, ops, s)
    ensures Pair(s, Root(0, 0, SECOND, [Key(0, 2)]), [Back([Packet(3, 1), Packet(4, 1)]), IdleLeaf(1001, SECOND)])
  {
    var p, q, ls := Packet(3, 1), Packet(4, 1), [IdleLeaf(960, 0), IdleLeaf(1001, SECOND)];
    ops, s := SecondRound(bandwidth, time);
    ops, s := FirstPutRun(bandwidth, ops, s, Root(SECOND, SECOND, 0, []), ls, 0, p, time);
    KeptCurve(p);
    ls := ls[0 := Back([p])];
    ops, s := NextPutRun(bandwidth, ops, s, Root(0, 0, SECOND, [Key(0, 2)]), ls, 0, q, time);
    assert [p] + [q] == [p, q] && ls[0 := Back([p, q])] == [Back([p, q]), IdleLeaf(1001, SECOND)];
  }

  lemma Underflow(sh: Share)
    requires sh.f_run == RuntimeInit(LINE, 0, 0) && sh.f_bytes == 961 && sh.voff == SECOND && sh.vadj == 0
    ensures RtscY2X(sh.f_run, sh.f_bytes) == 961_000_000
    ensures Advance(sh, 0).vtime == 0 && AdvanceWord(sh, 0).vtime == U64_MODULUS - 39_000_000
  {
  }

  // A run of ordinary operations at two equal leaves, whatever the link and the clock, after which
  // dequeue subtracts an offset from an earlier time. The class stays at its parent's floor, but in
  // words its virtual time is almost the largest there is.
  lemma SubtractionUnderflows(bandwidth: nat, time: int) returns (ops: seq<Op>, s: Sched)
    ensures Reached(bandwidth, ops, s) && Linked(s) && Picked(s, time) == 2 && |s.classes| == 4
      && |s.classes[2].packets| == 2
    ensures var sh := s.classes[2].sh.(f_bytes := s.classes[2].sh.f_bytes + s.classes[2].packets[0].len);
      && RtscY2X(sh.f_run, sh.f_bytes) == 961_000_000 && sh.voff == SECOND
      && s.classes[ROOT].sh.vmin == Advance(sh, s.classes[ROOT].sh.vmin).vtime == 0
      && AdvanceWord(sh, 0).vtime == U64_MODULUS - 39_000_000
  {
    ops, s := ThirdRound(bandwidth, time);
    assert IsLeaf(s.classes[2], [Back([Packet(3, 1), Packet(4, 1)]), IdleLeaf(1001, SECOND)][0]);
    DescentAlone(s, 2, time);
    Underflow(s.classes[2].sh.(f_bytes := 961));
  }
}
