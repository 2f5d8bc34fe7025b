/**
 Packets on interior classes, which the scheduler accepts like any others: only leaves and classes
 with a real-time curve ever send, and a packet on another class can keep those of its siblings back.
 */
module HfscInterior {
  import opened ServiceCurve
  import opened HfscState
  import opened HfscInvariant
  import opened HfscDescent
  import opened HfscScheduling
  import opened HfscRuns
  import opened HfscQueues

  // A class that is no leaf and has no real-time curve.
  ghost predicate Silent(s: Sched, c: nat) {
    c < |s.classes| && !s.classes[c].cfg.leaf && s.classes[c].cfg.r_isc.None?
  }

  lemma SilentStays(s: Sched, op: Op, c: nat)
    requires SchedInv(s) && Silent(s, c)
    ensures Linked(s) && SchedInv(Apply(s, op)) && Silent(Apply(s, op), c) && SentBy(s, op, c) == []
  {
    StepMoves(s, op, c);
    StepKeeps(s, op);
  }

  // In any run of any operations such a class never sends a packet.
  lemma {:induction false} SilentSends(s: Sched, ops: seq<Op>, c: nat)
    requires SchedInv(s) && Silent(s, c)
    ensures AllLinked(s, ops) && Sent(s, ops, c) == []
    decreases |ops|
  {
    if ops == [] {
      DequeueReady(s);
    } else {
      SilentStays(s, ops[0], c);
      SilentSends(Apply(s, ops[0]), ops[1..], c);
    }
  }

  // So it keeps all that it has accepted.
  lemma {:induction false} InteriorNeverSends(s: Sched, ops: seq<Op>, c: nat)
    requires SchedInv(s) && Silent(s, c)
    ensures AllLinked(s, ops) && Sent(s, ops, c) == []
    ensures QueueOf(Run(s, ops), c) == QueueOf(s, c) + Accepted(s, ops, c)
  {
    SilentSends(s, ops, c);
    Conservation(s, ops, c);
  }

  /// ## What a sequence of dequeues returns

  ghost predicate OnlyTakes(ops: seq<Op>) {
    forall i :: 0 <= i < |ops| ==> ops[i].Take?
  }

  // The real-time criterion has a class to serve at one of the dequeues.
  ghost predicate SomeDueIn(cs: seq<Class>, ops: seq<Op>) {
    exists i :: 0 <= i < |ops| && ops[i].Take? && SomeDue(cs, ops[i].time)
  }

  lemma TakeLowers(s: Sched, op: Op)
    requires SchedInv(s) && op.Take?
    ensures Linked(s) && SchedInv(Apply(s, op)) && Apply(s, op).queued <= s.queued
    ensures Apply(s, op).queued < s.queued <==> Dequeue(s, op.time).1.Some?
    ensures Dequeue(s, op.time).1.None? ==> Unserved(s, Apply(s, op))
  {
    DequeueKeeps(s, op.time);
  }

  // Dequeues that lower the packet count nowhere leave every queue as it is.
  lemma {:induction false} TakesLower(s: Sched, ops: seq<Op>)
    requires SchedInv(s) && OnlyTakes(ops)
    ensures AllLinked(s, ops) && Run(s, ops).queued <= s.queued
    ensures Run(s, ops).queued == s.queued ==> forall c :: QueueOf(Run(s, ops), c) == QueueOf(s, c)
    decreases |ops|
  {
    if ops == [] {
      DequeueReady(s);
    } else {
      TakeLowers(s, ops[0]);
      TakesLower(Apply(s, ops[0]), ops[1..]);
    }
  }

  // Raised floors change neither criterion.
  lemma UnservedSame(s: Sched, s': Sched, path: seq<nat>, time: int)
    requires Unserved(s, s') && BelowRoot(s.classes, path)
    ensures BelowRoot(s'.classes, path)
    ensures Supplied(s'.classes, path) == Supplied(s.classes, path)
    ensures SomeDue(s'.classes, time) == SomeDue(s.classes, time)
  {
    assert forall i :: 0 <= i < |s.classes| ==> s'.classes[i].cfg == s.classes[i].cfg;
    LastLeafSame(s.classes, s'.classes, path);
    assert forall i: nat :: EligibleNow(s'.classes, i, time) == EligibleNow(s.classes, i, time);
  }

  lemma UnservedDueIn(s: Sched, s': Sched, ops: seq<Op>)
    requires Unserved(s, s')
    ensures SomeDueIn(s'.classes, ops) == SomeDueIn(s.classes, ops)
  {
    forall time ensures SomeDue(s'.classes, time) == SomeDue(s.classes, time) {
      UnservedSame(s, s', [], time);
    }
  }

  lemma DueInRest(cs: seq<Class>, ops: seq<Op>)
    requires ops != [] && OnlyTakes(ops)
    ensures SomeDueIn(cs, ops) <==> SomeDue(cs, ops[0].time) || SomeDueIn(cs, ops[1..])
  {
    assert forall i :: 0 <= i < |ops| - 1 ==> ops[1..][i] == ops[i + 1];
    if SomeDueIn(cs, ops) && !SomeDue(cs, ops[0].time) {
      var i :| 0 <= i < |ops| && ops[i].Take? && SomeDue(cs, ops[i].time);
      assert ops[1..][i - 1] == ops[i];
    }
  }

  // Of any number of dequeues one returns a packet if and only if the last leaf on the path of least
  // virtual times has packets, or at one of them a class is eligible and has a finite deadline.
  lemma {:induction false} TakesReturn(s: Sched, ops: seq<Op>, path: seq<nat>)
    requires SchedInv(s) && Descent(s.classes, ROOT, path) && OnlyTakes(ops) && ops != []
    ensures AllLinked(s, ops)
    ensures Run(s, ops).queued < s.queued <==> Supplied(s.classes, path) || SomeDueIn(s.classes, ops)
    decreases |ops|
  {
    var s', rest := Apply(s, ops[0]), ops[1..];
    TakesLower(s, ops);
    TakeLowers(s, ops[0]);
    TakesLower(s', rest);
    DequeueReturns(s, ops[0].time, path);
    DueInRest(s.classes, ops);
    if Dequeue(s, ops[0].time).1.None? && rest != [] {
      UnservedSame(s, s', path, 0);
      UnservedDueIn(s, s', rest);
      DescentSame(s.classes, s'.classes, ROOT, path);
      TakesReturn(s', rest, path);
    }
  }

  /// ## One class
  ///
  /// One class under the root of a fresh scheduler, with one packet.

  ghost function OneClass(bandwidth: nat, isLeaf: bool, curves: Curves): Sched {
    CreateClass(NewSched(bandwidth), "a", "root", 0, isLeaf, curves).0
  }

  lemma OneClassIs(bandwidth: nat, isLeaf: bool, curves: Curves)
    ensures var s := OneClass(bandwidth, isLeaf, curves);
      && SchedInv(s) && s.queued == 0
      && s.classes == NewSched(bandwidth).classes + [NewClass(ROOT, 2, 0, isLeaf, 0, curves)]
      && s.names == NewSched(bandwidth).names["a" := 2]
  {
    NewSchedInv(bandwidth);
    CreateClassKeeps(NewSched(bandwidth), "a", "root", 0, isLeaf, curves);
  }

  ghost function OnePacket(bandwidth: nat, isLeaf: bool, curves: Curves, pkt: Packet, time: int): Sched {
    OneClassIs(bandwidth, isLeaf, curves);
    Enqueue(OneClass(bandwidth, isLeaf, curves), 2, pkt, time).0
  }

  // The class is a leaf, or its eligible time has come and its deadline is finite.
  ghost predicate Due(cl: Class, now: int) {
    cl.cfg.leaf || (cl.cfg.r_isc.Some? && cl.rt.eligible <= now && cl.rt.deadline < HT_INFINITY)
  }

  lemma OneOnPath(cs: seq<Class>, i: nat)
    requires ROOT < i < |cs|
    ensures LastLeaf(cs, [i]) == if cs[i].cfg.leaf then i else 0
  {
    assert [i][..0] == [];
  }

  ghost predicate Single(s: Sched, pkt: Packet) {
    && SchedInv(s) && |s.classes| == 3 && s.queued == 1
    && s.classes[2].packets == [pkt] && s.classes[2].cfg.parent == ROOT
  }

  lemma OnePacketIs(bandwidth: nat, isLeaf: bool, curves: Curves, pkt: Packet, time: int)
    ensures Single(OnePacket(bandwidth, isLeaf, curves, pkt, time), pkt)
  {
    OneClassIs(bandwidth, isLeaf, curves);
    EnqueueKeeps(OneClass(bandwidth, isLeaf, curves), 2, pkt, time);
  }

  lemma SingleDescent(s: Sched, pkt: Packet)
    requires Single(s, pkt)
    ensures Descent(s.classes, ROOT, [2])
    ensures Supplied(s.classes, [2]) == s.classes[2].cfg.leaf
    ensures forall time :: SomeDue(s.classes, time) <==>
      EligibleNow(s.classes, 2, time) && s.classes[2].rt.deadline < HT_INFINITY
  {
    var cs := s.classes;
    assert cs[2].sh.nactive == Busy(cs[2]);
    assert LeastChild(cs, ROOT, 2);
    assert Descent(cs, 2, [2][1..]);
    OneOnPath(cs, 2);
  }

  // For a packet put on any one class of a fresh scheduler: some dequeue returns it if and only if it is
  // due at one of them.
  lemma {:induction false} PacketReturnedIfDue(bandwidth: nat, isLeaf: bool, curves: Curves, pkt: Packet, time: int,
      ops: seq<Op>)
    requires OnlyTakes(ops)
    ensures var s := OnePacket(bandwidth, isLeaf, curves, pkt, time);
      && s.queued == 1 && |s.classes| == 3 && AllLinked(s, ops)
      && (Run(s, ops).queued == 0 <==> exists i :: 0 <= i < |ops| && Due(s.classes[2], ops[i].time))
  {
    var s := OnePacket(bandwidth, isLeaf, curves, pkt, time);
    OnePacketIs(bandwidth, isLeaf, curves, pkt, time);
    SingleDescent(s, pkt);
    TakesLower(s, ops);
    RunKeeps(s, ops);
    if ops != [] {
      TakesReturn(s, ops, [2]);
      if s.classes[2].cfg.leaf {
        assert Due(s.classes[2], ops[0].time);
      }
    }
  }

  /// ## Two siblings
  ///
  /// An interior class without a real-time curve and a leaf, both under the root of a fresh scheduler.

  ghost function TwoClasses(bandwidth: nat, a: Curves, b: Curves): Sched {
    CreateClass(OneClass(bandwidth, false, a), "b", "root", 0, true, b).0
  }

  lemma TwoClassesIs(bandwidth: nat, a: Curves, b: Curves)
    ensures var s := TwoClasses(bandwidth, a, b);
      && SchedInv(s) && s.queued == 0
      && s.classes == NewSched(bandwidth).classes
        + [NewClass(ROOT, 2, 0, false, 0, a), NewClass(ROOT, 3, 0, true, 0, b)]
  {
    OneClassIs(bandwidth, false, a);
    CreateClassKeeps(OneClass(bandwidth, false, a), "b", "root", 0, true, b);
  }

  // A class under the root going active changes that class and the root only.
  lemma WakeUnderRoot(s: Sched, c: nat, pkt: Packet, time: int)
    requires SchedInv(s) && ROOT < c < |s.classes| && s.classes[c].cfg.parent == ROOT && s.classes[c].cfg.qlimit == 0
    requires s.classes[c].packets == [] && s.classes[c].sh.nactive == 0
    ensures var cs := Enqueue(s, c, pkt, time).0.classes;
      && (s.classes[ROOT].sh.children == [] ==> cs[c].sh.vtime == 0)
      && forall i :: ROOT < i < |s.classes| && i != c ==> cs[i].sh == s.classes[i].sh
  {
    var counted := OneMoreActive(s.classes, c);
    ActivateForest(counted, c);
    ActivateEffect(counted, c);
    assert InitV(s.classes, c) == Activate(counted, c);
    WakeUpClasses(s, c, pkt.len, time);
  }

  // The packet of the interior class is put first, then that of the leaf.
  ghost function TwoPackets(bandwidth: nat, a: Curves, b: Curves, pa: Packet, pb: Packet, ta: int, tb: int): Sched {
    TwoClassesIs(bandwidth, a, b);
    EnqueueKeeps(TwoClasses(bandwidth, a, b), 2, pa, ta);
    Enqueue(Enqueue(TwoClasses(bandwidth, a, b), 2, pa, ta).0, 3, pb, tb).0
  }

  ghost predicate Siblings(s: Sched, pa: Packet, pb: Packet) {
    && SchedInv(s) && |s.classes| == 4 && s.queued == 2 && Silent(s, 2) && s.classes[3].cfg.leaf
    && s.classes[2].packets == [pa] && s.classes[2].cfg.parent == ROOT && s.classes[2].sh.vtime == 0
    && s.classes[3].packets == [pb] && s.classes[3].cfg.parent == ROOT
  }

  lemma TwoPacketsIs(bandwidth: nat, a: Curves, b: Curves, pa: Packet, pb: Packet, ta: int, tb: int)
    requires a.r_sc.None?
    ensures Siblings(TwoPackets(bandwidth, a, b, pa, pb, ta, tb), pa, pb)
  {
    var s := TwoClasses(bandwidth, a, b);
    TwoClassesIs(bandwidth, a, b);
    EnqueueKeeps(s, 2, pa, ta);
    WakeUnderRoot(s, 2, pa, ta);
    var s1 := Enqueue(s, 2, pa, ta).0;
    assert s1.classes[3].sh.nactive == Busy(s1.classes[3]);
    EnqueueKeeps(s1, 3, pb, tb);
    WakeUnderRoot(s1, 3, pb, tb);
  }

  lemma SiblingsDescent(s: Sched, pa: Packet, pb: Packet)
    requires Siblings(s, pa, pb)
    ensures Descent(s.classes, ROOT, [2]) && !Supplied(s.classes, [2])
    ensures forall time :: SomeDue(s.classes, time) <==>
      EligibleNow(s.classes, 3, time) && s.classes[3].rt.deadline < HT_INFINITY
  {
    var cs := s.classes;
    assert cs[2].sh.nactive == Busy(cs[2]) && cs[3].sh.nactive == Busy(cs[3]);
    assert FloorAt(cs, ROOT, 0) && FloorAt(cs, 3, 0);
    assert LeastChild(cs, ROOT, 2);
    assert Descent(cs, 2, [2][1..]);
    OneOnPath(cs, 2);
  }

  // A packet on an interior class keeps back the one that was put on its sibling, a leaf: no dequeue
  // returns either, except by deadline if the leaf has a real-time curve.
  lemma {:induction false} InteriorBlocksLeaf(bandwidth: nat, a: Curves, b: Curves, pa: Packet, pb: Packet, ta: int,
      tb: int, ops: seq<Op>)
    requires a.r_sc.None? && OnlyTakes(ops)
    ensures var s := TwoPackets(bandwidth, a, b, pa, pb, ta, tb);
      && s.queued == 2 && |s.classes| == 4 && s.classes[3].cfg.leaf && AllLinked(s, ops)
      && (Run(s, ops).queued == 2 <==> forall i :: 0 <= i < |ops| ==>
            !(EligibleNow(s.classes, 3, ops[i].time) && s.classes[3].rt.deadline < HT_INFINITY))
      && (Run(s, ops).queued == 2 ==> QueueOf(Run(s, ops), 2) == [pa] && QueueOf(Run(s, ops), 3) == [pb])
  {
    var s := TwoPackets(bandwidth, a, b, pa, pb, ta, tb);
    TwoPacketsIs(bandwidth, a, b, pa, pb, ta, tb);
    SiblingsDescent(s, pa, pb);
    TakesLower(s, ops);
    if ops != [] {
      TakesReturn(s, ops, [2]);
    }
  }
}
