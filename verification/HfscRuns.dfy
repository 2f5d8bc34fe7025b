/**
 Whole runs of the scheduler: any sequence of creating classes, enqueueing and dequeueing, starting
 from a fresh scheduler. The invariant holds over all of them. If the callers keep packets off
 interior classes and classes off leaves, no run leaves a queued packet that dequeue does not return.
 */
module HfscRuns {
  import opened Basics
  import opened ServiceCurve
  import opened HfscState
  import opened HfscInvariant
  import opened HfscServing
  import opened HfscScheduling

  datatype Op =
    | Create(name: string, parentName: string, qlimit: nat, isLeaf: bool, curves: Curves)
    | Put(c: nat, pkt: Packet, time: int)
    | Take(time: int)

  // What the scheduler leaves to its callers: parents are interior classes, packets go to leaves.
  ghost predicate Allowed(s: Sched, op: Op) {
    match op
    case Create(_, parentName, _, _, _) =>
      parentName in s.names && s.names[parentName] < |s.classes| ==> !s.classes[s.names[parentName]].cfg.leaf
    case Put(c, _, _) => c < |s.classes| && s.classes[c].cfg.in_use ==> s.classes[c].cfg.leaf
    case Take(_) => true
  }

  ghost function Apply(s: Sched, op: Op): Sched
    requires Linked(s)
  {
    match op
    case Create(name, parentName, qlimit, isLeaf, curves) => CreateClass(s, name, parentName, qlimit, isLeaf, curves).0
    case Put(c, pkt, time) => Enqueue(s, c, pkt, time).0
    case Take(time) => Dequeue(s, time).0
  }

  /// ## Creation

  lemma NewSchedInv(bandwidth: nat)
    ensures SchedInv(NewSched(bandwidth))
  {
    var cs := NewSched(bandwidth).classes;
    ConfiguredWellFormed(Sc(0, 0, 0));
    ConfiguredWellFormed(Sc(0, 0, bandwidth));
    assert cs == [DUMMY, cs[1]];
    assert cs[..1] == [DUMMY] && cs[..1][..0] == [];
    assert TotalQueued(cs[..1]) == 0;
  }

  // The curve as configured, from the origin.
  predicate FromOrigin(run: RuntimeSc, sc: Sc) {
    && run.x == 0 && run.y == 0 && run.dx == D2Dx(sc.d) && run.dy == SegX2Y(D2Dx(sc.d), M2Sm(sc.m1))
    && run.sm1 == M2Sm(sc.m1) && run.ism1 == M2Ism(sc.m1) && run.sm2 == M2Sm(sc.m2) && run.ism2 == M2Ism(sc.m2)
  }

  predicate Configures(isc: InternalSc, sc: Sc) {
    && isc.dx == D2Dx(sc.d) && isc.dy == SegX2Y(D2Dx(sc.d), M2Sm(sc.m1))
    && isc.sm1 == M2Sm(sc.m1) && isc.ism1 == M2Ism(sc.m1) && isc.sm2 == M2Sm(sc.m2) && isc.ism2 == M2Ism(sc.m2)
  }

  // A class as it is created: with what was asked for, its curves from the origin, and nothing else yet.
  ghost predicate Starts(cl: Class, parent: nat, index: nat, qlimit: nat, isLeaf: bool, pvoff: int, curves: Curves) {
    && cl.cfg.in_use && cl.cfg.leaf == isLeaf && cl.cfg.parent == parent && cl.cfg.index == index
    && cl.cfg.qlimit == qlimit && cl.cfg.pvoff == pvoff && Configures(cl.cfg.f_isc, curves.f_sc)
    && FromOrigin(cl.sh.f_run, curves.f_sc)
    && (match curves.r_sc
        case None => cl.cfg.r_isc == None
        case Some(sc) =>
          && cl.cfg.r_isc.Some? && Configures(cl.cfg.r_isc.value, sc)
          && FromOrigin(cl.rt.d_run, sc) && FromOrigin(cl.rt.e_run, sc))
    && cl.rt.eligible == cl.rt.deadline == cl.rt.r_bytes == 0
    && cl.sh.vtime == cl.sh.vmin == cl.sh.vmax == cl.sh.voff == cl.sh.vadj == 0
    && cl.sh.vperiod == cl.sh.pvperiod == cl.sh.f_bytes == cl.sh.nactive == 0
    && cl.sh.children == [] && cl.packets == [] && cl.qdrops == 0
  }

  // A new scheduler has a dummy that is not in use, and the root with the bandwidth of the link.
  lemma NewSchedIs(bandwidth: nat)
    ensures var s := NewSched(bandwidth);
      && |s.classes| == 2 && !s.classes[0].cfg.in_use && s.classes[0].packets == []
      && Starts(s.classes[ROOT], 0, ROOT, 0, false, 0, Curves(None, Sc(0, 0, bandwidth)))
      && s.eligible == [] && s.queued == 0 && s.names == map["dummy" := 0, "root" := ROOT]
  {
  }

  lemma NewClassCurves(parent: nat, index: nat, qlimit: nat, isLeaf: bool, pvoff: int, curves: Curves)
    ensures CurvesAt(NewClass(parent, index, qlimit, isLeaf, pvoff, curves))
  {
    ConfiguredWellFormed(curves.f_sc);
    if curves.r_sc.Some? {
      ConfiguredWellFormed(curves.r_sc.value);
    }
  }

  // A new class without children or packets.
  ghost predicate Fresh(cs: seq<Class>, cl: Class) {
    && cl.cfg.in_use && cl.cfg.index == |cs| && 0 < cl.cfg.parent < |cs|
    && cl.sh.children == [] && cl.packets == [] && cl.sh.nactive == 0 && cl.sh.vmin == 0
  }

  lemma AppendClassChildren(cs: seq<Class>, cl: Class)
    requires Forest(cs) && ChildrenExact(cs, 0) && Fresh(cs, cl)
    ensures ChildrenExact(cs + [cl], 0)
  {
    var cs' := cs + [cl];
    forall q | 0 <= q < |cs'| ensures TreeExact(cs', q, 0) {
      if q < |cs| {
        assert TreeExact(cs, q, 0);
        forall k ensures k in cs'[q].sh.children <==> IsActiveChild(cs', q, k) {
          assert k in cs[q].sh.children <==> IsActiveChild(cs, q, k);
        }
      } else {
        assert forall k :: !IsActiveChild(cs', q, k);
      }
    }
  }

  lemma AppendClassTree(cs: seq<Class>, cl: Class)
    requires TreeInv(cs) && Fresh(cs, cl)
    ensures TreeInv(cs + [cl])
  {
    var cs' := cs + [cl];
    AppendClassShape(cs, cl);
    AppendClassChildren(cs, cl);
    forall i | ROOT < i < |cs'| ensures cs'[i].sh.nactive == Busy(cs'[i]) {
      if i < |cs| {
        assert cs[i].sh.nactive == Busy(cs[i]);
      }
    }
  }

  lemma AppendClassShape(cs: seq<Class>, cl: Class)
    requires Shape(cs) && AboveFloor(cs, 0) && Fresh(cs, cl)
    ensures Shape(cs + [cl]) && AboveFloor(cs + [cl], 0)
  {
    var cs' := cs + [cl];
    assert Forest(cs');
    forall i | 0 <= i < |cs'| ensures FloorAt(cs', i, 0) {
      if i < |cs| {
        assert FloorAt(cs, i, 0);
      }
    }
  }

  // A class is created exactly under a fresh name and an existing class in use; it starts idle
  // and nothing else changes.
  lemma {:induction false} CreateClassKeeps(s: Sched, name: string, parentName: string, qlimit: nat, isLeaf: bool,
      curves: Curves)
    requires SchedInv(s)
    ensures var (s', e) := CreateClass(s, name, parentName, qlimit, isLeaf, curves);
      && SchedInv(s')
      && (e.None? <==> name !in s.names && parentName in s.names
                       && 0 < s.names[parentName] < |s.classes|)
      && (e == Some(ClassExists) <==> name in s.names)
      && (e == Some(ParentNotFound) <==> name !in s.names && parentName !in s.names)
      && (e.Some? ==> s' == s)
      && (e.None? ==> |s'.classes| == |s.classes| + 1)
      && (e.None? ==>
            && Starts(s'.classes[|s.classes|], s.names[parentName], |s.classes|, qlimit, isLeaf,
                      s.classes[s.names[parentName]].cfg.pvoff, curves)
            && s'.classes == s.classes + [s'.classes[|s.classes|]] && s'.eligible == s.eligible
            && s'.names == s.names[name := |s.classes|] && s'.queued == s.queued)
  {
    var (s', e) := CreateClass(s, name, parentName, qlimit, isLeaf, curves);
    var cs := s.classes;
    if e.None? {
      var parent := s.names[parentName];
      var cl := NewClass(parent, |cs|, qlimit, isLeaf, cs[parent].cfg.pvoff, curves);
      AppendClassTree(cs, cl);
      NewClassCurves(parent, |cs|, qlimit, isLeaf, cs[parent].cfg.pvoff, curves);
      forall k ensures k in s.eligible <==> IsWaiting(s'.classes, k) {
        assert k in s.eligible <==> IsWaiting(cs, k);
      }
    }
  }

  /// ## What an operation accepts and sends

  ghost function QueueOf(s: Sched, c: nat): seq<Packet> {
    if c < |s.classes| then s.classes[c].packets else []
  }

  ghost function BytesOf(s: Sched, c: nat): nat {
    if c < |s.classes| then s.classes[c].sh.f_bytes else 0
  }

  ghost function AcceptedBy(s: Sched, op: Op, c: nat): seq<Packet>
    requires Linked(s)
  {
    if op.Put? && op.c == c && Enqueue(s, c, op.pkt, op.time).1 then [op.pkt] else []
  }

  ghost function SentBy(s: Sched, op: Op, c: nat): seq<Packet>
    requires Linked(s)
  {
    match op
    case Create(_, _, _, _, _) => []
    case Put(_, _, _) => []
    case Take(time) =>
      match Dequeue(s, time).1
      case None => []
      case Some(pkt) => if Picked(s, time) == c then [pkt] else []
  }

  // Configurations never change, and classes are only added.
  ghost predicate Grows(s: Sched, s': Sched) {
    |s.classes| <= |s'.classes| && forall i :: 0 <= i < |s.classes| ==> s'.classes[i].cfg == s.classes[i].cfg
  }

  lemma {:induction false} UnderGrows(cs: seq<Class>, cs': seq<Class>, i: nat, a: nat)
    requires Forest(cs) && Forest(cs') && i < |cs| <= |cs'|
    requires forall j :: 0 <= j < |cs| ==> cs'[j].cfg == cs[j].cfg
    ensures Under(cs', i, a) == Under(cs, i, a)
    decreases i
  {
    if cs[i].cfg.parent != 0 {
      UnderGrows(cs, cs', cs[i].cfg.parent, a);
    }
  }

  // A parent's floor never falls while the parent has active children.
  ghost predicate FloorsHeld(s: Sched, s': Sched) {
    |s.classes| <= |s'.classes| && forall p :: 0 <= p < |s.classes| ==> FloorHeld(s, s', p)
  }

  ghost predicate FloorHeld(s: Sched, s': Sched, p: nat)
    requires p < |s.classes| && p < |s'.classes|
  {
    s.classes[p].sh.children != [] ==> s.classes[p].sh.vmin <= s'.classes[p].sh.vmin
  }

  lemma CreateHolds(s: Sched, s': Sched, cl: Class)
    requires s'.classes == s.classes + [cl]
    ensures Grows(s, s') && FloorsHeld(s, s')
  {
  }

  lemma SameClassesHold(s: Sched, s': Sched, c: nat)
    requires SameOthers(s.classes, s'.classes, c) && c < |s.classes| && s'.classes[c].cfg == s.classes[c].cfg
    requires FloorsKept(s.classes, s'.classes)
    ensures Grows(s, s') && FloorsHeld(s, s')
  {
  }

  // The outcome of an operation: the invariant holds, and configurations and floors are kept.
  ghost predicate KeptBy(s: Sched, s': Sched) {
    SchedInv(s') && Grows(s, s') && FloorsHeld(s, s')
  }

  lemma CreateKept(s: Sched, op: Op)
    requires SchedInv(s) && op.Create?
    ensures Linked(s) && KeptBy(s, Apply(s, op))
  {
    DequeueReady(s);
    CreateClassKeeps(s, op.name, op.parentName, op.qlimit, op.isLeaf, op.curves);
    if Apply(s, op) != s {
      CreateHolds(s, Apply(s, op), Apply(s, op).classes[|s.classes|]);
    }
  }

  lemma PutKept(s: Sched, op: Op)
    requires SchedInv(s) && op.Put?
    ensures Linked(s) && KeptBy(s, Apply(s, op))
  {
    DequeueReady(s);
    EnqueueKeeps(s, op.c, op.pkt, op.time);
    if Apply(s, op) != s {
      SameClassesHold(s, Apply(s, op), op.c);
    }
  }

  lemma TakeKept(s: Sched, op: Op)
    requires SchedInv(s) && op.Take?
    ensures Linked(s) && KeptBy(s, Apply(s, op))
  {
    DequeueKeeps(s, op.time);
    if Dequeue(s, op.time).1.Some? {
      SameClassesHold(s, Apply(s, op), Picked(s, op.time));
    }
  }

  lemma {:induction false} StepKeeps(s: Sched, op: Op)
    requires SchedInv(s)
    ensures Linked(s) && SchedInv(Apply(s, op)) && Grows(s, Apply(s, op)) && FloorsHeld(s, Apply(s, op))
  {
    match op
    case Create(_, _, _, _, _) => CreateKept(s, op);
    case Put(_, _, _) => PutKept(s, op);
    case Take(_) => TakeKept(s, op);
  }

  ghost function TotalLen(pkts: seq<Packet>): nat {
    if pkts == [] then 0 else pkts[0].len + TotalLen(pkts[1..])
  }

  lemma {:induction false} TotalLenConcat(a: seq<Packet>, b: seq<Packet>)
    ensures TotalLen(a + b) == TotalLen(a) + TotalLen(b)
  {
    if a == [] {
      assert a + b == b;
    } else {
      TotalLenConcat(a[1..], b);
      assert (a + b)[1..] == a[1..] + b;
    }
  }

  /// ## Runs

  // The operations make sense one after the other, which they always do (RunKeeps).
  ghost predicate AllLinked(s: Sched, ops: seq<Op>)
    decreases |ops|
  {
    Linked(s) && (ops == [] || AllLinked(Apply(s, ops[0]), ops[1..]))
  }

  ghost function Run(s: Sched, ops: seq<Op>): Sched
    requires AllLinked(s, ops)
    decreases |ops|
  {
    if ops == [] then s else Run(Apply(s, ops[0]), ops[1..])
  }

  ghost function Accepted(s: Sched, ops: seq<Op>, c: nat): seq<Packet>
    requires AllLinked(s, ops)
    decreases |ops|
  {
    if ops == [] then [] else AcceptedBy(s, ops[0], c) + Accepted(Apply(s, ops[0]), ops[1..], c)
  }

  ghost function Sent(s: Sched, ops: seq<Op>, c: nat): seq<Packet>
    requires AllLinked(s, ops)
    decreases |ops|
  {
    if ops == [] then [] else SentBy(s, ops[0], c) + Sent(Apply(s, ops[0]), ops[1..], c)
  }

  lemma {:induction false} RunKeeps(s: Sched, ops: seq<Op>)
    requires SchedInv(s)
    ensures AllLinked(s, ops) && SchedInv(Run(s, ops)) && Grows(s, Run(s, ops))
    decreases |ops|
  {
    if ops != [] {
      StepKeeps(s, ops[0]);
      RunKeeps(Apply(s, ops[0]), ops[1..]);
      GrowsThen(s, Apply(s, ops[0]), Run(s, ops));
    }
  }

  // Class p has active children before every operation of the run.
  ghost predicate StaysActive(s: Sched, ops: seq<Op>, p: nat)
    requires AllLinked(s, ops)
    decreases |ops|
  {
    ops == [] ||
    (p < |s.classes| && s.classes[p].sh.children != [] && StaysActive(Apply(s, ops[0]), ops[1..], p))
  }

  // Over a run its floor only rises.
  lemma {:induction false} FloorOverRun(s: Sched, ops: seq<Op>, p: nat)
    requires SchedInv(s) && AllLinked(s, ops) && StaysActive(s, ops, p) && p < |s.classes|
    ensures p < |Run(s, ops).classes| && s.classes[p].sh.vmin <= Run(s, ops).classes[p].sh.vmin
    decreases |ops|
  {
    if ops != [] {
      StepKeeps(s, ops[0]);
      assert FloorHeld(s, Apply(s, ops[0]), p);
      FloorOverRun(Apply(s, ops[0]), ops[1..], p);
    }
  }

  lemma GrowsThen(a: Sched, b: Sched, c: Sched)
    requires Grows(a, b) && Grows(b, c)
    ensures Grows(a, c)
  {
  }

  /// ## Work conservation

  ghost predicate EachAllowed(s: Sched, ops: seq<Op>)
    requires AllLinked(s, ops)
    decreases |ops|
  {
    ops == [] || (Allowed(s, ops[0]) && EachAllowed(Apply(s, ops[0]), ops[1..]))
  }

  ghost predicate AllAllowed(s: Sched, ops: seq<Op>) {
    AllLinked(s, ops) && EachAllowed(s, ops)
  }

  lemma CreateTidy(s: Sched, s': Sched, cl: Class)
    requires Forest(s.classes) && Tidy(s.classes) && Forest(s'.classes) && s'.classes == s.classes + [cl]
    requires cl.cfg.parent < |s.classes| && !s.classes[cl.cfg.parent].cfg.leaf && cl.packets == []
    ensures Tidy(s'.classes)
  {
  }

  // Packets may leave any queue, and come to that of a leaf.
  lemma QueuesTidy(s: Sched, s': Sched, c: nat)
    requires Forest(s.classes) && Tidy(s.classes) && Forest(s'.classes) && SameOthers(s.classes, s'.classes, c)
    requires c < |s.classes| && s'.classes[c].cfg == s.classes[c].cfg
    requires !s.classes[c].cfg.leaf ==> s'.classes[c].packets == []
    ensures Tidy(s'.classes)
  {
  }

  lemma PutTidy(s: Sched, op: Op)
    requires SchedInv(s) && Tidy(s.classes) && Allowed(s, op) && op.Put?
    ensures Linked(s) && Forest(Apply(s, op).classes) && Tidy(Apply(s, op).classes)
  {
    DequeueReady(s);
    EnqueueKeeps(s, op.c, op.pkt, op.time);
    if Apply(s, op) != s {
      QueuesTidy(s, Apply(s, op), op.c);
    }
  }

  lemma TakeTidy(s: Sched, op: Op)
    requires SchedInv(s) && Tidy(s.classes) && op.Take?
    ensures Linked(s) && Forest(Apply(s, op).classes) && Tidy(Apply(s, op).classes)
  {
    DequeueKeeps(s, op.time);
    QueuesTidy(s, Apply(s, op), if Dequeue(s, op.time).1.Some? then Picked(s, op.time) else 0);
  }

  lemma {:induction false} StepTidy(s: Sched, op: Op)
    requires SchedInv(s) && Tidy(s.classes) && Allowed(s, op)
    ensures Linked(s) && Forest(Apply(s, op).classes) && Tidy(Apply(s, op).classes)
  {
    match op
    case Create(name, parentName, qlimit, isLeaf, curves) =>
      DequeueReady(s);
      CreateClassKeeps(s, name, parentName, qlimit, isLeaf, curves);
      if Apply(s, op) != s {
        CreateTidy(s, Apply(s, op), Apply(s, op).classes[|s.classes|]);
      }
    case Put(_, _, _) => PutTidy(s, op);
    case Take(_) => TakeTidy(s, op);
  }

  lemma {:induction false} RunTidy(s: Sched, ops: seq<Op>)
    requires SchedInv(s) && Tidy(s.classes) && AllAllowed(s, ops)
    ensures SchedInv(Run(s, ops)) && Tidy(Run(s, ops).classes)
    decreases |ops|
  {
    if ops != [] {
      StepKeeps(s, ops[0]);
      StepTidy(s, ops[0]);
      RunTidy(Apply(s, ops[0]), ops[1..]);
    }
  }

  // In every run of a new scheduler whose callers keep to that, a queued packet means that dequeue
  // returns one, at any time.
  lemma {:induction false} WorkConserved(bandwidth: nat, ops: seq<Op>, time: int)
    requires AllAllowed(NewSched(bandwidth), ops)
    ensures var s := Run(NewSched(bandwidth), ops); Linked(s) && (Dequeue(s, time).1.Some? <==> s.queued > 0)
  {
    NewSchedInv(bandwidth);
    RunTidy(NewSched(bandwidth), ops);
    TidyDequeue(Run(NewSched(bandwidth), ops), time);
  }
}
