/**
 The real-time curves over whole runs. A class's deadline curve is updated when a packet arrives
 at its empty queue, and at no other time; with a clock that does not go back it is the minimum of
 all the service curves restarted at those moments, within the rounding of the updates.
 */
module HfscDeadlines {
  import opened Basics
  import opened ServiceCurve
  import opened CurveMinimum
  import opened KeyTree
  import opened HfscState
  import opened HfscServing
  import opened HfscDescent
  import opened HfscScheduling
  import opened HfscRuns

  ghost predicate Accepts(s: Sched, c: nat) {
    && c < |s.classes| && s.classes[c].cfg.in_use
    && (s.classes[c].cfg.qlimit == 0 || |s.classes[c].packets| < s.classes[c].cfg.qlimit)
  }

  // The activation of class c by an operation: a packet accepted into its empty queue.
  ghost function ActivationBy(s: Sched, op: Op, c: nat): seq<Activation> {
    if op.Put? && op.c == c && Accepts(s, c) && s.classes[c].packets == []
    then [Activation(op.time, s.classes[c].sh.f_bytes)] else []
  }

  // Class c's deadline curve is what the activations made of its configured curve.
  ghost predicate History(s: Sched, c: nat, acts: seq<Activation>) {
    if c < |s.classes|
    then s.classes[c].cfg.r_isc.Some? ==> s.classes[c].rt.d_run == Activated(s.classes[c].cfg.r_isc.value, acts)
    else acts == []
  }

  /// ## One operation

  lemma WakeUpDeadlineCurve(s: Sched, c: nat, len: nat, time: int)
    requires SchedInv(s) && ROOT <= c < |s.classes| && s.classes[c].packets == []
    ensures var cl, cl' := s.classes[c], WakeUp(s, c, len, time).classes[c];
      cl'.rt.d_run == if cl.cfg.r_isc.Some? then RtscMin(cl.rt.d_run, cl.cfg.r_isc.value, time, cl.sh.f_bytes)
        else cl.rt.d_run
  {
    WakeUpFrame(s, c, len, time);
  }

  lemma EnqueueDeadlineCurve(s: Sched, c: nat, pkt: Packet, time: int)
    requires SchedInv(s) && Accepts(s, c)
    ensures var cl, cl' := s.classes[c], Enqueue(s, c, pkt, time).0.classes[c];
      && cl'.cfg == cl.cfg
      && cl'.rt.d_run == if cl.packets == [] && cl.cfg.r_isc.Some?
                         then RtscMin(cl.rt.d_run, cl.cfg.r_isc.value, time, cl.sh.f_bytes) else cl.rt.d_run
  {
    EnqueueKeeps(s, c, pkt, time);
    if s.classes[c].packets == [] {
      WakeUpDeadlineCurve(s, c, pkt.len, time);
    }
  }

  // The deadline curve of a real-time class after an activation, or none.
  ghost function CurveAfter(cl: Class, here: seq<Activation>): RuntimeSc
    requires cl.cfg.r_isc.Some?
  {
    if here == [] then cl.rt.d_run else RtscMin(cl.rt.d_run, cl.cfg.r_isc.value, here[0].x, here[0].y)
  }

  // One more activation, or none, as the class's deadline curve shows.
  lemma HistoryMoves(s: Sched, s': Sched, c: nat, acts: seq<Activation>, here: seq<Activation>)
    requires History(s, c, acts) && c < |s.classes| && c < |s'.classes|
    requires s'.classes[c].cfg == s.classes[c].cfg
    requires s.classes[c].cfg.r_isc.Some? ==>
      |here| <= 1 && s'.classes[c].rt.d_run == CurveAfter(s.classes[c], here)
    ensures History(s', c, acts + here)
  {
    if here == [] {
      assert acts + here == acts;
    } else if s.classes[c].cfg.r_isc.Some? {
      assert (acts + here)[..|acts + here| - 1] == acts;
    }
  }

  lemma PutDeadlineCurve(s: Sched, op: Op, c: nat)
    requires SchedInv(s) && op.Put? && c < |s.classes|
    ensures var s', here := Apply(s, op), ActivationBy(s, op, c);
      && c < |s'.classes| && s'.classes[c].cfg == s.classes[c].cfg && |here| <= 1
      && (s.classes[c].cfg.r_isc.Some? ==>
            s'.classes[c].rt.d_run == CurveAfter(s.classes[c], here))
  {
    EnqueueKeeps(s, op.c, op.pkt, op.time);
    if c == op.c && Accepts(s, c) {
      EnqueueDeadlineCurve(s, c, op.pkt, op.time);
    }
  }

  lemma PutHistory(s: Sched, op: Op, c: nat, acts: seq<Activation>)
    requires SchedInv(s) && op.Put? && History(s, c, acts)
    ensures History(Apply(s, op), c, acts + ActivationBy(s, op, c))
  {
    if c < |s.classes| {
      PutDeadlineCurve(s, op, c);
      HistoryMoves(s, Apply(s, op), c, acts, ActivationBy(s, op, c));
    } else {
      EnqueueKeeps(s, op.c, op.pkt, op.time);
      assert acts + ActivationBy(s, op, c) == acts;
    }
  }

  lemma TakeHistory(s: Sched, op: Op, c: nat, acts: seq<Activation>)
    requires SchedInv(s) && op.Take? && History(s, c, acts)
    ensures History(Apply(s, op), c, acts)
  {
    DequeueKeeps(s, op.time);
    var (s', r) := Dequeue(s, op.time);
    if r.None? && c < |s.classes| {
      assert s'.classes[c] == s.classes[c].(sh := s.classes[c].sh.(vmin := s'.classes[c].sh.vmin));
    }
  }

  lemma CreateHistory(s: Sched, op: Op, c: nat, acts: seq<Activation>)
    requires SchedInv(s) && op.Create? && History(s, c, acts)
    ensures History(Apply(s, op), c, acts)
  {
  }

  lemma StepHistory(s: Sched, op: Op, c: nat, acts: seq<Activation>)
    requires SchedInv(s) && History(s, c, acts)
    ensures History(Apply(s, op), c, acts + ActivationBy(s, op, c))
  {
    match op
    case Create(_, _, _, _, _) =>
      CreateHistory(s, op, c, acts);
      assert acts + ActivationBy(s, op, c) == acts;
    case Put(_, _, _) =>
      PutHistory(s, op, c, acts);
    case Take(_) =>
      TakeHistory(s, op, c, acts);
      assert acts + ActivationBy(s, op, c) == acts;
  }

  /// ## Runs

  ghost function Activations(s: Sched, ops: seq<Op>, c: nat): seq<Activation>
    requires AllLinked(s, ops)
    decreases |ops|
  {
    if ops == [] then [] else ActivationBy(s, ops[0], c) + Activations(Apply(s, ops[0]), ops[1..], c)
  }

  lemma ConcatNothing<T>(a: seq<T>)
    ensures a + [] == a && [] + a == a
  {
  }

  lemma {:induction false} RunHistory(s: Sched, ops: seq<Op>, c: nat, acts: seq<Activation>)
    requires SchedInv(s) && History(s, c, acts)
    ensures AllLinked(s, ops) && History(Run(s, ops), c, acts + Activations(s, ops, c))
    decreases |ops|
  {
    if ops == [] {
      DequeueReady(s);
      ConcatNothing(acts);
    } else {
      var s1, here := Apply(s, ops[0]), ActivationBy(s, ops[0], c);
      StepHistory(s, ops[0], c, acts);
      StepKeeps(s, ops[0]);
      RunHistory(s1, ops[1..], c, acts + here);
      Associate(acts, here, Activations(s1, ops[1..], c));
    }
  }

  // Packets arrive at nondecreasing times, none before `from`.
  ghost predicate ClockFrom(ops: seq<Op>, from: int) {
    ops == [] ||
    if ops[0].Put? then from <= ops[0].time && ClockFrom(ops[1..], ops[0].time) else ClockFrom(ops[1..], from)
  }

  lemma {:induction false} ActivationsOrdered(s: Sched, ops: seq<Op>, c: nat, from: int)
    requires AllLinked(s, ops) && ClockFrom(ops, from) && 0 <= from
    ensures var acts := Activations(s, ops, c);
      ClockOrdered(acts) && forall i :: 0 <= i < |acts| ==> from <= acts[i].x
    decreases |ops|
  {
    if ops != [] {
      var next := if ops[0].Put? then ops[0].time else from;
      ActivationsOrdered(Apply(s, ops[0]), ops[1..], c, next);
      OneEarlier(ActivationBy(s, ops[0], c), Activations(Apply(s, ops[0]), ops[1..], c), from, next);
    }
  }

  lemma OneEarlier(here: seq<Activation>, acts: seq<Activation>, from: int, next: int)
    requires 0 <= from <= next && |here| <= 1 && (here != [] ==> here[0].x == next)
    requires ClockOrdered(acts) && forall i :: 0 <= i < |acts| ==> next <= acts[i].x
    ensures ClockOrdered(here + acts) && forall i :: 0 <= i < |here + acts| ==> from <= (here + acts)[i].x
  {
  }

  lemma FreshHistory(bandwidth: nat, c: nat)
    ensures History(NewSched(bandwidth), c, [])
  {
  }

  lemma FreshRun(bandwidth: nat, ops: seq<Op>, c: nat)
    requires AllLinked(NewSched(bandwidth), ops) && ClockFrom(ops, 0)
    ensures var s := NewSched(bandwidth);
      History(Run(s, ops), c, Activations(s, ops, c)) && ClockOrdered(Activations(s, ops, c))
  {
    var s := NewSched(bandwidth);
    NewSchedInv(bandwidth);
    FreshHistory(bandwidth, c);
    RunHistory(s, ops, c, []);
    ConcatNothing(Activations(s, ops, c));
    ActivationsOrdered(s, ops, c, 0);
  }

  // In every run of a fresh scheduler under a clock that does not go back, the deadline curve of a
  // real-time class whose curve is concave or linear is the minimum of the initial curve and of
  // the curves restarted at its activations, within the slack of each update.
  lemma {:induction false} DeadlineCurveIsEnvelope(bandwidth: nat, ops: seq<Op>, c: nat, t: int)
    requires AllLinked(NewSched(bandwidth), ops) && ClockFrom(ops, 0)
    requires var final := Run(NewSched(bandwidth), ops); var acts := Activations(NewSched(bandwidth), ops, c);
      && c < |final.classes| && final.classes[c].cfg.r_isc.Some?
      && final.classes[c].cfg.r_isc.value.sm2 <= final.classes[c].cfg.r_isc.value.sm1
      && LastTime(acts) <= t
    ensures var cl := Run(NewSched(bandwidth), ops).classes[c];
      var isc, acts := cl.cfg.r_isc.value, Activations(NewSched(bandwidth), ops, c);
      && CurveOf(cl.rt.d_run, isc)
      && WithinSlacks(RtscX2Y(cl.rt.d_run, t), Envelope(isc, acts, t), isc.sm1 - isc.sm2, |acts|)
  {
    var cl, acts := Run(NewSched(bandwidth), ops).classes[c], Activations(NewSched(bandwidth), ops, c);
    FreshRun(bandwidth, ops, c);
    NewSchedInv(bandwidth);
    RunKeeps(NewSched(bandwidth), ops);
    assert CurvesAt(cl);
    ActivatedCurve(cl.cfg.r_isc.value, acts);
    CurveIsEnvelopeOfRestarts(cl.cfg.r_isc.value, acts, t);
  }

  /// ## Eligible times and deadlines

  // The byte counts that a class's eligible time and its deadline were computed from, and the bytes that
  // it has sent by deadline.
  datatype Basis = Basis(eligible: nat, deadline: nat, sent: nat)

  // The eligible curve is the deadline curve or, if that is convex or linear, the line of its second slope
  // from the same point.
  ghost predicate EligibleCurve(cl: Class)
    requires cl.cfg.r_isc.Some?
  {
    var isc, d := cl.cfg.r_isc.value, cl.rt.d_run;
    cl.rt.e_run == if isc.sm1 <= isc.sm2 then RuntimeSc(d.x, d.y, d.sm1, d.ism1, 0, 0, d.sm2, d.ism2) else d
  }

  // The times of a real-time class with packets: when its eligible curve reaches the one count, and when
  // its deadline curve reaches the other with the packet at the head of the queue added.
  ghost predicate TimesFrom(cl: Class, b: Basis) {
    cl.cfg.r_isc.Some? && cl.packets != [] ==>
      && EligibleCurve(cl)
      && cl.rt.eligible == RtscY2X(cl.rt.e_run, b.eligible)
      && cl.rt.deadline == RtscY2X(cl.rt.d_run, b.deadline + cl.packets[0].len)
  }

  ghost predicate FieldsFrom(s: Sched, c: nat, b: Basis) {
    if c < |s.classes| then TimesFrom(s.classes[c], b) && s.classes[c].rt.r_bytes == b.sent
    else b == Basis(0, 0, 0)
  }

  // A packet put into the empty queue takes the bytes sent so far for both; one sent by deadline takes
  // those sent before it for both, and one sent by virtual time for the deadline alone.
  ghost function BasisAfter(s: Sched, op: Op, c: nat, b: Basis): Basis
    requires Linked(s)
  {
    if ActivationBy(s, op, c) != [] then Basis(BytesOf(s, c), BytesOf(s, c), b.sent)
    else if SentBy(s, op, c) == [] then b
    else if SomeDue(s.classes, op.time) then
      Basis(BytesOf(s, c), BytesOf(s, c), b.sent + TotalLen(SentBy(s, op, c)))
    else b.(deadline := BytesOf(s, c))
  }

  // Waking up computes both times from the bytes sent so far.
  lemma WakeUpTimes(s: Sched, c: nat, pkt: Packet, time: int)
    requires SchedInv(s) && ROOT <= c < |s.classes| && s.classes[c].packets == []
    ensures var cl := WakeUp(s, c, pkt.len, time).classes[c]; var n := s.classes[c].sh.f_bytes;
      && cl.rt.r_bytes == s.classes[c].rt.r_bytes && cl.packets == []
      && TimesFrom(cl.(packets := [pkt]), Basis(n, n, 0))
  {
    WakeUpFrame(s, c, pkt.len, time);
  }

  // A class whose times and whose first packet are as before.
  lemma SameFields(s: Sched, s': Sched, c: nat, b: Basis)
    requires FieldsFrom(s, c, b) && |s'.classes| == |s.classes|
    requires c < |s.classes| ==> var cl, cl' := s.classes[c], s'.classes[c];
      && cl'.cfg == cl.cfg && cl'.rt == cl.rt
      && (cl'.packets == cl.packets || (cl.packets != [] && cl.packets <= cl'.packets))
    ensures FieldsFrom(s', c, b)
  {
  }

  lemma WokenFields(s: Sched, op: Op, c: nat, b: Basis)
    requires SchedInv(s) && op.Put? && c == op.c && ROOT <= c && Accepts(s, c) && s.classes[c].packets == []
      && FieldsFrom(s, c, b)
    ensures FieldsFrom(Apply(s, op), c, Basis(s.classes[c].sh.f_bytes, s.classes[c].sh.f_bytes, b.sent))
  {
    WakeUpTimes(s, c, op.pkt, op.time);
    assert WakeUp(s, c, op.pkt.len, op.time).classes[c].packets + [op.pkt] == [op.pkt];
  }

  lemma PutFields(s: Sched, op: Op, c: nat, b: Basis)
    requires SchedInv(s) && Linked(s) && op.Put? && FieldsFrom(s, c, b)
    ensures FieldsFrom(Apply(s, op), c, BasisAfter(s, op, c, b))
  {
    if ActivationBy(s, op, c) != [] {
      WokenFields(s, op, c, b);
    } else {
      EnqueueKeeps(s, op.c, op.pkt, op.time);
      SameFields(s, Apply(s, op), c, b);
    }
  }

  // The fields of a class whose head packet was sent, and of the others.
  lemma ServedFields(s: Sched, c: nat, cl: Class, tree: seq<Key>, i: nat)
    requires CanServe(s, c) && Taken(s, c, cl, tree) && i < |s.classes|
    ensures Forest(s.classes[c := cl])
    ensures var now := Served(s, c, cl, tree).classes[i];
      if i == c then now == cl.(sh := now.sh) else now == s.classes[i].(sh := now.sh)
  {
    ServedTree(s, c, cl, tree);
    var cs', s' := s.classes[c := cl], Served(s, c, cl, tree);
    assert s'.classes[i] == cs'[i].(sh := s'.classes[i].sh);
  }

  // After a packet is sent by deadline, the class's times leave that packet out of account: both are
  // computed from the byte count before it was credited.
  lemma {:induction false} RealTimeFieldsLag(s: Sched, c: nat)
    requires CanServe(s, c) && s.classes[c].cfg.r_isc.Some? && |s.classes[c].packets| > 1
    ensures var cl, sent := ServeRealTime(s, c).classes[c], s.classes[c].packets[0].len;
      && sent <= cl.sh.f_bytes && cl.packets != []
      && cl.rt.eligible == RtscY2X(cl.rt.e_run, cl.sh.f_bytes - sent)
      && cl.rt.deadline == RtscY2X(cl.rt.d_run, cl.sh.f_bytes - sent + cl.packets[0].len)
      && cl.rt.e_run == s.classes[c].rt.e_run && cl.rt.d_run == s.classes[c].rt.d_run
      && cl.rt.r_bytes == s.classes[c].rt.r_bytes + sent
  {
    var (cl, tree) := TakeRealTime(s.classes[c], s.eligible);
    TakeRealTimeTaken(s, c);
    ServedFields(s, c, cl, tree, c);
    ServedBytes(s, c, cl, tree, c);
    assert Under(s.classes, c, c);
  }

  // After a packet is sent by virtual time the deadline lags in the same way, and the eligible time is
  // still the one from before.
  lemma {:induction false} DeadlineLags(s: Sched, c: nat)
    requires CanServe(s, c) && s.classes[c].cfg.r_isc.Some? && |s.classes[c].packets| > 1
    ensures var cl, sent := ServeLinkShare(s, c).classes[c], s.classes[c].packets[0].len;
      && sent <= cl.sh.f_bytes && cl.packets != []
      && cl.rt.deadline == RtscY2X(cl.rt.d_run, cl.sh.f_bytes - sent + cl.packets[0].len)
      && cl.rt.eligible == s.classes[c].rt.eligible
      && cl.rt.e_run == s.classes[c].rt.e_run && cl.rt.d_run == s.classes[c].rt.d_run
      && cl.rt.r_bytes == s.classes[c].rt.r_bytes
  {
    var (cl, tree) := TakeLinkShare(s.classes[c], s.eligible);
    TakeLinkShareTaken(s, c);
    ServedFields(s, c, cl, tree, c);
    ServedBytes(s, c, cl, tree, c);
    assert Under(s.classes, c, c);
  }

  // Another class's times do not change, and those of the class itself are what taking the packet left.
  lemma ServedTimes(s: Sched, d: nat, cl: Class, tree: seq<Key>, c: nat, b: Basis, b': Basis)
    requires CanServe(s, d) && Taken(s, d, cl, tree) && FieldsFrom(s, c, b)
    requires if c == d then TimesFrom(cl, b') && cl.rt.r_bytes == b'.sent else b' == b
    ensures Forest(s.classes[d := cl]) && FieldsFrom(Served(s, d, cl, tree), c, b')
  {
    ServedTree(s, d, cl, tree);
    if c < |s.classes| {
      ServedFields(s, d, cl, tree, c);
    }
  }

  // What the head packet's leaving makes of the times, by either criterion.
  lemma ByDeadlineFields(s: Sched, d: nat, c: nat, b: Basis)
    requires CanServe(s, d) && s.classes[d].cfg.r_isc.Some? && FieldsFrom(s, c, b)
    ensures var n := BytesOf(s, c);
      FieldsFrom(ServeRealTime(s, d), c, if c == d then Basis(n, n, b.sent + s.classes[d].packets[0].len) else b)
  {
    var (cl, tree) := TakeRealTime(s.classes[d], s.eligible);
    var n := BytesOf(s, c);
    TakeRealTimeTaken(s, d);
    if c == d {
      TakenTimes(s.classes[d], s.eligible, b);
    }
    ServedTimes(s, d, cl, tree, c, b, if c == d then Basis(n, n, b.sent + s.classes[d].packets[0].len) else b);
  }

  lemma TakenTimes(cl: Class, t: seq<Key>, b: Basis)
    requires cl.packets != [] && cl.cfg.r_isc.Some? && TimesFrom(cl, b)
    ensures var now := TakeRealTime(cl, t).0;
      && TimesFrom(now, Basis(cl.sh.f_bytes, cl.sh.f_bytes, 0))
      && now.rt.r_bytes == cl.rt.r_bytes + cl.packets[0].len
  {
  }

  lemma ByVtimeFields(s: Sched, d: nat, c: nat, b: Basis)
    requires CanServe(s, d) && FieldsFrom(s, c, b)
    ensures FieldsFrom(ServeLinkShare(s, d), c, if c == d then b.(deadline := BytesOf(s, c)) else b)
  {
    var (cl, tree) := TakeLinkShare(s.classes[d], s.eligible);
    TakeLinkShareTaken(s, d);
    ServedTimes(s, d, cl, tree, c, b, if c == d then b.(deadline := BytesOf(s, c)) else b);
  }

  lemma DuePick(s: Sched, time: int) returns (d: nat)
    requires SchedInv(s) && Linked(s) && SomeDue(s.classes, time)
    ensures d == Picked(s, time) && CanServe(s, d) && s.classes[d].cfg.r_isc.Some?
    ensures Dequeue(s, time) == (ServeRealTime(s, d), Some(s.classes[d].packets[0]))
  {
    d := Picked(s, time);
    GetMinDLeast(s, time);
  }

  lemma DueBasis(s: Sched, op: Op, d: nat, c: nat, b: Basis)
    requires Linked(s) && op.Take? && SomeDue(s.classes, op.time) && d == Picked(s, op.time)
    requires d < |s.classes| && s.classes[d].packets != []
      && Dequeue(s, op.time).1 == Some(s.classes[d].packets[0])
    ensures BasisAfter(s, op, c, b)
         == if c != d then b
            else Basis(BytesOf(s, c), BytesOf(s, c), b.sent + s.classes[d].packets[0].len)
  {
    OneLen(s.classes[d].packets[0]);
  }

  lemma DueFields(s: Sched, op: Op, c: nat, b: Basis)
    requires SchedInv(s) && Linked(s) && op.Take? && FieldsFrom(s, c, b) && SomeDue(s.classes, op.time)
    ensures FieldsFrom(Apply(s, op), c, BasisAfter(s, op, c, b))
  {
    var d := DuePick(s, op.time);
    ByDeadlineFields(s, d, c, b);
    DueBasis(s, op, d, c, b);
    assert Apply(s, op) == ServeRealTime(s, d);
  }

  // The descent finds class d, or nothing that has packets.
  lemma SharedPick(s: Sched, time: int) returns (raised: seq<Class>, d: nat)
    requires SchedInv(s) && Linked(s) && !SomeDue(s.classes, time)
    ensures OnlyFloors(s.classes, raised) && SchedInv(s.(classes := raised)) && d == Picked(s, time)
    ensures Dequeue(s, time) ==
      if d != 0 && d < |raised| && raised[d].packets != [] then
        (ServeLinkShare(s.(classes := raised), d), Some(raised[d].packets[0]))
      else (s.(classes := raised), None)
    ensures d == 0 || ROOT < d < |raised|
  {
    raised, d := GetMinV(s.classes, ROOT).0, GetMinV(s.classes, ROOT).1;
    GetMinDLeast(s, time);
    var path := DescentExists(s.classes, ROOT);
    DescendKeeps(s, path);
    LastLeafIs(s.classes, path);
  }

  lemma SharedFields(s: Sched, op: Op, c: nat, b: Basis)
    requires SchedInv(s) && Linked(s) && op.Take? && FieldsFrom(s, c, b) && !SomeDue(s.classes, op.time)
    ensures FieldsFrom(Apply(s, op), c, BasisAfter(s, op, c, b))
  {
    var raised, d := SharedPick(s, op.time);
    var s1 := s.(classes := raised);
    SameFields(s, s1, c, b);
    if d != 0 && raised[d].packets != [] {
      ByVtimeFields(s1, d, c, b);
    }
  }

  lemma CreateFields(s: Sched, op: Op, c: nat, b: Basis)
    requires Linked(s) && op.Create? && FieldsFrom(s, c, b)
    ensures FieldsFrom(Apply(s, op), c, BasisAfter(s, op, c, b))
  {
  }

  lemma StepFields(s: Sched, op: Op, c: nat, b: Basis)
    requires SchedInv(s) && FieldsFrom(s, c, b)
    ensures Linked(s) && FieldsFrom(Apply(s, op), c, BasisAfter(s, op, c, b))
  {
    DequeueReady(s);
    match op
    case Create(_, _, _, _, _) => CreateFields(s, op, c, b);
    case Put(_, _, _) => PutFields(s, op, c, b);
    case Take(time) => if SomeDue(s.classes, time) { DueFields(s, op, c, b); } else { SharedFields(s, op, c, b); }
  }

  ghost function BasisOver(s: Sched, ops: seq<Op>, c: nat, b: Basis): Basis
    requires AllLinked(s, ops)
    decreases |ops|
  {
    if ops == [] then b else BasisOver(Apply(s, ops[0]), ops[1..], c, BasisAfter(s, ops[0], c, b))
  }

  lemma {:induction false} RunFields(s: Sched, ops: seq<Op>, c: nat, b: Basis)
    requires SchedInv(s) && FieldsFrom(s, c, b)
    ensures AllLinked(s, ops) && FieldsFrom(Run(s, ops), c, BasisOver(s, ops, c, b))
    decreases |ops|
  {
    if ops == [] {
      DequeueReady(s);
    } else {
      StepFields(s, ops[0], c, b);
      StepKeeps(s, ops[0]);
      RunFields(Apply(s, ops[0]), ops[1..], c, BasisAfter(s, ops[0], c, b));
    }
  }

  // Over any run of any operations of a new scheduler: every real-time class with packets has its eligible
  // time and its deadline from the byte counts that the operations on it left behind.
  lemma {:induction false} TimesOverRun(bandwidth: nat, ops: seq<Op>, c: nat)
    ensures var s := NewSched(bandwidth);
      AllLinked(s, ops) && FieldsFrom(Run(s, ops), c, BasisOver(s, ops, c, Basis(0, 0, 0)))
  {
    NewSchedInv(bandwidth);
    RunFields(NewSched(bandwidth), ops, c, Basis(0, 0, 0));
  }

  lemma OneLen(pkt: Packet)
    ensures TotalLen([pkt]) == pkt.len
  {
  }
}
