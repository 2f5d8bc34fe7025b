/**
 The invariant of the whole scheduler and what its operations do, whatever their arguments: they
 keep the class tree, the eligible tree, the curves and the packet count in agreement. Dequeue
 serves the class that the two criteria call for, and returns a packet exactly if they call for
 one that has any.
 */
module HfscScheduling {
  import opened Basics
  import opened ServiceCurve
  import opened CurveMinimum
  import opened KeyTree
  import opened HfscState
  import opened HfscInvariant
  import opened HfscServing
  import opened HfscDescent

  /// ## The invariant

  ghost predicate IsWaiting(cs: seq<Class>, k: Key) {
    && ROOT < k.index < |cs|
    && cs[k.index].cfg.r_isc.Some? && cs[k.index].packets != [] && cs[k.index].rt.eligible == k.time
  }

  // The eligible tree holds exactly the real-time classes with packets, by their eligible time,
  // except that class `absent` is not in it.
  ghost predicate EligibleExact(cs: seq<Class>, t: seq<Key>, absent: nat) {
    Sorted(t) && forall k :: k in t <==> IsWaiting(cs, k) && k.index != absent
  }

  ghost predicate CurvesAt(cl: Class) {
    && WellFormedIsc(cl.cfg.f_isc) && WellFormed(cl.sh.f_run) && SameSlopes(cl.sh.f_run, cl.cfg.f_isc)
    && (cl.cfg.r_isc.Some? ==>
          && WellFormedIsc(cl.cfg.r_isc.value)
          && WellFormed(cl.rt.d_run) && SameSlopes(cl.rt.d_run, cl.cfg.r_isc.value)
          && WellFormed(cl.rt.e_run))
  }

  ghost predicate CurvesSound(cs: seq<Class>) {
    forall i {:trigger CurvesAt(cs[i])} :: 0 <= i < |cs| ==> CurvesAt(cs[i])
  }

  ghost function TotalQueued(cs: seq<Class>): nat {
    if cs == [] then 0 else TotalQueued(cs[..|cs| - 1]) + |cs[|cs| - 1].packets|
  }

  ghost predicate SchedInv(s: Sched) {
    && TreeInv(s.classes)
    && EligibleExact(s.classes, s.eligible, 0)
    && CurvesSound(s.classes)
    && s.queued == TotalQueued(s.classes)
  }

  /// ## Packet counts

  lemma {:induction false} TotalQueuedUpdate(cs: seq<Class>, c: nat, cl: Class)
    requires c < |cs|
    ensures TotalQueued(cs[c := cl]) == TotalQueued(cs) - |cs[c].packets| + |cl.packets|
  {
    var n := |cs| - 1;
    if c < n {
      TotalQueuedUpdate(cs[..n], c, cl);
      assert cs[c := cl][..n] == cs[..n][c := cl];
    } else {
      assert cs[c := cl][..n] == cs[..n];
    }
  }

  lemma {:induction false} TotalQueuedSame(cs: seq<Class>, cs': seq<Class>)
    requires |cs| == |cs'| && forall i :: 0 <= i < |cs| ==> cs'[i].packets == cs[i].packets
    ensures TotalQueued(cs') == TotalQueued(cs)
  {
    if cs != [] {
      TotalQueuedSame(cs[..|cs| - 1], cs'[..|cs| - 1]);
    }
  }

  // Packets are queued if and only if some class has one.
  lemma {:induction false} TotalQueuedPositive(cs: seq<Class>) returns (i: nat)
    requires TotalQueued(cs) > 0
    ensures i < |cs| && cs[i].packets != []
  {
    var n := |cs| - 1;
    if cs[n].packets != [] {
      i := n;
    } else {
      i := TotalQueuedPositive(cs[..n]);
    }
  }

  lemma {:induction false} TotalQueuedAtLeast(cs: seq<Class>, i: nat)
    requires i < |cs|
    ensures |cs[i].packets| <= TotalQueued(cs)
  {
    if i < |cs| - 1 {
      TotalQueuedAtLeast(cs[..|cs| - 1], i);
    }
  }

  /// ## Changes that leave the tree alone

  // New packets, drops or real-time fields of a class do not disturb the tree.
  lemma ReplaceChildren(cs: seq<Class>, c: nat, cl: Class)
    requires c < |cs| && cl.cfg == cs[c].cfg && cl.sh == cs[c].sh && ChildrenExact(cs, 0)
    ensures ChildrenExact(cs[c := cl], 0)
  {
    var cs' := cs[c := cl];
    forall q | 0 <= q < |cs'| ensures TreeExact(cs', q, 0) {
      assert TreeExact(cs, q, 0);
      forall k ensures k in cs'[q].sh.children <==> IsActiveChild(cs', q, k) {
        assert k in cs[q].sh.children <==> IsActiveChild(cs, q, k);
      }
    }
  }

  lemma Replace(cs: seq<Class>, c: nat, cl: Class)
    requires Shape(cs) && c < |cs| && cl.cfg == cs[c].cfg && cl.sh == cs[c].sh
    requires AboveFloor(cs, 0) && ChildrenExact(cs, 0)
    ensures Shape(cs[c := cl]) && FloorsKept(cs, cs[c := cl]) && AboveFloor(cs[c := cl], 0)
      && ChildrenExact(cs[c := cl], 0)
  {
    ReplaceChildren(cs, c, cl);
    var cs' := cs[c := cl];
    assert Forest(cs');
    forall i | 0 <= i < |cs| ensures FloorAt(cs', i, 0) {
      assert FloorAt(cs, i, 0);
    }
  }

  // The curves of a class after the virtual-time updates.
  lemma JoinCurves(cfg: Config, sh: Share, par: Share, vtime: int)
    requires WellFormedIsc(cfg.f_isc) && WellFormed(sh.f_run) && SameSlopes(sh.f_run, cfg.f_isc)
    ensures WellFormed(Join(cfg, sh, par, vtime).f_run) && SameSlopes(Join(cfg, sh, par, vtime).f_run, cfg.f_isc)
  {
    UpdateKeepsWellFormed(sh.f_run, cfg.f_isc, vtime + par.voff - cfg.pvoff, sh.f_bytes);
  }

  lemma {:induction false} InitVCurves(cs: seq<Class>, c: nat)
    requires Forest(cs) && c < |cs| && CurvesSound(cs)
    ensures CurvesSound(InitV(cs, c))
    decreases c
  {
    if cs[c].cfg.parent != 0 {
      var counted := OneMoreActive(cs, c);
      assert CurvesSound(counted) by { assert CurvesAt(cs[c]); }
      if cs[c].sh.nactive == 0 {
        ActivateForest(counted, c);
        var cs1, p := Activate(counted, c), cs[c].cfg.parent;
        assert CurvesSound(cs1) by {
          assert CurvesAt(counted[c]) && CurvesAt(counted[p]);
          JoinCurves(counted[c].cfg, counted[c].sh, StartRound(counted[p].sh), JoinTime(counted, c));
        }
        InitVCurves(cs1, p);
      }
    }
  }

  lemma {:induction false} UpdateVCurves(cs: seq<Class>, c: nat, len: nat, passive: bool)
    requires Forest(cs) && c < |cs| && CurvesSound(cs)
    ensures CurvesSound(UpdateV(cs, c, len, passive))
    decreases c
  {
    if cs[c].cfg.parent != 0 {
      var p := cs[c].cfg.parent;
      assert CurvesAt(cs[c]) && CurvesAt(cs[p]);
      if cs[c].sh.nactive == 0 {
        UpdateVCurves(AddBytes(cs, c, len), p, len, passive);
      } else {
        ServeForest(cs, c, len, passive);
        UpdateVCurves(Serve(cs, c, len, passive), p, len, passive && cs[c].sh.nactive == 1);
      }
    }
  }

  lemma InitEdCurves(cl: Class, len: nat, time: int)
    requires CurvesAt(cl)
    ensures CurvesAt(InitEd(cl, len, time))
  {
    if cl.cfg.r_isc.Some? {
      UpdateKeepsWellFormed(cl.rt.d_run, cl.cfg.r_isc.value, time, cl.sh.f_bytes);
    }
  }

  /// ## The eligible tree

  // All classes but c keep their configuration, real-time fields and packets.
  ghost predicate SameOthers(cs: seq<Class>, cs': seq<Class>, c: nat) {
    |cs| == |cs'| && forall i :: 0 <= i < |cs| && i != c ==>
      cs'[i].cfg == cs[i].cfg && cs'[i].rt == cs[i].rt && cs'[i].packets == cs[i].packets
        && cs'[i].qdrops == cs[i].qdrops
  }

  lemma EligibleFrame(cs: seq<Class>, cs': seq<Class>, t: seq<Key>, c: nat)
    requires EligibleExact(cs, t, c) && SameOthers(cs, cs', c)
    ensures EligibleExact(cs', t, c)
  {
    forall k ensures k in t <==> IsWaiting(cs', k) && k.index != c {
      assert k in t <==> IsWaiting(cs, k) && k.index != c;
    }
  }

  // Class c joins or stays out of the tree according to whether it is real-time and has packets.
  lemma EligibleJoin(cs: seq<Class>, t: seq<Key>, c: nat)
    requires c < |cs| && (c <= ROOT ==> cs[c].cfg.r_isc.None?) && EligibleExact(cs, t, c)
    ensures var waits := cs[c].cfg.r_isc.Some? && cs[c].packets != [];
      EligibleExact(cs, if waits then With(t, Key(cs[c].rt.eligible, c)) else t, 0)
  {
    forall i | 0 <= i < |t| ensures t[i].index != c {
      assert t[i] in t;
    }
    WithKeys(t, Key(cs[c].rt.eligible, c));
  }

  lemma EligibleLeave(cs: seq<Class>, t: seq<Key>, c: nat)
    requires ROOT < c < |cs| && EligibleExact(cs, t, 0)
    ensures EligibleExact(cs, if cs[c].cfg.r_isc.Some? then Without(t, Key(cs[c].rt.eligible, c)) else t, c)
  {
    WithoutKeys(t, Key(cs[c].rt.eligible, c));
  }

  /// ## Enqueue

  lemma InitVReadyToWake(cs: seq<Class>, c: nat)
    requires TreeInv(cs) && ROOT <= c < |cs|
    ensures InitVReady(cs, c, c)
  {
  }

  lemma InitVWakes(cs: seq<Class>, c: nat)
    requires TreeInv(cs) && ROOT <= c < |cs| && cs[c].packets == []
    ensures var cs' := InitV(cs, c);
      && Kept(cs, cs') && SameBytes(cs, cs') && Counted(cs', c, c)
      && (ROOT < c ==> cs'[c].sh.nactive == |cs'[c].sh.children| + 1)
  {
    InitVReadyToWake(cs, c);
    InitVKeeps(cs, c, c);
    if ROOT < c {
      InitVCounts(cs, c);
      assert cs[c].sh.nactive == Busy(cs[c]);
    }
  }

  lemma WakeUpClasses(s: Sched, c: nat, len: nat, time: int)
    requires Forest(s.classes) && c < |s.classes|
    ensures var cs := InitV(s.classes, c); WakeUp(s, c, len, time).classes == cs[c := InitEd(cs[c], len, time)]
    ensures var cs := InitV(s.classes, c);
      InitEd(cs[c], len, time).sh == cs[c].sh && InitEd(cs[c], len, time).cfg == cs[c].cfg
  {
  }

  // Waking an empty class makes it and its ancestors active; its packet is still to come.
  lemma WakeUpTree(s: Sched, c: nat, len: nat, time: int)
    requires SchedInv(s) && ROOT <= c < |s.classes| && s.classes[c].packets == []
    ensures var cs := WakeUp(s, c, len, time).classes;
      && Shape(cs) && ChildrenExact(cs, 0) && AboveFloor(cs, 0) && Counted(cs, c, c) && FloorsKept(s.classes, cs)
      && (ROOT < c ==> cs[c].sh.nactive == |cs[c].sh.children| + 1)
  {
    var cs := InitV(s.classes, c);
    InitVWakes(s.classes, c);
    WakeUpClasses(s, c, len, time);
    assert cs[c] == s.classes[c].(sh := cs[c].sh);
    Replace(cs, c, InitEd(cs[c], len, time));
  }

  lemma WakeUpFrame(s: Sched, c: nat, len: nat, time: int)
    requires SchedInv(s) && ROOT <= c < |s.classes| && s.classes[c].packets == []
    ensures var r := WakeUp(s, c, len, time);
      && SameOthers(s.classes, r.classes, c) && SameBytes(s.classes, r.classes)
      && r.classes[c] == InitEd(s.classes[c].(sh := r.classes[c].sh), len, time)
      && r.classes[c].cfg == s.classes[c].cfg && r.classes[c].packets == []
        && r.classes[c].qdrops == s.classes[c].qdrops
      && r.names == s.names && r.queued == s.queued
      && r.eligible == if s.classes[c].cfg.r_isc.Some? then With(s.eligible, Key(r.classes[c].rt.eligible, c))
        else s.eligible
  {
    var cs := InitV(s.classes, c);
    InitVWakes(s.classes, c);
    WakeUpClasses(s, c, len, time);
    assert cs[c] == s.classes[c].(sh := cs[c].sh);
  }

  lemma WakeUpCurves(s: Sched, c: nat, len: nat, time: int)
    requires Forest(s.classes) && c < |s.classes| && CurvesSound(s.classes)
    ensures CurvesSound(WakeUp(s, c, len, time).classes)
  {
    var cs := InitV(s.classes, c);
    InitVCurves(s.classes, c);
    WakeUpClasses(s, c, len, time);
    assert CurvesAt(cs[c]);
    InitEdCurves(cs[c], len, time);
  }

  // Class c has been woken up if necessary and is ready for its packet.
  ghost predicate ReadyForPacket(cs: seq<Class>, c: nat) {
    && Shape(cs) && ROOT <= c < |cs| && (ROOT < c ==> cs[c].sh.nactive == |cs[c].sh.children| + 1)
    && ChildrenExact(cs, 0) && AboveFloor(cs, 0) && Counted(cs, c, c)
  }

  lemma PushPacket(cs: seq<Class>, c: nat, pkt: Packet)
    requires ReadyForPacket(cs, c)
    ensures var cs' := cs[c := cs[c].(packets := cs[c].packets + [pkt])];
      TreeInv(cs') && FloorsKept(cs, cs') && TotalQueued(cs') == TotalQueued(cs) + 1
  {
    var cl := cs[c].(packets := cs[c].packets + [pkt]);
    Replace(cs, c, cl);
    TotalQueuedUpdate(cs, c, cl);
    assert Busy(cl) == |cl.sh.children| + 1;
  }

  // Which packets and bytes an operation touches: those of class c only.
  ghost predicate Enqueues(s: Sched, s': Sched, c: nat, pkt: Packet) {
    && SameOthers(s.classes, s'.classes, c) && SameBytes(s.classes, s'.classes) && c < |s.classes|
    && s'.classes[c].packets == s.classes[c].packets + [pkt] && s'.classes[c].cfg == s.classes[c].cfg
    && s'.classes[c].qdrops == s.classes[c].qdrops
    && s'.queued == s.queued + 1 && s'.names == s.names
  }

  // A packet for a full queue is counted as dropped there; one for no class at all changes nothing.
  ghost predicate Refuses(s: Sched, s': Sched, c: nat) {
    if c < |s.classes| && s.classes[c].cfg.in_use then
      && s' == s.(classes := s'.classes) && |s'.classes| == |s.classes|
      && s'.classes[c] == s.classes[c].(qdrops := s.classes[c].qdrops + 1)
      && forall i :: 0 <= i < |s.classes| && i != c ==> s'.classes[i] == s.classes[i]
    else s' == s
  }

  lemma EnqueueAwake(s: Sched, c: nat, pkt: Packet)
    requires SchedInv(s) && ROOT <= c < |s.classes| && s.classes[c].packets != []
    ensures ReadyForPacket(s.classes, c)
    ensures EligibleExact(s.classes[c := s.classes[c].(packets := s.classes[c].packets + [pkt])], s.eligible, 0)
  {
    var cs, cl := s.classes, s.classes[c].(packets := s.classes[c].packets + [pkt]);
    assert c == ROOT || cs[c].sh.nactive == Busy(cs[c]);
    forall k ensures k in s.eligible <==> IsWaiting(cs[c := cl], k) {
      assert k in s.eligible <==> IsWaiting(cs, k);
    }
  }

  lemma EnqueueWoken(s: Sched, c: nat, pkt: Packet, time: int)
    requires SchedInv(s) && ROOT <= c < |s.classes| && s.classes[c].packets == []
    ensures var r := WakeUp(s, c, pkt.len, time);
      && ReadyForPacket(r.classes, c)
      && EligibleExact(r.classes[c := r.classes[c].(packets := [pkt])], r.eligible, 0)
      && TotalQueued(r.classes) == TotalQueued(s.classes)
  {
    var r := WakeUp(s, c, pkt.len, time);
    WakeUpTree(s, c, pkt.len, time);
    WakeUpFrame(s, c, pkt.len, time);
    TotalQueuedSame(s.classes, r.classes);
    var cs' := r.classes[c := r.classes[c].(packets := [pkt])];
    assert EligibleExact(s.classes, s.eligible, c) by {
      assert forall k :: IsWaiting(s.classes, k) ==> k.index != c;
    }
    EligibleFrame(s.classes, cs', s.eligible, c);
    EligibleJoin(cs', s.eligible, c);
  }

  // Scheduler r, woken from s if necessary, takes the packet.
  lemma AppendKeeps(s: Sched, r: Sched, c: nat, pkt: Packet)
    requires ReadyForPacket(r.classes, c) && CurvesSound(r.classes) && r.queued == TotalQueued(r.classes)
    requires EligibleExact(Append(r, c, pkt).classes, r.eligible, 0)
    requires FloorsKept(s.classes, r.classes)
    ensures SchedInv(Append(r, c, pkt)) && FloorsKept(s.classes, Append(r, c, pkt).classes)
  {
    PushPacket(r.classes, c, pkt);
    assert CurvesAt(r.classes[c]);
  }

  // The state after waking class c if it was empty.
  ghost function Awake(s: Sched, c: nat, len: nat, time: int): Sched
    requires Forest(s.classes) && c < |s.classes|
  {
    if s.classes[c].packets == [] then WakeUp(s, c, len, time) else s
  }

  // The state after waking an empty class meets what AppendKeeps asks of it.
  lemma WokenReady(s: Sched, c: nat, pkt: Packet, time: int)
    requires SchedInv(s) && ROOT <= c < |s.classes| && s.classes[c].packets == []
    ensures var r := WakeUp(s, c, pkt.len, time);
      && ReadyForPacket(r.classes, c) && FloorsKept(s.classes, r.classes)
      && r.queued == TotalQueued(r.classes) && EligibleExact(Append(r, c, pkt).classes, r.eligible, 0)
  {
    EnqueueWoken(s, c, pkt, time);
    assert FloorsKept(s.classes, WakeUp(s, c, pkt.len, time).classes) by { WakeUpTree(s, c, pkt.len, time); }
    WakeUpFrame(s, c, pkt.len, time);
  }

  lemma EnqueueInv(s: Sched, c: nat, pkt: Packet, time: int)
    requires SchedInv(s) && ROOT <= c < |s.classes|
    ensures var s' := Append(Awake(s, c, pkt.len, time), c, pkt);
      SchedInv(s') && FloorsKept(s.classes, s'.classes)
  {
    if s.classes[c].packets == [] {
      WokenReady(s, c, pkt, time);
      WakeUpCurves(s, c, pkt.len, time);
      AppendKeeps(s, WakeUp(s, c, pkt.len, time), c, pkt);
    } else {
      EnqueueAwake(s, c, pkt);
      AppendKeeps(s, s, c, pkt);
    }
  }

  lemma EnqueueFrame(s: Sched, c: nat, pkt: Packet, time: int)
    requires SchedInv(s) && ROOT <= c < |s.classes|
    ensures Enqueues(s, Append(Awake(s, c, pkt.len, time), c, pkt), c, pkt)
  {
    if s.classes[c].packets == [] {
      WakeUpFrame(s, c, pkt.len, time);
    }
  }

  lemma DropKeeps(s: Sched, c: nat)
    requires SchedInv(s) && c < |s.classes|
    ensures SchedInv(Drop(s, c)) && FloorsKept(s.classes, Drop(s, c).classes)
  {
    var cs', cl := Drop(s, c).classes, Drop(s, c).classes[c];
    Replace(s.classes, c, cl);
    TotalQueuedUpdate(s.classes, c, cl);
    assert Busy(cl) == Busy(s.classes[c]);
    assert CurvesAt(s.classes[c]);
    forall k ensures k in s.eligible <==> IsWaiting(cs', k) {
      assert k in s.eligible <==> IsWaiting(s.classes, k);
    }
  }

  // Enqueue accepts a packet exactly when the class is in use and below its limit, appends it
  // to that class's queue, and keeps the invariant and the floors.
  lemma {:induction false} EnqueueKeeps(s: Sched, c: nat, pkt: Packet, time: int)
    requires SchedInv(s)
    ensures SchedInv(Enqueue(s, c, pkt, time).0) && FloorsKept(s.classes, Enqueue(s, c, pkt, time).0.classes)
    ensures Enqueue(s, c, pkt, time).1
       <==> && c < |s.classes| && s.classes[c].cfg.in_use
            && (s.classes[c].cfg.qlimit == 0 || |s.classes[c].packets| < s.classes[c].cfg.qlimit)
    ensures Enqueue(s, c, pkt, time).1 ==> Enqueues(s, Enqueue(s, c, pkt, time).0, c, pkt)
    ensures !Enqueue(s, c, pkt, time).1 ==> Refuses(s, Enqueue(s, c, pkt, time).0, c)
  {
    if c < |s.classes| && s.classes[c].cfg.in_use {
      if s.classes[c].cfg.qlimit != 0 && |s.classes[c].packets| >= s.classes[c].cfg.qlimit {
        DropKeeps(s, c);
      } else {
        EnqueueInv(s, c, pkt, time);
        EnqueueFrame(s, c, pkt, time);
      }
    }
  }

  /// ## Dequeue

  // A class below the root with packets.
  ghost predicate CanServe(s: Sched, c: nat) {
    SchedInv(s) && ROOT < c < |s.classes| && s.classes[c].packets != []
  }

  // cl is class c after its head packet was taken, and tree is the eligible tree that goes with it.
  ghost predicate Taken(s: Sched, c: nat, cl: Class, tree: seq<Key>)
    requires c < |s.classes| && s.classes[c].packets != []
  {
    && cl.cfg == s.classes[c].cfg && cl.sh == s.classes[c].sh && cl.packets == s.classes[c].packets[1..]
    && cl.rt.d_run == s.classes[c].rt.d_run && cl.rt.e_run == s.classes[c].rt.e_run
    && cl.qdrops == s.classes[c].qdrops
    && CurvesAt(cl) && EligibleExact(s.classes[c := cl], tree, 0)
  }

  lemma TakeRealTimeTaken(s: Sched, c: nat)
    requires CanServe(s, c)
    ensures var (cl, tree) := TakeRealTime(s.classes[c], s.eligible); Taken(s, c, cl, tree)
  {
    var (cl, tree) := TakeRealTime(s.classes[c], s.eligible);
    var cs' := s.classes[c := cl];
    assert CurvesAt(s.classes[c]);
    EligibleLeave(s.classes, s.eligible, c);
    var left := if cl.cfg.r_isc.Some? then Without(s.eligible, Key(s.classes[c].rt.eligible, c)) else s.eligible;
    EligibleFrame(s.classes, cs', left, c);
    EligibleJoin(cs', left, c);
  }

  lemma TakeLinkShareTaken(s: Sched, c: nat)
    requires CanServe(s, c)
    ensures var (cl, tree) := TakeLinkShare(s.classes[c], s.eligible); Taken(s, c, cl, tree)
  {
    var (cl, tree) := TakeLinkShare(s.classes[c], s.eligible);
    var cs' := s.classes[c := cl];
    assert CurvesAt(s.classes[c]);
    if cl.packets == [] {
      EligibleLeave(s.classes, s.eligible, c);
      EligibleFrame(s.classes, cs', tree, c);
      EligibleJoin(cs', tree, c);
    } else {
      forall k ensures k in tree <==> IsWaiting(cs', k) {
        assert k in s.eligible <==> IsWaiting(s.classes, k);
      }
    }
  }

  lemma TakenReady(s: Sched, c: nat, cl: Class, tree: seq<Key>)
    requires CanServe(s, c) && Taken(s, c, cl, tree)
    ensures UpdateVReady(s.classes[c := cl], c, cl.packets == [])
    ensures FloorsKept(s.classes, s.classes[c := cl])
  {
    var cs' := s.classes[c := cl];
    Replace(s.classes, c, cl);
    assert s.classes[c].sh.nactive == Busy(s.classes[c]);
  }

  // The state after the taken packet was accounted for up the tree.
  ghost function Served(s: Sched, c: nat, cl: Class, tree: seq<Key>): Sched
    requires c < |s.classes| && s.classes[c].packets != [] && Forest(s.classes[c := cl])
  {
    Sched(UpdateV(s.classes[c := cl], c, s.classes[c].packets[0].len, cl.packets == []), tree, s.names, s.queued - 1)
  }

  lemma ServedTree(s: Sched, c: nat, cl: Class, tree: seq<Key>)
    requires CanServe(s, c) && Taken(s, c, cl, tree)
    ensures Forest(s.classes[c := cl])
    ensures TreeInv(Served(s, c, cl, tree).classes) && OnlyShares(s.classes[c := cl], Served(s, c, cl, tree).classes)
    ensures FloorsKept(s.classes, Served(s, c, cl, tree).classes)
  {
    var cs', len, passive := s.classes[c := cl], s.classes[c].packets[0].len, cl.packets == [];
    TakenReady(s, c, cl, tree);
    UpdateVKeeps(cs', c, len, passive);
    UpdateVFloors(cs', c, len, passive);
  }

  lemma ServedInv(s: Sched, c: nat, cl: Class, tree: seq<Key>)
    requires CanServe(s, c) && Taken(s, c, cl, tree)
    ensures Forest(s.classes[c := cl]) && SchedInv(Served(s, c, cl, tree))
  {
    var cs', s' := s.classes[c := cl], Served(s, c, cl, tree);
    ServedTree(s, c, cl, tree);
    assert CurvesSound(cs');
    UpdateVCurves(cs', c, s.classes[c].packets[0].len, cl.packets == []);
    TotalQueuedUpdate(s.classes, c, cl);
    TotalQueuedSame(cs', s'.classes);
    forall k ensures k in tree <==> IsWaiting(s'.classes, k) {
      assert k in tree <==> IsWaiting(cs', k);
      if ROOT < k.index < |cs'| {
        assert s'.classes[k.index] == cs'[k.index].(sh := s'.classes[k.index].sh);
      }
    }
  }

  // One packet left class c: the head of its queue. Every other queue is as before, and its
  // bytes are credited to the class and its ancestors below the root.
  ghost predicate Serves(s: Sched, s': Sched, c: nat)
    requires Forest(s.classes)
  {
    && ROOT < c < |s.classes| && s.classes[c].packets != []
    && SameOthers(s.classes, s'.classes, c)
    && s'.classes[c].cfg == s.classes[c].cfg && s'.classes[c].packets == s.classes[c].packets[1..]
    && s'.classes[c].rt.d_run == s.classes[c].rt.d_run && s'.classes[c].rt.e_run == s.classes[c].rt.e_run
    && s'.classes[c].qdrops == s.classes[c].qdrops
    && s'.queued == s.queued - 1 && s'.names == s.names
    && forall a :: 0 <= a < |s.classes| ==>
      s'.classes[a].sh.f_bytes == s.classes[a].sh.f_bytes
        + if ROOT < a && Under(s.classes, c, a) then s.classes[c].packets[0].len else 0
  }

  lemma {:induction false} UnderReplaced(cs: seq<Class>, cs': seq<Class>, i: nat, a: nat)
    requires Forest(cs) && Forest(cs') && |cs| == |cs'| && i < |cs|
    requires forall j :: 0 <= j < |cs| ==> cs'[j].cfg == cs[j].cfg
    ensures Under(cs', i, a) == Under(cs, i, a)
    decreases i
  {
    if cs[i].cfg.parent != 0 {
      UnderReplaced(cs, cs', cs[i].cfg.parent, a);
    }
  }

  lemma ServedBytes(s: Sched, c: nat, cl: Class, tree: seq<Key>, a: nat)
    requires CanServe(s, c) && Taken(s, c, cl, tree) && a < |s.classes|
    ensures Forest(s.classes[c := cl])
    ensures Served(s, c, cl, tree).classes[a].sh.f_bytes
         == s.classes[a].sh.f_bytes + if ROOT < a && Under(s.classes, c, a) then s.classes[c].packets[0].len else 0
  {
    var cs' := s.classes[c := cl];
    TakenReady(s, c, cl, tree);
    UpdateVBytes(cs', c, s.classes[c].packets[0].len, cl.packets == [], a);
    UnderReplaced(s.classes, cs', c, a);
  }

  lemma ServedQueues(s: Sched, c: nat, cl: Class, tree: seq<Key>)
    requires CanServe(s, c) && Taken(s, c, cl, tree)
    ensures Forest(s.classes[c := cl])
    ensures var s' := Served(s, c, cl, tree);
      && SameOthers(s.classes, s'.classes, c)
      && s'.classes[c].cfg == s.classes[c].cfg && s'.classes[c].packets == s.classes[c].packets[1..]
      && s'.classes[c].rt.d_run == s.classes[c].rt.d_run && s'.classes[c].rt.e_run == s.classes[c].rt.e_run
      && s'.classes[c].qdrops == s.classes[c].qdrops
  {
    var cs', s' := s.classes[c := cl], Served(s, c, cl, tree);
    ServedTree(s, c, cl, tree);
    forall i | 0 <= i < |cs'|
      ensures s'.classes[i].cfg == cs'[i].cfg && s'.classes[i].rt == cs'[i].rt
        && s'.classes[i].packets == cs'[i].packets && s'.classes[i].qdrops == cs'[i].qdrops
    {
      assert s'.classes[i] == cs'[i].(sh := s'.classes[i].sh);
    }
  }

  lemma ServedServes(s: Sched, c: nat, cl: Class, tree: seq<Key>)
    requires CanServe(s, c) && Taken(s, c, cl, tree)
    ensures Forest(s.classes[c := cl]) && Serves(s, Served(s, c, cl, tree), c)
  {
    ServedQueues(s, c, cl, tree);
    forall a | 0 <= a < |s.classes|
      ensures Served(s, c, cl, tree).classes[a].sh.f_bytes
           == s.classes[a].sh.f_bytes + if ROOT < a && Under(s.classes, c, a) then s.classes[c].packets[0].len else 0
    {
      ServedBytes(s, c, cl, tree, a);
    }
  }

  // What one packet taken by either criterion amounts to.
  lemma ServeRealTimeKeeps(s: Sched, c: nat)
    requires CanServe(s, c)
    ensures var s' := ServeRealTime(s, c); SchedInv(s') && Serves(s, s', c) && FloorsKept(s.classes, s'.classes)
  {
    var (cl, tree) := TakeRealTime(s.classes[c], s.eligible);
    TakeRealTimeTaken(s, c);
    ServedTree(s, c, cl, tree);
    ServedInv(s, c, cl, tree);
    ServedServes(s, c, cl, tree);
    assert ServeRealTime(s, c) == Served(s, c, cl, tree);
  }

  lemma ServeLinkShareKeeps(s: Sched, c: nat)
    requires CanServe(s, c)
    ensures var s' := ServeLinkShare(s, c); SchedInv(s') && Serves(s, s', c) && FloorsKept(s.classes, s'.classes)
  {
    var (cl, tree) := TakeLinkShare(s.classes[c], s.eligible);
    TakeLinkShareTaken(s, c);
    ServedTree(s, c, cl, tree);
    ServedInv(s, c, cl, tree);
    ServedServes(s, c, cl, tree);
    assert ServeLinkShare(s, c) == Served(s, c, cl, tree);
  }

  /// ## The choice

  // Class i is real-time, has packets and is eligible by now.
  ghost predicate EligibleNow(cs: seq<Class>, i: nat, time: int) {
    ROOT < i < |cs| && cs[i].cfg.r_isc.Some? && cs[i].packets != [] && cs[i].rt.eligible <= time
  }

  ghost predicate LeastDeadline(cs: seq<Class>, c: nat, time: int) {
    && EligibleNow(cs, c, time) && cs[c].rt.deadline < HT_INFINITY
    && forall i: nat :: EligibleNow(cs, i, time) && i != c ==> Sooner(cs, c, i)
  }

  // The deadline is the smaller one or, if both are the same, class c has been eligible for longer.
  ghost predicate Sooner(cs: seq<Class>, c: nat, i: nat)
    requires c < |cs| && i < |cs|
  {
    || cs[c].rt.deadline < cs[i].rt.deadline
    || (cs[c].rt.deadline == cs[i].rt.deadline && Ahead(cs[c].rt.eligible, c, cs[i].rt.eligible, i))
  }

  lemma {:induction false} PickDeadlineLeast(cs: seq<Class>, t: seq<Key>, time: int, class': nat, deadline: int)
    requires Sorted(t) && forall k :: k in t ==> k.index < |cs| && cs[k.index].rt.eligible == k.time
    ensures var r := PickDeadline(cs, t, time, class', deadline);
      || (r == class' && forall k :: k in t && k.time <= time ==> deadline <= cs[k.index].rt.deadline)
      || (r < |cs| && cs[r].rt.deadline < deadline && Key(cs[r].rt.eligible, r) in t && cs[r].rt.eligible <= time
          && forall k :: k in t && k.time <= time && k.index != r ==> Sooner(cs, r, k.index))
  {
    if t != [] {
      assert t == [t[0]] + t[1..];
      forall k | k in t[1..] ensures Ahead(t[0].time, t[0].index, k.time, k.index) {
        var i :| 0 < i < |t| && t[i] == k;
        assert Before(t[0], t[i]);
      }
      if t[0].time <= time {
        if cs[t[0].index].rt.deadline < deadline {
          PickDeadlineLeast(cs, t[1..], time, t[0].index, cs[t[0].index].rt.deadline);
        } else {
          PickDeadlineLeast(cs, t[1..], time, class', deadline);
        }
      }
    }
  }

  // Despite stopping at the first class that is not yet eligible, the real-time pick is a class of
  // least deadline among all classes eligible now, and 0 exactly when none has a finite deadline.
  lemma {:induction false} GetMinDLeast(s: Sched, time: int)
    requires SchedInv(s)
    ensures forall k :: k in s.eligible ==> k.index < |s.classes|
    ensures var r := GetMinD(s.classes, s.eligible, time);
      if r == 0 then forall i: nat :: EligibleNow(s.classes, i, time) ==> HT_INFINITY <= s.classes[i].rt.deadline
      else LeastDeadline(s.classes, r, time)
  {
    var cs := s.classes;
    assert forall k :: k in s.eligible <==> IsWaiting(cs, k);
    PickDeadlineLeast(cs, s.eligible, time, 0, HT_INFINITY);
    forall i: nat | EligibleNow(cs, i, time) ensures Key(cs[i].rt.eligible, i) in s.eligible {
      assert IsWaiting(cs, Key(cs[i].rt.eligible, i));
    }
    var r := GetMinD(cs, s.eligible, time);
    if r != 0 {
      assert IsWaiting(cs, Key(cs[r].rt.eligible, r));
    }
  }

  // The real-time criterion has a class to serve.
  ghost predicate SomeDue(cs: seq<Class>, time: int) {
    exists i: nat :: EligibleNow(cs, i, time) && cs[i].rt.deadline < HT_INFINITY
  }

  // Class c is the last leaf on the path of least virtual times.
  ghost predicate ByDescent(cs: seq<Class>, c: nat) {
    exists path: seq<nat> :: Descent(cs, ROOT, path) && LastLeaf(cs, path) == c
  }

  // The class whose packet dequeue returns.
  ghost predicate Chosen(cs: seq<Class>, c: nat, time: int) {
    && c < |cs| && cs[c].packets != []
    && if SomeDue(cs, time) then LeastDeadline(cs, c, time) else ByDescent(cs, c) && cs[c].cfg.leaf
  }

  // Raising floors on the way down changes nothing the scheduler's invariant is about.
  lemma FloorsOnlyInv(s: Sched, raised: seq<Class>)
    requires SchedInv(s) && TreeInv(raised) && OnlyFloors(s.classes, raised)
    ensures SchedInv(s.(classes := raised))
  {
    forall k ensures k in s.eligible <==> IsWaiting(raised, k) {
      assert k in s.eligible <==> IsWaiting(s.classes, k);
    }
    forall i | 0 <= i < |raised| ensures CurvesAt(raised[i]) {
      assert CurvesAt(s.classes[i]);
    }
    TotalQueuedSame(s.classes, raised);
  }

  lemma ServesAfterRaise(s: Sched, raised: seq<Class>, s': Sched, c: nat)
    requires SchedInv(s) && TreeInv(raised) && OnlyFloors(s.classes, raised)
    requires Serves(s.(classes := raised), s', c)
    ensures Serves(s, s', c)
  {
    forall a: nat | a < |raised| ensures Under(raised, c, a) == Under(s.classes, c, a) {
      UnderReplaced(s.classes, raised, c, a);
    }
  }

  lemma FloorsAfterRaise(cs: seq<Class>, raised: seq<Class>, cs': seq<Class>)
    requires OnlyFloors(cs, raised) && FloorsKept(cs, raised) && FloorsKept(raised, cs')
    ensures FloorsKept(cs, cs')
  {
  }

  lemma {:induction false} DequeueReady(s: Sched)
    requires SchedInv(s)
    ensures Linked(s)
  {
    assert forall k :: k in s.eligible <==> IsWaiting(s.classes, k);
  }

  // Nothing but floors changed.
  ghost predicate Unserved(s: Sched, s': Sched) {
    s' == s.(classes := s'.classes) && OnlyFloors(s.classes, s'.classes)
  }

  // Scheduler s became s' and returned r, a packet of class c.
  ghost predicate Dequeues(s: Sched, s': Sched, r: Option<Packet>, c: nat, time: int)
    requires Forest(s.classes)
  {
    Chosen(s.classes, c, time) && Serves(s, s', c) && r == Some(s.classes[c].packets[0])
  }

  // The class that dequeue takes its packet from.
  ghost function Picked(s: Sched, time: int): nat
    requires Linked(s)
  {
    var c := GetMinD(s.classes, s.eligible, time);
    if c != 0 then c else GetMinV(s.classes, ROOT).1
  }

  lemma ByDeadline(s: Sched, time: int)
    requires SchedInv(s) && Linked(s) && SomeDue(s.classes, time)
    ensures var (s', r) := Dequeue(s, time);
      Dequeues(s, s', r, Picked(s, time), time) && SchedInv(s') && FloorsKept(s.classes, s'.classes)
  {
    GetMinDLeast(s, time);
    ServeRealTimeKeeps(s, GetMinD(s.classes, s.eligible, time));
  }

  // A leaf is on the path, and has packets.
  ghost predicate Supplied(cs: seq<Class>, path: seq<nat>)
    requires BelowRoot(cs, path)
  {
    var c := LastLeaf(cs, path);
    c != 0 && c < |cs| && cs[c].packets != []
  }

  // The link-sharing half of dequeue.
  lemma DescendKeeps(s: Sched, path: seq<nat>)
    requires SchedInv(s) && Descent(s.classes, ROOT, path)
    ensures var (raised, c) := GetMinV(s.classes, ROOT);
      && c == LastLeaf(s.classes, path) && c < |s.classes| && OnlyFloors(s.classes, raised)
      && SchedInv(s.(classes := raised)) && FloorsKept(s.classes, raised)
  {
    GetMinVKeeps(s.classes, ROOT);
    GetMinVForest(s.classes, ROOT);
    GetMinVIsLastLeaf(s.classes, ROOT, path);
    FloorsOnlyInv(s, GetMinV(s.classes, ROOT).0);
  }

  lemma LinkShareServes(s: Sched, raised: seq<Class>, c: nat)
    requires SchedInv(s) && OnlyFloors(s.classes, raised) && FloorsKept(s.classes, raised)
    requires CanServe(s.(classes := raised), c)
    ensures var s' := ServeLinkShare(s.(classes := raised), c);
      SchedInv(s') && Serves(s, s', c) && FloorsKept(s.classes, s'.classes)
  {
    var s1 := s.(classes := raised);
    ServeLinkShareKeeps(s1, c);
    ServesAfterRaise(s, raised, ServeLinkShare(s1, c), c);
    FloorsAfterRaise(s.classes, raised, ServeLinkShare(s1, c).classes);
  }

  lemma ByVtime(s: Sched, time: int, path: seq<nat>)
    requires SchedInv(s) && Linked(s) && !SomeDue(s.classes, time) && Descent(s.classes, ROOT, path)
    ensures var (s', r) := Dequeue(s, time);
      && SchedInv(s') && FloorsKept(s.classes, s'.classes)
      && if Supplied(s.classes, path) then Dequeues(s, s', r, Picked(s, time), time) else r == None && Unserved(s, s')
  {
    GetMinDLeast(s, time);
    DescendKeeps(s, path);
    var (raised, c) := GetMinV(s.classes, ROOT);
    LastLeafIs(s.classes, path);
    if Supplied(s.classes, path) {
      LinkShareServes(s, raised, c);
    }
  }

  // Dequeue returns a packet if and only if a class eligible now has a finite deadline, or else the
  // last leaf on the path of least virtual times has packets.
  lemma {:induction false} DequeueReturns(s: Sched, time: int, path: seq<nat>)
    requires SchedInv(s) && Descent(s.classes, ROOT, path)
    ensures Linked(s)
    ensures Dequeue(s, time).1.Some? <==> SomeDue(s.classes, time) || Supplied(s.classes, path)
  {
    DequeueReady(s);
    if SomeDue(s.classes, time) {
      ByDeadline(s, time);
    } else {
      ByVtime(s, time, path);
    }
  }

  // A packet comes from the class that the real-time criterion picks, or else from the last leaf on the
  // path of least virtual times. Without one nothing changes but floors.
  lemma {:induction false} DequeueKeeps(s: Sched, time: int)
    requires SchedInv(s)
    ensures Linked(s)
    ensures var (s', r) := Dequeue(s, time);
      && SchedInv(s') && FloorsKept(s.classes, s'.classes)
      && if r.Some? then Dequeues(s, s', r, Picked(s, time), time) else Unserved(s, s')
  {
    DequeueReady(s);
    if SomeDue(s.classes, time) {
      ByDeadline(s, time);
    } else {
      var path := DescentExists(s.classes, ROOT);
      ByVtime(s, time, path);
    }
  }

  // With nothing queued, dequeue returns nothing and changes nothing.
  lemma {:induction false} DequeueEmpty(s: Sched, time: int)
    requires SchedInv(s) && s.queued == 0
    ensures Linked(s) && Dequeue(s, time) == (s, None)
  {
    var cs := s.classes;
    DequeueReady(s);
    forall i | 0 <= i < |cs| ensures cs[i].packets == [] {
      TotalQueuedAtLeast(cs, i);
    }
    GetMinDLeast(s, time);
    if cs[ROOT].sh.children != [] {
      FirstIsLeast(cs, ROOT);
      var j := ActiveHasQueue(cs, cs[ROOT].sh.children[0].index);
    }
    assert s.(classes := cs) == s;
  }

  // Work conservation: in a tidy scheduler dequeue returns a packet whenever one is queued.
  lemma {:induction false} TidyDequeue(s: Sched, time: int)
    requires SchedInv(s) && Tidy(s.classes)
    ensures Linked(s) && (Dequeue(s, time).1.Some? <==> s.queued > 0)
  {
    if s.queued == 0 {
      DequeueEmpty(s, time);
    } else {
      var i := TotalQueuedPositive(s.classes);
      assert s.classes[i].sh.nactive == Busy(s.classes[i]);
      ActiveReachesRoot(s.classes, i);
      var path := DescentExists(s.classes, ROOT);
      FirstIsLeast(s.classes, ROOT);
      TidyDescent(s.classes, ROOT, path);
      DequeueReturns(s, time, path);
    }
  }
}
