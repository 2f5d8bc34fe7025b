/**
 What happens to the virtual times when a packet is sent: how far its class and the classes above it
 move on, what a class that goes idle leaves behind, and which floors rise.
 */
module HfscTurn {
  import opened Basics
  import opened ServiceCurve
  import opened KeyTree
  import opened HfscState
  import opened HfscInvariant
  import opened HfscServing
  import opened HfscDescent
  import opened HfscScheduling

  function Later(a: int, b: int): int {
    if a < b then b else a
  }

  // A class is credited with the bytes. If it stays active it moves to the time that its curve has for
  // them, by its offset and adjustment, or to its parent's floor if that is later, and the adjustment makes
  // up for the difference. Otherwise it stays where it is. Its curve and its period stay.
  ghost predicate MovesOn(own: Share, now: Share, floor: int, len: nat) {
    && now.f_bytes == own.f_bytes + len
    && now.f_run == own.f_run && now.voff == own.voff && now.vperiod == own.vperiod && now.pvperiod == own.pvperiod
    && if now.nactive > 0 then
         && now.vtime == Later(RtscY2X(own.f_run, now.f_bytes) - own.voff + own.vadj, floor)
         && now.vtime == RtscY2X(now.f_run, now.f_bytes) - now.voff + now.vadj
       else
         now.vtime == own.vtime && now.vadj == own.vadj
  }

  // A class that is not on the way keeps its place.
  ghost predicate StaysPut(own: Share, now: Share) {
    && now.f_bytes == own.f_bytes && now.vtime == own.vtime && now.vadj == own.vadj && now.f_run == own.f_run
    && now.voff == own.voff && now.vperiod == own.vperiod && now.pvperiod == own.pvperiod && now.nactive == own.nactive
  }

  // The latest time at which a class of this round went idle.
  ghost predicate RoundEnds(cs: seq<Class>, cs': seq<Class>, i: nat)
    requires Forest(cs) && i < |cs| == |cs'|
  {
    var p := cs[i].cfg.parent;
    cs'[p].sh.vmax == if cs'[i].sh.nactive > 0 then cs[p].sh.vmax else Later(cs[p].sh.vmax, cs[i].sh.vtime)
  }

  // Class i after bytes were sent at or below class c. Floors are those after the descent.
  ghost predicate Turns(cs: seq<Class>, cs': seq<Class>, c: nat, len: nat, i: nat)
    requires Forest(cs) && i < |cs| == |cs'| && c < |cs|
  {
    if Under(cs, c, i)
    then MovesOn(cs[i].sh, cs'[i].sh, cs'[cs[i].cfg.parent].sh.vmin, len) && RoundEnds(cs, cs', i)
    else StaysPut(cs[i].sh, cs'[i].sh)
  }

  /// ## One level

  lemma ServeTurn(cs: seq<Class>, c: nat, len: nat, passive: bool)
    requires Forest(cs) && ROOT < c < |cs| && cs[c].cfg.parent != 0 && cs[c].sh.nactive > 0
    ensures var cs1, p := Serve(cs, c, len, passive), cs[c].cfg.parent;
      && MovesOn(cs[c].sh, cs1[c].sh, cs[p].sh.vmin, len) && RoundEnds(cs, cs1, c)
      && StaysPut(cs[p].sh, cs1[p].sh) && cs1[p].sh.vmin == cs[p].sh.vmin
      && forall i :: 0 <= i < |cs| && i != c && i != p ==> cs1[i].sh == cs[i].sh
  {
  }

  lemma {:induction false} UpdateVAbove(cs: seq<Class>, c: nat, len: nat, passive: bool)
    requires Forest(cs) && c < |cs|
    ensures forall i :: c < i < |cs| ==> UpdateV(cs, c, len, passive)[i].sh == cs[i].sh
    ensures UpdateV(cs, c, len, passive)[c].sh.vmax == cs[c].sh.vmax
    decreases c
  {
    if cs[c].cfg.parent != 0 {
      if cs[c].sh.nactive == 0 {
        UpdateVAbove(AddBytes(cs, c, len), cs[c].cfg.parent, len, passive);
      } else {
        ServeForest(cs, c, len, passive);
        UpdateVAbove(Serve(cs, c, len, passive), cs[c].cfg.parent, len, passive && cs[c].sh.nactive == 1);
      }
    }
  }

  lemma FirstTurns(cs: seq<Class>, c: nat, len: nat, passive: bool)
    requires UpdateVReady(cs, c, passive) && ROOT < c
    ensures Turns(cs, UpdateV(cs, c, len, passive), c, len, c)
  {
    var cs1, p := Serve(cs, c, len, passive), cs[c].cfg.parent;
    UpdateVUnfold(cs, c, len, passive);
    ServeTurn(cs, c, len, passive);
    UpdateVAbove(cs1, p, len, passive && cs[c].sh.nactive == 1);
    UpdateVFloors(cs, c, len, passive);
  }

  // The classes further up, as seen before the first level was served.
  lemma OthersTurn(cs: seq<Class>, c: nat, len: nat, passive: bool, cs': seq<Class>, i: nat)
    requires Shape(cs) && ROOT < c < |cs| == |cs'| && cs[c].sh.nactive > 0 && ROOT < i < |cs| && i != c
    requires var cs1, p := Serve(cs, c, len, passive), cs[c].cfg.parent;
      && Forest(cs1) && OnlyShares(cs, cs1) && Turns(cs1, cs', p, len, i)
    ensures Turns(cs, cs', c, len, i)
  {
    var cs1, p := Serve(cs, c, len, passive), cs[c].cfg.parent;
    ServeTurn(cs, c, len, passive);
    UnderSame(cs, cs1, p, i);
    if Under(cs, p, i) {
      UnderOrder(cs, p, i);
    }
  }

  lemma {:induction false} UpdateVTurns(cs: seq<Class>, c: nat, len: nat, passive: bool, i: nat)
    requires UpdateVReady(cs, c, passive) && ROOT < i < |cs|
    ensures Turns(cs, UpdateV(cs, c, len, passive), c, len, i)
    decreases c
  {
    if ROOT < c {
      if i == c {
        FirstTurns(cs, c, len, passive);
      } else {
        var cs1, p, lost := Serve(cs, c, len, passive), cs[c].cfg.parent, passive && cs[c].sh.nactive == 1;
        UpdateVUnfold(cs, c, len, passive);
        UpdateVStep(cs, c, len, passive);
        ServeEffect(cs, c, len, passive);
        UpdateVTurns(cs1, p, len, lost, i);
        OthersTurn(cs, c, len, passive, UpdateV(cs1, p, len, lost), i);
      }
    } else if Under(cs, c, i) {
      UnderOrder(cs, c, i);
    }
  }

  /// ## The floors

  // The class that a path from p leads to from class q, or 0 if it does not pass q.
  function NextOn(p: nat, path: seq<nat>, q: nat): nat
    decreases |path|
  {
    if path == [] then 0 else if q == p then path[0] else NextOn(path[0], path[1..], q)
  }

  // The path leads down, so it does not come back to an earlier class.
  lemma {:induction false} NotEarlier(cs: seq<Class>, p: nat, path: seq<nat>, q: nat)
    requires Forest(cs) && p < |cs| && q < p && Descent(cs, p, path)
    ensures NextOn(p, path, q) == 0
    decreases |path|
  {
    if path != [] {
      NotEarlier(cs, path[0], path[1..], q);
    }
  }

  // On the way down a parent's floor rises to the virtual time of the child it leads to; no other changes.
  ghost predicate FloorAfter(cs: seq<Class>, after: seq<Class>, p: nat, path: seq<nat>, q: nat)
    requires |after| == |cs| && q < |cs|
  {
    var next := NextOn(p, path, q);
    after[q].sh.vmin == if 0 < next < |cs| then Later(cs[q].sh.vmin, cs[next].sh.vtime) else cs[q].sh.vmin
  }

  lemma {:induction false} DescentFloors(cs: seq<Class>, p: nat, path: seq<nat>, q: nat)
    requires TreeInv(cs) && p < |cs| && Descent(cs, p, path) && q < |cs|
    ensures FloorAfter(cs, GetMinV(cs, p).0, p, path, q)
    decreases |path|
  {
    if cs[p].sh.children != [] {
      var ch := cs[p].sh.children[0].index;
      var raised := RaiseFloor(cs, p, cs[ch].sh.vtime);
      FirstIsLeast(cs, p);
      assert path != [] && path[0] == ch;
      RaiseFloorKeeps(cs, p);
      DescentSame(cs, raised, ch, path[1..]);
      DescentFloors(raised, ch, path[1..], q);
      if q == p {
        NotEarlier(raised, ch, path[1..], p);
      }
    } else if path != [] {
      ActiveInTree(cs, p, path[0]);
    }
  }

  /// ## Dequeue

  // What is credited, and to whom.
  lemma ServedTurns(s: Sched, c: nat, cl: Class, tree: seq<Key>, i: nat)
    requires CanServe(s, c) && Taken(s, c, cl, tree) && ROOT < i < |s.classes|
    ensures Forest(s.classes[c := cl])
    ensures Turns(s.classes, Served(s, c, cl, tree).classes, c, s.classes[c].packets[0].len, i)
  {
    var cs', len := s.classes[c := cl], s.classes[c].packets[0].len;
    TakenReady(s, c, cl, tree);
    UpdateVTurns(cs', c, len, cl.packets == [], i);
    UnderReplaced(s.classes, cs', c, i);
  }

  lemma RealTimeTurns(s: Sched, c: nat, i: nat)
    requires CanServe(s, c) && ROOT < i < |s.classes|
    ensures |ServeRealTime(s, c).classes| == |s.classes|
    ensures Turns(s.classes, ServeRealTime(s, c).classes, c, s.classes[c].packets[0].len, i)
  {
    var (cl, tree) := TakeRealTime(s.classes[c], s.eligible);
    TakeRealTimeTaken(s, c);
    ServedTurns(s, c, cl, tree, i);
    assert ServeRealTime(s, c) == Served(s, c, cl, tree);
  }

  lemma LinkShareTurns(s: Sched, c: nat, i: nat)
    requires CanServe(s, c) && ROOT < i < |s.classes|
    ensures |ServeLinkShare(s, c).classes| == |s.classes|
    ensures Turns(s.classes, ServeLinkShare(s, c).classes, c, s.classes[c].packets[0].len, i)
  {
    var (cl, tree) := TakeLinkShare(s.classes[c], s.eligible);
    TakeLinkShareTaken(s, c);
    ServedTurns(s, c, cl, tree, i);
    assert ServeLinkShare(s, c) == Served(s, c, cl, tree);
  }

  lemma RaisedTurns(cs: seq<Class>, raised: seq<Class>, cs': seq<Class>, c: nat, len: nat, i: nat)
    requires Forest(cs) && Forest(raised) && OnlyFloors(cs, raised) && |cs'| == |cs| && c < |cs| && i < |cs|
    requires Turns(raised, cs', c, len, i)
    ensures Turns(cs, cs', c, len, i)
  {
    assert forall j :: 0 <= j < |cs| ==> raised[j].cfg == cs[j].cfg;
    UnderReplaced(cs, raised, c, i);
  }

  // Serving leaves the floors as the descent left them.
  lemma ServedFloors(s: Sched, c: nat, q: nat)
    requires CanServe(s, c) && q < |s.classes|
    ensures ServeLinkShare(s, c).classes[q].sh.vmin == ServeRealTime(s, c).classes[q].sh.vmin == s.classes[q].sh.vmin
  {
    var (cl, tree) := TakeRealTime(s.classes[c], s.eligible);
    TakeRealTimeTaken(s, c);
    TakenReady(s, c, cl, tree);
    UpdateVFloors(s.classes[c := cl], c, s.classes[c].packets[0].len, cl.packets == []);
    var (dl, tree') := TakeLinkShare(s.classes[c], s.eligible);
    TakeLinkShareTaken(s, c);
    TakenReady(s, c, dl, tree');
    UpdateVFloors(s.classes[c := dl], c, s.classes[c].packets[0].len, dl.packets == []);
  }

  // A packet that is sent moves on the class it comes from and those above it, and only them; floors rise
  // along the path of least virtual times unless the packet is sent by deadline.
  ghost predicate Sent(s: Sched, s': Sched, r: Option<Packet>, d: nat, i: nat)
    requires Forest(s.classes) && d < |s.classes| && i < |s.classes| == |s'.classes|
  {
    if r.Some? then Turns(s.classes, s'.classes, d, r.value.len, i) else StaysPut(s.classes[i].sh, s'.classes[i].sh)
  }

  lemma {:induction false} DequeueTurns(s: Sched, time: int, path: seq<nat>, i: nat)
    requires SchedInv(s) && Descent(s.classes, ROOT, path) && ROOT < i < |s.classes|
    ensures Linked(s) && Picked(s, time) < |s.classes| == |Dequeue(s, time).0.classes|
    ensures var (s', r) := Dequeue(s, time);
      && Sent(s, s', r, Picked(s, time), i)
      && forall q: nat {:trigger FloorAfter(s.classes, s'.classes, ROOT, path, q)} :: q < |s.classes| ==>
        if SomeDue(s.classes, time) then s'.classes[q].sh.vmin == s.classes[q].sh.vmin
        else FloorAfter(s.classes, s'.classes, ROOT, path, q)
  {
    DequeueReady(s);
    GetMinDLeast(s, time);
    if SomeDue(s.classes, time) {
      ByDeadlineTurns(s, time, i);
    } else {
      ByVtimeTurns(s, time, path, i);
    }
  }

  lemma ByDeadlineTurns(s: Sched, time: int, i: nat)
    requires SchedInv(s) && Linked(s) && SomeDue(s.classes, time) && ROOT < i < |s.classes|
    ensures Picked(s, time) < |s.classes| == |Dequeue(s, time).0.classes|
    ensures var (s', r) := Dequeue(s, time);
      Sent(s, s', r, Picked(s, time), i) && forall q: nat :: q < |s.classes| ==>
        s'.classes[q].sh.vmin == s.classes[q].sh.vmin
  {
    var c := GetMinD(s.classes, s.eligible, time);
    GetMinDLeast(s, time);
    RealTimeTurns(s, c, i);
    forall q: nat | q < |s.classes| ensures ServeRealTime(s, c).classes[q].sh.vmin == s.classes[q].sh.vmin {
      ServedFloors(s, c, q);
    }
  }

  lemma ByVtimeTurns(s: Sched, time: int, path: seq<nat>, i: nat)
    requires SchedInv(s) && Linked(s) && !SomeDue(s.classes, time) && Descent(s.classes, ROOT, path)
    requires ROOT < i < |s.classes|
    ensures Picked(s, time) < |s.classes| == |Dequeue(s, time).0.classes|
    ensures var (s', r) := Dequeue(s, time);
      Sent(s, s', r, Picked(s, time), i) && forall q: nat :: q < |s.classes| ==>
        FloorAfter(s.classes, s'.classes, ROOT, path, q)
  {
    var (raised, c) := GetMinV(s.classes, ROOT);
    var s1 := s.(classes := raised);
    GetMinDLeast(s, time);
    DescendKeeps(s, path);
    LastLeafIs(s.classes, path);
    forall q: nat | q < |s.classes| ensures FloorAfter(s.classes, Dequeue(s, time).0.classes, ROOT, path, q) {
      DescentFloors(s.classes, ROOT, path, q);
      if Supplied(s.classes, path) {
        ServedFloors(s1, c, q);
      }
    }
    if Supplied(s.classes, path) {
      LinkShareTurns(s1, c, i);
      RaisedTurns(s.classes, raised, ServeLinkShare(s1, c).classes, c, raised[c].packets[0].len, i);
    }
  }
}
