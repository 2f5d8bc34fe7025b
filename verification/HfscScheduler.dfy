/**
 The scheduler as an object whose methods update its classes and trees in place, each proved
 against the pure form. The trees' comparisons assert that keys of one class agree on the time;
 those assertions, and the ones on parent indices, are preconditions and assertions here, so
 they hold in every run of any operations.
 */
module HfscScheduler {
  import opened Basics
  import opened ServiceCurve
  import opened CurveMinimum
  import opened KeyTree
  import opened HfscState
  import opened HfscInvariant
  import opened HfscServing
  import opened HfscDescent
  import opened HfscScheduling
  import HfscRuns

  class Hfsc {
    var classes: seq<Class>
    var eligible: seq<Key>
    var class_names: map<string, nat>
    var pkts_queued: int

    function View(): Sched
      reads this
    {
      Sched(classes, eligible, class_names, pkts_queued)
    }

    ghost predicate Valid()
      reads this
    {
      SchedInv(View())
    }

    constructor (bandwidth: nat)
      ensures Valid() && View() == NewSched(bandwidth)
    {
      var root := NewClass(0, ROOT, 0, false, 0, Curves(None, Sc(0, 0, bandwidth)));
      classes := [DUMMY, root];
      eligible := [];
      class_names := map["dummy" := 0, "root" := ROOT];
      pkts_queued := 0;
      HfscRuns.NewSchedInv(bandwidth);
    }

    method CreateClass(name: string, parentName: string, qlimit: nat, isLeaf: bool, curves: Curves)
      returns (error: Option<CreateError>)
      requires Valid()
      modifies this
      ensures Valid()
      ensures (View(), error) == HfscState.CreateClass(old(View()), name, parentName, qlimit, isLeaf, curves)
    {
      HfscRuns.CreateClassKeeps(View(), name, parentName, qlimit, isLeaf, curves);
      if name in class_names {
        return Some(ClassExists);
      }
      if parentName !in class_names {
        return Some(ParentNotFound);
      }
      var parent := class_names[parentName];
      if parent >= |classes| || !classes[parent].cfg.in_use {
        return Some(InvalidParent);
      }
      var pvoff := classes[parent].cfg.pvoff;
      var free := |classes|;
      classes := classes + [NewClass(parent, free, qlimit, isLeaf, pvoff, curves)];
      class_names := class_names[name := free];
      return None;
    }

    // The fields of a class that joins its parent's active children, given its virtual time.
    static method JoinShare(cfg: Config, share: Share, parent: Share, pvoff: int) returns (sh: Share)
      requires pvoff == parent.voff
      ensures sh == Join(cfg, share, parent, share.vtime)
    {
      sh := share.(voff := pvoff - cfg.pvoff);
      var vt := sh.vtime + sh.voff;
      var run := UpdateToMin(sh.f_run, cfg.f_isc, vt, sh.f_bytes);
      sh := sh.(f_run := run);
      if sh.f_run.x == vt {
        sh := sh.(f_run := sh.f_run.(x := sh.f_run.x - sh.voff));
        sh := sh.(voff := 0);
      }
      sh := sh.(vadj := 0);
      sh := sh.(vperiod := sh.vperiod + 1);
      sh := sh.(pvperiod := parent.vperiod);
      if parent.nactive == 0 {
        sh := sh.(pvperiod := sh.pvperiod + 1);
      }
    }

    // The virtual time at which class c joins, and its parent's round, started if need be.
    method PlaceInRound(c: nat) returns (sh: Share, parent: Share)
      requires Forest(classes) && c < |classes|
      ensures sh == classes[c].sh.(vtime := JoinTime(classes, c))
      ensures parent == StartRound(classes[classes[c].cfg.parent].sh)
    {
      parent := classes[classes[c].cfg.parent].sh;
      sh := classes[c].sh;
      var maxChild, maxVtime := 0, 0;
      if parent.children != [] {
        assert parent.children[|parent.children| - 1] in parent.children;
        maxChild := parent.children[|parent.children| - 1].index;
        maxVtime := classes[maxChild].sh.vtime;
      }
      if maxChild != 0 {
        var vt := maxVtime;
        if parent.vmin != 0 {
          vt := (parent.vmin + vt) / 2;
        }
        if parent.vperiod != sh.pvperiod || vt > sh.vtime {
          sh := sh.(vtime := vt);
        }
      } else {
        parent := parent.(voff := parent.voff + parent.vmax);
        parent := parent.(vmax := 0);
        parent := parent.(vmin := 0);
        sh := sh.(vtime := 0);
      }
    }

    // The body of init_v for a class that goes active.
    method ActivateClass(c: nat)
      requires Shape(classes) && ROOT < c < |classes| && ChildrenExact(classes, c)
      modifies this`classes
      ensures classes == Activate(old(classes), c)
    {
      var p := classes[c].cfg.parent;
      assert classes[p].cfg.index == p;
      var sh, parent := PlaceInRound(c);
      sh := JoinShare(classes[c].cfg, sh, parent, parent.voff);
      var key := Key(sh.vtime, classes[c].cfg.index);
      assert Comparable(parent.children, key) by {
        assert TreeExact(classes, p, c);
        assert forall i :: 0 <= i < |parent.children| ==> parent.children[i] in parent.children;
      }
      var children := Insert(parent.children, key);
      classes := SetShare(classes, c, sh);
      classes := SetShare(classes, p, parent.(children := children));
    }

    method InitV(c: nat, ghost l: nat)
      requires InitVReady(classes, c, l)
      modifies this`classes
      ensures classes == HfscState.InitV(old(classes), c)
      decreases c
    {
      var p := classes[c].cfg.parent;
      if p == 0 {
        return;
      }
      ghost var cs := classes;
      InitVUnfold(cs, c);
      var goActive := classes[c].sh.nactive == 0;
      classes := OneMoreActive(classes, c);
      if goActive {
        OneMoreActiveChildren(cs, c, c);
        OneMoreActiveShape(cs, c, c);
        ActivateClass(c);
        InitVStep(cs, c, l);
        InitV(p, l);
      }
    }

    // A class with the key (vtime, index) leaves its parent's tree and, unless it goes passive,
    // returns under its new virtual time.
    static method MoveInTree(share: Share, parentShare: Share, index: nat, len: nat, passive: bool)
      returns (sh: Share, parent: Share, goPassive: bool)
      requires share.nactive > 0
      requires Sorted(parentShare.children) && Comparable(parentShare.children, Key(share.vtime, index))
      requires forall time :: Comparable(Without(parentShare.children, Key(share.vtime, index)), Key(time, index))
      ensures (sh, parent) == ServeShares(share, parentShare, index, len, passive)
      ensures goPassive == (passive && share.nactive == 1)
    {
      sh, parent := share, parentShare;
      sh := sh.(f_bytes := sh.f_bytes + len);
      if passive {
        sh := sh.(nactive := sh.nactive - 1);
      }
      goPassive := passive && sh.nactive == 0;
      var key := Key(sh.vtime, index);
      var pvmin := parent.vmin;
      var children := Delete(parent.children, key);
      if goPassive {
        if key.time > parent.vmax {
          parent := parent.(vmax := key.time);
        }
      } else {
        sh := sh.(vtime := RtscY2X(sh.f_run, sh.f_bytes) - sh.voff + sh.vadj);
        if sh.vtime < pvmin {
          sh := sh.(vadj := sh.vadj + (pvmin - sh.vtime));
          sh := sh.(vtime := pvmin);
        }
        children := Insert(children, Key(sh.vtime, index));
      }
      parent := parent.(children := children);
    }

    // The body of update_v for an active class.
    method ServeClass(c: nat, len: nat, passive: bool) returns (goPassive: bool)
      requires Shape(classes) && ROOT < c < |classes| && ChildrenExact(classes, 0) && classes[c].sh.nactive > 0
      modifies this`classes
      ensures classes == Serve(old(classes), c, len, passive)
      ensures goPassive == (passive && old(classes)[c].sh.nactive == 1)
    {
      var p := classes[c].cfg.parent;
      assert classes[p].cfg.index == p && classes[c].cfg.index == c;
      RemovalSafe(classes, c);
      var sh, parent;
      sh, parent, goPassive := MoveInTree(classes[c].sh, classes[p].sh, classes[c].cfg.index, len, passive);
      classes := SetShare(classes, c, sh);
      classes := SetShare(classes, p, parent);
    }

    // The comparisons made while a class's key is replaced keep the assertion on equal indices.
    static lemma RemovalSafe(cs: seq<Class>, c: nat)
      requires Shape(cs) && ROOT < c < |cs| && ChildrenExact(cs, 0)
      ensures var t, key := cs[cs[c].cfg.parent].sh.children, Key(cs[c].sh.vtime, c);
        && Sorted(t) && Comparable(t, key)
        && forall time :: Comparable(Without(t, key), Key(time, c))
    {
      var p := cs[c].cfg.parent;
      var t, key := cs[p].sh.children, Key(cs[c].sh.vtime, c);
      assert TreeExact(cs, p, 0);
      assert forall i :: 0 <= i < |t| ==> t[i] in t;
      WithoutKeys(t, key);
      var left := Without(t, key);
      assert forall i :: 0 <= i < |left| ==> left[i] in left;
    }

    method UpdateV(c: nat, len: nat, passive: bool)
      requires UpdateVReady(classes, c, passive)
      modifies this`classes
      ensures classes == HfscState.UpdateV(old(classes), c, len, passive)
      decreases c
    {
      var p := classes[c].cfg.parent;
      if p == 0 {
        return;
      }
      ghost var cs := classes;
      UpdateVUnfold(cs, c, len, passive);
      UpdateVStep(cs, c, len, passive);
      assert classes[c].sh.nactive != 0;  // the branch for an inactive class is never taken
      var goPassive := ServeClass(c, len, passive);
      UpdateV(p, len, goPassive);
    }

    method GetMinD(time: int) returns (class': nat)
      requires Valid()
      ensures Linked(View()) && class' == HfscState.GetMinD(classes, eligible, time)
    {
      DequeueReady(View());
      var deadline := HT_INFINITY;
      class' := 0;
      var i := 0;
      while i < |eligible|
        invariant i <= |eligible|
        invariant PickDeadline(classes, eligible[i..], time, class', deadline)
          == HfscState.GetMinD(classes, eligible, time)
      {
        assert eligible[i..][0] == eligible[i] && eligible[i..][1..] == eligible[i + 1..];
        assert eligible[i] in eligible;
        var child := eligible[i].index;
        if classes[child].rt.eligible > time {
          break;
        }
        if classes[child].rt.deadline < deadline {
          class' := child;
          deadline := classes[child].rt.deadline;
        }
        i := i + 1;
      }
    }

    method GetMinV(parent: nat) returns (r: nat)
      requires TreeInv(classes) && parent < |classes|
      modifies this`classes
      ensures (classes, r) == HfscState.GetMinV(old(classes), parent)
      decreases |classes| - parent
    {
      if classes[parent].sh.children == [] {
        return 0;
      }
      ghost var cs := classes;
      var ch := classes[parent].sh.children[0].index;
      FirstChild(cs, parent);
      RaiseFloorKeeps(cs, parent);
      assert classes[ch].cfg.parent == parent;
      var vtime := classes[ch].sh.vtime;
      var leaf := classes[ch].cfg.leaf;
      if vtime > classes[parent].sh.vmin {
        classes := SetShare(classes, parent, classes[parent].sh.(vmin := vtime));
      }
      r := GetMinV(ch);
      if r == 0 {
        r := if leaf then ch else 0;
      }
    }

    // The part of enqueue for a packet that finds its class's queue empty.
    method Wake(c: nat, len: nat, time: int)
      requires Valid() && ROOT <= c < |classes| && classes[c].packets == []
      modifies this`classes, this`eligible
      ensures View() == WakeUp(old(View()), c, len, time)
    {
      ghost var s := View();
      InitVReadyToWake(classes, c);
      InitV(c, c);
      if classes[c].cfg.r_isc.Some? {
        var cl := InitEd(classes[c], len, time);
        var key := Key(cl.rt.eligible, cl.cfg.index);
        assert Comparable(eligible, key) by {
          InitVWakes(s.classes, c);
          assert classes[c] == s.classes[c].(sh := classes[c].sh);
          assert forall i :: 0 <= i < |eligible| ==> eligible[i] in eligible && IsWaiting(s.classes, eligible[i]);
        }
        classes := classes[c := cl];
        eligible := Insert(eligible, key);
      }
    }

    method Accept(c: nat, pkt: Packet, time: int)
      requires Valid() && ROOT <= c < |classes|
      modifies this
      ensures View() == Append(Awake(old(View()), c, pkt.len, time), c, pkt)
    {
      if classes[c].packets == [] {
        Wake(c, pkt.len, time);
      }
      classes := classes[c := classes[c].(packets := classes[c].packets + [pkt])];
      pkts_queued := pkts_queued + 1;
    }

    // Enqueue as the pure form has it; the invariant follows below.
    method TryAccept(c: nat, pkt: Packet, time: int) returns (ok: bool)
      requires Valid()
      modifies this
      ensures Linked(old(View())) && (View(), ok) == HfscState.Enqueue(old(View()), c, pkt, time)
    {
      DequeueReady(View());
      if c >= |classes| || !classes[c].cfg.in_use {
        return false;
      }
      var qlen := |classes[c].packets|;
      if classes[c].cfg.qlimit != 0 && qlen >= classes[c].cfg.qlimit {
        classes := classes[c := classes[c].(qdrops := classes[c].qdrops + 1)];
        return false;
      }
      Accept(c, pkt, time);
      return true;
    }

    method Enqueue(c: nat, pkt: Packet, time: int) returns (ok: bool)
      requires Valid()
      modifies this
      ensures Valid()
      ensures Linked(old(View())) && (View(), ok) == HfscState.Enqueue(old(View()), c, pkt, time)
    {
      ghost var s := View();
      ok := TryAccept(c, pkt, time);
      EnqueueKeeps(s, c, pkt, time);
    }

    // The head packet of a class picked for its deadline leaves the class and the eligible tree.
    method HeadRealTime(c: nat) returns (cl: Class, tree: seq<Key>)
      requires c < |classes| && classes[c].packets != [] && classes[c].cfg.index == c && KeySafe(classes[c], eligible)
      ensures (cl, tree) == TakeRealTime(classes[c], eligible)
    {
      cl, tree := classes[c], eligible;
      var pkt := cl.packets[0];
      cl := cl.(packets := cl.packets[1..]);
      cl := cl.(rt := cl.rt.(r_bytes := cl.rt.r_bytes + pkt.len));
      var qempty := cl.packets == [];
      if !qempty {
        if cl.cfg.r_isc.Some? {
          tree := Delete(tree, Key(cl.rt.eligible, cl.cfg.index));
          cl := UpdateEd(cl, cl.packets[0].len);
          tree := Insert(tree, Key(cl.rt.eligible, cl.cfg.index));
        }
      } else if cl.cfg.r_isc.Some? {
        tree := Delete(tree, Key(cl.rt.eligible, cl.cfg.index));
      }
    }

    // The head packet of a class picked for its virtual time leaves the class and the eligible tree.
    method HeadLinkShare(c: nat) returns (cl: Class, tree: seq<Key>)
      requires c < |classes| && classes[c].packets != [] && classes[c].cfg.index == c && KeySafe(classes[c], eligible)
      ensures (cl, tree) == TakeLinkShare(classes[c], eligible)
    {
      cl, tree := classes[c], eligible;
      cl := cl.(packets := cl.packets[1..]);
      var qempty := cl.packets == [];
      if !qempty {
        if cl.cfg.r_isc.Some? {
          cl := UpdateD(cl, cl.packets[0].len);
        }
      } else if cl.cfg.r_isc.Some? {
        tree := Delete(tree, Key(cl.rt.eligible, cl.cfg.index));
      }
    }

    method PopRealTime(c: nat) returns (pkt: Packet)
      requires CanServe(View(), c)
      modifies this`classes, this`eligible
      ensures pkt == old(classes)[c].packets[0]
      ensures View() == ServeRealTime(old(View()), c).(queued := pkts_queued)
    {
      pkt := classes[c].packets[0];
      LeaveSafe(View(), c);
      var cl, tree := HeadRealTime(c);
      TakeRealTimeTaken(View(), c);
      TakenReady(View(), c, cl, tree);
      eligible := tree;
      classes := classes[c := cl];
      UpdateV(c, pkt.len, cl.packets == []);
    }

    method PopLinkShare(c: nat) returns (pkt: Packet)
      requires CanServe(View(), c)
      modifies this`classes, this`eligible
      ensures pkt == old(classes)[c].packets[0]
      ensures View() == ServeLinkShare(old(View()), c).(queued := pkts_queued)
    {
      pkt := classes[c].packets[0];
      LeaveSafe(View(), c);
      var cl, tree := HeadLinkShare(c);
      TakeLinkShareTaken(View(), c);
      TakenReady(View(), c, cl, tree);
      eligible := tree;
      classes := classes[c := cl];
      UpdateV(c, pkt.len, cl.packets == []);
    }

    // The key of a class may be removed from the eligible tree and another one inserted.
    static ghost predicate KeySafe(cl: Class, t: seq<Key>) {
      var key := Key(cl.rt.eligible, cl.cfg.index);
      && Sorted(t) && Comparable(t, key)
      && forall time :: Comparable(Without(t, key), Key(time, cl.cfg.index))
    }

    static lemma LeaveSafe(s: Sched, c: nat)
      requires CanServe(s, c)
      ensures KeySafe(s.classes[c], s.eligible)
    {
      var key := Key(s.classes[c].rt.eligible, c);
      assert forall i :: 0 <= i < |s.eligible| ==> s.eligible[i] in s.eligible && IsWaiting(s.classes, s.eligible[i]);
      WithoutKeys(s.eligible, key);
      var left := Without(s.eligible, key);
      assert forall i :: 0 <= i < |left| ==> left[i] in left;
    }

    method DequeueByDeadline(child: nat) returns (ret: Option<Packet>)
      requires Valid() && ROOT < child < |classes|
      modifies this
      ensures Linked(old(View())) && (View(), ret) == HfscState.DequeueByDeadline(old(View()), child)
    {
      ghost var s := View();
      DequeueReady(s);
      ret := None;
      if classes[child].packets != [] {
        assert ServeRealTime(s, child).queued == s.queued - 1;
        var pkt := PopRealTime(child);
        ret := Some(pkt);
        pkts_queued := pkts_queued - 1;
      }
    }

    // The descent from the root: floors rise, and the class found can be served if it has packets.
    method Descend() returns (child: nat)
      requires Valid()
      modifies this`classes
      ensures Linked(old(View())) && Valid()
      ensures (classes, child) == HfscState.GetMinV(old(classes), ROOT)
      ensures child < |classes| && (child != 0 && classes[child].packets != [] ==> CanServe(View(), child))
    {
      ghost var s := View();
      DequeueReady(s);
      ghost var path := DescentExists(classes, ROOT);
      DescendKeeps(s, path);
      LastLeafIs(classes, path);
      child := GetMinV(ROOT);
    }

    method ServeFound(child: nat) returns (ret: Option<Packet>)
      requires child < |classes| && (child != 0 && classes[child].packets != [] ==> CanServe(View(), child))
      modifies this
      ensures child == 0 || old(classes)[child].packets == [] ==> View() == old(View()) && ret == None
      ensures child != 0 && old(classes)[child].packets != [] ==>
        (Forest(old(classes)) && View() == ServeLinkShare(old(View()), child)
          && ret == Some(old(classes)[child].packets[0]))
    {
      ret := None;
      if child != 0 {
        if classes[child].packets != [] {
          var pkt := PopLinkShare(child);
          ret := Some(pkt);
          pkts_queued := pkts_queued - 1;
        }
      }
    }

    method DequeueByVtime() returns (ret: Option<Packet>)
      requires Valid()
      modifies this
      ensures Linked(old(View())) && (View(), ret) == HfscState.DequeueByVtime(old(View()))
    {
      var child := Descend();
      ret := ServeFound(child);
    }

    method Dequeue(time: int) returns (ret: Option<Packet>)
      requires Valid()
      modifies this
      ensures Valid()
      ensures Linked(old(View())) && (View(), ret) == HfscState.Dequeue(old(View()), time)
    {
      ghost var s := View();
      DequeueReady(s);
      var child := GetMinD(time);
      GetMinDLeast(s, time);
      if child != 0 {
        ret := DequeueByDeadline(child);
      } else {
        ret := DequeueByVtime();
      }
      DequeueKeeps(s, time);
    }
  }
}
