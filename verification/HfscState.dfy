/**
 The classes of the HFSC scheduler and the pure form of its recursive updates. Classes live in
 one sequence and refer to each other by index: 0 is a dummy, 1 is the root, and a class is
 always created after its parent. Times and byte counts are unbounded integers.
 */
module HfscState {
  import opened Basics
  import opened ServiceCurve
  import opened CurveMinimum
  import opened KeyTree

  datatype Packet = Packet(id: nat, len: nat)

  datatype Curves = Curves(r_sc: Option<Sc>, f_sc: Sc)

  /// A class, its fields in three groups: what creation fixes, what the real-time criterion
  /// uses, and what link sharing uses.

  datatype Config = Config(
    in_use: bool, leaf: bool, parent: nat, index: nat, qlimit: nat, pvoff: int,
    f_isc: InternalSc, r_isc: Option<InternalSc>)

  datatype RealTime = RealTime(eligible: int, deadline: int, r_bytes: nat, e_run: RuntimeSc, d_run: RuntimeSc)

  datatype Share = Share(
    vtime: int, vmin: int, vmax: int, voff: int, vadj: int, vperiod: nat, pvperiod: nat,
    f_bytes: nat, f_run: RuntimeSc, nactive: nat, children: seq<Key>)

  datatype Class = Class(cfg: Config, rt: RealTime, sh: Share, qdrops: nat, packets: seq<Packet>)

  const ROOT := 1

  const ZERO_CURVE := RuntimeSc(0, 0, 0, 0, 0, 0, 0, 0)

  function NewClass(parent: nat, index: nat, qlimit: nat, isLeaf: bool, pvoff: int, curves: Curves): Class {
    var r_isc := if curves.r_sc.Some? then Some(Sc2Isc(curves.r_sc.value)) else None;
    var run := if r_isc.Some? then RuntimeInit(r_isc.value, 0, 0) else ZERO_CURVE;
    var f_isc := Sc2Isc(curves.f_sc);
    Class(Config(true, isLeaf, parent, index, qlimit, pvoff, f_isc, r_isc),
          RealTime(0, 0, 0, run, run),
          Share(0, 0, 0, 0, 0, 0, 0, 0, RuntimeInit(f_isc, 0, 0), 0, []),
          0, [])
  }

  const DUMMY :=
    var cl := NewClass(0, 0, 0, false, 0, Curves(None, Sc(0, 0, 0)));
    cl.(cfg := cl.cfg.(in_use := false))

  // Parents come before their children, and the trees only name classes that come later.
  ghost predicate Forest(cs: seq<Class>) {
    forall i :: 0 <= i < |cs| ==>
      && cs[i].cfg.index == i
      && (cs[i].cfg.parent == 0 || cs[i].cfg.parent < i)
      && (forall k :: k in cs[i].sh.children ==> i < k.index < |cs|)
  }

  // Class i with new link-sharing fields.
  function SetShare(cs: seq<Class>, i: nat, sh: Share): (r: seq<Class>)
    requires i < |cs|
    ensures |r| == |cs|
  {
    cs[i := cs[i].(sh := sh)]
  }

  /// ## Going active

  // The virtual time with which class c joins the active children of its parent.
  function JoinTime(cs: seq<Class>, c: nat): int
    requires Forest(cs) && c < |cs|
  {
    var sh, par := cs[c].sh, cs[cs[c].cfg.parent].sh;
    if par.children == [] then 0
    else
      var maxVtime := cs[par.children[|par.children| - 1].index].sh.vtime;
      var vt := if par.vmin != 0 then (par.vmin + maxVtime) / 2 else maxVtime;
      if par.vperiod != sh.pvperiod || vt > sh.vtime then vt else sh.vtime
  }

  // A parent without active children starts a new round of virtual time.
  function StartRound(par: Share): Share {
    if par.children == [] then par.(voff := par.voff + par.vmax, vmax := 0, vmin := 0) else par
  }

  // A class joins at virtual time vtime, under a parent whose round is set up.
  function Join(cfg: Config, sh: Share, par: Share, vtime: int): Share {
    var voff := par.voff - cfg.pvoff;
    var vt := vtime + voff;
    var run := RtscMin(sh.f_run, cfg.f_isc, vt, sh.f_bytes);
    sh.(vtime := vtime,
        f_run := if run.x == vt then run.(x := run.x - voff) else run,
        voff := if run.x == vt then 0 else voff,
        vadj := 0,
        vperiod := sh.vperiod + 1,
        pvperiod := par.vperiod + if par.nactive == 0 then 1 else 0)
  }

  function Activate(cs: seq<Class>, c: nat): (r: seq<Class>)
    requires Forest(cs) && c < |cs| && cs[c].cfg.parent != 0
    ensures |r| == |cs|
  {
    var p := cs[c].cfg.parent;
    var par := StartRound(cs[p].sh);
    var sh := Join(cs[c].cfg, cs[c].sh, par, JoinTime(cs, c));
    SetShare(SetShare(cs, c, sh), p, par.(children := With(par.children, Key(sh.vtime, cs[c].cfg.index))))
  }

  function OneMoreActive(cs: seq<Class>, c: nat): (r: seq<Class>)
    requires c < |cs|
    ensures |r| == |cs|
  {
    SetShare(cs, c, cs[c].sh.(nactive := cs[c].sh.nactive + 1))
  }

  // Counts one more active child (or packet queue) at c and activates c and its ancestors as needed.
  function InitV(cs: seq<Class>, c: nat): (r: seq<Class>)
    requires Forest(cs) && c < |cs|
    ensures |r| == |cs|
    decreases c
  {
    if cs[c].cfg.parent == 0 then cs
    else
      var counted := OneMoreActive(cs, c);
      if cs[c].sh.nactive == 0 then
        ActivateForest(counted, c);
        InitV(Activate(counted, c), cs[c].cfg.parent)
      else
        counted
  }

  lemma {:induction false} ActivateForest(cs: seq<Class>, c: nat)
    requires Forest(cs) && c < |cs| && cs[c].cfg.parent != 0
    ensures Forest(Activate(cs, c))
  {
    WithMembers(cs[cs[c].cfg.parent].sh.children, Key(JoinTime(cs, c), c));
  }

  lemma {:induction false} WithMembers(t: seq<Key>, k: Key)
    ensures forall x :: x in With(t, k) ==> x in t || x == k
  {
    if t != [] && t[0] != k && !Before(k, t[0]) {
      WithMembers(t[1..], k);
    }
  }

  lemma {:induction false} WithoutMembers(t: seq<Key>, k: Key)
    ensures forall x :: x in Without(t, k) ==> x in t
  {
    if t != [] && t[0] != k {
      WithoutMembers(t[1..], k);
    }
  }

  /// ## Serving bytes and going passive

  // The virtual time of a class that stays active, raised to its parent's floor.
  function Advance(sh: Share, pvmin: int): Share {
    var vtime := RtscY2X(sh.f_run, sh.f_bytes) - sh.voff + sh.vadj;
    if vtime < pvmin then sh.(vtime := pvmin, vadj := sh.vadj + (pvmin - vtime)) else sh.(vtime := vtime)
  }

  function AddBytes(cs: seq<Class>, c: nat, len: nat): (r: seq<Class>)
    requires c < |cs|
    ensures |r| == |cs|
  {
    SetShare(cs, c, cs[c].sh.(f_bytes := cs[c].sh.f_bytes + len))
  }

  // The shares of a class with index c that has served len bytes, and of its parent. With
  // `passive` the class lost its last packet or an active child.
  function ServeShares(sh: Share, par: Share, c: nat, len: nat, passive: bool): (Share, Share)
    requires sh.nactive > 0
  {
    var served := sh.(f_bytes := sh.f_bytes + len, nactive := sh.nactive - if passive then 1 else 0);
    var removed := Without(par.children, Key(sh.vtime, c));
    if passive && served.nactive == 0 then
      (served, par.(children := removed, vmax := if sh.vtime > par.vmax then sh.vtime else par.vmax))
    else
      var moved := Advance(served, par.vmin);
      (moved, par.(children := With(removed, Key(moved.vtime, c))))
  }

  function Serve(cs: seq<Class>, c: nat, len: nat, passive: bool): (r: seq<Class>)
    requires Forest(cs) && c < |cs| && cs[c].cfg.parent != 0 && cs[c].sh.nactive > 0
    ensures |r| == |cs|
  {
    var p := cs[c].cfg.parent;
    var (sh, par) := ServeShares(cs[c].sh, cs[p].sh, c, len, passive);
    SetShare(SetShare(cs, c, sh), p, par)
  }

  function UpdateV(cs: seq<Class>, c: nat, len: nat, passive: bool): (r: seq<Class>)
    requires Forest(cs) && c < |cs|
    ensures |r| == |cs|
    decreases c
  {
    if cs[c].cfg.parent == 0 then cs
    else if cs[c].sh.nactive == 0 then
      UpdateV(AddBytes(cs, c, len), cs[c].cfg.parent, len, passive)
    else
      ServeForest(cs, c, len, passive);
      UpdateV(Serve(cs, c, len, passive), cs[c].cfg.parent, len, passive && cs[c].sh.nactive == 1)
  }

  lemma {:induction false} ServeForest(cs: seq<Class>, c: nat, len: nat, passive: bool)
    requires Forest(cs) && c < |cs| && cs[c].cfg.parent != 0 && cs[c].sh.nactive > 0
    ensures Forest(Serve(cs, c, len, passive))
  {
    var p := cs[c].cfg.parent;
    var removed := Without(cs[p].sh.children, Key(cs[c].sh.vtime, c));
    WithoutMembers(cs[p].sh.children, Key(cs[c].sh.vtime, c));
    WithMembers(removed, Key(Serve(cs, c, len, passive)[c].sh.vtime, c));
  }

  /// ## Choosing a class

  // The class of least deadline among those already eligible, in tree order up to the first
  // class that is not.
  function PickDeadline(cs: seq<Class>, t: seq<Key>, time: int, class': nat, deadline: int): nat
    requires forall k :: k in t ==> k.index < |cs|
  {
    if t == [] || cs[t[0].index].rt.eligible > time then class'
    else if cs[t[0].index].rt.deadline < deadline then
      PickDeadline(cs, t[1..], time, t[0].index, cs[t[0].index].rt.deadline)
    else
      PickDeadline(cs, t[1..], time, class', deadline)
  }

  function GetMinD(cs: seq<Class>, t: seq<Key>, time: int): nat
    requires forall k :: k in t ==> k.index < |cs|
  {
    PickDeadline(cs, t, time, 0, HT_INFINITY)
  }

  // A parent's floor rises to the least virtual time among its active children.
  function RaiseFloor(cs: seq<Class>, parent: nat, vtime: int): (r: seq<Class>)
    requires parent < |cs|
    ensures |r| == |cs|
  {
    if vtime > cs[parent].sh.vmin then SetShare(cs, parent, cs[parent].sh.(vmin := vtime)) else cs
  }

  // Descends along the children of least virtual time.
  function GetMinV(cs: seq<Class>, parent: nat): (r: (seq<Class>, nat))
    requires Forest(cs) && parent < |cs|
    ensures |r.0| == |cs|
    decreases |cs| - parent
  {
    if cs[parent].sh.children == [] then (cs, 0)
    else
      var ch := cs[parent].sh.children[0].index;
      var (after, r) := GetMinV(RaiseFloor(cs, parent, cs[ch].sh.vtime), ch);
      (after, if r == 0 then if cs[ch].cfg.leaf then ch else 0 else r)
  }

  /// ## Real-time curves

  function InitEd(cl: Class, nextLen: nat, time: int): Class {
    if cl.cfg.r_isc.None? then cl
    else
      var r_isc := cl.cfg.r_isc.value;
      var d_run := RtscMin(cl.rt.d_run, r_isc, time, cl.sh.f_bytes);
      var e_run := if r_isc.sm1 <= r_isc.sm2 then d_run.(dx := 0, dy := 0) else d_run;
      cl.(rt := cl.rt.(d_run := d_run, e_run := e_run,
                       eligible := RtscY2X(e_run, cl.sh.f_bytes),
                       deadline := RtscY2X(d_run, cl.sh.f_bytes + nextLen)))
  }

  function UpdateEd(cl: Class, nextLen: nat): Class {
    cl.(rt := cl.rt.(eligible := RtscY2X(cl.rt.e_run, cl.sh.f_bytes),
                     deadline := RtscY2X(cl.rt.d_run, cl.sh.f_bytes + nextLen)))
  }

  function UpdateD(cl: Class, nextLen: nat): Class {
    cl.(rt := cl.rt.(deadline := RtscY2X(cl.rt.d_run, cl.sh.f_bytes + nextLen)))
  }

  /// ## The scheduler's operations

  datatype Sched = Sched(classes: seq<Class>, eligible: seq<Key>, names: map<string, nat>, queued: int)

  // Indices stay within the classes: what every operation needs to make sense.
  ghost predicate Linked(s: Sched) {
    Forest(s.classes) && ROOT < |s.classes| && forall k :: k in s.eligible ==> k.index < |s.classes|
  }

  datatype CreateError = ClassExists | ParentNotFound | InvalidParent

  function NewSched(bandwidth: nat): Sched {
    var root := NewClass(0, ROOT, 0, false, 0, Curves(None, Sc(0, 0, bandwidth)));
    Sched([DUMMY, root], [], map["dummy" := 0, "root" := ROOT], 0)
  }

  function CreateClass(s: Sched, name: string, parentName: string, qlimit: nat, isLeaf: bool, curves: Curves)
    : (Sched, Option<CreateError>)
  {
    if name in s.names then (s, Some(ClassExists))
    else if parentName !in s.names then (s, Some(ParentNotFound))
    else
      var parent := s.names[parentName];
      if parent >= |s.classes| || !s.classes[parent].cfg.in_use then (s, Some(InvalidParent))
      else
        var free := |s.classes|;
        var cl := NewClass(parent, free, qlimit, isLeaf, s.classes[parent].cfg.pvoff, curves);
        (s.(classes := s.classes + [cl], names := s.names[name := free]), None)
  }

  // An empty class is about to receive a packet of length len.
  function WakeUp(s: Sched, c: nat, len: nat, time: int): (r: Sched)
    requires Forest(s.classes) && c < |s.classes|
    ensures |r.classes| == |s.classes|
  {
    var cs := InitV(s.classes, c);
    if cs[c].cfg.r_isc.None? then s.(classes := cs)
    else
      var cl := InitEd(cs[c], len, time);
      s.(classes := cs[c := cl], eligible := With(s.eligible, Key(cl.rt.eligible, cl.cfg.index)))
  }

  function Drop(s: Sched, c: nat): Sched
    requires c < |s.classes|
  {
    s.(classes := s.classes[c := s.classes[c].(qdrops := s.classes[c].qdrops + 1)])
  }

  function Append(s: Sched, c: nat, pkt: Packet): Sched
    requires c < |s.classes|
  {
    s.(classes := s.classes[c := s.classes[c].(packets := s.classes[c].packets + [pkt])], queued := s.queued + 1)
  }

  function Enqueue(s: Sched, c: nat, pkt: Packet, time: int): (Sched, bool)
    requires Forest(s.classes)
  {
    if c >= |s.classes| || !s.classes[c].cfg.in_use then (s, false)
    else if s.classes[c].cfg.qlimit != 0 && |s.classes[c].packets| >= s.classes[c].cfg.qlimit then
      (Drop(s, c), false)
    else
      (Append(if s.classes[c].packets == [] then WakeUp(s, c, pkt.len, time) else s, c, pkt), true)
  }

  // Taking the head packet of a class picked for its deadline.
  function TakeRealTime(cl: Class, t: seq<Key>): (Class, seq<Key>)
    requires cl.packets != []
  {
    var pkt, rest := cl.packets[0], cl.packets[1..];
    var taken := cl.(packets := rest, rt := cl.rt.(r_bytes := cl.rt.r_bytes + pkt.len));
    var key := Key(cl.rt.eligible, cl.cfg.index);
    if cl.cfg.r_isc.None? then (taken, t)
    else if rest == [] then (taken, Without(t, key))
    else
      var updated := UpdateEd(taken, rest[0].len);
      (updated, With(Without(t, key), Key(updated.rt.eligible, updated.cfg.index)))
  }

  // Taking the head packet of a class picked for its virtual time.
  function TakeLinkShare(cl: Class, t: seq<Key>): (Class, seq<Key>)
    requires cl.packets != []
  {
    var rest := cl.packets[1..];
    var taken := cl.(packets := rest);
    if cl.cfg.r_isc.None? then (taken, t)
    else if rest == [] then (taken, Without(t, Key(cl.rt.eligible, cl.cfg.index)))
    else (UpdateD(taken, rest[0].len), t)
  }

  lemma {:induction false} GetMinVForest(cs: seq<Class>, parent: nat)
    requires Forest(cs) && parent < |cs|
    ensures Forest(GetMinV(cs, parent).0) && GetMinV(cs, parent).1 < |cs|
    decreases |cs| - parent
  {
    if cs[parent].sh.children != [] {
      var ch := cs[parent].sh.children[0].index;
      GetMinVForest(RaiseFloor(cs, parent, cs[ch].sh.vtime), ch);
    }
  }

  lemma {:induction false} PickDeadlineBound(cs: seq<Class>, t: seq<Key>, time: int, class': nat, deadline: int)
    requires class' < |cs| && forall k :: k in t ==> k.index < |cs|
    ensures PickDeadline(cs, t, time, class', deadline) < |cs|
  {
    if t != [] && cs[t[0].index].rt.eligible <= time {
      if cs[t[0].index].rt.deadline < deadline {
        PickDeadlineBound(cs, t[1..], time, t[0].index, cs[t[0].index].rt.deadline);
      } else {
        PickDeadlineBound(cs, t[1..], time, class', deadline);
      }
    }
  }

  // The class picked for its deadline, taken in full.
  function ServeRealTime(s: Sched, c: nat): Sched
    requires Forest(s.classes) && c < |s.classes| && s.classes[c].packets != []
  {
    var (cl, tree) := TakeRealTime(s.classes[c], s.eligible);
    var cs := UpdateV(s.classes[c := cl], c, s.classes[c].packets[0].len, cl.packets == []);
    s.(classes := cs, eligible := tree, queued := s.queued - 1)
  }

  function ServeLinkShare(s: Sched, c: nat): Sched
    requires Forest(s.classes) && c < |s.classes| && s.classes[c].packets != []
  {
    var (cl, tree) := TakeLinkShare(s.classes[c], s.eligible);
    var cs := UpdateV(s.classes[c := cl], c, s.classes[c].packets[0].len, cl.packets == []);
    s.(classes := cs, eligible := tree, queued := s.queued - 1)
  }

  function DequeueByDeadline(s: Sched, c: nat): (Sched, Option<Packet>)
    requires Forest(s.classes) && c < |s.classes|
  {
    if s.classes[c].packets == [] then (s, None)
    else (ServeRealTime(s, c), Some(s.classes[c].packets[0]))
  }

  function DequeueByVtime(s: Sched): (Sched, Option<Packet>)
    requires Forest(s.classes) && ROOT < |s.classes|
  {
    GetMinVForest(s.classes, ROOT);
    var (raised, c) := GetMinV(s.classes, ROOT);
    var s' := s.(classes := raised);
    if c == 0 || raised[c].packets == [] then (s', None)
    else (ServeLinkShare(s', c), Some(raised[c].packets[0]))
  }

  function Dequeue(s: Sched, time: int): (Sched, Option<Packet>)
    requires Linked(s)
  {
    PickDeadlineBound(s.classes, s.eligible, time, 0, HT_INFINITY);
    var c := GetMinD(s.classes, s.eligible, time);
    if c != 0 then DequeueByDeadline(s, c) else DequeueByVtime(s)
  }
}
