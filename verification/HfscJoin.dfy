/**
 What happens to the virtual times when a packet wakes classes up: where each of them joins its active
 siblings, with which curve and in which period, and what becomes of its parent's round.
 */
module HfscJoin {
  import opened CurveMinimum
  import opened KeyTree
  import opened HfscState
  import opened HfscInvariant
  import opened HfscDescent
  import opened HfscScheduling

  // No sibling of class c is active.
  ghost predicate Alone(cs: seq<Class>, c: nat)
    requires c < |cs|
  {
    forall j: nat :: ActiveChild(cs, cs[c].cfg.parent, j) ==> j == c
  }

  // The greatest virtual time among the active siblings of class c.
  ghost predicate Greatest(cs: seq<Class>, c: nat, m: int)
    requires c < |cs|
  {
    && (exists j: nat :: ActiveChild(cs, cs[c].cfg.parent, j) && j != c && cs[j].sh.vtime == m)
    && forall j: nat :: ActiveChild(cs, cs[c].cfg.parent, j) && j != c ==> cs[j].sh.vtime <= m
  }

  // The middle between the floor, if there is one, and the greatest virtual time.
  predicate Middle(vmin: int, m: int, v: int) {
    if vmin == 0 then v == m else 2 * v <= vmin + m < 2 * v + 2
  }

  // A class joins at time 0 if it is alone. Otherwise it joins in the middle of its siblings, or where it
  // was if it is not behind that and its parent's period is still the same.
  ghost predicate JoinsAt(cs: seq<Class>, c: nat, v: int)
    requires Forest(cs) && c < |cs|
  {
    var par, own := cs[cs[c].cfg.parent].sh, cs[c].sh;
    if Alone(cs, c) then v == 0
    else exists m, mid :: Greatest(cs, c, m) && Middle(par.vmin, m, mid) && v == Rejoined(par, own, mid)
  }

  function Rejoined(par: Share, own: Share, mid: int): int {
    if par.vperiod == own.pvperiod && mid <= own.vtime then own.vtime else mid
  }

  // It begins a period of its own, without an adjustment. Its curve is updated at the time that the
  // parent's offset makes of v; if it starts anew there it starts at v, and the offset is not used.
  ghost predicate JoinsWith(cs: seq<Class>, c: nat, v: int, now: Share)
    requires Forest(cs) && c < |cs|
  {
    var par, own, cfg := cs[cs[c].cfg.parent].sh, cs[c].sh, cs[c].cfg;
    var off := par.voff + (if Alone(cs, c) then par.vmax else 0) - cfg.pvoff;
    var run := RtscMin(own.f_run, cfg.f_isc, v + off, own.f_bytes);
    && now.vadj == 0 && now.vperiod == own.vperiod + 1
    && now.pvperiod == par.vperiod + (if par.nactive == 0 then 1 else 0)
    && if run.x == v + off then now.f_run == run.(x := v) && now.voff == 0 else now.f_run == run && now.voff == off
  }

  // Its parent begins a new round if it was alone, which starts at 0 and where the last one ended, and
  // else goes on with its round. A parent that goes active itself gets the offset of its own curve.
  ghost predicate RoundAfter(cs: seq<Class>, c: nat, par': Share)
    requires Forest(cs) && c < |cs|
  {
    var par := cs[cs[c].cfg.parent];
    && par'.vmin == (if Alone(cs, c) then 0 else par.sh.vmin)
    && par'.vmax == (if Alone(cs, c) then 0 else par.sh.vmax)
    && (par.cfg.parent == 0 || par.sh.nactive > 0 ==>
          par'.voff == par.sh.voff + if Alone(cs, c) then par.sh.vmax else 0)
  }

  ghost predicate Joins(cs: seq<Class>, cs': seq<Class>, c: nat)
    requires Forest(cs) && c < |cs| == |cs'|
  {
    && JoinsAt(cs, c, cs'[c].sh.vtime) && JoinsWith(cs, c, cs'[c].sh.vtime, cs'[c].sh)
    && RoundAfter(cs, c, cs'[cs[c].cfg.parent].sh)
  }

  /// ## One class

  lemma AloneInTree(cs: seq<Class>, c: nat)
    requires Shape(cs) && ROOT < c < |cs| && ChildrenExact(cs, c)
    ensures Alone(cs, c) <==> cs[cs[c].cfg.parent].sh.children == []
  {
    var p := cs[c].cfg.parent;
    var t := cs[p].sh.children;
    assert TreeExact(cs, p, c);
    if t != [] {
      assert t[0] in t;
      assert IsActiveChild(cs, p, t[0]) && t[0].index != c;
      assert ActiveChild(cs, p, t[0].index);
    }
    forall j: nat | ActiveChild(cs, p, j) && j != c ensures t != [] {
      assert IsActiveChild(cs, p, Key(cs[j].sh.vtime, j));
      assert Key(cs[j].sh.vtime, j) in t;
    }
  }

  // The last key of the parent's tree has the greatest virtual time.
  lemma LastIsGreatest(cs: seq<Class>, c: nat)
    requires Shape(cs) && ROOT < c < |cs| && ChildrenExact(cs, c) && cs[cs[c].cfg.parent].sh.children != []
    ensures var t := cs[cs[c].cfg.parent].sh.children; Greatest(cs, c, cs[t[|t| - 1].index].sh.vtime)
  {
    var p := cs[c].cfg.parent;
    var t := cs[p].sh.children;
    var last := t[|t| - 1];
    assert TreeExact(cs, p, c);
    assert last in t;
    assert IsActiveChild(cs, p, last) && ActiveChild(cs, p, last.index);
    forall j: nat | ActiveChild(cs, p, j) && j != c ensures cs[j].sh.vtime <= last.time {
      var k := Key(cs[j].sh.vtime, j);
      assert IsActiveChild(cs, p, k);
      assert k in t;
      var i :| 0 <= i < |t| && t[i] == k;
      assert i < |t| - 1 ==> Before(t[i], last);
    }
  }

  lemma JoinTimeIs(cs: seq<Class>, c: nat)
    requires Shape(cs) && ROOT < c < |cs| && ChildrenExact(cs, c)
    ensures JoinsAt(cs, c, JoinTime(cs, c))
  {
    var par := cs[cs[c].cfg.parent].sh;
    AloneInTree(cs, c);
    if par.children != [] {
      var m := cs[par.children[|par.children| - 1].index].sh.vtime;
      var mid := if par.vmin != 0 then (par.vmin + m) / 2 else m;
      LastIsGreatest(cs, c);
      assert Middle(par.vmin, m, mid);
    }
  }

  // Activating class c, counted already.
  lemma ActivateJoins(cs: seq<Class>, c: nat)
    requires Shape(cs) && ROOT < c < |cs| && ChildrenExact(cs, c)
    ensures Joins(cs, Activate(cs, c), c)
  {
    JoinTimeIs(cs, c);
    AloneInTree(cs, c);
    ActivateEffect(cs, c);
  }

  /// ## All classes that go active

  // The two states agree on everything that matters for where class c joins.
  ghost predicate SameAround(cs: seq<Class>, cs': seq<Class>, c: nat)
    requires Forest(cs) && Forest(cs') && c < |cs| == |cs'|
  {
    var p := cs[c].cfg.parent;
    && cs'[c].cfg == cs[c].cfg && cs'[p].cfg == cs[p].cfg && cs'[p].sh == cs[p].sh
    && (forall j: nat :: j != c ==> ActiveChild(cs', p, j) == ActiveChild(cs, p, j))
    && (forall j: nat :: ActiveChild(cs, p, j) && j != c ==> cs'[j].sh.vtime == cs[j].sh.vtime)
    && SameOwn(cs[c].sh, cs'[c].sh)
  }

  // What a class brings along.
  predicate SameOwn(sh: Share, sh': Share) {
    && sh'.vtime == sh.vtime && sh'.vperiod == sh.vperiod && sh'.pvperiod == sh.pvperiod
    && sh'.f_run == sh.f_run && sh'.f_bytes == sh.f_bytes
  }

  lemma JoinsSame(cs: seq<Class>, cs1: seq<Class>, cs': seq<Class>, c: nat)
    requires Forest(cs) && Forest(cs1) && c < |cs| == |cs1| == |cs'| && SameAround(cs, cs1, c) && Joins(cs1, cs', c)
    ensures Joins(cs, cs', c)
  {
    assert Alone(cs1, c) == Alone(cs, c);
    forall m ensures Greatest(cs1, c, m) == Greatest(cs, c, m) {
    }
  }

  // Class i goes active, or else its virtual time stays.
  ghost predicate JoinsOrStays(cs: seq<Class>, cs': seq<Class>, i: nat)
    requires Forest(cs) && i < |cs| == |cs'|
  {
    if cs[i].sh.nactive == 0 && cs'[i].sh.nactive > 0 then Joins(cs, cs', i)
    else SameOwn(cs[i].sh, cs'[i].sh) && cs'[i].sh.vadj == cs[i].sh.vadj
  }

  // Counting class c as active and activating it, seen from another class or from its own.
  lemma CountedAround(cs: seq<Class>, c: nat)
    requires Shape(cs) && ROOT < c < |cs|
    ensures Forest(OneMoreActive(cs, c)) && SameAround(cs, OneMoreActive(cs, c), c)
  {
  }

  // What is around a class further up does not change below it.
  lemma ActivatedAround(cs: seq<Class>, c: nat, i: nat)
    requires Shape(cs) && ROOT < c < |cs| && ROOT < i <= cs[c].cfg.parent && cs[c].sh.nactive == 0
    ensures Forest(OneMoreActive(cs, c)) && Forest(Activate(OneMoreActive(cs, c), c))
    ensures SameAround(cs, Activate(OneMoreActive(cs, c), c), i)
  {
    var counted := OneMoreActive(cs, c);
    ActivateForest(counted, c);
    ActivateEffect(counted, c);
  }

  // The round of a class stays when it goes active itself, and so does its offset if it does not.
  lemma InitVRound(cs: seq<Class>, c: nat)
    requires Forest(cs) && c < |cs|
    ensures var sh, sh' := cs[c].sh, InitV(cs, c)[c].sh;
      && sh'.vmin == sh.vmin && sh'.vmax == sh.vmax
      && (cs[c].cfg.parent == 0 || sh.nactive > 0 ==> sh'.voff == sh.voff)
  {
    if cs[c].cfg.parent != 0 && cs[c].sh.nactive == 0 {
      var counted := OneMoreActive(cs, c);
      ActivateForest(counted, c);
      ActivateEffect(counted, c);
      InitVAncestors(Activate(counted, c), cs[c].cfg.parent);
    }
  }

  lemma FirstJoins(cs: seq<Class>, c: nat, l: nat)
    requires InitVReady(cs, c, l) && ROOT < c && cs[c].sh.nactive == 0
    ensures JoinsOrStays(cs, InitV(cs, c), c)
  {
    var counted, p := OneMoreActive(cs, c), cs[c].cfg.parent;
    var cs1 := Activate(counted, c);
    InitVUnfold(cs, c);
    InitVCounts(cs, c);
    InitVAncestors(cs1, p);
    InitVRound(cs1, p);
    OneMoreActiveChildren(cs, c, c);
    OneMoreActiveShape(cs, c, c);
    ActivateEffect(counted, c);
    ActivateJoins(counted, c);
    CountedAround(cs, c);
    JoinsSame(cs, counted, cs1, c);
  }

  lemma OthersJoin(cs: seq<Class>, c: nat, cs': seq<Class>, i: nat)
    requires Shape(cs) && ROOT < c < |cs| == |cs'| && cs[c].sh.nactive == 0 && ROOT < i < |cs| && i != c
    requires var cs1, p := Activate(OneMoreActive(cs, c), c), cs[c].cfg.parent;
      Forest(cs1) && JoinsOrStays(cs1, cs', i) && (p < i ==> cs'[i] == cs1[i])
    ensures JoinsOrStays(cs, cs', i)
  {
    var counted, p := OneMoreActive(cs, c), cs[c].cfg.parent;
    ActivateEffect(counted, c);
    if i <= p {
      ActivatedAround(cs, c, i);
      if cs[i].sh.nactive == 0 && cs'[i].sh.nactive > 0 {
        JoinsSame(cs, Activate(counted, c), cs', i);
      }
    }
  }

  // Whatever wakes up: each class that goes active joins its siblings as said, and every other class keeps
  // its virtual time.
  lemma {:induction false} InitVJoins(cs: seq<Class>, c: nat, l: nat, i: nat)
    requires InitVReady(cs, c, l) && ROOT < i < |cs|
    ensures JoinsOrStays(cs, InitV(cs, c), i)
    decreases c
  {
    if ROOT < c && cs[c].sh.nactive == 0 {
      if i == c {
        FirstJoins(cs, c, l);
      } else {
        var cs1, p := Activate(OneMoreActive(cs, c), c), cs[c].cfg.parent;
        InitVUnfold(cs, c);
        InitVStep(cs, c, l);
        InitVJoins(cs1, p, l, i);
        InitVAncestors(cs1, p);
        OthersJoin(cs, c, InitV(cs1, p), i);
      }
    } else {
      CountedStays(cs, c, i);
    }
  }

  lemma CountedStays(cs: seq<Class>, c: nat, i: nat)
    requires Shape(cs) && ROOT <= c < |cs| && (c == ROOT || cs[c].sh.nactive > 0) && ROOT < i < |cs|
    ensures JoinsOrStays(cs, InitV(cs, c), i)
  {
  }

  // The same of enqueue, for its class and all those above it.
  lemma {:induction false} EnqueueJoins(s: Sched, c: nat, pkt: Packet, time: int, i: nat)
    requires SchedInv(s) && ROOT < i < |s.classes|
    ensures |Enqueue(s, c, pkt, time).0.classes| == |s.classes|
    ensures JoinsOrStays(s.classes, Enqueue(s, c, pkt, time).0.classes, i)
  {
    if ROOT <= c < |s.classes| && s.classes[c].packets == [] {
      InitVReadyToWake(s.classes, c);
      InitVJoins(s.classes, c, c, i);
      WakeUpClasses(s, c, pkt.len, time);
    }
  }
}
