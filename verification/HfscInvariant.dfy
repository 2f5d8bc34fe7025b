/**
 The invariant of the class tree, and its preservation by the recursive updates. A class counts
 as active while its nactive is positive; the active children of a class are exactly the keys of
 its tree, each under its current virtual time. Any class may have packets of its own, which count
 as one more active child.
 */
module HfscInvariant {
  import opened KeyTree
  import opened HfscState

  // Only 0 and 1 have no parent; they are no leaves and have no real-time curve.
  ghost predicate Shape(cs: seq<Class>) {
    && Forest(cs)
    && ROOT < |cs|
    && !cs[0].cfg.in_use && cs[ROOT].cfg.in_use
    && (forall i :: 0 <= i <= ROOT ==> cs[i].cfg.parent == 0 && !cs[i].cfg.leaf && cs[i].cfg.r_isc.None?)
    && forall i :: ROOT < i < |cs| ==> cs[i].cfg.in_use && cs[i].cfg.parent != 0
  }

  ghost predicate IsActiveChild(cs: seq<Class>, p: nat, k: Key) {
    ROOT < k.index < |cs| && cs[k.index].cfg.parent == p && cs[k.index].sh.nactive > 0 && cs[k.index].sh.vtime == k.time
  }

  // The tree of p holds exactly its active children, except that class `absent` is not in it.
  ghost predicate TreeExact(cs: seq<Class>, p: nat, absent: nat)
    requires p < |cs|
  {
    && Sorted(cs[p].sh.children)
    && forall k :: k in cs[p].sh.children <==> IsActiveChild(cs, p, k) && k.index != absent
  }

  ghost predicate ChildrenExact(cs: seq<Class>, absent: nat) {
    forall p {:trigger TreeExact(cs, p, absent)} :: 0 <= p < |cs| ==> TreeExact(cs, p, absent)
  }

  // What nactive has to be: the number of active children, and one more for packets of its own.
  ghost function Busy(cl: Class): nat {
    |cl.sh.children| + if cl.packets == [] then 0 else 1
  }

  // All counts agree, except perhaps those of classes a and b.
  ghost predicate Counted(cs: seq<Class>, a: nat, b: nat) {
    forall i {:trigger Busy(cs[i])} :: ROOT < i < |cs| && i != a && i != b ==> cs[i].sh.nactive == Busy(cs[i])
  }

  // Class i, if active, is not behind its parent's floor.
  ghost predicate FloorAt(cs: seq<Class>, i: nat, except: nat)
    requires Forest(cs) && i < |cs|
  {
    && 0 <= cs[i].sh.vmin
    && (ROOT < i && i != except && cs[i].sh.nactive > 0 ==> cs[cs[i].cfg.parent].sh.vmin <= cs[i].sh.vtime)
  }

  ghost predicate AboveFloor(cs: seq<Class>, except: nat)
    requires Forest(cs)
  {
    forall i {:trigger FloorAt(cs, i, except)} :: 0 <= i < |cs| ==> FloorAt(cs, i, except)
  }

  // What the scheduler leaves to its callers: no class is under a leaf, and only leaves have packets.
  ghost predicate Tidy(cs: seq<Class>)
    requires Forest(cs)
  {
    forall i :: 0 <= i < |cs| ==> !cs[cs[i].cfg.parent].cfg.leaf && (!cs[i].cfg.leaf ==> cs[i].packets == [])
  }

  ghost predicate TreeInv(cs: seq<Class>) {
    Shape(cs) && ChildrenExact(cs, 0) && Counted(cs, 0, 0) && AboveFloor(cs, 0)
  }

  // The updates of virtual time change link-sharing fields only.
  ghost predicate OnlyShares(cs: seq<Class>, cs': seq<Class>) {
    |cs| == |cs'| && forall i :: 0 <= i < |cs| ==> cs'[i] == cs[i].(sh := cs'[i].sh)
  }

  // A parent's floor only falls when none of its children was active.
  ghost predicate FloorsKept(cs: seq<Class>, cs': seq<Class>) {
    |cs| == |cs'| && forall i :: 0 <= i < |cs| && cs[i].sh.children != [] ==> cs[i].sh.vmin <= cs'[i].sh.vmin
  }

  ghost predicate SameBytes(cs: seq<Class>, cs': seq<Class>) {
    |cs| == |cs'| && forall i :: 0 <= i < |cs| ==> cs'[i].sh.f_bytes == cs[i].sh.f_bytes
  }

  // What every level of an update keeps.
  ghost predicate Kept(cs: seq<Class>, cs': seq<Class>) {
    OnlyShares(cs, cs') && Shape(cs') && ChildrenExact(cs', 0) && AboveFloor(cs', 0) && FloorsKept(cs, cs')
  }

  /// ## Activation

  lemma JoinTimeAboveFloor(cs: seq<Class>, c: nat)
    requires Shape(cs) && ROOT < c < |cs| && ChildrenExact(cs, c) && AboveFloor(cs, c)
    ensures 0 <= StartRound(cs[cs[c].cfg.parent].sh).vmin <= JoinTime(cs, c)
  {
    var p := cs[c].cfg.parent;
    var par := cs[p].sh;
    assert FloorAt(cs, p, c);
    if par.children != [] {
      assert TreeExact(cs, p, c);
      var last := par.children[|par.children| - 1];
      assert last in par.children;
      assert IsActiveChild(cs, p, last);
      assert FloorAt(cs, last.index, c);
    }
  }

  // What one activation changes, class by class.
  lemma ActivateEffect(cs: seq<Class>, c: nat)
    requires Forest(cs) && ROOT < c < |cs| && cs[c].cfg.parent != 0
    ensures var cs', p := Activate(cs, c), cs[c].cfg.parent;
      && OnlyShares(cs, cs') && SameBytes(cs, cs') && p < c
      && (forall i :: 0 <= i < |cs| && i != c && i != p ==> cs'[i].sh == cs[i].sh)
      && (forall i :: 0 <= i < |cs| ==> cs'[i].sh.nactive == cs[i].sh.nactive)
      && cs'[c].sh.children == cs[c].sh.children && cs'[c].sh.vmin == cs[c].sh.vmin
      && cs'[c].sh.vtime == JoinTime(cs, c)
      && cs'[p].sh.vtime == cs[p].sh.vtime && cs'[p].sh.vmin == StartRound(cs[p].sh).vmin
      && cs'[p].sh.children == With(cs[p].sh.children, Key(JoinTime(cs, c), c))
  {
  }

  lemma OnlySharesShape(cs: seq<Class>, cs': seq<Class>)
    requires Shape(cs) && OnlyShares(cs, cs') && Forest(cs')
    ensures Shape(cs')
  {
  }

  lemma ActivateChildren(cs: seq<Class>, c: nat)
    requires Shape(cs) && ROOT < c < |cs| && cs[c].sh.nactive > 0 && ChildrenExact(cs, c)
    ensures ChildrenExact(Activate(cs, c), 0)
    ensures |Activate(cs, c)[cs[c].cfg.parent].sh.children| == |cs[cs[c].cfg.parent].sh.children| + 1
  {
    var cs', p := Activate(cs, c), cs[c].cfg.parent;
    ActivateEffect(cs, c);
    assert TreeExact(cs, p, c);
    forall i | 0 <= i < |cs[p].sh.children| ensures cs[p].sh.children[i].index != c {
      assert cs[p].sh.children[i] in cs[p].sh.children;
    }
    WithKeys(cs[p].sh.children, Key(cs'[c].sh.vtime, c));
    forall q | 0 <= q < |cs'| ensures TreeExact(cs', q, 0) {
      assert TreeExact(cs, q, c);
      forall k ensures k in cs'[q].sh.children <==> IsActiveChild(cs', q, k) {
        assert k in cs[q].sh.children <==> IsActiveChild(cs, q, k) && k.index != c;
      }
    }
  }

  lemma ActivateFloors(cs: seq<Class>, c: nat)
    requires Shape(cs) && ROOT < c < |cs| && cs[c].sh.nactive > 0
    requires ChildrenExact(cs, c) && AboveFloor(cs, c)
    ensures Forest(Activate(cs, c)) && AboveFloor(Activate(cs, c), 0) && FloorsKept(cs, Activate(cs, c))
  {
    var cs', p := Activate(cs, c), cs[c].cfg.parent;
    ActivateForest(cs, c);
    ActivateEffect(cs, c);
    JoinTimeAboveFloor(cs, c);
    forall i | 0 <= i < |cs| ensures FloorAt(cs', i, 0) {
      assert FloorAt(cs, i, c);
      assert cs'[i].cfg.parent == cs[i].cfg.parent;
      if ROOT < i && i != c && cs[i].cfg.parent == p && cs[i].sh.nactive > 0 {
        assert TreeExact(cs, p, c);
        assert IsActiveChild(cs, p, Key(cs[i].sh.vtime, i));
        assert Key(cs[i].sh.vtime, i) in cs[p].sh.children;
      }
    }
  }

  lemma ActivateKeeps(cs: seq<Class>, c: nat)
    requires Shape(cs) && ROOT < c < |cs| && cs[c].sh.nactive > 0
    requires ChildrenExact(cs, c) && AboveFloor(cs, c)
    ensures Kept(cs, Activate(cs, c))
  {
    ActivateForest(cs, c);
    ActivateEffect(cs, c);
    ActivateFloors(cs, c);
    ActivateChildren(cs, c);
    OnlySharesShape(cs, Activate(cs, c));
  }

  // Raising nactive from 0 makes c active without being in its parent's tree yet; raising it
  // further changes nothing about who is active.
  lemma OneMoreActiveChildren(cs: seq<Class>, c: nat, absent: nat)
    requires Shape(cs) && ROOT < c < |cs| && ChildrenExact(cs, 0)
    requires absent == if cs[c].sh.nactive == 0 then c else 0
    ensures ChildrenExact(OneMoreActive(cs, c), absent)
  {
    var cs' := OneMoreActive(cs, c);
    forall q | 0 <= q < |cs'| ensures TreeExact(cs', q, absent) {
      assert TreeExact(cs, q, 0);
      forall k ensures k in cs'[q].sh.children <==> IsActiveChild(cs', q, k) && k.index != absent {
        assert k in cs[q].sh.children <==> IsActiveChild(cs, q, k);
      }
    }
  }

  lemma OneMoreActiveShape(cs: seq<Class>, c: nat, absent: nat)
    requires Shape(cs) && ROOT < c < |cs| && AboveFloor(cs, 0)
    requires absent == if cs[c].sh.nactive == 0 then c else 0
    ensures OnlyShares(cs, OneMoreActive(cs, c)) && Shape(OneMoreActive(cs, c))
    ensures AboveFloor(OneMoreActive(cs, c), absent) && FloorsKept(cs, OneMoreActive(cs, c))
  {
    var cs' := OneMoreActive(cs, c);
    assert Forest(cs');
    forall i | 0 <= i < |cs| ensures FloorAt(cs', i, absent) {
      assert FloorAt(cs, i, 0);
    }
  }

  // Before counting one more at c: c's count lags by one, unless it is the class l whose packet is still
  // to come.
  ghost predicate InitVReady(cs: seq<Class>, c: nat, l: nat) {
    && Shape(cs) && ROOT <= c <= l < |cs|
    && ChildrenExact(cs, 0) && Counted(cs, c, l) && AboveFloor(cs, 0)
    && (ROOT < c && c != l ==> Busy(cs[c]) == cs[c].sh.nactive + 1)
  }

  // What counting and activating c changes together.
  lemma ActivationEffect(cs: seq<Class>, c: nat)
    requires Forest(cs) && ROOT < c < |cs| && cs[c].cfg.parent != 0
    ensures Forest(OneMoreActive(cs, c))
    ensures var cs1, p := Activate(OneMoreActive(cs, c), c), cs[c].cfg.parent;
      && OnlyShares(cs, cs1) && SameBytes(cs, cs1) && p < c
      && (forall i :: 0 <= i < |cs| && i != c ==> cs1[i].sh.nactive == cs[i].sh.nactive)
      && cs1[c].sh.nactive == cs[c].sh.nactive + 1
      && (forall i :: 0 <= i < |cs| && i != p ==> cs1[i].sh.children == cs[i].sh.children)
  {
    ActivateEffect(OneMoreActive(cs, c), c);
  }

  lemma ActivationKeeps(cs: seq<Class>, c: nat)
    requires Shape(cs) && ROOT < c < |cs| && ChildrenExact(cs, 0) && AboveFloor(cs, 0) && cs[c].sh.nactive == 0
    ensures var cs1, p := Activate(OneMoreActive(cs, c), c), cs[c].cfg.parent;
      && Shape(cs1) && ChildrenExact(cs1, 0) && AboveFloor(cs1, 0) && FloorsKept(cs, cs1)
      && |cs1[p].sh.children| == |cs[p].sh.children| + 1
  {
    var counted := OneMoreActive(cs, c);
    OneMoreActiveChildren(cs, c, c);
    OneMoreActiveShape(cs, c, c);
    ActivateKeeps(counted, c);
    ActivateChildren(counted, c);
  }

  lemma InitVStep(cs: seq<Class>, c: nat, l: nat)
    requires InitVReady(cs, c, l) && ROOT < c && cs[c].sh.nactive == 0
    ensures InitVReady(Activate(OneMoreActive(cs, c), c), cs[c].cfg.parent, l)
  {
    var p, cs1 := cs[c].cfg.parent, Activate(OneMoreActive(cs, c), c);
    ActivationKeeps(cs, c);
    ActivationEffect(cs, c);
    assert p == ROOT || cs[p].sh.nactive == Busy(cs[p]);
    forall i | ROOT < i < |cs1| && i != p && i != l ensures cs1[i].sh.nactive == Busy(cs1[i]) {
      assert Busy(cs1[i]) == Busy(cs[i]);
    }
  }

  lemma KeptAcross(a: seq<Class>, b: seq<Class>, c: seq<Class>)
    requires OnlyShares(a, b) && SameBytes(a, b) && FloorsKept(a, b)
    requires OnlyShares(b, c) && SameBytes(b, c) && FloorsKept(b, c)
    requires forall i :: 0 <= i < |a| && a[i].sh.children != [] ==> b[i].sh.children != []
    ensures OnlyShares(a, c) && SameBytes(a, c) && FloorsKept(a, c)
  {
    forall i | 0 <= i < |a| ensures c[i] == a[i].(sh := c[i].sh) {
      assert b[i] == a[i].(sh := b[i].sh);
    }
  }

  // Only the class itself and classes created before it are touched.
  lemma {:induction false} InitVAncestors(cs: seq<Class>, c: nat)
    requires Forest(cs) && c < |cs|
    ensures forall i :: c < i < |cs| ==> InitV(cs, c)[i] == cs[i]
    decreases c
  {
    if cs[c].cfg.parent != 0 && cs[c].sh.nactive == 0 {
      var counted := OneMoreActive(cs, c);
      ActivateForest(counted, c);
      InitVAncestors(Activate(counted, c), cs[c].cfg.parent);
    }
  }

  // A class that was active already is only counted.
  lemma InitVCountOnly(cs: seq<Class>, c: nat, l: nat)
    requires InitVReady(cs, c, l) && ROOT < c && cs[c].sh.nactive > 0
    ensures var cs' := OneMoreActive(cs, c); Kept(cs, cs') && SameBytes(cs, cs') && Counted(cs', 0, l)
  {
    OneMoreActiveChildren(cs, c, 0);
    OneMoreActiveShape(cs, c, 0);
  }

  lemma InitVUnfold(cs: seq<Class>, c: nat)
    requires Forest(cs) && ROOT < c < |cs| && cs[c].cfg.parent != 0
    ensures Forest(OneMoreActive(cs, c))
    ensures cs[c].sh.nactive > 0 ==> InitV(cs, c) == OneMoreActive(cs, c)
    ensures cs[c].sh.nactive == 0 ==>
      && Forest(Activate(OneMoreActive(cs, c), c))
      && InitV(cs, c) == InitV(Activate(OneMoreActive(cs, c), c), cs[c].cfg.parent)
  {
    ActivateForest(OneMoreActive(cs, c), c);
  }

  // The changes of one activation followed by those further up.
  lemma ActivationThen(cs: seq<Class>, c: nat, cs': seq<Class>)
    requires Shape(cs) && ROOT < c < |cs| && ChildrenExact(cs, 0) && AboveFloor(cs, 0) && cs[c].sh.nactive == 0
    requires var cs1 := Activate(OneMoreActive(cs, c), c); Kept(cs1, cs') && SameBytes(cs1, cs')
    ensures Kept(cs, cs') && SameBytes(cs, cs')
  {
    var cs1, p := Activate(OneMoreActive(cs, c), c), cs[c].cfg.parent;
    ActivationKeeps(cs, c);
    ActivationEffect(cs, c);
    assert cs1[p].sh.children != [];
    KeptAcross(cs, cs1, cs');
  }

  // Counting one more active child at c restores the counts all the way up.
  lemma {:induction false} InitVKeeps(cs: seq<Class>, c: nat, l: nat)
    requires InitVReady(cs, c, l)
    ensures Kept(cs, InitV(cs, c)) && SameBytes(cs, InitV(cs, c)) && Counted(InitV(cs, c), 0, l)
    decreases c
  {
    if ROOT < c {
      InitVUnfold(cs, c);
      if cs[c].sh.nactive == 0 {
        InitVStep(cs, c, l);
        InitVKeeps(Activate(OneMoreActive(cs, c), c), cs[c].cfg.parent, l);
        ActivationThen(cs, c, InitV(cs, c));
      } else {
        InitVCountOnly(cs, c, l);
      }
    }
  }

  // The class itself is counted once, and its own tree is not touched.
  lemma {:induction false} InitVCounts(cs: seq<Class>, c: nat)
    requires Forest(cs) && ROOT < c < |cs| && cs[c].cfg.parent != 0
    ensures InitV(cs, c)[c].sh.nactive == cs[c].sh.nactive + 1
    ensures InitV(cs, c)[c].sh.children == cs[c].sh.children
  {
    if cs[c].sh.nactive == 0 {
      var counted := OneMoreActive(cs, c);
      ActivateForest(counted, c);
      ActivateEffect(counted, c);
      InitVAncestors(Activate(counted, c), cs[c].cfg.parent);
    }
  }
}
