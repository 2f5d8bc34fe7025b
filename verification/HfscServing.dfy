/**
 Serving a packet and raising floors, on the class tree. Serving updates the class and all its
 ancestors below the root; the descent by virtual time raises the floors that it passes.
 */
module HfscServing {
  import opened KeyTree
  import opened HfscState
  import opened HfscInvariant

  // Before serving at c: c's count is ahead by one exactly when it lost its last packet or an
  // active child.
  ghost predicate UpdateVReady(cs: seq<Class>, c: nat, passive: bool) {
    && Shape(cs) && ROOT <= c < |cs|
    && ChildrenExact(cs, 0) && Counted(cs, c, c) && AboveFloor(cs, 0)
    && (ROOT < c ==> cs[c].sh.nactive > 0 && Busy(cs[c]) == cs[c].sh.nactive - if passive then 1 else 0)
  }

  // Whether class i is a or below a.
  ghost predicate Under(cs: seq<Class>, i: nat, a: nat)
    requires Forest(cs) && i < |cs|
    decreases i
  {
    i == a || (cs[i].cfg.parent != 0 && Under(cs, cs[i].cfg.parent, a))
  }

  lemma {:induction false} UnderSame(cs: seq<Class>, cs': seq<Class>, i: nat, a: nat)
    requires Forest(cs) && Forest(cs') && OnlyShares(cs, cs') && i < |cs|
    ensures Under(cs', i, a) == Under(cs, i, a)
    decreases i
  {
    assert cs'[i].cfg == cs[i].cfg;
    if cs[i].cfg.parent != 0 {
      UnderSame(cs, cs', cs[i].cfg.parent, a);
    }
  }

  // Parents come first, so nothing is under a later class.
  lemma {:induction false} UnderOrder(cs: seq<Class>, i: nat, a: nat)
    requires Forest(cs) && i < |cs| && Under(cs, i, a)
    ensures a <= i
    decreases i
  {
    if i != a {
      UnderOrder(cs, cs[i].cfg.parent, a);
    }
  }

  /// ## One level

  // What serving at c changes, class by class.
  lemma ServeEffect(cs: seq<Class>, c: nat, len: nat, passive: bool)
    requires Forest(cs) && ROOT < c < |cs| && cs[c].cfg.parent != 0 && cs[c].sh.nactive > 0
    ensures var cs', p := Serve(cs, c, len, passive), cs[c].cfg.parent;
      var goPassive := passive && cs[c].sh.nactive == 1;
      var removed := Without(cs[p].sh.children, Key(cs[c].sh.vtime, c));
      && OnlyShares(cs, cs') && p < c
      && (forall i :: 0 <= i < |cs| && i != c && i != p ==> cs'[i].sh == cs[i].sh)
      && (forall i :: 0 <= i < |cs| ==> cs'[i].sh.vmin == cs[i].sh.vmin)
      && (forall i :: 0 <= i < |cs| && i != c ==>
            cs'[i].sh.f_bytes == cs[i].sh.f_bytes && cs'[i].sh.nactive == cs[i].sh.nactive
              && cs'[i].sh.vtime == cs[i].sh.vtime)
      && cs'[c].sh.f_bytes == cs[c].sh.f_bytes + len
      && cs'[c].sh.nactive == cs[c].sh.nactive - (if passive then 1 else 0)
      && cs'[c].sh.children == cs[c].sh.children
      && (!goPassive ==> cs[p].sh.vmin <= cs'[c].sh.vtime)
      && cs'[p].sh.children == if goPassive then removed else With(removed, Key(cs'[c].sh.vtime, c))
  {
  }

  lemma ServeChildren(cs: seq<Class>, c: nat, len: nat, passive: bool)
    requires Shape(cs) && ROOT < c < |cs| && cs[c].sh.nactive > 0 && ChildrenExact(cs, 0)
    ensures ChildrenExact(Serve(cs, c, len, passive), 0)
    ensures var p, lost := cs[c].cfg.parent, passive && cs[c].sh.nactive == 1;
      |Serve(cs, c, len, passive)[p].sh.children| == |cs[p].sh.children| - (if lost then 1 else 0)
    ensures cs[cs[c].cfg.parent].sh.children != []
  {
    var cs', p, key := Serve(cs, c, len, passive), cs[c].cfg.parent, Key(cs[c].sh.vtime, c);
    ServeEffect(cs, c, len, passive);
    assert TreeExact(cs, p, 0);
    assert IsActiveChild(cs, p, key);
    var removed := Without(cs[p].sh.children, key);
    WithoutKeys(cs[p].sh.children, key);
    forall i | 0 <= i < |removed| ensures removed[i].index != c {
      assert removed[i] in removed;
    }
    WithKeys(removed, Key(cs'[c].sh.vtime, c));
    forall q | 0 <= q < |cs'| ensures TreeExact(cs', q, 0) {
      assert TreeExact(cs, q, 0);
      forall k ensures k in cs'[q].sh.children <==> IsActiveChild(cs', q, k) {
        assert k in cs[q].sh.children <==> IsActiveChild(cs, q, k);
      }
    }
  }

  lemma ServeKeeps(cs: seq<Class>, c: nat, len: nat, passive: bool)
    requires Shape(cs) && ROOT < c < |cs| && cs[c].sh.nactive > 0 && ChildrenExact(cs, 0) && AboveFloor(cs, 0)
    ensures Kept(cs, Serve(cs, c, len, passive))
  {
    var cs' := Serve(cs, c, len, passive);
    ServeForest(cs, c, len, passive);
    ServeEffect(cs, c, len, passive);
    ServeChildren(cs, c, len, passive);
    OnlySharesShape(cs, cs');
    forall i | 0 <= i < |cs| ensures FloorAt(cs', i, 0) {
      assert FloorAt(cs, i, 0);
      assert cs'[i].cfg.parent == cs[i].cfg.parent;
    }
  }

  lemma UpdateVStep(cs: seq<Class>, c: nat, len: nat, passive: bool)
    requires UpdateVReady(cs, c, passive) && ROOT < c
    ensures UpdateVReady(Serve(cs, c, len, passive), cs[c].cfg.parent, passive && cs[c].sh.nactive == 1)
  {
    var cs', p := Serve(cs, c, len, passive), cs[c].cfg.parent;
    ServeKeeps(cs, c, len, passive);
    ServeEffect(cs, c, len, passive);
    ServeChildren(cs, c, len, passive);
    assert p == ROOT || cs[p].sh.nactive == Busy(cs[p]);
    forall i | ROOT < i < |cs'| && i != p ensures cs'[i].sh.nactive == Busy(cs'[i]) {
      assert Busy(cs'[i]) == Busy(cs[i]);
    }
  }

  lemma UpdateVUnfold(cs: seq<Class>, c: nat, len: nat, passive: bool)
    requires Forest(cs) && ROOT < c < |cs| && cs[c].cfg.parent != 0 && cs[c].sh.nactive > 0
    ensures var cs1 := Serve(cs, c, len, passive);
      && Forest(cs1)
      && UpdateV(cs, c, len, passive) == UpdateV(cs1, cs[c].cfg.parent, len, passive && cs[c].sh.nactive == 1)
  {
    ServeForest(cs, c, len, passive);
  }

  /// ## The whole path

  // The changes at one level followed by those further up, given that no floor moves.
  lemma ServeThen(cs: seq<Class>, c: nat, len: nat, passive: bool, cs': seq<Class>)
    requires Forest(cs) && ROOT < c < |cs| && cs[c].cfg.parent != 0 && cs[c].sh.nactive > 0
    requires Kept(Serve(cs, c, len, passive), cs')
    requires forall i :: 0 <= i < |cs| ==> cs'[i].sh.vmin == cs[i].sh.vmin
    ensures Kept(cs, cs')
  {
    var cs1 := Serve(cs, c, len, passive);
    ServeEffect(cs, c, len, passive);
    forall i | 0 <= i < |cs| ensures cs'[i] == cs[i].(sh := cs'[i].sh) {
      assert cs1[i] == cs[i].(sh := cs1[i].sh);
    }
  }

  // UpdateV leaves every floor as it is.
  lemma {:induction false} UpdateVFloors(cs: seq<Class>, c: nat, len: nat, passive: bool)
    requires UpdateVReady(cs, c, passive)
    ensures forall i :: 0 <= i < |cs| ==> UpdateV(cs, c, len, passive)[i].sh.vmin == cs[i].sh.vmin
    decreases c
  {
    if ROOT < c {
      UpdateVUnfold(cs, c, len, passive);
      UpdateVStep(cs, c, len, passive);
      ServeEffect(cs, c, len, passive);
      UpdateVFloors(Serve(cs, c, len, passive), cs[c].cfg.parent, len, passive && cs[c].sh.nactive == 1);
    }
  }

  lemma {:induction false} UpdateVKeeps(cs: seq<Class>, c: nat, len: nat, passive: bool)
    requires UpdateVReady(cs, c, passive)
    ensures Kept(cs, UpdateV(cs, c, len, passive)) && Counted(UpdateV(cs, c, len, passive), 0, 0)
    decreases c
  {
    if ROOT < c {
      UpdateVUnfold(cs, c, len, passive);
      UpdateVStep(cs, c, len, passive);
      UpdateVKeeps(Serve(cs, c, len, passive), cs[c].cfg.parent, len, passive && cs[c].sh.nactive == 1);
      UpdateVFloors(cs, c, len, passive);
      ServeThen(cs, c, len, passive, UpdateV(cs, c, len, passive));
    }
  }

  // Exactly the class served and its ancestors below the root are credited with the bytes.
  lemma {:induction false} UpdateVBytes(cs: seq<Class>, c: nat, len: nat, passive: bool, a: nat)
    requires UpdateVReady(cs, c, passive) && a < |cs|
    ensures UpdateV(cs, c, len, passive)[a].sh.f_bytes
         == cs[a].sh.f_bytes + if ROOT < a && Under(cs, c, a) then len else 0
    decreases c
  {
    if ROOT < c {
      var cs1, p, lost := Serve(cs, c, len, passive), cs[c].cfg.parent, passive && cs[c].sh.nactive == 1;
      UpdateVUnfold(cs, c, len, passive);
      UpdateVStep(cs, c, len, passive);
      ServeEffect(cs, c, len, passive);
      UpdateVBytes(cs1, p, len, lost, a);
      UnderSame(cs, cs1, p, a);
      if a == c && Under(cs, p, a) {
        UnderOrder(cs, p, a);
      }
    } else if Under(cs, c, a) {
      UnderOrder(cs, c, a);
    }
  }

  /// ## The descent by virtual time

  // The first key of a tree is an active child, of least virtual time.
  lemma FirstChild(cs: seq<Class>, p: nat)
    requires Forest(cs) && p < |cs| && ChildrenExact(cs, 0) && cs[p].sh.children != []
    ensures IsActiveChild(cs, p, cs[p].sh.children[0])
    ensures forall k :: k in cs[p].sh.children ==> cs[cs[p].sh.children[0].index].sh.vtime <= k.time
  {
    assert TreeExact(cs, p, 0);
    assert cs[p].sh.children[0] in cs[p].sh.children;
  }

  // Whether two states agree on everything but the floors.
  ghost predicate OnlyFloors(cs: seq<Class>, cs': seq<Class>) {
    |cs| == |cs'| && forall i :: 0 <= i < |cs| ==> cs'[i] == cs[i].(sh := cs[i].sh.(vmin := cs'[i].sh.vmin))
  }

  lemma OnlyFloorsChildren(cs: seq<Class>, cs': seq<Class>)
    requires ChildrenExact(cs, 0) && OnlyFloors(cs, cs')
    ensures ChildrenExact(cs', 0)
  {
    forall q | 0 <= q < |cs'| ensures TreeExact(cs', q, 0) {
      assert TreeExact(cs, q, 0);
      forall k ensures k in cs'[q].sh.children <==> IsActiveChild(cs', q, k) {
        assert k in cs[q].sh.children <==> IsActiveChild(cs, q, k);
      }
    }
  }

  lemma OnlyFloorsShape(cs: seq<Class>, cs': seq<Class>)
    requires Shape(cs) && Counted(cs, 0, 0) && OnlyFloors(cs, cs')
    ensures Shape(cs') && Counted(cs', 0, 0)
  {
    assert Forest(cs');
    forall i | ROOT < i < |cs| ensures cs'[i].sh.nactive == Busy(cs'[i]) {
      assert Busy(cs'[i]) == Busy(cs[i]);
    }
  }

  lemma RaiseFloorKeeps(cs: seq<Class>, p: nat)
    requires TreeInv(cs) && p < |cs| && cs[p].sh.children != []
    ensures var cs' := RaiseFloor(cs, p, cs[cs[p].sh.children[0].index].sh.vtime);
      TreeInv(cs') && OnlyFloors(cs, cs') && FloorsKept(cs, cs')
  {
    var cs' := RaiseFloor(cs, p, cs[cs[p].sh.children[0].index].sh.vtime);
    assert OnlyFloors(cs, cs') && FloorsKept(cs, cs');
    OnlyFloorsChildren(cs, cs');
    OnlyFloorsShape(cs, cs');
    RaiseFloorAbove(cs, p);
  }

  lemma RaiseFloorAbove(cs: seq<Class>, p: nat)
    requires TreeInv(cs) && p < |cs| && cs[p].sh.children != []
    ensures var cs' := RaiseFloor(cs, p, cs[cs[p].sh.children[0].index].sh.vtime);
      Forest(cs') && AboveFloor(cs', 0)
  {
    var cs' := RaiseFloor(cs, p, cs[cs[p].sh.children[0].index].sh.vtime);
    FirstChild(cs, p);
    assert Forest(cs');
    forall i | 0 <= i < |cs'| ensures FloorAt(cs', i, 0) {
      assert FloorAt(cs, i, 0);
      if ROOT < i && cs[i].cfg.parent == p && cs[i].sh.nactive > 0 {
        assert TreeExact(cs, p, 0);
        assert IsActiveChild(cs, p, Key(cs[i].sh.vtime, i));
      }
    }
  }

  lemma {:induction false} GetMinVKeeps(cs: seq<Class>, p: nat)
    requires TreeInv(cs) && p < |cs|
    ensures TreeInv(GetMinV(cs, p).0) && OnlyFloors(cs, GetMinV(cs, p).0) && FloorsKept(cs, GetMinV(cs, p).0)
    decreases |cs| - p
  {
    if cs[p].sh.children != [] {
      var ch := cs[p].sh.children[0].index;
      var raised := RaiseFloor(cs, p, cs[ch].sh.vtime);
      RaiseFloorKeeps(cs, p);
      GetMinVKeeps(raised, ch);
      OnlyFloorsThen(cs, raised, GetMinV(raised, ch).0);
    }
  }

  lemma OnlyFloorsThen(a: seq<Class>, b: seq<Class>, c: seq<Class>)
    requires OnlyFloors(a, b) && FloorsKept(a, b)
    requires OnlyFloors(b, c) && FloorsKept(b, c)
    ensures OnlyFloors(a, c) && FloorsKept(a, c)
  {
    forall i | 0 <= i < |a| ensures c[i] == a[i].(sh := a[i].sh.(vmin := c[i].sh.vmin)) {
      assert b[i] == a[i].(sh := a[i].sh.(vmin := b[i].sh.vmin));
    }
  }
}
