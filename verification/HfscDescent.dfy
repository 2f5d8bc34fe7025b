/**
 The descent by virtual time: which classes it meets and where it ends. It follows the least active
 child from the root downwards, and returns the last leaf that it meets.
 */
module HfscDescent {
  import opened KeyTree
  import opened HfscState
  import opened HfscInvariant
  import opened HfscServing

  ghost predicate ActiveChild(cs: seq<Class>, p: nat, i: nat) {
    ROOT < i < |cs| && cs[i].cfg.parent == p && cs[i].sh.nactive > 0
  }

  // Class i has the least virtual time of the active children of p, and the least index in a tie.
  ghost predicate LeastChild(cs: seq<Class>, p: nat, i: nat) {
    && ActiveChild(cs, p, i)
    && forall j: nat :: ActiveChild(cs, p, j) && j != i ==> Ahead(cs[i].sh.vtime, i, cs[j].sh.vtime, j)
  }

  // An earlier time goes first, and of classes with equal times the one of smaller index.
  ghost predicate Ahead(time: int, i: nat, time': int, j: nat) {
    time < time' || (time == time' && i < j)
  }

  ghost predicate BelowRoot(cs: seq<Class>, path: seq<nat>) {
    forall i :: 0 <= i < |path| ==> ROOT < path[i] < |cs|
  }

  // The path leads from p down to a class without active children, always by the least one.
  ghost predicate Descent(cs: seq<Class>, p: nat, path: seq<nat>)
    decreases |path|
  {
    && BelowRoot(cs, path)
    && if path == [] then forall j: nat :: !ActiveChild(cs, p, j)
       else LeastChild(cs, p, path[0]) && Descent(cs, path[0], path[1..])
  }

  // The last leaf on a path, or 0 if there is none.
  ghost function LastLeaf(cs: seq<Class>, path: seq<nat>): nat
    requires BelowRoot(cs, path)
  {
    if path == [] then 0
    else
      var last := path[|path| - 1];
      if cs[last].cfg.leaf then last else LastLeaf(cs, path[..|path| - 1])
  }

  /// ## The path

  // The first key of a tree is the least active child.
  lemma FirstIsLeast(cs: seq<Class>, p: nat)
    requires TreeInv(cs) && p < |cs| && cs[p].sh.children != []
    ensures p < cs[p].sh.children[0].index && LeastChild(cs, p, cs[p].sh.children[0].index)
  {
    var t := cs[p].sh.children;
    FirstChild(cs, p);
    assert TreeExact(cs, p, 0);
    assert t[0] in t;
    forall j: nat | ActiveChild(cs, p, j) && j != t[0].index ensures Before(t[0], Key(cs[j].sh.vtime, j)) {
      assert IsActiveChild(cs, p, Key(cs[j].sh.vtime, j));
      var i :| 0 <= i < |t| && t[i] == Key(cs[j].sh.vtime, j);
      assert Before(t[0], t[i]);
    }
  }

  lemma ActiveInTree(cs: seq<Class>, p: nat, i: nat)
    requires TreeInv(cs) && p < |cs| && ActiveChild(cs, p, i)
    ensures cs[p].sh.children != []
  {
    assert TreeExact(cs, p, 0);
    assert IsActiveChild(cs, p, Key(cs[i].sh.vtime, i));
    assert Key(cs[i].sh.vtime, i) in cs[p].sh.children;
  }

  lemma {:induction false} DescentExists(cs: seq<Class>, p: nat) returns (path: seq<nat>)
    requires TreeInv(cs) && p < |cs|
    ensures Descent(cs, p, path)
    decreases |cs| - p
  {
    if cs[p].sh.children == [] {
      path := [];
      forall j: nat ensures !ActiveChild(cs, p, j) {
        if ActiveChild(cs, p, j) {
          ActiveInTree(cs, p, j);
        }
      }
    } else {
      var ch := cs[p].sh.children[0].index;
      FirstIsLeast(cs, p);
      var rest := DescentExists(cs, ch);
      path := [ch] + rest;
      assert path[1..] == rest;
    }
  }

  // There is only one.
  lemma {:induction false} DescentUnique(cs: seq<Class>, p: nat, a: seq<nat>, b: seq<nat>)
    requires Descent(cs, p, a) && Descent(cs, p, b)
    ensures a == b
    decreases |a|
  {
    if a != [] && b != [] {
      DescentUnique(cs, a[0], a[1..], b[1..]);
      assert a == [a[0]] + a[1..] && b == [b[0]] + b[1..];
    }
  }

  // Floors do not matter to it.
  lemma {:induction false} DescentSame(cs: seq<Class>, cs': seq<Class>, p: nat, path: seq<nat>)
    requires OnlyFloors(cs, cs') && Descent(cs, p, path)
    ensures Descent(cs', p, path)
    decreases |path|
  {
    forall q: nat, j: nat ensures ActiveChild(cs', q, j) == ActiveChild(cs, q, j) {
    }
    if path != [] {
      DescentSame(cs, cs', path[0], path[1..]);
    }
  }

  /// ## Where it ends

  lemma {:induction false} LastLeafSame(cs: seq<Class>, cs': seq<Class>, path: seq<nat>)
    requires |cs| == |cs'| && forall i :: 0 <= i < |cs| ==> cs'[i].cfg == cs[i].cfg
    requires BelowRoot(cs, path)
    ensures LastLeaf(cs', path) == LastLeaf(cs, path)
  {
    if path != [] {
      LastLeafSame(cs, cs', path[..|path| - 1]);
    }
  }

  lemma {:induction false} LastLeafIs(cs: seq<Class>, path: seq<nat>)
    requires BelowRoot(cs, path)
    ensures LastLeaf(cs, path) != 0 ==>
      LastLeaf(cs, path) in path && ROOT < LastLeaf(cs, path) < |cs| && cs[LastLeaf(cs, path)].cfg.leaf
  {
    if path != [] {
      LastLeafIs(cs, path[..|path| - 1]);
    }
  }

  lemma {:induction false} LastLeafFirst(cs: seq<Class>, path: seq<nat>)
    requires path != [] && BelowRoot(cs, path)
    ensures var rest := LastLeaf(cs, path[1..]);
      LastLeaf(cs, path) == if rest != 0 then rest else if cs[path[0]].cfg.leaf then path[0] else 0
  {
    var n := |path| - 1;
    if n == 0 {
      assert path[..n] == [];
    } else {
      LastLeafFirst(cs, path[..n]);
      assert path[..n][1..] == path[1..][..n - 1];
      assert path[1..][n - 1] == path[n];
    }
  }

  // The descent of the code returns the last leaf on the path.
  lemma {:induction false} GetMinVIsLastLeaf(cs: seq<Class>, p: nat, path: seq<nat>)
    requires TreeInv(cs) && p < |cs| && Descent(cs, p, path)
    ensures GetMinV(cs, p).1 == LastLeaf(cs, path)
    decreases |path|
  {
    if cs[p].sh.children != [] {
      var ch := cs[p].sh.children[0].index;
      var raised := RaiseFloor(cs, p, cs[ch].sh.vtime);
      FirstIsLeast(cs, p);
      assert path != [] && path[0] == ch;
      RaiseFloorKeeps(cs, p);
      DescentSame(cs, raised, ch, path[1..]);
      GetMinVIsLastLeaf(raised, ch, path[1..]);
      LastLeafSame(cs, raised, path[1..]);
      LastLeafFirst(cs, path);
    } else if path != [] {
      ActiveInTree(cs, p, path[0]);
    }
  }

  // In a tidy tree the path ends at a leaf with packets, unless it is empty.
  lemma {:induction false} TidyDescent(cs: seq<Class>, p: nat, path: seq<nat>)
    requires TreeInv(cs) && Tidy(cs) && p < |cs| && Descent(cs, p, path) && path != []
    ensures LastLeaf(cs, path) == path[|path| - 1] && cs[path[|path| - 1]].packets != []
    decreases |path|
  {
    var ch := path[0];
    assert cs[ch].sh.nactive == Busy(cs[ch]);
    if |path| > 1 {
      TidyDescent(cs, ch, path[1..]);
    } else if cs[ch].sh.children != [] {
      FirstIsLeast(cs, ch);
    }
  }

  /// ## Who is active

  ghost predicate QueuedUnder(cs: seq<Class>, i: nat, j: nat)
    requires Forest(cs)
  {
    j < |cs| && cs[j].packets != [] && Under(cs, j, i)
  }

  lemma {:induction false} ActiveHasQueue(cs: seq<Class>, i: nat) returns (j: nat)
    requires TreeInv(cs) && ROOT < i < |cs| && cs[i].sh.nactive > 0
    ensures QueuedUnder(cs, i, j)
    decreases |cs| - i
  {
    assert cs[i].sh.nactive == Busy(cs[i]);
    if cs[i].packets != [] {
      j := i;
    } else {
      FirstIsLeast(cs, i);
      var ch := cs[i].sh.children[0].index;
      j := ActiveHasQueue(cs, ch);
      UnderParent(cs, j, ch);
    }
  }

  lemma {:induction false} UnderParent(cs: seq<Class>, j: nat, i: nat)
    requires Forest(cs) && i < |cs| && j < |cs| && Under(cs, j, i) && cs[i].cfg.parent != 0
    ensures Under(cs, j, cs[i].cfg.parent)
    decreases j
  {
    if j != i {
      UnderParent(cs, cs[j].cfg.parent, i);
    } else {
      assert Under(cs, cs[i].cfg.parent, cs[i].cfg.parent);
    }
  }

  lemma {:induction false} ActiveUp(cs: seq<Class>, j: nat, i: nat)
    requires TreeInv(cs) && ROOT < i < |cs| && j < |cs| && Under(cs, j, i) && cs[j].sh.nactive > 0
    ensures cs[i].sh.nactive > 0
    decreases j
  {
    if j != i {
      var p := cs[j].cfg.parent;
      UnderOrder(cs, p, i);
      ActiveInTree(cs, p, j);
      assert cs[p].sh.nactive == Busy(cs[p]);
      ActiveUp(cs, p, i);
    }
  }

  // A class counts as active if and only if it or a class below it has packets queued.
  lemma {:induction false} ActiveIffQueued(cs: seq<Class>, i: nat)
    requires TreeInv(cs) && ROOT < i < |cs|
    ensures cs[i].sh.nactive > 0 <==> exists j: nat :: QueuedUnder(cs, i, j)
  {
    if cs[i].sh.nactive > 0 {
      var j := ActiveHasQueue(cs, i);
    }
    forall j: nat | QueuedUnder(cs, i, j) ensures cs[i].sh.nactive > 0 {
      UnderOrder(cs, j, i);
      assert cs[j].sh.nactive == Busy(cs[j]);
      ActiveUp(cs, j, i);
    }
  }

  // Packets queued anywhere below the root keep its tree non-empty.
  lemma {:induction false} ActiveReachesRoot(cs: seq<Class>, i: nat)
    requires TreeInv(cs) && ROOT < i < |cs| && cs[i].sh.nactive > 0
    ensures cs[ROOT].sh.children != []
    decreases i
  {
    var p := cs[i].cfg.parent;
    ActiveInTree(cs, p, i);
    if p != ROOT {
      assert cs[p].sh.nactive == Busy(cs[p]);
      ActiveReachesRoot(cs, p);
    }
  }
}
