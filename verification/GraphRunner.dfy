/**
 The graph of packet processing nodes: one ordered pass over the nodes hands each its queued
 packets, and tells whether there is more to do and when.
 */
module GraphRunner {

  const MAX: nat := 0xFFFF_FFFF_FFFF_FFFF  // the latest time
  const VEC_SIZE: nat := 256

  /// ## What a client does with its dispatch handle

  datatype Action<P> =
    | Pop
    | Push(edge: nat, pkt: P)
    | Wakeup(nsecs: nat)

  // The queues of all nodes, what the client was handed, and the work it announced.
  datatype State<P> = State(vectors: seq<seq<P>>, got: seq<P>, work: bool, wakeup: nat)

  // The client's edges lead to nodes.
  predicate Edges(next: seq<nat>, n: nat) {
    forall e :: 0 <= e < |next| ==> next[e] < n
  }

  // The client pushes along edges it has, and times are words.
  predicate Allowed<P>(a: Action<P>, next: seq<nat>) {
    match a
    case Pop => true
    case Push(edge, _) => edge < |next|
    case Wakeup(nsecs) => nsecs <= MAX
  }

  function Do<P>(s: State<P>, node: nat, next: seq<nat>, a: Action<P>): (t: State<P>)
    requires node < |s.vectors| && Edges(next, |s.vectors|) && Allowed(a, next)
    ensures |t.vectors| == |s.vectors|
  {
    match a
    case Pop =>
      var q := s.vectors[node];
      if q == [] then s else s.(vectors := s.vectors[node := q[1..]], got := s.got + [q[0]])
    case Push(edge, pkt) =>
      var m := next[edge];
      var t := s.(vectors := s.vectors[m := s.vectors[m] + [pkt]]);
      if m <= node then t.(work := true, wakeup := 0) else t
    case Wakeup(nsecs) =>
      if s.work && s.wakeup <= nsecs then s else s.(work := true, wakeup := nsecs)
  }

  predicate AllAllowed<P>(actions: seq<Action<P>>, next: seq<nat>) {
    forall i :: 0 <= i < |actions| ==> Allowed(actions[i], next)
  }

  function DoAll<P>(s: State<P>, node: nat, next: seq<nat>, actions: seq<Action<P>>): (t: State<P>)
    requires node < |s.vectors| && Edges(next, |s.vectors|) && AllAllowed(actions, next)
    ensures |t.vectors| == |s.vectors|
  {
    if actions == [] then s
    else
      var k := |actions| - 1;
      Do(DoAll(s, node, next, actions[..k]), node, next, actions[k])
  }

  // What is pushed to node m, in order.
  function Pushed<P>(next: seq<nat>, actions: seq<Action<P>>, m: nat): seq<P>
    requires AllAllowed(actions, next)
  {
    if actions == [] then []
    else
      var k := |actions| - 1;
      var rest := Pushed(next, actions[..k], m);
      if actions[k].Push? && next[actions[k].edge] == m then rest + [actions[k].pkt] else rest
  }

  // Queues are first in, first out, and nothing is lost: what the client got and what is left is
  // what was there and what was pushed.
  lemma {:induction false} QueuesKeepAll<P>(s: State<P>, node: nat, next: seq<nat>, actions: seq<Action<P>>, m: nat)
    requires node < |s.vectors| && Edges(next, |s.vectors|) && AllAllowed(actions, next) && s.got == []
      && m < |s.vectors|
    ensures var t := DoAll(s, node, next, actions);
      (if m == node then t.got else []) + t.vectors[m] == s.vectors[m] + Pushed(next, actions, m)
  {
    if actions != [] {
      var k := |actions| - 1;
      var t := DoAll(s, node, next, actions[..k]);
      QueuesKeepAll(s, node, next, actions[..k], m);
      match actions[k]
      case Pop =>
        if m == node && t.vectors[m] != [] {
          TakeFirst(t.got, t.vectors[m]);
        }
      case Push(edge, pkt) =>
        if next[edge] == m {
          AddLast(if m == node then t.got else [], t.vectors[m], s.vectors[m], Pushed(next, actions[..k], m), pkt);
        }
      case Wakeup(_) =>
    }
  }

  lemma TakeFirst<P>(a: seq<P>, b: seq<P>)
    requires b != []
    ensures (a + [b[0]]) + b[1..] == a + b
  {
  }

  lemma AddLast<P>(a: seq<P>, b: seq<P>, c: seq<P>, d: seq<P>, x: P)
    requires a + b == c + d
    ensures a + (b + [x]) == c + (d + [x])
  {
    assert a + (b + [x]) == (a + b) + [x];
    assert c + (d + [x]) == (c + d) + [x];
  }

  // The time at which an action asks for more work, if it does: now for a packet to a node that
  // has had its turn.
  predicate Asks<P>(a: Action<P>, node: nat, next: seq<nat>)
    requires Allowed(a, next)
  {
    a.Wakeup? || (a.Push? && next[a.edge] <= node)
  }

  function Time<P>(a: Action<P>): nat {
    if a.Wakeup? then a.nsecs else 0
  }

  ghost predicate AskedBy<P>(actions: seq<Action<P>>, node: nat, next: seq<nat>, t: nat)
    requires AllAllowed(actions, next)
  {
    exists i :: 0 <= i < |actions| && Asks(actions[i], node, next) && Time(actions[i]) == t
  }

  // What is announced is no later than any action asks for.
  ghost predicate NotSooner<P>(actions: seq<Action<P>>, node: nat, next: seq<nat>, work: bool, nsecs: nat)
    requires AllAllowed(actions, next)
  {
    forall i :: 0 <= i < |actions| && Asks(actions[i], node, next) ==> work && nsecs <= Time(actions[i])
  }

  // The work announced is what some action asked for, at the earliest time asked for.
  lemma {:induction false} WorkIsEarliest<P>(s: State<P>, node: nat, next: seq<nat>, actions: seq<Action<P>>)
    requires node < |s.vectors| && Edges(next, |s.vectors|) && AllAllowed(actions, next) && !s.work
    ensures var t := DoAll(s, node, next, actions);
      && (t.work ==> AskedBy(actions, node, next, t.wakeup))
      && NotSooner(actions, node, next, t.work, t.wakeup)
  {
    if actions != [] {
      var k := |actions| - 1;
      var t := DoAll(s, node, next, actions[..k]);
      WorkIsEarliest(s, node, next, actions[..k]);
      if t.work {
        var i :| 0 <= i < k && Asks(actions[..k][i], node, next) && Time(actions[..k][i]) == t.wakeup;
        assert Asks(actions[i], node, next);
      }
      assert forall i :: 0 <= i < k ==> actions[..k][i] == actions[i];
    }
  }

  /// ## One pass over the nodes

  predicate WellFormed<P>(nexts: seq<seq<nat>>, traces: seq<seq<Action<P>>>, n: nat) {
    |nexts| == |traces| == n && forall k :: 0 <= k < n ==> Edges(nexts[k], n) && AllAllowed(traces[k], nexts[k])
  }

  function Begin<P>(vectors: seq<seq<P>>): State<P> {
    State(vectors, [], false, MAX)
  }

  // The queues after the first n nodes had their turn, each doing what its trace says.
  function After<P>(vectors: seq<seq<P>>, nexts: seq<seq<nat>>, traces: seq<seq<Action<P>>>, n: nat): (v: seq<seq<P>>)
    requires WellFormed(nexts, traces, |vectors|) && n <= |vectors|
    ensures |v| == |vectors|
    decreases n, 0
  {
    if n == 0 then vectors else Turn(vectors, nexts, traces, n - 1).vectors
  }

  // The turn of node n.
  function Turn<P>(vectors: seq<seq<P>>, nexts: seq<seq<nat>>, traces: seq<seq<Action<P>>>, n: nat): (t: State<P>)
    requires WellFormed(nexts, traces, |vectors|) && n < |vectors|
    ensures |t.vectors| == |vectors|
    decreases n, 1
  {
    DoAll(Begin(After(vectors, nexts, traces, n)), n, nexts[n], traces[n])
  }

  // Every client takes at least the packets that were queued for it when its turn came.
  ghost predicate Drained<P>(vectors: seq<seq<P>>, nexts: seq<seq<nat>>, traces: seq<seq<Action<P>>>)
    requires WellFormed(nexts, traces, |vectors|)
  {
    forall n: nat {:trigger Turn(vectors, nexts, traces, n)} :: n < |vectors| ==>
      |Turn(vectors, nexts, traces, n).got| >= |After(vectors, nexts, traces, n)[n]|
  }

  lemma {:induction false} PushedAsked<P>(next: seq<nat>, actions: seq<Action<P>>, m: nat, node: nat)
    requires AllAllowed(actions, next) && m <= node && Pushed(next, actions, m) != []
    ensures AskedBy(actions, node, next, 0)
  {
    var k := |actions| - 1;
    if actions[k].Push? && next[actions[k].edge] == m {
      assert Asks(actions[k], node, next);
    } else {
      PushedAsked(next, actions[..k], m, node);
      var i :| 0 <= i < k && Asks(actions[..k][i], node, next) && Time(actions[..k][i]) == 0;
      assert Asks(actions[i], node, next);
    }
  }

  ghost predicate AskedNow<P>(nexts: seq<seq<nat>>, traces: seq<seq<Action<P>>>, n: nat)
    requires |nexts| == |traces| && n <= |nexts| && forall k :: 0 <= k < n ==> AllAllowed(traces[k], nexts[k])
  {
    exists k :: 0 <= k < n && AskedBy(traces[k], k, nexts[k], 0)
  }

  // A packet left with a node that had its turn has made its sender ask to run again at once.
  lemma {:induction false} LeftMeansAsked<P>(vectors: seq<seq<P>>, nexts: seq<seq<nat>>, traces: seq<seq<Action<P>>>,
      n: nat, m: nat)
    requires WellFormed(nexts, traces, |vectors|) && m < n <= |vectors| && Drained(vectors, nexts, traces)
    requires After(vectors, nexts, traces, n)[m] != []
    ensures AskedNow(nexts, traces, n)
  {
    var k := n - 1;
    var before := After(vectors, nexts, traces, k);
    var t := Turn(vectors, nexts, traces, k);
    QueuesKeepAll(Begin(before), k, nexts[k], traces[k], m);
    if m < k && before[m] != [] {
      LeftMeansAsked(vectors, nexts, traces, k, m);
    } else {
      assert |t.got| >= |before[k]|;
      PushedAsked(nexts[k], traces[k], m, k);
    }
  }

  // How many packets the first n nodes push to node m.
  function PushedTo<P>(nexts: seq<seq<nat>>, traces: seq<seq<Action<P>>>, n: nat, m: nat): nat
    requires |nexts| == |traces| && n <= |nexts| && forall k :: 0 <= k < n ==> AllAllowed(traces[k], nexts[k])
  {
    if n == 0 then 0 else PushedTo(nexts, traces, n - 1, m) + |Pushed(nexts[n - 1], traces[n - 1], m)|
  }

  // Every packet pushed in those turns is counted, with the node that it is for.
  ghost predicate Counts<P>(was: seq<nat>, now: seq<nat>, nexts: seq<seq<nat>>, traces: seq<seq<Action<P>>>, n: nat)
    requires |nexts| == |traces| && n <= |nexts| && forall k :: 0 <= k < n ==> AllAllowed(traces[k], nexts[k])
  {
    |now| == |was| && forall m: nat :: m < |now| ==> now[m] == was[m] + PushedTo(nexts, traces, n, m)
  }

  // Which work is pending after a pass, and when.
  ghost predicate Earliest<P>(nexts: seq<seq<nat>>, traces: seq<seq<Action<P>>>, n: nat, work: bool, nsecs: nat)
    requires |nexts| == |traces| && n <= |nexts| && forall k :: 0 <= k < n ==> AllAllowed(traces[k], nexts[k])
  {
    && (work ==> exists k :: 0 <= k < n && AskedBy(traces[k], k, nexts[k], nsecs))
    && (!work ==> nsecs == MAX)
    && (forall k :: 0 <= k < n ==> NotSooner(traces[k], k, nexts[k], work, nsecs))
  }

  // No lost work: a queue that is not empty after a pass of clients that empty theirs means work now.
  lemma NoLostWork<P>(vectors: seq<seq<P>>, nexts: seq<seq<nat>>, traces: seq<seq<Action<P>>>, work: bool, nsecs: nat,
      m: nat)
    requires WellFormed(nexts, traces, |vectors|) && Drained(vectors, nexts, traces)
    requires Earliest(nexts, traces, |vectors|, work, nsecs)
    requires m < |vectors| && After(vectors, nexts, traces, |vectors|)[m] != []
    ensures work && nsecs == 0
  {
    LeftMeansAsked(vectors, nexts, traces, |vectors|, m);
    var k :| 0 <= k < |vectors| && AskedBy(traces[k], k, nexts[k], 0);
    assert NotSooner(traces[k], k, nexts[k], work, nsecs);
  }

  /// ## When a thread sleeps on a packet

  // Nobody asks for another pass.
  ghost predicate Quiet<P>(nexts: seq<seq<nat>>, traces: seq<seq<Action<P>>>)
    requires |nexts| == |traces| && forall k :: 0 <= k < |nexts| ==> AllAllowed(traces[k], nexts[k])
  {
    forall k :: 0 <= k < |nexts| ==> QuietNode(traces[k], k, nexts[k])
  }

  ghost predicate QuietNode<P>(actions: seq<Action<P>>, node: nat, next: seq<nat>)
    requires AllAllowed(actions, next)
  {
    forall i :: 0 <= i < |actions| ==> !Asks(actions[i], node, next)
  }

  ghost predicate Empty<P>(vectors: seq<seq<P>>) {
    forall m :: 0 <= m < |vectors| ==> vectors[m] == []
  }

  // A quiet client pushes to later nodes only.
  lemma {:induction false} QuietPushes<P>(next: seq<nat>, actions: seq<Action<P>>, m: nat, node: nat)
    requires AllAllowed(actions, next) && QuietNode(actions, node, next) && m <= node
    ensures Pushed(next, actions, m) == []
  {
    if actions != [] {
      var k := |actions| - 1;
      assert !Asks(actions[k], node, next);
      assert QuietNode(actions[..k], node, next);
      QuietPushes(next, actions[..k], m, node);
    }
  }

  // In a quiet pass the turn of node k takes packets from its own queue at most, and leaves the
  // queues of earlier nodes as they are.
  lemma QuietTurn<P>(vectors: seq<seq<P>>, nexts: seq<seq<nat>>, traces: seq<seq<Action<P>>>, k: nat, m: nat)
    requires WellFormed(nexts, traces, |vectors|) && Quiet(nexts, traces) && m <= k < |vectors|
    ensures var before, t := After(vectors, nexts, traces, k)[m], Turn(vectors, nexts, traces, k);
      if m == k then t.got + t.vectors[m] == before else t.vectors[m] == before
  {
    var before := After(vectors, nexts, traces, k);
    QuietPushes(nexts[k], traces[k], m, k);
    QueuesKeepAll(Begin(before), k, nexts[k], traces[k], m);
    assert before[m] + [] == before[m];
  }

  // So what a node leaves at its turn is what it has in the end.
  lemma {:induction false} LeftStays<P>(vectors: seq<seq<P>>, nexts: seq<seq<nat>>, traces: seq<seq<Action<P>>>, n: nat,
      m: nat)
    requires WellFormed(nexts, traces, |vectors|) && Quiet(nexts, traces) && m < n <= |vectors|
    ensures var t := Turn(vectors, nexts, traces, m);
      t.got + After(vectors, nexts, traces, n)[m] == After(vectors, nexts, traces, m)[m]
    decreases n
  {
    QuietTurn(vectors, nexts, traces, n - 1, m);
    if m < n - 1 {
      LeftStays(vectors, nexts, traces, n - 1, m);
    }
  }

  // A pass announces no work exactly if it is quiet.
  lemma NoWorkIfQuiet<P>(nexts: seq<seq<nat>>, traces: seq<seq<Action<P>>>, work: bool, nsecs: nat)
    requires |nexts| == |traces| && forall k :: 0 <= k < |nexts| ==> AllAllowed(traces[k], nexts[k])
    requires Earliest(nexts, traces, |nexts|, work, nsecs)
    ensures !work <==> Quiet(nexts, traces)
  {
    if work {
      var k :| 0 <= k < |nexts| && AskedBy(traces[k], k, nexts[k], nsecs);
      assert !QuietNode(traces[k], k, nexts[k]);
    } else {
      forall k | 0 <= k < |nexts| ensures QuietNode(traces[k], k, nexts[k]) {
        assert NotSooner(traces[k], k, nexts[k], work, nsecs);
      }
    }
  }

  lemma QuietEmpty<P>(vectors: seq<seq<P>>, nexts: seq<seq<nat>>, traces: seq<seq<Action<P>>>)
    requires WellFormed(nexts, traces, |vectors|) && Quiet(nexts, traces)
    ensures Empty(After(vectors, nexts, traces, |vectors|)) <==> Drained(vectors, nexts, traces)
  {
    var done := After(vectors, nexts, traces, |vectors|);
    forall m: nat | m < |vectors|
      ensures done[m] == [] <==> |Turn(vectors, nexts, traces, m).got| >= |After(vectors, nexts, traces, m)[m]|
    {
      LeftStays(vectors, nexts, traces, |vectors|, m);
    }
  }

  // A pass after which the thread would sleep leaves a packet queued if and only if nobody asks for
  // another pass and some client does not take what it finds queued.
  lemma {:induction false} SleepsOnPacket<P>(vectors: seq<seq<P>>, nexts: seq<seq<nat>>, traces: seq<seq<Action<P>>>,
      work: bool, nsecs: nat)
    requires WellFormed(nexts, traces, |vectors|) && Earliest(nexts, traces, |vectors|, work, nsecs)
    ensures !work && !Empty(After(vectors, nexts, traces, |vectors|)) <==>
      Quiet(nexts, traces) && !Drained(vectors, nexts, traces)
  {
    NoWorkIfQuiet(nexts, traces, work, nsecs);
    if !work {
      QuietEmpty(vectors, nexts, traces);
    }
  }

  // That happens: behind a drop node that has taken its packets, a client that does nothing about
  // its packets is not run again for them.
  lemma UndrainedSleeps<P>(vectors: seq<seq<P>>, work: bool, nsecs: nat)
    requires |vectors| == 2 && vectors[1] != []
    requires Earliest(NO_EDGES, OnlyDrops<P>(|vectors[0]|), 2, work, nsecs)
    ensures !work && !Empty(After(vectors, NO_EDGES, OnlyDrops<P>(|vectors[0]|), 2))
  {
    var traces := OnlyDrops<P>(|vectors[0]|);
    assert Quiet(NO_EDGES, traces);
    QuietPushes(NO_EDGES[0], traces[0], 1, 1);
    QueuesKeepAll(Begin(vectors), 0, NO_EDGES[0], traces[0], 1);
    assert Turn(vectors, NO_EDGES, traces, 1).got == [];
    SleepsOnPacket(vectors, NO_EDGES, traces, work, nsecs);
  }

  const NO_EDGES: seq<seq<nat>> := [[], []]

  // Node 0 takes n packets, node 1 none.
  function OnlyDrops<P>(n: nat): seq<seq<Action<P>>> {
    [seq(n, _ => Action.Pop), []]
  }

  /// ## The dispatch handle

  class Dispatch<P(==)> {
    const node: nat
    const nodes: seq<nat>
    var vectors: seq<seq<P>>
    var capacities: seq<nat>
    var enqed: seq<nat>
    var drops: seq<nat>
    var work: bool
    var wakeup: nat
    ghost var got: seq<P>

    ghost predicate Valid()
      reads this
    {
      node < |vectors| == |capacities| == |enqed| == |drops| && Edges(nodes, |vectors|)
    }

    ghost function Value(): State<P>
      reads this
    {
      State(vectors, got, work, wakeup)
    }

    constructor (node: nat, nodes: seq<nat>, vectors: seq<seq<P>>, capacities: seq<nat>, enqed: seq<nat>,
        drops: seq<nat>)
      requires node < |vectors| == |capacities| == |enqed| == |drops| && Edges(nodes, |vectors|)
      ensures Valid() && Value() == Begin(vectors) && this.node == node && this.nodes == nodes
      ensures this.drops == drops && this.capacities == capacities && this.enqed == enqed
    {
      this.node, this.nodes, this.vectors, this.capacities, this.enqed, this.drops := node, nodes, vectors, capacities,
        enqed, drops;
      work, wakeup, got := false, MAX, [];
    }

    method Pop() returns (pkt: seq<P>)
      requires Valid()
      modifies this`vectors, this`got
      ensures Valid() && Value() == Do(old(Value()), node, nodes, Action.Pop)
      ensures pkt == if old(vectors)[node] == [] then [] else [old(vectors)[node][0]]
    {
      if vectors[node] == [] {
        return [];
      }
      pkt := [vectors[node][0]];
      got := got + pkt;
      vectors := vectors[node := vectors[node][1..]];
    }

    // A packet is queued as long as the queue has any capacity at all, and dropped otherwise.
    method Push(edge: nat, pkt: P) returns (ok: bool)
      requires Valid() && edge < |nodes|
      modifies this`vectors, this`capacities, this`work, this`wakeup, this`enqed, this`drops
      ensures Valid() && ok == (old(capacities)[nodes[edge]] >= 1)
      ensures Value() == if ok then Do(old(Value()), node, nodes, Action.Push(edge, pkt)) else old(Value())
      ensures ok ==> drops == old(drops) && enqed == old(enqed)[nodes[edge] := old(enqed)[nodes[edge]] + 1]
      ensures !ok ==> enqed == old(enqed) && drops == old(drops)[nodes[edge] := old(drops)[nodes[edge]] + 1]
      ensures old(Roomy(vectors, capacities)) ==> Roomy(vectors, capacities)
    {
      var m := nodes[edge];
      if capacities[m] >= 1 {
        vectors := vectors[m := vectors[m] + [pkt]];
        if |vectors[m]| > capacities[m] {
          capacities := capacities[m := |vectors[m]|];
        }
        if m <= node {
          work := true;
          wakeup := 0;
        }
        enqed := enqed[m := enqed[m] + 1];
        ok := true;
      } else {
        drops := drops[m := drops[m] + 1];
        ok := false;
      }
    }

    method Wakeup(nsecs: nat)
      requires Valid() && nsecs <= MAX
      modifies this`work, this`wakeup
      ensures Valid() && Value() == Do(old(Value()), node, nodes, Action.Wakeup(nsecs))
    {
      if work {
        if nsecs < wakeup {
          wakeup := nsecs;
        }
      } else {
        work := true;
        wakeup := nsecs;
      }
    }

    // Some client: whatever it does is some sequence of these actions. None of its packets is
    // dropped: the capacity the queues start with only grows, so it does not bound them.
    method Client(actions: seq<Action<P>>)
      requires Valid() && AllAllowed(actions, nodes) && Roomy(vectors, capacities)
      modifies this`vectors, this`capacities, this`work, this`wakeup, this`enqed, this`drops, this`got
      ensures Valid() && Value() == DoAll(old(Value()), node, nodes, actions) && drops == old(drops)
      ensures Roomy(vectors, capacities) && |enqed| == |old(enqed)|
      ensures forall m: nat :: m < |enqed| ==> enqed[m] == old(enqed)[m] + |Pushed(nodes, actions, m)|
    {
      assert actions[..0] == [];
      for i := 0 to |actions|
        invariant Valid() && Value() == DoAll(old(Value()), node, nodes, actions[..i]) && drops == old(drops)
        invariant Roomy(vectors, capacities) && |enqed| == |old(enqed)|
        invariant forall m: nat :: m < |enqed| ==> enqed[m] == old(enqed)[m] + |Pushed(nodes, actions[..i], m)|
      {
        assert actions[..i + 1][..i] == actions[..i];
        match actions[i]
        case Pop =>
          var _ := Pop();
        case Push(edge, pkt) =>
          var _ := Push(edge, pkt);
        case Wakeup(nsecs) =>
          Wakeup(nsecs);
      }
      assert actions[..|actions|] == actions;
    }
  }

  // A queue's capacity is at least what it was made with and at least its length.
  ghost predicate Roomy<P>(vectors: seq<seq<P>>, capacities: seq<nat>) {
    |vectors| == |capacities| && forall m :: 0 <= m < |vectors| ==>
      capacities[m] >= VEC_SIZE && capacities[m] >= |vectors[m]|
  }

  /// ## Names of nodes

  // Packets for node 0 are dropped.
  const DROP := "drop"

  datatype Gnode = Gnode(name: string, nextNames: seq<string>, nextNodes: seq<nat>)

  datatype Names = Names(nodes: seq<Gnode>, indices: map<string, nat>)

  function Index(s: Names, name: string): nat {
    if name in s.indices then s.indices[name] else 0
  }

  // A node is added unless its name has an index other than 0.
  function AddNode(s: Names, name: string, nextNames: seq<string>): Names {
    if Index(s, name) != 0 then s
    else Names(s.nodes + [Gnode(name, nextNames, [])], s.indices[name := |s.nodes|])
  }

  function NewNames(): Names {
    AddNode(Names([], map[]), DROP, [])
  }

  // Every node is the one node of its name, and the index has the nodes and no others.
  ghost predicate Unique(s: Names) {
    && (forall k :: 0 <= k < |s.nodes| ==> s.nodes[k].name in s.indices && s.indices[s.nodes[k].name] == k)
    && (forall name :: name in s.indices ==> s.indices[name] < |s.nodes| && s.nodes[s.indices[name]].name == name)
  }

  // Adding keeps names unique except when it adds the name of node 0 again.
  lemma AddKeepsUnique(s: Names, name: string, nextNames: seq<string>)
    requires Unique(s)
    ensures Unique(AddNode(s, name, nextNames)) <==> !(name in s.indices && s.indices[name] == 0)
  {
    var t := AddNode(s, name, nextNames);
    if name in s.indices && s.indices[name] == 0 {
      assert t.nodes[0].name == name && t.indices[name] == |s.nodes| != 0;
    } else if Index(s, name) == 0 {
      forall k | 0 <= k < |t.nodes| ensures t.nodes[k].name in t.indices && t.indices[t.nodes[k].name] == k {
        if k < |s.nodes| {
          assert s.nodes[k].name in s.indices;
        }
      }
    }
  }

  // Adding a node a second time does nothing, once there is any node.
  lemma AddOnce(s: Names, name: string, a: seq<string>, b: seq<string>)
    requires s.nodes != []
    ensures AddNode(AddNode(s, name, a), name, b) == AddNode(s, name, a)
  {
  }

  // The edges by name, as indices; a name that is not there leads to node 0.
  function Resolve(s: Names, nextNames: seq<string>): seq<nat> {
    seq(|nextNames|, l requires 0 <= l < |nextNames| => Index(s, nextNames[l]))
  }

  // With unique names every edge leads to the node of its name if there is one and is dropped if not.
  lemma EdgesAreRight(s: Names, nextNames: seq<string>, l: nat)
    requires Unique(s) && s.nodes != [] && l < |nextNames|
    ensures Resolve(s, nextNames)[l] < |s.nodes|
    ensures forall k :: 0 <= k < |s.nodes| && s.nodes[k].name == nextNames[l] ==> Resolve(s, nextNames)[l] == k
    ensures (forall k :: 0 <= k < |s.nodes| ==> s.nodes[k].name != nextNames[l]) ==> Resolve(s, nextNames)[l] == 0
  {
  }

  function Resolved(s: Names): seq<Gnode> {
    seq(|s.nodes|, n requires 0 <= n < |s.nodes| => s.nodes[n].(nextNodes := Resolve(s, s.nodes[n].nextNames)))
  }

  // A node with the same names of its edges, and the index of each of them, or 0 without one.
  ghost predicate ResolvedAs(was: Gnode, now: Gnode, indices: map<string, nat>) {
    && now.name == was.name && now.nextNames == was.nextNames && |now.nextNodes| == |now.nextNames|
    && forall l :: 0 <= l < |now.nextNames| ==>
      now.nextNodes[l] == if now.nextNames[l] in indices then indices[now.nextNames[l]] else 0
  }

  ghost predicate SameNames(now: Gnode, was: Gnode) {
    now.name == was.name && now.nextNames == was.nextNames
  }

  // The nodes are those from before, up to where their edges lead, and then some of those added.
  ghost predicate Joined(was: seq<Gnode>, now: seq<Gnode>, added: seq<(string, seq<string>)>, n: nat) {
    && |was| <= |now| && n <= |added|
    && (forall k :: 0 <= k < |was| ==> SameNames(now[k], was[k]))
    && forall k :: |was| <= k < |now| ==> IsAdded(now[k], added, n)
  }

  ghost predicate IsAdded(node: Gnode, added: seq<(string, seq<string>)>, n: nat)
    requires n <= |added|
  {
    exists i :: 0 <= i < n && SameNames(node, Gnode(added[i].0, added[i].1, []))
  }

  ghost predicate AllNamed(indices: map<string, nat>, added: seq<(string, seq<string>)>, n: nat) {
    n <= |added| && forall i :: 0 <= i < n ==> added[i].0 in indices
  }

  function Nexts(nodes: seq<Gnode>): seq<seq<nat>> {
    seq(|nodes|, n requires 0 <= n < |nodes| => nodes[n].nextNodes)
  }

  /// ## The graph

  class Graph<P(==)> {
    var nodes: seq<Gnode>
    var indices: map<string, nat>
    var vectors: seq<seq<P>>
    var capacities: seq<nat>
    var enqed: seq<nat>
    var drops: seq<nat>

    ghost predicate Valid()
      reads this
    {
      && 0 < |nodes| == |vectors| == |capacities| == |enqed| == |drops| && Roomy(vectors, capacities)
      && (forall name :: name in indices ==> indices[name] < |nodes|)
      && (forall n :: 0 <= n < |nodes| ==>
        Edges(nodes[n].nextNodes, |nodes|) && |nodes[n].nextNodes| <= |nodes[n].nextNames|)
    }

    function Named(): Names
      reads this
    {
      Names(nodes, indices)
    }

    constructor ()
      ensures Valid() && Named() == NewNames() && vectors == [[]]
    {
      nodes, indices := [Gnode(DROP, [], [])], map[DROP := 0];
      vectors, capacities, enqed, drops := [[]], [VEC_SIZE], [0], [0];
    }

    method Add(name: string, nextNames: seq<string>)
      requires Valid()
      modifies this
      ensures Valid() && Named() == AddNode(old(Named()), name, nextNames)
      ensures if name in old(indices) && old(indices)[name] != 0 then
          nodes == old(nodes) && indices == old(indices) && enqed == old(enqed) && drops == old(drops)
        else
          && nodes == old(nodes) + [Gnode(name, nextNames, [])] && indices == old(indices)[name := |old(nodes)|]
          && enqed == old(enqed) + [0] && drops == old(drops) + [0]
      ensures vectors == old(vectors) + seq(|nodes| - |old(nodes)|, _ => [])
    {
      var index := Index(Named(), name);
      if index != 0 {
        return;
      }
      nodes := nodes + [Gnode(name, nextNames, [])];
      vectors, capacities, enqed, drops := vectors + [[]], capacities + [VEC_SIZE], enqed + [0], drops + [0];
      index := |nodes| - 1;
      indices := indices[name := index];
    }

    method ResolveNode(n: nat)
      requires Valid() && n < |nodes|
      modifies this`nodes
      ensures Valid()
      ensures nodes == old(nodes)[n := old(nodes)[n].(nextNodes := Resolve(old(Named()), old(nodes)[n].nextNames))]
    {
      ghost var was, names := nodes[n], nodes[n].nextNames;
      for l := 0 to |nodes[n].nextNames|
        invariant Valid() && n < |nodes| && nodes == old(nodes)[n := was.(nextNodes := nodes[n].nextNodes)]
        invariant l <= |nodes[n].nextNodes|
        invariant forall k :: 0 <= k < l ==> nodes[n].nextNodes[k] == Index(old(Named()), names[k])
      {
        var index := if nodes[n].nextNames[l] in indices then indices[nodes[n].nextNames[l]] else 0;
        var next := nodes[n].nextNodes;
        if |next| <= l {
          next := next + seq(l + 1 - |next|, _ => 0);
        }
        next := next[l := index];
        nodes := nodes[n := nodes[n].(nextNodes := next)];
      }
      assert nodes[n].nextNodes == Resolve(old(Named()), names);
    }

    // Resolves the edges of all nodes.
    method Finalize()
      requires Valid()
      modifies this`nodes
      ensures Valid() && nodes == Resolved(old(Named()))
      ensures |nodes| == |old(nodes)| && forall n :: 0 <= n < |nodes| ==> ResolvedAs(old(nodes)[n], nodes[n], indices)
    {
      for n := 0 to |nodes|
        invariant Valid() && |nodes| == |old(nodes)|
        invariant forall k :: 0 <= k < n ==> nodes[k] == Resolved(old(Named()))[k]
        invariant forall k :: n <= k < |nodes| ==> nodes[k] == old(nodes)[k]
      {
        ResolveNode(n);
        SameIndex(old(Named()), Named());
      }
    }

    // The turn of one node.
    method RunNode(n: nat, actions: seq<Action<P>>) returns (work: bool, wakeup: nat, ghost got: seq<P>)
      requires Valid() && n < |nodes| && AllAllowed(actions, nodes[n].nextNodes)
      modifies this`vectors, this`capacities, this`enqed, this`drops
      ensures Valid() && |vectors| == |old(vectors)| && drops == old(drops)
      ensures State(vectors, got, work, wakeup) == DoAll(Begin(old(vectors)), n, nodes[n].nextNodes, actions)
      ensures |enqed| == |old(enqed)|
      ensures forall m: nat :: m < |enqed| ==> enqed[m] == old(enqed)[m] + |Pushed(nodes[n].nextNodes, actions, m)|
    {
      var d := new Dispatch(n, nodes[n].nextNodes, vectors, capacities, enqed, drops);
      d.Client(actions);
      vectors, capacities, enqed, drops := d.vectors, d.capacities, d.enqed, d.drops;
      work, wakeup, got := d.work, d.wakeup, d.got;
    }

    // One pass over all nodes, whose clients do what the traces say. The result is whether any of
    // them asked to run again and the earliest time asked for.
    method Run(traces: seq<seq<Action<P>>>) returns (work: bool, nsecs: nat)
      requires Valid() && WellFormed(Nexts(nodes), traces, |nodes|)
      modifies this`vectors, this`capacities, this`enqed, this`drops
      ensures Valid() && drops == old(drops)
      ensures vectors == After(old(vectors), Nexts(nodes), traces, |nodes|)
      ensures Earliest(Nexts(nodes), traces, |nodes|, work, nsecs)
      ensures Counts(old(enqed), enqed, Nexts(nodes), traces, |nodes|)
    {
      nsecs := MAX;
      work := false;
      ghost var nexts, was := Nexts(nodes), vectors;
      for n := 0 to |nodes|
        invariant Valid() && drops == old(drops)
        invariant vectors == After(was, nexts, traces, n)
        invariant Earliest(nexts, traces, n, work, nsecs) && Counts(old(enqed), enqed, nexts, traces, n)
      {
        assert nexts[n] == nodes[n].nextNodes;
        ghost var before := Begin(vectors);
        var w, wakeup, _ := RunNode(n, traces[n]);
        WorkIsEarliest(before, n, nexts[n], traces[n]);
        EarliestNext(nexts, traces, n, work, nsecs, w, wakeup);
        if w {
          work := true;
          if wakeup < nsecs {
            nsecs := wakeup;
          }
        }
      }
    }

    // A node is added, under a name that then has an index, and all edges are resolved anew.
    method AddAndFinalize(name: string, nextNames: seq<string>)
      requires Valid()
      modifies this
      ensures Valid() && name in indices && (forall x :: x in old(indices) ==> x in indices)
      ensures |nodes| == |old(nodes)| || |nodes| == |old(nodes)| + 1
      ensures forall n :: 0 <= n < |nodes| ==> ResolvedAs(nodes[n], nodes[n], indices)
      ensures forall n :: 0 <= n < |old(nodes)| ==> SameNames(nodes[n], old(nodes)[n])
      ensures |nodes| > |old(nodes)| ==> SameNames(nodes[|old(nodes)|], Gnode(name, nextNames, []))
      ensures vectors == old(vectors) || vectors == old(vectors) + [[]]
    {
      Add(name, nextNames);
      Finalize();
    }

    // The control messages, some of which add nodes: the others are not part of this model.
    method Control(added: seq<(string, seq<string>)>)
      requires Valid()
      modifies this
      ensures Valid() && Joined(old(nodes), nodes, added, |added|) && AllNamed(indices, added, |added|)
      ensures if added == [] then nodes == old(nodes) && indices == old(indices)
        else forall n :: 0 <= n < |nodes| ==> ResolvedAs(nodes[n], nodes[n], indices)
      ensures |old(vectors)| <= |vectors| && (Empty(vectors) <==> Empty(old(vectors)))
    {
      for i := 0 to |added|
        invariant Valid() && Joined(old(nodes), nodes, added, i) && AllNamed(indices, added, i)
        invariant if i == 0 then nodes == old(nodes) && indices == old(indices)
          else forall n :: 0 <= n < |nodes| ==> ResolvedAs(nodes[n], nodes[n], indices)
        invariant |old(vectors)| <= |vectors| && (Empty(vectors) <==> Empty(old(vectors)))
      {
        ghost var was, queues := nodes, vectors;
        AddAndFinalize(added[i].0, added[i].1);
        JoinedNext(old(nodes), was, nodes, added, i);
        EmptyNext(queues);
      }
    }

    // One round of a thread: a pass and then the control messages. The thread sleeps after a round
    // without work, and then no packet is queued anywhere if and only if every client took what it found
    // queued.
    method Round(traces: seq<seq<Action<P>>>, added: seq<(string, seq<string>)>) returns (work: bool)
      requires Valid() && WellFormed(Nexts(nodes), traces, |nodes|)
      modifies this
      ensures Valid() && |vectors| >= |old(vectors)|
      ensures !work ==> (Empty(vectors) <==> Drained(old(vectors), old(Nexts(nodes)), traces))
      ensures Joined(old(nodes), nodes, added, |added|) && AllNamed(indices, added, |added|)
      ensures if added == [] then nodes == old(nodes) && indices == old(indices)
        else forall n :: 0 <= n < |nodes| ==> ResolvedAs(nodes[n], nodes[n], indices)
    {
      ghost var was, nexts := vectors, Nexts(nodes);
      var nsecs;
      work, nsecs := Run(traces);
      SleepsOnPacket(was, nexts, traces, work, nsecs);
      NoWorkIfQuiet(nexts, traces, work, nsecs);
      Control(added);
    }
  }

  lemma JoinedNext(first: seq<Gnode>, was: seq<Gnode>, now: seq<Gnode>, added: seq<(string, seq<string>)>, i: nat)
    requires i < |added| && Joined(first, was, added, i)
    requires |now| == |was| || |now| == |was| + 1
    requires forall n :: 0 <= n < |was| ==> SameNames(now[n], was[n])
    requires |now| > |was| ==> SameNames(now[|was|], Gnode(added[i].0, added[i].1, []))
    ensures Joined(first, now, added, i + 1)
  {
    forall k | |first| <= k < |now| ensures IsAdded(now[k], added, i + 1) {
      if k < |was| {
        assert IsAdded(was[k], added, i) && SameNames(now[k], was[k]);
      }
    }
  }

  lemma EmptyNext<P>(queues: seq<seq<P>>)
    ensures Empty(queues + [[]]) <==> Empty(queues)
  {
    assert Empty(queues + [[]]) ==> forall m :: 0 <= m < |queues| ==> (queues + [[]])[m] == queues[m];
  }

  lemma EarliestNext<P>(nexts: seq<seq<nat>>, traces: seq<seq<Action<P>>>, n: nat, work: bool, nsecs: nat, w: bool,
      wakeup: nat)
    requires |nexts| == |traces| && n < |nexts| && forall k :: 0 <= k < |nexts| ==> AllAllowed(traces[k], nexts[k])
    requires Earliest(nexts, traces, n, work, nsecs)
    requires w ==> AskedBy(traces[n], n, nexts[n], wakeup) && wakeup <= MAX
    requires NotSooner(traces[n], n, nexts[n], w, wakeup)
    ensures Earliest(nexts, traces, n + 1, work || w, if w && wakeup < nsecs then wakeup else nsecs)
  {
  }

  lemma SameIndex(s: Names, t: Names)
    requires s.indices == t.indices
    ensures forall names :: Resolve(s, names) == Resolve(t, names)
  {
  }
}
