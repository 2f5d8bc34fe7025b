/**
 What queues and byte counts keep over every run of any operations: queues lose nothing and stay in
 order, and bytes are credited to the sender and all its ancestors.
 */
module HfscQueues {
  import opened HfscState
  import opened HfscServing
  import opened HfscScheduling
  import opened HfscRuns

  /// ## One operation

  // Queues lose packets at the head and gain them at the tail, one at a time.
  ghost predicate QueueMoves(s: Sched, op: Op, s': Sched, c: nat)
    requires Linked(s)
  {
    QueueOf(s, c) + AcceptedBy(s, op, c) == SentBy(s, op, c) + QueueOf(s', c)
  }

  // Class a is credited with what class d sends.
  ghost predicate Credits(s: Sched, d: nat, a: nat)
    requires Linked(s)
  {
    d < |s.classes| && ROOT < a < |s.classes| && Under(s.classes, d, a)
  }

  // Bytes are credited only when a packet is sent, to the sender and its ancestors.
  ghost predicate BytesMove(s: Sched, op: Op, s': Sched, a: nat)
    requires Linked(s)
  {
    BytesOf(s', a) == BytesOf(s, a)
      + if op.Take? && Credits(s, Picked(s, op.time), a) then TotalLen(SentBy(s, op, Picked(s, op.time))) else 0
  }

  ghost predicate Moves(s: Sched, op: Op, s': Sched, c: nat)
    requires Linked(s)
  {
    && Grows(s, s') && QueueMoves(s, op, s', c) && BytesMove(s, op, s', c)
    && (SentBy(s, op, c) != [] ==> c < |s.classes| && (s.classes[c].cfg.leaf || s.classes[c].cfg.r_isc.Some?))
  }

  lemma PutMoves(s: Sched, op: Op, c: nat)
    requires Linked(s) && op.Put?
    requires var (s', ok) := Enqueue(s, op.c, op.pkt, op.time);
      if ok then Enqueues(s, s', op.c, op.pkt) else Refuses(s, s', op.c)
    ensures Moves(s, op, Apply(s, op), c)
  {
  }

  // A dequeue that returns the head of class d's queue, or nothing.
  ghost predicate Taking(s: Sched, time: int, s': Sched, d: nat)
    requires Linked(s)
  {
    && d == Picked(s, time)
    && match Dequeue(s, time).1
       case None => Unserved(s, s')
       case Some(pkt) =>
         Serves(s, s', d) && pkt == s.classes[d].packets[0] && (s.classes[d].cfg.leaf || s.classes[d].cfg.r_isc.Some?)
  }

  lemma TakeQueues(s: Sched, op: Op, s': Sched, d: nat, c: nat)
    requires Linked(s) && op.Take? && Taking(s, op.time, s', d)
    ensures Grows(s, s') && QueueMoves(s, op, s', c)
  {
    if Dequeue(s, op.time).1.Some? {
      assert s.classes[d].packets == [s.classes[d].packets[0]] + s.classes[d].packets[1..];
    }
  }

  lemma TakeBytes(s: Sched, op: Op, s': Sched, d: nat, a: nat)
    requires Linked(s) && op.Take? && Taking(s, op.time, s', d)
    ensures BytesMove(s, op, s', a)
  {
    var r := Dequeue(s, op.time).1;
    if r.Some? {
      assert TotalLen([r.value]) == r.value.len;
    }
  }

  lemma TakeMoves(s: Sched, op: Op, c: nat)
    requires Linked(s) && op.Take?
    requires var (s', r) := Dequeue(s, op.time);
      if r.Some? then Dequeues(s, s', r, Picked(s, op.time), op.time) else Unserved(s, s')
    ensures Moves(s, op, Apply(s, op), c)
  {
    var s', d := Apply(s, op), Picked(s, op.time);
    assert Taking(s, op.time, s', d);
    TakeQueues(s, op, s', d, c);
    TakeBytes(s, op, s', d, c);
  }

  lemma CreateMoves(s: Sched, op: Op, c: nat)
    requires Linked(s) && op.Create?
    ensures Moves(s, op, Apply(s, op), c)
  {
    var s' := Apply(s, op);
    if s' != s {
      assert s'.classes[..|s.classes|] == s.classes;
    }
  }

  // Every operation, whatever its arguments, moves packets at the head and tail of queues only, and
  // credits senders and their ancestors. Only leaves and real-time classes send.
  lemma {:induction false} StepMoves(s: Sched, op: Op, c: nat)
    requires SchedInv(s)
    ensures Linked(s) && Moves(s, op, Apply(s, op), c)
  {
    DequeueReady(s);
    match op
    case Create(_, _, _, _, _) =>
      CreateMoves(s, op, c);
    case Put(d, pkt, time) =>
      EnqueueKeeps(s, d, pkt, time);
      PutMoves(s, op, c);
    case Take(time) =>
      DequeueKeeps(s, time);
      TakeMoves(s, op, c);
  }

  /// ## Runs

  // What a class has accepted is what it has sent, in order, followed by what it still queues.
  lemma {:induction false} Conservation(s: Sched, ops: seq<Op>, c: nat)
    requires SchedInv(s)
    ensures AllLinked(s, ops)
    ensures QueueOf(s, c) + Accepted(s, ops, c) == Sent(s, ops, c) + QueueOf(Run(s, ops), c)
    decreases |ops|
  {
    if ops == [] {
      DequeueReady(s);
    } else {
      var s1 := Apply(s, ops[0]);
      StepMoves(s, ops[0], c);
      StepKeeps(s, ops[0]);
      Conservation(s1, ops[1..], c);
      ConcatMoves(QueueOf(s, c), AcceptedBy(s, ops[0], c), SentBy(s, ops[0], c), QueueOf(s1, c),
                  Accepted(s1, ops[1..], c), Sent(s1, ops[1..], c), QueueOf(Run(s, ops), c));
    }
  }

  lemma ConcatMoves<T>(q: seq<T>, a: seq<T>, b: seq<T>, q1: seq<T>, a': seq<T>, b': seq<T>, q2: seq<T>)
    requires q + a == b + q1 && q1 + a' == b' + q2
    ensures q + (a + a') == (b + b') + q2
  {
    assert q + (a + a') == (q + a) + a';
    assert (b + q1) + a' == b + (q1 + a');
    assert b + (b' + q2) == (b + b') + q2;
  }

  /// ## Bytes credited over a run

  // The bytes sent by the classes below n that are under a.
  ghost function SentUnder(cs: seq<Class>, n: nat, s: Sched, ops: seq<Op>, a: nat): nat
    requires Forest(cs) && n <= |cs| && AllLinked(s, ops)
  {
    if n == 0 then 0
    else SentUnder(cs, n - 1, s, ops, a) + if Under(cs, n - 1, a) then TotalLen(Sent(s, ops, n - 1)) else 0
  }

  ghost function StepUnder(cs: seq<Class>, n: nat, s: Sched, op: Op, a: nat): nat
    requires Forest(cs) && n <= |cs| && Linked(s)
  {
    if n == 0 then 0
    else StepUnder(cs, n - 1, s, op, a) + if Under(cs, n - 1, a) then TotalLen(SentBy(s, op, n - 1)) else 0
  }

  lemma {:induction false} SentUnderSplit(cs: seq<Class>, n: nat, s: Sched, ops: seq<Op>, a: nat)
    requires Forest(cs) && n <= |cs| && AllLinked(s, ops) && ops != []
    ensures SentUnder(cs, n, s, ops, a)
         == StepUnder(cs, n, s, ops[0], a) + SentUnder(cs, n, Apply(s, ops[0]), ops[1..], a)
  {
    if n != 0 {
      SentUnderSplit(cs, n - 1, s, ops, a);
      TotalLenConcat(SentBy(s, ops[0], n - 1), Sent(Apply(s, ops[0]), ops[1..], n - 1));
    }
  }

  lemma {:induction false} SentUnderNothing(cs: seq<Class>, n: nat, s: Sched, a: nat)
    requires Forest(cs) && n <= |cs| && Linked(s)
    ensures SentUnder(cs, n, s, [], a) == 0
  {
    if n != 0 {
      SentUnderNothing(cs, n - 1, s, a);
    }
  }

  // A single operation sends from at most one class.
  lemma {:induction false} StepUnderOne(cs: seq<Class>, n: nat, s: Sched, op: Op, a: nat)
    requires Forest(cs) && n <= |cs| && Linked(s)
    ensures StepUnder(cs, n, s, op, a) ==
      if op.Take? && Picked(s, op.time) < n && Under(cs, Picked(s, op.time), a)
      then TotalLen(SentBy(s, op, Picked(s, op.time))) else 0
  {
    if n != 0 {
      StepUnderOne(cs, n - 1, s, op, a);
    }
  }

  lemma StepUnderBytes(s: Sched, op: Op, final: Sched, a: nat)
    requires SchedInv(s) && Forest(final.classes) && Grows(s, final) && ROOT < a < |final.classes|
    ensures Linked(s)
    ensures BytesOf(Apply(s, op), a) == BytesOf(s, a) + StepUnder(final.classes, |final.classes|, s, op, a)
  {
    StepMoves(s, op, a);
    if op.Take? {
      StepMoves(s, op, Picked(s, op.time));
    }
    CreditsGrow(s, op, final, a);
  }

  // What an operation credits in the classes there are is what the final ones attribute to it.
  lemma CreditsGrow(s: Sched, op: Op, final: Sched, a: nat)
    requires Linked(s) && Forest(final.classes) && Grows(s, final) && ROOT < a < |final.classes|
    requires op.Take? && SentBy(s, op, Picked(s, op.time)) != [] ==> Picked(s, op.time) < |s.classes|
    ensures var d := if op.Take? then Picked(s, op.time) else 0;
      StepUnder(final.classes, |final.classes|, s, op, a)
        == if op.Take? && Credits(s, d, a) then TotalLen(SentBy(s, op, d)) else 0
  {
    StepUnderOne(final.classes, |final.classes|, s, op, a);
    if op.Take? {
      var d := Picked(s, op.time);
      if d < |s.classes| {
        UnderGrows(s.classes, final.classes, d, a);
        if Under(final.classes, d, a) {
          UnderOrder(final.classes, d, a);
        }
      } else {
        assert SentBy(s, op, d) == [];
      }
    }
  }

  lemma FirstStep(s: Sched, ops: seq<Op>, final: Sched)
    requires SchedInv(s) && ops != [] && AllLinked(s, ops) && Grows(Run(s, ops), final)
    ensures SchedInv(Apply(s, ops[0])) && Grows(s, final)
  {
    StepKeeps(s, ops[0]);
    RunKeeps(s, ops);
    GrowsThen(s, Run(s, ops), final);
  }

  // Over any run a class with a parent is credited with exactly the bytes sent by the classes under it.
  lemma {:induction false} BytesConserved(s: Sched, ops: seq<Op>, final: Sched, a: nat)
    requires SchedInv(s) && AllLinked(s, ops)
    requires Forest(final.classes) && Grows(Run(s, ops), final) && ROOT < a < |final.classes|
    ensures BytesOf(Run(s, ops), a) == BytesOf(s, a) + SentUnder(final.classes, |final.classes|, s, ops, a)
    decreases |ops|
  {
    if ops == [] {
      SentUnderNothing(final.classes, |final.classes|, s, a);
    } else {
      FirstStep(s, ops, final);
      StepUnderBytes(s, ops[0], final, a);
      BytesConserved(Apply(s, ops[0]), ops[1..], final, a);
      SentUnderSplit(final.classes, |final.classes|, s, ops, a);
    }
  }
}
