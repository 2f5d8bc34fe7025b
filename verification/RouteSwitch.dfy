/**
 The two-table route switch. The control thread keeps two copies of the route table; forwarding
 threads read one of them through counted references. An update writes the copy that nobody
 reads, announces it to every thread, waits until the other copy has no reader left, and writes
 that one too. This module models every interleaving of the control thread with any number of
 forwarding threads, as steps on one state.
 */
module RouteSwitch {
  import opened Basics

  datatype Leaf = Leaf(nhop: nat, ifindex: nat)

  type Routes = map<(nat, nat), Leaf>

  datatype RouteOp = Add(ip: nat, masklen: nat, leaf: Leaf) | Del(ip: nat, masklen: nat)

  function ApplyOp(r: Routes, op: RouteOp): Routes {
    match op
    case Add(ip, masklen, leaf) => r[(ip, masklen) := leaf]
    case Del(ip, masklen) => r - {(ip, masklen)}
  }

  // The routes after a history of updates.
  function After(hist: seq<RouteOp>): Routes {
    if hist == [] then map[] else ApplyOp(After(hist[..|hist| - 1]), hist[|hist| - 1])
  }

  // What an update means: afterwards its own prefix has a route if it was added, which is then the one
  // given, and every other prefix, with whatever mask length, is as it was.
  ghost predicate Updated(was: Routes, now: Routes, op: RouteOp) {
    && ((op.ip, op.masklen) in now <==> op.Add?)
    && (op.Add? ==> now[(op.ip, op.masklen)] == op.leaf)
    && forall ip, masklen {:trigger (ip, masklen) in now} {:trigger (ip, masklen) in was} ::
      (ip, masklen) != (op.ip, op.masklen) ==>
        && ((ip, masklen) in now <==> (ip, masklen) in was)
        && ((ip, masklen) in was ==> now[(ip, masklen)] == was[(ip, masklen)])
  }

  lemma ApplyUpdates(r: Routes, op: RouteOp)
    ensures Updated(r, ApplyOp(r, op), op)
  {
  }

  // Number i is the last operation of the history on this prefix.
  ghost predicate LastOn(hist: seq<RouteOp>, i: nat, ip: nat, masklen: nat) {
    && i < |hist| && hist[i].ip == ip && hist[i].masklen == masklen
    && forall j :: i < j < |hist| ==> hist[j].ip != ip || hist[j].masklen != masklen
  }

  // After a history a prefix has a route if and only if the last operation on it added one, and then
  // that one.
  lemma {:induction false} AfterIsLast(hist: seq<RouteOp>, ip: nat, masklen: nat)
    ensures (ip, masklen) in After(hist) <==> exists i: nat :: LastOn(hist, i, ip, masklen) && hist[i].Add?
    ensures forall i: nat :: LastOn(hist, i, ip, masklen) && hist[i].Add? ==>
      (ip, masklen) in After(hist) && After(hist)[(ip, masklen)] == hist[i].leaf
  {
    if hist != [] {
      var n := |hist| - 1;
      AfterIsLast(hist[..n], ip, masklen);
      if hist[n].ip == ip && hist[n].masklen == masklen {
        assert LastOn(hist, n, ip, masklen);
        assert forall i: nat :: LastOn(hist, i, ip, masklen) ==> i == n;
      } else {
        forall i: nat ensures LastOn(hist, i, ip, masklen) == LastOn(hist[..n], i, ip, masklen) {
          assert i < n ==> hist[..n][i] == hist[i];
        }
      }
    }
  }

  datatype TableId = Table1 | Table2

  function Other(id: TableId): TableId {
    if id == Table1 then Table2 else Table1
  }

  // A table in the middle of a write has no content that a reader could make sense of.
  datatype Content = Torn(before: Routes) | Whole(routes: Routes)

  // A counted reference to a table. The version, the number of updates the table contained when
  // the reference was announced, is for the statements below; no step depends on it.
  datatype Ref = Ref(id: TableId, version: nat)

  datatype Msg = UseTable(ref: Ref) | Unrelated

  // A forwarding thread: the table it reads, the messages sent to it, and the announcement it has
  // received but not yet acted on.
  datatype Thread = Thread(held: Ref, inbox: seq<Msg>, received: Option<Ref>)

  datatype Control =
    | Idle
    | WritingStandby(op: RouteOp)
    | Sending(op: RouteOp, next: nat)
    | Spinning(op: RouteOp)
    | WritingOld(op: RouteOp)
    | Panicked

  datatype Sys = Sys(table1: Content, table2: Content, which: TableId, ctl: Control,
                     threads: seq<Thread>, hist: seq<RouteOp>)

  function Table(s: Sys, id: TableId): Content {
    if id == Table1 then s.table1 else s.table2
  }

  function SetTable(s: Sys, id: TableId, c: Content): Sys {
    if id == Table1 then s.(table1 := c) else s.(table2 := c)
  }

  /// ## Reference counts

  function MsgRefs(m: Msg, id: TableId): nat {
    if m.UseTable? && m.ref.id == id then 1 else 0
  }

  function InboxRefs(inbox: seq<Msg>, id: TableId): nat {
    if inbox == [] then 0 else MsgRefs(inbox[0], id) + InboxRefs(inbox[1..], id)
  }

  function ThreadRefs(t: Thread, id: TableId): nat {
    (if t.held.id == id then 1 else 0) + InboxRefs(t.inbox, id)
      + if t.received.Some? && t.received.value.id == id then 1 else 0
  }

  function AllRefs(ts: seq<Thread>, id: TableId): nat {
    if ts == [] then 0 else ThreadRefs(ts[0], id) + AllRefs(ts[1..], id)
  }

  // The control thread's own reference, the threads' references, and the message being broadcast.
  function Refcount(s: Sys, id: TableId): nat {
    1 + AllRefs(s.threads, id) + if s.ctl.Sending? && s.which == id then 1 else 0
  }

  // No reference of the thread is to this table: not the one it holds, nor any on its way to it.
  ghost predicate NotAmong(t: Thread, id: TableId) {
    && t.held.id != id && (t.received.Some? ==> t.received.value.id != id)
    && forall i :: 0 <= i < |t.inbox| && t.inbox[i].UseTable? ==> t.inbox[i].ref.id != id
  }

  // The control thread's reference is the only one exactly if no thread has any and none is being sent.
  ghost predicate Exclusive(s: Sys, id: TableId) {
    !(s.ctl.Sending? && s.which == id) && forall t :: 0 <= t < |s.threads| ==> NotAmong(s.threads[t], id)
  }

  lemma {:induction false} InboxCounts(inbox: seq<Msg>, id: TableId)
    ensures InboxRefs(inbox, id) == 0 <==> forall i :: 0 <= i < |inbox| && inbox[i].UseTable? ==> inbox[i].ref.id != id
  {
    if inbox != [] {
      InboxCounts(inbox[1..], id);
      assert forall i :: 1 <= i < |inbox| ==> inbox[i] == inbox[1..][i - 1];
    }
  }

  lemma {:induction false} ThreadsCount(ts: seq<Thread>, id: TableId)
    ensures AllRefs(ts, id) == 0 <==> forall t :: 0 <= t < |ts| ==> NotAmong(ts[t], id)
  {
    if ts != [] {
      InboxCounts(ts[0].inbox, id);
      ThreadsCount(ts[1..], id);
      assert forall t :: 1 <= t < |ts| ==> ts[t] == ts[1..][t - 1];
    }
  }

  lemma RefcountIsExact(s: Sys, id: TableId)
    ensures Refcount(s, id) == 1 <==> Exclusive(s, id)
  {
    ThreadsCount(s.threads, id);
  }

  /// ## Steps

  datatype Step =
    | BeginUpdate(op: RouteOp)
    | EndStandby
    | SendNext
    | EndBroadcast
    | TrySpin
    | EndUpdate
    | SendUnrelated(t: nat)
    | Receive(t: nat)
    | Switch(t: nat)

  predicate Enabled(s: Sys, step: Step) {
    match step
    case BeginUpdate(_) => s.ctl == Idle
    case EndStandby => s.ctl.WritingStandby?
    case SendNext => s.ctl.Sending? && s.ctl.next < |s.threads|
    case EndBroadcast => s.ctl.Sending? && s.ctl.next >= |s.threads|
    case TrySpin => s.ctl.Spinning?
    case EndUpdate => s.ctl.WritingOld?
    case SendUnrelated(t) => s.ctl == Idle && t < |s.threads|
    case Receive(t) => t < |s.threads| && s.threads[t].received == None && s.threads[t].inbox != []
    case Switch(t) => t < |s.threads| && s.threads[t].received.Some?
  }

  function Deliver(t: Thread, m: Msg): Thread {
    t.(inbox := t.inbox + [m])
  }

  // Taking a message off the channel: announcements are acted on next, others are done with.
  function ReceiveOne(t: Thread): Thread
    requires t.inbox != []
  {
    t.(inbox := t.inbox[1..], received := if t.inbox[0].UseTable? then Some(t.inbox[0].ref) else None)
  }

  // Replacing the held table drops the reference to the old one.
  function SwitchOver(t: Thread): Thread
    requires t.received.Some?
  {
    t.(held := t.received.value, received := None)
  }

  // Writing a table starts from its content and leaves it torn until the write is complete.
  function BeginWrite(s: Sys, id: TableId): Sys {
    match Table(s, id)
    case Whole(routes) => SetTable(s, id, Torn(routes))
    case Torn(_) => s
  }

  function EndWrite(s: Sys, id: TableId, op: RouteOp): Sys {
    match Table(s, id)
    case Torn(before) => SetTable(s, id, Whole(ApplyOp(before, op)))
    case Whole(_) => s
  }

  function Do(s: Sys, step: Step): Sys
    requires Enabled(s, step)
  {
    match step
    case BeginUpdate(op) =>
      // exclusive access to the standby table is taken for granted here
      if Refcount(s, Other(s.which)) != 1 then s.(ctl := Panicked)
      else BeginWrite(s, Other(s.which)).(ctl := WritingStandby(op))
    case EndStandby =>
      EndWrite(s, Other(s.which), s.ctl.op).(which := Other(s.which), ctl := Sending(s.ctl.op, 0),
        hist := s.hist + [s.ctl.op])
    case SendNext =>
      var k := s.ctl.next;
      s.(threads := s.threads[k := Deliver(s.threads[k], UseTable(Ref(s.which, |s.hist|)))],
        ctl := Sending(s.ctl.op, k + 1))
    case EndBroadcast =>
      s.(ctl := Spinning(s.ctl.op))
    case TrySpin =>
      if Refcount(s, Other(s.which)) != 1 then s
      else BeginWrite(s, Other(s.which)).(ctl := WritingOld(s.ctl.op))
    case EndUpdate =>
      EndWrite(s, Other(s.which), s.ctl.op).(ctl := Idle)
    case SendUnrelated(t) =>
      s.(threads := s.threads[t := Deliver(s.threads[t], Unrelated)])
    case Receive(t) =>
      s.(threads := s.threads[t := ReceiveOne(s.threads[t])])
    case Switch(t) =>
      s.(threads := s.threads[t := SwitchOver(s.threads[t])])
  }

  // At the start every thread reads the first table and both are empty.
  ghost predicate Init(s: Sys) {
    && s.table1 == Whole(map[]) && s.table2 == Whole(map[]) && s.which == Table1 && s.ctl == Idle && s.hist == []
    && forall t :: 0 <= t < |s.threads| ==> s.threads[t] == Thread(Ref(Table1, 0), [], None)
  }

  predicate CanRun(s: Sys, steps: seq<Step>)
    decreases |steps|
  {
    steps == [] || (Enabled(s, steps[0]) && CanRun(Do(s, steps[0]), steps[1..]))
  }

  function Run(s: Sys, steps: seq<Step>): Sys
    requires CanRun(s, steps)
    decreases |steps|
  {
    if steps == [] then s else Run(Do(s, steps[0]), steps[1..])
  }

  /// ## What a step does to the counts and the channels

  // How many references to the table a step makes, less those that it drops: the message to be sent is one
  // more and every copy sent another, until the message itself is dropped; receiving moves a reference, and a
  // thread that switches drops the one to its old table.
  function Gained(s: Sys, step: Step, id: TableId): int
    requires Enabled(s, step)
  {
    match step
    case EndStandby => if s.which != id then 1 else 0
    case SendNext => if s.which == id then 1 else 0
    case EndBroadcast => if s.which == id then -1 else 0
    case Switch(t) => if s.threads[t].held.id == id then -1 else 0
    case _ => 0
  }

  lemma {:induction false} AllRefsUpdate(ts: seq<Thread>, t: nat, th: Thread, id: TableId)
    requires t < |ts|
    ensures AllRefs(ts[t := th], id) == AllRefs(ts, id) - ThreadRefs(ts[t], id) + ThreadRefs(th, id)
  {
    if t > 0 {
      AllRefsUpdate(ts[1..], t - 1, th, id);
      assert ts[t := th][1..] == ts[1..][t - 1 := th];
    } else {
      assert ts[t := th][1..] == ts[1..];
    }
  }

  lemma {:induction false} InboxMore(inbox: seq<Msg>, m: Msg, id: TableId)
    ensures InboxRefs(inbox + [m], id) == InboxRefs(inbox, id) + MsgRefs(m, id)
  {
    if inbox != [] {
      InboxMore(inbox[1..], m, id);
      assert (inbox + [m])[1..] == inbox[1..] + [m];
    }
  }

  lemma DeliverRefs(ts: seq<Thread>, t: nat, m: Msg, id: TableId)
    requires t < |ts|
    ensures AllRefs(ts[t := Deliver(ts[t], m)], id) == AllRefs(ts, id) + MsgRefs(m, id)
  {
    InboxMore(ts[t].inbox, m, id);
    AllRefsUpdate(ts, t, Deliver(ts[t], m), id);
  }

  lemma {:induction false} CountsMove(s: Sys, step: Step, id: TableId)
    requires Enabled(s, step)
    ensures Refcount(Do(s, step), id) == Refcount(s, id) + Gained(s, step, id)
  {
    match step
    case SendNext =>
      DeliverRefs(s.threads, s.ctl.next, UseTable(NewRef(s)), id);
    case SendUnrelated(t) =>
      DeliverRefs(s.threads, t, Unrelated, id);
    case Receive(t) =>
      AllRefsUpdate(s.threads, t, ReceiveOne(s.threads[t]), id);
    case Switch(t) =>
      AllRefsUpdate(s.threads, t, SwitchOver(s.threads[t]), id);
    case _ =>
  }

  // What a step sends to thread t, and what thread t takes off its channel.
  function SentBy(s: Sys, step: Step, t: nat): seq<Msg>
    requires Enabled(s, step)
  {
    match step
    case SendNext => if s.ctl.next == t then [UseTable(NewRef(s))] else []
    case SendUnrelated(u) => if u == t then [Unrelated] else []
    case _ => []
  }

  function TakenBy(s: Sys, step: Step, t: nat): seq<Msg>
    requires Enabled(s, step)
  {
    if step == Receive(t) then [s.threads[t].inbox[0]] else []
  }

  function Sent(s: Sys, steps: seq<Step>, t: nat): seq<Msg>
    requires CanRun(s, steps)
    decreases |steps|
  {
    if steps == [] then [] else SentBy(s, steps[0], t) + Sent(Do(s, steps[0]), steps[1..], t)
  }

  function Taken(s: Sys, steps: seq<Step>, t: nat): seq<Msg>
    requires CanRun(s, steps)
    decreases |steps|
  {
    if steps == [] then [] else TakenBy(s, steps[0], t) + Taken(Do(s, steps[0]), steps[1..], t)
  }

  // A channel loses nothing and keeps the order: over any run a thread takes what was in its channel and
  // was sent to it, from the first on.
  lemma {:induction false} ChannelsKeepOrder(s: Sys, steps: seq<Step>, t: nat)
    requires CanRun(s, steps) && t < |s.threads|
    ensures |Run(s, steps).threads| == |s.threads|
    ensures s.threads[t].inbox + Sent(s, steps, t) == Taken(s, steps, t) + Run(s, steps).threads[t].inbox
    decreases |steps|
  {
    if steps != [] {
      var s1 := Do(s, steps[0]);
      ChannelsKeepOrder(s1, steps[1..], t);
      assert s.threads[t].inbox + SentBy(s, steps[0], t) == TakenBy(s, steps[0], t) + s1.threads[t].inbox;
      ChannelOn(s.threads[t].inbox, SentBy(s, steps[0], t), TakenBy(s, steps[0], t), s1.threads[t].inbox,
                Sent(s1, steps[1..], t), Taken(s1, steps[1..], t), Run(s, steps).threads[t].inbox);
    }
  }

  lemma ChannelOn<T>(q: seq<T>, a: seq<T>, b: seq<T>, q1: seq<T>, a1: seq<T>, b1: seq<T>, q2: seq<T>)
    requires q + a == b + q1 && q1 + a1 == b1 + q2
    ensures q + (a + a1) == (b + b1) + q2
  {
    assert q + (a + a1) == (q + a) + a1 == b + (q1 + a1);
  }

  /// ## The invariant

  // A thread that uses table `ref` and has no announcement under way.
  ghost predicate Settled(t: Thread, ref: Ref) {
    t.held == ref && t.received == None && NoAnnouncement(t.inbox)
  }

  ghost predicate NoAnnouncement(inbox: seq<Msg>) {
    forall i :: 0 <= i < |inbox| ==> inbox[i].Unrelated?
  }

  // Exactly one message of the inbox is an announcement, of `ref`.
  ghost predicate OneAnnouncement(inbox: seq<Msg>, ref: Ref) {
    exists i :: 0 <= i < |inbox| && inbox[i] == UseTable(ref) && forall j :: 0 <= j < |inbox| && j != i ==>
      inbox[j].Unrelated?
  }

  // A thread that still uses `from` while `to` is on its way, in the channel or in its hand.
  ghost predicate Switching(t: Thread, from: Ref, to: Ref) {
    && t.held == from
    && ((t.received == None && OneAnnouncement(t.inbox, to)) || (t.received == Some(to) && NoAnnouncement(t.inbox)))
  }

  // The reference to the newest table, and to the one before.
  function NewRef(s: Sys): Ref {
    Ref(s.which, |s.hist|)
  }

  ghost function OldRef(s: Sys): Ref
    requires s.hist != []
  {
    Ref(Other(s.which), |s.hist| - 1)
  }

  ghost predicate AllSettled(s: Sys) {
    forall t :: 0 <= t < |s.threads| ==> Settled(s.threads[t], NewRef(s))
  }

  // Before thread number k the new table is announced, from k on it is not yet.
  ghost predicate AnnouncedUpTo(s: Sys, k: nat)
    requires s.hist != []
  {
    forall t :: 0 <= t < |s.threads| ==>
      if t < k then Settled(s.threads[t], NewRef(s)) || Switching(s.threads[t], OldRef(s), NewRef(s))
      else Settled(s.threads[t], OldRef(s))
  }

  ghost predicate Inv(s: Sys) {
    && Table(s, s.which) == Whole(After(s.hist))
    && var standby := Table(s, Other(s.which));
      match s.ctl
      case Idle => AllSettled(s) && standby == Whole(After(s.hist))
      case WritingStandby(_) => AllSettled(s) && standby == Torn(After(s.hist))
      case Sending(op, k) =>
        s.hist != [] && s.hist[|s.hist| - 1] == op && AnnouncedUpTo(s, k)
          && standby == Whole(After(s.hist[..|s.hist| - 1]))
      case Spinning(op) =>
        s.hist != [] && s.hist[|s.hist| - 1] == op && AnnouncedUpTo(s, |s.threads|)
          && standby == Whole(After(s.hist[..|s.hist| - 1]))
      case WritingOld(op) =>
        s.hist != [] && s.hist[|s.hist| - 1] == op && AllSettled(s) && standby == Torn(After(s.hist[..|s.hist| - 1]))
      case Panicked => false
  }

  /// ## References of the threads

  lemma {:induction false} NoAnnouncementRefs(inbox: seq<Msg>, id: TableId)
    requires NoAnnouncement(inbox)
    ensures InboxRefs(inbox, id) == 0
  {
    if inbox != [] {
      NoAnnouncementRefs(inbox[1..], id);
    }
  }

  lemma {:induction false} NoRefsAnywhere(ts: seq<Thread>, id: TableId)
    requires forall t :: 0 <= t < |ts| ==> ThreadRefs(ts[t], id) == 0
    ensures AllRefs(ts, id) == 0
  {
    if ts != [] {
      NoRefsAnywhere(ts[1..], id);
    }
  }

  lemma {:induction false} NoRefsInAny(ts: seq<Thread>, id: TableId, t: nat)
    requires AllRefs(ts, id) == 0 && t < |ts|
    ensures ThreadRefs(ts[t], id) == 0
  {
    if t > 0 {
      NoRefsInAny(ts[1..], id, t - 1);
    }
  }

  // When every thread has settled on one table, nobody refers to the other.
  lemma SettledRefs(s: Sys)
    requires AllSettled(s)
    ensures AllRefs(s.threads, Other(s.which)) == 0
  {
    forall t | 0 <= t < |s.threads| ensures ThreadRefs(s.threads[t], Other(s.which)) == 0 {
      NoAnnouncementRefs(s.threads[t].inbox, Other(s.which));
    }
    NoRefsAnywhere(s.threads, Other(s.which));
  }

  // When nobody refers to the old table, every thread has settled on the new one.
  lemma UnreferencedMeansSettled(s: Sys)
    requires s.hist != [] && AnnouncedUpTo(s, |s.threads|) && AllRefs(s.threads, Other(s.which)) == 0
    ensures AllSettled(s)
  {
    forall t | 0 <= t < |s.threads| ensures Settled(s.threads[t], NewRef(s)) {
      NoRefsInAny(s.threads, Other(s.which), t);
    }
  }

  /// ## Steps keep the invariant

  lemma DeliverAnnouncement(t: Thread, from: Ref, to: Ref)
    requires Settled(t, from)
    ensures Switching(Deliver(t, UseTable(to)), from, to)
  {
    var inbox := t.inbox + [UseTable(to)];
    assert inbox[|t.inbox|] == UseTable(to);
  }

  lemma DeliverUnrelated(t: Thread, ref: Ref)
    requires Settled(t, ref)
    ensures Settled(Deliver(t, Unrelated), ref)
  {
  }

  lemma ReceiveSwitching(t: Thread, from: Ref, to: Ref)
    requires Switching(t, from, to) && t.received == None && t.inbox != []
    ensures Switching(ReceiveOne(t), from, to)
  {
    var i :| 0 <= i < |t.inbox| && t.inbox[i] == UseTable(to) && forall j :: 0 <= j < |t.inbox| && j != i ==>
      t.inbox[j].Unrelated?;
    if i > 0 {
      assert t.inbox[1..][i - 1] == UseTable(to);
    }
  }

  lemma ThreadStepKeeps(s: Sys, step: Step)
    requires Inv(s) && Enabled(s, step) && (step.Receive? || step.Switch? || step.SendUnrelated?)
    ensures Inv(Do(s, step))
  {
    var s' := Do(s, step);
    var t := step.t;
    match step {
      case SendUnrelated(_) =>
        DeliverUnrelated(s.threads[t], NewRef(s));
      case Receive(_) =>
        if s.hist != [] && Switching(s.threads[t], OldRef(s), NewRef(s)) {
          ReceiveSwitching(s.threads[t], OldRef(s), NewRef(s));
        }
      case Switch(_) =>
    }
  }

  lemma ControlStepKeeps(s: Sys, step: Step)
    requires Inv(s) && Enabled(s, step) && !step.Receive? && !step.Switch? && !step.SendUnrelated?
    ensures Inv(Do(s, step))
  {
    match step {
      case BeginUpdate(_) =>
        SettledRefs(s);
      case EndStandby =>
        var s' := Do(s, step);
        assert s'.hist[..|s'.hist| - 1] == s.hist;
        assert Other(s'.which) == s.which;
      case SendNext =>
        DeliverAnnouncement(s.threads[s.ctl.next], OldRef(s), NewRef(s));
      case EndBroadcast =>
      case TrySpin =>
        if Refcount(s, Other(s.which)) == 1 {
          UnreferencedMeansSettled(s);
        }
      case EndUpdate =>
    }
  }

  lemma {:induction false} StepKeepsInv(s: Sys, step: Step)
    requires Inv(s) && Enabled(s, step)
    ensures Inv(Do(s, step))
  {
    if step.Receive? || step.Switch? || step.SendUnrelated? {
      ThreadStepKeeps(s, step);
    } else {
      ControlStepKeeps(s, step);
    }
  }

  /// ## Safety

  lemma {:induction false} InitInv(s: Sys)
    requires Init(s)
    ensures Inv(s)
  {
  }

  // Every thread reads a complete table: the routes after all updates so far, or after all but
  // the last. The same holds for every table it is about to switch to.
  lemma {:induction false} ReadersSeeHistory(s: Sys, t: nat)
    requires Inv(s) && t < |s.threads|
    ensures var ref := s.threads[t].held;
      && |s.hist| - 1 <= ref.version <= |s.hist|
      && Table(s, ref.id) == Whole(After(s.hist[..ref.version]))
    ensures s.threads[t].received.Some? ==> s.threads[t].received.value == NewRef(s)
    ensures Table(s, s.which) == Whole(After(s.hist))
  {
    assert s.hist[..|s.hist|] == s.hist;
  }

  // A table is written only while no thread, channel or broadcast refers to it.
  lemma {:induction false} WritesAreExclusive(s: Sys, id: TableId)
    requires Inv(s) && Table(s, id).Torn?
    ensures Refcount(s, id) == 1 && Exclusive(s, id)
  {
    assert id == Other(s.which);
    SettledRefs(s);
    RefcountIsExact(s, id);
  }

  // Beginning an update never finds the standby table shared.
  lemma {:induction false} StandbyIsFree(s: Sys)
    requires Inv(s) && s.ctl == Idle
    ensures Refcount(s, Other(s.which)) == 1
  {
    SettledRefs(s);
  }

  // No step takes a thread back to an older table.
  lemma {:induction false} NeverBackwards(s: Sys, step: Step, t: nat)
    requires Inv(s) && Enabled(s, step) && t < |s.threads|
    ensures t < |Do(s, step).threads| == |s.threads|
    ensures s.threads[t].held.version <= Do(s, step).threads[t].held.version
  {
    ReadersSeeHistory(s, t);
  }

  /// ## An update is complete when it ends

  lemma {:induction false} UpdateComplete(s: Sys)
    requires Inv(s) && s.ctl.WritingOld?
    ensures var s' := Do(s, EndUpdate);
      && s'.ctl == Idle && s'.hist == s.hist && s'.which == s.which
      && s'.table1 == s'.table2 == Whole(After(s.hist))
      && (forall t :: 0 <= t < |s.threads| ==> s'.threads[t].held == NewRef(s'))
      && Refcount(s', Other(s'.which)) == 1
  {
    SettledRefs(Do(s, EndUpdate));
  }

  // Which updates the history records: one more for each standby table written, none otherwise.
  lemma {:induction false} HistoryGrows(s: Sys, step: Step)
    requires Inv(s) && Enabled(s, step)
    ensures Do(s, step).hist == s.hist + if step.EndStandby? then [s.ctl.op] else []
    ensures step.EndStandby? ==> After(Do(s, step).hist) == ApplyOp(After(s.hist), s.ctl.op)
  {
    if step.EndStandby? {
      assert (s.hist + [s.ctl.op])[..|s.hist|] == s.hist;
    }
  }

  /// ## The wait for the old table ends

  // Two units for each message in a channel, one for each announcement in hand.
  function Work(ts: seq<Thread>): nat {
    if ts == [] then 0 else 2 * |ts[0].inbox| + (if ts[0].received.Some? then 1 else 0) + Work(ts[1..])
  }

  lemma {:induction false} WorkUpdate(ts: seq<Thread>, t: nat, th: Thread)
    requires t < |ts|
    ensures Work(ts[t := th]) == Work(ts)
      - 2 * |ts[t].inbox| - (if ts[t].received.Some? then 1 else 0)
      + 2 * |th.inbox| + (if th.received.Some? then 1 else 0)
  {
    if t > 0 {
      WorkUpdate(ts[1..], t - 1, th);
      assert ts[t := th][1..] == ts[1..][t - 1 := th];
    } else {
      assert ts[t := th][1..] == ts[1..];
    }
  }

  // A step of a forwarding thread always leaves less work.
  lemma {:induction false} ThreadStepsWork(s: Sys, step: Step)
    requires Enabled(s, step) && (step.Receive? || step.Switch?)
    ensures Work(Do(s, step).threads) < Work(s.threads)
  {
    WorkUpdate(s.threads, step.t, Do(s, step).threads[step.t]);
  }

  // While the control thread waits, either the old table is free or some thread can take a step.
  lemma {:induction false} WaitingMeansWork(s: Sys) returns (step: Step)
    requires Inv(s) && s.ctl.Spinning? && Refcount(s, Other(s.which)) != 1
    ensures Enabled(s, step) && (step.Receive? || step.Switch?)
  {
    if AllSettled(s) {
      SettledRefs(s);
    }
    var t: nat :| t < |s.threads| && !Settled(s.threads[t], NewRef(s));
    step := if s.threads[t].received.Some? then Switch(t) else Receive(t);
  }

  function ThreadSteps(steps: seq<Step>): nat {
    if steps == [] then 0 else (if steps[0].Receive? || steps[0].Switch? then 1 else 0) + ThreadSteps(steps[1..])
  }

  // However the steps interleave, the wait lasts for no more thread steps than there was work at
  // its start; after that many, the next attempt succeeds.
  lemma {:induction false} WaitIsBounded(s: Sys, steps: seq<Step>)
    requires Inv(s) && s.ctl.Spinning? && CanRun(s, steps) && Run(s, steps).ctl == s.ctl
    requires forall i :: 0 <= i < |steps| ==> steps[i].Receive? || steps[i].Switch? || steps[i].TrySpin?
    ensures ThreadSteps(steps) + Work(Run(s, steps).threads) <= Work(s.threads)
    ensures ThreadSteps(steps) == Work(s.threads) ==> Refcount(Run(s, steps), Other(s.which)) == 1
    decreases |steps|
  {
    if steps == [] {
      if Work(s.threads) == 0 && Refcount(s, Other(s.which)) != 1 {
        var step := WaitingMeansWork(s);
        ThreadStepsWork(s, step);
      }
    } else {
      var s1 := Do(s, steps[0]);
      StepKeepsInv(s, steps[0]);
      if s1.ctl.Spinning? {
        if !steps[0].TrySpin? {
          ThreadStepsWork(s, steps[0]);
        }
        WaitIsBounded(s1, steps[1..]);
      } else {
        WritingOldStays(s1, steps[1..]);
      }
    }
  }

  // Threads alone do not end a write.
  lemma {:induction false} WritingOldStays(s: Sys, steps: seq<Step>)
    requires s.ctl.WritingOld? && CanRun(s, steps)
    requires forall i :: 0 <= i < |steps| ==> steps[i].Receive? || steps[i].Switch? || steps[i].TrySpin?
    ensures Run(s, steps).ctl == s.ctl
    decreases |steps|
  {
    if steps != [] {
      WritingOldStays(Do(s, steps[0]), steps[1..]);
    }
  }

  /// ## All interleavings

  lemma StepKeepsThreads(s: Sys, step: Step)
    requires Inv(s) && Enabled(s, step)
    ensures |Do(s, step).threads| == |s.threads| && s.hist <= Do(s, step).hist
  {
    HistoryGrows(s, step);
  }

  lemma {:induction false} RunKeepsInv(s: Sys, steps: seq<Step>)
    requires Inv(s) && CanRun(s, steps)
    ensures var s' := Run(s, steps); Inv(s') && |s'.threads| == |s.threads| && s.hist <= s'.hist
    decreases |steps|
  {
    if steps != [] {
      StepKeepsInv(s, steps[0]);
      StepKeepsThreads(s, steps[0]);
      RunKeepsInv(Do(s, steps[0]), steps[1..]);
    }
  }

  lemma {:induction false} RunNeverBackwards(s: Sys, steps: seq<Step>, t: nat)
    requires Inv(s) && CanRun(s, steps) && t < |s.threads|
    ensures |Run(s, steps).threads| == |s.threads| && s.threads[t].held.version <= Run(s, steps).threads[t].held.version
    decreases |steps|
  {
    RunKeepsInv(s, steps);
    if steps != [] {
      StepKeepsInv(s, steps[0]);
      NeverBackwards(s, steps[0], t);
      StepKeepsThreads(s, steps[0]);
      RunNeverBackwards(Do(s, steps[0]), steps[1..], t);
    }
  }

  // From any state with the invariant, such as the initial one, however the threads interleave: the control thread
  // never panics, no thread ever reads a torn or partly updated table, and no thread ever goes back.
  lemma {:induction false} EveryInterleaving(s: Sys, steps: seq<Step>)
    requires Inv(s) && CanRun(s, steps)
    ensures var s' := Run(s, steps);
      && Inv(s') && s'.ctl != Panicked && |s'.threads| == |s.threads| && s.hist <= s'.hist
      && forall t :: 0 <= t < |s.threads| ==>
        && s.threads[t].held.version <= s'.threads[t].held.version <= |s'.hist|
        && Table(s', s'.threads[t].held.id) == Whole(After(s'.hist[..s'.threads[t].held.version]))
  {
    var s' := Run(s, steps);
    RunKeepsInv(s, steps);
    forall t | 0 <= t < |s.threads|
      ensures s.threads[t].held.version <= s'.threads[t].held.version <= |s'.hist|
      ensures Table(s', s'.threads[t].held.id) == Whole(After(s'.hist[..s'.threads[t].held.version]))
    {
      RunNeverBackwards(s, steps, t);
      ReadersSeeHistory(s', t);
    }
  }
}
