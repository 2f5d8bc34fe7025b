/**
 The control thread's side of the route switch as code: one route is added or deleted in place in
 both tables, with the forwarding threads running in between. Each action is one of the steps of
 the interleaving model, so the invariant proved there carries the proof here.
 */
module RouteControl {
  import opened Basics
  import opened RouteSwitch

  class R2 {
    var table1: Content
    var table2: Content
    var which: TableId
    var threads: seq<Thread>
    ghost var ctl: Control
    var hist: seq<RouteOp>  // only recorded: no decision depends on it

    ghost function View(): Sys
      reads this
    {
      Sys(table1, table2, which, ctl, threads, hist)
    }

    constructor (nthreads: nat)
      ensures Init(View()) && |threads| == nthreads
    {
      table1, table2 := Whole(map[]), Whole(map[]);
      which := Table1;
      threads := seq(nthreads, _ => Thread(Ref(Table1, 0), [], None));
      ctl, hist := Idle, [];
    }

    // One step of forwarding thread t, if it has one to take.
    method ThreadStep(t: nat)
      requires Inv(View()) && t < |threads|
      modifies this`threads
      ensures Inv(View()) && |threads| == |old(threads)| && Work(threads) <= Work(old(threads))
      ensures old(threads)[t].received.Some? || old(threads)[t].inbox != [] ==> Work(threads) < Work(old(threads))
    {
      ghost var s := View();
      if threads[t].received.Some? {
        threads := threads[t := SwitchOver(threads[t])];
        StepKeepsInv(s, Switch(t));
        ThreadStepsWork(s, Switch(t));
      } else if threads[t].inbox != [] {
        threads := threads[t := ReceiveOne(threads[t])];
        StepKeepsInv(s, Receive(t));
        ThreadStepsWork(s, Receive(t));
      }
    }

    // Any number of steps of any forwarding threads.
    method Interfere()
      requires Inv(View())
      modifies this`threads
      ensures Inv(View()) && |threads| == |old(threads)| && Work(threads) <= Work(old(threads))
    {
      var n: nat := *;
      while n > 0
        invariant Inv(View()) && |threads| == |old(threads)| && Work(threads) <= Work(old(threads))
      {
        var t: nat := *;
        if t < |threads| {
          ThreadStep(t);
        }
        n := n - 1;
      }
    }

    // The threads keep receiving: some thread that has something to do does it.
    method LetThreadsRun()
      requires Inv(View()) && ctl.Spinning? && Refcount(View(), Other(which)) != 1
      modifies this`threads
      ensures Inv(View()) && |threads| == |old(threads)| && Work(threads) < Work(old(threads))
    {
      ghost var step := WaitingMeansWork(View());
      var t: nat :| t < |threads| && (threads[t].received.Some? || threads[t].inbox != []);
      ThreadStep(t);
      Interfere();
    }

    // Whether no one but this table's owner refers to it.
    method GetMut(id: TableId) returns (exclusive: bool)
      requires Inv(View()) && !ctl.Sending?
      ensures exclusive <==> Refcount(View(), id) == 1
    {
      exclusive := AllRefs(threads, id) == 0;
    }

    method Broadcast(op: RouteOp)
      requires Inv(View()) && ctl == Sending(op, 0)
      modifies this`threads, this`ctl
      ensures Inv(View()) && ctl == Spinning(op) && |threads| == |old(threads)|
    {
      var k := 0;
      while k < |threads|
        invariant Inv(View()) && ctl == Sending(op, k) && |threads| == |old(threads)| && k <= |threads|
      {
        ghost var s := View();
        threads := threads[k := Deliver(threads[k], UseTable(Ref(which, |hist|)))];
        ctl := Sending(op, k + 1);
        StepKeepsInv(s, SendNext);
        Interfere();
        k := k + 1;
      }
      ghost var s := View();
      ctl := Spinning(op);
      StepKeepsInv(s, EndBroadcast);
    }

    // The exclusive access to a table for the time of a write.
    method BeginWriting(id: TableId)
      requires Table(View(), id).Whole?
      modifies this`table1, this`table2
      ensures View() == BeginWrite(old(View()), id)
    {
      match id {
        case Table1 => table1 := Torn(table1.routes);
        case Table2 => table2 := Torn(table2.routes);
      }
    }

    method EndWriting(id: TableId, op: RouteOp)
      requires Table(View(), id).Torn?
      modifies this`table1, this`table2
      ensures View() == EndWrite(old(View()), id, op)
    {
      match id {
        case Table1 => table1 := Whole(ApplyOp(table1.before, op));
        case Table2 => table2 := Whole(ApplyOp(table2.before, op));
      }
    }

    // The write to the table that nobody reads begins,
    method OpenStandby(standby: TableId, op: RouteOp)
      requires Inv(View()) && ctl == Idle && standby == Other(which)
      modifies this`table1, this`table2, this`ctl
      ensures Inv(View()) && ctl == WritingStandby(op)
    {
      ghost var s := View();
      StandbyIsFree(s);
      var free := GetMut(standby);
      assert free;  // so unwrapping the access cannot fail
      BeginWriting(standby);
      ctl := WritingStandby(op);
      StepKeepsInv(s, BeginUpdate(op));
    }

    // and ends with that table as the current one.
    method CloseStandby(standby: TableId, op: RouteOp)
      requires Inv(View()) && ctl == WritingStandby(op) && standby == Other(which)
      modifies this`table1, this`table2, this`ctl, this`which, this`hist
      ensures Inv(View()) && ctl == Sending(op, 0) && which == standby && hist == old(hist) + [op]
    {
      ghost var s := View();
      EndWriting(standby, op);
      which := standby;
      ctl, hist := Sending(op, 0), hist + [op];
      StepKeepsInv(s, EndStandby);
    }

    // First the table that nobody reads is updated and announced.
    method UpdateStandby(standby: TableId, op: RouteOp)
      requires Inv(View()) && ctl == Idle && standby == Other(which)
      modifies this
      ensures Inv(View()) && ctl == Spinning(op) && which == standby && hist == old(hist) + [op]
      ensures |threads| == |old(threads)|
    {
      OpenStandby(standby, op);
      Interfere();
      CloseStandby(standby, op);
      Interfere();
      Broadcast(op);
    }

    // Then the other table, as soon as its last reader is gone.
    method UpdateOld(id: TableId, op: RouteOp)
      requires Inv(View()) && ctl == Spinning(op) && id == Other(which)
      modifies this`table1, this`table2, this`threads, this`ctl
      ensures Inv(View()) && ctl == Idle && |threads| == |old(threads)|
    {
      while true
        invariant Inv(View()) && ctl == Spinning(op) && |threads| == |old(threads)|
        decreases Work(threads)
      {
        var exclusive := GetMut(id);
        if exclusive {
          ghost var s := View();
          BeginWriting(id);
          ctl := WritingOld(op);
          StepKeepsInv(s, TrySpin);
          Interfere();
          s := View();
          EndWriting(id, op);
          ctl := Idle;
          StepKeepsInv(s, EndUpdate);
          break;
        }
        LetThreadsRun();
      }
    }

    method AddOrDelRoute(op: RouteOp)
      requires Inv(View()) && ctl == Idle
      modifies this
      ensures Inv(View()) && ctl == Idle
      ensures hist == old(hist) + [op] && which == Other(old(which)) && |threads| == |old(threads)|
      ensures Table(old(View()), old(which)).Whole? && table1 == table2 && table1.Whole?
        && Updated(Table(old(View()), old(which)).routes, table1.routes, op)
      ensures forall t :: 0 <= t < |threads| ==> threads[t].held == NewRef(View())
      ensures Refcount(View(), Other(which)) == 1
    {
      ghost var s := View();
      match which {
        case Table1 =>
          UpdateStandby(Table2, op);
          Interfere();
          UpdateOld(Table1, op);
        case Table2 =>
          UpdateStandby(Table1, op);
          Interfere();
          UpdateOld(Table2, op);
      }
      BothUpdated(s, View(), op);
    }
  }

  // Between updates the tables hold the routes of the history, so after one more update they hold the
  // old ones with its change.
  lemma BothUpdated(was: Sys, s: Sys, op: RouteOp)
    requires Inv(was) && was.ctl == Idle && Inv(s) && s.ctl == Idle && s.hist == was.hist + [op]
    ensures Table(was, was.which).Whole? && s.table1 == s.table2 && s.table1.Whole?
      && Updated(Table(was, was.which).routes, s.table1.routes, op)
    ensures forall t :: 0 <= t < |s.threads| ==> s.threads[t].held == NewRef(s)
    ensures Refcount(s, Other(s.which)) == 1
  {
    assert s.hist[..|s.hist| - 1] == was.hist;
    ApplyUpdates(After(was.hist), op);
    StandbyIsFree(s);
  }
}
