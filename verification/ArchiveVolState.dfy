/** `ArchiveVolState` with its state machine and action counters; each method runs under the volume's lock. */
module ArchiveVolStates {
  import opened Wrappers
  import opened ArchiveStates

  class ArchiveVolState {
    var cur: St
    var inTrans: bool
    var count: map<Action, int>
    var stopping: bool
    ghost var held: map<nat, Held>        // what each handler thread holds
    ghost var lock: Option<Admission>     // the handler between its checks and its start

    ghost function V(): Vol
      reads this
    {
      Vol(cur, inTrans, count, stopping, held, lock)
    }

    constructor (st: St)
      requires st in Steady
      ensures Inv(V()) && cur == st && held == map[] && lock == None
    {
      cur, inTrans, count, stopping, held, lock := st, false, map[], false, map[], None;
      new;
      InvInitial(V());
    }

    // ---- state machine ----

    /** `tryChange` refuses a locked machine, another state than `from`, or an edge not in the table. */
    method TryChange(from: St, pass: St, ghost i: nat, ghost dest: St) returns (ok: bool)
      modifies this`cur, this`inTrans, this`held
      ensures ok == (!old(inTrans) && old(cur) == from && Edge(from, pass))
      ensures V() == if ok then Change(old(V()), i, pass, dest) else old(V())
    {
      hide Edge;
      if !inTrans && cur == from && Edge(from, pass) {
        held := held[i := StateTran(cur, dest)];
        cur, inTrans := pass, true;
        return true;
      } else {
        return false;
      }
    }

    /** `commit`, or the rollback of the destructor when `to` cannot be reached. */
    method Close(from: St, to: St, commit: bool, ghost i: nat)
      requires Inv(V()) && lock == None && i in held && held[i] == StateTran(from, to)
      modifies this`cur, this`inTrans, this`held
      ensures Inv(V()) && V() == if commit then Committed(old(V()), i) else RolledBack(old(V()), i)
    {
      hide Inv;
      ghost var v := V();
      OpenTran(v, i);
      cur := if commit && Edge(cur, to) then to else from;
      inTrans, held := false, held - {i};
      InvClose(v, V(), i);
    }

    // ---- handlers ----

    /** The checks of a handler, once it has the lock. */
    method Enter(op: Op, ghost i: nat) returns (ok: bool)
      requires Inv(V()) && lock == None && i !in held
      modifies this`lock
      ensures Inv(V()) && ok == (FlagOk(stopping, op) && Suits(old(V()), op))
      ensures V() == if ok then old(V()).(lock := Some(Admission(i, op))) else old(V())
    {
      hide Inv, Suits, FlagOk;
      ghost var v := V();
      var suits := CheckOp(op);
      ok := FlagOk(stopping, op) && suits;
      if ok {
        lock := Some(Admission(i, op));
        InvQuiet(v, V(), i, op);
      }
    }

    /** `verifyActionNotRunning` and `verifyStateIn` of each handler. */
    method CheckOp(op: Op) returns (ok: bool)
      ensures ok == Suits(V(), op)
    {
      match op
      case Handle(h) => ok := CheckHandler(h);
      case DoResync =>
        var idle := AllZero(AllActions);
        ok := idle && cur in {SyncReady, Archived};
      case Act(a) =>
        var idle := AllZero(DenyFor(a));
        ok := idle && cur in AcceptFor(a);
    }

    method CheckHandler(h: Handler) returns (ok: bool)
      ensures ok == Suits(V(), Handle(h))
    {
      var idle := AllZero(AllActions);
      match h
      case FullBackup => ok := idle && cur == SyncReady;
      case HashBackup => ok := idle && cur == Archived;
      case WdiffTransfer => ok := cur == Archived;
      case FullReplication => ok := idle && cur == SyncReady;
      case StopVolume => ok := cur in Steady && idle && cur == Archived;
      case ReplicationRound => ok := true;
      case _ => ok := idle;
    }

    /** `ActionCounters::isAllZero` */
    method AllZero(actions: set<Action>) returns (zero: bool)
      ensures zero == NotRunning(V(), actions)
    {
      var todo := actions;
      while todo != {}
        invariant todo <= actions && forall a :: a in actions && a !in todo ==> Count(V(), a) == 0
        decreases |todo|
      {
        var a :| a in todo;
        if a in count && count[a] != 0 {
          return false;
        }
        todo := todo - {a};
      }
      return true;
    }

    /** The transaction of an admitted handler; refused, the handler gives the lock back. The stop flag may have
        changed since its checks. */
    method BeginHandler(h: Handler, ghost i: nat) returns (ok: bool)
      requires Inv(V()) && lock == Some(Admission(i, Handle(h)))
      modifies this`cur, this`inTrans, this`held, this`lock
      ensures Inv(V()) && ok == CanChange(old(V()), From(old(V()), h), Pass(h))
      ensures if ok then Begin(old(V()), V(), i, h) else V() == old(V()).(lock := None)
    {
      hide Inv, Edge;
      ghost var v := V();
      var from := if h == ClearVolume || h == ResetVolume then cur else Source(h);
      ok := TryChange(from, Pass(h), i, Dest(h));
      lock := None;
      if ok {
        InvBegin(v, V(), i, h);
      } else {
        InvQuiet(v, V(), i, Handle(h));
      }
    }

    /** `runResyncReplServer` up to the release of the lock: an archived volume is stopped and reset first. */
    method BeginResync(ghost i: nat) returns (ok: bool)
      requires Inv(V()) && lock == Some(Admission(i, DoResync))
      modifies this`cur, this`inTrans, this`held, this`lock
      ensures Inv(V()) && ok == !old(inTrans)
      ensures if ok then ArchiveStates.BeginResync(old(V()), V(), i) else V() == old(V()).(lock := None)
    {
      hide Inv, Edge, NotRunning;
      ghost var v := V();
      ResyncState(v);
      if inTrans {
        lock := None;
        InvQuiet(v, V(), i, DoResync);
        return false;
      }
      if cur == Archived {
        StopAndReset(i);
      }
      assert V() == v.(cur := SyncReady);
      assert Edge(SyncReady, Resync) by { ResyncEdges(); }
      ok := TryChange(SyncReady, Resync, i, Archived);
      lock := None;
      InvBeginResync(v, V(), i);
    }

    /** The two transactions that turn an archived volume into one ready for a sync. */
    method StopAndReset(ghost i: nat)
      requires cur == Archived && !inTrans && i !in held
      modifies this`cur, this`inTrans, this`held
      ensures V() == old(V()).(cur := SyncReady)
    {
      hide Edge;
      assert Edge(Archived, Stop) && Edge(Stopped, ResetVol) by { ResyncEdges(); }
      var _ := TryChange(Archived, Stop, i, Stopped);
      cur, inTrans, held := Stopped, false, held - {i};
      var _ := TryChange(Stopped, ResetVol, i, SyncReady);
      cur, inTrans, held := SyncReady, false, held - {i};
      assert held == old(held);
    }

    // ---- actions ----

    /** An admitted restore, replication, apply, merge or resize starts: its counter goes from 0 to 1. */
    method StartAction(a: Action, ghost i: nat)
      requires Inv(V()) && lock == Some(Admission(i, Act(a)))
      modifies this`count, this`held, this`lock
      ensures Inv(V()) && V() == Started(old(V()), i, a).(lock := None)
      ensures Count(old(V()), a) == 0 && Count(V(), a) == 1
    {
      hide Inv;
      ghost var v := V();
      AdmittedIsIdle(v, i, a);
      count := count[a := (if a in count then count[a] else 0) + 1];
      held := held[i := ActionTran(a)];
      lock := None;
      InvBeginAction(v, V(), i, a);
    }

    /** `ActionCounterTransaction::close`: the counter never goes below zero. */
    method EndAction(a: Action, ghost i: nat)
      requires Inv(V()) && lock == None && i in held && held[i] == ActionTran(a)
      modifies this`count, this`held
      ensures Inv(V()) && V() == Ended(old(V()), i) && Count(old(V()), a) == 1 && Count(V(), a) == 0
    {
      hide Inv;
      ghost var v := V();
      HeldIsCounted(v, i, a);
      count := count[a := (if a in count then count[a] else 0) - 1];
      held := held - {i};
      InvEndAction(v, V(), i);
    }
  }

  function Source(h: Handler): St {
    match h
    case InitVolume => Clear
    case StartVolume => Stopped
    case FullBackup => SyncReady
    case FullReplication => SyncReady
    case _ => Archived
  }

  lemma {:induction false} ResyncEdges()
    ensures Edge(Archived, Stop) && Edge(Stopped, ResetVol) && Edge(SyncReady, Resync)
  {
  }

  lemma {:induction false} OpenTran(v: Vol, i: nat)
    requires Inv(v) && i in v.held && v.held[i].StateTran?
    ensures v.inTrans && Edge(v.cur, v.held[i].dest)
  {
  }

  lemma {:induction false} ResyncState(v: Vol)
    requires Inv(v) && v.lock.Some? && v.lock.value.op == DoResync
    ensures v.cur in {SyncReady, Archived} && v.lock.value.thread !in v.held
  {
    hide CountOk, Allowed;
  }

  lemma {:induction false} AdmittedIsIdle(v: Vol, i: nat, a: Action)
    requires Inv(v) && v.lock == Some(Admission(i, Act(a)))
    ensures Count(v, a) == 0
  {
    hide CountOk, Allowed;
    assert a in DenyFor(a);
  }

  lemma {:induction false} HeldIsCounted(v: Vol, i: nat, a: Action)
    requires Inv(v) && i in v.held && v.held[i] == ActionTran(a)
    ensures Count(v, a) == 1
  {
    hide Allowed;
    assert Holds(v.held, i, a) && CountOk(v, a);
  }
}
