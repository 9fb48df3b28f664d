/**
 States and actions of an archive volume (src/archive_constant.hpp), the state machine with transactions
 (src/state_machine.hpp), the action counters (src/action_counter.hpp), and the way the server handlers
 of src/archive.cpp use them. A handler takes the lock of the volume, makes its checks, and starts its
 transaction or action before it lets the lock go; commits, rollbacks and ends of actions take the lock, too. The
 stop flag is not guarded by the lock: it can change between a handler's checks and its start.
 */
module ArchiveStates {
  import opened Wrappers

  datatype St =
    | Clear | SyncReady | Archived | Stopped
    | InitVol | ClearVol | ResetVol | FullSync | HashSync | Resync | WdiffRecv | ReplSyncAsServer | Stop | Start

  datatype Action = Merge | Apply | Restore | ReplSync | Resize

  /** `statePairTbl` */
  predicate Edge(from: St, to: St) {
    match from
    case Clear => to == InitVol
    case InitVol => to == SyncReady
    case SyncReady => to == ClearVol || to == FullSync || to == Resync || to == ResetVol
    case ClearVol => to == Clear
    case FullSync => to == Archived
    case Resync => to == Archived
    case Archived => to == HashSync || to == WdiffRecv || to == ReplSyncAsServer || to == Stop
    case HashSync => to == Archived
    case WdiffRecv => to == Archived
    case ReplSyncAsServer => to == Archived
    case Stop => to == Stopped
    case Stopped => to == ClearVol || to == Start || to == ResetVol
    case Start => to == Archived
    case ResetVol => to == SyncReady
  }

  const Steady: set<St> := {Clear, SyncReady, Archived, Stopped}
  const Active: set<St> := {Archived, HashSync, WdiffRecv, ReplSyncAsServer}
  const AcceptForResize: set<St> := {SyncReady, Archived, HashSync, WdiffRecv, ReplSyncAsServer, Stopped}
  const AllActions: set<Action> := {Merge, Apply, Restore, ReplSync, Resize}

  function DenyFor(a: Action): set<Action> {
    match a
    case Restore => {Restore, Resize}
    case ReplSync => {Restore, ReplSync, Apply, Merge, Resize}
    case Apply => {Restore, ReplSync, Apply, Merge, Resize}
    case Merge => {Restore, ReplSync, Apply, Merge, Resize}
    case Resize => {Restore, ReplSync, Apply, Resize}
  }

  function AcceptFor(a: Action): set<St> {
    if a == Resize then AcceptForResize else Active
  }

  // ---- one volume ----

  /** What a handler thread holds: a state transaction with its rollback state and the state it wants to
      commit, or an action counter. */
  datatype Held = StateTran(from: St, dest: St) | ActionTran(action: Action)

  /** What a thread that holds the lock has passed the checks for. */
  datatype Op = Handle(h: Handler) | DoResync | Act(a: Action)

  datatype Admission = Admission(thread: nat, op: Op)

  /** `lock`: the handler between its checks and its start. */
  datatype Vol = Vol(cur: St, inTrans: bool, count: map<Action, int>, stopping: bool, held: map<nat, Held>,
                     lock: Option<Admission>)

  function Count(v: Vol, a: Action): int {
    if a in v.count then v.count[a] else 0
  }

  /** `verifyActionNotRunning` */
  predicate NotRunning(v: Vol, actions: set<Action>) {
    forall a :: a in actions ==> Count(v, a) == 0
  }

  predicate Initial(v: Vol) {
    v.cur in Steady && !v.inTrans && v.count == map[] && !v.stopping && v.held == map[] && v.lock == None
  }

  /** `StateMachineTransaction::tryChange` by thread i. */
  predicate CanChange(v: Vol, from: St, pass: St) {
    !v.inTrans && v.cur == from && Edge(from, pass)
  }

  function Change(v: Vol, i: nat, pass: St, dest: St): Vol {
    v.(cur := pass, inTrans := true, held := v.held[i := StateTran(v.cur, dest)])
  }

  /** `commit` by thread i; possible when the table has the edge. */
  predicate CanCommit(v: Vol, i: nat) {
    i in v.held && v.held[i].StateTran? && v.inTrans && Edge(v.cur, v.held[i].dest)
  }

  function Committed(v: Vol, i: nat): Vol
    requires i in v.held && v.held[i].StateTran?
  {
    v.(cur := v.held[i].dest, inTrans := false, held := v.held - {i})
  }

  /** Destructor of a transaction that was not committed. */
  function RolledBack(v: Vol, i: nat): Vol
    requires i in v.held && v.held[i].StateTran?
  {
    v.(cur := v.held[i].from, inTrans := false, held := v.held - {i})
  }

  /** `ActionCounterTransaction` */
  function Started(v: Vol, i: nat, a: Action): Vol {
    v.(count := v.count[a := Count(v, a) + 1], held := v.held[i := ActionTran(a)])
  }

  function Ended(v: Vol, i: nat): Vol
    requires i in v.held && v.held[i].ActionTran?
  {
    var a := v.held[i].action;
    v.(count := v.count[a := Count(v, a) - 1], held := v.held - {i})
  }

  // ---- the handlers ----

  datatype Handler = FullBackup | HashBackup | InitVolume | ClearVolume | StartVolume | StopVolume | ResetVolume
                   | WdiffTransfer | FullReplication | ReplicationRound

  /** `verifyNotStopping`, and the stop handler's own flag. A further round of a replication that was admitted
      before makes no check. */
  predicate FlagOk(stopping: bool, op: Op) {
    match op
    case Handle(h) =>
      (match h
       case FullBackup => !stopping
       case HashBackup => !stopping
       case WdiffTransfer => !stopping
       case FullReplication => !stopping
       case StopVolume => stopping
       case _ => true)
    case DoResync => !stopping
    case Act(_) => !stopping
  }

  /** The other checks: `verifyActionNotRunning` and `verifyStateIn`. */
  predicate Suits(v: Vol, op: Op) {
    match op
    case Handle(h) =>
      (match h
       case FullBackup => NotRunning(v, AllActions) && v.cur == SyncReady
       case HashBackup => NotRunning(v, AllActions) && v.cur == Archived
       case InitVolume => NotRunning(v, AllActions)
       case ClearVolume => NotRunning(v, AllActions)
       case StartVolume => NotRunning(v, AllActions)
       case StopVolume => v.cur in Steady && NotRunning(v, AllActions) && v.cur == Archived
       case ResetVolume => NotRunning(v, AllActions)
       case WdiffTransfer => v.cur == Archived
       case FullReplication => NotRunning(v, AllActions) && v.cur == SyncReady
       case ReplicationRound => true)
    case DoResync => NotRunning(v, AllActions) && v.cur in {SyncReady, Archived}
    case Act(a) => NotRunning(v, DenyFor(a)) && v.cur in AcceptFor(a)
  }

  function From(v: Vol, h: Handler): St {
    match h
    case FullBackup => SyncReady
    case HashBackup => Archived
    case InitVolume => Clear
    case ClearVolume => v.cur
    case StartVolume => Stopped
    case StopVolume => Archived
    case ResetVolume => v.cur
    case WdiffTransfer => Archived
    case FullReplication => SyncReady
    case ReplicationRound => Archived
  }

  function Pass(h: Handler): St {
    match h
    case FullBackup => FullSync
    case HashBackup => HashSync
    case InitVolume => InitVol
    case ClearVolume => ClearVol
    case StartVolume => Start
    case StopVolume => Stop
    case ResetVolume => ResetVol
    case WdiffTransfer => WdiffRecv
    case FullReplication => FullSync
    case ReplicationRound => ReplSyncAsServer
  }

  function Dest(h: Handler): St {
    match h
    case InitVolume => SyncReady
    case ClearVolume => Clear
    case StopVolume => Stopped
    case ResetVolume => SyncReady
    case _ => Archived
  }

  // ---- steps ----

  /** Thread i takes the lock and its checks pass. */
  predicate Enter(v: Vol, v': Vol, i: nat, op: Op) {
    && v.lock == None && i !in v.held && FlagOk(v.stopping, op) && Suits(v, op)
    && v' == v.(lock := Some(Admission(i, op)))
  }

  /** It gives up: an exception, or its transaction is refused. */
  predicate Leave(v: Vol, v': Vol) {
    v.lock.Some? && v' == v.(lock := None)
  }

  predicate Begin(v: Vol, v': Vol, i: nat, h: Handler) {
    && v.lock == Some(Admission(i, Handle(h))) && CanChange(v, From(v, h), Pass(h))
    && v' == Change(v, i, Pass(h), Dest(h)).(lock := None)
  }

  /** `runResyncReplServer`: an archived volume is stopped and reset on the way, under one lock. */
  predicate BeginResync(v: Vol, v': Vol, i: nat) {
    && v.lock == Some(Admission(i, DoResync)) && !v.inTrans
    && v' == Change(v.(cur := SyncReady), i, Resync, Archived).(lock := None)
  }

  predicate BeginAction(v: Vol, v': Vol, i: nat, a: Action) {
    v.lock == Some(Admission(i, Act(a))) && v' == Started(v, i, a).(lock := None)
  }

  predicate Commit(v: Vol, v': Vol, i: nat) {
    v.lock == None && CanCommit(v, i) && v' == Committed(v, i)
  }

  predicate Rollback(v: Vol, v': Vol, i: nat) {
    v.lock == None && i in v.held && v.held[i].StateTran? && v' == RolledBack(v, i)
  }

  predicate EndAction(v: Vol, v': Vol, i: nat) {
    v.lock == None && i in v.held && v.held[i].ActionTran? && v' == Ended(v, i)
  }

  /** The stop flag changes at any time, whoever has the lock. */
  predicate SetStopping(v: Vol, v': Vol) {
    v' == v.(stopping := v'.stopping)
  }

  ghost predicate Next(v: Vol, v': Vol) {
    || (exists i, op :: Enter(v, v', i, op)) || Leave(v, v')
    || (exists i, h :: Begin(v, v', i, h)) || (exists i :: BeginResync(v, v', i))
    || (exists i, a :: BeginAction(v, v', i, a)) || (exists i :: Commit(v, v', i))
    || (exists i :: Rollback(v, v', i)) || (exists i :: EndAction(v, v', i)) || SetStopping(v, v')
  }

  /** The way of each handler: the state it starts in, the one it passes through and the one it commits. */
  lemma {:induction false} HandlerPath(v: Vol, v': Vol, i: nat, h: Handler)
    requires Begin(v, v', i, h)
    ensures i in v'.held && v'.held[i].StateTran? && v'.held[i].from == v.cur
    ensures h == InitVolume ==> v.cur == Clear && v'.cur == InitVol && v'.held[i].dest == SyncReady
    ensures h in {FullBackup, FullReplication} ==>
              v.cur == SyncReady && v'.cur == FullSync && v'.held[i].dest == Archived
    ensures h == HashBackup ==> v.cur == Archived && v'.cur == HashSync && v'.held[i].dest == Archived
    ensures h == WdiffTransfer ==> v.cur == Archived && v'.cur == WdiffRecv && v'.held[i].dest == Archived
    ensures h == ReplicationRound ==> v.cur == Archived && v'.cur == ReplSyncAsServer && v'.held[i].dest == Archived
    ensures h == StopVolume ==> v.cur == Archived && v'.cur == Stop && v'.held[i].dest == Stopped
    ensures h == StartVolume ==> v.cur == Stopped && v'.cur == Start && v'.held[i].dest == Archived
    ensures h == ResetVolume ==> v.cur in {SyncReady, Stopped} && v'.cur == ResetVol && v'.held[i].dest == SyncReady
    ensures h == ClearVolume ==> v.cur in {SyncReady, Stopped} && v'.cur == ClearVol && v'.held[i].dest == Clear
  {
  }

  // ---- what every run keeps ----

  /** Which actions may run together. */
  predicate Compatible(s: set<Action>) {
    && !(Merge in s && Apply in s) && !(Merge in s && ReplSync in s) && !(Apply in s && ReplSync in s)
    && (Resize in s ==> Restore !in s && Apply !in s && ReplSync !in s)
  }

  /** Which actions may run in which state. */
  predicate Allowed(cur: St, s: set<Action>) {
    && Compatible(s)
    && (cur in {SyncReady, Stopped} ==> s <= {Resize})
    && (cur in {Clear, InitVol, ClearVol, ResetVol, FullSync, Resync, Stop, Start} ==> s == {})
  }

  function Running(v: Vol): set<Action> {
    set a | a in AllActions && Count(v, a) != 0
  }

  /** The states a transaction passes through, and where it came from. */
  predicate GoodTran(cur: St, from: St, dest: St) {
    Edge(from, cur) && Edge(cur, dest) && from in Steady && dest in Steady
  }

  ghost predicate OnlyTran(held: map<nat, Held>, i: nat) {
    forall j :: j in held && held[j].StateTran? ==> j == i
  }

  /** Thread i holds the counter of a. */
  ghost predicate Holds(held: map<nat, Held>, i: nat, a: Action) {
    i in held && held[i] == ActionTran(a)
  }

  ghost predicate CountOk(v: Vol, a: Action) {
    && 0 <= Count(v, a) <= 1
    && (Count(v, a) == 1 <==> exists i :: Holds(v.held, i, a))
    && (forall i, j :: Holds(v.held, i, a) && Holds(v.held, j, a) ==> i == j)
  }

  ghost predicate Inv(v: Vol) {
    && (v.inTrans ==> exists i :: i in v.held && v.held[i].StateTran? && OnlyTran(v.held, i)
                                  && GoodTran(v.cur, v.held[i].from, v.held[i].dest))
    && (!v.inTrans ==> v.cur in Steady && forall i :: i in v.held ==> v.held[i].ActionTran?)
    && (forall a: Action :: CountOk(v, a))
    && Allowed(v.cur, Running(v))
    && (v.lock.Some? ==> v.lock.value.thread !in v.held && Suits(v, v.lock.value.op))
  }

  lemma {:induction false} InvInitial(v: Vol)
    requires Initial(v)
    ensures Inv(v)
  {
    assert Running(v) == {};
    forall a: Action ensures CountOk(v, a) {}
  }

  /** Changing only the transactions keeps the counters right. */
  lemma {:induction false} CountsKept(v: Vol, v': Vol)
    requires forall a: Action :: CountOk(v, a)
    requires v'.count == v.count && forall i, a :: Holds(v.held, i, a) <==> Holds(v'.held, i, a)
    ensures forall a: Action :: CountOk(v', a)
    ensures Running(v') == Running(v)
  {
    forall a: Action ensures CountOk(v', a) { assert CountOk(v, a); }
  }

  /** The state a handler passes through allows what runs, and has a way back and a way on. */
  lemma {:induction false} PassAllowed(v: Vol, h: Handler)
    requires Suits(v, Handle(h)) && CanChange(v, From(v, h), Pass(h)) && v.cur in Steady && Allowed(v.cur, Running(v))
    ensures Allowed(Pass(h), Running(v)) && GoodTran(Pass(h), v.cur, Dest(h))
  {
    if NotRunning(v, AllActions) { assert Running(v) == {}; }
  }

  lemma {:induction false} InvBegin(v: Vol, v': Vol, i: nat, h: Handler)
    requires Inv(v) && Begin(v, v', i, h)
    ensures Inv(v')
  {
    hide CountOk, Allowed, Suits, Edge, GoodTran, Running;
    assert OnlyTran(v'.held, i);
    PassAllowed(v, h);
    CountsKept(v, v');
  }

  lemma {:induction false} InvBeginResync(v: Vol, v': Vol, i: nat)
    requires Inv(v) && BeginResync(v, v', i)
    ensures Inv(v')
  {
    hide CountOk;
    assert OnlyTran(v'.held, i);
    assert Running(v) == {};
    CountsKept(v, v');
  }

  lemma {:induction false} InvClose(v: Vol, v': Vol, i: nat)
    requires Inv(v) && (Commit(v, v', i) || Rollback(v, v', i))
    ensures Inv(v')
  {
    hide CountOk;
    assert v.inTrans;
    var k :| k in v.held && v.held[k].StateTran? && OnlyTran(v.held, k)
        && GoodTran(v.cur, v.held[k].from, v.held[k].dest);
    assert k == i;
    CountsKept(v, v');
  }

  lemma {:induction false} CountsStarted(v: Vol, i: nat, a: Action)
    requires (forall b: Action :: CountOk(v, b)) && i !in v.held && Count(v, a) == 0
    ensures forall b: Action :: CountOk(Started(v, i, a), b)
    ensures Running(Started(v, i, a)) == Running(v) + {a}
  {
    var v' := Started(v, i, a);
    assert CountOk(v, a);
    forall b: Action ensures CountOk(v', b) {
      assert CountOk(v, b);
      assert Holds(v'.held, i, a);
      forall j | b != a ensures Holds(v.held, j, b) <==> Holds(v'.held, j, b) {}
      forall j | Holds(v'.held, j, a) ensures j == i { assert j != i ==> Holds(v.held, j, a); }
    }
  }

  lemma {:induction false} AllowedPlus(cur: St, s: set<Action>, a: Action)
    requires Allowed(cur, s) && cur in AcceptFor(a) && s !! DenyFor(a)
    ensures Allowed(cur, s + {a})
  {
  }

  lemma {:induction false} IsRunning(v: Vol, a: Action)
    ensures a in Running(v) <==> Count(v, a) != 0
  {
    match a
    case Merge =>
    case Apply =>
    case Restore =>
    case ReplSync =>
    case Resize =>
  }

  lemma {:induction false} InvBeginAction(v: Vol, v': Vol, i: nat, a: Action)
    requires Inv(v) && BeginAction(v, v', i, a)
    ensures Inv(v')
  {
    assert Count(v, a) == 0 && Running(v) !! DenyFor(a);
    hide CountOk, Allowed, DenyFor, AcceptFor, Running, NotRunning;
    CountsStarted(v, i, a);
    CountsKept(Started(v, i, a), v');
    AllowedPlus(v.cur, Running(v), a);
    if v.inTrans {
      var k :| k in v.held && v.held[k].StateTran? && OnlyTran(v.held, k)
          && GoodTran(v.cur, v.held[k].from, v.held[k].dest);
      assert k in v'.held && v'.held[k] == v.held[k] && OnlyTran(v'.held, k);
    }
  }

  lemma {:induction false} CountsEnded(v: Vol, i: nat)
    requires (forall b: Action :: CountOk(v, b)) && i in v.held && v.held[i].ActionTran?
    ensures forall b: Action :: CountOk(Ended(v, i), b)
    ensures Running(Ended(v, i)) == Running(v) - {v.held[i].action}
  {
    var a := v.held[i].action;
    var v' := Ended(v, i);
    assert Holds(v.held, i, a) && CountOk(v, a);
    forall b: Action ensures CountOk(v', b) {
      assert CountOk(v, b);
      forall j | b != a ensures Holds(v.held, j, b) <==> Holds(v'.held, j, b) {}
      forall j ensures !Holds(v'.held, j, a) { assert Holds(v'.held, j, a) ==> Holds(v.held, j, a); }
    }
  }

  lemma {:induction false} InvEndAction(v: Vol, v': Vol, i: nat)
    requires Inv(v) && EndAction(v, v', i)
    ensures Inv(v')
  {
    hide CountOk;
    CountsEnded(v, i);
    if v.inTrans {
      var k :| k in v.held && v.held[k].StateTran? && OnlyTran(v.held, k)
          && GoodTran(v.cur, v.held[k].from, v.held[k].dest);
      assert k in v'.held && v'.held[k] == v.held[k] && OnlyTran(v'.held, k);
    }
  }

  lemma {:induction false} InvQuiet(v: Vol, v': Vol, i: nat, op: Op)
    requires Inv(v) && (SetStopping(v, v') || Enter(v, v', i, op) || Leave(v, v'))
    ensures Inv(v')
  {
    hide CountOk, Allowed, Edge, FlagOk, Running;
    CountsKept(v, v');
    SameChecks(v, v', op);
    if v.lock.Some? { SameChecks(v, v', v.lock.value.op); }
  }

  lemma {:induction false} SameChecks(v: Vol, v': Vol, op: Op)
    requires v'.cur == v.cur && v'.count == v.count
    ensures Suits(v', op) <==> Suits(v, op)
  {
    assert forall a :: Count(v', a) == Count(v, a);
  }

  lemma {:induction false} InvStep(v: Vol, v': Vol)
    requires Inv(v) && Next(v, v')
    ensures Inv(v')
  {
    hide Inv, Enter, Leave, Begin, BeginResync, BeginAction, Commit, Rollback, EndAction, SetStopping;
    if i, op :| Enter(v, v', i, op) {
      InvQuiet(v, v', i, op);
    } else if Leave(v, v') || SetStopping(v, v') {
      InvQuiet(v, v', 0, DoResync);
    } else if i, h :| Begin(v, v', i, h) {
      InvBegin(v, v', i, h);
    } else if i :| BeginResync(v, v', i) {
      InvBeginResync(v, v', i);
    } else if i, a :| BeginAction(v, v', i, a) {
      InvBeginAction(v, v', i, a);
    } else if i :| Commit(v, v', i) {
      InvClose(v, v', i);
    } else if i :| Rollback(v, v', i) {
      InvClose(v, v', i);
    } else {
      var i :| EndAction(v, v', i);
      InvEndAction(v, v', i);
    }
  }

  // ---- runs ----

  ghost predicate IsRun(run: seq<Vol>) {
    run != [] && Initial(run[0]) && forall k {:trigger StepAt(run, k)} :: 0 <= k < |run| - 1 ==> StepAt(run, k)
  }

  ghost predicate StepAt(run: seq<Vol>, k: nat)
    requires k < |run| - 1
  {
    Next(run[k], run[k + 1])
  }

  lemma {:induction false} RunKeepsInv(run: seq<Vol>, k: nat)
    requires IsRun(run) && k < |run|
    ensures Inv(run[k])
  {
    hide Inv, Next, Initial;
    if k == 0 {
      InvInitial(run[0]);
    } else {
      RunKeepsInv(run, k - 1);
      assert StepAt(run, k - 1);
      InvStep(run[k - 1], run[k]);
    }
  }

  /** In every state of every run at most one state transaction is in flight, and one is exactly when the
      machine is locked; the state is then a temporary one with a way back and a way on. */
  lemma {:induction false} OneTransaction(run: seq<Vol>, k: nat, i: nat, j: nat)
    requires IsRun(run) && k < |run| && i in run[k].held && run[k].held[i].StateTran?
    ensures run[k].inTrans && run[k].cur !in Steady
    ensures Edge(run[k].held[i].from, run[k].cur) && Edge(run[k].cur, run[k].held[i].dest)
    ensures j in run[k].held && run[k].held[j].StateTran? ==> i == j
  {
    RunKeepsInv(run, k);
  }

  /** In every state of every run: which actions run together, and in which states; each counter is the
      number of its holders and at most one. */
  lemma {:induction false} ActionsExclude(run: seq<Vol>, k: nat)
    requires IsRun(run) && k < |run|
    ensures Allowed(run[k].cur, Running(run[k]))
    ensures forall a: Action :: 0 <= Count(run[k], a) <= 1
    ensures forall a: Action :: Count(run[k], a) == 1 <==> exists i :: Holds(run[k].held, i, a)
  {
    RunKeepsInv(run, k);
    forall a: Action ensures 0 <= Count(run[k], a) <= 1 { assert CountOk(run[k], a); }
    forall a: Action ensures Count(run[k], a) == 1 <==> exists i :: Holds(run[k].held, i, a) {
      assert CountOk(run[k], a);
    }
  }

  // ---- a pending stop ----

  ghost predicate StoppingFrom(run: seq<Vol>, p: nat, k: nat)
    requires k < |run|
  {
    forall j :: p <= j <= k ==> run[j].stopping
  }

  predicate ActionAdmitted(v: Vol) {
    v.lock.Some? && v.lock.value.op.Act?
  }

  /** An action starts at step k. */
  ghost predicate StartsAt(run: seq<Vol>, k: nat)
    requires k + 1 < |run|
  {
    Starts(run[k], run[k + 1])
  }

  ghost predicate Starts(v: Vol, v': Vol) {
    exists i, a :: BeginAction(v, v', i, a)
  }

  /** An action can start, whatever the flag says, exactly while its admitted handler has the lock. */
  lemma {:induction false} CanStartIff(v: Vol)
    ensures (exists v' :: Starts(v, v')) <==> ActionAdmitted(v)
  {
    if ActionAdmitted(v) {
      var i, a := v.lock.value.thread, v.lock.value.op.a;
      var v' := Started(v, i, a).(lock := None);
      assert BeginAction(v, v', i, a);
      assert Starts(v, v');
    }
  }

  lemma {:induction false} StoppingStep(v: Vol, v': Vol)
    requires Next(v, v') && v.stopping
    ensures ActionAdmitted(v') ==> v'.lock == v.lock
  {
    hide Edge, NotRunning, Suits;
  }

  /** While the flag is set no action is admitted, so an admitted one was admitted before. */
  lemma {:induction false} AdmittedBefore(run: seq<Vol>, p: nat, k: nat)
    requires IsRun(run) && p <= k < |run| && StoppingFrom(run, p, k) && ActionAdmitted(run[k])
    ensures run[p].lock == run[k].lock
    decreases k
  {
    hide Next, Initial;
    if p < k {
      assert StepAt(run, k - 1);
      StoppingStep(run[k - 1], run[k]);
      AdmittedBefore(run, p, k - 1);
    }
  }

  /** An action that starts while a stop is pending was admitted before the flag was set, and its handler has held
      the lock ever since. */
  lemma {:induction false} LateStartWasAdmitted(run: seq<Vol>, p: nat, k: nat, i: nat, a: Action)
    requires IsRun(run) && p <= k < |run| - 1 && StoppingFrom(run, p, k) && BeginAction(run[k], run[k + 1], i, a)
    ensures forall j :: p <= j <= k ==> run[j].lock == Some(Admission(i, Act(a)))
  {
    var admitted := run[k].lock;
    forall j | p <= j <= k ensures run[j].lock == admitted {
      AdmittedBefore(run, j, k);
    }
  }

  /** At most one action does so. */
  lemma {:induction false} OneLateStart(run: seq<Vol>, p: nat, k: nat, l: nat)
    requires IsRun(run) && p <= k < l < |run| - 1 && StoppingFrom(run, p, l)
    ensures !(StartsAt(run, k) && StartsAt(run, l))
  {
    if StartsAt(run, k) && StartsAt(run, l) {
      AdmittedBefore(run, k + 1, l);
    }
  }

  lemma {:induction false} DrainStep(v: Vol, v': Vol)
    requires Inv(v) && Next(v, v') && !ActionAdmitted(v)
    ensures Running(v') <= Running(v)
  {
    hide Edge, NotRunning, Suits, FlagOk, Inv;
    if i :| EndAction(v, v', i) {
      EndedRuns(v, i);
    } else {
      assert v'.count == v.count;
    }
  }

  lemma {:induction false} EndedRuns(v: Vol, i: nat)
    requires Inv(v) && i in v.held && v.held[i].ActionTran?
    ensures Running(Ended(v, i)) <= Running(v)
  {
    CountsEnded(v, i);
  }

  /** From any moment at which the flag is set and no admitted action has the lock (the stop handler itself has it
      then), the running actions only become fewer. */
  lemma {:induction false} StoppingDrains(run: seq<Vol>, p: nat, k: nat)
    requires IsRun(run) && p <= k < |run| && StoppingFrom(run, p, k) && !ActionAdmitted(run[p])
    ensures Running(run[k]) <= Running(run[p]) && !ActionAdmitted(run[k])
    decreases k
  {
    hide Next, Initial, Inv, Running;
    if ActionAdmitted(run[k]) { AdmittedBefore(run, p, k); }
    if p < k {
      StoppingDrains(run, p, k - 1);
      assert StepAt(run, k - 1);
      RunKeepsInv(run, k - 1);
      DrainStep(run[k - 1], run[k]);
    }
  }

  /** A run in which an action starts after the flag was set: admitted, flag, start. */
  lemma {:induction false} ActionStartsWhileStopping()
    ensures var v0 := Fresh(Archived);
            var v1 := v0.(lock := Some(Admission(0, Act(Apply))));
            var v2 := v1.(stopping := true);
            var v3 := Started(v2, 0, Apply).(lock := None);
            IsRun([v0, v1, v2, v3]) && v2.stopping && Apply !in Running(v2) && v3.stopping && Apply in Running(v3)
  {
    var v0 := Fresh(Archived);
    var v1 := v0.(lock := Some(Admission(0, Act(Apply))));
    var v2 := v1.(stopping := true);
    var v3 := Started(v2, 0, Apply).(lock := None);
    var run := [v0, v1, v2, v3];
    assert Enter(v0, v1, 0, Act(Apply)) && SetStopping(v1, v2) && BeginAction(v2, v3, 0, Apply);
    forall k | 0 <= k < |run| - 1 ensures StepAt(run, k) {
      assert k == 0 || k == 1 || k == 2;
    }
  }

  // ---- transactions and a pending stop ----

  /** The states in which a volume takes in data; a stop waits for their end. */
  const Receiving: set<St> := {FullSync, HashSync, WdiffRecv, Resync}

  /** The state the admitted handler is about to enter. */
  function Target(op: Op): Option<St> {
    match op
    case Handle(h) => Some(Pass(h))
    case DoResync => Some(Resync)
    case Act(_) => None
  }

  /** A handler that may start to take in data has the lock. */
  predicate ReceiverAdmitted(v: Vol) {
    v.lock.Some? && Target(v.lock.value.op).Some? && Target(v.lock.value.op).value in Receiving
  }

  lemma {:induction false} NoReceiverAdmitted(v: Vol, v': Vol)
    requires Next(v, v') && v.stopping && ReceiverAdmitted(v')
    ensures v'.lock == v.lock
  {
    hide Edge, NotRunning, Suits;
  }

  /** A volume gets into such a state only from one that is not, by the handler that has the lock. */
  lemma {:induction false} EnteredByAdmitted(v: Vol, v': Vol)
    requires Inv(v) && Next(v, v') && v.cur !in Receiving && v'.cur in Receiving
    ensures ReceiverAdmitted(v) && v'.lock == None
  {
    hide Inv, Next, Suits, Edge, Commit, Rollback;
    Movers(v, v');
    if i :| Commit(v, v', i) || Rollback(v, v', i) {
      ClosedToSteady(v, v', i);
    }
  }

  lemma {:induction false} ClosedIsSteady(v: Vol, i: nat)
    requires Inv(v) && i in v.held && v.held[i].StateTran?
    ensures v.held[i].from in Steady && v.held[i].dest in Steady
  {
    hide NotRunning, Suits, CountOk, Allowed;
  }

  ghost predicate EntersAt(run: seq<Vol>, k: nat)
    requires k + 1 < |run|
  {
    run[k].cur !in Receiving && run[k + 1].cur in Receiving
  }

  lemma {:induction false} ReceiverBefore(run: seq<Vol>, p: nat, k: nat)
    requires IsRun(run) && p <= k < |run| && StoppingFrom(run, p, k) && ReceiverAdmitted(run[k])
    ensures run[p].lock == run[k].lock
    decreases k
  {
    hide Next, Initial, ReceiverAdmitted;
    if p < k {
      assert StepAt(run, k - 1);
      NoReceiverAdmitted(run[k - 1], run[k]);
      assert ReceiverAdmitted(run[k - 1]) by { SameLock(run[k - 1], run[k]); }
      ReceiverBefore(run, p, k - 1);
    }
  }

  lemma {:induction false} SameLock(v: Vol, v': Vol)
    requires v.lock == v'.lock && ReceiverAdmitted(v')
    ensures ReceiverAdmitted(v)
  {
  }

  /** A volume that starts to take in data while a stop is pending was about to when the flag was set: the handler
      has had the lock ever since. */
  lemma {:induction false} LateTransactionWasAdmitted(run: seq<Vol>, p: nat, k: nat)
    requires IsRun(run) && p <= k < |run| - 1 && StoppingFrom(run, p, k) && EntersAt(run, k)
    ensures run[p].lock.Some? && forall j :: p <= j <= k ==> run[j].lock == run[p].lock
  {
    hide Next, Initial, Inv;
    RunKeepsInv(run, k);
    assert StepAt(run, k);
    EnteredByAdmitted(run[k], run[k + 1]);
    forall j | p <= j <= k ensures run[j].lock == run[k].lock {
      ReceiverBefore(run, j, k);
    }
  }

  /** At most one does so. */
  lemma {:induction false} OneLateTransaction(run: seq<Vol>, p: nat, k: nat, l: nat)
    requires IsRun(run) && p <= k < l < |run| - 1 && StoppingFrom(run, p, l)
    ensures !(EntersAt(run, k) && EntersAt(run, l))
  {
    if EntersAt(run, k) && EntersAt(run, l) {
      hide Next, Initial, Inv;
      RunKeepsInv(run, k);
      assert StepAt(run, k);
      EnteredByAdmitted(run[k], run[k + 1]);
      LateTransactionWasAdmitted(run, k + 1, l);
    }
  }

  /** From any moment at which the flag is set, nobody has the lock and the volume takes in no data, it takes in none
      as long as the flag is set. */
  lemma {:induction false} NoneReceivedWhileStopping(run: seq<Vol>, p: nat, k: nat)
    requires IsRun(run) && p <= k < |run| && StoppingFrom(run, p, k)
    requires run[p].lock == None && run[p].cur !in Receiving
    ensures run[k].cur !in Receiving
    decreases k
  {
    if p < k {
      NoneReceivedWhileStopping(run, p, k - 1);
      if run[k].cur in Receiving {
        assert EntersAt(run, k - 1);
        LateTransactionWasAdmitted(run, p, k - 1);
      }
    }
  }

  /** The state Stop is reached only after the flag was set. */
  lemma {:induction false} StopNeedsFlag(run: seq<Vol>, k: nat)
    requires IsRun(run) && k < |run| && forall j :: 0 <= j <= k ==> !run[j].stopping
    ensures run[k].cur != Stop && !StopAdmitted(run[k])
  {
    hide Next, Inv;
    if k > 0 {
      StopNeedsFlag(run, k - 1);
      RunKeepsInv(run, k - 1);
      assert StepAt(run, k - 1);
      NotStopped(run[k - 1], run[k]);
    }
  }

  predicate StopAdmitted(v: Vol) {
    v.lock.Some? && Target(v.lock.value.op) == Some(Stop)
  }

  lemma {:induction false} NotStopped(v: Vol, v': Vol)
    requires Inv(v) && Next(v, v') && v.cur != Stop && !StopAdmitted(v) && !v.stopping
    ensures v'.cur != Stop && !StopAdmitted(v')
  {
    hide NotRunning, Suits, CountOk, Allowed, Edge;
    if i :| Commit(v, v', i) {
      ClosedIsSteady(v, i);
    } else if i :| Rollback(v, v', i) {
      ClosedIsSteady(v, i);
    }
  }

  /** When one of these transactions starts, no action runs. */
  lemma {:induction false} StartsIdle(run: seq<Vol>, k: nat)
    requires IsRun(run) && k + 1 < |run| && run[k].cur != run[k + 1].cur
    requires run[k + 1].cur in {InitVol, ClearVol, ResetVol, FullSync, HashSync, Resync, Stop, Start}
    ensures Running(run[k + 1]) == {}
  {
    hide Next, Initial, Inv;
    RunKeepsInv(run, k);
    assert StepAt(run, k);
    StepIdle(run[k], run[k + 1]);
  }

  lemma {:induction false} StepIdle(v: Vol, v': Vol)
    requires Inv(v) && Next(v, v') && v.cur != v'.cur
    requires v'.cur in {InitVol, ClearVol, ResetVol, FullSync, HashSync, Resync, Stop, Start}
    ensures Running(v') == {}
  {
    hide Inv, Next, Begin, BeginResync, Commit, Rollback, Running;
    Movers(v, v');
    if i, h :| Begin(v, v', i, h) {
      BegunIdle(v, v', i, h);
    } else if i :| BeginResync(v, v', i) {
      ResyncIdle(v, v', i);
    } else {
      var i :| Commit(v, v', i) || Rollback(v, v', i);
      ClosedToSteady(v, v', i);
    }
  }

  lemma {:induction false} ClosedToSteady(v: Vol, v': Vol, i: nat)
    requires Inv(v) && (Commit(v, v', i) || Rollback(v, v', i))
    ensures v'.cur in Steady
  {
    hide Inv, Edge;
    ClosedIsSteady(v, i);
  }

  /** Only these steps change the state. */
  lemma {:induction false} Movers(v: Vol, v': Vol)
    requires Next(v, v') && v.cur != v'.cur
    ensures (exists i, h :: Begin(v, v', i, h)) || (exists i :: BeginResync(v, v', i))
            || (exists i :: Commit(v, v', i) || Rollback(v, v', i))
  {
    hide Begin, BeginResync, Commit, Rollback, FlagOk, Suits;
    if i :| Commit(v, v', i) {
    } else if i :| Rollback(v, v', i) {
    }
  }

  lemma {:induction false} BegunIdle(v: Vol, v': Vol, i: nat, h: Handler)
    requires Inv(v) && Begin(v, v', i, h) && v'.cur !in {WdiffRecv, ReplSyncAsServer}
    ensures Running(v') == {}
  {
    hide CountOk, Allowed, Edge;
    assert Suits(v, Handle(h));
  }

  lemma {:induction false} ResyncIdle(v: Vol, v': Vol, i: nat)
    requires Inv(v) && BeginResync(v, v', i)
    ensures Running(v') == {}
  {
    hide CountOk, Allowed, Edge;
    assert Suits(v, DoResync);
  }

  // ---- nothing more is excluded ----

  ghost predicate Reachable(v: Vol) {
    exists run: seq<Vol> :: IsRun(run) && run[|run| - 1] == v
  }

  lemma {:induction false} ReachStep(v: Vol, v': Vol)
    requires Reachable(v) && Next(v, v')
    ensures Reachable(v')
  {
    hide Next, Initial;
    var run: seq<Vol> :| IsRun(run) && run[|run| - 1] == v;
    var run' := run + [v'];
    forall k | 0 <= k < |run'| - 1 ensures StepAt(run', k) {
      if k < |run| - 1 { assert StepAt(run, k); }
    }
    assert IsRun(run') && run'[|run'| - 1] == v';
  }

  function Fresh(cur: St): Vol {
    Vol(cur, false, map[], false, map[], None)
  }

  lemma {:induction false} FreshReachable(cur: St)
    requires cur in Steady
    ensures Reachable(Fresh(cur))
  {
    assert IsRun([Fresh(cur)]);
  }

  lemma {:induction false} ReachEnter(v: Vol, op: Op) returns (u: Vol)
    requires Reachable(v) && v.lock == None && 0 !in v.held && FlagOk(v.stopping, op) && Suits(v, op)
    ensures Reachable(u) && u == v.(lock := Some(Admission(0, op)))
  {
    hide Reachable, Suits;
    u := v.(lock := Some(Admission(0, op)));
    assert Enter(v, u, 0, op);
    ReachStep(v, u);
  }

  lemma {:induction false} ReachBegin(v: Vol, h: Handler)
    requires Reachable(v) && v.lock == None && 0 !in v.held && FlagOk(v.stopping, Handle(h)) && Suits(v, Handle(h))
    requires CanChange(v, From(v, h), Pass(h))
    ensures Reachable(Change(v, 0, Pass(h), Dest(h)))
  {
    hide Reachable, Suits, FlagOk, Edge;
    var u := ReachEnter(v, Handle(h));
    var v' := Change(v, 0, Pass(h), Dest(h));
    assert Begin(u, v', 0, h);
    ReachStep(u, v');
  }

  /** A state with no action running. */
  lemma {:induction false} ReachIdle(cur: St) returns (v: Vol)
    ensures Reachable(v) && v.cur == cur && v.count == map[] && 1 !in v.held && 2 !in v.held && v.lock == None
    ensures cur in Active + {SyncReady, Stopped} ==> !v.stopping
  {
    hide Reachable;
    if cur in Steady {
      FreshReachable(cur);
      return Fresh(cur);
    }
    if cur == Resync {
      v := Change(Fresh(SyncReady), 0, Resync, Archived);
      FreshReachable(SyncReady);
      var u := ReachEnter(Fresh(SyncReady), DoResync);
      assert BeginResync(u, v, 0);
      ReachStep(u, v);
      return;
    }
    if cur == Stop {
      var u := Fresh(Archived).(stopping := true);
      FreshReachable(Archived);
      assert SetStopping(Fresh(Archived), u);
      ReachStep(Fresh(Archived), u);
      ReachBegin(u, StopVolume);
      return Change(u, 0, Stop, Stopped);
    }
    var h := match cur
      case InitVol => InitVolume case ClearVol => ClearVolume case ResetVol => ResetVolume case FullSync => FullBackup
      case HashSync => HashBackup case WdiffRecv => WdiffTransfer case Start => StartVolume case _ => ReplicationRound;
    var from := match cur
      case InitVol => Clear case ClearVol => Stopped case ResetVol => Stopped case FullSync => SyncReady
      case Start => Stopped case _ => Archived;
    FreshReachable(from);
    ReachBegin(Fresh(from), h);
    v := Change(Fresh(from), 0, Pass(h), Dest(h));
  }

  lemma {:induction false} ReachAction(v: Vol, i: nat, a: Action)
    requires Reachable(v) && v.lock == None && i !in v.held && !v.stopping
    requires NotRunning(v, DenyFor(a)) && v.cur in AcceptFor(a)
    ensures Reachable(Started(v, i, a))
  {
    hide Reachable, NotRunning, DenyFor, AcceptFor;
    var u, v' := v.(lock := Some(Admission(i, Act(a)))), Started(v, i, a);
    assert Enter(v, u, i, Act(a));
    ReachStep(v, u);
    assert BeginAction(u, v', i, a);
    ReachStep(u, v');
  }

  /** The exclusions are exact: every combination of state and actions they allow occurs in some run. */
  lemma {:induction false} AllowedIsReachable(cur: St, s: set<Action>) returns (v: Vol)
    requires Allowed(cur, s)
    ensures Reachable(v) && v.cur == cur && Running(v) == s
  {
    hide Reachable, Allowed, Long, Short, DenyFor, AcceptFor, Running, NotRunning, Count;
    v := ReachIdle(cur);
    var long, short := Long(s), Short(s);
    Parts(cur, s);
    assert Running(v) == {} by { IdleRunsNothing(v); }
    if a :| a in long {
      v := Join(v, 1, a);
    }
    assert Running(v) == long;
    if b :| b in short {
      v := Join(v, 2, b);
    }
  }

  lemma {:induction false} IdleRunsNothing(v: Vol)
    requires v.count == map[]
    ensures Running(v) == {}
  {
  }

  lemma {:induction false} Join(v: Vol, i: nat, a: Action) returns (v': Vol)
    requires Reachable(v) && v.lock == None && i !in v.held && !v.stopping
    requires Running(v) !! DenyFor(a) && v.cur in AcceptFor(a)
    ensures Reachable(v') && v'.cur == v.cur && v'.lock == None && Running(v') == Running(v) + {a}
    ensures v'.stopping == v.stopping && v'.held == v.held[i := ActionTran(a)]
  {
    hide Reachable;
    forall c | c in DenyFor(a) ensures Count(v, c) == 0 { IsRunning(v, c); }
    ReachAction(v, i, a);
    v' := StartedRuns(v, i, a);
  }

  /** The one action of a kind that runs for long, and the one that may join it. */
  function Long(s: set<Action>): set<Action> {
    if Merge in s then {Merge} else if Apply in s then {Apply} else if ReplSync in s then {ReplSync} else {}
  }

  function Short(s: set<Action>): set<Action> {
    if Restore in s then {Restore} else if Resize in s then {Resize} else {}
  }

  lemma {:induction false} Parts(cur: St, s: set<Action>)
    requires Allowed(cur, s)
    ensures s == Long(s) + Short(s) && (s != {} ==> cur in Active + {SyncReady, Stopped})
    ensures forall a :: a in Long(s) ==> cur in AcceptFor(a) && Long(s) == {a}
    ensures forall b :: b in Short(s) ==> cur in AcceptFor(b) && Long(s) !! DenyFor(b) && Short(s) == {b}
  {
    forall a: Action ensures a in s ==> a in Long(s) + Short(s) {
      match a
      case Merge =>
      case Apply =>
      case Restore =>
      case ReplSync =>
      case Resize =>
    }
  }

  lemma {:induction false} StartedRuns(v: Vol, i: nat, a: Action) returns (v': Vol)
    requires Count(v, a) == 0
    ensures v' == Started(v, i, a) && Running(v') == Running(v) + {a}
  {
    v' := Started(v, i, a);
    forall b: Action ensures b in Running(v') <==> b in Running(v) + {a} {
      IsRunning(v, b);
      IsRunning(v', b);
    }
  }

  // ---- exactly what can start ----

  /** An action starts in state `cur` next to the actions s. */
  ghost predicate StartsWith(v: Vol, v': Vol, cur: St, s: set<Action>, a: Action) {
    Reachable(v) && v.cur == cur && Running(v) == s && exists i :: BeginAction(v, v', i, a)
  }

  predicate MayStart(cur: St, s: set<Action>, a: Action) {
    match a
    case Restore => cur in {Archived, HashSync, WdiffRecv, ReplSyncAsServer}
                    && (s <= {Merge} || s <= {Apply} || s <= {ReplSync})
    case Resize => if cur in {SyncReady, Stopped} then s == {}
                   else cur in {Archived, HashSync, WdiffRecv, ReplSyncAsServer} && s <= {Merge}
    case _ => cur in {Archived, HashSync, WdiffRecv, ReplSyncAsServer} && s == {}
  }

  lemma {:induction false} StartsOnlyIf(v: Vol, v': Vol, cur: St, s: set<Action>, a: Action)
    requires StartsWith(v, v', cur, s, a)
    ensures MayStart(cur, s, a)
  {
    var run: seq<Vol> :| IsRun(run) && run[|run| - 1] == v;
    RunKeepsInv(run, |run| - 1);
    AdmittedMayStart(v, a);
  }

  lemma {:induction false} AdmittedMayStart(v: Vol, a: Action)
    requires Inv(v) && v.lock.Some? && v.lock.value.op == Act(a)
    ensures MayStart(v.cur, Running(v), a)
  {
    hide CountOk;
    assert NotRunning(v, DenyFor(a)) && v.cur in AcceptFor(a);
    forall b: Action ensures b in Running(v) ==> b !in DenyFor(a) { IsRunning(v, b); }
    SubsetsOfOne(Running(v));
  }

  lemma {:induction false} SubsetsOfOne(s: set<Action>)
    ensures Compatible(s) && Restore !in s && Resize !in s ==> s <= {Merge} || s <= {Apply} || s <= {ReplSync}
    ensures Restore !in s && Resize !in s && Apply !in s && ReplSync !in s ==> s <= {Merge}
    ensures Restore !in s && Resize !in s && Apply !in s && ReplSync !in s && Merge !in s ==> s == {}
  {
    forall b: Action ensures b in s ==> b in AllActions {
      match b
      case Merge =>
      case Apply =>
      case Restore =>
      case ReplSync =>
      case Resize =>
    }
  }

  /** In some run an action starts in the state, next to exactly these actions, if and only if: nothing runs; or it is
      a restore next to one merge, apply or replication; or a resize next to a merge. All but a resize need an active
      state; a resize may also run, alone, on a volume that is stopped or ready for a sync. */
  lemma {:induction false} StartIff(cur: St, s: set<Action>, a: Action)
    ensures (exists v, v' :: StartsWith(v, v', cur, s, a)) <==> MayStart(cur, s, a)
  {
    hide StartsWith, MayStart;
    if v, v' :| StartsWith(v, v', cur, s, a) {
      StartsOnlyIf(v, v', cur, s, a);
    }
    if MayStart(cur, s, a) {
      var v, v' := StartIf(cur, s, a);
    }
  }

  lemma {:induction false} StartIf(cur: St, s: set<Action>, a: Action) returns (v: Vol, v': Vol)
    requires MayStart(cur, s, a)
    ensures StartsWith(v, v', cur, s, a)
  {
    hide Reachable, Running, NotRunning, Count, DenyFor, AcceptFor, MayStart, StartsWith;
    MayStartParts(cur, s, a);
    v := ReachIdle(cur);
    IdleRunsNothing(v);
    if b :| b in s {
      v := Join(v, 1, b);
      assert {} + {b} == s;
    } else {
      assert s == {};
    }
    v, v' := StartNow(v, 2, a);
  }

  lemma {:induction false} MayStartParts(cur: St, s: set<Action>, a: Action)
    requires MayStart(cur, s, a)
    ensures cur in Active + {SyncReady, Stopped} && cur in AcceptFor(a) && s !! DenyFor(a)
    ensures forall b :: b in s ==> s == {b} && cur in AcceptFor(b)
  {
  }

  lemma {:induction false} StartNow(v0: Vol, i: nat, a: Action) returns (v: Vol, v': Vol)
    requires Reachable(v0) && v0.lock == None && i !in v0.held && !v0.stopping
    requires Running(v0) !! DenyFor(a) && v0.cur in AcceptFor(a)
    ensures StartsWith(v, v', v0.cur, Running(v0), a)
  {
    hide Reachable, DenyFor, AcceptFor;
    forall c | c in DenyFor(a) ensures Count(v0, c) == 0 { IsRunning(v0, c); }
    v := v0.(lock := Some(Admission(i, Act(a))));
    v' := Started(v, i, a).(lock := None);
    assert Enter(v0, v, i, Act(a));
    ReachStep(v0, v);
    assert BeginAction(v, v', i, a);
    assert Running(v) == Running(v0);
  }

  /** Every handler is admitted and can start its transaction in some run. */
  lemma {:induction false} HandlerCanStart(h: Handler) returns (v: Vol)
    ensures Reachable(v) && v.lock == Some(Admission(0, Handle(h))) && CanChange(v, From(v, h), Pass(h))
  {
    hide Reachable;
    var from := match h
      case InitVolume => Clear case ClearVolume => Stopped case ResetVolume => Stopped case StartVolume => Stopped
      case FullBackup => SyncReady case FullReplication => SyncReady case _ => Archived;
    FreshReachable(from);
    var u := Fresh(from);
    if h == StopVolume {
      u := u.(stopping := true);
      assert SetStopping(Fresh(from), u);
      ReachStep(Fresh(from), u);
    }
    v := ReachEnter(u, Handle(h));
  }
}
