/**
 Concurrent writers under `RangeMutex` (binsrc/write_overlapped_and_verify.cpp), with start offset 0. Threads take
 turns at any point: a write reaches the device block by block, in any order.
 */
module RangeMutexes {
  import opened Wrappers

  /** What a worker thread is doing with blocks [a, a + n): it holds the lock, has drawn its IO number and writes
      (`done` are the blocks already on the device), or has noted the number and is about to unlock. */
  datatype Worker =
    | Idle
    | Locked(a: nat, n: nat)
    | Writing(a: nat, n: nat, ioId: nat, done: set<nat>)
    | Noted(a: nat, n: nat)

  /** `bmp`: the lock bits. `file`: whose data a block holds. `ioIdV`: the number each thread noted last for each
      block. */
  datatype State = State(bmp: seq<bool>, ioIdGen: nat, workers: map<nat, Worker>, file: seq<Option<nat>>,
                         ioIdV: map<nat, seq<nat>>)

  ghost predicate Initial(s: State) {
    && (forall i :: 0 <= i < |s.bmp| ==> !s.bmp[i]) && s.ioIdGen == 1
    && (forall t :: t in s.workers ==> s.workers[t] == Idle)
    && |s.file| == |s.bmp| && (forall i :: 0 <= i < |s.file| ==> s.file[i] == None)
    && s.ioIdV.Keys == s.workers.Keys
    && (forall t :: t in s.ioIdV ==> |s.ioIdV[t]| == |s.bmp|)
    && (forall t, i :: t in s.ioIdV && 0 <= i < |s.ioIdV[t]| ==> s.ioIdV[t][i] == 0)
  }

  predicate Has(w: Worker, i: nat) {
    !w.Idle? && w.a <= i < w.a + w.n
  }

  function Filled<T>(v: seq<T>, a: nat, n: nat, x: T): (r: seq<T>)
    requires a + n <= |v|
    ensures |r| == |v| && forall i :: 0 <= i < |v| ==> r[i] == if a <= i < a + n then x else v[i]
  {
    seq(|v|, i requires 0 <= i < |v| => if a <= i < a + n then x else v[i])
  }

  // ---- steps ----

  /** `RangeMutex::lock` gets through. */
  ghost predicate Lock(s: State, s': State, t: nat, a: nat, n: nat) {
    && t in s.workers && s.workers[t].Idle? && a + n <= |s.bmp|
    && (forall i :: a <= i < a + n ==> !s.bmp[i])
    && s' == s.(bmp := Filled(s.bmp, a, n, true), workers := s.workers[t := Locked(a, n)])
  }

  /** `ioIdGen_++` */
  ghost predicate Number(s: State, s': State, t: nat) {
    && t in s.workers && s.workers[t].Locked?
    && s' == s.(ioIdGen := s.ioIdGen + 1,
                workers := s.workers[t := Writing(s.workers[t].a, s.workers[t].n, s.ioIdGen, {})])
  }

  /** One block of the `pwrite` reaches the device. */
  ghost predicate WriteBlock(s: State, s': State, t: nat, i: nat) {
    && t in s.workers && s.workers[t].Writing? && Has(s.workers[t], i) && i < |s.file|
    && s' == s.(file := s.file[i := Some(t)],
                workers := s.workers[t := s.workers[t].(done := s.workers[t].done + {i})])
  }

  /** The `pwrite` is over and `fillIoIdV` notes the number. */
  ghost predicate Note(s: State, s': State, t: nat) {
    && t in s.workers && t in s.ioIdV && s.workers[t].Writing?
    && var w := s.workers[t];
       && (forall i :: w.a <= i < w.a + w.n ==> i in w.done)
       && w.a + w.n <= |s.ioIdV[t]|
       && s' == s.(ioIdV := s.ioIdV[t := Filled(s.ioIdV[t], w.a, w.n, w.ioId)],
           workers := s.workers[t := Noted(w.a, w.n)])
  }

  ghost predicate Unlock(s: State, s': State, t: nat) {
    && t in s.workers && s.workers[t].Noted? && s.workers[t].a + s.workers[t].n <= |s.bmp|
    && s' == s.(bmp := Filled(s.bmp, s.workers[t].a, s.workers[t].n, false), workers := s.workers[t := Idle])
  }

  ghost predicate Next(s: State, s': State) {
    || (exists t, a, n :: Lock(s, s', t, a, n)) || (exists t :: Number(s, s', t))
        || (exists t, i :: WriteBlock(s, s', t, i))
    || (exists t :: Note(s, s', t)) || (exists t :: Unlock(s, s', t))
  }

  // ---- what every interleaving keeps ----

  ghost predicate ShapeOk(s: State) {
    && |s.file| == |s.bmp| && s.ioIdV.Keys == s.workers.Keys && (forall t :: t in s.ioIdV ==> |s.ioIdV[t]| == |s.bmp|)
    && (forall t :: t in s.workers && !s.workers[t].Idle? ==> s.workers[t].a + s.workers[t].n <= |s.bmp|)
  }

  /** A block is locked exactly when a worker has it, and then only one has. */
  ghost predicate LockOk(s: State) {
    && (forall t, i: nat :: t in s.workers && Has(s.workers[t], i) ==> i < |s.bmp| && s.bmp[i])
    && (forall t, u, i: nat ::
          t in s.workers && u in s.workers && Has(s.workers[t], i) && Has(s.workers[u], i) ==> t == u)
    && (forall i :: 0 <= i < |s.bmp| && s.bmp[i] ==> exists t :: t in s.workers && Has(s.workers[t], i))
  }

  /** Numbers grow: a writer's is above all noted for its blocks, and the generator's is above all. */
  ghost predicate NumbersOk(s: State)
    requires ShapeOk(s)
  {
    && 0 < s.ioIdGen
    && (forall t, i :: t in s.ioIdV && 0 <= i < |s.ioIdV[t]| ==> s.ioIdV[t][i] < s.ioIdGen)
    && (forall t :: t in s.workers && s.workers[t].Writing? ==> 0 < s.workers[t].ioId < s.ioIdGen)
    && (forall t, u, i: nat ::
          t in s.workers && s.workers[t].Writing? && Has(s.workers[t], i) && u in s.ioIdV && i < |s.ioIdV[u]| ==>
            s.ioIdV[u][i] < s.workers[t].ioId)
  }

  /** Some worker has written block i and not yet noted it. */
  ghost predicate Dirty(s: State, i: nat) {
    exists t :: InDone(s, t, i)
  }

  ghost predicate InDone(s: State, t: nat, i: nat) {
    t in s.workers && s.workers[t].Writing? && i in s.workers[t].done
  }

  /** Thread t noted the largest number for block i, alone; or nobody wrote it. */
  ghost predicate IsLast(ioIdV: map<nat, seq<nat>>, i: nat, owner: Option<nat>) {
    && (forall u :: u in ioIdV ==> i < |ioIdV[u]|)
    && match owner
       case None => forall u :: u in ioIdV ==> ioIdV[u][i] == 0
       case Some(t) => t in ioIdV && ioIdV[t][i] > 0 && forall u :: u in ioIdV && u != t ==> ioIdV[u][i] < ioIdV[t][i]
  }

  ghost predicate ContentOk(s: State)
    requires ShapeOk(s)
  {
    && (forall t: nat, i: nat :: InDone(s, t, i) ==> Has(s.workers[t], i) && i < |s.file| && s.file[i] == Some(t))
    && (forall i :: 0 <= i < |s.file| && !Dirty(s, i) ==> IsLast(s.ioIdV, i, s.file[i]))
  }

  ghost predicate Inv(s: State) {
    ShapeOk(s) && LockOk(s) && NumbersOk(s) && ContentOk(s)
  }

  /** Steps that change neither blocks nor notes, nor what is being written. */
  lemma {:induction false} ContentKept(s: State, s': State)
    requires ShapeOk(s) && ShapeOk(s') && ContentOk(s) && s'.file == s.file && s'.ioIdV == s.ioIdV
    requires forall t, i: nat :: InDone(s', t, i) <==> InDone(s, t, i)
    requires forall t, i: nat :: InDone(s, t, i) ==> s'.workers[t] == s.workers[t]
    ensures ContentOk(s')
  {
    forall i: nat ensures Dirty(s', i) <==> Dirty(s, i) {
      if Dirty(s, i) { var t :| InDone(s, t, i); assert InDone(s', t, i); }
      if Dirty(s', i) { var t :| InDone(s', t, i); assert InDone(s, t, i); }
    }
    forall t: nat, i: nat | InDone(s', t, i) ensures Has(s'.workers[t], i) && i < |s'.file| && s'.file[i] == Some(t) {
      assert InDone(s, t, i);
    }
  }

  lemma {:induction false} InvLock(s: State, s': State, t: nat, a: nat, n: nat)
    requires Inv(s) && Lock(s, s', t, a, n)
    ensures Inv(s')
  {
    LockLock(s, s', t, a, n);
    ContentKept(s, s');
  }

  lemma {:induction false} LockLock(s: State, s': State, t: nat, a: nat, n: nat)
    requires ShapeOk(s) && LockOk(s) && Lock(s, s', t, a, n)
    ensures LockOk(s')
  {
    forall i | 0 <= i < |s'.bmp| && s'.bmp[i] ensures exists u :: u in s'.workers && Has(s'.workers[u], i) {
      if a <= i < a + n {
        assert Has(s'.workers[t], i);
      } else {
        var u :| u in s.workers && Has(s.workers[u], i);
        assert Has(s'.workers[u], i);
      }
    }
    forall u, v, i: nat | u in s'.workers && v in s'.workers && Has(s'.workers[u], i)
        && Has(s'.workers[v], i) ensures u == v {
      assert u != t ==> Has(s.workers[u], i) && s.bmp[i];
      assert v != t ==> Has(s.workers[v], i) && s.bmp[i];
    }
    forall u, i: nat | u in s'.workers && Has(s'.workers[u], i) ensures i < |s'.bmp| && s'.bmp[i] {
      assert u != t ==> Has(s.workers[u], i);
    }
  }

  /** Steps in which every worker keeps its blocks. */
  lemma {:induction false} LockKept(s: State, s': State)
    requires LockOk(s) && s'.bmp == s.bmp && s'.workers.Keys == s.workers.Keys
    requires forall t, i: nat :: t in s.workers ==> (Has(s'.workers[t], i) <==> Has(s.workers[t], i))
    ensures LockOk(s')
  {
    forall i | 0 <= i < |s'.bmp| && s'.bmp[i] ensures exists u :: u in s'.workers && Has(s'.workers[u], i) {
      var u :| u in s.workers && Has(s.workers[u], i);
      assert Has(s'.workers[u], i);
    }
  }

  lemma {:induction false} InvNumber(s: State, s': State, t: nat)
    requires Inv(s) && Number(s, s', t)
    ensures Inv(s')
  {
    LockKept(s, s') by { hide ShapeOk, LockOk, NumbersOk, ContentOk; }
    ContentKept(s, s');
  }

  lemma {:induction false} InvWriteBlock(s: State, s': State, t: nat, i: nat)
    requires Inv(s) && WriteBlock(s, s', t, i)
    ensures Inv(s')
  {
    LockKept(s, s') by { hide ShapeOk, LockOk, NumbersOk, ContentOk; }
    WriteContent(s, s', t, i);
  }

  lemma {:induction false} WriteContent(s: State, s': State, t: nat, i: nat)
    requires ShapeOk(s) && LockOk(s) && ContentOk(s) && WriteBlock(s, s', t, i)
    ensures ContentOk(s')
  {
    assert InDone(s', t, i);
    forall u: nat, j: nat | InDone(s', u, j) ensures Has(s'.workers[u], j) && j < |s'.file| && s'.file[j] == Some(u) {
      if u != t || j != i {
        assert InDone(s, u, j) && Has(s.workers[u], j);
        assert Has(s.workers[t], i);
      }
    }
    forall j | 0 <= j < |s'.file| && !Dirty(s', j) ensures IsLast(s'.ioIdV, j, s'.file[j]) {
      assert j != i;
      assert !Dirty(s, j) by { StillDirty(s, s', t, i, j); }
    }
  }

  lemma {:induction false} StillDirty(s: State, s': State, t: nat, i: nat, j: nat)
    requires WriteBlock(s, s', t, i)
    ensures Dirty(s, j) ==> Dirty(s', j)
  {
    if Dirty(s, j) {
      var u :| InDone(s, u, j);
      assert InDone(s', u, j);
    }
  }

  lemma {:induction false} InvNote(s: State, s': State, t: nat)
    requires Inv(s) && Note(s, s', t)
    ensures Inv(s')
  {
    LockKept(s, s') by { hide ShapeOk, LockOk, NumbersOk, ContentOk; }
    NoteNumbers(s, s', t);
    NoteContent(s, s', t);
  }

  lemma {:induction false} NoteNumbers(s: State, s': State, t: nat)
    requires ShapeOk(s) && LockOk(s) && NumbersOk(s) && Note(s, s', t)
    ensures ShapeOk(s') && NumbersOk(s')
  {
    forall u, v, i: nat | u in s'.workers && s'.workers[u].Writing? && Has(s'.workers[u], i) && v in s'.ioIdV
        && i < |s'.ioIdV[v]|
      ensures s'.ioIdV[v][i] < s'.workers[u].ioId
    {
      assert Has(s.workers[u], i);
      assert u != t ==> !Has(s.workers[t], i);
    }
  }

  lemma {:induction false} NoteContent(s: State, s': State, t: nat)
    requires ShapeOk(s) && LockOk(s) && NumbersOk(s) && ContentOk(s) && Note(s, s', t) && ShapeOk(s')
    ensures ContentOk(s')
  {
    var w := s.workers[t];
    forall u: nat, j: nat | InDone(s', u, j) ensures Has(s'.workers[u], j) && j < |s'.file| && s'.file[j] == Some(u) {
      assert InDone(s, u, j);
    }
    forall j | 0 <= j < |s'.file| && !Dirty(s', j) ensures IsLast(s'.ioIdV, j, s'.file[j]) {
      if w.a <= j < w.a + w.n {
        NotedIsLast(s, s', t, j);
      } else {
        assert !Dirty(s, j) by { NotNewlyClean(s, s', t, j); }
        OtherNote(s, s', t, j);
      }
    }
  }

  /** Noting cleans only the noted blocks. */
  lemma {:induction false} NotNewlyClean(s: State, s': State, t: nat, j: nat)
    requires ShapeOk(s) && ContentOk(s) && Note(s, s', t) && !Has(s.workers[t], j)
    ensures Dirty(s, j) ==> Dirty(s', j)
  {
    if Dirty(s, j) {
      var u :| InDone(s, u, j);
      assert Has(s.workers[u], j) && InDone(s', u, j);
    }
  }

  lemma {:induction false} NotedIsLast(s: State, s': State, t: nat, j: nat)
    requires ShapeOk(s) && NumbersOk(s) && ContentOk(s) && Note(s, s', t) && Has(s.workers[t], j) && j < |s.file|
    ensures IsLast(s'.ioIdV, j, s'.file[j])
  {
    assert InDone(s, t, j) && s.file[j] == Some(t);
    forall u | u in s'.ioIdV && u != t ensures s'.ioIdV[u][j] < s'.ioIdV[t][j] {
      assert s.ioIdV[u][j] < s.workers[t].ioId;
    }
  }

  lemma {:induction false} OtherNote(s: State, s': State, t: nat, j: nat)
    requires ShapeOk(s) && Note(s, s', t) && !Has(s.workers[t], j) && j < |s.file| && IsLast(s.ioIdV, j, s.file[j])
    ensures IsLast(s'.ioIdV, j, s'.file[j])
  {
    forall u | u in s'.ioIdV ensures j < |s'.ioIdV[u]| && s'.ioIdV[u][j] == s.ioIdV[u][j] {}
  }

  lemma {:induction false} InvUnlock(s: State, s': State, t: nat)
    requires Inv(s) && Unlock(s, s', t)
    ensures Inv(s')
  {
    UnlockLock(s, s', t);
    ContentKept(s, s');
  }

  lemma {:induction false} UnlockLock(s: State, s': State, t: nat)
    requires ShapeOk(s) && LockOk(s) && Unlock(s, s', t)
    ensures LockOk(s')
  {
    forall i | 0 <= i < |s'.bmp| && s'.bmp[i] ensures exists u :: u in s'.workers && Has(s'.workers[u], i) {
      var u :| u in s.workers && Has(s.workers[u], i);
      assert Has(s'.workers[u], i);
    }
    forall u, i: nat | u in s'.workers && Has(s'.workers[u], i) ensures i < |s'.bmp| && s'.bmp[i]
        && Has(s.workers[u], i) {
      assert u != t;
      assert Has(s.workers[u], i) && !Has(s.workers[t], i);
    }
    forall u, v, i: nat | u in s'.workers && v in s'.workers && Has(s'.workers[u], i)
        && Has(s'.workers[v], i) ensures u == v {
      assert Has(s.workers[u], i) && Has(s.workers[v], i);
    }
  }

  lemma {:induction false} InvStep(s: State, s': State)
    requires Inv(s) && Next(s, s')
    ensures Inv(s')
  {
    hide Inv, Lock, Number, WriteBlock, Note, Unlock;
    if t, a, n :| Lock(s, s', t, a, n) {
      InvLock(s, s', t, a, n);
    } else if t :| Number(s, s', t) {
      InvNumber(s, s', t);
    } else if t, i :| WriteBlock(s, s', t, i) {
      InvWriteBlock(s, s', t, i);
    } else if t :| Note(s, s', t) {
      InvNote(s, s', t);
    } else {
      var t :| Unlock(s, s', t);
      InvUnlock(s, s', t);
    }
  }

  lemma {:induction false} InvInitial(s: State)
    requires Initial(s)
    ensures Inv(s)
  {
    forall i | 0 <= i < |s.file| ensures IsLast(s.ioIdV, i, s.file[i]) {
      forall u | u in s.ioIdV ensures i < |s.ioIdV[u]| && s.ioIdV[u][i] == 0 {}
    }
    forall t, i | t in s.ioIdV && 0 <= i < |s.ioIdV[t]| ensures s.ioIdV[t][i] < s.ioIdGen {}
    forall t, i: nat | t in s.workers ensures !Has(s.workers[t], i) && !InDone(s, t, i) {
      assert s.workers[t] == Idle;
    }
    assert NumbersOk(s) by {
      forall t | t in s.workers ensures s.workers[t] == Idle {}
    }
  }

  ghost predicate IsRun(run: seq<State>) {
    run != [] && Initial(run[0]) && forall k {:trigger StepAt(run, k)} :: 0 <= k < |run| - 1 ==> StepAt(run, k)
  }

  ghost predicate StepAt(run: seq<State>, k: nat)
    requires k < |run| - 1
  {
    Next(run[k], run[k + 1])
  }

  lemma {:induction false} RunKeepsInv(run: seq<State>, k: nat)
    requires IsRun(run) && k < |run|
    ensures Inv(run[k])
  {
    hide Inv, Next, Initial;
    if k == 0 {
      InvInitial(run[0]);
    } else {
      RunKeepsInv(run, k - 1);
      assert StepAt(run, k - 1);
      InvStep(run[k - 1], run[k]);
    }
  }

  /** In every interleaving an idle thread gets a range exactly when nobody has a block of it. */
  lemma {:induction false} LocksIffFree(run: seq<State>, k: nat, t: nat, a: nat, n: nat)
    requires IsRun(run) && k < |run| && t in run[k].workers && run[k].workers[t].Idle? && a + n <= |run[k].bmp|
    ensures (exists s' :: Lock(run[k], s', t, a, n))
            <==> forall u, i: nat :: u in run[k].workers && a <= i < a + n ==> !Has(run[k].workers[u], i)
  {
    hide IsRun;
    RunKeepsInv(run, k);
    var s := run[k];
    if s' :| Lock(s, s', t, a, n) {
      forall u, i: nat | u in s.workers && a <= i < a + n ensures !Has(s.workers[u], i) {
        assert !s.bmp[i];
      }
    }
    if forall u, i: nat :: u in s.workers && a <= i < a + n ==> !Has(s.workers[u], i) {
      assert Lock(s, s.(bmp := Filled(s.bmp, a, n, true), workers := s.workers[t := Locked(a, n)]), t, a, n);
    }
  }

  /** A thread that has a range can always go on, so it comes to its unlock: a lock is not kept for ever. */
  lemma {:induction false} HolderProceeds(run: seq<State>, k: nat, t: nat)
    requires IsRun(run) && k < |run| && t in run[k].workers && !run[k].workers[t].Idle?
    ensures exists s' :: Proceeds(run[k], s', t)
  {
    hide IsRun;
    RunKeepsInv(run, k);
    var s := run[k];
    var w := s.workers[t];
    if w.Locked? {
      var s' := s.(ioIdGen := s.ioIdGen + 1, workers := s.workers[t := Writing(w.a, w.n, s.ioIdGen, {})]);
      assert Proceeds(s, s', t);
    } else if w.Noted? {
      var s' := s.(bmp := Filled(s.bmp, w.a, w.n, false), workers := s.workers[t := Idle]);
      assert Proceeds(s, s', t);
    } else if i :| w.a <= i < w.a + w.n && i !in w.done {
      var s' := s.(file := s.file[i := Some(t)], workers := s.workers[t := w.(done := w.done + {i})]);
      assert WriteBlock(s, s', t, i);
      assert Proceeds(s, s', t);
    } else {
      var s' := s.(ioIdV := s.ioIdV[t := Filled(s.ioIdV[t], w.a, w.n, w.ioId)],
          workers := s.workers[t := Noted(w.a, w.n)]);
      assert Proceeds(s, s', t);
    }
  }

  /** The next step of a thread that has a range; a block is written once. */
  ghost predicate Proceeds(s: State, s': State, t: nat) {
    || Number(s, s', t) || Note(s, s', t) || Unlock(s, s', t)
    || (exists i: nat :: WriteBlock(s, s', t, i) && i !in s.workers[t].done)
  }

  /** In every interleaving, overlapping ranges are never held together. */
  lemma {:induction false} HeldApart(run: seq<State>, k: nat, t: nat, u: nat)
    requires IsRun(run) && k < |run| && t in run[k].workers && u in run[k].workers && t != u
    ensures forall i: nat :: !(Has(run[k].workers[t], i) && Has(run[k].workers[u], i))
  {
    hide IsRun;
    RunKeepsInv(run, k);
  }

  /** Once all threads are done, each block holds the data of the thread that noted the largest number for it,
      and a block nobody noted was not written. */
  lemma {:induction false} LargestNumberWroteLast(run: seq<State>, k: nat, i: nat)
    requires IsRun(run) && k < |run| && i < |run[k].file|
    requires forall t :: t in run[k].workers ==> run[k].workers[t].Idle?
    ensures IsLast(run[k].ioIdV, i, run[k].file[i])
  {
    hide IsRun;
    RunKeepsInv(run, k);
  }

  ghost function ByThread(ioIdV: seq<seq<nat>>): map<nat, seq<nat>> {
    map j: nat | j < |ioIdV| :: ioIdV[j]
  }

  /** The maximum loop at the end names the owner of a block. */
  method FinalWriter(ioIdV: seq<seq<nat>>, i: nat, ghost owner: Option<nat>) returns (th: Option<nat>)
    requires IsLast(ByThread(ioIdV), i, owner)
    ensures th == owner
  {
    var maxIoId, thId := 0, 0;
    forall l | 0 <= l < |ioIdV| ensures i < |ioIdV[l]| && ByThread(ioIdV)[l] == ioIdV[l] {
      assert l in ByThread(ioIdV);
    }
    for j := 0 to |ioIdV|
      invariant forall l :: 0 <= l < j ==> ioIdV[l][i] <= maxIoId
      invariant maxIoId > 0 ==> 0 <= thId < j && ioIdV[thId][i] == maxIoId
    {
      if maxIoId < ioIdV[j][i] {
        maxIoId, thId := ioIdV[j][i], j;
      }
    }
    th := if maxIoId > 0 then Some(thId) else None;
    assert maxIoId > 0 ==> thId in ByThread(ioIdV);
  }
}
