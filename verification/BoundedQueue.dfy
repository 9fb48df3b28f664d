/**
 `BoundedQueue` (include/thread_util.hpp) under any number of threads: each step is what one thread does while
 it holds the mutex, up to a wait on a condition variable or the return.
 */
module BoundedQueues {
  /** What a thread is doing in the queue. `Asleep` threads wait on a condition variable and were not notified
      since; `Woken` ones were, and have to take the mutex again. */
  datatype Thread<T> = PushAsleep(item: T) | PushWoken(item: T) | PopAsleep | PopWoken

  /** `pushed` and `popped` are the items that went in and came out, in order. */
  datatype Queue<T> = Queue(size: nat, items: seq<T>, isClosed: bool, isFailed: bool, threads: map<nat, Thread<T>>,
                            pushed: seq<T>, popped: seq<T>)

  predicate IsFull<T>(q: Queue<T>) {
    q.size <= |q.items|
  }

  predicate Initial<T>(q: Queue<T>) {
    2 <= q.size && q.items == [] && !q.isClosed && !q.isFailed && q.threads == map[] && q.pushed == [] && q.popped == []
  }

  /** `notify_all` on `condEmpty_` and `condFull_` */
  function NotifyPoppers<T>(th: map<nat, Thread<T>>): map<nat, Thread<T>> {
    map i | i in th :: if th[i].PopAsleep? then PopWoken else th[i]
  }

  function NotifyPushers<T>(th: map<nat, Thread<T>>): map<nat, Thread<T>> {
    map i | i in th :: if th[i].PushAsleep? then PushWoken(th[i].item) else th[i]
  }

  /** The rest of `pushInner` once the thread holds the mutex. */
  function PushBody<T>(q: Queue<T>, i: nat, x: T): Queue<T> {
    if q.isFailed || q.isClosed then q.(threads := q.threads - {i})
    else if IsFull(q) then q.(threads := q.threads[i := PushAsleep(x)])
    else
      var th := q.threads - {i};
      q.(items := q.items + [x], pushed := q.pushed + [x],
         threads := if q.items == [] then NotifyPoppers(th) else th)
  }

  /** The rest of `popInner` once the thread holds the mutex. */
  function PopBody<T>(q: Queue<T>, i: nat): Queue<T> {
    if q.isFailed || (q.isClosed && q.items == []) then q.(threads := q.threads - {i})
    else if q.items == [] then q.(threads := q.threads[i := PopAsleep])
    else
      var th := q.threads - {i};
      q.(items := q.items[1..], popped := q.popped + [q.items[0]],
         threads := if IsFull(q) then NotifyPushers(th) else th)
  }

  // ---- steps ----

  ghost predicate Push<T>(q: Queue<T>, q': Queue<T>, i: nat, x: T) {
    i !in q.threads && q' == PushBody(q, i, x)
  }

  /** A wait ends, after a notification or spuriously. */
  ghost predicate WakePush<T>(q: Queue<T>, q': Queue<T>, i: nat) {
    i in q.threads && (q.threads[i].PushWoken? || q.threads[i].PushAsleep?) && q' == PushBody(q, i, q.threads[i].item)
  }

  ghost predicate Pop<T>(q: Queue<T>, q': Queue<T>, i: nat) {
    i !in q.threads && q' == PopBody(q, i)
  }

  ghost predicate WakePop<T>(q: Queue<T>, q': Queue<T>, i: nat) {
    i in q.threads && (q.threads[i].PopWoken? || q.threads[i].PopAsleep?) && q' == PopBody(q, i)
  }

  ghost predicate Sync<T>(q: Queue<T>, q': Queue<T>) {
    !q.isFailed && q' == q.(isClosed := true, threads := NotifyPushers(NotifyPoppers(q.threads)))
  }

  ghost predicate Fail<T>(q: Queue<T>, q': Queue<T>) {
    q' == if q.isFailed then q
          else q.(isClosed := true, isFailed := true, threads := NotifyPushers(NotifyPoppers(q.threads)))
  }

  ghost predicate Next<T(!new)>(q: Queue<T>, q': Queue<T>) {
    || (exists i, x :: Push(q, q', i, x)) || (exists i :: WakePush(q, q', i))
    || (exists i :: Pop(q, q', i)) || (exists i :: WakePop(q, q', i)) || Sync(q, q') || Fail(q, q')
  }

  // ---- what every run keeps ----

  /** FIFO, bounded, and a thread sleeps un-notified only while it really has to wait. */
  ghost predicate Inv<T>(q: Queue<T>) {
    && 2 <= q.size && |q.items| <= q.size && q.pushed == q.popped + q.items && (q.isFailed ==> q.isClosed)
    && (forall i :: i in q.threads && q.threads[i].PopAsleep? ==> q.items == [] && !q.isClosed)
    && (forall i :: i in q.threads && q.threads[i].PushAsleep? ==> IsFull(q) && !q.isClosed)
  }

  lemma {:induction false} InvPush<T>(q: Queue<T>, i: nat, x: T)
    requires Inv(q)
    ensures Inv(PushBody(q, i, x))
  {
  }

  lemma {:induction false} InvPop<T>(q: Queue<T>, i: nat)
    requires Inv(q)
    ensures Inv(PopBody(q, i))
  {
    if q.items != [] { assert q.items == [q.items[0]] + q.items[1..]; }
  }

  lemma {:induction false} InvStep<T(!new)>(q: Queue<T>, q': Queue<T>)
    requires Inv(q) && Next(q, q')
    ensures Inv(q') && q'.size == q.size
  {
    hide Inv, PushBody, PopBody;
    if i, x :| Push(q, q', i, x) {
      InvPush(q, i, x);
      SizeKept(q, i, x);
    } else if i :| WakePush(q, q', i) {
      InvPush(q, i, q.threads[i].item);
      SizeKept(q, i, q.threads[i].item);
    } else if i :| Pop(q, q', i) {
      InvPop(q, i);
      PopSizeKept(q, i);
    } else if i :| WakePop(q, q', i) {
      InvPop(q, i);
      PopSizeKept(q, i);
    } else {
      InvClose(q, q');
    }
  }

  lemma {:induction false} SizeKept<T>(q: Queue<T>, i: nat, x: T)
    ensures PushBody(q, i, x).size == q.size
  {
  }

  lemma {:induction false} PopSizeKept<T>(q: Queue<T>, i: nat)
    ensures PopBody(q, i).size == q.size
  {
  }

  lemma {:induction false} InvClose<T>(q: Queue<T>, q': Queue<T>)
    requires Inv(q) && (Sync(q, q') || Fail(q, q'))
    ensures Inv(q') && q'.size == q.size
  {
  }

  ghost predicate IsRun<T(!new)>(run: seq<Queue<T>>) {
    run != [] && Initial(run[0]) && forall k {:trigger StepAt(run, k)} :: 0 <= k < |run| - 1 ==> StepAt(run, k)
  }

  ghost predicate StepAt<T(!new)>(run: seq<Queue<T>>, k: nat)
    requires k < |run| - 1
  {
    Next(run[k], run[k + 1])
  }

  lemma {:induction false} RunKeepsInv<T(!new)>(run: seq<Queue<T>>, k: nat)
    requires IsRun(run) && k < |run|
    ensures Inv(run[k]) && run[k].size == run[0].size
  {
    hide Next;
    if k > 0 {
      RunKeepsInv(run, k - 1);
      assert StepAt(run, k - 1);
      InvStep(run[k - 1], run[k]);
    }
  }

  /** In every interleaving: items come out in the order they went in, the bound holds, and no wake-up is
      lost: a popper asleep and not notified means empty and open, a pusher asleep and not notified means
      full and open; so the two never sleep together. */
  lemma {:induction false} NoLostWakeup<T(!new)>(run: seq<Queue<T>>, k: nat)
    requires IsRun(run) && k < |run|
    ensures run[k].popped <= run[k].pushed && run[k].pushed[|run[k].popped|..] == run[k].items
    ensures |run[k].items| <= run[0].size
    ensures forall i :: i in run[k].threads && run[k].threads[i].PopAsleep? ==> run[k].items == [] && !run[k].isClosed
    ensures forall i :: i in run[k].threads && run[k].threads[i].PushAsleep? ==>
                          |run[k].items| == run[0].size && !run[k].isClosed
    ensures forall i, j :: i in run[k].threads && j in run[k].threads ==>
                             !(run[k].threads[i].PopAsleep? && run[k].threads[j].PushAsleep?)
  {
    RunKeepsInv(run, k);
  }

  // ---- how a push or a pop ends ----

  /** Thread i goes through `popInner` up to a wait or the return. */
  ghost predicate PopStep<T(!new)>(q: Queue<T>, q': Queue<T>, i: nat) {
    Pop(q, q', i) || WakePop(q, q', i)
  }

  /** Thread i goes through `pushInner` with item x up to a wait or the return. */
  ghost predicate PushStep<T(!new)>(q: Queue<T>, q': Queue<T>, i: nat, x: T) {
    Push(q, q', i, x) || (WakePush(q, q', i) && q.threads[i].item == x)
  }

  /** At every step of every run in which a thread pops: it gets the oldest item not yet delivered exactly if there is
      one and the queue has not failed; it sleeps exactly if there is none and more may come; so it returns with
      nothing exactly if the queue has failed, or is closed and everything was delivered. */
  lemma {:induction false} PopOutcome<T(!new)>(run: seq<Queue<T>>, k: nat, i: nat)
    requires IsRun(run) && k + 1 < |run| && PopStep(run[k], run[k + 1], i)
    ensures run[k + 1].pushed == run[k].pushed && run[k].popped <= run[k].pushed
    ensures if !run[k].isFailed && run[k].popped != run[k].pushed
            then run[k + 1].popped == run[k].popped + [run[k].pushed[|run[k].popped|]] && i !in run[k + 1].threads
            else run[k + 1].popped == run[k].popped
    ensures i in run[k + 1].threads <==> run[k].popped == run[k].pushed && !run[k].isClosed
    ensures i !in run[k + 1].threads && run[k + 1].popped == run[k].popped
            <==> run[k].isFailed || (run[k].isClosed && run[k].popped == run[k].pushed)
  {
    RunKeepsInv(run, k);
    NoneLeft(run[k]);
  }

  lemma {:induction false} NoneLeft<T>(q: Queue<T>)
    requires Inv(q)
    ensures q.items == [] <==> q.popped == q.pushed
    ensures q.items != [] ==> |q.popped| < |q.pushed| && q.items[0] == q.pushed[|q.popped|]
  {
    assert |q.pushed| == |q.popped| + |q.items|;
  }

  /** At every step of every run in which a thread pushes x: it goes behind all pushed before exactly if the queue is
      open and has room; the thread sleeps exactly if the queue is open and full; so it ends without its item
      exactly if the queue is closed or failed. */
  lemma {:induction false} PushOutcome<T(!new)>(run: seq<Queue<T>>, k: nat, i: nat, x: T)
    requires IsRun(run) && k + 1 < |run| && PushStep(run[k], run[k + 1], i, x)
    ensures run[k + 1].popped == run[k].popped
    ensures if !run[k].isClosed && !run[k].isFailed && |run[k].pushed| < |run[k].popped| + run[0].size
            then run[k + 1].pushed == run[k].pushed + [x] && i !in run[k + 1].threads
            else run[k + 1].pushed == run[k].pushed
    ensures i in run[k + 1].threads
            <==> !run[k].isClosed && !run[k].isFailed && |run[k].pushed| == |run[k].popped| + run[0].size
    ensures i !in run[k + 1].threads && run[k + 1].pushed == run[k].pushed <==> run[k].isClosed || run[k].isFailed
  {
    RunKeepsInv(run, k);
    NoneLeft(run[k]);
  }

  /** Closed and empty is for ever. */
  lemma {:induction false} EndStays<T(!new)>(run: seq<Queue<T>>, k: nat, j: nat)
    requires IsRun(run) && k <= j < |run| && run[k].isClosed && run[k].popped == run[k].pushed
    ensures run[j].isClosed && run[j].popped == run[j].pushed == run[k].pushed
  {
    if k < j {
      EndStays(run, k, j - 1);
      RunKeepsInv(run, j - 1);
      assert StepAt(run, j - 1);
      EndStep(run[j - 1], run[j]);
    }
  }

  lemma {:induction false} EndStep<T(!new)>(q: Queue<T>, q': Queue<T>)
    requires Inv(q) && Next(q, q') && q.isClosed && q.popped == q.pushed
    ensures q'.isClosed && q'.popped == q.popped && q'.pushed == q.pushed
  {
    NoneLeft(q);
  }

  /** Without a failure a pop ends with nothing only when everything that is ever pushed was delivered. */
  lemma {:induction false} EndMeansAllDelivered<T(!new)>(run: seq<Queue<T>>, k: nat, i: nat, j: nat)
    requires IsRun(run) && k < j < |run| && PopStep(run[k], run[k + 1], i) && !run[k].isFailed
    requires i !in run[k + 1].threads && run[k + 1].popped == run[k].popped
    ensures run[j].pushed == run[k].popped
  {
    hide PopStep;
    PopOutcome(run, k, i);
    EndStays(run, k, j);
  }

  /** After `sync` no push adds anything, and everything pushed before can still be popped; after `fail` nothing goes in
      or out any more. After either nobody sleeps without having been notified. */
  lemma {:induction false} AfterClose<T(!new)>(run: seq<Queue<T>>, k: nat, j: nat)
    requires IsRun(run) && k < j < |run| && (Sync(run[k], run[k + 1]) || Fail(run[k], run[k + 1]))
    ensures run[j].pushed == run[k].pushed
    ensures Fail(run[k], run[k + 1]) ==> run[j].popped == run[k].popped && run[j].isFailed
    ensures forall i :: i in run[j].threads ==> !run[j].threads[i].PopAsleep? && !run[j].threads[i].PushAsleep?
    ensures run[j].isClosed
  {
    RunKeepsInv(run, j);
    if k + 1 < j {
      AfterClose(run, k, j - 1);
      assert StepAt(run, j - 1);
      ClosedStep(run[j - 1], run[j]);
    } else {
      RunKeepsInv(run, k);
    }
  }

  lemma {:induction false} ClosedStep<T(!new)>(q: Queue<T>, q': Queue<T>)
    requires Next(q, q') && q.isClosed
    ensures q'.isClosed && q'.pushed == q.pushed && (q.isFailed ==> q'.isFailed && q'.popped == q.popped)
  {
  }

  // ---- a resize in use loses wake-ups ----

  /** `resize`, which notifies nobody. */
  ghost predicate Resize<T>(q: Queue<T>, q': Queue<T>, size: nat) {
    2 <= size && q' == q.(size := size)
  }

  ghost predicate NoPusherAsleep<T>(q: Queue<T>) {
    forall i :: i in q.threads ==> !q.threads[i].PushAsleep?
  }

  /** A resize keeps the invariant exactly when the items fit and, if the size changes, nobody sleeps in
      `push` unless the queue is still full. */
  lemma {:induction false} ResizeSafeIff<T>(q: Queue<T>, q': Queue<T>, size: nat)
    requires Inv(q) && Resize(q, q', size)
    ensures Inv(q') <==> |q.items| <= size && (NoPusherAsleep(q) || size <= |q.items|)
  {
    if Inv(q') && !NoPusherAsleep(q) {
      var i :| i in q.threads && q.threads[i].PushAsleep?;
      assert i in q'.threads && q'.threads[i].PushAsleep?;
    }
  }

  /** A pusher asleep on a full queue of two, a resize to four, and two pops: the queue is empty, and the
      pusher still sleeps, not notified by anybody. */
  lemma {:induction false} ResizeStrandsPusher(x: int)
    ensures var q0 := Queue(2, [x, x], false, false, map[0 := PushAsleep(x)], [x, x], []);
            var q1 := q0.(size := 4);
            var q3 := PopBody(PopBody(q1, 1), 1);
            Inv(q0) && Resize(q0, q1, 4) && q3.items == [] && !q3.isClosed && 0 in q3.threads
                && q3.threads[0].PushAsleep?
  {
  }
}
