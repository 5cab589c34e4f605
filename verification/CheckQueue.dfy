/**
  The parallel check queue (src/checkqueue.h): one master pushes checks, any
  number of workers take batches of them, and the master joins the pool in
  Wait() until everything is done.

  The protocol is a state machine. Each critical section is one atomic step, and
  every check executed outside the lock is a step of its own, so a run is an
  arbitrary interleaving of the two. Waking without a notification is allowed,
  as condition variables permit it.
*/
module CheckQueue {

  import opened Arithmetic

  /** A queued check; `ok` is what its operator() will return. */
  datatype Check = Check(id: int, ok: bool)

  datatype Thread =
    | Outside
    | Waiting(notified: bool)
    | Working(batch: seq<Check>, next: nat, fOk: bool)

  type Threads = t: seq<Thread> | |t| > 0 witness [Outside]

  /** The master is thread 0; all others are workers. */
  const MASTER: nat := 0

  /** The shared fields, the threads, and two history variables: the checks
      added since the last Wait() returned, and those already accounted for. */
  datatype State = State(
    queue: seq<Check>,
    nIdle: int,
    nTotal: int,
    fAllOk: bool,
    nTodo: int,
    fQuit: bool,
    threads: Threads,
    added: multiset<Check>,
    finished: multiset<Check>)

  function Init(nWorkers: nat, fQuit: bool): State {
    State([], 0, 0, true, 0, fQuit, seq(nWorkers + 1, _ => Outside), multiset{}, multiset{})
  }

  // ----- The steps -----

  function Notified(t: Thread): Thread {
    if t.Waiting? then Waiting(true) else t
  }

  function NotifyWorkers(threads: Threads): Threads {
    seq(|threads|, i requires 0 <= i < |threads| => if i == MASTER then threads[i] else Notified(threads[i]))
  }

  /** Which threads Add() wakes: `pick` is the worker the scheduler chooses for
      notify_one. */
  function Woken(threads: Threads, added: nat, pick: nat): Threads {
    if added > 1 then NotifyWorkers(threads)
    else if added == 1 && pick != MASTER && pick < |threads| then threads[pick := Notified(threads[pick])]
    else threads
  }

  function Add(s: State, checks: seq<Check>, pick: nat): State {
    s.(queue := s.queue + checks,
       nTodo := s.nTodo + |checks|,
       added := s.added + multiset(checks),
       threads := Woken(s.threads, |checks|, pick))
  }

  /** One check run outside the lock; skipped once a failure is known. */
  function Exec(t: Thread): Thread
    requires t.Working? && t.next < |t.batch|
  {
    Working(t.batch, t.next + 1, t.fOk && t.batch[t.next].ok)
  }

  /** Counting a finished batch; the worker that brings nTodo to zero notifies
      the master. */
  function Finish(s: State, who: nat, batch: seq<Check>, fOk: bool): State {
    s.(fAllOk := s.fAllOk && fOk,
       nTodo := s.nTodo - |batch|,
       finished := s.finished + multiset(batch),
       threads := if s.nTodo == |batch| && who != MASTER then
         s.threads[MASTER := Notified(s.threads[MASTER])] else s.threads)
  }

  /** Entering the critical section: count the finished batch, or join the
      pool, or return from the wait. The thread itself is left outside until
      Proceed gives it its next state. */
  function Arrive(s: State, who: nat): State
    requires who < |s.threads|
  {
    var t := match s.threads[who]
      case Outside => s.(nTotal := s.nTotal + 1)
      case Waiting(_) => s.(nIdle := s.nIdle - 1)
      case Working(batch, _, fOk) => Finish(s, who, batch, fOk);
    t.(threads := t.threads[who := Outside])
  }

  function BatchSize(queueSize: nat, sharers: int, nBatchSize: nat): int
    requires sharers > 0
  {
    var share := queueSize / sharers;
    var capped := if nBatchSize < share then nBatchSize else share;
    if capped < 1 then 1 else capped
  }

  /** Checks are popped off the back of the queue one by one. */
  function Popped(queue: seq<Check>, n: nat): seq<Check>
    requires n <= |queue|
  {
    seq(n, i requires 0 <= i < n => queue[|queue| - 1 - i])
  }

  function Take(s: State, who: nat, nNow: nat): State
    requires who < |s.threads| && nNow <= |s.queue|
  {
    s.(threads := s.threads[who := Working(Popped(s.queue, nNow), 0, s.fAllOk)],
       queue := s.queue[..|s.queue| - nNow])
  }

  function Wait(s: State, who: nat): State
    requires who < |s.threads|
  {
    s.(threads := s.threads[who := Waiting(false)], nIdle := s.nIdle + 1)
  }

  /** Leaving the loop; the master resets the status for new work. */
  function Leave(s: State, who: nat): State {
    if who == MASTER then s.(nTotal := s.nTotal - 1, fAllOk := true, added := multiset{}, finished := multiset{})
    else s.(nTotal := s.nTotal - 1)
  }

  datatype Outcome = Goes(state: State) | Returns(state: State, result: bool)

  /** The rest of the critical section, after Arrive. */
  function Proceed(s: State, who: nat, nBatchSize: nat): Outcome
    requires who < |s.threads| && s.nTotal + s.nIdle + 1 > 0
    requires s.queue != [] ==> BatchSize(|s.queue|, s.nTotal + s.nIdle + 1, nBatchSize) <= |s.queue|
  {
    if s.queue != [] then Goes(Take(s, who, BatchSize(|s.queue|, s.nTotal + s.nIdle + 1, nBatchSize)))
    else if (who == MASTER || s.fQuit) && s.nTodo == 0 then Returns(Leave(s, who), s.fAllOk)
    else Goes(Wait(s, who))
  }

  datatype Step =
    | DoAdd(checks: seq<Check>, pick: nat)
    | DoExec(who: nat)
    | DoSection(who: nat)

  /** Add() runs between Wait() calls; a section is entered at the start of the
      loop, on waking, or after the whole batch was executed. */
  predicate Enabled(s: State, step: Step) {
    match step
    case DoAdd(_, _) => s.threads[MASTER].Outside?
    case DoExec(who) =>
      who < |s.threads| && s.threads[who].Working? && s.threads[who].next < |s.threads[who].batch|
    case DoSection(who) =>
      who < |s.threads| && (s.threads[who].Working? ==> s.threads[who].next == |s.threads[who].batch|)
  }

  function Apply(s: State, step: Step, nBatchSize: nat): Outcome
    requires Inv(s) && Enabled(s, step)
  {
    match step
    case DoAdd(checks, pick) => Goes(Add(s, checks, pick))
    case DoExec(who) => Goes(s.(threads := s.threads[who := Exec(s.threads[who])]))
    case DoSection(who) =>
      ArriveMid(s, who);
      BatchSizeBound(Arrive(s, who), nBatchSize);
      Proceed(Arrive(s, who), who, nBatchSize)
  }

  // ----- The invariant -----

  function Batch(t: Thread): multiset<Check> {
    if t.Working? then multiset(t.batch) else multiset{}
  }

  /** All checks in the batches of the first n threads. */
  function Held(threads: seq<Thread>, n: nat): multiset<Check>
    requires n <= |threads|
  {
    if n == 0 then multiset{} else Held(threads, n - 1) + Batch(threads[n - 1])
  }

  function Bit(b: bool): nat { if b then 1 else 0 }

  function Inside(threads: seq<Thread>, n: nat): nat
    requires n <= |threads|
  {
    if n == 0 then 0 else Inside(threads, n - 1) + Bit(!threads[n - 1].Outside?)
  }

  function Idle(threads: seq<Thread>, n: nat): nat
    requires n <= |threads|
  {
    if n == 0 then 0 else Idle(threads, n - 1) + Bit(threads[n - 1].Waiting?)
  }

  function InFlight(threads: seq<Thread>): multiset<Check> { Held(threads, |threads|) }

  predicate AllGood(cs: multiset<Check>) {
    forall c :: c in cs ==> c.ok
  }

  /** A working thread's flag is exactly "nothing failed that I know of", and it
      started from the shared flag. */
  predicate ThreadOk(t: Thread, fAllOk: bool) {
    t.Working? ==>
      && 0 < |t.batch| && t.next <= |t.batch|
      && (t.fOk ==> forall j :: 0 <= j < t.next ==> t.batch[j].ok)
      && (!t.fOk ==> !fAllOk || exists j :: 0 <= j < t.next && !t.batch[j].ok)
  }

  predicate ThreadsOk(threads: seq<Thread>, fAllOk: bool) {
    forall i :: 0 <= i < |threads| ==> ThreadOk(threads[i], fAllOk)
  }

  /** Every check added is queued, in flight or finished, and nTodo counts the
      first two. */
  predicate Accounted(nTodo: int, queue: seq<Check>, added: multiset<Check>, held: multiset<Check>,
        finished: multiset<Check>) {
    && nTodo == |queue| + |held|
    && added == multiset(queue) + held + finished
  }

  /** A blocked master left nothing queued, and without a pending notification
      something is still in flight. */
  predicate MasterOk(master: Thread, queue: seq<Check>, nTodo: int) {
    && (master.Waiting? ==> queue == [])
    && (master == Waiting(false) ==> nTodo > 0)
  }

  /** The invariant, up to `extra` threads that are in mid-section and stand as
      outside. */
  predicate InvExcept(s: State, extra: nat) {
    && Accounted(s.nTodo, s.queue, s.added, InFlight(s.threads), s.finished)
    && (s.fAllOk <==> AllGood(s.finished))
    && ThreadsOk(s.threads, s.fAllOk)
    && s.nTotal == Inside(s.threads, |s.threads|) + extra
    && s.nIdle == Idle(s.threads, |s.threads|)
    && MasterOk(s.threads[MASTER], s.queue, s.nTodo)
  }

  predicate Inv(s: State) { InvExcept(s, 0) }

  // ----- Sums over the threads -----

  /** Replacing one thread changes the sums by that thread only. */
  lemma {:induction false} ReplaceCounts(threads: seq<Thread>, i: nat, t: Thread, n: nat)
    requires i < |threads| && n <= |threads|
    ensures Inside(threads[i := t], n) + (if i < n then Bit(!threads[i].Outside?) else 0)
         == Inside(threads, n) + (if i < n then Bit(!t.Outside?) else 0)
    ensures Idle(threads[i := t], n) + (if i < n then Bit(threads[i].Waiting?) else 0)
         == Idle(threads, n) + (if i < n then Bit(t.Waiting?) else 0)
  {
    if n > 0 { ReplaceCounts(threads, i, t, n - 1); }
  }

  lemma {:induction false} HeldUnchanged(threads: seq<Thread>, updated: seq<Thread>, n: nat)
    requires n <= |threads| && n <= |updated|
    requires forall k :: 0 <= k < n ==> Batch(updated[k]) == Batch(threads[k])
    ensures Held(updated, n) == Held(threads, n)
  {
    if n > 0 { HeldUnchanged(threads, updated, n - 1); }
  }

  lemma {:induction false} ReplaceHeld(threads: seq<Thread>, i: nat, t: Thread, n: nat)
    requires i < n <= |threads|
    ensures Held(threads[i := t], n) + Batch(threads[i]) == Held(threads, n) + Batch(t)
  {
    var updated := threads[i := t];
    if i == n - 1 {
      HeldUnchanged(threads, updated, n - 1);
      Shuffle(Held(threads, i), Batch(t), Batch(threads[i]));
    } else {
      ReplaceHeld(threads, i, t, n - 1);
      assert updated[n - 1] == threads[n - 1];
      Exchange(Held(updated, n - 1), Batch(threads[i]), Held(threads, n - 1), Batch(t), Batch(threads[n - 1]));
    }
  }

  lemma Exchange(a: multiset<Check>, b: multiset<Check>, c: multiset<Check>, d: multiset<Check>, x: multiset<Check>)
    requires a + b == c + d
    ensures a + x + b == c + x + d
  {
    Shuffle(a, x, b);
    Shuffle(c, x, d);
  }

  lemma Shuffle(a: multiset<Check>, b: multiset<Check>, c: multiset<Check>)
    ensures a + b + c == a + c + b
  {
  }

  /** A thread that holds no batch gets its next state. */
  lemma Occupy(threads: seq<Thread>, i: nat, t: Thread)
    requires i < |threads| && !threads[i].Working?
    ensures InFlight(threads[i := t]) == InFlight(threads) + Batch(t)
    ensures Inside(threads[i := t], |threads|) + Bit(!threads[i].Outside?) ==
      Inside(threads, |threads|) + Bit(!t.Outside?)
    ensures Idle(threads[i := t], |threads|) + Bit(threads[i].Waiting?) == Idle(threads, |threads|) + Bit(t.Waiting?)
  {
    ReplaceCounts(threads, i, t, |threads|);
    ReplaceHeld(threads, i, t, |threads|);
    assert InFlight(threads[i := t]) + multiset{} == InFlight(threads[i := t]);
  }

  /** A thread without a batch moves to another state without one. */
  lemma Reseat(threads: seq<Thread>, i: nat, t: Thread)
    requires i < |threads| && !threads[i].Working? && !t.Working?
    ensures InFlight(threads[i := t]) == InFlight(threads)
    ensures Inside(threads[i := t], |threads|) + Bit(!threads[i].Outside?) ==
      Inside(threads, |threads|) + Bit(!t.Outside?)
    ensures Idle(threads[i := t], |threads|) + Bit(threads[i].Waiting?) == Idle(threads, |threads|) + Bit(t.Waiting?)
  {
    ReplaceCounts(threads, i, t, |threads|);
    HeldUnchanged(threads, threads[i := t], |threads|);
  }

  /** A thread gives up its state. */
  lemma Vacate(threads: seq<Thread>, i: nat)
    requires i < |threads|
    ensures InFlight(threads) == InFlight(threads[i := Outside]) + Batch(threads[i])
    ensures Inside(threads, |threads|) == Inside(threads[i := Outside], |threads|) + Bit(!threads[i].Outside?)
    ensures Idle(threads, |threads|) == Idle(threads[i := Outside], |threads|) + Bit(threads[i].Waiting?)
  {
    ReplaceCounts(threads, i, Outside, |threads|);
    ReplaceHeld(threads, i, Outside, |threads|);
    assert InFlight(threads) + multiset{} == InFlight(threads);
  }

  /** Notifying changes no sum. */
  ghost predicate OnlyNotified(threads: seq<Thread>, updated: seq<Thread>) {
    && |threads| == |updated|
    && forall i :: 0 <= i < |threads| ==> updated[i] == threads[i] || updated[i] == Notified(threads[i])
  }

  lemma NotifySums(threads: seq<Thread>, updated: seq<Thread>)
    requires OnlyNotified(threads, updated)
    ensures InFlight(updated) == InFlight(threads)
    ensures Inside(updated, |threads|) == Inside(threads, |threads|) &&
      Idle(updated, |threads|) == Idle(threads, |threads|)
  {
    HeldUnchanged(threads, updated, |threads|);
    NotifyCounts(threads, updated, |threads|);
  }

  lemma {:induction false} NotifyCounts(threads: seq<Thread>, updated: seq<Thread>, n: nat)
    requires OnlyNotified(threads, updated) && n <= |threads|
    ensures Inside(updated, n) == Inside(threads, n) && Idle(updated, n) == Idle(threads, n)
  {
    if n > 0 { NotifyCounts(threads, updated, n - 1); }
  }

  lemma {:induction false} InitSums(threads: seq<Thread>, n: nat)
    requires n <= |threads| && forall i :: 0 <= i < |threads| ==> threads[i].Outside?
    ensures Held(threads, n) == multiset{} && Inside(threads, n) == 0 && Idle(threads, n) == 0
  {
    if n > 0 { InitSums(threads, n - 1); }
  }

  lemma {:induction false} HeldByOne(threads: seq<Thread>, n: nat)
    requires n <= |threads| && Held(threads, n) != multiset{}
    ensures exists i :: 0 <= i < n && threads[i].Working?
  {
    if !threads[n - 1].Working? { HeldByOne(threads, n - 1); }
  }

  // ----- Accounting -----

  lemma AccountFinish(nTodo: int, queue: seq<Check>, added: multiset<Check>, held: multiset<Check>,
                      batch: seq<Check>, finished: multiset<Check>)
    requires Accounted(nTodo, queue, added, held + multiset(batch), finished)
    ensures Accounted(nTodo - |batch|, queue, added, held, finished + multiset(batch))
  {
    assert multiset(queue) + (held + multiset(batch)) + finished ==
      multiset(queue) + held + (finished + multiset(batch));
  }

  lemma AccountTake(nTodo: int, queue: seq<Check>, n: nat, added: multiset<Check>, held: multiset<Check>,
        finished: multiset<Check>)
    requires n <= |queue| && Accounted(nTodo, queue, added, held, finished)
    ensures Accounted(nTodo, queue[..|queue| - n], added, held + multiset(Popped(queue, n)), finished)
  {
    var left, batch := queue[..|queue| - n], Popped(queue, n);
    PoppedParts(queue, n);
    assert (multiset(left) + multiset(batch)) + held + finished == multiset(left) + (held + multiset(batch)) + finished;
  }

  lemma AccountAdd(nTodo: int, queue: seq<Check>, checks: seq<Check>, added: multiset<Check>, held: multiset<Check>,
        finished: multiset<Check>)
    requires Accounted(nTodo, queue, added, held, finished)
    ensures Accounted(nTodo + |checks|, queue + checks, added + multiset(checks), held, finished)
  {
    assert multiset(queue) + held + finished + multiset(checks) == multiset(queue) + multiset(checks) + held + finished;
  }

  lemma {:induction false} PoppedParts(queue: seq<Check>, n: nat)
    requires n <= |queue|
    ensures multiset(queue) == multiset(queue[..|queue| - n]) + multiset(Popped(queue, n))
  {
    if n == 0 {
      assert queue[..|queue| - n] == queue;
      assert Popped(queue, n) == [];
    } else {
      var m := |queue| - 1;
      var left := queue[..|queue| - n];
      PoppedParts(queue[..m], n - 1);
      assert queue == queue[..m] + [queue[m]];
      assert queue[..m][..m - (n - 1)] == left;
      assert Popped(queue, n) == [queue[m]] + Popped(queue[..m], n - 1);
      assert multiset(queue) == multiset(left) + multiset(Popped(queue[..m], n - 1)) + multiset{queue[m]};
    }
  }

  // ----- The shared flag -----

  lemma ExecOk(t: Thread, fAllOk: bool)
    requires t.Working? && t.next < |t.batch| && ThreadOk(t, fAllOk)
    ensures ThreadOk(Exec(t), fAllOk)
  {
    if !t.fOk && fAllOk {
      var j :| 0 <= j < t.next && !t.batch[j].ok;
      assert j < t.next + 1;
    } else if t.fOk && !t.batch[t.next].ok {
      assert t.next < Exec(t).next && !Exec(t).batch[t.next].ok;
    }
  }

  /** Counting a finished batch keeps "the shared flag is true iff every
      finished check passed". */
  lemma FinishOk(finished: multiset<Check>, t: Thread, fAllOk: bool)
    requires t.Working? && t.next == |t.batch| && ThreadOk(t, fAllOk)
    requires fAllOk <==> AllGood(finished)
    ensures fAllOk && t.fOk <==> AllGood(finished + multiset(t.batch))
  {
    if fAllOk && !t.fOk {
      var j :| 0 <= j < t.next && !t.batch[j].ok;
      assert t.batch[j] in multiset(t.batch);
    }
    if fAllOk && t.fOk {
      forall c | c in multiset(t.batch) ensures c.ok {
        assert c in t.batch;
      }
    }
    if !fAllOk {
      var c :| c in finished && !c.ok;
      assert c in finished + multiset(t.batch);
    }
  }

  // ----- The invariant is kept by every step -----

  lemma InitInv(nWorkers: nat, fQuit: bool)
    ensures Inv(Init(nWorkers, fQuit))
  {
    InitSums(Init(nWorkers, fQuit).threads, nWorkers + 1);
  }

  lemma AddInv(s: State, checks: seq<Check>, pick: nat)
    requires Inv(s) && s.threads[MASTER].Outside?
    ensures Inv(Add(s, checks, pick))
  {
    NotifySums(s.threads, Woken(s.threads, |checks|, pick));
    AccountAdd(s.nTodo, s.queue, checks, s.added, InFlight(s.threads), s.finished);
  }

  lemma ExecInv(s: State, who: nat)
    requires Inv(s) && Enabled(s, DoExec(who))
    ensures Inv(s.(threads := s.threads[who := Exec(s.threads[who])]))
  {
    var t := s.threads[who];
    Vacate(s.threads, who);
    Occupy(s.threads[who := Outside], who, Exec(t));
    assert s.threads[who := Outside][who := Exec(t)] == s.threads[who := Exec(t)];
    ExecOk(t, s.fAllOk);
  }

  /** What handing in a batch does to the threads. */
  lemma FinishThreads(s: State, who: nat)
    requires Inv(s) && Enabled(s, DoSection(who)) && s.threads[who].Working?
    ensures var t, out := s.threads[who], Arrive(s, who).threads;
      && |out| == |s.threads| && out[who].Outside?
      && InFlight(s.threads) == InFlight(out) + multiset(t.batch)
      && Inside(s.threads, |s.threads|) == Inside(out, |out|) + 1
      && Idle(s.threads, |s.threads|) == Idle(out, |out|)
  {
    Vacate(s.threads, who);
    NotifySums(s.threads[who := Outside], Arrive(s, who).threads);
  }

  lemma FinishFlags(s: State, who: nat)
    requires Inv(s) && Enabled(s, DoSection(who)) && s.threads[who].Working?
    ensures var out := Arrive(s, who);
      && ThreadsOk(out.threads, out.fAllOk)
      && (out.fAllOk <==> AllGood(out.finished))
      && MasterOk(out.threads[MASTER], out.queue, out.nTodo)
  {
    var t := s.threads[who];
    FinishOk(s.finished, t, s.fAllOk);
    var out := Arrive(s, who);
    forall i | 0 <= i < |out.threads| ensures ThreadOk(out.threads[i], out.fAllOk) {
      assert ThreadOk(s.threads[i], s.fAllOk);
    }
    FinishThreads(s, who);
  }

  lemma FinishInv(s: State, who: nat)
    requires Inv(s) && Enabled(s, DoSection(who)) && s.threads[who].Working?
    ensures InvExcept(Arrive(s, who), 1)
  {
    FinishThreads(s, who);
    FinishFlags(s, who);
    AccountFinish(s.nTodo, s.queue, s.added, InFlight(Arrive(s, who).threads), s.threads[who].batch, s.finished);
  }

  lemma Joined(s: State, who: nat)
    requires who < |s.threads| && !s.threads[who].Working?
    ensures var waited := Bit(s.threads[who].Waiting?);
      Arrive(s, who) ==
      s.(threads := s.threads[who := Outside], nTotal := s.nTotal + 1 - waited, nIdle := s.nIdle - waited)
  {
  }

  lemma JoinInv(s: State, who: nat)
    requires Inv(s) && Enabled(s, DoSection(who)) && !s.threads[who].Working?
    ensures InvExcept(Arrive(s, who), 1)
  {
    Reseat(s.threads, who, Outside);
    assert ThreadsOk(s.threads[who := Outside], s.fAllOk);
    Joined(s, who);
  }

  /** After the first half of a section the invariant holds with the thread
      taken out; it is counted in nTotal. */
  lemma ArriveMid(s: State, who: nat)
    requires Inv(s) && Enabled(s, DoSection(who))
    ensures InvExcept(Arrive(s, who), 1)
    ensures |Arrive(s, who).threads| == |s.threads| && Arrive(s, who).threads[who].Outside?
  {
    if s.threads[who].Working? {
      FinishInv(s, who);
    } else {
      JoinInv(s, who);
    }
  }

  /** The batch computation divides by a positive number and takes at least one
      and never more than all of the queue. */
  lemma BatchSizeBound(s: State, nBatchSize: nat)
    requires InvExcept(s, 1)
    ensures s.nTotal + s.nIdle + 1 > 0
    ensures s.queue != [] ==> 1 <= BatchSize(|s.queue|, s.nTotal + s.nIdle + 1, nBatchSize) <= |s.queue|
  {
    DivBound(|s.queue|, s.nTotal + s.nIdle + 1);
  }

  /** A batch of more than one check leaves as much for each of the other sharers
      and is within the limit, and it is as large as that allows. */
  lemma BatchSizeFair(queueSize: nat, sharers: int, nBatchSize: nat)
    requires sharers > 0
    ensures var n := BatchSize(queueSize, sharers, nBatchSize);
      && (n > 1 ==> n <= nBatchSize && sharers * n <= queueSize)
      && (n < nBatchSize ==> queueSize < sharers * (n + 1))
  {
    var share := queueSize / sharers;
    var n := BatchSize(queueSize, sharers, nBatchSize);
    assert queueSize == sharers * share + queueSize % sharers;
    if n > 1 { MulMono(n, share, sharers); }
    if n < nBatchSize { MulMono(share, n, sharers); }
  }

  lemma TakeInv(s: State, who: nat, nNow: nat)
    requires InvExcept(s, 1) && who < |s.threads| && s.threads[who].Outside? && 1 <= nNow <= |s.queue|
    ensures Inv(Take(s, who, nNow))
  {
    Occupy(s.threads, who, Working(Popped(s.queue, nNow), 0, s.fAllOk));
    AccountTake(s.nTodo, s.queue, nNow, s.added, InFlight(s.threads), s.finished);
  }

  lemma WaitInv(s: State, who: nat)
    requires InvExcept(s, 1) && who < |s.threads| && s.threads[who].Outside?
    requires s.queue == [] && (who == MASTER ==> s.nTodo != 0)
    ensures Inv(Wait(s, who))
  {
    Reseat(s.threads, who, Waiting(false));
  }

  lemma LeaveInv(s: State, who: nat)
    requires InvExcept(s, 1) && who < |s.threads| && s.threads[who].Outside?
    requires s.queue == [] && s.nTodo == 0
    ensures Inv(Leave(s, who))
    ensures s.finished == s.added && NoBatches(s.threads)
  {
    assert InFlight(s.threads) == multiset{};
    assert s.added == s.finished;
    NothingHeld(s.threads, s.fAllOk);
  }

  ghost predicate NoBatches(threads: seq<Thread>) {
    forall i :: 0 <= i < |threads| ==> !threads[i].Working?
  }

  lemma NothingHeld(threads: seq<Thread>, fAllOk: bool)
    requires InFlight(threads) == multiset{} && ThreadsOk(threads, fAllOk)
    ensures NoBatches(threads)
  {
    forall i | 0 <= i < |threads| ensures !threads[i].Working? {
      Vacate(threads, i);
      assert Batch(threads[i]) == multiset{};
      assert ThreadOk(threads[i], fAllOk);
    }
  }

  /** Every step of every interleaving keeps the invariant. */
  lemma StepInv(s: State, step: Step, nBatchSize: nat)
    requires Inv(s) && Enabled(s, step)
    ensures Inv(Apply(s, step, nBatchSize).state)
  {
    match step
    case DoAdd(checks, pick) => AddInv(s, checks, pick);
    case DoExec(who) => ExecInv(s, who);
    case DoSection(who) =>
      ArriveMid(s, who);
      ProceedInv(Arrive(s, who), who, nBatchSize);
  }

  lemma ProceedInv(s: State, who: nat, nBatchSize: nat)
    requires InvExcept(s, 1) && who < |s.threads| && s.threads[who].Outside?
    ensures s.nTotal + s.nIdle + 1 > 0
    ensures s.queue != [] ==> BatchSize(|s.queue|, s.nTotal + s.nIdle + 1, nBatchSize) <= |s.queue|
    ensures Inv(Proceed(s, who, nBatchSize).state)
  {
    BatchSizeBound(s, nBatchSize);
    if s.queue != [] {
      TakeInv(s, who, BatchSize(|s.queue|, s.nTotal + s.nIdle + 1, nBatchSize));
    } else if (who == MASTER || s.fQuit) && s.nTodo == 0 {
      LeaveInv(s, who);
    } else {
      WaitInv(s, who);
    }
  }

  // ----- Runs -----

  /** The states of a run: `trace[0]` is initial and each next state comes from
      an enabled step. */
  ghost predicate IsRun(trace: seq<State>, steps: seq<Step>, nBatchSize: nat) {
    && |trace| == |steps| + 1
    && (exists n: nat, fQuit: bool :: trace[0] == Init(n, fQuit))
    && forall k :: 0 <= k < |steps| ==> Taken(trace[k], steps[k], trace[k + 1], nBatchSize)
  }

  ghost predicate Taken(s: State, step: Step, t: State, nBatchSize: nat) {
    Enabled(s, step) && (Inv(s) ==> t == Apply(s, step, nBatchSize).state)
  }

  lemma {:induction false} RunInv(trace: seq<State>, steps: seq<Step>, nBatchSize: nat, k: nat)
    requires IsRun(trace, steps, nBatchSize) && k < |trace|
    ensures Inv(trace[k])
  {
    if k == 0 {
      var n: nat, fQuit: bool :| trace[0] == Init(n, fQuit);
      InitInv(n, fQuit);
    } else {
      RunInv(trace, steps, nBatchSize, k - 1);
      assert Taken(trace[k - 1], steps[k - 1], trace[k - 1 + 1], nBatchSize);
      StepInv(trace[k - 1], steps[k - 1], nBatchSize);
    }
  }

  /** When Wait() returns, every check added since the previous return has been
      taken and finished, nobody holds a batch, and the result says exactly
      whether all those checks pass. */
  lemma WaitReturnsVerdict(trace: seq<State>, steps: seq<Step>, nBatchSize: nat, k: nat)
    requires IsRun(trace, steps, nBatchSize) && k < |steps| && steps[k] == DoSection(MASTER)
    ensures Inv(trace[k]) && Enabled(trace[k], steps[k])
    ensures var s := Arrive(trace[k], MASTER);
      var out := Apply(trace[k], steps[k], nBatchSize);
      out.Returns? ==>
        && out.result == AllGood(trace[k].added)
        && s.finished == trace[k].added && s.queue == [] && s.nTodo == 0 && NoBatches(s.threads)
  {
    RunInv(trace, steps, nBatchSize, k);
    assert Taken(trace[k], steps[k], trace[k + 1], nBatchSize);
    var s := Arrive(trace[k], MASTER);
    ArriveMid(trace[k], MASTER);
    if Apply(trace[k], steps[k], nBatchSize).Returns? {
      LeaveInv(s, MASTER);
    }
  }

  /** No lost wake-up: a master blocked without a pending notification means
      that a worker still holds a batch. */
  lemma BlockedMasterHasWorker(trace: seq<State>, steps: seq<Step>, nBatchSize: nat, k: nat)
    requires IsRun(trace, steps, nBatchSize) && k < |trace|
    requires trace[k].threads[MASTER] == Waiting(false)
    ensures exists i :: 0 < i < |trace[k].threads| && trace[k].threads[i].Working?
  {
    RunInv(trace, steps, nBatchSize, k);
    var threads := trace[k].threads;
    HeldByOne(threads, |threads|);
    var i :| 0 <= i < |threads| && threads[i].Working?;
    assert i != MASTER;
  }

  /** A step that does not depend on a spurious wake-up. */
  predicate Genuine(s: State, step: Step) {
    && Enabled(s, step)
    && (step.DoExec? || (step.DoSection? && s.threads[step.who] != Waiting(false)))
  }

  // ----- Progress -----

  function Total(f: Thread -> nat, threads: seq<Thread>, n: nat): nat
    requires n <= |threads|
  {
    if n == 0 then 0 else Total(f, threads, n - 1) + f(threads[n - 1])
  }

  lemma {:induction false} TotalReplace(f: Thread -> nat, threads: seq<Thread>, i: nat, t: Thread, n: nat)
    requires i < |threads| && n <= |threads|
    ensures Total(f, threads[i := t], n) + (if i < n then f(threads[i]) else 0)
         == Total(f, threads, n) + (if i < n then f(t) else 0)
  {
    if n > 0 { TotalReplace(f, threads, i, t, n - 1); }
  }

  lemma {:induction false} TotalBound(f: Thread -> nat, threads: seq<Thread>, n: nat, most: nat)
    requires n <= |threads| && forall t :: f(t) <= most
    ensures Total(f, threads, n) <= most * n
  {
    if n > 0 { TotalBound(f, threads, n - 1, most); }
  }

  /** What a thread has to do for its batch: run each check and hand it in. */
  function Load(t: Thread): nat {
    if t.Working? && t.next <= |t.batch| then 2 * |t.batch| - t.next else 0
  }

  /** A queued check still has to be taken, run and handed in. */
  function Work(s: State): nat { 3 * |s.queue| + Total(Load, s.threads, |s.threads|) }

  /** Workers leave the pool. */
  predicate Closing(s: State) { s.fQuit && s.nTodo == 0 }

  /** How far a thread without a batch is from settling down: outside when the
      workers leave, and blocked otherwise. */
  function Unrest(closing: bool): Thread -> nat {
    (t: Thread) =>
      if t.Outside? then Bit(!closing) else if t == Waiting(true) then 2 else if t.Waiting? then Bit(closing) else 0
  }

  function Restless(s: State): nat { Total(Unrest(Closing(s)), s.threads, |s.threads|) }

  /** The measure: work first, then threads that are not settled. */
  ghost predicate Falls(s: State, t: State) {
    Work(t) < Work(s) || (Work(t) == Work(s) && Restless(t) < Restless(s))
  }

  lemma ArriveWork(s: State, who: nat)
    requires Inv(s) && Enabled(s, DoSection(who))
    ensures Work(Arrive(s, who)) + (if s.threads[who].Working? then 1 else 0) <= Work(s)
  {
    var out := s.threads[who := Outside];
    TotalReplace(Load, s.threads, who, Outside, |s.threads|);
    TotalReplace(Load, out, MASTER, Notified(out[MASTER]), |out|);
    assert ThreadOk(s.threads[who], s.fAllOk);
    var t := Arrive(s, who);
    assert t.queue == s.queue && (t.threads == out || t.threads == out[MASTER := Notified(out[MASTER])]);
  }

  lemma TakeWork(s: State, who: nat, nNow: nat)
    requires who < |s.threads| && s.threads[who].Outside? && 1 <= nNow <= |s.queue|
    ensures Work(Take(s, who, nNow)) < Work(s)
  {
    TotalReplace(Load, s.threads, who, Working(Popped(s.queue, nNow), 0, s.fAllOk), |s.threads|);
  }

  lemma Reseated(f: Thread -> nat, threads: seq<Thread>, who: nat, t: Thread)
    requires who < |threads|
    ensures Total(f, threads[who := t], |threads|) + f(threads[who]) == Total(f, threads, |threads|) + f(t)
  {
    TotalReplace(f, threads, who, t, |threads|);
  }

  /** Where a thread that has no batch goes when nothing is queued. */
  function Settled(s: State, who: nat): Thread {
    if (who == MASTER || s.fQuit) && s.nTodo == 0 then Outside else Waiting(false)
  }

  /** Without a batch and with nothing queued, only the thread itself moves. */
  lemma IdleSection(s: State, who: nat, nBatchSize: nat)
    requires who < |s.threads| && s.queue == [] && !s.threads[who].Working?
    requires Arrive(s, who).nTotal + Arrive(s, who).nIdle + 1 > 0
    ensures var t := Proceed(Arrive(s, who), who, nBatchSize).state;
      && t.threads == s.threads[who := Settled(s, who)] && t.queue == [] && Closing(t) == Closing(s)
      && (Settled(s, who) == s.threads[who] && (who == MASTER ==> s.nTodo != 0) ==> t == s)
  {
    Joined(s, who);
    assert s.threads[who := s.threads[who]] == s.threads;
  }

  lemma IdleFalls(s: State, who: nat, nBatchSize: nat)
    requires Inv(s) && Enabled(s, DoSection(who)) && s.queue == [] && !s.threads[who].Working?
    requires !s.threads[MASTER].Outside?
    ensures var t := Apply(s, DoSection(who), nBatchSize).state;
      && (t == s || Falls(s, t))
      && (t == s ==> s.threads[who] == Waiting(false) || (s.threads[who].Outside? && Closing(s)))
  {
    ArriveMid(s, who);
    BatchSizeBound(Arrive(s, who), nBatchSize);
    IdleSection(s, who, nBatchSize);
    Reseated(Unrest(Closing(s)), s.threads, who, Settled(s, who));
    Reseated(Load, s.threads, who, Settled(s, who));
    assert MasterOk(s.threads[MASTER], s.queue, s.nTodo);
  }

  lemma HandInFalls(s: State, who: nat, nBatchSize: nat)
    requires Inv(s) && Enabled(s, DoSection(who)) && s.queue == [] && s.threads[who].Working?
    ensures Work(Apply(s, DoSection(who), nBatchSize).state) < Work(s)
  {
    var mid := Arrive(s, who);
    ArriveMid(s, who);
    ArriveWork(s, who);
    Reseated(Load, mid.threads, who, Waiting(false));
  }

  lemma ProceedWork(s: State, who: nat, nBatchSize: nat)
    requires InvExcept(s, 1) && who < |s.threads| && s.threads[who].Outside? && s.queue != []
    requires s.nTotal + s.nIdle + 1 > 0
    requires 1 <= BatchSize(|s.queue|, s.nTotal + s.nIdle + 1, nBatchSize) <= |s.queue|
    ensures Work(Proceed(s, who, nBatchSize).state) < Work(s)
  {
    TakeWork(s, who, BatchSize(|s.queue|, s.nTotal + s.nIdle + 1, nBatchSize));
  }

  lemma TakeFalls(s: State, who: nat, nBatchSize: nat)
    requires Inv(s) && Enabled(s, DoSection(who)) && s.queue != []
    ensures Work(Apply(s, DoSection(who), nBatchSize).state) < Work(s)
  {
    ArriveMid(s, who);
    ArriveWork(s, who);
    BatchSizeBound(Arrive(s, who), nBatchSize);
    ProceedWork(Arrive(s, who), who, nBatchSize);
  }

  /** While the master is in Wait(), every step lowers the measure, except a
      wake-up without cause that finds nothing to do, and a worker that joins
      only to leave at once; those change nothing. */
  lemma StepFalls(s: State, step: Step, nBatchSize: nat)
    requires Inv(s) && Enabled(s, step) && !s.threads[MASTER].Outside?
    ensures var t := Apply(s, step, nBatchSize).state;
      && (t == s || Falls(s, t))
      && (Genuine(s, step) && t == s ==> Closing(s) && step.DoSection? && s.threads[step.who].Outside?)
  {
    if step.DoExec? {
      Reseated(Load, s.threads, step.who, Exec(s.threads[step.who]));
    } else if s.queue == [] && s.threads[step.who].Working? {
      HandInFalls(s, step.who, nBatchSize);
    } else if s.queue == [] {
      IdleFalls(s, step.who, nBatchSize);
    } else {
      TakeFalls(s, step.who, nBatchSize);
    }
  }

  /** The measure as a number. */
  function Rank(s: State): nat { Work(s) * (2 * |s.threads| + 1) + Restless(s) }

  lemma RankOrder(w: nat, r: nat, w': nat, r': nat, n: nat)
    requires w < w' || (w == w' && r < r')
    requires r <= 2 * n
    ensures w * (2 * n + 1) + r < w' * (2 * n + 1) + r'
  {
    if w < w' { MulMono(w + 1, w', 2 * n + 1); }
  }

  lemma RankFalls(s: State, t: State)
    requires Falls(s, t) && |s.threads| == |t.threads|
    ensures Rank(t) < Rank(s)
  {
    TotalBound(Unrest(Closing(t)), t.threads, |t.threads|, 2);
    RankOrder(Work(t), Restless(t), Work(s), Restless(s), |s.threads|);
  }

  /** How many of the steps k to m changed the state. */
  ghost function Moves(trace: seq<State>, k: nat, m: nat): nat
    requires k <= m < |trace|
    decreases m
  {
    if k == m then 0 else Moves(trace, k, m - 1) + Bit(trace[m - 1] != trace[m])
  }

  lemma StepThreads(s: State, step: Step, nBatchSize: nat)
    requires Inv(s) && Enabled(s, step) && !step.DoAdd?
    ensures |Apply(s, step, nBatchSize).state.threads| == |s.threads|
  {
    if step.DoSection? {
      ArriveMid(s, step.who);
      BatchSizeBound(Arrive(s, step.who), nBatchSize);
      var t := Proceed(Arrive(s, step.who), step.who, nBatchSize).state;
      assert |t.threads| == |Arrive(s, step.who).threads|;
    }
  }

  lemma RunFalls(trace: seq<State>, steps: seq<Step>, nBatchSize: nat, k: nat)
    requires IsRun(trace, steps, nBatchSize) && k < |steps| && !trace[k].threads[MASTER].Outside?
    ensures trace[k + 1] == trace[k] || Falls(trace[k], trace[k + 1])
    ensures |trace[k].threads| == |trace[k + 1].threads|
  {
    var s, step := trace[k], steps[k];
    RunInv(trace, steps, nBatchSize, k);
    assert Taken(s, step, trace[k + 1], nBatchSize);
    StepFalls(s, step, nBatchSize);
    StepThreads(s, step, nBatchSize);
  }

  lemma {:induction false} MovesBounded(trace: seq<State>, rank: State -> nat, k: nat, m: nat)
    requires k <= m < |trace|
    requires forall i :: k <= i < m ==> trace[i] == trace[i + 1] || rank(trace[i + 1]) < rank(trace[i])
    ensures Moves(trace, k, m) + rank(trace[m]) <= rank(trace[k])
    decreases m
  {
    if k < m {
      MovesBounded(trace, rank, k, m - 1);
      assert trace[m - 1] == trace[m - 1 + 1] || rank(trace[m - 1 + 1]) < rank(trace[m - 1]);
    }
  }

  /** Wait() returns: in no run can the master stay in it for more moves than
      the rank of the state in which it was first seen there. */
  lemma WaitBounded(trace: seq<State>, steps: seq<Step>, nBatchSize: nat, k: nat, m: nat)
    requires IsRun(trace, steps, nBatchSize) && k <= m < |trace|
    requires forall i :: k <= i < m ==> !trace[i].threads[MASTER].Outside?
    ensures Moves(trace, k, m) + Rank(trace[m]) <= Rank(trace[k])
  {
    forall i | k <= i < m ensures trace[i] == trace[i + 1] || Rank(trace[i + 1]) < Rank(trace[i]) {
      RunFalls(trace, steps, nBatchSize, i);
      if trace[i] != trace[i + 1] { RankFalls(trace[i], trace[i + 1]); }
    }
    MovesBounded(trace, Rank, k, m);
  }

  /** Until then some thread can make such a move without relying on a spurious
      wake-up. */
  lemma NoDeadlock(trace: seq<State>, steps: seq<Step>, nBatchSize: nat, k: nat)
    requires IsRun(trace, steps, nBatchSize) && k < |trace|
    requires !trace[k].threads[MASTER].Outside?
    ensures Inv(trace[k])
    ensures exists step :: Genuine(trace[k], step) && Falls(trace[k], Apply(trace[k], step, nBatchSize).state)
  {
    var s := trace[k];
    RunInv(trace, steps, nBatchSize, k);
    var who := MASTER;
    if s.threads[MASTER] == Waiting(false) {
      BlockedMasterHasWorker(trace, steps, nBatchSize, k);
      who :| 0 < who < |s.threads| && s.threads[who].Working?;
    }
    var step := NextStep(s, who);
    StepFalls(s, step, nBatchSize);
  }

  lemma NextStep(s: State, who: nat) returns (step: Step)
    requires Inv(s) && who < |s.threads| && s.threads[who] != Waiting(false)
    ensures Genuine(s, step) && !step.DoAdd? && step.who == who
  {
    var t := s.threads[who];
    assert ThreadOk(t, s.fAllOk);
    step := if t.Working? && t.next < |t.batch| then DoExec(who) else DoSection(who);
  }
}
