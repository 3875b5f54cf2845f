/**
 Threads, the round-robin scheduler, mutexes and conditions (threads.c, scheduler.c, locking.c, locking.h).

 The kernel runs on one processor, so a section with preemption disabled is one atomic step. The
 model is the transition system of these steps, taken by the current thread, over any number of
 threads, mutexes and conditions.
 */
module Threads {

  import opened Common

  type Tid = int

  /** The bootstrap thread: it idles, is never queued and never blocks. */
  const BOOT: Tid := 0

  datatype Status = Active | Blocked | Finished | Dead | Reaped

  datatype Wq = OfMutex(m: int) | OfCond(q: int)

  /**
   How far a thread is in the code that spans several steps. `Waiting` is a thread that put itself on
   the wait queue `w` in order to get the mutex `m`; `slept` says that its own call of schedule() has been made.
   */
  datatype Pc = Run | Newborn | Waiting(w: Wq, m: int,
                                        slept: bool) | Reaping(t: Tid) | Reaper(t: Tid) | Erased(t: Tid) | Gone

  /** The threads: `born` are those ever created, `live` those not yet released. */
  datatype State = State(
    born: set<Tid>,
    live: set<Tid>,
    status: Tid -> Status,
    pc: Tid -> Pc,
    current: Tid,
    run: seq<Tid>,
    queue: Wq -> seq<Tid>,
    locked: set<int>,
    owners: set<(Tid, int)>,
    books: Books)

  /** References: `based` are the threads that still have the reference they were created with. */
  datatype Books = Books(
    refs: Tid -> int,
    holders: Tid -> multiset<Tid>,
    based: set<Tid>,
    pids: map<int, Tid>,
    reaps: multiset<Tid>,
    released: multiset<Tid>)

  // ----- scheduling -----

  /** activate_thread. */
  function Activate(s: State, t: Tid): State {
    if s.status(t) == Blocked then s.(status := Update(s.status, t, Active), run := s.run + [t]) else s
  }

  /** __wait_queue_notify. */
  function Notify(s: State, w: Wq): State {
    var q := s.queue(w);
    if q == [] then s else Activate(s.(queue := Update(s.queue, w, q[1..])), q[0])
  }

  /** switch_to, and place_thread on the other side. */
  function SwitchTo(s: State, n: Tid): State {
    var prev := s.current;
    s.(run := if prev != BOOT && s.status(prev) == Active then s.run + [prev] else s.run,
       status := if s.status(prev) == Finished then Update(s.status, prev, Dead) else s.status,
       pc := if s.pc(n) == Newborn then Update(s.pc, n, Run) else s.pc,
       current := n)
  }

  /** schedule. */
  function Schedule(s: State): State {
    if s.run != [] && s.run[0] == s.current then s.(run := s.run[1..])
    else if s.status(s.current) == Active && s.run == [] then s
    else if s.run == [] then SwitchTo(s, BOOT)
    else SwitchTo(s.(run := s.run[1..]), s.run[0])
  }

  // ----- steps -----

  datatype Event =
    | Lock(m: int) | Unlock(m: int) | CondWait(m: int, q: int) | CondNotify(q: int)
    | Yield | Sleep | Exit
    | Create(t: Tid, pid: int) | Lookup(pid: int) | Wake(t: Tid) | Put(t: Tid)
    | SawDead(t: Tid) | MarkReaped | EraseReaped | PutBase

  /** What the callers of each section have done before and what the code around it demands. */
  predicate Enabled(s: State, e: Event) {
    var c := s.current;
    match e
    case Lock(m) =>
      (s.pc(c) == Run || (s.pc(c).Waiting? && s.pc(c).m == m && s.pc(c).slept)) && (m in s.locked ==> c != BOOT)
    case Unlock(m) => s.pc(c) == Run && (c, m) in s.owners
    case CondWait(m, q) => s.pc(c) == Run && (c, m) in s.owners && c != BOOT
    case CondNotify(q) => s.pc(c) == Run
    case Yield => true
    case Sleep => s.pc(c).Waiting? && !s.pc(c).slept
    case Exit => s.pc(c) == Run && c != BOOT
    case Create(t, pid) => s.pc(c) == Run && t !in s.born && pid !in s.books.pids
    case Lookup(pid) => s.pc(c) == Run && pid in s.books.pids
    case Wake(t) => s.pc(c) == Run && c in s.books.holders(t) && t != BOOT && s.pc(t) == Newborn
    case Put(t) => s.pc(c) == Run && c in s.books.holders(t)
    case SawDead(t) => s.pc(c) == Run && c in s.books.holders(t) && s.status(t) == Dead
    case MarkReaped => s.pc(c).Reaping?
    case EraseReaped => s.pc(c).Reaper?
    case PutBase => s.pc(c).Erased?
  }

  /** put_thread: the last reference releases the stack and the address space. */
  function DropRef(s: State, t: Tid): State {
    var b := s.books.(refs := Update(s.books.refs, t, s.books.refs(t) - 1));
    if b.refs(t) == 0 then s.(live := s.live - {t}, books := b.(released := b.released + multiset{t}))
    else s.(books := b)
  }

  /** mutex_unlock. */
  function Unlocked(s: State, m: int): State {
    Notify(s.(locked := s.locked - {m}, owners := s.owners - {(s.current, m)}), OfMutex(m))
  }

  /** The current thread puts itself on a wait queue. */
  function Enqueue(s: State, w: Wq, m: int): State {
    s.(status := Update(s.status, s.current, Blocked),
       queue := Update(s.queue, w, s.queue(w) + [s.current]),
       pc := Update(s.pc, s.current, Waiting(w, m, false)))
  }

  /** alloc_thread and register_thread. */
  function Created(s: State, t: Tid, pid: int): State {
    var b := s.books;
    s.(born := s.born + {t}, live := s.live + {t}, status := Update(s.status, t, Blocked),
        pc := Update(s.pc, t, Newborn),
       books := b.(refs := Update(b.refs, t, 1), holders := Update(b.holders, t, multiset{}), based := b.based + {t},
           pids := b.pids[pid := t]))
  }

  function Apply(s: State, e: Event): State
    requires Enabled(s, e)
  {
    var c, b := s.current, s.books;
    match e
    case Lock(m) =>
      if m in s.locked then Enqueue(s, OfMutex(m), m)
      else s.(locked := s.locked + {m}, owners := s.owners + {(c, m)}, pc := Update(s.pc, c, Run))
    case Unlock(m) => Unlocked(s, m)
    case CondWait(m, q) => Unlocked(Enqueue(s, OfCond(q), m), m)
    case CondNotify(q) => Notify(s, OfCond(q))
    case Yield => Schedule(s)
    case Sleep => Schedule(s.(pc := Update(s.pc, c, s.pc(c).(slept := true))))
    case Exit => Schedule(s.(status := Update(s.status, c, Finished), pc := Update(s.pc, c, Gone)))
    case Create(t, pid) => Created(s, t, pid)
    case Lookup(pid) =>
      var t := b.pids[pid];
      s.(books := b.(refs := Update(b.refs, t, b.refs(t) + 1),
          holders := Update(b.holders, t, b.holders(t) + multiset{c})))
    case Wake(t) => Activate(s, t)
    case Put(t) => DropRef(s.(books := b.(holders := Update(b.holders, t, b.holders(t) - multiset{c}))), t)
    case SawDead(t) => s.(pc := Update(s.pc, c, Reaping(t)))
    case MarkReaped =>
      var t := s.pc(c).t;
      if s.status(t) != Reaped then
        s.(status := Update(s.status, t, Reaped), pc := Update(s.pc, c, Reaper(t)),
            books := b.(reaps := b.reaps + multiset{t}))
      else s.(pc := Update(s.pc, c, Run))
    case EraseReaped =>
      var t := s.pc(c).t;
      s.(pc := Update(s.pc, c, Erased(t)), books := b.(pids := map p | p in b.pids && b.pids[p] != t :: b.pids[p]))
    case PutBase =>
      var t := s.pc(c).t;
      DropRef(s.(pc := Update(s.pc, c, Run), books := b.(based := b.based - {t})), t)
  }

  // ----- the invariants -----

  /** A thread is on the run queue, once, exactly when it is active and not the current thread. */
  ghost predicate Ready(s: State) {
    && s.current in s.live && BOOT in s.live && s.live <= s.born
    && NoDup(s.run)
    && (forall t {:trigger t in s.run} :: t in s.run <==>
        t in s.live && t != BOOT && s.status(t) == Active &&
        t != s.current)
    && s.status(BOOT) == Active && !s.pc(BOOT).Waiting? && s.pc(BOOT) != Newborn
    && (forall t {:trigger s.status(t)} :: t in s.live && t != s.current ==> s.status(t) != Finished)
  }

  /** The current thread is active, or has just put itself on a wait queue. */
  ghost predicate Running(s: State) {
    && (s.status(s.current) == Active ||
        (s.status(s.current) == Blocked && s.pc(s.current).Waiting? && !s.pc(s.current).slept))
    && s.pc(s.current) != Newborn
  }

  predicate Over(u: Status) {
    u == Finished || u == Dead || u == Reaped
  }

  ghost predicate Sleeps(s: State, t: Tid) {
    t in s.live && s.status(t) == Blocked && s.pc(t).Waiting?
  }

  /** A thread taken off a wait queue that still has to try to take its mutex. */
  ghost predicate Woken(s: State, t: Tid) {
    t in s.live && s.status(t) == Active && s.pc(t).Waiting?
  }

  /** Only a newborn thread is blocked without having joined a queue; only a finished one never runs again. */
  ghost predicate Proper(s: State, t: Tid) {
    t in s.live ==>
      && (s.status(t) == Blocked ==> s.pc(t).Newborn? || s.pc(t).Waiting?)
      && (s.pc(t).Waiting? && s.pc(t).w.OfMutex? ==> s.pc(t).w.m == s.pc(t).m)
      && (s.pc(t) == Gone <==> Over(s.status(t)))
  }

  /** A thread is on a wait queue, once, exactly when it sleeps there. */
  ghost predicate Queued(s: State) {
    && (forall w {:trigger s.queue(w)} :: NoDup(s.queue(w)))
    && (forall w, t {:trigger t in s.queue(w)} :: t in s.queue(w) <==> Sleeps(s, t) && s.pc(t).w == w)
    && (forall t {:trigger Proper(s, t)} {:trigger s.pc(t)} {:trigger s.status(t)} :: Proper(s, t))
  }

  /** A mutex is locked exactly when one thread owns it, and then exactly one does. */
  ghost predicate Exclusive(s: State) {
    && (forall m :: m in s.locked ==> exists t :: (t, m) in s.owners)
    && (forall t, m {:trigger (t, m) in s.owners} :: (t, m) in s.owners ==> m in s.locked)
    && (forall t, u, m {:trigger (t, m) in s.owners, (u, m) in s.owners} ::
        (t, m) in s.owners && (u, m) in s.owners ==> t == u)
  }

  /** A thread that was taken off the queue of the mutex and still has to try to take it. */
  ghost predicate Retrying(s: State, t: Tid, m: int) {
    Woken(s, t) && s.pc(t).w == OfMutex(m)
  }

  /** No lost wakeup: a free mutex with sleepers has a woken thread that will retry. */
  ghost predicate NoLostWakeup(s: State) {
    forall m {:trigger s.queue(OfMutex(m))} :: m !in s.locked && s.queue(OfMutex(m)) != [] ==>
        exists t :: Retrying(s, t, m)
  }

  ghost predicate Reaps(p: Pc, t: Tid) {
    (p.Reaper? || p.Erased?) && p.t == t
  }

  ghost predicate ReapingPc(p: Pc) {
    p.Reaping? || p.Reaper? || p.Erased?
  }

  /** A reference count is the number of holders, plus one until the thread has been reaped. */
  ghost predicate Counted(s: State) {
    var b := s.books;
    && (forall t {:trigger b.refs(t)} :: t in s.born && t != BOOT ==>
          b.refs(t) == |b.holders(t)| + (if t in b.based then 1 else 0) && (t in s.live <==> b.refs(t) > 0))
    && BOOT !in b.based && b.based <= s.born
    && (forall t {:trigger b.holders(t)} :: t == BOOT || t !in s.born ==> b.holders(t) == multiset{})
    && (forall t {:trigger b.released[t]} :: b.released[t] == if t in s.born && t !in s.live then 1 else 0)
  }

  /** The pid tree holds each thread once, and none that has given up the reference it was created with. */
  ghost predicate Registered(s: State) {
    var b := s.books;
    && (forall t {:trigger s.status(t)} :: t in s.born && t != BOOT && t !in b.based ==> s.status(t) == Reaped)
    && (forall p {:trigger b.pids[p]} :: p in b.pids ==> b.pids[p] in b.based)
    && (forall p, q {:trigger b.pids[p], b.pids[q]} :: p in b.pids && q in b.pids && b.pids[p] == b.pids[q] ==> p == q)
  }

  /** Whoever is about to reap a thread holds a reference to it and has seen it dead. */
  ghost predicate Targets(s: State) {
    forall c {:trigger s.pc(c)} :: c in s.live && ReapingPc(s.pc(c)) ==>
      s.pc(c).t in s.live && s.pc(c).t != BOOT && c in s.books.holders(s.pc(c).t)
      && (s.status(s.pc(c).t) == Dead || s.status(s.pc(c).t) == Reaped)
  }

  /** Each thread is reaped by one thread and once. */
  ghost predicate ReapedOnce(s: State) {
    && (forall c, t {:trigger Reaps(s.pc(c), t)} :: c in s.live && Reaps(s.pc(c), t) ==>
        s.status(t) == Reaped && t in s.books.based)
    && (forall c, p {:trigger s.pc(c), s.books.pids[p]} :: c in s.live && s.pc(c).Erased? && p in s.books.pids ==>
        s.books.pids[p] != s.pc(c).t)
    && (forall c, d, t {:trigger Reaps(s.pc(c), t), Reaps(s.pc(d), t)} ::
          c in s.live && d in s.live && Reaps(s.pc(c), t) && Reaps(s.pc(d), t) ==> c == d)
    && (forall t {:trigger s.books.reaps[t]} :: s.books.reaps[t] == if t in s.born && s.status(t) == Reaped then 1
        else 0)
  }

  ghost predicate Known(pids: map<int, Tid>, t: Tid) {
    exists p :: p in pids && pids[p] == t
  }

  /** Somebody has just taken the thread out of the pid tree and not yet dropped its first reference. */
  ghost predicate Leaving(s: State, t: Tid) {
    exists c {:trigger s.pc(c)} :: c in s.live && s.pc(c) == Erased(t)
  }

  /** A thread is in the pid tree as long as it has the reference it was created with, up to its last step. */
  ghost predicate Findable(s: State) {
    forall t {:trigger Known(s.books.pids, t)} {:trigger Leaving(s, t)} {:trigger t in s.books.based} ::
      t in s.books.based ==> Known(s.books.pids, t) || Leaving(s, t)
  }

  ghost predicate Lifetime(s: State) {
    Counted(s) && Registered(s) && Targets(s) && ReapedOnce(s) && Findable(s)
  }

  ghost predicate Scheduled(s: State) {
    Ready(s) && Running(s) && Queued(s) && Exclusive(s) && NoLostWakeup(s)
  }

  ghost predicate Inv(s: State) {
    Scheduled(s) && Lifetime(s)
  }

  /** The same, as a whole. */
  ghost predicate Safe(s: State) {
    forall look {:trigger Inside(StepPart, look)} :: Inside(StepPart, look) ==> Inv(s)
  }

  // ----- every step keeps the invariants -----

  /** Appending a new member keeps a queue free of repetitions. */
  lemma NoDupAppend(q: seq<Tid>, t: Tid)
    requires NoDup(q) && t !in q
    ensures NoDup(q + [t]) && forall u :: u in q + [t] <==> u in q || u == t
  {
  }

  lemma NoDupTail(q: seq<Tid>)
    requires NoDup(q) && q != []
    ensures NoDup(q[1..]) && forall u :: u in q[1..] <==> u in q && u != q[0]
  {
    forall u | u in q && u != q[0] ensures u in q[1..] {
      var i :| 0 <= i < |q| && q[i] == u;
      assert q[1..][i - 1] == u;
    }
  }

  /** A step that has nothing to do with references, pids and reaping. */
  ghost predicate SameLives(s: State, s': State) {
    && s'.live == s.live && s'.born == s.born && s'.books == s.books
    && (forall t {:trigger s'.status(t)} ::
        (s'.status(t) == Reaped <==> s.status(t) == Reaped) &&
        (s.status(t) == Dead ==> s'.status(t) == Dead))
    && (forall t {:trigger s'.pc(t)} :: s'.pc(t) == s.pc(t) || (!ReapingPc(s.pc(t)) && !ReapingPc(s'.pc(t))))
  }

  lemma FindableFrame(s: State, s': State)
    requires Findable(s) && s'.books.based <= s.books.based && s'.books.pids == s.books.pids
    requires forall c {:trigger s.pc(c)} :: c in s.live && s.pc(c).Erased? && s.pc(c).t in s'.books.based ==>
             c in s'.live && s'.pc(c) == s.pc(c)
    ensures Findable(s')
  {
    forall t | t in s'.books.based && !Known(s'.books.pids, t) ensures Leaving(s', t) {
      assert Leaving(s, t);
      var c :| c in s.live && s.pc(c) == Erased(t);
      assert s'.pc(c) == Erased(t);
    }
  }

  lemma LifetimeFrame(s: State, s': State)
    requires SameLives(s, s') && Lifetime(s)
    ensures Lifetime(s')
  {
    FindableFrame(s, s');
    assert Targets(s') && Counted(s') && Registered(s');
    assert forall c, t {:trigger Reaps(s'.pc(c), t)} :: Reaps(s'.pc(c), t) ==> Reaps(s.pc(c), t);
  }

  /** schedule always leaves a runnable thread current. */
  lemma ScheduleDispatches(s: State)
    requires Ready(s) && (s.status(s.current) == Active ==> s.pc(s.current) != Newborn)
    ensures Ready(Schedule(s)) && Running(Schedule(s))
  {
    if s.run != [] {
      NoDupTail(s.run);
      assert s.run[0] in s.run;
      var rest := s.run[1..];
      if s.current != BOOT && s.status(s.current) == Active { NoDupAppend(rest, s.current); }
    }
  }

  /** A step that touches no wait queue and no mutex: who slept or was woken still does, and nobody falls asleep. */
  ghost predicate SameQueues(s: State, s': State) {
    && s'.queue == s.queue && s'.locked == s.locked && s'.owners == s.owners
    && (forall t {:trigger Proper(s', t)} {:trigger s'.pc(t)} :: Proper(s', t))
    && (forall t {:trigger Sleeps(s', t)} :: Sleeps(s', t) ==> Sleeps(s, t))
    && (forall t {:trigger Sleeps(s, t)} {:trigger Woken(s, t)} :: Sleeps(s, t) || Woken(s, t) ==>
          t in s'.live && s'.status(t) == s.status(t) && s'.pc(t).Waiting? && s'.pc(t).w == s.pc(t).w)
  }

  lemma QueuesFrame(s: State, s': State)
    requires SameQueues(s, s') && Queued(s) && NoLostWakeup(s)
    ensures Queued(s') && NoLostWakeup(s')
  {
    forall w, t {:trigger t in s'.queue(w)} ensures t in s'.queue(w) <==> Sleeps(s', t) && s'.pc(t).w == w {
      assert t in s.queue(w) <==> Sleeps(s, t) && s.pc(t).w == w;
    }
    forall m | m !in s'.locked && s'.queue(OfMutex(m)) != [] ensures exists t :: Retrying(s', t, m) {
      var t :| Retrying(s, t, m);
      assert Retrying(s', t, m);
    }
  }

  lemma ScheduleSwitches(s: State)
    requires Ready(s) && Queued(s) && (s.status(s.current) == Active ==> s.pc(s.current) != Newborn)
    ensures SameLives(s, Schedule(s)) && SameQueues(s, Schedule(s))
  {
    if s.run != [] { assert s.run[0] in s.run && s.run[0] != s.current; }
  }

  lemma ScheduleInv(s: State)
    requires Ready(s) && (s.status(s.current) == Active ==> s.pc(s.current) != Newborn)
    requires Queued(s) && Exclusive(s) && NoLostWakeup(s) && Lifetime(s)
    ensures Inv(Schedule(s))
  {
    ScheduleDispatches(s);
    ScheduleSwitches(s);
    LifetimeFrame(s, Schedule(s));
    QueuesFrame(s, Schedule(s));
  }

  // ----- the wait queues -----

  /** All of the invariant except that nobody promises a retry for the mutex of the queue `w`. */
  ghost predicate InvBut(s: State, w: Wq) {
    && Ready(s) && Running(s) && Queued(s) && Exclusive(s) && Lifetime(s)
    && forall m {:trigger s.queue(OfMutex(m))} ::
         OfMutex(m) != w && m !in s.locked && s.queue(OfMutex(m)) != [] ==> exists t :: Retrying(s, t, m)
  }

  /** Notifying a queue restores what unlocking its mutex owed to the sleepers. */
  lemma NotifyKeeps(s: State, w: Wq)
    requires InvBut(s, w) && s.current !in s.queue(w)
    ensures Inv(Notify(s, w))
  {
    var q := s.queue(w);
    if q != [] {
      var t, s' := q[0], Notify(s, w);
      assert t in s.queue(w);
      NoDupTail(q);
      NoDupAppend(s.run, t);
      NotifyQueues(s, w);
      LifetimeFrame(s, s');
      forall m | m !in s'.locked && s'.queue(OfMutex(m)) != [] ensures exists u :: Retrying(s', u, m) {
        if OfMutex(m) == w { assert Retrying(s', t, m); }
        else {
          var u :| Retrying(s, u, m);
          assert Retrying(s', u, m);
        }
      }
    }
  }

  lemma NotifyQueues(s: State, w: Wq)
    requires Queued(s) && s.queue(w) != []
    ensures Queued(Notify(s, w))
  {
    var q, s' := s.queue(w), Notify(s, w);
    assert q[0] in s.queue(w);
    NoDupTail(q);
    forall v, t {:trigger t in s'.queue(v)}
      ensures t in s'.queue(v) <==> Sleeps(s', t) && s'.pc(t).w == v
    {
      assert t in s.queue(v) <==> Sleeps(s, t) && s.pc(t).w == v;
    }
  }

  /** A thread that fails to take a mutex, or waits for a condition, joins one queue. */
  lemma EnqueueKeeps(s: State, w: Wq, m: int)
    requires Inv(s) && m in s.locked && s.current != BOOT && s.status(s.current) == Active
    requires s.pc(s.current) == Run || (s.pc(s.current).Waiting? && s.pc(s.current).m == m)
    requires w.OfMutex? ==> w.m == m
    ensures Inv(Enqueue(s, w, m))
  {
    assert s.current !in s.queue(w);
    EnqueueQueues(s, w, m);
    EnqueueWakeups(s, w, m);
    LifetimeFrame(s, Enqueue(s, w, m));
  }

  lemma EnqueueWakeups(s: State, w: Wq, m: int)
    requires Queued(s) && NoLostWakeup(s) && m in s.locked && s.status(s.current) == Active && (w.OfMutex? ==> w.m == m)
    requires s.pc(s.current) == Run || (s.pc(s.current).Waiting? && s.pc(s.current).m == m)
    ensures NoLostWakeup(Enqueue(s, w, m))
  {
    var s' := Enqueue(s, w, m);
    forall n | n !in s'.locked && s'.queue(OfMutex(n)) != [] ensures exists t :: Retrying(s', t, n) {
      var t :| Retrying(s, t, n);
      assert Proper(s, t);
      assert Retrying(s', t, n);
    }
  }

  lemma EnqueueQueues(s: State, w: Wq, m: int)
    requires Queued(s) && s.current in s.live && s.status(s.current) == Active && (w.OfMutex? ==> w.m == m)
    ensures Queued(Enqueue(s, w, m))
  {
    var s', c := Enqueue(s, w, m), s.current;
    assert c !in s.queue(w);
    NoDupAppend(s.queue(w), c);
    forall v, t {:trigger t in s'.queue(v)}
      ensures t in s'.queue(v) <==> Sleeps(s', t) && s'.pc(t).w == v
    {
      assert t in s.queue(v) <==> Sleeps(s, t) && s.pc(t).w == v;
    }
  }

  lemma UnlockKeeps(s: State, m: int)
    requires Inv(s) && (s.current, m) in s.owners && s.current !in s.queue(OfMutex(m))
    ensures Inv(Unlocked(s, m))
  {
    var s' := s.(locked := s.locked - {m}, owners := s.owners - {(s.current, m)});
    LifetimeFrame(s, s');
    forall n | n in s'.locked ensures exists t :: (t, n) in s'.owners {
      var t :| (t, n) in s.owners;
      assert (t, n) in s'.owners;
    }
    forall n | n != m && n !in s'.locked && s'.queue(OfMutex(n)) != [] ensures exists t :: Retrying(s', t, n) {
      var t :| Retrying(s, t, n);
      assert Retrying(s', t, n);
    }
    NotifyKeeps(s', OfMutex(m));
  }

  lemma LockKeeps(s: State, m: int)
    requires Inv(s) && Enabled(s, Lock(m))
    ensures Inv(Apply(s, Lock(m)))
  {
    var s' := Apply(s, Lock(m));
    if m in s.locked {
      EnqueueKeeps(s, OfMutex(m), m);
    } else {
      LifetimeFrame(s, s');
      LockOwners(s, m);
      LockQueues(s, m);
    }
  }

  lemma LockOwners(s: State, m: int)
    requires Inv(s) && Enabled(s, Lock(m)) && m !in s.locked
    ensures Exclusive(Apply(s, Lock(m))) && NoLostWakeup(Apply(s, Lock(m)))
  {
    var s' := Apply(s, Lock(m));
    forall n | n in s'.locked ensures exists t :: (t, n) in s'.owners {
      if n == m {
        assert (s.current, m) in s'.owners;
      } else {
        var t :| (t, n) in s.owners;
        assert (t, n) in s'.owners;
      }
    }
    forall n | n !in s'.locked && s'.queue(OfMutex(n)) != [] ensures exists t :: Retrying(s', t, n) {
      var t :| Retrying(s, t, n);
      assert Retrying(s', t, n);
    }
  }

  lemma LockQueues(s: State, m: int)
    requires Inv(s) && Enabled(s, Lock(m)) && m !in s.locked
    ensures Queued(Apply(s, Lock(m)))
  {
    var s' := Apply(s, Lock(m));
    forall v, t {:trigger t in s'.queue(v)}
      ensures t in s'.queue(v) <==> Sleeps(s', t) && s'.pc(t).w == v
    {
      assert t in s.queue(v) <==> Sleeps(s, t) && s.pc(t).w == v;
    }
  }

  lemma CondWaitKeeps(s: State, m: int, q: int)
    requires Inv(s) && Enabled(s, CondWait(m, q))
    ensures Inv(Apply(s, CondWait(m, q)))
  {
    var s' := Enqueue(s, OfCond(q), m);
    EnqueueKeeps(s, OfCond(q), m);
    assert s'.pc(s.current).w == OfCond(q);
    UnlockKeeps(s', m);
  }

  // ----- scheduling steps -----

  lemma SleepKeeps(s: State)
    requires Inv(s) && Enabled(s, Sleep)
    ensures Inv(Apply(s, Sleep))
  {
    var s' := s.(pc := Update(s.pc, s.current, s.pc(s.current).(slept := true)));
    SleepFrames(s, s');
    LifetimeFrame(s, s');
    QueuesFrame(s, s');
    ScheduleInv(s');
  }

  lemma SleepFrames(s: State, s': State)
    requires Ready(s) && Queued(s) && Enabled(s, Sleep)
    requires s' == s.(pc := Update(s.pc, s.current, s.pc(s.current).(slept := true)))
    ensures SameLives(s, s') && SameQueues(s, s') && Ready(s')
  {
  }

  lemma ExitKeeps(s: State)
    requires Inv(s) && Enabled(s, Exit)
    ensures Inv(Apply(s, Exit))
  {
    var s' := s.(status := Update(s.status, s.current, Finished), pc := Update(s.pc, s.current, Gone));
    ExitFrames(s, s');
    LifetimeFrame(s, s');
    QueuesFrame(s, s');
    ExitReady(s);
    ScheduleInv(s');
  }

  lemma ExitFrames(s: State, s': State)
    requires Ready(s) && Running(s) && Queued(s) && Enabled(s, Exit)
    requires s' == s.(status := Update(s.status, s.current, Finished), pc := Update(s.pc, s.current, Gone))
    ensures SameLives(s, s') && SameQueues(s, s')
  {
  }

  // ----- lifetime steps -----

  lemma CreateKeeps(s: State, t: Tid, pid: int)
    requires Inv(s) && t !in s.born && pid !in s.books.pids
    ensures Inv(Created(s, t, pid))
  {
    CreateReady(s, t, pid);
    CreateQueues(s, t, pid);
    QueuesFrame(s, Created(s, t, pid));
    CreateCounts(s, t, pid);
    CreateTargets(s, t, pid);
    CreateReaps(s, t, pid);
    CreateFindable(s, t, pid);
  }

  lemma CreateFindable(s: State, t: Tid, pid: int)
    requires Findable(s) && t !in s.born && s.live <= s.born && pid !in s.books.pids
    ensures Findable(Created(s, t, pid))
  {
    var s' := Created(s, t, pid);
    forall u | u in s'.books.based ensures Known(s'.books.pids, u) || Leaving(s', u) {
      if u == t {
        assert pid in s'.books.pids && s'.books.pids[pid] == t;
      } else if Known(s.books.pids, u) {
        var p :| p in s.books.pids && s.books.pids[p] == u;
        assert p in s'.books.pids && s'.books.pids[p] == u;
      } else {
        assert Leaving(s, u);
        var c :| c in s.live && s.pc(c) == Erased(u);
        assert s'.pc(c) == Erased(u);
      }
    }
  }

  lemma CreateReady(s: State, t: Tid, pid: int)
    requires Ready(s) && Running(s) && t !in s.born
    ensures Ready(Created(s, t, pid)) && Running(Created(s, t, pid))
  {
  }

  lemma CreateQueues(s: State, t: Tid, pid: int)
    requires Queued(s) && s.live <= s.born && t !in s.born
    ensures SameQueues(s, Created(s, t, pid))
  {
  }

  lemma CreateCounts(s: State, t: Tid, pid: int)
    requires Counted(s) && Registered(s) && t !in s.born && pid !in s.books.pids && s.live <= s.born && BOOT in s.born
    ensures Counted(Created(s, t, pid)) && Registered(Created(s, t, pid))
  {
  }

  lemma CreateTargets(s: State, t: Tid, pid: int)
    requires Targets(s) && t !in s.born && s.live <= s.born
    ensures Targets(Created(s, t, pid))
  {
  }

  lemma CreateReaps(s: State, t: Tid, pid: int)
    requires ReapedOnce(s) && Targets(s) && t !in s.born && s.live <= s.born && pid !in s.books.pids
    ensures ReapedOnce(Created(s, t, pid))
  {
    var s' := Created(s, t, pid);
    assert forall c, u {:trigger Reaps(s'.pc(c), u)} :: Reaps(s'.pc(c), u) ==> c != t && Reaps(s.pc(c), u);
  }

  lemma LookupKeeps(s: State, pid: int)
    requires Inv(s) && Enabled(s, Lookup(pid))
    ensures Inv(Apply(s, Lookup(pid)))
  {
    QueuesFrame(s, Apply(s, Lookup(pid)));
    LookupLifetime(s, pid);
    FindableFrame(s, Apply(s, Lookup(pid)));
  }

  lemma LookupLifetime(s: State, pid: int)
    requires Lifetime(s) && Enabled(s, Lookup(pid))
    ensures var s' := Apply(s, Lookup(pid)); Counted(s') && Registered(s') && Targets(s') && ReapedOnce(s')
  {
  }

  lemma WakeKeeps(s: State, t: Tid)
    requires Inv(s) && Enabled(s, Wake(t))
    ensures Inv(Apply(s, Wake(t)))
  {
    Held(s, t);
    if s.status(t) == Blocked {
      WakeReady(s, t);
      LifetimeFrame(s, Activate(s, t));
      QueuesFrame(s, Activate(s, t));
    }
  }

  lemma WakeReady(s: State, t: Tid)
    requires Ready(s) && Running(s) && Queued(s) && t in s.live && s.status(t) == Blocked && s.pc(t) == Newborn
    ensures var s' := Activate(s, t); Ready(s') && Running(s') && SameQueues(s, s') && SameLives(s, s')
  {
    NoDupAppend(s.run, t);
  }

  /** A reference keeps its thread alive. */
  lemma Held(s: State, t: Tid)
    requires Counted(s) && s.current in s.books.holders(t)
    ensures t in s.live && t in s.born && t != BOOT
  {
    assert s.books.holders(t)[s.current] > 0;
    assert s.books.refs(t) > 0;
  }

  /** The counts while the reference that `t` is about to lose has not been taken from them yet. */
  ghost predicate Owing(s: State, t: Tid) {
    var b := s.books;
    && t in s.live && t in s.born && t != BOOT
    && (forall u {:trigger b.refs(u)} :: u in s.born && u != BOOT ==>
          b.refs(u) == |b.holders(u)| + (if u in b.based then 1 else 0) + (if u == t then 1 else 0) &&
              (u in s.live <==> b.refs(u) > 0))
    && BOOT !in b.based && b.based <= s.born
    && (forall u {:trigger b.holders(u)} :: u == BOOT || u !in s.born ==> b.holders(u) == multiset{})
    && (forall u {:trigger b.released[u]} :: b.released[u] == if u in s.born && u !in s.live then 1 else 0)
  }

  /** put_thread releases a thread only when it is reaped, has left the pid tree and is held by nobody. */
  lemma DropRefKeeps(s: State, t: Tid)
    requires Scheduled(s) && Registered(s) && Targets(s) && ReapedOnce(s) && Findable(s) && Owing(s, t)
    ensures Inv(DropRef(s, t))
  {
    DropRefQueues(s, t);
    QueuesFrame(s, DropRef(s, t));
    DropRefLifetime(s, t);
    DropRefFindable(s, t);
  }

  lemma DropRefFindable(s: State, t: Tid)
    requires Queued(s) && Registered(s) && Findable(s) && Owing(s, t)
    ensures Findable(DropRef(s, t))
  {
    var s' := DropRef(s, t);
    forall c {:trigger s.pc(c)} | c in s.live && s.pc(c).Erased? ensures c in s'.live && s'.pc(c) == s.pc(c) {
      assert Proper(s, c);
      if s.books.refs(t) == 1 { assert s.status(t) == Reaped; }
    }
    FindableFrame(s, s');
  }

  lemma DropRefQueues(s: State, t: Tid)
    requires Scheduled(s) && Registered(s) && Owing(s, t)
    ensures var s' := DropRef(s, t); Ready(s') && Running(s') && SameQueues(s, s')
  {
  }

  lemma DropRefLifetime(s: State, t: Tid)
    requires Registered(s) && Targets(s) && ReapedOnce(s) && Owing(s, t)
    ensures var s' := DropRef(s, t); Counted(s') && Registered(s') && Targets(s') && ReapedOnce(s')
  {
    var s' := DropRef(s, t);
    DropRefCounts(s, t);
    assert Registered(s');
    assert Targets(s') by {
      if s.books.refs(t) == 1 { assert s.books.holders(t) == multiset{}; }
    }
    assert ReapedOnce(s');
  }

  lemma DropRefCounts(s: State, t: Tid)
    requires Owing(s, t)
    ensures Counted(DropRef(s, t))
  {
  }

  lemma PutKeeps(s: State, t: Tid)
    requires Inv(s) && Enabled(s, Put(t))
    ensures Inv(Apply(s, Put(t)))
  {
    var b := s.books;
    var s' := s.(books := b.(holders := Update(b.holders, t, b.holders(t) - multiset{s.current})));
    Held(s, t);
    QueuesFrame(s, s');
    PutLifetime(s, t, s');
    FindableFrame(s, s');
    DropRefKeeps(s', t);
  }

  lemma PutLifetime(s: State, t: Tid, s': State)
    requires Lifetime(s) && Enabled(s, Put(t)) && t in s.live && t in s.born && t != BOOT
    requires s' == s.(books := s.books.(holders := Update(s.books.holders, t,
             s.books.holders(t) - multiset{s.current})))
    ensures Registered(s') && Targets(s') && ReapedOnce(s') && Owing(s', t)
  {
  }

  /** Steps of reap_thread: the current thread moves on in the code of wait, and may mark a dead thread. */
  ghost predicate MovesOn(s: State, s': State) {
    && s' == s.(pc := s'.pc, status := s'.status, books := s'.books)
    && ReapStepPc(s.pc(s.current)) && ReapStepPc(s'.pc(s.current))
    && (forall t {:trigger s'.pc(t)} :: t != s.current ==> s'.pc(t) == s.pc(t))
    && (forall t {:trigger s'.status(t)} ::
        s'.status(t) == s.status(t) || (s.status(t) == Dead && s'.status(t) == Reaped))
  }

  ghost predicate ReapStepPc(p: Pc) {
    p == Run || ReapingPc(p)
  }

  lemma MovesOnKeeps(s: State, s': State)
    requires Scheduled(s) && MovesOn(s, s')
    ensures Scheduled(s')
  {
    MovesOnQueues(s, s');
    QueuesFrame(s, s');
  }

  lemma MovesOnQueues(s: State, s': State)
    requires Ready(s) && Running(s) && Queued(s) && MovesOn(s, s')
    ensures Ready(s') && Running(s') && SameQueues(s, s')
  {
  }

  lemma SawDeadLifetime(s: State, t: Tid)
    requires Lifetime(s) && Enabled(s, SawDead(t))
    ensures var s' := Apply(s, SawDead(t)); Counted(s') && Registered(s') && Targets(s') && ReapedOnce(s')
  {
    var s' := Apply(s, SawDead(t));
    Held(s, t);
    assert Counted(s') && Registered(s') && Targets(s');
    assert ReapedOnce(s') by {
      assert forall c, u {:trigger Reaps(s'.pc(c), u)} :: Reaps(s'.pc(c), u) ==> Reaps(s.pc(c), u);
    }
  }

  lemma MarkReapedLifetime(s: State)
    requires Lifetime(s) && Enabled(s, MarkReaped) && s.current in s.live && s.live <= s.born
    ensures var s' := Apply(s, MarkReaped); Counted(s') && Registered(s') && Targets(s') && ReapedOnce(s')
  {
    var s' := Apply(s, MarkReaped);
    assert Counted(s') && Registered(s');
    assert Targets(s');
    MarkReapedOnce(s, s');
  }

  /** Only the thread that finds the mark missing goes on to reap. */
  lemma MarkReapedOnce(s: State, s': State)
    requires Registered(s) && Targets(s) && ReapedOnce(s) && s.pc(s.current).Reaping? && s.current in s.live &&
             s.live <= s.born
    requires s' == Apply(s, MarkReaped)
    ensures ReapedOnce(s')
  {
    var t := s.pc(s.current).t;
    assert t in s.live;
    assert forall c, u {:trigger Reaps(s'.pc(c), u)} ::
        Reaps(s'.pc(c), u) ==> Reaps(s.pc(c), u) || (c == s.current && u == t && s.status(t) != Reaped);
  }

  lemma EraseReapedLifetime(s: State)
    requires Lifetime(s) && Enabled(s, EraseReaped) && s.current in s.live
    ensures Lifetime(Apply(s, EraseReaped))
  {
    var s' := Apply(s, EraseReaped);
    assert Counted(s') && Registered(s');
    assert Targets(s');
    assert ReapedOnce(s') by {
      assert forall c, u {:trigger Reaps(s'.pc(c), u)} :: Reaps(s'.pc(c), u) <==> Reaps(s.pc(c), u);
    }
    EraseFindable(s);
  }

  lemma EraseFindable(s: State)
    requires Findable(s) && Enabled(s, EraseReaped) && s.current in s.live
    ensures Findable(Apply(s, EraseReaped))
  {
    var s', t := Apply(s, EraseReaped), s.pc(s.current).t;
    forall u | u in s'.books.based ensures Known(s'.books.pids, u) || Leaving(s', u) {
      if u == t {
        assert s'.pc(s.current) == Erased(t);
      } else if Known(s.books.pids, u) {
        var p :| p in s.books.pids && s.books.pids[p] == u;
        assert p in s'.books.pids && s'.books.pids[p] == u;
      } else {
        assert Leaving(s, u);
        var c :| c in s.live && s.pc(c) == Erased(u);
        assert s'.pc(c) == Erased(u);
      }
    }
  }

  /** rb_erase is only ever called for a thread that is in the pid tree. */
  lemma ErasedFromTree(s: State)
    requires Inv(s) && Enabled(s, EraseReaped)
    ensures Known(s.books.pids, s.pc(s.current).t)
  {
    var c, t := s.current, s.pc(s.current).t;
    assert Reaps(s.pc(c), t);
    if Leaving(s, t) {
      var d :| d in s.live && s.pc(d) == Erased(t);
      assert Reaps(s.pc(d), t);
    }
  }

  lemma PutBaseKeeps(s: State)
    requires Inv(s) && Enabled(s, PutBase)
    ensures Inv(Apply(s, PutBase))
  {
    var b, c := s.books, s.current;
    var t := s.pc(c).t;
    var s' := s.(pc := Update(s.pc, c, Run), books := b.(based := b.based - {t}));
    PutBaseQueues(s, s');
    QueuesFrame(s, s');
    PutBaseLifetime(s, s');
    PutBaseOwing(s, s');
    PutBaseFindable(s, s');
    DropRefKeeps(s', t);
  }

  lemma PutBaseFindable(s: State, s': State)
    requires Findable(s) && ReapedOnce(s) && Enabled(s, PutBase) && s.current in s.live
    requires s' == s.(pc := Update(s.pc, s.current, Run),
             books := s.books.(based := s.books.based - {s.pc(s.current).t}))
    ensures Findable(s')
  {
    FindableFrame(s, s');
  }

  lemma PutBaseQueues(s: State, s': State)
    requires Scheduled(s) && Enabled(s, PutBase)
    requires s' == s.(pc := Update(s.pc, s.current, Run),
             books := s.books.(based := s.books.based - {s.pc(s.current).t}))
    ensures Ready(s') && Running(s') && SameQueues(s, s')
  {
  }

  lemma PutBaseLifetime(s: State, s': State)
    requires Lifetime(s) && Enabled(s, PutBase) && s.current in s.live
    requires s' == s.(pc := Update(s.pc, s.current, Run),
             books := s.books.(based := s.books.based - {s.pc(s.current).t}))
    ensures Targets(s') && ReapedOnce(s')
  {
    var c, t := s.current, s.pc(s.current).t;
    assert Reaps(s.pc(c), t);
    assert ReapedOnce(s') by {
      assert forall d, u {:trigger Reaps(s'.pc(d), u)} :: Reaps(s'.pc(d), u) ==> Reaps(s.pc(d), u) && d != c;
    }
  }

  lemma PutBaseOwing(s: State, s': State)
    requires Lifetime(s) && Enabled(s, PutBase) && s.current in s.live
    requires s' == s.(pc := Update(s.pc, s.current, Run),
             books := s.books.(based := s.books.based - {s.pc(s.current).t}))
    ensures Registered(s') && Owing(s', s.pc(s.current).t)
  {
    assert Reaps(s.pc(s.current), s.pc(s.current).t);
  }

  lemma ReapStepKeeps(s: State, e: Event)
    requires Inv(s) && Enabled(s, e) && (e.SawDead? || e.MarkReaped? || e.EraseReaped?)
    ensures Inv(Apply(s, e))
  {
    MovesOnKeeps(s, Apply(s, e));
    match e
    case SawDead(t) => SawDeadLifetime(s, t); FindableFrame(s, Apply(s, e));
    case MarkReaped => MarkReapedLifetime(s); FindableFrame(s, Apply(s, e));
    case EraseReaped => EraseReapedLifetime(s);
  }

  lemma StepKeeps(s: State, e: Event)
    requires Inv(s) && Enabled(s, e)
    ensures Inv(Apply(s, e))
  {
    match e
    case Lock(m) => LockKeeps(s, m);
    case Unlock(m) => UnlockKeeps(s, m);
    case CondWait(m, q) => CondWaitKeeps(s, m, q);
    case CondNotify(q) => NotifyKeeps(s, OfCond(q));
    case Yield => ScheduleInv(s);
    case Sleep => SleepKeeps(s);
    case Exit => ExitKeeps(s);
    case Create(t, pid) => CreateKeeps(s, t, pid);
    case Lookup(pid) => LookupKeeps(s, pid);
    case Wake(t) => WakeKeeps(s, t);
    case Put(t) => PutKeeps(s, t);
    case SawDead(t) => ReapStepKeeps(s, e);
    case MarkReaped => ReapStepKeeps(s, e);
    case EraseReaped => ReapStepKeeps(s, e);
    case PutBase => PutBaseKeeps(s);
  }

  // ----- states that agree -----

  /** The same state: functions are compared value by value. */
  ghost predicate Same(s: State, z: State) {
    && z.born == s.born && z.live == s.live && z.current == s.current && z.run == s.run
    && z.locked == s.locked && z.owners == s.owners
    && (forall t {:trigger z.status(t)} {:trigger s.status(t)} :: z.status(t) == s.status(t))
    && (forall t {:trigger z.pc(t)} {:trigger s.pc(t)} :: z.pc(t) == s.pc(t))
    && (forall w {:trigger z.queue(w)} {:trigger s.queue(w)} :: z.queue(w) == s.queue(w))
    && SameBooks(s.books, z.books)
  }

  ghost predicate SameBooks(b: Books, d: Books) {
    && d.based == b.based && d.pids == b.pids && d.reaps == b.reaps && d.released == b.released
    && (forall t {:trigger d.refs(t)} {:trigger b.refs(t)} :: d.refs(t) == b.refs(t))
    && (forall t {:trigger d.holders(t)} {:trigger b.holders(t)} :: d.holders(t) == b.holders(t))
  }

  lemma SchedSame(s: State, z: State)
    requires Scheduled(s) && Same(s, z)
    ensures Scheduled(z)
  {
    assert Ready(z) && Running(z) && Exclusive(z);
    QueuedSame(s, z);
    forall m | m !in z.locked && z.queue(OfMutex(m)) != [] ensures exists t :: Retrying(z, t, m) {
      assert s.queue(OfMutex(m)) != [];
      var t :| Retrying(s, t, m);
      assert Retrying(z, t, m);
    }
  }

  lemma QueuedSame(s: State, z: State)
    requires Queued(s) && Same(s, z)
    ensures Queued(z)
  {
    forall w, t {:trigger t in z.queue(w)} ensures t in z.queue(w) <==> Sleeps(z, t) && z.pc(t).w == w {
      assert t in s.queue(w) <==> Sleeps(s, t) && s.pc(t).w == w;
    }
    forall t ensures Proper(z, t) { assert Proper(s, t); }
  }

  lemma LifeSame(s: State, z: State)
    requires Lifetime(s) && Same(s, z)
    ensures Lifetime(z)
  {
    assert Counted(z) && Registered(z);
    assert Targets(z);
    assert ReapedOnce(z) by {
      assert forall c, t {:trigger Reaps(z.pc(c), t)} :: Reaps(z.pc(c), t) <==> Reaps(s.pc(c), t);
    }
    FindableFrame(s, z);
  }

  /** The invariants see only values. */
  lemma InvSame(s: State, z: State)
    requires Inv(s) && Same(s, z)
    ensures Inv(z)
  {
    SchedSame(s, z);
    LifeSame(s, z);
  }

  // ----- whole runs -----

  /** setup_threading: only the bootstrap thread exists, and it runs. */
  ghost predicate Initial(s: State) {
    && s.born == s.live == {BOOT} && s.current == BOOT && s.run == []
    && s.status(BOOT) == Active && s.pc(BOOT) == Run
    && (forall w {:trigger s.queue(w)} :: s.queue(w) == [])
    && s.locked == {} && s.owners == {}
    && (forall t {:trigger s.books.holders(t)} :: s.books.holders(t) == multiset{})
    && s.books.based == {} && s.books.pids == map[] && s.books.reaps == multiset{} && s.books.released == multiset{}
  }

  lemma InitialInv(s: State)
    requires Initial(s)
    ensures Inv(s)
  {
  }

  ghost predicate Possible(s: State, es: seq<Event>)
    decreases |es|
  {
    es == [] || (Enabled(s, es[0]) && Possible(Apply(s, es[0]), es[1..]))
  }

  ghost function After(s: State, es: seq<Event>): State
    requires Possible(s, es)
    decreases |es|
  {
    if es == [] then s else After(Apply(s, es[0]), es[1..])
  }

  lemma {:induction false} RunKeeps(s: State, es: seq<Event>)
    requires Inv(s) && Possible(s, es)
    ensures Inv(After(s, es))
    decreases |es|
  {
    if es != [] {
      StepKeeps(s, es[0]);
      RunKeeps(Apply(s, es[0]), es[1..]);
    }
  }

  /** Every state that any interleaving of any number of threads reaches satisfies the invariants. */
  lemma EveryRunIsSafe(s: State, es: seq<Event>)
    requires Initial(s) && Possible(s, es)
    ensures Inv(After(s, es))
  {
    InitialInv(s);
    RunKeeps(s, es);
  }

  // ----- order of service -----

  /** The steps that call rr_next_thread. */
  predicate Calls(e: Event) {
    e.Yield? || e.Sleep? || e.Exit?
  }

  function CallCount(es: seq<Event>): nat {
    if es == [] then 0 else (if Calls(es[0]) then 1 else 0) + CallCount(es[1..])
  }

  lemma ScheduleShifts(s: State, k: nat)
    requires Ready(s) && k < |s.run|
    ensures var s' := Schedule(s);
            if k == 0 then s'.current == s.run[0] else k - 1 < |s'.run| && s'.run[k - 1] == s.run[k]
  {
    assert s.run[0] in s.run;
  }

  /** A step moves the run queue by at most one place, and never lets anybody in before its end. */
  lemma StepShifts(s: State, e: Event, k: nat)
    requires Inv(s) && Enabled(s, e) && k < |s.run|
    ensures var s' := Apply(s, e);
            if !Calls(e) then k < |s'.run| && s'.run[k] == s.run[k]
            else if k == 0 then s'.current == s.run[0]
            else k - 1 < |s'.run| && s'.run[k - 1] == s.run[k]
  {
    match e
    case Yield => ScheduleShifts(s, k);
    case Sleep => ScheduleShifts(s.(pc := Update(s.pc, s.current, s.pc(s.current).(slept := true))), k);
    case Exit => ExitReady(s); ScheduleShifts(s.(status := Update(s.status, s.current, Finished),
        pc := Update(s.pc, s.current, Gone)), k);
    case _ => StepAppends(s, e, k);
  }

  lemma StepAppends(s: State, e: Event, k: nat)
    requires Enabled(s, e) && !Calls(e) && k < |s.run|
    ensures var s' := Apply(s, e); k < |s'.run| && s'.run[k] == s.run[k]
  {
  }

  lemma ExitReady(s: State)
    requires Inv(s) && Enabled(s, Exit)
    ensures Ready(s.(status := Update(s.status, s.current, Finished), pc := Update(s.pc, s.current, Gone)))
  {
  }

  /**
   Round robin: the thread at place `k` is dispatched by the (k+1)-th call of rr_next_thread, whatever is
   appended meanwhile.
   */
  lemma Fifo(s: State, es: seq<Event>, k: nat)
    requires Inv(s) && Possible(s, es) && k < |s.run|
    requires es != [] && Calls(es[|es| - 1]) && CallCount(es) == k + 1
    ensures After(s, es).current == s.run[k]
  {
    FifoFrom(s, es, k);
  }

  lemma {:induction false} FifoFrom(s: State, es: seq<Event>, k: nat)
    requires Safe(s) && Possible(s, es) && k < |s.run|
    requires es != [] && Calls(es[|es| - 1]) && CallCount(es) == k + 1
    ensures After(s, es).current == s.run[k]
    decreases |es|
  {
    var s' := Apply(s, es[0]);
    FifoStep(s, es[0], k, s');
    if |es| > 1 {
      LastCall(es[1..]);
      assert es[1..][|es| - 2] == es[|es| - 1];
      FifoFrom(s', es[1..], if Calls(es[0]) then k - 1 else k);
    }
  }

  lemma FifoStep(s: State, e: Event, k: nat, s': State)
    requires Safe(s) && Enabled(s, e) && s' == Apply(s, e) && k < |s.run|
    ensures Safe(s')
    ensures if !Calls(e) then k < |s'.run| && s'.run[k] == s.run[k]
            else if k == 0 then s'.current == s.run[0]
            else k - 1 < |s'.run| && s'.run[k - 1] == s.run[k]
  {
    assert Inside(StepPart, true);
    StepKeeps(s, e);
    StepShifts(s, e, k);
  }

  lemma {:induction false} LastCall(es: seq<Event>)
    requires es != [] && Calls(es[|es| - 1])
    ensures CallCount(es) >= 1
  {
    if |es| > 1 { LastCall(es[1..]); }
  }

  // ----- what follows -----

  lemma MutualExclusion(s: State, es: seq<Event>, t: Tid, u: Tid, m: int)
    requires Initial(s) && Possible(s, es)
    ensures var z := After(s, es); (t, m) in z.owners && (u, m) in z.owners ==> t == u && m in z.locked
  {
    EveryRunIsSafe(s, es);
  }

  /**
   A free mutex with sleepers has a woken thread which still has to try; it is on the processor, or at
   a place `k` of the run queue and then the (k+1)-th dispatch from now on is its own.
   */
  lemma WakeupServed(s: State, m: int) returns (t: Tid, k: nat)
    requires Inv(s) && m !in s.locked && s.queue(OfMutex(m)) != []
    ensures Retrying(s, t, m)
    ensures t == s.current || (k < |s.run| && s.run[k] == t)
    ensures t != s.current ==>
            forall es :: Possible(s, es) && es != [] && Calls(es[|es| - 1]) && CallCount(es) == k + 1 ==>
              After(s, es).current == t
  {
    t :| Retrying(s, t, m);
    k := 0;
    if t != s.current {
      assert t in s.run;
      k :| k < |s.run| && s.run[k] == t;
      forall es | Possible(s, es) && es != [] && Calls(es[|es| - 1]) && CallCount(es) == k + 1
          ensures After(s, es).current == t {
        Fifo(s, es, k);
      }
    }
  }

  /** The steps that notify a wait queue: a condition's own, and those that unlock a mutex. */
  predicate Notifies(e: Event, w: Wq) {
    match w
    case OfCond(q) => e == CondNotify(q)
    case OfMutex(m) => e == Unlock(m) || (e.CondWait? && e.m == m)
  }

  /** The steps by which the current thread joins a wait queue. */
  predicate Joins(s: State, e: Event, w: Wq) {
    match w
    case OfCond(q) => e.CondWait? && e.q == q
    case OfMutex(m) => e == Lock(m) && m in s.locked
  }

  function NotifyCount(es: seq<Event>, w: Wq): nat {
    if es == [] then 0 else (if Notifies(es[0], w) then 1 else 0) + NotifyCount(es[1..], w)
  }

  /** First come, first served: a notification takes the first of a wait queue, and whoever joins is last. */
  lemma QueueLaw(s: State, e: Event, w: Wq)
    requires Enabled(s, e)
    ensures Apply(s, e).queue(w) ==
            (if Notifies(e, w) && s.queue(w) != [] then s.queue(w)[1..] else s.queue(w)) +
            (if Joins(s, e, w) then [s.current] else [])
  {
    var q, z := s.queue(w), Apply(s, e).queue(w);
    if Joins(s, e, w) {
      assert z == q + [s.current];
    } else if Notifies(e, w) && q != [] {
      assert z == q[1..];
    } else {
      assert z == q;
    }
  }

  /**
   condition_wait: the mutex is given up by the same step that joins the queue, so no notifier that takes the
   mutex comes too early.
   */
  lemma CondWaitJoins(s: State, m: int, q: int)
    requires Inv(s) && Enabled(s, CondWait(m, q))
    ensures var s' := Apply(s, CondWait(m, q));
            m in s.locked && m !in s'.locked && s'.queue(OfCond(q)) == s.queue(OfCond(q)) + [s.current]
  {
    CondWaitKeeps(s, m, q);
    QueueLaw(s, CondWait(m, q), OfCond(q));
  }

  /** A waiter stays queued until its turn, and each notification takes one place. */
  lemma StepPlaces(s: State, e: Event, w: Wq, k: nat)
    requires Enabled(s, e) && k < |s.queue(w)| && (k == 0 ==> !Notifies(e, w))
    ensures var z, n := Apply(s, e).queue(w), if Notifies(e, w) then k - 1 else k; n < |z| && z[n] == s.queue(w)[k]
  {
    QueueLaw(s, e, w);
  }

  /** The first waiter is the one that a notification makes runnable, behind whoever is runnable already. */
  lemma NotifyWakes(s: State, e: Event, w: Wq)
    requires Inv(s) && Enabled(s, e) && Notifies(e, w) && s.queue(w) != []
    ensures Apply(s, e).run == s.run + [s.queue(w)[0]]
  {
    assert s.queue(w)[0] in s.queue(w);
    assert Sleeps(s, s.queue(w)[0]);
  }

  /** Until its turn a waiter stays queued: each notification moves it up by one place and nothing else moves it. */
  lemma {:induction false} WaiterKeepsPlace(s: State, es: seq<Event>, w: Wq, k: nat)
    requires Possible(s, es) && k < |s.queue(w)| && NotifyCount(es, w) <= k
    ensures var z, n := After(s, es).queue(w), k - NotifyCount(es, w); n < |z| && z[n] == s.queue(w)[k]
    decreases |es|
  {
    if es != [] {
      StepPlaces(s, es[0], w, k);
      WaiterKeepsPlace(Apply(s, es[0]), es[1..], w, if Notifies(es[0], w) then k - 1 else k);
    }
  }

  /** The waiter at place `k` is made runnable by the (k+1)-th notification. */
  lemma NotifiedInOrder(s: State, es: seq<Event>, w: Wq, k: nat)
    requires Inv(s) && Possible(s, es) && k < |s.queue(w)|
    requires es != [] && Notifies(es[|es| - 1], w) && NotifyCount(es, w) == k + 1
    ensures s.queue(w)[k] in After(s, es).run
  {
    NotifiedFrom(s, es, w, k);
  }

  lemma {:induction false} NotifiedFrom(s: State, es: seq<Event>, w: Wq, k: nat)
    requires Safe(s) && Possible(s, es) && k < |s.queue(w)|
    requires es != [] && Notifies(es[|es| - 1], w) && NotifyCount(es, w) == k + 1
    ensures s.queue(w)[k] in After(s, es).run
    decreases |es|
  {
    var s' := Apply(s, es[0]);
    if |es| == 1 {
      assert Inside(StepPart, true);
      NotifyWakes(s, es[0], w);
      assert After(s, es) == s';
    } else {
      assert es[1..][|es| - 2] == es[|es| - 1];
      LastNotify(es[1..], w);
      StepSafe(s, es[0], s');
      StepPlaces(s, es[0], w, k);
      NotifiedFrom(s', es[1..], w, if Notifies(es[0], w) then k - 1 else k);
    }
  }

  lemma StepSafe(s: State, e: Event, s': State)
    requires Safe(s) && Enabled(s, e) && s' == Apply(s, e)
    ensures Safe(s')
  {
    assert Inside(StepPart, true);
    StepKeeps(s, e);
  }

  lemma {:induction false} LastNotify(es: seq<Event>, w: Wq)
    requires es != [] && Notifies(es[|es| - 1], w)
    ensures NotifyCount(es, w) >= 1
  {
    if |es| > 1 { LastNotify(es[1..], w); }
  }

  /**
   In every run a thread is released at most once, and then it has been reaped exactly once and is
   neither current, nor on any queue, nor in the pid tree, nor held by anybody.
   */
  lemma ReleasedSafely(s: State, es: seq<Event>, t: Tid)
    requires Initial(s) && Possible(s, es)
    ensures var z := After(s, es);
            && z.books.released[t] <= 1 && z.books.reaps[t] <= 1
            && (z.books.released[t] == 1 ==>
                  && z.books.reaps[t] == 1 && t != z.current && t !in z.run && (forall w :: t !in z.queue(w))
                  && (forall p :: p in z.books.pids ==> z.books.pids[p] != t) && z.books.holders(t) == multiset{})
  {
    EveryRunIsSafe(s, es);
    var z := After(s, es);
    if z.books.released[t] == 1 {
      assert t in z.born && t !in z.live && t != BOOT;
      assert z.books.refs(t) == |z.books.holders(t)| + (if t in z.books.based then 1 else 0);
      assert z.status(t) == Reaped;
    }
  }

  lemma {:induction false} CountNoDup(q: seq<Tid>, t: Tid)
    requires NoDup(q)
    ensures multiset(q)[t] == if t in q then 1 else 0
  {
    if q != [] {
      assert q == [q[0]] + q[1..];
      NoDupTail(q);
      CountNoDup(q[1..], t);
    }
  }

  /**
   In every run, each thread but the bootstrap thread is on the run queue once when it is active and not
   current, and not at all otherwise; a blocked thread is newborn or once on just one wait queue.
   */
  lemma EveryThreadInItsPlace(s: State, es: seq<Event>, t: Tid)
    requires Initial(s) && Possible(s, es) && t in After(s, es).live && t != BOOT
    ensures var z := After(s, es);
            && multiset(z.run)[t] == (if z.status(t) == Active && t != z.current then 1 else 0)
            && (z.status(t) == Blocked && z.pc(t) != Newborn ==>
                  exists w :: multiset(z.queue(w))[t] == 1 && forall v :: v != w ==> t !in z.queue(v))
            && (z.status(t) != Blocked ==> forall v :: t !in z.queue(v))
  {
    EveryRunIsSafe(s, es);
    var z := After(s, es);
    CountNoDup(z.run, t);
    if z.status(t) == Blocked && z.pc(t) != Newborn {
      assert Proper(z, t);
      var w := z.pc(t).w;
      assert t in z.queue(w) <==> Sleeps(z, t) && z.pc(t).w == w;
      CountNoDup(z.queue(w), t);
    }
  }
}
