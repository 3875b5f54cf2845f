/**
 The thread and locking code as it is written (threads.c, scheduler.c, locking.c, locking.h): a table of thread
 structures, run and wait queues that are linked lists, a red-black tree of threads by pid, all changed step
 by step. Every method is one section with preemption disabled, or a part of one. The sections are proved to
 take exactly the steps of the transition system in module Threads, and so to keep its invariants.
 */
module Kernel {

  import opened Common
  import opened Threads
  import R = RbTree
  import I = Index
  import Q = Queues

  /** The fields of struct thread that this code uses. */
  datatype Thread = Thread(state: Status, refcount: int, pid: int, node: R.Node)

  /** What the code does not store: how far each thread is, who owns and holds what, and what has happened. */
  datatype Aux = Aux(
    born: set<Tid>,
    live: set<Tid>,
    pc: Tid -> Pc,
    owners: set<(Tid, int)>,
    holders: Tid -> multiset<Tid>,
    based: set<Tid>,
    reaps: multiset<Tid>,
    released: multiset<Tid>)

  // ----- from structures to states -----

  ghost function StatusOf(th: seq<Thread>): Tid -> Status {
    t => if 0 <= t < |th| then th[t].state else Active
  }

  ghost function RefsOf(th: seq<Thread>): Tid -> int {
    t => if 0 <= t < |th| then th[t].refcount else 0
  }

  /** The wait queues of the mutexes come first, then those of the conditions. */
  function Head(w: Wq, mutexes: nat): int {
    match w
    case OfMutex(m) => if 0 <= m < mutexes then m else -1
    case OfCond(q) => if 0 <= q then mutexes + q else -1
  }

  ghost function QueueOf(content: seq<seq<int>>, mutexes: nat): Wq -> seq<Tid> {
    w => if 0 <= Head(w, mutexes) < |content| then content[Head(w, mutexes)] else []
  }

  ghost function LockedOf(mutex: seq<bool>): set<int> {
    set m | 0 <= m < |mutex| && mutex[m]
  }

  /** TREE_ENTRY: the thread around a node of the tree. */
  function Owner(entry: map<R.Node, Tid>, n: R.Node): Tid {
    if n in entry then entry[n] else BOOT
  }

  ghost function PidsOf(at: map<int, R.Node>, entry: map<R.Node, Tid>): map<int, Tid> {
    map p | p in at :: Owner(entry, at[p])
  }

  ghost function RunOf(content: seq<seq<int>>): seq<Tid> {
    if |content| == 1 then content[0] else []
  }

  /** Every node of the pid tree lies in a thread structure, with the pid that is its key. */
  ghost predicate Threaded(th: seq<Thread>, at: map<int, R.Node>, entry: map<R.Node, Tid>) {
    forall p {:trigger at[p]} :: p in at ==>
      at[p] in entry && 0 <= entry[at[p]] < |th| && th[entry[at[p]]].node == at[p] && th[entry[at[p]]].pid == p
  }

  /** The structures as values: the table, the mutexes, the queues and the tree as their contents. */
  datatype Image = Image(
    threads: seq<Thread>,
    mutex: seq<bool>,
    current: Tid,
    run: seq<Tid>,
    waiting: seq<seq<int>>,
    pids: map<int, Tid>,
    aux: Aux)

  /** The state that the structures stand for. */
  ghost function ViewOf(i: Image): State {
    var a := i.aux;
    State(a.born, a.live, StatusOf(i.threads), a.pc, i.current, i.run, QueueOf(i.waiting, |i.mutex|),
        LockedOf(i.mutex), a.owners,
          Books(RefsOf(i.threads), a.holders, a.based, i.pids, a.reaps, a.released))
  }

  lemma FirstState(i: Image)
    requires i.current == BOOT && i.run == [] && |i.threads| > 0 && i.threads[BOOT].state == Active && i.pids == map[]
    requires (forall m :: 0 <= m < |i.mutex| ==> !i.mutex[m]) && (forall h :: 0 <= h < |i.waiting| ==>
             i.waiting[h] == [])
    requires i.aux == Aux({BOOT}, {BOOT}, i.aux.pc, {}, i.aux.holders, {}, multiset{}, multiset{})
    requires (forall t :: i.aux.pc(t) == Run) && (forall t :: i.aux.holders(t) == multiset{})
    ensures Initial(ViewOf(i))
  {
    assert LockedOf(i.mutex) == {};
  }

  // ----- steps on agreeing states -----

  /** The two states are the same, value by value. */
  ghost predicate Agree(s: State, z: State) {
    forall look {:trigger Inside(StepPart, look)} :: Inside(StepPart, look) ==> Same(s, z)
  }

  lemma InitialSafe(s: State)
    requires Initial(s)
    ensures Safe(s)
  {
    InitialInv(s);
  }

  /** The step is possible in `s` and leads to `z`. */
  ghost predicate Steps(s: State, e: Event, z: State) {
    forall look {:trigger Inside(StepPart, look)} :: Inside(StepPart, look) ==> Enabled(s, e) && Same(Apply(s, e), z)
  }

  /** A state that agrees with the next one is safe. */
  lemma Next(s: State, e: Event, z: State)
    requires Safe(s) && Enabled(s, e) && Agree(Apply(s, e), z)
    ensures Safe(z) && Steps(s, e, z)
  {
    assert Inside(StepPart, true);
    StepKeeps(s, e);
    InvSame(Apply(s, e), z);
  }

  lemma AgreeFields(s: State, z: State)
    requires Agree(s, z)
    ensures z.current == s.current && z.run == s.run && z.live == s.live && z.locked == s.locked &&
            z.books.pids == s.books.pids
    ensures forall t {:trigger z.status(t)} :: z.status(t) == s.status(t)
    ensures forall w {:trigger z.queue(w)} :: z.queue(w) == s.queue(w)
  {
    assert Inside(StepPart, true);
  }

  lemma AgreeTrans(s: State, y: State, z: State)
    requires Agree(s, y) && Agree(y, z)
    ensures Agree(s, z)
  {
    assert Inside(StepPart, true);
  }

  // ----- what the invariants say about the structures -----

  lemma SafeCurrent(s: State)
    requires Safe(s)
    ensures s.current !in s.run && (s.run != [] ==> Schedule(s).current == s.run[0])
  {
    assert Inside(StepPart, true);
    if s.run != [] { ScheduleShifts(s, 0); }
  }

  /** The first thread of a wait queue is blocked, so it is not on the run queue. */
  lemma SafeWaiter(s: State, w: Wq)
    requires Safe(s) && s.queue(w) != []
    ensures s.queue(w)[0] !in s.run
  {
    assert Inside(StepPart, true);
    assert s.queue(w)[0] in s.queue(w);
    assert Sleeps(s, s.queue(w)[0]);
  }

  /** A thread that runs is on no wait queue. */
  lemma SafeAbsent(i: Image)
    requires Safe(ViewOf(i)) && var p := i.aux.pc(i.current); p == Run || (p.Waiting? && p.slept)
    ensures Q.Absent(i.waiting, i.current)
  {
    assert Inside(StepPart, true);
    var s := ViewOf(i);
    forall h | 0 <= h < |i.waiting| ensures i.current !in i.waiting[h] {
      var w := if h < |i.mutex| then OfMutex(h) else OfCond(h - |i.mutex|);
      assert Head(w, |i.mutex|) == h;
      assert s.queue(w) == i.waiting[h];
      assert i.current in s.queue(w) ==> Sleeps(s, i.current);
    }
  }

  // ----- what the code does to the contents of the structures -----

  ghost function SetState(i: Image, t: Tid, x: Status): Image {
    if 0 <= t < |i.threads| then i.(threads := i.threads[t := i.threads[t].(state := x)]) else i
  }

  ghost function SetCount(i: Image, t: Tid, n: int): Image {
    if 0 <= t < |i.threads| then i.(threads := i.threads[t := i.threads[t].(refcount := n)]) else i
  }

  ghost function SetPc(i: Image, t: Tid, p: Pc): Image {
    i.(aux := i.aux.(pc := Update(i.aux.pc, t, p)))
  }

  ghost function Awake(i: Image, t: Tid): Image {
    if 0 <= t < |i.threads| && i.threads[t].state == Blocked then SetState(i, t, Active).(run := i.run + [t]) else i
  }

  ghost function Notified(i: Image, h: int): Image {
    if 0 <= h < |i.waiting| && i.waiting[h] != [] then
        Awake(i.(waiting := i.waiting[h := i.waiting[h][1..]]), i.waiting[h][0]) else i
  }

  ghost function PutBack(i: Image): Image {
    var prev := i.current;
    if prev != BOOT && 0 <= prev < |i.threads| && i.threads[prev].state == Active then i.(run := i.run + [prev]) else i
  }

  ghost function Placed(i: Image, next: Tid): Image {
    var prev := i.current;
    var j := if 0 <= prev < |i.threads| && i.threads[prev].state == Finished then SetState(i, prev, Dead) else i;
    (if j.aux.pc(next) == Newborn then SetPc(j, next, Run) else j).(current := next)
  }

  ghost function Switched(i: Image, next: Tid): Image {
    Placed(PutBack(i), next)
  }

  ghost function Rescheduled(i: Image): Image {
    if i.run != [] && i.run[0] == i.current then i.(run := i.run[1..])
    else if StatusOf(i.threads)(i.current) == Active && i.run == [] then i
    else if i.run == [] then Switched(i, BOOT)
    else Switched(i.(run := i.run[1..]), i.run[0])
  }

  lemma AwakeAgrees(i: Image, t: Tid)
    requires 0 <= t < |i.threads|
    ensures Agree(Activate(ViewOf(i), t), ViewOf(Awake(i, t)))
  {
  }

  lemma QueueAgrees(i: Image, w: Wq, q: seq<Tid>)
    requires 0 <= Head(w, |i.mutex|) < |i.waiting|
    ensures Agree(ViewOf(i).(queue := Update(ViewOf(i).queue, w, q)),
            ViewOf(i.(waiting := i.waiting[Head(w, |i.mutex|) := q])))
  {
  }

  lemma AgreeSelf(s: State)
    ensures Agree(s, s)
  {
  }

  lemma ActivateAgree(s: State, y: State, t: Tid, z: State)
    requires Agree(s, y) && Agree(Activate(y, t), z)
    ensures Agree(Activate(s, t), z)
  {
    assert Inside(StepPart, true);
  }

  lemma NotifiedAgrees(i: Image, w: Wq)
    requires 0 <= Head(w, |i.mutex|) < |i.waiting|
    requires ViewOf(i).queue(w) != [] ==> 0 <= ViewOf(i).queue(w)[0] < |i.threads|
    ensures Agree(Notify(ViewOf(i), w), ViewOf(Notified(i, Head(w, |i.mutex|))))
  {
    var s, h := ViewOf(i), Head(w, |i.mutex|);
    var q := s.queue(w);
    if q != [] {
      var j := i.(waiting := i.waiting[h := q[1..]]);
      QueueAgrees(i, w, q[1..]);
      AwakeAgrees(j, q[0]);
      ActivateAgree(s.(queue := Update(s.queue, w, q[1..])), ViewOf(j), q[0], ViewOf(Awake(j, q[0])));
    }
  }

  lemma SwitchedAgrees(i: Image, next: Tid)
    requires 0 <= i.current < |i.threads|
    ensures Agree(SwitchTo(ViewOf(i), next), ViewOf(Switched(i, next)))
  {
    PlacedAgrees(PutBack(i), next);
    assert SwitchTo(ViewOf(i), next) == PlaceTo(ViewOf(PutBack(i)), next);
  }

  ghost function PlaceTo(s: State, n: Tid): State {
    s.(status := if s.status(s.current) == Finished then Update(s.status, s.current, Dead) else s.status,
       pc := if s.pc(n) == Newborn then Update(s.pc, n, Run) else s.pc,
       current := n)
  }

  lemma PlacedAgrees(i: Image, next: Tid)
    requires 0 <= i.current < |i.threads|
    ensures Agree(PlaceTo(ViewOf(i), next), ViewOf(Placed(i, next)))
  {
  }

  lemma RescheduledAgrees(i: Image)
    requires 0 <= i.current < |i.threads|
    ensures Agree(Schedule(ViewOf(i)), ViewOf(Rescheduled(i)))
  {
    if i.run == [] {
      SwitchedAgrees(i, BOOT);
      assert Schedule(ViewOf(i)) == ViewOf(i) || Schedule(ViewOf(i)) == SwitchTo(ViewOf(i), BOOT);
    } else if i.run[0] != i.current {
      SwitchedAgrees(i.(run := i.run[1..]), i.run[0]);
      assert Schedule(ViewOf(i)) == SwitchTo(ViewOf(i.(run := i.run[1..])), i.run[0]);
    }
  }

  lemma ScheduleSame(s: State, y: State)
    requires Same(s, y)
    ensures Same(Schedule(s), Schedule(y))
  {
  }

  lemma ScheduleAgree(s: State, y: State, z: State)
    requires Agree(s, y) && Agree(Schedule(y), z)
    ensures Agree(Schedule(s), z)
  {
    assert Agree(Schedule(s), Schedule(y)) by {
      assert Inside(StepPart, true);
      ScheduleSame(s, y);
    }
    AgreeTrans(Schedule(s), Schedule(y), z);
  }

  ghost function Finishing(i: Image): Image {
    SetPc(SetState(i, i.current, Finished), i.current, Gone)
  }

  lemma ExitAgrees(i: Image)
    requires 0 <= i.current < |i.threads| && Enabled(ViewOf(i), Exit)
    ensures Agree(Apply(ViewOf(i), Exit), ViewOf(Rescheduled(Finishing(i))))
  {
    var s, c := ViewOf(i), i.current;
    var y := s.(status := Update(s.status, c, Finished), pc := Update(s.pc, c, Gone));
    assert Agree(y, ViewOf(Finishing(i)));
    RescheduledAgrees(Finishing(i));
    ScheduleAgree(y, ViewOf(Finishing(i)), ViewOf(Rescheduled(Finishing(i))));
  }

  /** The caller of exit is dead, and somebody else runs. */
  lemma ExitLeaves(s: State)
    requires Safe(s) && Enabled(s, Exit)
    ensures Apply(s, Exit).current != s.current && Apply(s, Exit).status(s.current) == Dead
  {
    assert Inside(StepPart, true);
    ExitReady(s);
    if s.run != [] { assert s.run[0] in s.run; }
  }

  // ----- locking -----

  ghost function Joined(i: Image, w: Wq, m: int): Image {
    var h := Head(w, |i.mutex|);
    var j := if 0 <= h < |i.waiting| then i.(waiting := i.waiting[h := i.waiting[h] + [i.current]]) else i;
    SetPc(SetState(j, i.current, Blocked), i.current, Waiting(w, m, false))
  }

  lemma JoinedAgrees(i: Image, w: Wq, m: int)
    requires 0 <= i.current < |i.threads| && 0 <= Head(w, |i.mutex|) < |i.waiting|
    ensures Agree(Enqueue(ViewOf(i), w, m), ViewOf(Joined(i, w, m)))
  {
    var s, j, c := ViewOf(i), Joined(i, w, m), i.current;
    var z := ViewOf(j);
    forall t ensures z.status(t) == Update(s.status, c, Blocked)(t) && z.books.refs(t) == s.books.refs(t) {
    }
    forall v ensures z.queue(v) == Update(s.queue, w, s.queue(w) + [c])(v) {
    }
    assert Same(Enqueue(s, w, m), z);
  }

  ghost function Taken(i: Image, m: int): Image {
    var j := if 0 <= m < |i.mutex| then i.(mutex := i.mutex[m := true]) else i;
    SetPc(j.(aux := j.aux.(owners := j.aux.owners + {(i.current, m)})), i.current, Run)
  }

  lemma TakenAgrees(i: Image, m: int)
    requires 0 <= m < |i.mutex| && !i.mutex[m] && Enabled(ViewOf(i), Lock(m))
    ensures Agree(Apply(ViewOf(i), Lock(m)), ViewOf(Taken(i, m)))
  {
    assert LockedOf(i.mutex[m := true]) == LockedOf(i.mutex) + {m};
  }

  ghost function Loosed(i: Image, m: int): Image {
    var j := if 0 <= m < |i.mutex| then i.(mutex := i.mutex[m := false]) else i;
    j.(aux := j.aux.(owners := j.aux.owners - {(i.current, m)}))
  }

  lemma LoosedAgrees(i: Image, m: int)
    requires 0 <= m < |i.mutex| <= |i.waiting| && (i.waiting[m] != [] ==> 0 <= i.waiting[m][0] < |i.threads|)
    ensures Agree(Unlocked(ViewOf(i), m), ViewOf(Notified(Loosed(i, m), m)))
  {
    assert LockedOf(i.mutex[m := false]) == LockedOf(i.mutex) - {m};
    var s, j := ViewOf(i), Loosed(i, m);
    assert s.(locked := s.locked - {m}, owners := s.owners - {(s.current, m)}) == ViewOf(j);
    NotifiedAgrees(j, OfMutex(m));
  }

  lemma UnlockedSame(s: State, y: State, m: int)
    requires Same(s, y)
    ensures Same(Unlocked(s, m), Unlocked(y, m))
  {
  }

  lemma UnlockedAgree(s: State, y: State, m: int, z: State)
    requires Agree(s, y) && Agree(Unlocked(y, m), z)
    ensures Agree(Unlocked(s, m), z)
  {
    assert Agree(Unlocked(s, m), Unlocked(y, m)) by {
      assert Inside(StepPart, true);
      UnlockedSame(s, y, m);
    }
    AgreeTrans(Unlocked(s, m), Unlocked(y, m), z);
  }

  /** Between joining the queue of a condition and unlocking the mutex. */
  lemma JoinedSafe(s: State, m: int, q: int, z: State)
    requires Safe(s) && Enabled(s, CondWait(m, q)) && Agree(Enqueue(s, OfCond(q), m), z)
    ensures Safe(z)
  {
    assert Inside(StepPart, true);
    EnqueueKeeps(s, OfCond(q), m);
    InvSame(Enqueue(s, OfCond(q), m), z);
  }

  /** One step joins the queue of the condition and frees the mutex. */
  lemma JoinsQueue(s: State, m: int, q: int)
    requires Safe(s) && Enabled(s, CondWait(m, q))
    ensures var z := Apply(s, CondWait(m, q)); m !in z.locked && z.queue(OfCond(q)) == s.queue(OfCond(q)) + [s.current]
  {
    assert Inside(StepPart, true);
    CondWaitJoins(s, m, q);
  }

  /** A notification takes the first waiter, if there is one, from the wait queue to the end of the run queue. */
  ghost predicate Served(s: State, z: State, w: Wq) {
    var q := s.queue(w);
    && z.queue(w) == (if q == [] then [] else q[1..])
    && z.run == s.run + (if q == [] then [] else [q[0]])
  }

  lemma ServesFirst(s: State, e: Event, w: Wq)
    requires Safe(s) && Enabled(s, e) && Notifies(e, w) && !Joins(s, e, w)
    ensures Served(s, Apply(s, e), w)
  {
    assert Inside(StepPart, true);
    QueueLaw(s, e, w);
    if s.queue(w) != [] { NotifyWakes(s, e, w); } else { NobodyWakes(s, e, w); }
  }

  lemma NobodyWakes(s: State, e: Event, w: Wq)
    requires Enabled(s, e) && Notifies(e, w) && s.queue(w) == []
    ensures Apply(s, e).run == s.run
  {
  }

  // ----- references and pids -----

  ghost function Dropped(i: Image, t: Tid): Image {
    var n := RefsOf(i.threads)(t) - 1;
    var j := SetCount(i, t, n);
    if n == 0 then j.(aux := j.aux.(live := j.aux.live - {t}, released := j.aux.released + multiset{t})) else j
  }

  lemma DroppedAgrees(i: Image, t: Tid)
    requires 0 <= t < |i.threads|
    ensures Agree(DropRef(ViewOf(i), t), ViewOf(Dropped(i, t)))
  {
  }

  ghost function Entered(i: Image, t: Tid, pid: int, node: R.Node): Image {
    var a := i.aux;
    i.(threads := if 0 <= t < |i.threads| then i.threads[t := Thread(Blocked, 1, pid, node)] else i.threads,
       pids := i.pids[pid := t],
       aux := a.(born := a.born + {t}, live := a.live + {t}, pc := Update(a.pc, t, Newborn),
                 holders := Update(a.holders, t, multiset{}), based := a.based + {t}))
  }

  lemma EnteredAgrees(i: Image, t: Tid, pid: int, node: R.Node)
    requires 0 <= t < |i.threads|
    ensures Agree(Created(ViewOf(i), t, pid), ViewOf(Entered(i, t, pid, node)))
  {
  }

  /** No thread that was never there is in the pid tree. */
  lemma UnbornUnknown(s: State, t: Tid)
    requires Safe(s) && t !in s.born
    ensures forall p {:trigger s.books.pids[p]} :: p in s.books.pids ==> s.books.pids[p] != t
  {
    assert Inside(StepPart, true);
  }

  ghost function Gotten(i: Image, t: Tid): Image {
    var j := SetCount(i, t, RefsOf(i.threads)(t) + 1);
    j.(aux := j.aux.(holders := Update(j.aux.holders, t, j.aux.holders(t) + multiset{i.current})))
  }

  lemma GottenAgrees(i: Image, pid: int)
    requires pid in i.pids && 0 <= i.pids[pid] < |i.threads| && Enabled(ViewOf(i), Lookup(pid))
    ensures Agree(Apply(ViewOf(i), Lookup(pid)), ViewOf(Gotten(i, i.pids[pid])))
  {
  }

  /** Who holds a reference holds it to a thread that is there. */
  lemma HeldFits(s: State, t: Tid)
    requires Safe(s) && s.current in s.books.holders(t)
    ensures t in s.born && t in s.live && (s.status(t) == Blocked ==> t !in s.run)
  {
    assert Inside(StepPart, true);
    Held(s, t);
  }

  /** The target of somebody who reaps is there. */
  lemma TargetFits(s: State)
    requires Safe(s) && ReapingPc(s.pc(s.current))
    ensures var t := s.pc(s.current).t; t in s.born && (s.status(t) == Dead || s.status(t) == Reaped)
  {
    assert Inside(StepPart, true);
  }

  ghost function Marked(i: Image, t: Tid): Image {
    if StatusOf(i.threads)(t) == Reaped then SetPc(SetState(i, t, Reaped), i.current, Run)
    else
      var j := SetPc(SetState(i, t, Reaped), i.current, Reaper(t));
      j.(aux := j.aux.(reaps := j.aux.reaps + multiset{t}))
  }

  lemma MarkedAgrees(i: Image)
    requires Enabled(ViewOf(i), MarkReaped) && 0 <= i.aux.pc(i.current).t < |i.threads|
    ensures Agree(Apply(ViewOf(i), MarkReaped), ViewOf(Marked(i, i.aux.pc(i.current).t)))
  {
  }

  /** The pid under which the thread that is reaped is in the tree, and no other. */
  lemma OnlyPid(s: State) returns (p: int)
    requires Safe(s) && Enabled(s, EraseReaped)
    ensures p in s.books.pids && s.books.pids[p] == s.pc(s.current).t
    ensures forall q {:trigger s.books.pids[q]} :: q in s.books.pids && q != p ==> s.books.pids[q] != s.pc(s.current).t
  {
    assert Inside(StepPart, true);
    ErasedFromTree(s);
    p :| p in s.books.pids && s.books.pids[p] == s.pc(s.current).t;
  }

  lemma ErasedAgrees(i: Image, p: int)
    requires Enabled(ViewOf(i), EraseReaped) && p in i.pids && i.pids[p] == i.aux.pc(i.current).t
    requires forall q {:trigger i.pids[q]} :: q in i.pids && q != p ==> i.pids[q] != i.aux.pc(i.current).t
    ensures Agree(Apply(ViewOf(i), EraseReaped), ViewOf(SetPc(i, i.current, Erased(i.pids[p])).(pids := i.pids - {p})))
  {
    var t := i.pids[p];
    var less := map q | q in i.pids && i.pids[q] != t :: i.pids[q];
    forall q ensures q in less <==> q in i.pids - {p} {
      if q in i.pids && q != p { assert i.pids[q] != t; }
    }
    assert less == i.pids - {p};
  }

  class Kernel {
    const active: Q.Queues
    const waiting: Q.Queues
    const tree: I.Index
    var threads: seq<Thread>
    var mutex: seq<bool>
    var current: Tid
    var nextPid: int
    var entry: map<R.Node, Tid>
    ghost var aux: Aux

    /** The two sets of lists share no links. */
    ghost predicate Apart() {
      && active != waiting && active.links != waiting.links
      && {active.links.next, active.links.prev} !! {waiting.links.next, waiting.links.prev}
    }

    /** The nodes of the tree lie in the table. */
    ghost predicate Tabled()
      reads this`threads, this`entry, tree
    {
      forall look {:trigger Inside(TablePart, look)} :: Inside(TablePart, look) ==> Threaded(threads, tree.at, entry)
    }

    /** The queues and the tree are in order. */
    ghost predicate Linked()
      reads active, active.links, active.links.next, active.links.prev
      reads waiting, waiting.links, waiting.links.next, waiting.links.prev, tree, tree.mm, tree.mm.tree,
            tree.mm.tree.nodes
    {
      forall look {:trigger Inside(LinksPart, look)} :: Inside(LinksPart, look) ==>
        active.Valid() && waiting.Valid() && tree.Valid() && Apart()
    }

    /** The structures hang together. */
    ghost predicate Wired()
      reads this, active, active.links, active.links.next, active.links.prev, waiting, waiting.links,
            waiting.links.next, waiting.links.prev, tree, tree.mm, tree.mm.tree, tree.mm.tree.nodes
    {
      && Linked() && Tabled() && |active.content| == active.heads == 1 && |waiting.content| == waiting.heads >= |mutex|
      && active.cells == waiting.cells == |threads|
      && 0 <= current < |threads| && (forall t {:trigger t in aux.born} :: t in aux.born ==> 0 <= t < |threads|)
    }

    ghost function Snap(): Image
      reads this, active, waiting, tree
    {
      Image(threads, mutex, current, RunOf(active.content), waiting.content, PidsOf(tree.at, entry), aux)
    }

    ghost function View(): State
      reads this, active, waiting, tree
    {
      ViewOf(Snap())
    }

    /** The structures have taken the step. */
    twostate predicate Took(e: Event)
      reads this, active, active.links, active.links.next, active.links.prev, waiting, waiting.links,
            waiting.links.next, waiting.links.prev, tree, tree.mm, tree.mm.tree, tree.mm.tree.nodes
    {
      Wired() && Steps(old(View()), e, View())
    }

    /** setup_threading, with room for so many threads, mutexes and conditions. */
    constructor (slots: nat, mutexes: nat, conditions: nat)
      requires slots > 0
      ensures Wired() && Initial(View()) && Safe(View())
      ensures |threads| == slots && |mutex| == mutexes && waiting.heads == mutexes + conditions && nextPid == 0
      ensures fresh(active) && fresh(active.links) && fresh(active.links.next) && fresh(active.links.prev)
      ensures fresh(waiting) && fresh(waiting.links) && fresh(waiting.links.next) && fresh(waiting.links.prev)
      ensures fresh(tree) && fresh(tree.mm) && fresh(tree.mm.tree) && tree.mm.tree.nodes == {}
    {
      active := new Q.Queues(slots, 1);
      waiting := new Q.Queues(slots, mutexes + conditions);
      tree := new I.Index();
      var none := new R.Node();
      threads, mutex := seq(slots, _ => Thread(Active, 0, -1, none)), seq(mutexes, _ => false);
      current, nextPid, entry := BOOT, 0, map[];
      aux := Aux({BOOT}, {BOOT}, (t: Tid) => Run, {}, (t: Tid) => multiset{}, {}, multiset{}, multiset{});
      new;
      assert Linked();
      FirstState(Snap());
      InitialSafe(View());
    }

    /** A store into a thread structure, but for its node and its pid. */
    method Store(t: Tid, x: Thread)
      requires Wired() && 0 <= t < |threads| && x.node == threads[t].node && x.pid == threads[t].pid
      modifies this`threads
      ensures Wired() && threads == old(threads)[t := x]
    {
      assert Inside(TablePart, true);
      threads := threads[t := x];
    }

    // ----- scheduling -----

    /** activate_thread. */
    method ActivateThread(t: Tid)
      requires Wired() && 0 <= t < |threads| && (threads[t].state == Blocked ==> t !in Snap().run)
      modifies this`threads, active, active.links, active.links.next, active.links.prev
      ensures Wired() && Snap() == Awake(old(Snap()), t)
    {
      if threads[t].state == Blocked {
        Store(t, threads[t].(state := Active));
        assert Inside(LinksPart, true);
        active.Push(t, 0);
      }
    }

    /** __wait_queue_notify. */
    method WaitQueueNotify(h: int)
      requires Wired() && 0 <= h < waiting.heads && (waiting.content[h] != [] ==> waiting.content[h][0] !in Snap().run)
      modifies this`threads, active, active.links, active.links.next, active.links.prev
      modifies waiting, waiting.links, waiting.links.next, waiting.links.prev
      ensures Wired() && Snap() == Notified(old(Snap()), h)
    {
      assert Inside(LinksPart, true);
      var empty := waiting.Empty(h);
      if !empty {
        var t := waiting.Pop(h);
        ActivateThread(t);
      }
    }

    /** preempt_thread. */
    method PreemptThread()
      requires Wired() && current !in Snap().run
      modifies active, active.links, active.links.next, active.links.prev
      ensures Wired() && Snap() == PutBack(old(Snap()))
    {
      assert Inside(LinksPart, true);
      if current != BOOT && threads[current].state == Active { active.Push(current, 0); }
    }

    /** place_thread. */
    method PlaceThread(next: Tid)
      requires Wired() && 0 <= next < |threads|
      modifies this`threads, this`current, this`aux
      ensures Wired() && Snap() == Placed(old(Snap()), next)
    {
      var prev := current;
      current := next;
      Bury(prev);
      if aux.pc(next) == Newborn { aux := aux.(pc := Update(aux.pc, next, Run)); }
    }

    /** A thread that has finished is dead as soon as another one runs. */
    method Bury(prev: Tid)
      requires Wired() && 0 <= prev < |threads|
      modifies this`threads
      ensures Wired() && Snap() == if old(threads[prev].state) == Finished then SetState(old(Snap()), prev, Dead)
              else old(Snap())
    {
      if threads[prev].state == Finished { Store(prev, threads[prev].(state := Dead)); }
    }

    /** switch_to in the thread that leaves, then place_thread in the one that comes. */
    method Switch(next: Tid)
      requires Wired() && 0 <= next < |threads| && current !in Snap().run
      modifies this`threads, this`current, this`aux, active, active.links, active.links.next, active.links.prev
      ensures Wired() && Snap() == Switched(old(Snap()), next)
    {
      PreemptThread();
      PlaceThread(next);
    }

    /** schedule: rr_next_thread takes the first thread of the run queue. */
    method Reschedule()
      requires Wired() && current !in Snap().run
      modifies this`threads, this`current, this`aux, active, active.links, active.links.next, active.links.prev
      ensures Wired() && Snap() == Rescheduled(old(Snap()))
    {
      var next, some := BOOT, false;
      assert Inside(LinksPart, true);
      var empty := active.Empty(0);
      if !empty {
        assert forall x :: x in active.content[0][1..] ==> x in active.content[0];
        next := active.Pop(0);
        some := true;
      }
      if some && next == current { return; }
      var force := threads[current].state != Active;
      if !force && !some { return; }
      Switch(next);
    }

    /** A timer interrupt, or a thread that gives up the processor. */
    method Preempt()
      requires Wired() && Safe(View())
      modifies this`threads, this`current, this`aux, active, active.links, active.links.next, active.links.prev
      ensures Took(Yield) && Safe(View())
      ensures old(View().run) != [] ==> current == old(View().run)[0]
    {
      SafeCurrent(View());
      RescheduledAgrees(Snap());
      Reschedule();
      Next(old(View()), Yield, View());
      AgreeFields(Schedule(old(View())), View());
    }

    /** The call of schedule by a thread that has put itself on a wait queue. */
    method SleepNow()
      requires Wired() && Safe(View()) && Enabled(View(), Sleep)
      modifies this`threads, this`current, this`aux, active, active.links, active.links.next, active.links.prev
      ensures Took(Sleep) && Safe(View())
    {
      SafeCurrent(View());
      aux := aux.(pc := Update(aux.pc, current, aux.pc(current).(slept := true)));
      RescheduledAgrees(Snap());
      Reschedule();
      Next(old(View()), Sleep, View());
    }

    method Finish()
      requires Wired()
      modifies this`threads, this`aux
      ensures Wired() && Snap() == Finishing(old(Snap()))
    {
      Store(current, threads[current].(state := Finished));
      aux := aux.(pc := Update(aux.pc, current, Gone));
    }

    /** exit: the caller never runs again. */
    method ExitThread()
      requires Wired() && Safe(View()) && Enabled(View(), Exit)
      modifies this`threads, this`current, this`aux, active, active.links, active.links.next, active.links.prev
      ensures Took(Exit) && Safe(View())
      ensures current != old(current) && View().status(old(current)) == Dead
    {
      SafeCurrent(View());
      ExitLeaves(View());
      ExitAgrees(Snap());
      Finish();
      Reschedule();
      Next(old(View()), Exit, View());
      AgreeFields(Apply(old(View()), Exit), View());
    }

    // ----- locking -----

    method PushCurrent(h: int)
      requires Wired() && 0 <= h < waiting.heads && Q.Absent(waiting.content, current)
      modifies waiting, waiting.links, waiting.links.next, waiting.links.prev
      ensures Wired() &&
              Snap() == old(Snap()).(waiting := old(waiting.content)[h := old(waiting.content[h]) + [current]])
    {
      assert Inside(LinksPart, true);
      waiting.Push(current, h);
    }

    /** list_add_tail of the current thread on a wait queue, with its state set. */
    method Join(w: Wq, m: int)
      requires Wired() && 0 <= Head(w, |mutex|) < waiting.heads && Q.Absent(waiting.content, current)
      modifies this`threads, this`aux, waiting, waiting.links, waiting.links.next, waiting.links.prev
      ensures Wired() && Snap() == Joined(old(Snap()), w, m)
    {
      Store(current, threads[current].(state := Blocked));
      PushCurrent(Head(w, |mutex|));
      aux := aux.(pc := Update(aux.pc, current, Waiting(w, m, false)));
    }

    /** __mutex_try_lock of a mutex that is free. */
    method TakeMutex(m: nat)
      requires Wired() && m < |mutex|
      modifies this`mutex, this`aux
      ensures Wired() && Snap() == Taken(old(Snap()), m)
    {
      mutex := mutex[m := true];
      aux := aux.(owners := aux.owners + {(current, m)}, pc := Update(aux.pc, current, Run));
    }

    /** The section of WAIT_EVENT that tries __mutex_try_lock and, failing, joins the queue. */
    method TryLock(m: nat) returns (taken: bool)
      requires Wired() && Safe(View()) && m < |mutex| && Enabled(View(), Lock(m))
      modifies this`threads, this`mutex, this`aux, waiting, waiting.links, waiting.links.next, waiting.links.prev
      ensures Took(Lock(m)) && Safe(View()) && taken == !old(mutex[m])
      ensures taken ==> m in View().locked && View().queue(OfMutex(m)) == old(View().queue(OfMutex(m)))
      ensures !taken ==> View().queue(OfMutex(m)) == old(View().queue(OfMutex(m))) + [current]
    {
      QueueLaw(View(), Lock(m), OfMutex(m));
      taken := !mutex[m];
      if taken {
        TakenAgrees(Snap(), m);
        TakeMutex(m);
      } else {
        SafeAbsent(Snap());
        JoinedAgrees(Snap(), OfMutex(m), m);
        Join(OfMutex(m), m);
      }
      Next(old(View()), Lock(m), View());
      AgreeFields(Apply(old(View()), Lock(m)), View());
    }

    /** The store and the notification of mutex_unlock. */
    method UnlockSection(m: nat)
      requires Wired() && m < |mutex| && (waiting.content[m] != [] ==> waiting.content[m][0] !in Snap().run)
      modifies this`threads, this`mutex, this`aux, active, active.links, active.links.next, active.links.prev
      modifies waiting, waiting.links, waiting.links.next, waiting.links.prev
      ensures Wired() && Snap() == Notified(Loosed(old(Snap()), m), m)
    {
      mutex := mutex[m := false];
      aux := aux.(owners := aux.owners - {(current, m)});
      WaitQueueNotify(m);
    }

    /** The members of the wait queues are threads. */
    lemma WaitersFit(h: int)
      requires Wired() && 0 <= h < waiting.heads && waiting.content[h] != []
      ensures 0 <= waiting.content[h][0] < |threads|
    {
      assert Inside(LinksPart, true) && Inside(QueuePart, true);
    }

    /** mutex_unlock. */
    method MutexUnlock(m: nat)
      requires Wired() && Safe(View()) && m < |mutex| && Enabled(View(), Unlock(m))
      modifies this`threads, this`mutex, this`aux, active, active.links, active.links.next, active.links.prev
      modifies waiting, waiting.links, waiting.links.next, waiting.links.prev
      ensures Took(Unlock(m)) && Safe(View()) && m !in View().locked
      ensures Served(old(View()), View(), OfMutex(m))
    {
      ServesFirst(View(), Unlock(m), OfMutex(m));
      Notifiable(OfMutex(m));
      LoosedAgrees(Snap(), m);
      UnlockSection(m);
      Next(old(View()), Unlock(m), View());
      AgreeFields(Apply(old(View()), Unlock(m)), View());
    }

    /** The first thread of a wait queue can be put on the run queue. */
    lemma Notifiable(w: Wq)
      requires Wired() && Safe(View()) && 0 <= Head(w, |mutex|) < waiting.heads
      ensures var q := waiting.content[Head(w, |mutex|)]; q != [] ==> 0 <= q[0] < |threads| && q[0] !in Snap().run
    {
      var h := Head(w, |mutex|);
      if waiting.content[h] != [] {
        WaitersFit(h);
        SafeWaiter(View(), w);
      }
    }

    /** Join the queue of the condition, then unlock the mutex. */
    method JoinAndUnlock(m: nat, q: nat)
      requires Wired() && Safe(View()) && m < |mutex| && |mutex| + q < waiting.heads && Enabled(View(), CondWait(m, q))
      modifies this`threads, this`mutex, this`aux, active, active.links, active.links.next, active.links.prev
      modifies waiting, waiting.links, waiting.links.next, waiting.links.prev
      ensures Wired() && Agree(Apply(old(View()), CondWait(m, q)), View())
    {
      ghost var s := View();
      SafeAbsent(Snap());
      JoinedAgrees(Snap(), OfCond(q), m);
      Join(OfCond(q), m);
      ghost var y := View();
      JoinedSafe(s, m, q, y);
      Notifiable(OfMutex(m));
      LoosedAgrees(Snap(), m);
      UnlockSection(m);
      UnlockedAgree(Enqueue(s, OfCond(q), m), y, m, View());
    }

    /** The section of condition_wait: the waiter is queued by the same step that frees the mutex. */
    method ConditionJoin(m: nat, q: nat)
      requires Wired() && Safe(View()) && m < |mutex| && |mutex| + q < waiting.heads && Enabled(View(), CondWait(m, q))
      modifies this`threads, this`mutex, this`aux, active, active.links, active.links.next, active.links.prev
      modifies waiting, waiting.links, waiting.links.next, waiting.links.prev
      ensures Took(CondWait(m, q)) && Safe(View())
      ensures m !in View().locked && View().queue(OfCond(q)) == old(View().queue(OfCond(q))) + [current]
      ensures Served(old(View()), View(), OfMutex(m))
    {
      JoinsQueue(View(), m, q);
      ServesFirst(View(), CondWait(m, q), OfMutex(m));
      JoinAndUnlock(m, q);
      Next(old(View()), CondWait(m, q), View());
      AgreeFields(Apply(old(View()), CondWait(m, q)), View());
    }

    /** condition_notify. */
    method ConditionNotify(q: nat)
      requires Wired() && Safe(View()) && |mutex| + q < waiting.heads && Enabled(View(), CondNotify(q))
      modifies this`threads, active, active.links, active.links.next, active.links.prev
      modifies waiting, waiting.links, waiting.links.next, waiting.links.prev
      ensures Took(CondNotify(q)) && Safe(View())
      ensures Served(old(View()), View(), OfCond(q))
    {
      ServesFirst(View(), CondNotify(q), OfCond(q));
      Notifiable(OfCond(q));
      NotifiedAgrees(Snap(), OfCond(q));
      WaitQueueNotify(|mutex| + q);
      Next(old(View()), CondNotify(q), View());
      AgreeFields(Apply(old(View()), CondNotify(q)), View());
    }

    // ----- references and pids -----

    /** The search of register_thread: the first pid from next_pid on that no thread has. */
    method NextPid() returns (pid: int, p: R.Node?, s: R.Side)
      requires Linked()
      modifies this`nextPid
      ensures pid >= old(nextPid) && nextPid == pid + 1
      ensures pid !in tree.at && forall k :: old(nextPid) <= k < pid ==> k in tree.at
      ensures tree.Link(p, s, pid)
    {
      assert Inside(LinksPart, true);
      pid, nextPid := nextPid, nextPid + 1;
      ghost var tried: set<int> := {};
      var n;
      n, p, s := tree.Find(pid);
      while n != null
        invariant old(nextPid) <= pid && nextPid == pid + 1 && tried <= tree.at.Keys
        invariant forall k :: old(nextPid) <= k < pid <==> k in tried
        invariant n != null <==> pid in tree.at
        invariant n == null ==> tree.Link(p, s, pid)
        decreases tree.at.Keys - tried, n != null
      {
        tried := tried + {pid};
        pid, nextPid := nextPid, nextPid + 1;
        n, p, s := tree.Find(pid);
      }
    }

    /** rb_link and rb_insert. */
    method InsertNode(node: R.Node, pid: int, p: R.Node?, s: R.Side)
      requires Linked() && pid !in tree.at && tree.Link(p, s, pid) && node !in tree.mm.tree.nodes
      modifies tree, tree.mm, tree.mm.tree, tree.mm.tree.nodes, node
      ensures Linked() && tree.at == old(tree.at)[pid := node] && tree.mm.tree.nodes == old(tree.mm.tree.nodes) + {node}
    {
      assert Inside(LinksPart, true);
      tree.Put(node, pid, p, s);
    }

    lemma Elsewhere(node: R.Node)
      requires Linked() && node !in tree.mm.tree.nodes
      ensures forall k {:trigger tree.at[k]} :: k in tree.at ==> tree.at[k] != node
    {
      forall k | k in tree.at ensures tree.at[k] != node {
        assert Inside(LinksPart, true);
        tree.NodesIn(k);
      }
    }

    /** The structure of a new thread, with its node in the tree. */
    method Attach(t: Tid, pid: int, p: R.Node?, s: R.Side) returns (node: R.Node)
      requires Wired() && 0 <= t < |threads| && pid !in tree.at && tree.Link(p, s, pid)
      requires forall k {:trigger tree.at[k]} :: k in tree.at ==> Owner(entry, tree.at[k]) != t
      modifies this`threads, this`entry, tree, tree.mm, tree.mm.tree, tree.mm.tree.nodes
      ensures Wired() && threads == old(threads)[t := Thread(Blocked, 1, pid, node)]
      ensures PidsOf(tree.at, entry) == old(PidsOf(tree.at, entry))[pid := t]
      ensures fresh(tree.mm.tree.nodes - old(tree.mm.tree.nodes))
    {
      ghost var th, at, en := threads, tree.at, entry;
      node := new R.Node();
      Elsewhere(node);
      InsertNode(node, pid, p, s);
      assert Inside(TablePart, true);
      threads := threads[t := Thread(Blocked, 1, pid, node)];
      entry := entry[node := t];
      PidsPut(th, at, en, t, pid, node, threads, tree.at, entry);
    }

    /** alloc_thread and the end of register_thread. */
    method Enter(t: Tid, pid: int, p: R.Node?, s: R.Side) returns (node: R.Node)
      requires Wired() && 0 <= t < |threads| && pid !in tree.at && tree.Link(p, s, pid)
      requires forall k {:trigger tree.at[k]} :: k in tree.at ==> Owner(entry, tree.at[k]) != t
      modifies this`threads, this`entry, this`aux, tree, tree.mm, tree.mm.tree, tree.mm.tree.nodes
      ensures Wired() && Snap() == Entered(old(Snap()), t, pid, node)
      ensures fresh(tree.mm.tree.nodes - old(tree.mm.tree.nodes))
    {
      node := Attach(t, pid, p, s);
      aux := aux.(born := aux.born + {t}, live := aux.live + {t}, pc := Update(aux.pc, t, Newborn),
                  holders := Update(aux.holders, t, multiset{}), based := aux.based + {t});
    }

    /** The threads in the tree, by the nodes they are found through. */
    lemma Unknown(t: Tid)
      requires Wired() && Safe(View()) && t !in aux.born
      ensures forall k {:trigger tree.at[k]} :: k in tree.at ==> Owner(entry, tree.at[k]) != t
    {
      UnbornUnknown(View(), t);
      forall k | k in tree.at ensures Owner(entry, tree.at[k]) != t { assert View().books.pids[k] != t; }
    }

    /** alloc_thread, for a thread that was not there before, and register_thread; nothing happens without memory. */
    method Register(t: Tid, memory: bool) returns (pid: Option<int>)
      requires Wired() && Safe(View()) && aux.pc(current) == Run && t !in aux.born && 0 <= t < |threads|
      modifies this, tree, tree.mm, tree.mm.tree, tree.mm.tree.nodes
      ensures pid.Some? <==> memory
      ensures pid.None? ==> Wired() && View() == old(View()) && nextPid == old(nextPid)
      ensures pid.Some? ==>
              pid.value >= old(nextPid) && nextPid == pid.value + 1 &&
              pid.value !in old(View().books.pids)
      ensures pid.Some? ==> forall k :: old(nextPid) <= k < pid.value ==> k in old(View().books.pids)
      ensures pid.Some? ==> Took(Create(t, pid.value))
      ensures Safe(View()) && fresh(tree.mm.tree.nodes - old(tree.mm.tree.nodes))
    {
      if !memory { return None; }
      var p := RegisterNew(t);
      Next(old(View()), Create(t, p), View());
      pid := Some(p);
    }

    method RegisterNew(t: Tid) returns (pid: int)
      requires Wired() && Safe(View()) && t !in aux.born && 0 <= t < |threads|
      modifies this, tree, tree.mm, tree.mm.tree, tree.mm.tree.nodes
      ensures pid >= old(nextPid) && nextPid == pid + 1 && pid !in old(Snap()).pids
      ensures forall k :: old(nextPid) <= k < pid ==> k in old(Snap()).pids
      ensures Wired() && Agree(Created(old(View()), t, pid), View())
      ensures fresh(tree.mm.tree.nodes - old(tree.mm.tree.nodes))
    {
      Unknown(t);
      var p, s;
      pid, p, s := NextPid();
      ghost var node := Enter(t, pid, p, s);
      EnteredAgrees(old(Snap()), t, pid, node);
    }

    /** __lookup_thread. */
    method FindThread(pid: int) returns (t: Tid, found: bool)
      requires Wired()
      ensures found == (pid in Snap().pids) && (found ==> t == Snap().pids[pid] && 0 <= t < |threads|)
    {
      assert Inside(LinksPart, true) && Inside(TablePart, true);
      var n, p, s := tree.Find(pid);
      found := n != null;
      t := if found then entry[n] else BOOT;
    }

    /** lookup_thread: the thread with the pid, and a reference for the caller. */
    method LookupThread(pid: int) returns (t: Tid, found: bool)
      requires Wired() && Safe(View()) && aux.pc(current) == Run
      modifies this`threads, this`aux
      ensures found == (pid in old(View().books.pids)) && (found ==> t == old(View().books.pids)[pid])
      ensures found ==> Took(Lookup(pid))
      ensures !found ==> Wired() && View() == old(View())
      ensures Safe(View())
    {
      t, found := FindThread(pid);
      if found {
        GottenAgrees(Snap(), pid);
        GetThread(t);
        Next(old(View()), Lookup(pid), View());
      }
    }

    /** get_thread. */
    method GetThread(t: Tid)
      requires Wired() && 0 <= t < |threads|
      modifies this`threads, this`aux
      ensures Wired() && Snap() == Gotten(old(Snap()), t)
    {
      Store(t, threads[t].(refcount := threads[t].refcount + 1));
      aux := aux.(holders := Update(aux.holders, t, aux.holders(t) + multiset{current}));
    }

    /** put_thread: the last reference releases the thread. */
    method DropReference(t: Tid)
      requires Wired() && 0 <= t < |threads|
      modifies this`threads, this`aux
      ensures Wired() && Snap() == Dropped(old(Snap()), t)
    {
      Store(t, threads[t].(refcount := threads[t].refcount - 1));
      if threads[t].refcount == 0 {
        aux := aux.(live := aux.live - {t}, released := aux.released + multiset{t});
      }
    }

    /** activate_thread of a thread that has just been made. */
    method WakeThread(t: Tid)
      requires Wired() && Safe(View()) && Enabled(View(), Wake(t))
      modifies this`threads, active, active.links, active.links.next, active.links.prev
      ensures Took(Wake(t)) && Safe(View())
    {
      HeldFits(View(), t);
      AwakeAgrees(Snap(), t);
      ActivateThread(t);
      Next(old(View()), Wake(t), View());
    }

    /** put_thread by a thread that holds a reference. */
    method PutThread(t: Tid)
      requires Wired() && Safe(View()) && Enabled(View(), Put(t))
      modifies this`threads, this`aux
      ensures Took(Put(t)) && Safe(View())
      ensures t !in aux.live <==> old(View().books.refs(t)) == 1
    {
      HeldFits(View(), t);
      aux := aux.(holders := Update(aux.holders, t, aux.holders(t) - multiset{current}));
      DroppedAgrees(Snap(), t);
      DropReference(t);
      Next(old(View()), Put(t), View());
    }

    /** The test of the loop in __wait_thread: whether the thread is dead, so that the caller goes on to reap it. */
    method SeeDead(t: Tid) returns (dead: bool)
      requires Wired() && Safe(View()) && aux.pc(current) == Run && current in aux.holders(t)
      modifies this`aux
      ensures dead <==> old(View().status(t)) == Dead
      ensures dead ==> Took(SawDead(t))
      ensures !dead ==> Wired() && View() == old(View())
      ensures Safe(View())
    {
      HeldFits(View(), t);
      dead := threads[t].state == Dead;
      if dead {
        Meet(t);
        AgreeSelf(View());
        Next(old(View()), SawDead(t), View());
      }
    }

    ghost method Meet(t: Tid)
      requires Wired()
      modifies this`aux
      ensures Wired() && Snap() == SetPc(old(Snap()), current, Reaping(t))
    {
      aux := aux.(pc := Update(aux.pc, current, Reaping(t)));
    }

    method Mark(t: Tid) returns (mine: bool)
      requires Wired() && 0 <= t < |threads|
      modifies this`threads, this`aux
      ensures Wired() && Snap() == Marked(old(Snap()), t) && mine == (old(threads[t].state) != Reaped)
    {
      mine := threads[t].state != Reaped;
      Store(t, threads[t].(state := Reaped));
      if mine {
        aux := aux.(pc := Update(aux.pc, current, Reaper(t)), reaps := aux.reaps + multiset{t});
      } else {
        aux := aux.(pc := Update(aux.pc, current, Run));
      }
    }

    /** The first section of reap_thread: only one caller finds the mark missing. */
    method MarkAsReaped(t: Tid) returns (mine: bool)
      requires Wired() && Safe(View()) && aux.pc(current) == Reaping(t)
      modifies this`threads, this`aux
      ensures Took(MarkReaped) && Safe(View())
      ensures (mine <==> old(View().status(t)) == Dead) && (mine <==> aux.pc(current) == Reaper(t)) &&
              View().status(t) == Reaped
    {
      TargetFits(View());
      MarkedAgrees(Snap());
      mine := Mark(t);
      Next(old(View()), MarkReaped, View());
    }

    /** rb_erase of the node of a thread. */
    method Detach(t: Tid, ghost p: int)
      requires Wired() && 0 <= t < |threads| && p in tree.at && Owner(entry, tree.at[p]) == t
      modifies tree, tree.mm, tree.mm.tree, tree.mm.tree.nodes
      ensures Wired() && PidsOf(tree.at, entry) == old(PidsOf(tree.at, entry)) - {p}
      ensures tree.mm.tree.nodes <= old(tree.mm.tree.nodes)
    {
      assert Inside(LinksPart, true) && Inside(TablePart, true);
      tree.Take(threads[t].node, p);
    }

    /** The second section of reap_thread: leave the pid tree. */
    method EraseEntry(t: Tid)
      requires Wired() && Safe(View()) && aux.pc(current) == Reaper(t)
      modifies this`aux, tree, tree.mm, tree.mm.tree, tree.mm.tree.nodes
      ensures Took(EraseReaped) && Safe(View()) && tree.mm.tree.nodes <= old(tree.mm.tree.nodes)
    {
      TargetFits(View());
      ghost var p := OnlyPid(View());
      ErasedAgrees(Snap(), p);
      Remove(t, p);
      Next(old(View()), EraseReaped, View());
    }

    method Remove(t: Tid, ghost p: int)
      requires Wired() && 0 <= t < |threads| && p in tree.at && Owner(entry, tree.at[p]) == t
      modifies this`aux, tree, tree.mm, tree.mm.tree, tree.mm.tree.nodes
      ensures Wired() && Snap() == SetPc(old(Snap()), current, Erased(t)).(pids := old(Snap()).pids - {p})
      ensures tree.mm.tree.nodes <= old(tree.mm.tree.nodes)
    {
      Detach(t, p);
      aux := aux.(pc := Update(aux.pc, current, Erased(t)));
    }

    /** The end of reap_thread: drop the reference the thread was created with. */
    method PutBaseReference(t: Tid)
      requires Wired() && Safe(View()) && aux.pc(current) == Erased(t)
      modifies this`threads, this`aux
      ensures Took(PutBase) && Safe(View())
    {
      TargetFits(View());
      aux := aux.(pc := Update(aux.pc, current, Run), based := aux.based - {t});
      DroppedAgrees(Snap(), t);
      DropReference(t);
      Next(old(View()), PutBase, View());
    }

    /** lookup_thread, activate_thread and put_thread of a new thread: it is found, and in the end only activated. */
    method ActivateNew(pid: int, ghost t: Tid)
      requires Wired() && Safe(View()) && aux.pc(current) == Run && aux.pc(t) == Newborn && t != BOOT
      requires Named(View(), pid, t)
      modifies this`threads, this`aux, active, active.links, active.links.next, active.links.prev
      ensures Wired() && Safe(View()) && Agree(Activate(old(View()), t), View()) && |threads| == old(|threads|)
    {
      ghost var s := View();
      NamedPid(s, pid, t);
      var found, ok := LookupThread(pid);
      AfterLookup(s, pid, View());
      ghost var z2 := View();
      WakeThread(found);
      AfterWake(z2, found, View());
      ghost var z3 := View();
      PutThread(found);
      ActivateNet(s, t, pid, z2, z3, View());
    }

    /**
     create_kthread, when nothing comes between its sections: the assertion that the new thread is found holds,
     and the reference taken for the activation is gone again.
     */
    method CreateKthread(t: Tid, memory: bool) returns (pid: Option<int>)
      requires Wired() && Safe(View()) && aux.pc(current) == Run && t !in aux.born && 0 <= t < |threads|
      modifies this, tree, tree.mm, tree.mm.tree, tree.mm.tree.nodes
      modifies active, active.links, active.links.next, active.links.prev
      ensures Wired() && Safe(View()) && fresh(tree.mm.tree.nodes - old(tree.mm.tree.nodes))
      ensures (pid.Some? <==> memory) && |threads| == old(|threads|)
      ensures pid.None? ==> View() == old(View())
      ensures pid.Some? ==> Agree(Activate(Created(old(View()), t, pid.value), t), View())
    {
      ghost var s := View();
      pid := Register(t, memory);
      if pid.Some? {
        AfterCreate(s, t, pid.value, View());
        WakeCreated(s, pid.value, t);
      }
    }

    /** The end of create_kthread. */
    method WakeCreated(ghost s: State, pid: int, ghost t: Tid)
      requires Wired() && Safe(View()) && aux.pc(current) == Run && aux.pc(t) == Newborn && t != BOOT
      requires Named(View(), pid, t) && Agree(Created(s, t, pid), View())
      modifies this`threads, this`aux, active, active.links, active.links.next, active.links.prev
      ensures Wired() && Safe(View()) && Agree(Activate(Created(s, t, pid), t), View()) && |threads| == old(|threads|)
      ensures tree.mm.tree.nodes == old(tree.mm.tree.nodes)
    {
      ghost var z := View();
      ActivateNew(pid, t);
      ActivateAgree(Created(s, t, pid), z, t, View());
    }
  }

  lemma AfterCreate(s: State, t: Tid, pid: int, z: State)
    requires Safe(s) && Steps(s, Create(t, pid), z)
    ensures z.current == s.current && z.pc(z.current) == Run && z.pc(t) == Newborn && t != BOOT
    ensures Named(z, pid, t) && Agree(Created(s, t, pid), z)
  {
    assert Inside(StepPart, true);
  }

  /** The pid is that of the thread. */
  ghost predicate Named(s: State, pid: int, t: Tid) {
    forall look {:trigger Inside(StepPart, look)} :: Inside(StepPart, look) ==>
        pid in s.books.pids && s.books.pids[pid] == t
  }

  lemma NamedPid(s: State, pid: int, t: Tid)
    requires Named(s, pid, t)
    ensures pid in s.books.pids && s.books.pids[pid] == t
  {
    assert Inside(StepPart, true);
  }

  lemma AfterLookup(s: State, pid: int, z: State)
    requires Steps(s, Lookup(pid), z)
    ensures pid in s.books.pids && z.current == s.current && z.current in z.books.holders(s.books.pids[pid])
    ensures forall t {:trigger z.pc(t)} :: z.pc(t) == s.pc(t)
  {
    assert Inside(StepPart, true);
  }

  lemma AfterWake(s: State, t: Tid, z: State)
    requires Steps(s, Wake(t), z)
    ensures z.current == s.current && z.pc(z.current) == Run && z.current in z.books.holders(t)
  {
    assert Inside(StepPart, true);
  }

  /** The state after get_thread by the current thread. */
  ghost function Got(s: State, t: Tid): State {
    var b := s.books;
    s.(books := b.(refs := Update(b.refs, t, b.refs(t) + 1),
        holders := Update(b.holders, t, b.holders(t) + multiset{s.current})))
  }

  /** The state after put_thread by the current thread. */
  ghost function Off(s: State, t: Tid): State {
    DropRef(s.(books := s.books.(holders := Update(s.books.holders, t, s.books.holders(t) - multiset{s.current}))), t)
  }

  lemma LookupGets(s: State, pid: int, z: State)
    requires Steps(s, Lookup(pid), z)
    ensures pid in s.books.pids && Agree(Got(s, s.books.pids[pid]), z)
  {
    assert Inside(StepPart, true);
  }

  lemma WakeActivates(s: State, t: Tid, z: State)
    requires Steps(s, Wake(t), z)
    ensures Agree(Activate(s, t), z)
  {
    assert Inside(StepPart, true);
  }

  lemma PutIsOff(y: State, t: Tid, z: State)
    requires Steps(y, Put(t), z)
    ensures Agree(Off(y, t), z)
  {
    assert Inside(StepPart, true);
  }

  lemma OffSame(s: State, y: State, t: Tid)
    requires Same(s, y)
    ensures Same(Off(s, t), Off(y, t))
  {
  }

  lemma PutsOff(s: State, y: State, t: Tid, z: State)
    requires Agree(s, y) && Steps(y, Put(t), z)
    ensures Agree(Off(s, t), z)
  {
    PutIsOff(y, t, z);
    assert Agree(Off(s, t), Off(y, t)) by {
      assert Inside(StepPart, true);
      OffSame(s, y, t);
    }
    AgreeTrans(Off(s, t), Off(y, t), z);
  }

  lemma NetExact(s: State, t: Tid)
    requires s.books.refs(t) > 0
    ensures Agree(Activate(s, t), Off(Activate(Got(s, t), t), t))
  {
    var c := s.current;
    assert s.books.holders(t) + multiset{c} - multiset{c} == s.books.holders(t);
  }

  /** A thread in the pid tree has a reference. */
  lemma KnownHeld(s: State, pid: int)
    requires Safe(s) && pid in s.books.pids
    ensures s.books.refs(s.books.pids[pid]) > 0
  {
    assert Inside(StepPart, true);
    var t := s.books.pids[pid];
    assert t in s.books.based && t in s.born && t != BOOT;
    assert s.books.refs(t) == |s.books.holders(t)| + 1;
  }

  /** A reference that is taken and dropped again leaves only the activation between. */
  lemma ActivateNet(s: State, t: Tid, pid: int, z2: State, z3: State, z: State)
    requires Safe(s) && Steps(s, Lookup(pid), z2) && pid in s.books.pids && s.books.pids[pid] == t
    requires Steps(z2, Wake(t), z3) && Steps(z3, Put(t), z)
    ensures Agree(Activate(s, t), z)
  {
    KnownHeld(s, pid);
    LookupGets(s, pid, z2);
    WakeActivates(z2, t, z3);
    ActivateAgree(Got(s, t), z2, t, z3);
    PutsOff(Activate(Got(s, t), t), z3, t, z);
    NetExact(s, t);
    AgreeTrans(Activate(s, t), Off(Activate(Got(s, t), t), t), z);
  }

  lemma PidsPut(th: seq<Thread>, at: map<int, R.Node>, entry: map<R.Node, Tid>, t: Tid, pid: int, node: R.Node,
                th': seq<Thread>, at': map<int, R.Node>, entry': map<R.Node, Tid>)
    requires Threaded(th, at, entry) && 0 <= t < |th| && pid !in at
    requires forall k {:trigger at[k]} :: k in at ==> at[k] != node && Owner(entry, at[k]) != t
    requires th' == th[t := Thread(Blocked, 1, pid, node)] && at' == at[pid := node] && entry' == entry[node := t]
    ensures PidsOf(at', entry') == PidsOf(at, entry)[pid := t] && Threaded(th', at', entry')
  {
    forall k | k in at ensures Owner(entry', at[k]) == Owner(entry, at[k]) {
      assert at[k] != node;
    }
  }

  /** One more thread on the run queue, when there is memory for it. */
  method Spawn(k: Kernel, t: Tid)
    requires k.Wired() && Safe(k.View()) && k.aux.pc(k.current) == Run && t !in k.aux.born && 0 <= t < |k.threads|
    modifies k, k.tree, k.tree.mm, k.tree.mm.tree, k.tree.mm.tree.nodes
    modifies k.active, k.active.links, k.active.links.next, k.active.links.prev
    ensures k.Wired() && Safe(k.View()) && k.View().run == old(k.View().run) + [t] && |k.threads| == old(|k.threads|)
    ensures k.current == old(k.current) && k.aux.born == old(k.aux.born) + {t} && k.aux.pc(k.current) == Run
    ensures fresh(k.tree.mm.tree.nodes - old(k.tree.mm.tree.nodes))
  {
    ghost var s := k.View();
    KernelCurrent(s);
    var pid := k.CreateKthread(t, true);
    NewOnRun(s, t, pid.value, k.View());
  }

  lemma KernelCurrent(s: State)
    requires Safe(s)
    ensures s.current in s.born
  {
    assert Inside(StepPart, true);
  }

  method SpawnTwo(k: Kernel)
    requires k.Wired() && Safe(k.View()) && k.aux.pc(k.current) == Run && k.aux.born == {BOOT} && |k.threads| == 3
    requires k.View().run == []
    modifies k, k.tree, k.tree.mm, k.tree.mm.tree, k.tree.mm.tree.nodes
    modifies k.active, k.active.links, k.active.links.next, k.active.links.prev
    ensures k.Wired() && Safe(k.View()) && k.View().run == [1, 2] && k.current == old(k.current)
  {
    Spawn(k, 1);
    Spawn(k, 2);
  }

  /** Two threads are made at the start; when the processor is given up the first one runs and the other waits. */
  method TwoThreads() returns (k: Kernel)
    ensures k.Wired() && Safe(k.View()) && k.current == 1 && k.View().run == [2]
  {
    k := new Kernel(3, 1, 1);
    SpawnTwo(k);
    Dispatch(k);
  }

  method Dispatch(k: Kernel)
    requires k.Wired() && Safe(k.View()) && k.View().run == [1, 2] && k.current == BOOT
    modifies k, k.active, k.active.links, k.active.links.next, k.active.links.prev
    ensures k.Wired() && Safe(k.View()) && k.current == 1 && k.View().run == [2]
  {
    ghost var s := k.View();
    k.Preempt();
    BootYields(s, k.View());
  }

  /** The bootstrap thread is not put back on the run queue. */
  lemma BootYields(s: State, z: State)
    requires Steps(s, Yield, z) && s.current == BOOT && s.run != [] && s.run[0] != BOOT
    ensures z.run == s.run[1..]
  {
    assert Inside(StepPart, true);
  }

  /** The new thread is the last of the run queue. */
  lemma NewOnRun(s: State, t: Tid, pid: int, z: State)
    requires Agree(Activate(Created(s, t, pid), t), z)
    ensures z.run == s.run + [t] && z.current == s.current && z.born == s.born + {t} && z.pc(t) == Newborn
    ensures forall u {:trigger z.pc(u)} :: u != t ==> z.pc(u) == s.pc(u)
  {
    assert Inside(StepPart, true);
  }
}
