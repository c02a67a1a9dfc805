/**
 * The scheduler at the level of task structures and pointers (src/kernel/sched.c, exit.c, fork.c,
 * tty.c), proved to follow the process state machine: the run queue is a circular doubly linked
 * list through `next` and `prev`, entered at `current`.
 */
module Sched {
  import opened Processes
  import opened Fairness

  datatype Task = Task(
    pid: nat, state: State, exitStatus: int, next: Ptr, prev: Ptr,
    parent: Ptr, children: Ptr, sibling: Ptr, aliveTicks: nat)

  const BLANK := Task(0, Running, 0, NULL, NULL, NULL, NULL, NULL, 0)

  type Tasks = map<Ptr, Task>

  function Succ(i: nat, n: nat): (j: nat)
    requires i < n
    ensures j < n
  {
    if i + 1 < n then i + 1 else 0
  }

  /** The ring is the circular list: `next` goes one place on, and `prev` is its inverse. */
  ghost predicate Linked(tasks: Tasks, ring: seq<Ptr>)
  {
    && |ring| > 0 && Distinct(ring)
    && (forall i :: 0 <= i < |ring| ==> LinkedAt(tasks, ring, i))
  }

  ghost predicate LinkedAt(tasks: Tasks, ring: seq<Ptr>, i: nat)
    requires i < |ring|
  {
    var j := Succ(i, |ring|);
    ring[i] in tasks && ring[j] in tasks && tasks[ring[i]].next == ring[j] && tasks[ring[j]].prev == ring[i]
  }

  /** Only the links of the run queue differ. */
  ghost predicate SameButLinks(was: Tasks, now: Tasks)
  {
    && now.Keys == was.Keys
    && (forall p :: p in was ==> now[p] == was[p].(next := now[p].next, prev := now[p].prev))
  }

  /** How an insertion after c changes the links. */
  ghost predicate InsertedAfter(was: Tasks, now: Tasks, c: Ptr, t: Ptr)
    requires c in was
  {
    && SameButLinks(was, now)
    && (forall p :: p in was ==>
          && now[p].next == (if p == c then t else if p == t then was[c].next else was[p].next)
          && now[p].prev == (if p == was[c].next then t else if p == t then c else was[p].prev))
  }

  /** How the removal of t changes the links. */
  ghost predicate Removed(was: Tasks, now: Tasks, t: Ptr)
    requires t in was
  {
    && SameButLinks(was, now)
    && (forall p :: p in was ==>
          && now[p].next == (if p == t then NULL else if p == was[t].prev then was[t].next else was[p].next)
          && now[p].prev == (if p == t then NULL else if p == was[t].next then was[t].prev else was[p].prev))
  }

  lemma InsertLinks(m: Tasks, r: Tasks, ring: seq<Ptr>, t: Ptr)
    requires Linked(m, ring) && t in m && t !in ring && ring[0] in m && InsertedAfter(m, r, ring[0], t)
    ensures Linked(r, [ring[0], t] + ring[1..])
  {
    var q := [ring[0], t] + ring[1..];
    var n := |ring|;
    assert LinkedAt(m, ring, 0);
    forall i | 0 <= i < |q| ensures LinkedAt(r, q, i) {
      if i >= 2 {
        assert LinkedAt(m, ring, i - 1) && q[i] == ring[i - 1];
        assert q[Succ(i, |q|)] == ring[Succ(i - 1, n)];
      }
    }
  }

  lemma RemoveLinks(m: Tasks, r: Tasks, ring: seq<Ptr>)
    requires Linked(m, ring) && |ring| > 1 && ring[0] in m && Removed(m, r, ring[0])
    ensures Linked(r, ring[1..])
  {
    var q := ring[1..];
    var n := |ring|;
    assert LinkedAt(m, ring, 0) && LinkedAt(m, ring, n - 1);
    forall i | 0 <= i < |q| ensures LinkedAt(r, q, i) {
      assert LinkedAt(m, ring, i + 1) && q[i] == ring[i + 1];
    }
  }

  /** The neighbours of the first element. */
  lemma NextInRing(m: Tasks, ring: seq<Ptr>)
    requires Linked(m, ring)
    ensures |ring| > 0 && ring[0] in m && m[ring[0]].next in m && m[ring[0]].prev in m
    ensures m[ring[0]].next == ring[Succ(0, |ring|)]
    ensures |ring| > 1 ==> ring[0] != ring[1]
    ensures forall p :: p in ring ==> p in m
  {
    assert LinkedAt(m, ring, 0) && LinkedAt(m, ring, |ring| - 1);
    forall p | p in ring ensures p in m {
      var i :| 0 <= i < |ring| && ring[i] == p;
      assert LinkedAt(m, ring, i);
    }
  }

  /** Counting a tick touches no link and no process. */
  lemma TicksKeepLinks(m: Tasks, ring: seq<Ptr>, c: Ptr, n: nat)
    requires Linked(m, ring) && c in m
    ensures var r := m[c := m[c].(aliveTicks := n)]; Linked(r, ring) && Procs(r) == Procs(m)
  {
    var r := m[c := m[c].(aliveTicks := n)];
    forall i | 0 <= i < |ring| ensures LinkedAt(r, ring, i) {
      assert LinkedAt(m, ring, i);
    }
  }

  /** A structure outside the ring does not touch it. */
  lemma NewKeepsLinks(m: Tasks, ring: seq<Ptr>, p: Ptr, t: Task)
    requires Linked(m, ring) && p !in ring
    ensures Linked(m[p := t], ring)
  {
    var r := m[p := t];
    forall i | 0 <= i < |ring| ensures LinkedAt(r, ring, i) {
      assert LinkedAt(m, ring, i);
    }
  }

  /** Changing a structure but not its links keeps the ring. */
  lemma EditKeepsLinks(m: Tasks, r: Tasks, ring: seq<Ptr>)
    requires Linked(m, ring) && m.Keys == r.Keys
    requires forall p :: p in m ==> r[p].next == m[p].next && r[p].prev == m[p].prev
    ensures Linked(r, ring)
  {
    forall i | 0 <= i < |ring| ensures LinkedAt(r, ring, i) {
      assert LinkedAt(m, ring, i);
    }
  }

  /** Advancing `current` rotates the ring. */
  lemma TurnLinks(m: Tasks, ring: seq<Ptr>)
    requires Linked(m, ring)
    ensures Linked(m, ring[1..] + [ring[0]])
  {
    var q := ring[1..] + [ring[0]];
    forall i | 0 <= i < |q| ensures LinkedAt(m, q, i) {
      assert LinkedAt(m, ring, Succ(i, |ring|)) && q[i] == ring[Succ(i, |ring|)];
      assert q[Succ(i, |q|)] == ring[Succ(Succ(i, |ring|), |ring|)];
    }
  }

  /** The state machine's view of the task structures. */
  ghost function ProcOf(t: Task): (p: Proc)
  {
    Proc(t.pid, t.state, t.exitStatus, t.parent, t.children)
  }

  ghost function Procs(tasks: Tasks): (procs: map<Ptr, Proc>)
    ensures procs.Keys == tasks.Keys
  {
    map p | p in tasks :: ProcOf(tasks[p])
  }

  /** Every task but the current one starts its next turn with no ticks used; child lists have one element. */
  ghost predicate Rested(tasks: Tasks, current: Ptr)
  {
    forall p :: p in tasks ==> tasks[p].sibling == NULL && (p != current ==> tasks[p].aliveTicks == 0)
  }

  lemma ProcsUpdate(m: Tasks, p: Ptr, t: Task)
    ensures Procs(m[p := t]) == Procs(m)[p := ProcOf(t)]
  {
  }

  lemma SameProcs(m: Tasks, r: Tasks)
    requires SameButLinks(m, r)
    ensures Procs(m) == Procs(r)
  {
  }

  lemma NewRests(m: Tasks, current: Ptr, p: Ptr, t: Task)
    requires Rested(m, current) && t.sibling == NULL && t.aliveTicks == 0
    ensures Rested(m[p := t], current)
  {
  }

  /** What fork needs of the invariant. */
  lemma ForkFacts(m: Tasks, s: Sys, p: Ptr)
    requires Inv(s) && Legal(s, Fork(p)) && s.procs == Procs(m)
    ensures |s.ring| > 0 && p !in s.ring && p != s.ring[0] && s.ring[0] in m && s.ring[0] in s.procs
    ensures m[s.ring[0]].children == NULL || m[s.ring[0]].children in m
    ensures s.procs[s.ring[0]] == ProcOf(m[s.ring[0]]) && (PidOf(s.forks) + 1) % PIDS == PidOf(s.forks + 1)
  {
    hide PidsOk, PidOf;
    NextPid(s.forks);
  }

  lemma NextPid(forks: nat)
    ensures (PidOf(forks) + 1) % PIDS == PidOf(forks + 1)
  {
  }

  ghost function ForkedTasks(m: Tasks, p: Ptr, pid: nat, me: Ptr): (r: map<Ptr, Proc>)
    requires me in m
  {
    Procs(m)[p := Proc(pid, Running, 0, me, NULL)][me := ProcOf(m[me]).(child := p)]
  }

  /** The new task, put into the queue (m1) and the tree (m2), as the state machine sees it. */
  lemma ForkedProcs(m: Tasks, m1: Tasks, m2: Tasks, p: Ptr, pid: nat, me: Ptr)
    requires me in m && p != me && SameButLinks(m[p := BLANK.(pid := pid)], m1)
    requires m2 == m1[p := m1[p].(parent := me, sibling := NULL)][me := m1[me].(children := p)]
    ensures Procs(m2) == ForkedTasks(m, p, pid, me)
    ensures Rested(m1, me) ==> Rested(m2, me)
  {
    var m0 := m[p := BLANK.(pid := pid)];
    forall q | q in m2 ensures q in m0 && ProcOf(m2[q]) == ForkedTasks(m, p, pid, me)[q] {
      assert q in m0 && m1[q] == m0[q].(next := m1[q].next, prev := m1[q].prev);
    }
  }

  /** Changing a structure but not its links, sibling or ticks. */
  lemma EditTask(m: Tasks, ring: seq<Ptr>, current: Ptr, p: Ptr, t: Task)
    requires Linked(m, ring) && Rested(m, current) && p in m
    requires t == m[p].(state := t.state, exitStatus := t.exitStatus)
    ensures var r := m[p := t]; Linked(r, ring) && Rested(r, current) && Procs(r) == Procs(m)[p := ProcOf(t)]
  {
    EditKeepsLinks(m, m[p := t], ring);
    ProcsUpdate(m, p, t);
  }

  /** Before a sleep, the tasks of the ring are live and have different process numbers. */
  lemma SleepPids(s: Sys, t: Sys)
    requires Inv(s) && SameTree(s, t) && forall p :: p in t.ring ==> p in s.ring || p in s.live
    ensures t.live <= t.procs.Keys && PidsOk(t) && forall p :: p in t.ring ==> p in t.live
  {
    SameTreeOk(s, t);
  }

  /** What the run queue needs of the invariant. */
  lemma QueueFacts(s: Sys)
    requires Inv(s)
    ensures s.live <= s.procs.Keys && PidsOk(s) && |s.ring| > 0 && forall p :: p in s.ring ==> p in s.live
    ensures s.blocked != NULL ==> s.blocked in s.procs && s.blocked !in s.ring
  {
    hide ParentsOk, PidsOk;
  }

  /** Process numbers do not depend on the queue. */
  lemma SamePids(s: Sys, t: Sys)
    requires t == s.(ring := t.ring, ticks := t.ticks, blocked := t.blocked)
    ensures s.live <= s.procs.Keys && PidsOk(s) ==> PidsOk(t)
  {
  }

  /** What wait needs of the invariant. */
  lemma WaitFacts(m: Tasks, s: Sys)
    requires Inv(s) && s.procs == Procs(m)
    ensures s.ring[0] in m && s.procs[s.ring[0]] == ProcOf(m[s.ring[0]]) && m[s.ring[0]].exitStatus == 0
    ensures ZombieChild(s, s.ring[0]) ==>
      var c := m[s.ring[0]].children; c != NULL && c in m && s.procs[c] == ProcOf(m[c])
    ensures var t := SetState(s, s.ring[0], Waiting);
      t.live <= t.procs.Keys && PidsOk(t) && forall p :: p in t.ring ==> p in t.live
  {
    SleepPids(s, SetState(s, s.ring[0], Waiting));
  }

  /** What exit needs of the invariant. */
  lemma ExitFacts(m: Tasks, s: Sys, status: int)
    requires Inv(s) && Legal(s, Exit(status)) && s.procs == Procs(m)
    ensures s.ring[0] in m && s.procs[s.ring[0]] == ProcOf(m[s.ring[0]]) && m[s.ring[0]].parent in m
    ensures var p := m[s.ring[0]].parent; s.procs[p] == ProcOf(m[p]) && (m[p].state == Waiting ==> p !in s.ring)
    ensures var t := Woken(s, status); t.live <= t.procs.Keys && PidsOk(t) && forall p :: p in t.ring ==> p in t.live
  {
    hide PidsOk;
    var me, parent := s.ring[0], s.procs[s.ring[0]].parent;
    assert me in s.procs && parent in s.live;
    WokenTree(s, status);
    SleepPids(s, Woken(s, status));
  }

  lemma WokenTree(s: Sys, status: int)
    requires Inv(s) && Legal(s, Exit(status))
    ensures SameTree(s, Woken(s, status))
    ensures forall p :: p in Woken(s, status).ring ==> p in s.ring || p in s.live
  {
    hide PidsOk;
    var parent := s.procs[s.ring[0]].parent;
    assert parent in s.live;
  }

  datatype WaitResult = Freed(pid: nat, status: int) | Slept | Panicked | FreedTwice
  datatype ReadResult = Blocked | Busy | Alone

  class Scheduler {
    var tasks: Tasks
    var current: Ptr
    var procRoot: Ptr
    var waitingTask: Ptr
    var nextPid: nat
    /** The task structures that the heap has handed out and not taken back. */
    var live: set<Ptr>
    ghost var ring: seq<Ptr>
    ghost var forks: nat

    /** The state the state machine sees. */
    ghost function Sys(): (s: Sys)
      reads this
      requires current in tasks
    {
      Processes.Sys(ring, tasks[current].aliveTicks, Procs(tasks), live, waitingTask, procRoot, forks)
    }

    /** The run queue is the ring, entered at `current`. */
    ghost predicate Queue()
      reads this
    {
      Linked(tasks, ring) && current == ring[0] && current in tasks && Rested(tasks, current)
    }

    ghost predicate Valid()
      reads this
    {
      Queue() && nextPid == PidOf(forks) && Inv(Sys())
    }

    /** `create_init` and `start_init`. */
    constructor (init: Ptr)
      requires init != NULL
      ensures Valid() && Sys() == Start(init)
    {
      tasks := map[init := BLANK.(pid := INIT_PID, next := init, prev := init)];
      current, procRoot, waitingTask, nextPid := init, init, NULL, FIRST_PID;
      ring, live, forks := [init], {init}, 0;
      new;
      StartOk(init);
      assert Procs(tasks) == Start(init).procs;
    }

    // ---------- the run queue ----------

    /** `sched_rr_insert_proc`. */
    method RrInsert(t: Ptr)
      requires current in tasks && t in tasks && t != current && tasks[current].next in tasks
      requires tasks[current].next != t
      modifies this`tasks
      ensures InsertedAfter(old(tasks), tasks, current, t)
    {
      tasks := tasks[t := tasks[t].(next := tasks[current].next)];
      tasks := tasks[t := tasks[t].(prev := current)];
      var n := tasks[current].next;
      tasks := tasks[n := tasks[n].(prev := t)];
      tasks := tasks[current := tasks[current].(next := t)];
    }

    /** `sched_rr_remove_proc`. */
    method RrRemove(t: Ptr)
      requires t in tasks && tasks[t].next in tasks && tasks[t].prev in tasks
      modifies this`tasks
      ensures Removed(old(tasks), tasks, t)
    {
      ghost var m := tasks;
      var prev := tasks[t].prev;
      tasks := tasks[prev := tasks[prev].(next := tasks[t].next)];
      var next := tasks[t].next;
      tasks := tasks[next := tasks[next].(prev := tasks[t].prev)];
      ghost var m2 := tasks;
      assert SameButLinks(m, m2);
      tasks := tasks[t := tasks[t].(next := NULL)];
      tasks := tasks[t := tasks[t].(prev := NULL)];
      assert tasks == m2[t := m2[t].(next := NULL, prev := NULL)];
    }

    /** `switch_to`: false stands for the panic. */
    method SwitchTo(t: Ptr) returns (ok: bool)
      requires current in tasks && t in tasks
      modifies this`current
      ensures current == t && ok == (tasks[old(current)].pid != tasks[t].pid)
    {
      var currentOld := current;
      current := t;
      ok := tasks[currentOld].pid != tasks[current].pid;
    }

    /** `sched_rr_insert_proc` of a task that is not in the queue: it becomes the next to run. */
    method InsertNext(t: Ptr)
      requires Queue() && t in tasks && t !in ring
      modifies this`tasks, this`ring
      ensures Queue() && Sys() == Insert(old(Sys()), t) && SameButLinks(old(tasks), tasks)
    {
      hide Linked;
      ghost var m, q := tasks, ring;
      NextInRing(m, q);
      RrInsert(t);
      InsertLinks(m, tasks, q, t);
      SameProcs(m, tasks);
      ring := [q[0], t] + q[1..];
    }

    /** `schedule_sleep`: false stands for the panic in `switch_to`. */
    method ScheduleSleep() returns (ok: bool)
      requires Queue() && live <= tasks.Keys && PidsOk(Sys()) && forall p :: p in ring ==> p in live
      modifies this`tasks, this`ring, this`current
      ensures if ok then Queue() && Sleep(old(Sys())) == Ran(Sys()) else Sleep(old(Sys())) == SameProcess
    {
      hide Linked;
      ghost var m0, q := tasks, ring;
      tasks := tasks[current := tasks[current].(aliveTicks := 0)];
      ghost var m := tasks;
      TicksKeepLinks(m0, q, current, 0);
      var next := tasks[current].next;
      NextInRing(m, q);
      RrRemove(current);
      SameProcs(m, tasks);
      ok := SwitchTo(next);
      assert |q| > 1 ==> q[0] in q && q[1] in q && Procs(m0)[q[0]].pid != Procs(m0)[q[1]].pid;
      if ok {
        RemoveLinks(m, tasks, q);
        ring := q[1..];
      }
    }

    /** `schedule`. */
    method Schedule() returns (ok: bool)
      requires Queue() && live <= tasks.Keys && PidsOk(Sys()) && forall p :: p in ring ==> p in live
      modifies this`tasks, this`ring, this`current
      ensures ok && Queue() && Sys() == old(Sys()).(ring := old(ring[1..] + [ring[0]]), ticks := 0)
    {
      hide Linked;
      ghost var m0, q := tasks, ring;
      tasks := tasks[current := tasks[current].(aliveTicks := 0)];
      TicksKeepLinks(m0, q, current, 0);
      NextInRing(tasks, q);
      var next := tasks[current].next;
      if current == next {
        assert |q| == 1 && q[1..] + [q[0]] == q;
        return true;
      }
      assert |q| > 1 ==> q[0] in q && q[1] in q && Procs(m0)[q[0]].pid != Procs(m0)[q[1]].pid;
      ok := SwitchTo(next);
      TurnLinks(tasks, q);
      ring := q[1..] + [q[0]];
    }

    /** The timer interrupt, `sched_maybe_preempt`. */
    method MaybePreempt() returns (ok: bool)
      requires Valid()
      modifies this`tasks, this`ring, this`current
      ensures ok && Valid() && Next(old(Sys()), Tick) == Ran(Sys())
    {
      hide Linked, Inv, PidsOk, Procs;
      ghost var s, m, q := Sys(), tasks, ring;
      TickOk(s);
      QueueFacts(s);
      var ticks := tasks[current].aliveTicks;
      tasks := tasks[current := tasks[current].(aliveTicks := ticks + 1)];
      TicksKeepLinks(m, q, current, ticks + 1);
      SamePids(s, Sys());
      if ticks < PREEMPT_TICK_COUNT { return true; }
      ok := Schedule();
    }

    // ---------- fork ----------

    /** `tree_insert_proc`: the new task's sibling is that of the old head, so the old head drops off the list. */
    method TreeInsert(parent: Ptr, t: Ptr)
      requires parent in tasks && t in tasks && parent != t
      requires tasks[parent].children == NULL || tasks[parent].children in tasks
      modifies this`tasks
      ensures var head := old(tasks)[parent].children;
        var sibling := if head == NULL then NULL else old(tasks)[head].sibling;
        tasks == old(tasks)[t := old(tasks)[t].(parent := parent, sibling := sibling)]
                           [parent := old(tasks)[parent].(children := t)]
    {
      ghost var m := tasks;
      tasks := tasks[t := tasks[t].(parent := parent)];
      var head := tasks[parent].children;
      if head != NULL {
        tasks := tasks[t := tasks[t].(sibling := tasks[head].sibling)];
      } else {
        tasks := tasks[t := tasks[t].(sibling := NULL)];
      }
      tasks := tasks[parent := tasks[parent].(children := t)];
    }

    /** The state part of `do_fork`, with the zeroed structure allocated at p. */
    method DoFork(p: Ptr)
      modifies this`tasks, this`nextPid
      ensures tasks == old(tasks)[p := BLANK.(pid := old(nextPid))] && nextPid == (old(nextPid) + 1) % PIDS
    {
      tasks := tasks[p := BLANK];
      tasks := tasks[p := tasks[p].(state := Running)];
      tasks := tasks[p := tasks[p].(pid := nextPid)];
      nextPid := (nextPid + 1) % PIDS;
    }

    /** `sched_fork`. */
    method SchedFork(p: Ptr) returns (pid: nat)
      requires Valid() && Legal(Sys(), Fork(p))
      modifies this
      ensures Valid() && Next(old(Sys()), Fork(p)) == Ran(Sys())
      ensures pid == PidOf(old(forks)) && p in tasks && tasks[p].pid == pid
    {
      hide Linked, Inv, Procs, Legal, PidOf;
      ghost var s, m := Sys(), tasks;
      ForkOk(s, p);
      ForkFacts(m, s, p);
      QueueNew(p);
      ghost var m1 := tasks;
      TreeInsert(current, p);
      pid := tasks[p].pid;
      EditKeepsLinks(m1, tasks, ring);
      ForkedProcs(m, m1, tasks, p, PidOf(forks), current);
      NoteFork(p);
    }

    /** The new structure, put into the run queue. */
    method QueueNew(p: Ptr)
      requires Queue() && p !in ring && p != current
      modifies this`tasks, this`nextPid, this`ring
      ensures Queue() && ring == [current, p] + old(ring)[1..]
      ensures tasks[current].aliveTicks == old(tasks[current].aliveTicks)
      ensures SameButLinks(old(tasks)[p := BLANK.(pid := old(nextPid))], tasks) && nextPid == (old(nextPid) + 1) % PIDS
    {
      hide Linked, Rested, Procs;
      ghost var m, q := tasks, ring;
      DoFork(p);
      NewKeepsLinks(m, q, p, tasks[p]);
      NewRests(m, current, p, tasks[p]);
      InsertNext(p);
    }

    /** The heap has handed out one more structure. */
    method NoteFork(p: Ptr)
      modifies this`live, this`forks
      ensures live == old(live) + {p} && forks == old(forks) + 1
    {
      live, forks := live + {p}, forks + 1;
    }

    // ---------- wait and exit ----------

    /** The loop over the child list: a zombie on it, or null. */
    method FindZombie() returns (child: Ptr)
      requires Valid()
      ensures child == if ZombieChild(Sys(), current) then tasks[current].children else NULL
    {
      hide Linked, PidsOk;
      ghost var head := tasks[current].children;
      assert Sys().procs[current].child == head && (head == NULL || head in tasks);
      child := tasks[current].children;
      while child != NULL
        invariant child == head || (child == NULL && head in tasks && tasks[head].state != Zombie)
        decreases if child == NULL then 0 else 1
      {
        if tasks[child].state == Zombie { break; }
        child := tasks[child].sibling;
      }
    }

    /**
     * One pass of `do_wait`: the zombie found is freed and its number returned with the status of
     * the waiting task itself, or the task sleeps and tries again when it runs next.
     */
    method DoWait() returns (r: WaitResult)
      requires Valid() && Legal(Sys(), Wait)
      modifies this`tasks, this`ring, this`current, this`live
      ensures r.Panicked? ==> Next(old(Sys()), Wait) == SameProcess
      ensures r.FreedTwice? ==> Next(old(Sys()), Wait) == DoubleFree
      ensures r.Freed? || r.Slept? ==> Valid() && Next(old(Sys()), Wait) == Ran(Sys())
      ensures r.Freed? || r.FreedTwice? <==> ZombieChild(old(Sys()), old(current))
      ensures r.Freed? ==> r.pid == old(Sys()).procs[old(tasks[current].children)].pid && r.status == 0
    {
      hide Linked, TasksOk, ParentsOk, PidsOk, Rested, Procs;
      ghost var s := Sys();
      WaitOk(s);
      WaitFacts(tasks, s);
      var child := FindZombie();
      if child == NULL {
        MarkState(current, Waiting);
        var ok := ScheduleSleep();
        return if ok then Slept else Panicked;
      }
      r := Freed(tasks[child].pid, tasks[current].exitStatus);
      if child !in live { return FreedTwice; }
      live := live - {child};
    }

    /** An assignment to a task's state. */
    method MarkState(t: Ptr, state: State)
      requires Queue() && t in tasks
      modifies this`tasks
      ensures Queue() && Sys() == SetState(old(Sys()), t, state)
      ensures tasks == old(tasks)[t := old(tasks)[t].(state := state)]
    {
      hide Linked;
      ghost var m := tasks;
      tasks := tasks[t := tasks[t].(state := state)];
      EditTask(m, ring, current, t, tasks[t]);
    }

    /** `do_exit` of the current task. */
    method DoExit(status: int) returns (ok: bool)
      requires Valid() && Legal(Sys(), Exit(status))
      modifies this`tasks, this`ring, this`current
      ensures ok ==> Valid() && Next(old(Sys()), Exit(status)) == Ran(Sys())
      ensures !ok ==> Next(old(Sys()), Exit(status)) == SameProcess
    {
      hide Linked, TasksOk, ParentsOk, PidsOk, Rested, Procs;
      ghost var s := Sys();
      ExitOk(s, status);
      ExitFacts(tasks, s, status);
      MarkState(current, Zombie);
      ghost var m := tasks;
      tasks := tasks[current := tasks[current].(exitStatus := status)];
      EditTask(m, ring, current, current, tasks[current]);
      assert Sys() == Exited(s, status);
      var parent := tasks[current].parent;
      if tasks[parent].state == Waiting {
        InsertNext(parent);
        MarkState(parent, Running);
      }
      assert Sys() == Woken(s, status);
      ok := ScheduleSleep();
    }

    // ---------- the terminal ----------

    /** The blocking part of `stdin_read`. */
    method StdinRead() returns (o: ReadResult)
      requires Valid()
      modifies this`tasks, this`ring, this`current, this`waitingTask
      ensures o == Busy ==> Next(old(Sys()), Read) == TtyBusy
      ensures o == Alone ==> Next(old(Sys()), Read) == SameProcess
      ensures o == Blocked ==> Valid() && Next(old(Sys()), Read) == Ran(Sys())
    {
      hide Linked, Inv, PidsOk, Procs, Rested;
      ghost var s := Sys();
      ReadOk(s);
      QueueFacts(s);
      if waitingTask != NULL { return Busy; }
      waitingTask := current;
      SamePids(s, Sys());
      var ok := ScheduleSleep();
      return if ok then Blocked else Alone;
    }

    /** The wake in `tty_send_key` when enter is pressed. */
    method SendEnter()
      requires Valid()
      modifies this`tasks, this`ring, this`waitingTask
      ensures Valid() && Next(old(Sys()), Enter) == Ran(Sys())
    {
      hide Linked, Inv, Procs, Rested;
      EnterOk(Sys());
      QueueFacts(Sys());
      if waitingTask != NULL {
        InsertNext(waitingTask);
        waitingTask := NULL;
      }
    }

    // ---------- runs ----------

    /** One kernel entry. */
    method Step(op: Op) returns (ok: bool)
      requires Valid() && Legal(Sys(), op)
      modifies this
      ensures if ok then Valid() && Next(old(Sys()), op) == Ran(Sys()) else !Next(old(Sys()), op).Ran?
    {
      hide *;
      match op
      case Tick => ok := MaybePreempt();
      case Fork(p) =>
        var _ := SchedFork(p);
        ok := true;
      case Wait =>
        var r := DoWait();
        ok := r.Freed? || r.Slept?;
      case Exit(status) => ok := DoExit(status);
      case Read =>
        var r := StdinRead();
        ok := r.Blocked?;
      case Enter =>
        SendEnter();
        ok := true;
    }

    /** Every run of the pointer structures is the run of the state machine, panics included. */
    method RunOps(ops: seq<Op>) returns (ok: bool)
      requires Valid() && LegalRun(Sys(), ops)
      modifies this
      ensures if ok then Valid() && Run(old(Sys()), ops) == Ran(Sys()) else !Run(old(Sys()), ops).Ran?
    {
      hide Linked, RingOk, TasksOk, ParentsOk, PidsOk, Rested, Procs, Legal, Next;
      var i := 0;
      ghost var s0 := Sys();
      while i < |ops|
        invariant i <= |ops| && Valid() && LegalRun(Sys(), ops[i..])
        invariant Run(Sys(), ops[i..]) == Run(s0, ops)
      {
        assert ops[i..][0] == ops[i] && ops[i..][1..] == ops[i + 1..];
        ok := Step(ops[i]);
        if !ok { return; }
        i := i + 1;
      }
      ok := true;
    }
  }
}
