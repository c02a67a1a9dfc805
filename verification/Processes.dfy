/**
 * The process state machine of the scheduler, wait, exit, fork and the terminal, with the run
 * queue as a sequence that starts at the current task (src/kernel/sched.c, exit.c, fork.c, tty.c).
 * Steps are atomic because interrupts are masked during system calls. What every run keeps.
 */
module Processes {

  /** Where a task structure lies; 0 is the null pointer. */
  type Ptr = nat

  const NULL: Ptr := 0
  const INIT_PID: nat := 1
  const FIRST_PID: nat := 1000
  const PIDS: nat := 0x1_0000_0000
  const PREEMPT_TICK_COUNT: nat := 10

  /** Process numbers repeat only after this many forks. */
  const FORK_LIMIT: nat := PIDS - FIRST_PID + INIT_PID

  datatype State = Running | Sleeping | Waiting | Zombie

  /** A task: `child` is the head of its child list. */
  datatype Proc = Proc(pid: nat, state: State, status: int, parent: Ptr, child: Ptr)

  /**
   * `ring` holds the runnable tasks in the order in which they will run, the current one first;
   * `ticks` counts the ticks of the current task. `live` are the tasks not yet freed; `procs` also
   * remembers freed ones, whose contents stay readable until the memory is used again. `blocked`
   * is the task that reads the terminal.
   */
  datatype Sys = Sys(
    ring: seq<Ptr>, ticks: nat, procs: map<Ptr, Proc>, live: set<Ptr>, blocked: Ptr, root: Ptr, forks: nat)

  /** A kernel entry: the timer, a system call of the current task, or the enter key. */
  datatype Op = Tick | Fork(spot: Ptr) | Wait | Exit(status: int) | Read | Enter

  /**
   * A run ends with a panic, for a switch to the same process or a second reader of the terminal,
   * or with a task structure freed that is free already.
   */
  datatype Outcome = Ran(sys: Sys) | SameProcess | TtyBusy | DoubleFree

  function PidOf(forks: nat): (pid: nat)
  {
    (FIRST_PID + forks) % PIDS
  }

  // ---------- the invariant ----------

  predicate Distinct(ring: seq<Ptr>)
  {
    forall i, j :: 0 <= i < j < |ring| ==> ring[i] != ring[j]
  }

  predicate Runnable(s: Sys, p: Ptr)
  {
    p in s.live && p in s.procs && s.procs[p].state == Running && p != s.blocked
  }

  /** The ring holds, once each, exactly the tasks that are not waiting, zombie or blocked. */
  ghost predicate RingOk(s: Sys)
  {
    && |s.ring| > 0 && Distinct(s.ring) && s.ticks <= PREEMPT_TICK_COUNT
    && Runnable(s, s.ring[0])
    && (forall p :: p in s.ring <==> Runnable(s, p))
  }

  predicate TasksOk(s: Sys)
  {
    && s.live <= s.procs.Keys && NULL !in s.procs
    && s.root in s.live && s.procs[s.root].parent == NULL && s.procs[s.root].state != Zombie
    && (s.blocked == NULL || (s.blocked in s.live && s.procs[s.blocked].state == Running))
    && (forall p :: p in s.procs ==> s.procs[p].state != Sleeping && (p !in s.live ==> s.procs[p].state == Zombie))
    && (forall p :: p in s.live ==> s.procs[p].child == NULL || s.procs[p].child in s.procs)
    && (forall p :: p in s.live && s.procs[p].state != Zombie ==> s.procs[p].status == 0)
  }

  /** An unexited task other than init has a live parent. */
  predicate ParentsOk(s: Sys)
    requires s.live <= s.procs.Keys
  {
    forall p :: p in s.live && p != s.root && s.procs[p].state != Zombie ==> s.procs[p].parent in s.live
  }

  predicate ZombieChild(s: Sys, p: Ptr)
    requires p in s.procs
  {
    s.procs[p].child in s.procs && s.procs[s.procs[p].child].state == Zombie
  }

  /** Live tasks have different process numbers. */
  predicate PidsOk(s: Sys)
    requires s.live <= s.procs.Keys
  {
    && s.forks <= FORK_LIMIT && s.root in s.live && s.procs[s.root].pid == INIT_PID
    && (forall p :: p in s.live && p != s.root ==> Issued(s.procs[p].pid, s.forks))
    && (forall p, q :: p in s.live && q in s.live && p != q ==> s.procs[p].pid != s.procs[q].pid)
  }

  /** One of the first `forks` process numbers handed out. */
  predicate Issued(pid: nat, forks: nat)
  {
    pid < PIDS && (pid - FIRST_PID) % PIDS < forks
  }

  ghost predicate Inv(s: Sys)
  {
    RingOk(s) && TasksOk(s) && ParentsOk(s) && PidsOk(s)
  }

  /** `create_init` and `start_init`. */
  function Start(init: Ptr): (s: Sys)
  {
    Sys([init], 0, map[init := Proc(INIT_PID, Running, 0, NULL, NULL)], {init}, NULL, init, 0)
  }

  lemma StartOk(init: Ptr)
    requires init != NULL
    ensures Inv(Start(init))
  {
    var s := Start(init);
    assert s.live == s.procs.Keys;
  }

  // ---------- steps ----------

  /** A task becomes the next to run. */
  function Insert(s: Sys, p: Ptr): (t: Sys)
    requires |s.ring| > 0
  {
    s.(ring := [s.ring[0], p] + s.ring[1..])
  }

  /** The current task leaves the ring; alone in it, it would be switched to itself. */
  function Sleep(s: Sys): (o: Outcome)
    requires |s.ring| > 0
  {
    if |s.ring| == 1 then SameProcess else Ran(s.(ring := s.ring[1..], ticks := 0))
  }

  function SetState(s: Sys, p: Ptr, state: State): (t: Sys)
    requires p in s.procs
  {
    s.(procs := s.procs[p := s.procs[p].(state := state)])
  }

  function TickStep(s: Sys): (t: Sys)
    requires |s.ring| > 0
  {
    if s.ticks < PREEMPT_TICK_COUNT then s.(ticks := s.ticks + 1)
    else s.(ring := s.ring[1..] + [s.ring[0]], ticks := 0)
  }

  function ForkStep(s: Sys, p: Ptr): (t: Sys)
    requires |s.ring| > 0 && s.ring[0] in s.procs
  {
    var me := s.ring[0];
    var procs := s.procs[p := Proc(PidOf(s.forks), Running, 0, me, NULL)];
    Insert(s, p).(procs := procs[me := s.procs[me].(child := p)], live := s.live + {p}, forks := s.forks + 1)
  }

  /**
   * One pass of wait: the zombie on the child list is freed, also when it has been freed before, or
   * the task sleeps until a child exits.
   */
  function WaitStep(s: Sys): (o: Outcome)
    requires |s.ring| > 0 && s.ring[0] in s.procs
  {
    var me := s.ring[0];
    var c := s.procs[me].child;
    if !ZombieChild(s, me) then Sleep(SetState(s, me, Waiting))
    else if c in s.live then Ran(s.(live := s.live - {c}))
    else DoubleFree
  }

  function Exited(s: Sys, status: int): (t: Sys)
    requires |s.ring| > 0 && s.ring[0] in s.procs
  {
    var me := s.ring[0];
    s.(procs := s.procs[me := s.procs[me].(state := Zombie, status := status)])
  }

  /** The exit of the current task up to its sleep: a waiting parent is put next in line. */
  function Woken(s: Sys, status: int): (t: Sys)
    requires |s.ring| > 0 && s.ring[0] in s.procs && s.procs[s.ring[0]].parent in s.procs
  {
    var parent := s.procs[s.ring[0]].parent;
    var t := Exited(s, status);
    if t.procs[parent].state == Waiting then SetState(Insert(t, parent), parent, Running) else t
  }

  function ExitStep(s: Sys, status: int): (o: Outcome)
    requires |s.ring| > 0 && s.ring[0] in s.procs && s.procs[s.ring[0]].parent in s.procs
  {
    Sleep(Woken(s, status))
  }

  function ReadStep(s: Sys): (o: Outcome)
    requires |s.ring| > 0
  {
    if s.blocked != NULL then TtyBusy else Sleep(s.(blocked := s.ring[0]))
  }

  function EnterStep(s: Sys): (t: Sys)
    requires |s.ring| > 0
  {
    if s.blocked == NULL then s else Insert(s, s.blocked).(blocked := NULL)
  }

  /**
   * What a run may do: a new task structure lies anywhere but on a live one, init does not exit, and
   * no task is freed before its children have exited.
   */
  ghost predicate Legal(s: Sys, op: Op)
    requires Inv(s)
  {
    match op
    case Fork(p) => p != NULL && p !in s.live && s.forks < FORK_LIMIT
    case Wait => ZombieChild(s, s.ring[0]) ==> Childless(s, s.procs[s.ring[0]].child)
    case Exit(_) => s.ring[0] != s.root
    case _ => true
  }

  predicate Childless(s: Sys, c: Ptr)
    requires s.live <= s.procs.Keys
  {
    forall q :: q in s.live && s.procs[q].state != Zombie ==> s.procs[q].parent != c
  }

  ghost function Next(s: Sys, op: Op): (o: Outcome)
    requires Inv(s) && Legal(s, op)
  {
    match op
    case Tick => Ran(TickStep(s))
    case Fork(p) => Ran(ForkStep(s, p))
    case Wait => WaitStep(s)
    case Exit(status) => ExitStep(s, status)
    case Read => ReadStep(s)
    case Enter => Ran(EnterStep(s))
  }

  // ---------- every step keeps the invariant ----------

  lemma PidFresh(forks: nat, pid: nat)
    requires forks < FORK_LIMIT
    ensures Issued(PidOf(forks), forks + 1) && PidOf(forks) != INIT_PID
    ensures Issued(pid, forks) ==> Issued(pid, forks + 1) && pid != PidOf(forks)
  {
  }

  /** The pid counter wraps, and the fork after the limit hands out the number of init. */
  lemma PidsRunOut()
    ensures PidOf(0) == 1000 && PidOf(0x1_0000_0000 - 999) == 1
    ensures forall i, j :: 0 <= i < j < 0x1_0000_0000 - 999 ==> PidOf(i) != PidOf(j)
  {
    forall i, j | 0 <= i < j < 0x1_0000_0000 - 999 ensures PidOf(i) != PidOf(j) {
      if FIRST_PID + j < PIDS { assert PidOf(i) < PidOf(j); }
    }
  }

  lemma TickOk(s: Sys)
    requires Inv(s)
    ensures Inv(TickStep(s))
  {
    var t := TickStep(s);
    forall p ensures p in t.ring <==> p in s.ring {
      if p in s.ring && s.ticks >= PREEMPT_TICK_COUNT {
        var i :| 0 <= i < |s.ring| && s.ring[i] == p;
        assert i > 0 ==> p == s.ring[1..][i - 1];
      }
    }
    assert t.ring[0] in t.ring;
  }

  lemma InRing(s: Sys, p: Ptr)
    requires |s.ring| > 0 && Distinct(s.ring)
    ensures p in s.ring[1..] <==> p in s.ring && p != s.ring[0]
    ensures Distinct(s.ring[1..])
  {
    assert s.ring == [s.ring[0]] + s.ring[1..];
  }

  lemma InsertOk(s: Sys, t: Sys, p: Ptr)
    requires RingOk(s) && t.ring == Insert(s, p).ring && p !in s.ring && t.ticks == s.ticks
    requires forall q :: Runnable(t, q) <==> Runnable(s, q) || q == p
    ensures RingOk(t)
  {
    forall q ensures q in t.ring <==> q in s.ring || q == p {
      InRing(s, q);
    }
  }

  lemma SleepOk(s: Sys, t: Sys)
    requires RingOk(s) && |s.ring| > 1 && t.ring == s.ring[1..] && t.ticks == 0
    requires forall q :: Runnable(t, q) <==> Runnable(s, q) && q != s.ring[0]
    ensures RingOk(t)
  {
    forall q ensures q in t.ring <==> q in s.ring && q != s.ring[0] {
      InRing(s, q);
    }
    assert t.ring[0] in t.ring;
  }

  lemma ForkRing(s: Sys, p: Ptr)
    requires Inv(s) && Legal(s, Fork(p))
    ensures RingOk(ForkStep(s, p)) && TasksOk(ForkStep(s, p))
  {
    hide ParentsOk, PidsOk;
    var t := ForkStep(s, p);
    assert p !in s.ring;
    InsertOk(s, t, p);
  }

  lemma ForkParents(s: Sys, p: Ptr)
    requires Inv(s) && Legal(s, Fork(p))
    ensures ParentsOk(ForkStep(s, p))
  {
    hide PidsOk;
    assert s.ring[0] in s.live && p != s.ring[0];
  }

  lemma ForkPids(s: Sys, p: Ptr)
    requires |s.ring| > 0 && s.ring[0] in s.live && s.live <= s.procs.Keys && PidsOk(s)
    requires p !in s.live && s.forks < FORK_LIMIT
    ensures PidsOk(ForkStep(s, p))
  {
    hide Issued, PidOf;
    var t := ForkStep(s, p);
    PidFresh(s.forks, 0);
    forall q | q in s.live
      ensures t.procs[q].pid == s.procs[q].pid != PidOf(s.forks)
      ensures q != s.root ==> Issued(t.procs[q].pid, t.forks)
    {
      PidFresh(s.forks, s.procs[q].pid);
    }
  }

  lemma ForkOk(s: Sys, p: Ptr)
    requires Inv(s) && Legal(s, Fork(p))
    ensures Inv(ForkStep(s, p))
  {
    hide ParentsOk, PidsOk;
    ForkRing(s, p);
    ForkParents(s, p);
    ForkPids(s, p);
  }

  /** The freeing pass. */
  lemma ReapOk(s: Sys)
    requires Inv(s) && Legal(s, Wait) && ZombieChild(s, s.ring[0]) && WaitStep(s).Ran?
    ensures Inv(WaitStep(s).sys)
  {
    var me := s.ring[0];
    var c := s.procs[me].child;
    var t := WaitStep(s).sys;
    assert t == s.(live := s.live - {c});
    forall q ensures Runnable(t, q) <==> Runnable(s, q) {
    }
  }

  /** The tree and the process numbers are those of before; zombies stay zombies. */
  ghost predicate SameTree(s: Sys, t: Sys)
  {
    && t.live == s.live && t.root == s.root && t.forks == s.forks && t.procs.Keys == s.procs.Keys
    && (forall q :: q in s.procs ==>
          && t.procs[q].pid == s.procs[q].pid && t.procs[q].parent == s.procs[q].parent
          && t.procs[q].child == s.procs[q].child && (s.procs[q].state == Zombie ==> t.procs[q].state == Zombie))
  }

  lemma SameTreeOk(s: Sys, t: Sys)
    requires SameTree(s, t) && s.live <= s.procs.Keys && ParentsOk(s) && PidsOk(s)
    ensures ParentsOk(t) && PidsOk(t)
  {
  }

  lemma WaitOk(s: Sys)
    requires Inv(s) && Legal(s, Wait)
    ensures WaitStep(s).Ran? ==> Inv(WaitStep(s).sys)
  {
    hide ParentsOk, PidsOk, Distinct, SameTree;
    var o := WaitStep(s);
    if o.Ran? {
      if ZombieChild(s, s.ring[0]) {
        ReapOk(s);
      } else {
        SleepOk(s, o.sys);
        WaitingTasks(s);
        SameButRing(s, SetState(s, s.ring[0], Waiting), o.sys);
        SameTreeOk(s, o.sys);
      }
    }
  }

  lemma WaitingTasks(s: Sys)
    requires TasksOk(s) && |s.ring| > 0 && s.ring[0] in s.live && s.ring[0] != s.blocked
    requires s.procs[s.ring[0]].state != Zombie
    ensures SameTree(s, SetState(s, s.ring[0], Waiting)) && TasksOk(SetState(s, s.ring[0], Waiting))
  {
  }

  lemma ExitRing(s: Sys, status: int)
    requires Inv(s) && Legal(s, Exit(status))
    ensures ExitStep(s, status).Ran? ==> RingOk(ExitStep(s, status).sys)
  {
    hide PidsOk;
    var o := ExitStep(s, status);
    var me := s.ring[0];
    var parent := s.procs[me].parent;
    assert parent in s.live;
    if o.Ran? {
      if s.procs[parent].state == Waiting {
        var s1 := SetState(Insert(s, parent), parent, Running);
        assert parent !in s.ring;
        InsertOk(s, s1, parent);
        SleepOk(s1, o.sys);
      } else {
        SleepOk(s, o.sys);
      }
    }
  }

  lemma ExitTree(s: Sys, status: int)
    requires Inv(s) && Legal(s, Exit(status)) && ExitStep(s, status).Ran?
    ensures SameTree(s, ExitStep(s, status).sys) && TasksOk(ExitStep(s, status).sys)
  {
    hide PidsOk, Distinct, SameTree;
    assert s.procs[s.ring[0]].parent in s.live;
    WokenTasks(s, status);
    SameButRing(s, Woken(s, status), ExitStep(s, status).sys);
  }

  lemma WokenTasks(s: Sys, status: int)
    requires TasksOk(s) && |s.ring| > 0 && s.ring[0] in s.live && s.ring[0] != s.blocked && s.ring[0] != s.root
    requires s.procs[s.ring[0]].parent in s.live
    ensures SameTree(s, Woken(s, status)) && TasksOk(Woken(s, status))
  {
  }

  lemma SameButRing(s: Sys, t: Sys, u: Sys)
    requires u == t.(ring := u.ring, ticks := u.ticks)
    ensures SameTree(s, t) ==> SameTree(s, u)
    ensures TasksOk(t) ==> TasksOk(u)
  {
  }

  lemma ExitOk(s: Sys, status: int)
    requires Inv(s) && Legal(s, Exit(status))
    ensures ExitStep(s, status).Ran? ==> Inv(ExitStep(s, status).sys)
  {
    hide PidsOk;
    ExitRing(s, status);
    if ExitStep(s, status).Ran? {
      ExitTree(s, status);
      SameTreeOk(s, ExitStep(s, status).sys);
    }
  }

  lemma ReadOk(s: Sys)
    requires Inv(s)
    ensures ReadStep(s).Ran? ==> Inv(ReadStep(s).sys)
  {
    var o := ReadStep(s);
    if o.Ran? { SleepOk(s, o.sys); }
  }

  lemma EnterOk(s: Sys)
    requires Inv(s)
    ensures Inv(EnterStep(s))
  {
    if s.blocked != NULL { InsertOk(s, EnterStep(s), s.blocked); }
  }

  lemma NextOk(s: Sys, op: Op)
    requires Inv(s) && Legal(s, op)
    ensures Next(s, op).Ran? ==> Inv(Next(s, op).sys)
  {
    hide Inv;
    match op
    case Tick => TickOk(s);
    case Fork(p) => ForkOk(s, p);
    case Wait => WaitOk(s);
    case Exit(status) => ExitOk(s, status);
    case Read => ReadOk(s);
    case Enter => EnterOk(s);
  }
}
