/**
 * Wait and exit over whole runs (src/kernel/exit.c, sched.c): when wakeups can be lost, when a task
 * is freed twice, and which tasks can be freed at all.
 */
module Wakeups {
  import opened Processes
  import opened Fairness

  // ---------- lists of one child ----------

  /** The head of an unexited task's child list is its own live child, or has been freed. */
  ghost predicate HeadsOk(s: Sys)
    requires s.live <= s.procs.Keys
  {
    forall p :: p in s.live && s.procs[p].state != Zombie && s.procs[p].child in s.live ==>
      s.procs[s.procs[p].child].parent == p
  }

  /** A task that waits has no zombie on its child list. */
  ghost predicate WaitersOk(s: Sys)
    requires s.live <= s.procs.Keys
  {
    forall p :: p in s.live && s.procs[p].state == Waiting ==> !ZombieChild(s, p)
  }

  ghost predicate Tidy(s: Sys)
  {
    Inv(s) && HeadsOk(s) && WaitersOk(s)
  }

  /** No other unexited task still has address p at the head of its child list. */
  ghost predicate Spare(s: Sys, p: Ptr)
    requires Inv(s)
  {
    forall q :: q in s.live && q != s.ring[0] && s.procs[q].state != Zombie ==> s.procs[q].child != p
  }

  /** A step that does not fork onto the head of another task's list. */
  ghost predicate TidyStep(s: Sys, op: Op)
    requires Inv(s)
  {
    op.Fork? ==> Spare(s, op.spot)
  }

  lemma ForkTidy(s: Sys, p: Ptr)
    requires Tidy(s) && Legal(s, Fork(p)) && Spare(s, p)
    ensures Tidy(ForkStep(s, p))
  {
    hide ParentsOk, PidsOk;
    ForkOk(s, p);
    var me := s.ring[0];
    var t := ForkStep(s, p);
    assert me in s.live && p != me;
    forall q | q in s.live ensures t.procs[q] == if q == me then s.procs[q].(child := p) else s.procs[q] {
    }
  }

  lemma WaitTidy(s: Sys)
    requires Tidy(s) && Legal(s, Wait) && WaitStep(s).Ran?
    ensures Tidy(WaitStep(s).sys)
  {
    hide ParentsOk, PidsOk;
    WaitOk(s);
  }

  lemma SameHeads(s: Sys, t: Sys)
    requires SameTree(s, t) && s.live <= s.procs.Keys && HeadsOk(s)
    ensures HeadsOk(t)
  {
  }

  /** A waiting owner of the exiting task is its parent, which is woken. */
  lemma ExitWaiters(s: Sys, status: int, q: Ptr)
    requires Tidy(s) && Legal(s, Exit(status)) && ExitStep(s, status).Ran? && q in s.live
    requires ExitStep(s, status).sys.procs[q].state == Waiting
    ensures !ZombieChild(ExitStep(s, status).sys, q)
  {
    hide PidsOk, Distinct;
    var me := s.ring[0];
    var parent := s.procs[me].parent;
    assert parent in s.live;
    assert q != parent && s.procs[q].state == Waiting && !ZombieChild(s, q);
    assert s.procs[q].child != me;
  }

  lemma ExitTidy(s: Sys, status: int)
    requires Tidy(s) && Legal(s, Exit(status)) && ExitStep(s, status).Ran?
    ensures Tidy(ExitStep(s, status).sys)
  {
    hide PidsOk, HeadsOk, ZombieChild, ExitStep, Distinct;
    ExitOk(s, status);
    ExitTree(s, status);
    var t := ExitStep(s, status).sys;
    SameHeads(s, t);
    forall q | q in t.live && t.procs[q].state == Waiting ensures !ZombieChild(t, q) {
      ExitWaiters(s, status, q);
    }
  }

  lemma NextTidy(s: Sys, op: Op)
    requires Tidy(s) && Legal(s, op) && TidyStep(s, op) && Next(s, op).Ran?
    ensures Tidy(Next(s, op).sys)
  {
    match op
    case Fork(p) => ForkTidy(s, p);
    case Wait => WaitTidy(s);
    case Exit(status) => ExitTidy(s, status);
    case Tick => NextOk(s, op); OtherTidy(s, Next(s, op).sys);
    case Read => NextOk(s, op); OtherTidy(s, Next(s, op).sys);
    case Enter => NextOk(s, op); OtherTidy(s, Next(s, op).sys);
  }

  lemma OtherTidy(s: Sys, t: Sys)
    requires Tidy(s) && Inv(t) && t.procs == s.procs && t.live == s.live
    ensures Tidy(t)
  {
    hide Inv, RingOk, PidsOk;
  }

  ghost predicate TidyRun(s: Sys, ops: seq<Op>)
    requires Inv(s) && LegalRun(s, ops)
    decreases |ops|
  {
    ops == [] ||
    ( && TidyStep(s, ops[0])
      && (NextOk(s, ops[0]); Next(s, ops[0]).Ran? ==> TidyRun(Next(s, ops[0]).sys, ops[1..])))
  }

  /** No wakeup is lost in runs whose forks stay off the heads of other tasks' lists. */
  lemma {:induction false} NoLostWakeup(s: Sys, ops: seq<Op>)
    requires Tidy(s) && LegalRun(s, ops) && TidyRun(s, ops)
    ensures Run(s, ops).Ran? ==> Tidy(Run(s, ops).sys)
    decreases |ops|
  {
    hide Inv, HeadsOk, WaitersOk, Legal, Next, TidyStep;
    if ops != [] && Next(s, ops[0]).Ran? {
      NextTidy(s, ops[0]);
      NoLostWakeup(Next(s, ops[0]).sys, ops[1..]);
    }
  }

  lemma StartTidy(init: Ptr)
    requires init != NULL
    ensures Tidy(Start(init))
  {
    StartOk(init);
  }

  // ---------- bringing a task to the front ----------

  /** Ticks alone bring a runnable task to the front, and change nothing but the order of the ring. */
  lemma Forward(s: Sys, p: Ptr) returns (ops: seq<Op>, t: Sys)
    requires Inv(s) && p in s.ring
    ensures Reaches(s, ops, t) && forall op :: op in ops ==> op.Tick?
    ensures t == s.(ring := t.ring, ticks := t.ticks) && |t.ring| == |s.ring| && t.ring[0] == p
    ensures forall q :: q in t.ring <==> q in s.ring
  {
    hide Inv;
    var d :| 0 <= d < |s.ring| && s.ring[d] == p;
    if d == 0 {
      ops, t := [], s;
    } else {
      RingFacts(s);
      TurnOf(s, d);
      ops, t := Repeat(SLICE * d - s.ticks), s.(ring := s.ring[d..] + s.ring[..d], ticks := 0);
      AllTicks(SLICE * d - s.ticks);
      assert s.ring == s.ring[..d] + s.ring[d..];
      assert Inv(Run(s, ops).sys);
    }
  }

  lemma {:induction false} AllTicks(n: nat)
    ensures forall op :: op in Repeat(n) ==> op == Tick
  {
    if n > 0 { AllTicks(n - 1); }
  }

  lemma {:induction false} NoForkTidy(s: Sys, ops: seq<Op>)
    requires Inv(s) && LegalRun(s, ops) && forall op :: op in ops ==> !op.Fork?
    ensures TidyRun(s, ops)
    decreases |ops|
  {
    hide Inv, Legal, Next;
    if ops != [] {
      NextOk(s, ops[0]);
      if Next(s, ops[0]).Ran? { NoForkTidy(Next(s, ops[0]).sys, ops[1..]); }
    }
  }

  /** A legal run leads from s to t. */
  ghost predicate Reaches(s: Sys, ops: seq<Op>, t: Sys)
  {
    Inv(s) && LegalRun(s, ops) && Run(s, ops) == Ran(t) && Inv(t)
  }

  /** A run, a step more, and what that leaves. */
  lemma RunAndStep(s: Sys, ops: seq<Op>, t: Sys, op: Op) returns (more: seq<Op>, u: Sys)
    requires Reaches(s, ops, t) && Legal(t, op) && Next(t, op).Ran?
    ensures more == ops + [op] && u == Next(t, op).sys && Reaches(s, more, u)
    ensures InitAwake(s, ops) && (t.ring[0] == t.root ==> !Sleeps(t, op)) ==> InitAwake(s, more)
  {
    hide Inv, Legal, Next, Sleeps;
    more, u := ops + [op], Next(t, op).sys;
    StepThen(t, op, []);
    assert [op] + [] == [op];
    RunThen(s, ops, [op]);
    RingFacts(t);
    if InitAwake(s, ops) && (t.ring[0] == t.root ==> !Sleeps(t, op)) {
      assert [op][1..] == [];
      NextOk(t, op);
      AwakeThen(s, ops, [op]);
    }
  }

  /** Init stays awake through one run after another. */
  lemma {:induction false} AwakeThen(s: Sys, ops: seq<Op>, more: seq<Op>)
    requires Inv(s) && LegalRun(s, ops) && Run(s, ops).Ran? && LegalRun(Run(s, ops).sys, more)
    requires LegalRun(s, ops + more) && InitAwake(s, ops) && InitAwake(Run(s, ops).sys, more)
    ensures InitAwake(s, ops + more)
    decreases |ops|
  {
    hide Inv, Legal, Next, Sleeps;
    if ops == [] {
      assert ops + more == more;
    } else {
      NextOk(s, ops[0]);
      assert (ops + more)[1..] == ops[1..] + more;
      AwakeThen(Next(s, ops[0]).sys, ops[1..], more);
    }
  }

  lemma {:induction false} TicksAwake(s: Sys, ops: seq<Op>)
    requires Inv(s) && LegalRun(s, ops) && forall op :: op in ops ==> op == Tick
    ensures InitAwake(s, ops)
    decreases |ops|
  {
    hide Inv, Legal, Next;
    if ops != [] {
      NextOk(s, ops[0]);
      assert ops[0] in ops && forall op :: op in ops[1..] ==> op in ops;
      if Next(s, ops[0]).Ran? { TicksAwake(Next(s, ops[0]).sys, ops[1..]); }
    }
  }

  lemma RunForward(s: Sys, ops: seq<Op>, t: Sys, p: Ptr) returns (more: seq<Op>, u: Sys)
    requires Reaches(s, ops, t) && p in t.ring
    ensures Reaches(s, more, u)
    ensures forall op :: op in more ==> op in ops || op.Tick?
    ensures u == t.(ring := u.ring, ticks := u.ticks) && |u.ring| == |t.ring| && u.ring[0] == p
    ensures forall q :: q in u.ring <==> q in t.ring
  {
    hide Inv;
    var ticks;
    ticks, u := Forward(t, p);
    RunThen(s, ops, ticks);
    more := ops + ticks;
  }

  // ---------- lost wakeups ----------

  /** Some run loses a wakeup: a task waits with a zombie at the head of its list. */
  ghost predicate LosesWakeup(s: Sys)
    requires Inv(s)
  {
    exists ops :: LegalRun(s, ops) && TidyRun(s, ops) && Run(s, ops).Ran? && !WaitersOk(Run(s, ops).sys)
  }

  lemma WaitSleeps(s: Sys, p: Ptr)
    requires Inv(s) && !ZombieChild(s, s.ring[0]) && p in s.ring && p != s.ring[0]
    ensures Legal(s, Wait) && Next(s, Wait).Ran?
    ensures var t := Next(s, Wait).sys; var q := s.ring[0];
      && t.live == s.live && t.root == s.root && t.procs == s.procs[q := s.procs[q].(state := Waiting)]
      && forall r :: r in s.ring && r != q ==> r in t.ring
  {
    hide ParentsOk, PidsOk, TasksOk;
    forall r ensures r in s.ring[1..] <==> r in s.ring && r != s.ring[0] { InRing(s, r); }
  }

  lemma EnterPuts(s: Sys)
    requires Inv(s) && s.blocked != NULL
    ensures Legal(s, Enter) && Next(s, Enter).Ran?
    ensures var t := Next(s, Enter).sys;
      && t.live == s.live && t.root == s.root && t.procs == s.procs && s.blocked in t.ring
      && forall r :: r in s.ring ==> r in t.ring
  {
    hide ParentsOk, PidsOk, TasksOk;
    forall r ensures r in s.ring[1..] <==> r in s.ring && r != s.ring[0] { InRing(s, r); }
  }

  /** The exit of a task whose parent is runnable. */
  lemma ExitLeaves(s: Sys, me: Ptr)
    requires Inv(s) && s.ring[0] != s.root && s.procs[s.ring[0]].parent == me && me in s.ring && me != s.ring[0]
    ensures Legal(s, Exit(0)) && Next(s, Exit(0)).Ran?
    ensures var t := Next(s, Exit(0)).sys; var p := s.ring[0];
      t.live == s.live && t.procs == s.procs[p := s.procs[p].(state := Zombie, status := 0)]
  {
    hide PidsOk;
    assert Runnable(s, me);
  }

  /**
   * After a fork onto the head of the list of q, an unexited task other than the parent: q waits and
   * sees the new task alive, which then exits and wakes only its own parent.
   */
  lemma LosingRun(s: Sys, p: Ptr, q: Ptr)
    requires Tidy(s) && Legal(s, Fork(p)) && Inv(ForkStep(s, p))
    requires q in s.live && q != s.ring[0] && s.procs[q].state != Zombie && s.procs[q].child == p
    ensures LosesWakeup(ForkStep(s, p))
  {
    hide PidsOk, ParentsOk, HeadsOk, WaitersOk, Next, LegalRun, Run, TidyRun, ForkStep;
    ForkedFacts(s, p, q);
    LosingTail(ForkStep(s, p), p, q, s.ring[0]);
  }

  lemma LosingTail(s: Sys, p: Ptr, q: Ptr, me: Ptr)
    requires Inv(s) && p in s.ring && me in s.ring && me != p && q != p && q != me && s.procs[p].state == Running
    requires q in s.live && s.procs[q].state == Running && s.procs[q].child == p
    requires s.procs[p].parent == me && p != s.root
    ensures LosesWakeup(s)
  {
    hide Inv, HeadsOk, WaitersOk, Legal, Next, LegalRun, Run, TidyRun;
    var ops, t := WaitOfOther(s, p, q, me);
    ops, t := RunForward(s, ops, t, p);
    ExitLeaves(t, me);
    ops, t := RunAndStep(s, ops, t, Exit(0));
    NoForkTidy(s, ops);
    Witness(t, q);
  }

  lemma Witness(t: Sys, q: Ptr)
    requires Inv(t) && q in t.live && t.procs[q].state == Waiting && ZombieChild(t, q)
    ensures !WaitersOk(t)
  {
  }

  lemma ForkedFacts(s: Sys, p: Ptr, q: Ptr)
    requires Tidy(s) && Legal(s, Fork(p)) && q in s.live && q != s.ring[0] && s.procs[q].state != Zombie
    requires s.procs[q].child == p
    ensures var t := ForkStep(s, p); var me := s.ring[0];
      && Inv(t) && p in t.ring && me in t.ring && me != p && q != p && t.procs[p].parent == me && p != t.root
      && q in t.live && t.procs[q] == s.procs[q] && s.procs[q].state == Running && t.procs[p].state == Running
      && t.live <= t.procs.Keys
  {
    hide PidsOk, HeadsOk, ParentsOk;
    ForkOk(s, p);
    assert ZombieChild(s, q);
  }

  lemma NoSteps(s: Sys)
    requires Inv(s)
    ensures Reaches(s, [], s) && InitAwake(s, [])
  {
  }

  lemma RingOrBlocked(s: Sys, q: Ptr)
    requires Inv(s) && q in s.live && s.procs[q].state == Running
    ensures q in s.ring || (q == s.blocked && s.blocked != NULL)
  {
  }

  /** The other task q comes to the front and waits, leaving p and the parent runnable. */
  lemma WaitOfOther(s: Sys, p: Ptr, q: Ptr, me: Ptr) returns (ops: seq<Op>, t: Sys)
    requires Inv(s) && p in s.ring && me in s.ring && me != p && q != p && q != me && s.procs[p].state == Running
    requires q in s.live && s.procs[q].state == Running && s.procs[q].child == p
    ensures Reaches(s, ops, t) && forall op :: op in ops ==> !op.Fork?
    ensures p in t.ring && me in t.ring && t.live == s.live && t.root == s.root
    ensures t.procs == s.procs[q := s.procs[q].(state := Waiting)]
  {
    hide Inv, Legal, Next, LegalRun, Run;
    ops, t := [], s;
    NoSteps(s);
    RingOrBlocked(s, q);
    if q !in s.ring {
      EnterPuts(s);
      ops, t := RunAndStep(s, ops, t, Enter);
    }
    ops, t := RunForward(s, ops, t, q);
    WaitSleeps(t, p);
    ops, t := RunAndStep(s, ops, t, Wait);
  }

  /**
   * Exactly when a fork makes a lost wakeup possible: some run from there loses one if and only if
   * the address of the new structure heads the child list of another unexited task.
   */
  lemma LostWakeupIff(s: Sys, p: Ptr)
    requires Tidy(s) && Legal(s, Fork(p))
    ensures Inv(ForkStep(s, p)) && (LosesWakeup(ForkStep(s, p)) <==> !Spare(s, p))
  {
    ForkOk(s, p);
    hide Inv, HeadsOk, WaitersOk, Legal;
    var t := ForkStep(s, p);
    if Spare(s, p) {
      ForkTidy(s, p);
      forall ops | LegalRun(t, ops) && TidyRun(t, ops) && Run(t, ops).Ran?
        ensures WaitersOk(Run(t, ops).sys)
      {
        NoLostWakeup(t, ops);
      }
    } else {
      var q :| q in s.live && q != s.ring[0] && s.procs[q].state != Zombie && s.procs[q].child == p;
      LosingRun(s, p, q);
    }
  }

  // ---------- freeing twice ----------

  /**
   * Whether task p has freed a child since its last fork, after one more step; a task starts without
   * a child.
   */
  ghost function Spent(s: Sys, op: Op, p: Ptr, spent: bool): (r: bool)
    requires Inv(s)
  {
    match op
    case Fork(spot) => if p == spot || p == s.ring[0] then false else spent
    case Wait => if p == s.ring[0] then spent || ZombieChild(s, p) else spent
    case _ => spent
  }

  /** The same over a run. */
  ghost function SpentAfter(s: Sys, ops: seq<Op>, p: Ptr, spent: bool): (r: bool)
    requires Inv(s) && LegalRun(s, ops) && Run(s, ops).Ran?
    decreases |ops|
  {
    if ops == [] then spent
    else
      NextOk(s, ops[0]);
      SpentAfter(Next(s, ops[0]).sys, ops[1..], p, Spent(s, ops[0], p, spent))
  }

  /** The history of an unexited task's own calls says whether the head of its list has been freed. */
  ghost predicate Tells(s: Sys, p: Ptr, spent: bool)
    requires Inv(s)
  {
    p in s.live && s.procs[p].state != Zombie ==> (spent <==> HeadFreed(s, p))
  }

  lemma SpentStep(s: Sys, op: Op, p: Ptr, spent: bool)
    requires Tidy(s) && Legal(s, op) && TidyStep(s, op) && Next(s, op).Ran? && Tells(s, p, spent)
    ensures Inv(Next(s, op).sys) && Tells(Next(s, op).sys, p, Spent(s, op, p, spent))
  {
    hide PidsOk, ParentsOk, Distinct, WaitersOk;
    NextOk(s, op);
    assert s.ring[0] in s.live;
    if !op.Fork? { HeadsStay(s, op); }
  }

  lemma {:induction false} SpentTells(s: Sys, ops: seq<Op>, p: Ptr, spent: bool)
    requires Tidy(s) && LegalRun(s, ops) && TidyRun(s, ops) && Run(s, ops).Ran? && Tells(s, p, spent)
    ensures Tells(Run(s, ops).sys, p, SpentAfter(s, ops, p, spent))
    decreases |ops|
  {
    hide Inv, HeadsOk, WaitersOk, Legal, Next, TidyStep, Tells, Spent;
    if ops != [] {
      SpentStep(s, ops[0], p, spent);
      NextTidy(s, ops[0]);
      SpentTells(Next(s, ops[0]).sys, ops[1..], p, Spent(s, ops[0], p, spent));
    }
  }

  /**
   * Exactly when a wait frees a task a second time, in every run from boot whose forks stay off the
   * heads of other tasks' lists: when the waiting task has freed a child since its last fork.
   */
  lemma DoubleFreeIff(init: Ptr, ops: seq<Op>)
    requires init != NULL && Inv(Start(init))
    requires LegalRun(Start(init), ops) && TidyRun(Start(init), ops) && Run(Start(init), ops).Ran?
    requires Legal(Run(Start(init), ops).sys, Wait)
    ensures var s := Run(Start(init), ops).sys;
      Next(s, Wait) == DoubleFree <==> SpentAfter(Start(init), ops, s.ring[0], false)
  {
    var s0 := Start(init);
    StartTidy(init);
    var s := Run(s0, ops).sys;
    var p := s.ring[0];
    assert Tells(s0, p, false);
    SpentTells(s0, ops, p, false);
    SameProcessIff(s, Wait);
  }

  function Rotated(s: Sys, d: nat): (t: Sys)
    requires d <= |s.ring|
  {
    s.(ring := s.ring[d..] + s.ring[..d])
  }

  /** The ticks that bring the task d places ahead to the front, at the start of a slice. */
  lemma Turn(s: Sys, ops: seq<Op>, t: Sys, d: nat) returns (more: seq<Op>, u: Sys)
    requires 0 < d < |t.ring| && t.ticks == 0 && Reaches(s, ops, t)
    ensures u == Rotated(t, d) && more == ops + Repeat(SLICE * d) && Reaches(s, more, u)
    ensures InitAwake(s, ops) ==> InitAwake(s, more)
  {
    hide Inv, Repeat;
    TurnOf(t, d);
    RunThen(s, ops, Repeat(SLICE * d));
    AllTicks(SLICE * d);
    TicksAwake(t, Repeat(SLICE * d));
    if InitAwake(s, ops) { AwakeThen(s, ops, Repeat(SLICE * d)); }
    more, u := ops + Repeat(SLICE * d), Rotated(t, d);
    assert Inv(Run(s, more).sys);
  }

  /** A run, and a last step that may end it. */
  lemma LastStep(s: Sys, ops: seq<Op>, t: Sys, op: Op)
    requires Reaches(s, ops, t) && Legal(t, op)
    ensures Inv(s) && LegalRun(s, ops + [op]) && Run(s, ops + [op]) == Next(t, op)
  {
    hide Inv, Legal, Next;
    NextOk(t, op);
    assert [op][1..] == [];
    RunThen(s, ops, [op]);
  }

  function Made(pid: nat, state: State, parent: Ptr, child: Ptr): (p: Proc)
  {
    Proc(pid, state, 0, parent, child)
  }

  /** Init forks, the child exits, and init waits twice. */
  lemma FreesTwice()
    ensures var ops := [Fork(2)] + Repeat(SLICE) + [Exit(0)] + [Wait] + [Wait];
      Inv(Start(1)) && LegalRun(Start(1), ops) && Run(Start(1), ops) == DoubleFree
  {
    hide Inv, LegalRun, Run, Repeat, InitAwake;
    var s := Start(1);
    StartOk(1);
    NoSteps(s);
    var m := map[1 := Made(1, Running, 0, 2), 2 := Made(1000, Running, 1, 0)];
    var n := map[1 := Made(1, Running, 0, 2), 2 := Made(1000, Zombie, 1, 0)];
    assert Next(s, Fork(2)) == Ran(Sys([1, 2], 0, m, {1, 2}, 0, 1, 1));
    var ops, t := RunAndStep(s, [], s, Fork(2));
    assert [] + [Fork(2)] == [Fork(2)];
    ops, t := Turn(s, ops, t, 1);
    assert t == Sys([2, 1], 0, m, {1, 2}, 0, 1, 1);
    assert Next(t, Exit(0)) == Ran(Sys([1], 0, n, {1, 2}, 0, 1, 1));
    ops, t := RunAndStep(s, ops, t, Exit(0));
    assert Next(t, Wait) == Ran(Sys([1], 0, n, {1}, 0, 1, 1));
    ops, t := RunAndStep(s, ops, t, Wait);
    assert Next(t, Wait) == DoubleFree;
    LastStep(s, ops, t, Wait);
  }

  /** Init forks tasks 2 and 3, and task 2 forks a child at address 4. */
  lemma ThreeForks() returns (ops: seq<Op>, t: Sys)
    ensures ops == [Fork(2)] + [Fork(3)] + Repeat(SLICE * 2) + [Fork(4)] && Reaches(Start(1), ops, t)
    ensures InitAwake(Start(1), ops)
    ensures t == Sys([2, 4, 1, 3], 0,
      map[1 := Made(1, Running, 0, 3), 2 := Made(1000, Running, 1, 4), 3 := Made(1001, Running, 1, 0),
          4 := Made(1002, Running, 2, 0)], {1, 2, 3, 4}, 0, 1, 3)
  {
    hide Inv, LegalRun, Run, Repeat, Reaches, InitAwake;
    var s := Start(1);
    StartOk(1);
    NoSteps(s);
    ReachesInv(s, [], s);
    ops, t := RunAndStep(s, [], s, Fork(2));
    assert [] + [Fork(2)] == [Fork(2)];
    ReachesInv(s, ops, t);
    ops, t := RunAndStep(s, ops, t, Fork(3));
    assert t == Sys([1, 3, 2], 0, map[1 := Made(1, Running, 0, 3), 2 := Made(1000, Running, 1, 0),
      3 := Made(1001, Running, 1, 0)], {1, 2, 3}, 0, 1, 2);
    ops, t := Turn(s, ops, t, 2);
    assert t.ring == [2, 1, 3];
    ReachesInv(s, ops, t);
    ops, t := RunAndStep(s, ops, t, Fork(4));
  }

  lemma ReachesInv(s: Sys, ops: seq<Op>, t: Sys)
    requires Reaches(s, ops, t)
    ensures Inv(s) && Inv(t) && LegalRun(s, ops)
  {
  }

  /** Task 2 waits, is woken and frees its child. */
  lemma FirstChild() returns (ops: seq<Op>, t: Sys)
    ensures ops == [Fork(2)] + [Fork(3)] + Repeat(SLICE * 2) + [Fork(4)] + [Wait] + [Exit(0)] + [Wait]
    ensures Reaches(Start(1), ops, t) && InitAwake(Start(1), ops)
    ensures t == Sys([2, 1, 3], 0,
      map[1 := Made(1, Running, 0, 3), 2 := Made(1000, Running, 1, 4), 3 := Made(1001, Running, 1, 0),
          4 := Made(1002, Zombie, 2, 0)], {1, 2, 3}, 0, 1, 3)
  {
    hide Inv, LegalRun, Run, Repeat, Reaches, InitAwake;
    var s := Start(1);
    ops, t := ThreeForks();
    ReachesInv(s, ops, t);
    ops, t := RunAndStep(s, ops, t, Wait);
    assert t == Sys([4, 1, 3], 0, map[1 := Made(1, Running, 0, 3), 2 := Made(1000, Waiting, 1, 4),
      3 := Made(1001, Running, 1, 0), 4 := Made(1002, Running, 2, 0)], {1, 2, 3, 4}, 0, 1, 3);
    ReachesInv(s, ops, t);
    ops, t := RunAndStep(s, ops, t, Exit(0));
    ReachesInv(s, ops, t);
    ops, t := RunAndStep(s, ops, t, Wait);
  }

  /**
   * A lost wakeup: task 3 then forks at address 4, which task 2 still has as its child. Task 2 waits,
   * and the exit of the new task wakes only task 3.
   */
  lemma WakeupLost() returns (ops: seq<Op>, t: Sys)
    ensures ops == [Fork(2)] + [Fork(3)] + Repeat(SLICE * 2) + [Fork(4)] + [Wait] + [Exit(0)] + [Wait] +
      Repeat(SLICE * 2) + [Fork(4)] + Repeat(SLICE * 2) + [Wait] + Repeat(SLICE * 2) + [Exit(0)]
    ensures Reaches(Start(1), ops, t) && InitAwake(Start(1), ops)
    ensures 2 in t.live && t.procs[2].state == Waiting && ZombieChild(t, 2)
    ensures t.ring == [1, 3]
  {
    hide Inv, LegalRun, Run, Repeat, InitAwake;
    var s := Start(1);
    ops, t := FirstChild();
    ops, t := Turn(s, ops, t, 2);
    assert t.ring == [3, 2, 1];
    ops, t := RunAndStep(s, ops, t, Fork(4));
    assert t == Sys([3, 4, 2, 1], 0, map[1 := Made(1, Running, 0, 3), 2 := Made(1000, Running, 1, 4),
      3 := Made(1001, Running, 1, 4), 4 := Made(1003, Running, 3, 0)], {1, 2, 3, 4}, 0, 1, 4);
    ops, t := Turn(s, ops, t, 2);
    assert t.ring == [2, 1, 3, 4];
    ops, t := RunAndStep(s, ops, t, Wait);
    assert t.ring == [1, 3, 4];
    ops, t := Turn(s, ops, t, 2);
    assert t.ring == [4, 1, 3];
    ops, t := RunAndStep(s, ops, t, Exit(0));
  }

  // ---------- exit, and who can be freed ----------

  /** A new task is next in line: its parent's latest child, with the next process number. */
  lemma ChildRunsNext(s: Sys, p: Ptr)
    requires Inv(s) && Legal(s, Fork(p))
    ensures Next(s, Fork(p)).Ran?
    ensures var t, me := Next(s, Fork(p)).sys, s.ring[0];
      && t.ring == [me, p] + s.ring[1..] && p in t.live && p in t.procs && me in t.procs && p != me
      && t.procs[p] == Proc((1000 + s.forks) % 0x1_0000_0000, Running, 0, me, NULL)
      && t.procs[me] == s.procs[me].(child := p)
      && (forall q :: q in s.procs && q != p && q != me ==> q in t.procs && t.procs[q] == s.procs[q])
  {
    hide PidsOk;
  }

  /** The reader that the enter key wakes is next in line. */
  lemma ReaderRunsNext(s: Sys)
    requires Inv(s) && s.blocked != NULL
    ensures Next(s, Enter).Ran?
    ensures var t := Next(s, Enter).sys;
      && t.ring == [s.ring[0], s.blocked] + s.ring[1..] && t.blocked == NULL && t.procs == s.procs
      && t.ticks == s.ticks <= 10 && Inv(t)
  {
    hide PidsOk, TasksOk, ParentsOk;
    EnterOk(s);
  }

  /** The task that is next in line runs when the slice of 11 ticks is over. */
  lemma SecondRuns(s: Sys)
    requires Inv(s) && |s.ring| > 1
    ensures s.ticks <= 10 && Reaches(s, Repeat(11 - s.ticks), s.(ring := s.ring[1..] + s.ring[..1], ticks := 0))
  {
    hide Inv;
    RingFacts(s);
    TurnOf(s, 1);
  }

  /** An exited task is a zombie with its status, out of the ring and not freed; only its parent may change. */
  lemma ExitStatus(s: Sys, status: int)
    requires Inv(s) && Legal(s, Exit(status)) && Next(s, Exit(status)).Ran?
    ensures var t, me := Next(s, Exit(status)).sys, s.ring[0]; var parent := s.procs[me].parent;
      && me in t.procs && t.procs[me] == s.procs[me].(state := Zombie, status := status)
      && me in t.live && me !in t.ring
      && parent in t.procs
      && (parent != me ==>
           t.procs[parent] == s.procs[parent].(state := if s.procs[parent].state == Waiting then Running
                                                        else s.procs[parent].state))
      && (forall q :: q in s.procs && q != me && q != parent ==> q in t.procs && t.procs[q] == s.procs[q])
  {
    hide PidsOk;
  }

  /** When a child exits while its parent waits, the parent is the very next to run. */
  lemma ParentRunsNext(s: Sys, status: int)
    requires Inv(s) && Legal(s, Exit(status)) && s.procs[s.procs[s.ring[0]].parent].state == Waiting
    ensures Next(s, Exit(status)).Ran?
    ensures var t := Next(s, Exit(status)).sys; var parent := s.procs[s.ring[0]].parent;
      t.ring == [parent] + s.ring[1..] && t.procs[parent].state == Running && t.ticks == 0
  {
    hide PidsOk;
  }

  /**
   * The parent's retry then frees the exited child if that is the child it forked last; otherwise,
   * unless it had a zombie on its list before, it waits again.
   */
  lemma RetryFrees(s: Sys, status: int)
    requires Inv(s) && Legal(s, Exit(status)) && s.procs[s.procs[s.ring[0]].parent].state == Waiting
    ensures var me, parent := s.ring[0], s.procs[s.ring[0]].parent;
      var t := Next(s, Exit(status)).sys;
      if s.procs[parent].child == me then WaitStep(t) == Ran(t.(live := s.live - {me}))
      else !ZombieChild(s, parent) ==> WaitStep(t) == Sleep(SetState(t, parent, Waiting))
  {
    hide PidsOk;
    ParentRunsNext(s, status);
  }

  /** A live task that heads the child list of no unexited task. */
  ghost predicate Dropped(s: Sys, c: Ptr)
    requires s.live <= s.procs.Keys
  {
    c in s.live && forall q :: q in s.live && s.procs[q].state != Zombie ==> s.procs[q].child != c
  }

  lemma NextDropped(s: Sys, op: Op, c: Ptr)
    requires Inv(s) && Legal(s, op) && Dropped(s, c) && Next(s, op).Ran?
    ensures Inv(Next(s, op).sys) && Dropped(Next(s, op).sys, c)
  {
    hide PidsOk;
    NextOk(s, op);
    if !op.Fork? { HeadsStay(s, op); }
  }

  /** No step but fork changes the head of a child list, and only wait frees a task, the head of one. */
  lemma HeadsStay(s: Sys, op: Op)
    requires Inv(s) && Legal(s, op) && !op.Fork? && Next(s, op).Ran?
    ensures var t := Next(s, op).sys; t.procs.Keys == s.procs.Keys && t.live <= s.live
    ensures var t := Next(s, op).sys;
      forall q :: q in s.procs ==>
        t.procs[q].child == s.procs[q].child && (s.procs[q].state == Zombie ==> t.procs[q].state == Zombie)
    ensures var t := Next(s, op).sys; forall q :: q in s.live && q !in t.live ==> q == s.procs[s.ring[0]].child
  {
    hide PidsOk;
  }

  /** The child list holds only the latest child: once a task forks again, no run ever frees the earlier one. */
  lemma {:induction false} DroppedForever(s: Sys, ops: seq<Op>, c: Ptr)
    requires Inv(s) && LegalRun(s, ops) && Dropped(s, c)
    ensures Run(s, ops).Ran? ==> Dropped(Run(s, ops).sys, c)
    decreases |ops|
  {
    hide RingOk, TasksOk, ParentsOk, PidsOk, Legal, Next, Dropped;
    if ops != [] && Next(s, ops[0]).Ran? {
      NextDropped(s, ops[0], c);
      DroppedForever(Next(s, ops[0]).sys, ops[1..], c);
    }
  }

  lemma SecondForkDrops(s: Sys, p: Ptr)
    requires Tidy(s) && Legal(s, Fork(p)) && s.procs[s.ring[0]].child in s.live
    ensures Inv(ForkStep(s, p)) && Dropped(ForkStep(s, p), s.procs[s.ring[0]].child)
  {
    hide PidsOk;
    ForkOk(s, p);
  }

  /** Some legal run frees task c. */
  ghost predicate CanBeFreed(s: Sys, c: Ptr)
    requires Inv(s)
  {
    exists ops :: LegalRun(s, ops) && Run(s, ops).Ran? && c !in Run(s, ops).sys.live
  }

  /** The owner of the list comes to the front and waits. */
  lemma FreeingRun(s: Sys, c: Ptr, q: Ptr)
    requires Inv(s) && c in s.live && s.procs[c].state == Zombie && Childless(s, c)
    requires q in s.live && s.procs[q].state == Running && s.procs[q].child == c
    ensures CanBeFreed(s, c)
  {
    hide RingOk, ParentsOk, PidsOk, Legal, Next, LegalRun, Run;
    var ops, t := [], s;
    NoSteps(s);
    RingOrBlocked(s, q);
    if q !in s.ring {
      EnterPuts(s);
      ops, t := RunAndStep(s, ops, t, Enter);
    }
    ops, t := RunForward(s, ops, t, q);
    assert Childless(t, c);
    WaitFrees(t, c);
    ops, t := RunAndStep(s, ops, t, Wait);
  }

  lemma WaitFrees(s: Sys, c: Ptr)
    requires Inv(s) && c in s.live && s.procs[c].state == Zombie && Childless(s, c) && s.procs[s.ring[0]].child == c
    ensures Legal(s, Wait) && Next(s, Wait).Ran? && c !in Next(s, Wait).sys.live
  {
  }

  /** A zombie without unexited children can be freed exactly when it heads the list of an unexited task. */
  lemma CanBeFreedIff(s: Sys, c: Ptr)
    requires Tidy(s) && c in s.live && s.procs[c].state == Zombie && Childless(s, c)
    ensures CanBeFreed(s, c) <==> !Dropped(s, c)
  {
    hide PidsOk, ParentsOk, LegalRun, Run;
    if Dropped(s, c) {
      forall ops | LegalRun(s, ops) && Run(s, ops).Ran? ensures c in Run(s, ops).sys.live {
        DroppedForever(s, ops, c);
      }
    } else {
      var q :| q in s.live && s.procs[q].state != Zombie && s.procs[q].child == c;
      assert ZombieChild(s, q);
      FreeingRun(s, c, q);
    }
  }

  // ---------- the head of the list in every run ----------

  /** The address of the last fork of task p, after one more step. */
  ghost function LastFork(s: Sys, op: Op, p: Ptr, last: Ptr): (c: Ptr)
    requires Inv(s)
  {
    match op
    case Fork(spot) => if p == spot then NULL else if p == s.ring[0] then spot else last
    case _ => last
  }

  ghost function LastForkAfter(s: Sys, ops: seq<Op>, p: Ptr, last: Ptr): (c: Ptr)
    requires Inv(s) && LegalRun(s, ops) && Run(s, ops).Ran?
    decreases |ops|
  {
    if ops == [] then last
    else
      NextOk(s, ops[0]);
      LastForkAfter(Next(s, ops[0]).sys, ops[1..], p, LastFork(s, ops[0], p, last))
  }

  lemma HeadStep(s: Sys, op: Op, p: Ptr, last: Ptr)
    requires Inv(s) && Legal(s, op) && Next(s, op).Ran? && (p in s.live ==> s.procs[p].child == last)
    ensures var t := Next(s, op).sys; Inv(t) && (p in t.live ==> t.procs[p].child == LastFork(s, op, p, last))
  {
    hide PidsOk;
    NextOk(s, op);
    if !op.Fork? { HeadsStay(s, op); }
  }

  /** In every run the head of a live task's child list is the address of its last fork. */
  lemma {:induction false} HeadIsLastFork(s: Sys, ops: seq<Op>, p: Ptr, last: Ptr)
    requires Inv(s) && LegalRun(s, ops) && Run(s, ops).Ran? && (p in s.live ==> s.procs[p].child == last)
    ensures var t := Run(s, ops).sys; p in t.live ==> p in t.procs && t.procs[p].child == LastForkAfter(s, ops, p, last)
    decreases |ops|
  {
    hide RingOk, PidsOk, ParentsOk, Legal, Next, LastFork;
    if ops != [] {
      HeadStep(s, ops[0], p, last);
      HeadIsLastFork(Next(s, ops[0]).sys, ops[1..], p, LastFork(s, ops[0], p, last));
    }
  }

  /** So in every run at all, a wait frees twice exactly when the structure of the last fork is free. */
  lemma DoubleFreeAlways(init: Ptr, ops: seq<Op>)
    requires init != NULL && Inv(Start(init)) && LegalRun(Start(init), ops) && Run(Start(init), ops).Ran?
    requires Legal(Run(Start(init), ops).sys, Wait)
    ensures var s := Run(Start(init), ops).sys;
      var c := LastForkAfter(Start(init), ops, s.ring[0], NULL);
      Next(s, Wait) == DoubleFree <==> c != NULL && c !in s.live
  {
    var s := Run(Start(init), ops).sys;
    HeadIsLastFork(Start(init), ops, s.ring[0], NULL);
    SameProcessIff(s, Wait);
  }
}
