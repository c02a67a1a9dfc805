/** Whole runs of the process state machine: bounded waiting under round robin, and panics (src/kernel/sched.c). */
module Fairness {
  import opened Processes

  /** Every step of the run up to a panic is legal where it is taken. */
  ghost predicate LegalRun(s: Sys, ops: seq<Op>)
    requires Inv(s)
    decreases |ops|
  {
    ops == [] ||
    (Legal(s, ops[0]) && (NextOk(s, ops[0]); Next(s, ops[0]).Ran? ==> LegalRun(Next(s, ops[0]).sys, ops[1..])))
  }

  ghost function Run(s: Sys, ops: seq<Op>): (o: Outcome)
    requires Inv(s) && LegalRun(s, ops)
    ensures o.Ran? ==> Inv(o.sys)
    decreases |ops|
  {
    if ops == [] then Ran(s)
    else
      NextOk(s, ops[0]);
      var o := Next(s, ops[0]);
      if o.Ran? then Run(o.sys, ops[1..]) else o
  }

  /** A step and a run. */
  lemma StepThen(s: Sys, op: Op, ops: seq<Op>)
    requires Inv(s) && Legal(s, op) && Next(s, op).Ran?
    ensures Inv(Next(s, op).sys)
    ensures LegalRun(s, [op] + ops) <==> LegalRun(Next(s, op).sys, ops)
    ensures LegalRun(s, [op] + ops) ==> Run(s, [op] + ops) == Run(Next(s, op).sys, ops)
  {
    hide Inv, Legal, Next;
    NextOk(s, op);
    assert ([op] + ops)[1..] == ops;
  }

  /** One run after another. */
  lemma {:induction false} RunThen(s: Sys, ops: seq<Op>, more: seq<Op>)
    requires Inv(s) && LegalRun(s, ops) && Run(s, ops).Ran? && LegalRun(Run(s, ops).sys, more)
    ensures LegalRun(s, ops + more) && Run(s, ops + more) == Run(Run(s, ops).sys, more)
    decreases |ops|
  {
    hide Inv, Legal, Next;
    if ops == [] {
      assert ops + more == more;
    } else {
      NextOk(s, ops[0]);
      RunThen(Next(s, ops[0]).sys, ops[1..], more);
      assert (ops + more)[1..] == ops[1..] + more;
    }
  }

  /** Every reachable state satisfies the invariant. */
  lemma ReachableOk(init: Ptr, ops: seq<Op>)
    requires init != NULL
    ensures Inv(Start(init))
    ensures LegalRun(Start(init), ops) && Run(Start(init), ops).Ran? ==> Inv(Run(Start(init), ops).sys)
  {
    StartOk(init);
  }

  // ---------- bounded fairness ----------

  const SLICE: nat := PREEMPT_TICK_COUNT + 1

  function Ticks(ops: seq<Op>): (n: nat)
    ensures n <= |ops|
  {
    if ops == [] then 0 else (if ops[0].Tick? then 1 else 0) + Ticks(ops[1..])
  }

  /** Whether a step puts a task into the ring. */
  ghost predicate Inserts(s: Sys, op: Op)
    requires Inv(s) && Legal(s, op)
  {
    match op
    case Fork(_) => true
    case Exit(_) => s.procs[s.procs[s.ring[0]].parent].state == Waiting
    case Enter => s.blocked != NULL
    case _ => false
  }

  ghost function Insertions(s: Sys, ops: seq<Op>): (m: nat)
    requires Inv(s) && LegalRun(s, ops)
    decreases |ops|
  {
    if ops == [] then 0
    else
      NextOk(s, ops[0]);
      var o := Next(s, ops[0]);
      (if Inserts(s, ops[0]) then 1 else 0) + (if o.Ran? then Insertions(o.sys, ops[1..]) else 0)
  }

  /**
   * The time left before a task at distance d runs, 11 * d - ticks, falls by one with every tick
   * and grows by at most a slice with every insertion; only the current task ever leaves the ring.
   */
  lemma StepPotential(s: Sys, op: Op, d: nat) returns (e: nat)
    requires Inv(s) && Legal(s, op) && Next(s, op).Ran? && 0 < d < |s.ring|
    ensures var t := Next(s, op).sys; e < |t.ring| && t.ring[e] == s.ring[d] && t.ticks <= 10
    ensures 11 * e - Next(s, op).sys.ticks
         <= 11 * d - s.ticks - (if op.Tick? then 1 else 0) + (if Inserts(s, op) then 11 else 0)
  {
    hide PidsOk;
    match op
    case Tick => e := if s.ticks < PREEMPT_TICK_COUNT then d else d - 1;
    case Fork(_) => e := d + 1;
    case Wait => e := if ZombieChild(s, s.ring[0]) then d else d - 1;
    case Exit(_) => e := if Inserts(s, op) then d else d - 1;
    case Read => e := d - 1;
    case Enter => e := if s.blocked == NULL then d else d + 1;
  }

  /**
   * A runnable task d places ahead of the current one runs within 11 * (d + m) ticks, where m counts
   * the insertions into the ring, in every run of ticks, forks, waits, exits, reads and wakes.
   */
  lemma {:induction false} BoundedFairness(s: Sys, ops: seq<Op>, d: nat) returns (k: nat)
    requires Inv(s) && LegalRun(s, ops) && Run(s, ops).Ran? && d < |s.ring|
    requires Ticks(ops) >= 11 * (d + Insertions(s, ops)) - s.ticks
    ensures k <= |ops| && LegalRun(s, ops[..k]) && Run(s, ops[..k]).Ran?
    ensures Run(s, ops[..k]).sys.ring[0] == s.ring[d]
    decreases |ops|
  {
    hide TasksOk, ParentsOk, PidsOk, Legal, Next, Inserts;
    if d == 0 {
      k := 0;
      assert ops[..0] == [];
    } else {
      var op := ops[0];
      var e := StepPotential(s, op, d);
      NextOk(s, op);
      k := BoundedFairness(Next(s, op).sys, ops[1..], e);
      k := k + 1;
      assert ops[..k][1..] == ops[1..][..k - 1];
    }
  }

  ghost function Repeat(n: nat): (ops: seq<Op>)
    ensures |ops| == n
  {
    if n == 0 then [] else [Tick] + Repeat(n - 1)
  }

  /** The bound is met exactly by ticks alone: the task d places ahead runs after 11 * d - ticks of them. */
  lemma {:induction false} TurnOf(s: Sys, d: nat)
    requires Inv(s) && 0 < d <= |s.ring|
    ensures var ops := Repeat(11 * d - s.ticks);
      LegalRun(s, ops) && Run(s, ops) == Ran(s.(ring := s.ring[d..] + s.ring[..d], ticks := 0))
    decreases SLICE * d - s.ticks
  {
    hide Inv;
    RingFacts(s);
    var n := SLICE * d - s.ticks;
    var t := TickStep(s);
    FirstTick(s, n);
    if s.ticks < PREEMPT_TICK_COUNT {
      TurnOf(t, d);
    } else if d > 1 {
      TurnOf(t, d - 1);
      assert t.ring[d - 1..] + t.ring[..d - 1] == s.ring[d..] + s.ring[..d];
    } else {
      assert Repeat(0) == [];
      assert s.ring[1..] + [s.ring[0]] == s.ring[1..] + s.ring[..1];
    }
  }

  lemma RingFacts(s: Sys)
    requires Inv(s)
    ensures |s.ring| > 0 && s.ticks <= 10
  {
  }

  /** A run of ticks is one tick and the rest. */
  lemma FirstTick(s: Sys, n: nat)
    requires Inv(s) && n > 0
    ensures |s.ring| > 0 && Inv(TickStep(s))
    ensures LegalRun(s, Repeat(n)) <==> LegalRun(TickStep(s), Repeat(n - 1))
    ensures LegalRun(s, Repeat(n)) ==> Run(s, Repeat(n)) == Run(TickStep(s), Repeat(n - 1))
  {
    hide RingOk, TasksOk, ParentsOk, PidsOk;
    RingFacts(s);
    TickOk(s);
    assert Repeat(n)[0] == Tick && Repeat(n)[1..] == Repeat(n - 1);
  }

  // ---------- panics ----------

  /** Whether a step puts the current task to sleep. */
  ghost predicate Sleeps(s: Sys, op: Op)
    requires Inv(s)
  {
    match op
    case Wait => !ZombieChild(s, s.ring[0])
    case Exit(_) => true
    case Read => s.blocked == NULL
    case _ => false
  }

  ghost predicate InitAwake(s: Sys, ops: seq<Op>)
    requires Inv(s) && LegalRun(s, ops)
    decreases |ops|
  {
    ops == [] ||
    ( && (s.ring[0] == s.root ==> !Sleeps(s, ops[0]))
      && (NextOk(s, ops[0]); Next(s, ops[0]).Ran? ==> InitAwake(Next(s, ops[0]).sys, ops[1..])))
  }

  /** The head of a task's child list has been freed. */
  predicate HeadFreed(s: Sys, p: Ptr)
    requires p in s.procs
  {
    s.procs[p].child != NULL && s.procs[p].child !in s.live
  }

  /** A step switches to the same process exactly when the only runnable task sleeps and wakes nobody. */
  lemma SameProcessIff(s: Sys, op: Op)
    requires Inv(s) && Legal(s, op)
    ensures Next(s, op) == SameProcess <==> |s.ring| == 1 && Sleeps(s, op) && !Inserts(s, op)
    ensures Next(s, op) == TtyBusy <==> op.Read? && s.blocked != NULL
    ensures Next(s, op) == DoubleFree <==> op.Wait? && HeadFreed(s, s.ring[0])
  {
  }

  lemma RootStays(s: Sys, op: Op)
    requires Inv(s) && Legal(s, op) && s.root in s.ring && (s.ring[0] == s.root ==> !Sleeps(s, op))
    ensures Next(s, op) != SameProcess
    ensures Next(s, op).Ran? ==> Next(s, op).sys.root == s.root && s.root in Next(s, op).sys.ring
  {
    hide PidsOk;
    NextOk(s, op);
    assert s.root != s.ring[0] ==> |s.ring| > 1;
  }

  /** As long as init never sleeps, no run reaches the panic of a switch to the same process. */
  lemma {:induction false} NoSameProcess(s: Sys, ops: seq<Op>)
    requires Inv(s) && LegalRun(s, ops) && s.root in s.ring && InitAwake(s, ops)
    ensures Run(s, ops) != SameProcess
    decreases |ops|
  {
    hide RingOk, TasksOk, ParentsOk, PidsOk, Legal, Next, Sleeps;
    if ops != [] {
      RootStays(s, ops[0]);
      NextOk(s, ops[0]);
      if Next(s, ops[0]).Ran? { NoSameProcess(Next(s, ops[0]).sys, ops[1..]); }
    }
  }
}
