/** The two-level scheduler loop of proc.c on one CPU, as a step machine. Whenever the
    process table lock is not held by the scheduler, everything else in the system (the
    processes, the other CPUs) may change the table at will; while it is held, a fork under
    way elsewhere may still write to its embryo, since it does so without the lock. */
module Sched {
  const NPROC: nat := 64

  datatype ProcState = Unused | Embryo | Sleeping | Runnable | Running | Zombie
  datatype Slot = Slot(state: ProcState, priority: int, ticks: int)

  predicate Urgent(s: Slot) { s.state == Runnable && s.priority == 1 }

  /** No slot holds a runnable process of priority 1. */
  ghost predicate NoneUrgent(tab: seq<Slot>) {
    forall i :: 0 <= i < |tab| ==> !Urgent(tab[i])
  }

  /** getHighPriority: how many runnable processes have priority 1. */
  function HighCount(tab: seq<Slot>): (n: nat) {
    if tab == [] then 0 else HighCount(tab[..|tab| - 1]) + if Urgent(tab[|tab| - 1]) then 1 else 0
  }

  lemma {:induction false} HighCountIff(tab: seq<Slot>)
    ensures HighCount(tab) == 0 <==> NoneUrgent(tab)
  {
    if tab != [] {
      HighCountIff(tab[..|tab| - 1]);
      assert forall i :: 0 <= i < |tab| - 1 ==> tab[..|tab| - 1][i] == tab[i];
    }
  }

  method GetHighPriority(tab: seq<Slot>) returns (hpcnt: nat)
    ensures hpcnt == HighCount(tab)
    ensures hpcnt == 0 <==> NoneUrgent(tab)
  {
    hpcnt := 0;
    for p := 0 to |tab|
      invariant hpcnt == HighCount(tab[..p])
    {
      assert tab[..p + 1][..p] == tab[..p];
      if tab[p].state == Runnable && tab[p].priority == 1 {
        hpcnt := hpcnt + 1;
      }
    }
    assert tab[..|tab|] == tab;
    HighCountIff(tab);
  }

  // ---------------------------------------------------------------- the machine

  /** Where the scheduler is: outside the lock; in the loop over priority 1 about to look at
      slot k, or with slot k's process running; the same for the last loop. */
  datatype Pc = Idle | High(k: nat) | HighOut(k: nat) | Low(k: nat) | LowOut(k: nat)

  datatype State = State(tab: seq<Slot>, pc: Pc, hasHP: bool)

  /** The scheduler's own next step, or a change of the table by everything else. */
  datatype Step = Sched | Env(tab: seq<Slot>)

  predicate Wf(s: State) {
    && |s.tab| == NPROC
    && match s.pc
       case Idle => true
       case High(k) => k <= NPROC
       case HighOut(k) => k < NPROC
       case Low(k) => k <= NPROC
       case LowOut(k) => k < NPROC
  }

  /** What fork and allocproc may change without the lock: an embryo's fields, or giving the
      embryo up. */
  predicate EmbryosOnly(tab: seq<Slot>, tab': seq<Slot>) {
    && |tab'| == |tab|
    && forall k :: 0 <= k < |tab| ==>
         tab'[k] == tab[k] || (tab[k].state == Embryo && (tab'[k].state == Embryo || tab'[k].state == Unused))
  }

  predicate Enabled(s: State, t: Step) {
    && Wf(s)
    && (t.Env? ==> |t.tab| == NPROC && (s.pc.Idle? || s.pc.HighOut? || s.pc.LowOut? || EmbryosOnly(s.tab, t.tab)))
  }

  /** The slot the scheduler's next step dispatches, if it dispatches one. */
  predicate Dispatches(s: State, t: Step, p: nat)
    requires Wf(s)
  {
    && t.Sched? && p < NPROC && s.tab[p].state == Runnable
    && (s.pc == Low(p) || (s.pc == High(p) && s.tab[p].priority == 1))
  }

  ghost predicate DispatchesOne(s: State, t: Step)
    requires Wf(s)
  {
    exists p :: Dispatches(s, t, p)
  }

  function Run(s: Slot): Slot { s.(state := Running, ticks := s.ticks + 1) }

  function Next(s: State, t: Step): (s': State)
    requires Enabled(s, t)
    ensures Wf(s')
  {
    match t
    case Env(tab) => s.(tab := tab)
    case Sched =>
      match s.pc
      case Idle =>
        if HighCount(s.tab) > 0 then s.(pc := High(0), hasHP := false) else s.(pc := Low(0), hasHP := false)
      case High(k) =>
        if k == NPROC then
          if HighCount(s.tab) > 0 then s.(pc := High(0))
          else if s.hasHP then s.(pc := Idle)
          else s.(pc := Low(0))
        else if s.tab[k].state == Runnable && s.tab[k].priority == 1 then
          State(s.tab[k := Run(s.tab[k])], HighOut(k), true)
        else s.(pc := High(k + 1))
      case HighOut(k) => s.(pc := High(k + 1))
      case Low(k) =>
        if k == NPROC then s.(pc := Idle)
        else if s.tab[k].state == Runnable then s.(tab := s.tab[k := Run(s.tab[k])], pc := LowOut(k))
        else s.(pc := Low(k + 1))
      case LowOut(k) => s.(pc := Idle)
  }

  /** The scheduler's step turns a runnable slot into a running one exactly if it dispatches
      it: the process is counted one more run and is out on the CPU, and no other slot has
      changed; a step that dispatches nothing leaves the table alone. */
  lemma DispatchIff(s: State, p: nat)
    requires Enabled(s, Sched) && p < NPROC
    ensures Dispatches(s, Sched, p) <==> s.tab[p].state == Runnable && Next(s, Sched).tab[p].state == Running
    ensures Dispatches(s, Sched, p) ==>
              && Next(s, Sched).tab == s.tab[p := Slot(Running, s.tab[p].priority, s.tab[p].ticks + 1)]
              && (Next(s, Sched).pc == HighOut(p) || Next(s, Sched).pc == LowOut(p))
    ensures !DispatchesOne(s, Sched) ==> Next(s, Sched).tab == s.tab
  {
    if s.pc.High? || s.pc.Low? {
      assert s.pc.k < NPROC ==> (Dispatches(s, Sched, s.pc.k) <==> Next(s, Sched).tab != s.tab);
    }
  }

  // ---------------------------------------------------------------- runs

  ghost predicate IsRun(ss: seq<State>, ts: seq<Step>) {
    && |ss| == |ts| + 1
    && forall i :: 0 <= i < |ts| ==> Enabled(ss[i], ts[i]) && ss[i + 1] == Next(ss[i], ts[i])
  }

  /** The last loop is entered only when no process of priority 1 is runnable. */
  ghost predicate Inv(s: State) {
    Wf(s) && (s.pc.Low? ==> NoneUrgent(s.tab))
  }

  lemma StepKeeps(s: State, t: Step)
    requires Inv(s) && Enabled(s, t)
    ensures Inv(Next(s, t))
  {
    HighCountIff(s.tab);
  }

  lemma {:induction false} RunKeeps(ss: seq<State>, ts: seq<Step>, i: nat)
    requires IsRun(ss, ts) && Inv(ss[0]) && i <= |ts|
    ensures Inv(ss[i])
  {
    if i > 0 {
      RunKeeps(ss, ts, i - 1);
      StepKeeps(ss[i - 1], ts[i - 1]);
    }
  }

  /** In every run a process whose priority is not 1 is dispatched only in a state in which
      no process of priority 1 is runnable. */
  lemma PriorityRespected(ss: seq<State>, ts: seq<Step>, i: nat, p: nat)
    requires IsRun(ss, ts) && ss[0].pc == Idle && Wf(ss[0]) && i < |ts|
    requires Wf(ss[i]) && Dispatches(ss[i], ts[i], p) && ss[i].tab[p].priority != 1
    ensures NoneUrgent(ss[i].tab)
  {
    RunKeeps(ss, ts, i);
  }

  // ---------------------------------------------------------------- bounded waiting

  /** How many other processes can still be dispatched before p, if p stays runnable. */
  function Rank(pc: Pc, p: nat): int
  {
    match pc
    case High(k) => if k <= p then p - k else NPROC - k + p
    case HighOut(k) => if k < p then p - k - 1 else NPROC - 1 - k + p
    case Low(k) => 0
    case _ => p
  }

  /** How many steps of the scheduler itself are left before p is dispatched. */
  function Work(pc: Pc, p: nat): int
  {
    match pc
    case Idle => 2 + 2 * p
    case High(k) => if k <= p then 1 + 2 * (p - k) else 2 * (NPROC - k) + 2 + 2 * p
    case HighOut(k) => 1 + if k < p then 1 + 2 * (p - k - 1) else 2 * (NPROC - k - 1) + 2 + 2 * p
    case Low(k) => 0
    case LowOut(k) => 3 + 2 * p
  }

  /** In steps [from, to) p is never dispatched, and stays runnable with priority 1. */
  ghost predicate Waits(ss: seq<State>, ts: seq<Step>, p: nat, from: nat, to: nat)
    requires IsRun(ss, ts) && from <= to <= |ts| && p < NPROC
  {
    && (forall i :: from <= i <= to ==> Wf(ss[i]) && Urgent(ss[i].tab[p]))
    && (forall i :: from <= i < to ==> !Dispatches(ss[i], ts[i], p))
  }

  /** How many dispatches there are in steps [from, to). */
  ghost function DispatchCount(ss: seq<State>, ts: seq<Step>, from: nat, to: nat): (n: nat)
    requires IsRun(ss, ts) && from <= to <= |ts|
  {
    if from == to then 0
    else DispatchCount(ss, ts, from, to - 1) + if DispatchesOne(ss[to - 1], ts[to - 1]) then 1 else 0
  }

  /** How many steps of the scheduler there are in steps [from, to). */
  function SchedCount(ts: seq<Step>, from: nat, to: nat): (n: nat)
    requires from <= to <= |ts|
  {
    if from == to then 0 else SchedCount(ts, from, to - 1) + if ts[to - 1].Sched? then 1 else 0
  }

  lemma RankStep(s: State, t: Step, p: nat)
    requires Inv(s) && Enabled(s, t) && p < NPROC && Urgent(s.tab[p]) && Urgent(Next(s, t).tab[p]) && !Dispatches(s, t, p)
    ensures Rank(Next(s, t).pc, p) + (if DispatchesOne(s, t) then 1 else 0) <= Rank(s.pc, p)
    ensures Work(Next(s, t).pc, p) + (if t.Sched? then 1 else 0) <= Work(s.pc, p)
  {
    HighCountIff(s.tab);
  }

  lemma {:induction false} WaitBounds(ss: seq<State>, ts: seq<Step>, p: nat, from: nat, to: nat)
    requires IsRun(ss, ts) && Inv(ss[0]) && from <= to <= |ts| && p < NPROC && Waits(ss, ts, p, from, to)
    ensures DispatchCount(ss, ts, from, to) + Rank(ss[to].pc, p) <= Rank(ss[from].pc, p)
    ensures SchedCount(ts, from, to) + Work(ss[to].pc, p) <= Work(ss[from].pc, p)
  {
    if from < to {
      WaitBounds(ss, ts, p, from, to - 1);
      RunKeeps(ss, ts, to - 1);
      assert Urgent(ss[to].tab[p]) && Urgent(ss[to - 1].tab[p]) && !Dispatches(ss[to - 1], ts[to - 1], p);
      assert ss[to] == Next(ss[to - 1], ts[to - 1]);
      RankStep(ss[to - 1], ts[to - 1], p);
    }
  }

  lemma RankBounds(s: State, p: nat)
    requires Inv(s) && p < NPROC && Urgent(s.tab[p])
    ensures 0 <= Rank(s.pc, p) <= NPROC - 1 && 1 <= Work(s.pc, p) <= 2 * NPROC + 1
  {
  }

  /** A process of priority 1 that stays runnable waits for at most NPROC - 1 dispatches of
      other processes, and for fewer than 2 * NPROC + 1 steps of the scheduler, whatever
      everything else does meanwhile. */
  lemma BoundedWaiting(ss: seq<State>, ts: seq<Step>, p: nat, from: nat, to: nat)
    requires IsRun(ss, ts) && ss[0].pc == Idle && Wf(ss[0]) && from <= to <= |ts| && p < NPROC && Waits(ss, ts, p, from, to)
    ensures DispatchCount(ss, ts, from, to) <= NPROC - 1
    ensures SchedCount(ts, from, to) < 2 * NPROC + 1
  {
    WaitBounds(ss, ts, p, from, to);
    RunKeeps(ss, ts, from);
    RunKeeps(ss, ts, to);
    RankBounds(ss[from], p);
    RankBounds(ss[to], p);
  }

  // ---------------------------------------------------------------- the other priority

  /** Slot q is the first with a runnable process, and no process of priority 1 is runnable. */
  ghost predicate FirstRunnable(tab: seq<Slot>, q: nat) {
    && q < |tab| && tab[q].state == Runnable && NoneUrgent(tab)
    && forall k :: 0 <= k < q ==> tab[k].state != Runnable
  }

  /** How many steps of the scheduler are left before slot q is dispatched. */
  function LowWork(pc: Pc, q: nat): int
  {
    match pc
    case Idle => 1 + q
    case High(k) => NPROC - k + 2 + q
    case HighOut(k) => NPROC - k + 2 + q
    case Low(k) => if k <= q then q - k else NPROC - k + 2 + q
    case LowOut(k) => 2 + q
  }

  /** In steps [from, to) everything else only writes to embryos. */
  ghost predicate EnvQuiet(ss: seq<State>, ts: seq<Step>, from: nat, to: nat)
    requires IsRun(ss, ts) && from <= to <= |ts|
  {
    forall i :: from <= i < to ==> (ts[i].Env? ==> EmbryosOnly(ss[i].tab, ts[i].tab))
  }

  /** Until it is dispatched, slot q stays the first runnable one, and each step of the
      scheduler brings it nearer; from the start of the last loop nothing else is dispatched. */
  lemma LowStep(s: State, t: Step, q: nat)
    requires Enabled(s, t) && FirstRunnable(s.tab, q) && !Dispatches(s, t, q)
    requires t.Env? ==> EmbryosOnly(s.tab, t.tab)
    ensures FirstRunnable(Next(s, t).tab, q)
    ensures 0 <= LowWork(Next(s, t).pc, q) && LowWork(Next(s, t).pc, q) + (if t.Sched? then 1 else 0) <= LowWork(s.pc, q)
    ensures s.pc == Idle || (s.pc.Low? && s.pc.k <= q) ==>
              !DispatchesOne(s, t) && (Next(s, t).pc == Idle || (Next(s, t).pc.Low? && Next(s, t).pc.k <= q))
  {
    HighCountIff(s.tab);
  }

  lemma {:induction false} LowWait(ss: seq<State>, ts: seq<Step>, from: nat, to: nat, q: nat)
    requires IsRun(ss, ts) && from <= to <= |ts| && Wf(ss[from]) && FirstRunnable(ss[from].tab, q) && EnvQuiet(ss, ts, from, to)
    requires forall i :: from <= i < to ==> !Dispatches(ss[i], ts[i], q)
    ensures Wf(ss[to]) && FirstRunnable(ss[to].tab, q)
    ensures SchedCount(ts, from, to) + LowWork(ss[to].pc, q) <= LowWork(ss[from].pc, q) && 0 <= LowWork(ss[to].pc, q)
    ensures ss[from].pc == Idle ==>
              && (ss[to].pc == Idle || (ss[to].pc.Low? && ss[to].pc.k <= q))
              && forall i :: from <= i < to ==> !DispatchesOne(ss[i], ts[i])
  {
    if from < to {
      LowWait(ss, ts, from, to - 1, q);
      assert ss[to] == Next(ss[to - 1], ts[to - 1]);
      LowStep(ss[to - 1], ts[to - 1], q);
    }
  }

  /** With no process of priority 1 runnable and everything else quiet, the first runnable
      process is dispatched after a bounded number of scheduler steps, wherever the scheduler
      is; from the top of its loop it is the next one dispatched, in at most NPROC + 1 steps. */
  lemma {:induction false} FirstRunnableRuns(ss: seq<State>, ts: seq<Step>, from: nat, to: nat, q: nat) returns (i: nat)
    requires IsRun(ss, ts) && from <= to <= |ts| && Wf(ss[from]) && FirstRunnable(ss[from].tab, q) && EnvQuiet(ss, ts, from, to)
    requires SchedCount(ts, from, to) >= if ss[from].pc == Idle then NPROC + 1 else 2 * NPROC + 2
    ensures from <= i < to && Dispatches(ss[i], ts[i], q)
    ensures SchedCount(ts, from, i) <= LowWork(ss[from].pc, q)
    ensures ss[from].pc == Idle ==> forall j :: from <= j < i ==> !DispatchesOne(ss[j], ts[j])
  {
    i := from;
    while i < to && !Dispatches(ss[i], ts[i], q)
      invariant from <= i <= to
      invariant forall j :: from <= j < i ==> !Dispatches(ss[j], ts[j], q)
    {
      i := i + 1;
    }
    LowWait(ss, ts, from, i, q);
  }

  /** The scheduler has dispatched a process since it last was at the top of its loop, and
      will not enter the last loop before it is there again. */
  predicate Spent(s: State) {
    s.pc.LowOut? || (s.hasHP && (s.pc.High? || s.pc.HighOut?))
  }

  lemma {:induction false} SpentUntilIdle(ss: seq<State>, ts: seq<Step>, i: nat, j: nat)
    requires IsRun(ss, ts) && i < j <= |ts| && DispatchesOne(ss[i], ts[i])
    requires forall m :: i < m < j ==> ss[m].pc != Idle
    ensures Spent(ss[j]) || ss[j].pc == Idle
  {
    if i + 1 < j {
      SpentUntilIdle(ss, ts, i, j - 1);
    }
    assert ss[j] == Next(ss[j - 1], ts[j - 1]);
  }

  /** The last loop runs one process in a pass, and only if the pass has run none of priority
      1: between a dispatch by it and any earlier dispatch the scheduler was at the top of its
      loop, where it releases the lock. */
  lemma LowRunsAlone(ss: seq<State>, ts: seq<Step>, i: nat, j: nat) returns (m: nat)
    requires IsRun(ss, ts) && i < j < |ts| && DispatchesOne(ss[i], ts[i]) && ss[j].pc.Low? && DispatchesOne(ss[j], ts[j])
    ensures i < m < j && ss[m].pc == Idle
  {
    m := i + 1;
    while m < j && ss[m].pc != Idle
      invariant i < m <= j
      invariant forall n :: i < n < m ==> ss[n].pc != Idle
    {
      m := m + 1;
    }
    if m == j { SpentUntilIdle(ss, ts, i, j); }
  }
}
