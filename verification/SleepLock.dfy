/** One sleep lock of sleeplock.c with the sleep and wakeup of proc.c beneath it, step by
    step: taking a spin lock, releasing one, and changing the sleep lock under its spin lock
    are steps of their own.  The stores to locked and pid are one step, since everyone else
    who looks at either waits for the spin lock. */
module SleepLock {
  /** Nobody, process p, or something outside this protocol. */
  datatype Owner = None | By(p: nat) | Env

  /** Where a process is: outside; in acquiresleep waiting for the spin lock, testing
      locked, in sleep holding both locks or the process table lock alone, asleep, or with
      locked just set; holding the lock; in releasesleep waiting for the spin lock, about to
      clear locked, about to call wakeup, about to release the spin lock. */
  datatype Pc = Out | Want | Check | Doze1 | Doze2 | Asleep | Got | Hold | Rel | Rel1 | Rel2 | Rel3

  /** pcs: the processes; locked and pid: the sleep lock; spin: its spin lock; ptable: the
      process table lock. */
  datatype State = State(pcs: seq<Pc>, locked: bool, pid: Owner, spin: Owner, ptable: Owner)

  datatype Step =
    | Acquire(p: nat) | Spin(p: nat) | Take(p: nat) | Keep(p: nat) | Doze(p: nat) | Drop(p: nat) | Sleep(p: nat)
    | Release(p: nat) | Clear(p: nat) | Wakeup(p: nat) | Done(p: nat)
    | Kill(p: nat) | EnvLock | EnvUnlock

  predicate At(s: State, p: nat, pc: Pc) { p < |s.pcs| && s.pcs[p] == pc }

  predicate Enabled(s: State, t: Step) {
    match t
    case Acquire(p) => At(s, p, Out)
    case Spin(p) => (At(s, p, Want) || At(s, p, Rel)) && s.spin == None
    case Take(p) => At(s, p, Check) && !s.locked
    case Keep(p) => At(s, p, Got)
    case Doze(p) => At(s, p, Check) && s.locked && s.ptable == None
    case Drop(p) => At(s, p, Doze1)
    case Sleep(p) => At(s, p, Doze2)
    case Release(p) => At(s, p, Hold)
    case Clear(p) => At(s, p, Rel1)
    case Wakeup(p) => At(s, p, Rel2) && s.ptable == None
    case Done(p) => At(s, p, Rel3)
    case Kill(p) => At(s, p, Asleep) && s.ptable == None
    case EnvLock => s.ptable == None
    case EnvUnlock => s.ptable == Env
  }

  /** wakeup(lk): everyone asleep on the lock runs again and goes back for the spin lock. */
  function AllAwake(pcs: seq<Pc>): (r: seq<Pc>)
    ensures |r| == |pcs| && forall i :: 0 <= i < |pcs| ==> r[i] == if pcs[i] == Asleep then Want else pcs[i]
  {
    seq(|pcs|, i requires 0 <= i < |pcs| => if pcs[i] == Asleep then Want else pcs[i])
  }

  function Next(s: State, t: Step): (s': State)
    requires Enabled(s, t)
  {
    match t
    case Acquire(p) => s.(pcs := s.pcs[p := Want])
    case Spin(p) => s.(pcs := s.pcs[p := if s.pcs[p] == Want then Check else Rel1], spin := By(p))
    case Take(p) => s.(pcs := s.pcs[p := Got], locked := true, pid := By(p))
    case Keep(p) => s.(pcs := s.pcs[p := Hold], spin := None)
    case Doze(p) => s.(pcs := s.pcs[p := Doze1], ptable := By(p))
    case Drop(p) => s.(pcs := s.pcs[p := Doze2], spin := None)
    case Sleep(p) => s.(pcs := s.pcs[p := Asleep], ptable := None)
    case Release(p) => s.(pcs := s.pcs[p := Rel])
    case Clear(p) => s.(pcs := s.pcs[p := Rel2], locked := false, pid := None)
    case Wakeup(p) => s.(pcs := AllAwake(s.pcs)[p := Rel3])
    case Done(p) => s.(pcs := s.pcs[p := Out], spin := None)
    case Kill(p) => s.(pcs := s.pcs[p := Want])
    case EnvLock => s.(ptable := Env)
    case EnvUnlock => s.(ptable := None)
  }

  // ---------------------------------------------------------------- the invariant

  predicate Spins(pc: Pc) { pc in {Check, Doze1, Got, Rel1, Rel2, Rel3} }
  predicate Owns(pc: Pc) { pc in {Got, Hold, Rel, Rel1} }
  predicate Sleepy(pc: Pc) { pc in {Doze2, Asleep} }

  /** The releaser has cleared the lock and not yet finished its wakeup. */
  predicate WakeupDue(s: State) {
    s.spin.By? && At(s, s.spin.p, Rel2)
  }

  ghost predicate Inv(s: State) {
    && (forall p {:trigger s.pcs[p]} :: 0 <= p < |s.pcs| ==>
      && (s.spin == By(p) <==> Spins(s.pcs[p]))
      && (s.ptable == By(p) <==> s.pcs[p] in {Doze1, Doze2})
      && (s.pid == By(p) <==> Owns(s.pcs[p]))
      && (s.pcs[p] == Doze1 ==> s.locked)
      && (Sleepy(s.pcs[p]) ==> s.locked || WakeupDue(s)))
    && (s.locked <==> s.pid.By?) && (s.pid.By? ==> s.pid.p < |s.pcs|) && s.pid != Env
  }

  lemma AcquireKeeps(s: State, t: Step)
    requires Inv(s) && Enabled(s, t) && (t.Acquire? || t.Spin? || t.Take? || t.Keep?)
    ensures Inv(Next(s, t))
  {
  }

  lemma SleepKeeps(s: State, t: Step)
    requires Inv(s) && Enabled(s, t) && (t.Doze? || t.Drop? || t.Sleep? || t.Kill? || t.EnvLock? || t.EnvUnlock?)
    ensures Inv(Next(s, t))
  {
  }

  lemma ReleaseKeeps(s: State, t: Step)
    requires Inv(s) && Enabled(s, t) && (t.Release? || t.Clear? || t.Wakeup? || t.Done?)
    ensures Inv(Next(s, t))
  {
  }

  lemma StepKeeps(s: State, t: Step)
    requires Inv(s) && Enabled(s, t)
    ensures Inv(Next(s, t))
  {
    hide Inv, Enabled, Next;
    if t.Acquire? || t.Spin? || t.Take? || t.Keep? {
      AcquireKeeps(s, t);
    } else if t.Release? || t.Clear? || t.Wakeup? || t.Done? {
      ReleaseKeeps(s, t);
    } else {
      SleepKeeps(s, t);
    }
  }

  ghost predicate IsRun(ss: seq<State>, ts: seq<Step>) {
    && |ss| == |ts| + 1
    && forall i :: 0 <= i < |ts| ==> Enabled(ss[i], ts[i]) && ss[i + 1] == Next(ss[i], ts[i])
  }

  /** initsleeplock: unlocked, nobody inside. */
  ghost predicate Start(s: State) {
    !s.locked && s.pid == None && s.spin == None && !s.ptable.By? && forall p :: 0 <= p < |s.pcs| ==> s.pcs[p] == Out
  }

  lemma {:induction false} RunKeeps(ss: seq<State>, ts: seq<Step>, n: nat)
    requires IsRun(ss, ts) && Start(ss[0]) && n <= |ts|
    ensures Inv(ss[n])
  {
    if n > 0 {
      RunKeeps(ss, ts, n - 1);
      StepKeeps(ss[n - 1], ts[n - 1]);
    }
  }

  /** At most one process holds the lock, and holdingsleep tells exactly the holder so. */
  lemma MutualExclusion(ss: seq<State>, ts: seq<Step>, n: nat, p: nat, q: nat)
    requires IsRun(ss, ts) && Start(ss[0]) && n <= |ts| && p < |ss[n].pcs| && q < |ss[n].pcs|
    ensures Owns(ss[n].pcs[p]) && Owns(ss[n].pcs[q]) ==> p == q
    ensures Owns(ss[n].pcs[p]) <==> ss[n].locked && ss[n].pid == By(p)
  {
    RunKeeps(ss, ts, n);
  }

  /** A process sleeps on the lock only while it is held or its releaser is still between
      clearing it and finishing the wakeup, and that wakeup then wakes it. */
  lemma NoLostWakeup(ss: seq<State>, ts: seq<Step>, n: nat, p: nat)
    requires IsRun(ss, ts) && Start(ss[0]) && n <= |ts| && p < |ss[n].pcs| && ss[n].pcs[p] == Asleep
    ensures ss[n].locked || WakeupDue(ss[n])
    ensures n < |ts| && ts[n].Wakeup? ==> ss[n + 1].pcs[p] == Want
  {
    RunKeeps(ss, ts, n);
  }

  // ---------------------------------------------------------------- progress

  /** The lock changes hands in two steps only: a process that has found it free takes it,
      and its owner gives it up. */
  lemma OwnerChanges(s: State, t: Step, p: nat)
    requires Inv(s) && Enabled(s, t) && p < |s.pcs|
    ensures !Owns(s.pcs[p]) && Owns(Next(s, t).pcs[p]) <==> t == Take(p)
    ensures Owns(s.pcs[p]) && !Owns(Next(s, t).pcs[p]) <==> t == Clear(p)
    ensures t == Take(p) ==> !s.locked && Next(s, t).locked
    ensures t == Clear(p) ==> s.locked && !Next(s, t).locked
  {
  }

  /** How many steps of its own a process can still make before it holds the lock, sleeps, or
      is outside. */
  function StepsLeft(pc: Pc): nat {
    match pc
    case Want => 4
    case Check => 3
    case Doze1 => 2
    case Doze2 => 1
    case Got => 1
    case Rel => 4
    case Rel1 => 3
    case Rel2 => 2
    case Rel3 => 1
    case _ => 0
  }

  /** The process that makes the step; none for the others. */
  function Mover(t: Step): Owner {
    match t
    case EnvLock => None
    case EnvUnlock => None
    case Kill(_) => None
    case _ => By(t.p)
  }

  /** Each step of its own, once it has called acquiresleep or releasesleep, brings a process
      nearer; steps of others leave it where it is, except that they may wake it. */
  lemma StepsDecrease(s: State, t: Step, p: nat)
    requires Inv(s) && Enabled(s, t) && p < |s.pcs|
    ensures Mover(t) == By(p) && !t.Acquire? && !t.Release? ==> StepsLeft(Next(s, t).pcs[p]) < StepsLeft(s.pcs[p])
    ensures t == Acquire(p) ==> Next(s, t).pcs[p] == Want
    ensures t == Release(p) ==> Next(s, t).pcs[p] == Rel
    ensures Mover(t) != By(p) ==> Next(s, t).pcs[p] == s.pcs[p] || (s.pcs[p] == Asleep && Next(s, t).pcs[p] == Want)
  {
  }

  /** Some process that is inside can make a step of its own. */
  ghost predicate CanMove(s: State) {
    exists t :: Enabled(s, t) && Mover(t) != None && !t.Acquire?
  }

  lemma Moves(s: State, t: Step)
    requires Enabled(s, t) && Mover(t) != None && !t.Acquire?
    ensures CanMove(s)
  {
  }

  /** Who holds the spin lock can go on, unless it needs the process table lock. */
  lemma SpinnerMoves(s: State, p: nat)
    requires Inv(s) && p < |s.pcs| && s.spin == By(p) && s.ptable != Env
    requires s.ptable.By? ==> s.ptable.p < |s.pcs|
    ensures CanMove(s)
  {
    var pc := s.pcs[p];
    if s.ptable.By? {
      PtableMoves(s, s.ptable.p);
    } else {
      match pc
      case Check => Moves(s, if s.locked then Doze(p) else Take(p));
      case Doze1 => Moves(s, Drop(p));
      case Got => Moves(s, Keep(p));
      case Rel1 => Moves(s, Clear(p));
      case Rel2 => Moves(s, Wakeup(p));
      case Rel3 => Moves(s, Done(p));
      case _ => assert false;
    }
  }

  lemma PtableMoves(s: State, p: nat)
    requires Inv(s) && p < |s.pcs| && s.ptable == By(p)
    ensures CanMove(s)
  {
    Moves(s, if s.pcs[p] == Doze1 then Drop(p) else Sleep(p));
  }

  /** There is no deadlock: in every state of every run in which some process is between
      acquiresleep and the end of releasesleep, one of them can make a step, unless something
      else holds the process table lock for the moment. */
  lemma NoDeadlock(ss: seq<State>, ts: seq<Step>, n: nat, p: nat)
    requires IsRun(ss, ts) && Start(ss[0]) && n <= |ts| && p < |ss[n].pcs| && ss[n].pcs[p] != Out && ss[n].ptable != Env
    ensures CanMove(ss[n])
  {
    RunKeeps(ss, ts, n);
    LocksNamed(ss, ts, n);
    var s := ss[n];
    if s.spin.By? {
      SpinnerMoves(s, s.spin.p);
    } else if s.ptable.By? {
      PtableMoves(s, s.ptable.p);
    } else if s.pcs[p] == Want || s.pcs[p] == Rel {
      Moves(s, Spin(p));
    } else if s.pcs[p] == Hold {
      Moves(s, Release(p));
    } else {
      var q := s.pid.p;
      Moves(s, if s.pcs[q] == Hold then Release(q) else Spin(q));
    }
  }

  /** The two spin locks are held by processes of the table, if by processes at all. */
  lemma {:induction false} LocksNamed(ss: seq<State>, ts: seq<Step>, n: nat)
    requires IsRun(ss, ts) && Start(ss[0]) && n <= |ts|
    ensures var s := ss[n]; (s.spin.By? ==> s.spin.p < |s.pcs|) && (s.ptable.By? ==> s.ptable.p < |s.pcs|) && s.spin != Env
  {
    if n > 0 {
      LocksNamed(ss, ts, n - 1);
      assert ss[n] == Next(ss[n - 1], ts[n - 1]);
    }
  }
}
