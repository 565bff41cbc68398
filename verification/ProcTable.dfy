/** The process table of proc.c: what exit, wait, wakeup, kill and allocproc do to it, and
    over every interleaving of them that no exited child and no wakeup is lost. */
module ProcTable {
  import Sched

  const NPROC: nat := Sched.NPROC

  type ProcState = Sched.ProcState
  datatype Ref = Null | At(i: nat)
  /** A channel is the address of a process structure or of something else. */
  datatype Chan = NoChan | OnProc(i: nat) | OnOther(a: nat)
  datatype Proc = Proc(state: ProcState, pid: int, parent: Ref, chan: Chan, killed: bool, priority: int)

  function ChanOf(r: Ref): Chan {
    match r
    case Null => NoChan
    case At(i) => OnProc(i)
  }

  predicate Alive(p: Proc) { p.state == Sched.Sleeping || p.state == Sched.Runnable || p.state == Sched.Running }

  predicate SleepsOn(p: Proc, c: Chan) { p.state == Sched.Sleeping && p.chan == c }

  // ---------------------------------------------------------------- what the operations do

  function Woken(p: Proc, c: Chan): Proc { if SleepsOn(p, c) then p.(state := Sched.Runnable) else p }

  /** wakeup1. */
  function Wake(tab: seq<Proc>, c: Chan): (t: seq<Proc>)
    ensures |t| == |tab| && forall i :: 0 <= i < |tab| ==> t[i] == Woken(tab[i], c)
  {
    seq(|tab|, i requires 0 <= i < |tab| => Woken(tab[i], c))
  }

  /** The children of cur, in the slots below n, are given to init. */
  function Adopt(tab: seq<Proc>, cur: nat, init: nat, n: nat): (t: seq<Proc>)
    ensures |t| == |tab|
    ensures forall i :: 0 <= i < |tab| ==> t[i] == if i < n && tab[i].parent == At(cur) then tab[i].(parent := At(init)) else tab[i]
  {
    seq(|tab|, i requires 0 <= i < |tab| => if i < n && tab[i].parent == At(cur) then tab[i].(parent := At(init)) else tab[i])
  }

  /** Some slot below n is an exited child of p. */
  ghost predicate HasZombie(tab: seq<Proc>, p: nat, n: nat) {
    exists i :: 0 <= i < n && i < |tab| && tab[i].parent == At(p) && tab[i].state == Sched.Zombie
  }

  ghost predicate HasChild(tab: seq<Proc>, p: nat, n: nat) {
    exists i :: 0 <= i < n && i < |tab| && tab[i].parent == At(p)
  }

  /** exit's changes below slot n, before the exiting process itself becomes a zombie. */
  ghost function Leave(tab: seq<Proc>, cur: nat, init: nat, n: nat): (t: seq<Proc>)
    requires cur < |tab|
  {
    var woken := Wake(tab, ChanOf(tab[cur].parent));
    var adopted := Adopt(woken, cur, init, n);
    if HasZombie(woken, cur, n) then Wake(adopted, OnProc(init)) else adopted
  }

  ghost function Exited(tab: seq<Proc>, cur: nat, init: nat): (t: seq<Proc>)
    requires cur < |tab|
  {
    var t := Leave(tab, cur, init, |tab|);
    assert |t| == |tab|;
    t[cur := t[cur].(state := Sched.Zombie)]
  }

  function Reaped(p: Proc): Proc { p.(state := Sched.Unused, pid := 0, parent := Null, killed := false) }

  function Asleep(p: Proc, c: Chan): Proc { p.(state := Sched.Sleeping, chan := c) }

  function Embryo(p: Proc, pid: int): Proc { p.(state := Sched.Embryo, pid := pid, priority := 1) }

  function Killed(p: Proc): Proc {
    p.(killed := true, state := if p.state == Sched.Sleeping then Sched.Runnable else p.state)
  }

  /** How one turn of wait's loop ends: a reaped child's pid, -1, or going to sleep. */
  datatype WaitResult = Child(pid: int) | NoChild | Slept

  class Ptable {
    var tab: seq<Proc>
    var nextpid: int
    const init: nat

    constructor (tab: seq<Proc>, nextpid: int, init: nat)
      ensures this.tab == tab && this.nextpid == nextpid && this.init == init
    {
      this.tab, this.nextpid, this.init := tab, nextpid, init;
    }

    /** wakeup1: exactly the processes asleep on c become runnable. */
    method Wakeup1(c: Chan)
      modifies this`tab
      ensures tab == Wake(old(tab), c)
    {
      var p := 0;
      while p < |tab|
        invariant p <= |tab| == |old(tab)|
        invariant forall i :: 0 <= i < |tab| ==> tab[i] == if i < p then Woken(old(tab)[i], c) else old(tab)[i]
      {
        if tab[p].state == Sched.Sleeping && tab[p].chan == c {
          tab := tab[p := tab[p].(state := Sched.Runnable)];
        }
        p := p + 1;
      }
    }

    /** One turn of the loop of exit over the abandoned children. */
    method AbandonStep(cur: nat, p: nat, ghost tab0: seq<Proc>)
      requires cur < |tab0| == |tab| && p < |tab| && tab == Leave(tab0, cur, init, p) && init != cur
      modifies this`tab
      ensures tab == Leave(tab0, cur, init, p + 1)
    {
      ghost var woken := Wake(tab0, ChanOf(tab0[cur].parent));
      assert tab[p].parent == woken[p].parent && (tab[p].state == Sched.Zombie <==> woken[p].state == Sched.Zombie);
      if tab[p].parent == At(cur) {
        tab := tab[p := tab[p].(parent := At(init))];
        assert tab == Wake(Adopt(woken, cur, init, p + 1), OnProc(init)) || tab == Adopt(woken, cur, init, p + 1);
        if tab[p].state == Sched.Zombie {
          Wakeup1(OnProc(init));
        }
      }
      ZombieNext(woken, cur, p);
      WakeTwice(Adopt(woken, cur, init, p + 1), OnProc(init));
    }

    /** exit, from taking the table lock on. */
    method Exit(cur: nat)
      requires cur < |tab| && cur != init
      modifies this`tab
      ensures tab == Exited(old(tab), cur, init)
    {
      Wakeup1(ChanOf(tab[cur].parent));
      ghost var tab0 := old(tab);
      assert tab == Leave(tab0, cur, init, 0) by {
        assert tab == Adopt(Wake(tab0, ChanOf(tab0[cur].parent)), cur, init, 0);
      }
      var p := 0;
      while p < |tab|
        invariant p <= |tab| == |tab0| && tab == Leave(tab0, cur, init, p)
      {
        AbandonStep(cur, p, tab0);
        p := p + 1;
      }
      tab := tab[cur := tab[cur].(state := Sched.Zombie)];
    }

    /** One turn of wait's loop: the first exited child is reaped if there is one; otherwise
        the caller sleeps, unless it has no child or was killed. */
    method WaitTurn(cur: nat) returns (r: WaitResult, ghost k: nat)
      requires cur < |tab|
      modifies this`tab
      ensures r.Child? <==> HasZombie(old(tab), cur, |old(tab)|)
      ensures r.Child? ==> k < |old(tab)| && !HasZombie(old(tab), cur, k) && HasZombie(old(tab), cur, k + 1)
      ensures r.Child? ==> r.pid == old(tab)[k].pid && tab == old(tab)[k := Reaped(old(tab)[k])]
      ensures r.NoChild? ==> tab == old(tab) && (!HasChild(tab, cur, |tab|) || tab[cur].killed)
      ensures r.Slept? ==> HasChild(old(tab), cur, |tab|) && !old(tab)[cur].killed
      ensures r.Slept? ==> tab == old(tab)[cur := Asleep(old(tab)[cur], OnProc(cur))]
    {
      var havekids, p := false, 0;
      k := 0;
      while p < |tab|
        invariant p <= |tab| && tab == old(tab)
        invariant havekids <==> HasChild(tab, cur, p)
        invariant !HasZombie(tab, cur, p)
      {
        ZombieNext(tab, cur, p);
        if tab[p].parent == At(cur) {
          havekids := true;
          if tab[p].state == Sched.Zombie {
            r, k := Child(tab[p].pid), p;
            tab := tab[p := Reaped(tab[p])];
            return;
          }
        }
        p := p + 1;
      }
      if !havekids || tab[cur].killed {
        return NoChild, 0;
      }
      tab := tab[cur := Asleep(tab[cur], OnProc(cur))];
      r := Slept;
    }

    /** The table scan of allocproc: the first unused slot, if any, becomes an embryo. */
    method Allocproc() returns (k: nat, ok: bool)
      modifies this
      ensures ok <==> exists i :: 0 <= i < |old(tab)| && old(tab)[i].state == Sched.Unused
      ensures ok ==> k < |old(tab)| && old(tab)[k].state == Sched.Unused && forall i :: 0 <= i < k ==> old(tab)[i].state != Sched.Unused
      ensures ok ==> tab == old(tab)[k := Embryo(old(tab)[k], old(nextpid))] && nextpid == old(nextpid) + 1
      ensures !ok ==> tab == old(tab) && nextpid == old(nextpid)
    {
      k := 0;
      while k < |tab|
        invariant k <= |tab| && tab == old(tab) && nextpid == old(nextpid)
        invariant forall i :: 0 <= i < k ==> tab[i].state != Sched.Unused
      {
        if tab[k].state == Sched.Unused {
          tab := tab[k := Embryo(tab[k], nextpid)];
          nextpid := nextpid + 1;
          return k, true;
        }
        k := k + 1;
      }
      ok := false;
    }

    /** kill: the first slot with the pid is marked, and its process is no longer asleep. */
    method Kill(pid: int) returns (ok: bool, ghost k: nat)
      modifies this`tab
      ensures ok <==> exists i :: 0 <= i < |old(tab)| && old(tab)[i].pid == pid
      ensures ok ==> k < |old(tab)| && old(tab)[k].pid == pid && tab == old(tab)[k := Killed(old(tab)[k])]
      ensures ok ==> forall i :: 0 <= i < k ==> old(tab)[i].pid != pid
      ensures !ok ==> tab == old(tab)
    {
      var p := 0;
      while p < |tab|
        invariant p <= |tab| && tab == old(tab)
        invariant forall i :: 0 <= i < p ==> tab[i].pid != pid
      {
        if tab[p].pid == pid {
          k := p;
          tab := tab[p := tab[p].(killed := true)];
          if tab[p].state == Sched.Sleeping {
            tab := tab[p := tab[p].(state := Sched.Runnable)];
          }
          return true, k;
        }
        p := p + 1;
      }
      return false, 0;
    }
  }

  lemma ZombieNext(tab: seq<Proc>, p: nat, n: nat)
    requires n < |tab|
    ensures HasZombie(tab, p, n + 1) <==> HasZombie(tab, p, n) || (tab[n].parent == At(p) && tab[n].state == Sched.Zombie)
    ensures HasChild(tab, p, n + 1) <==> HasChild(tab, p, n) || tab[n].parent == At(p)
  {
  }

  lemma WakeTwice(tab: seq<Proc>, c: Chan)
    ensures Wake(Wake(tab, c), c) == Wake(tab, c)
  {
  }

  // ---------------------------------------------------------------- the machine

  /** What a process is in the middle of: fork with an embryo in slot k, before or after the
      embryo is given its parent; wait; or nothing that matters here. */
  datatype Ctl = Plain | Forking(k: nat) | Linked(k: nat) | InWait

  datatype State = State(tab: seq<Proc>, ctl: seq<Ctl>)

  datatype Step =
    | Alloc(p: nat, k: nat, pid: int)
    | Unalloc(p: nat)
    | Link(p: nat)
    | Start(p: nat)
    | Exit(p: nat)
    | Reap(p: nat, k: nat)
    | WaitNone(p: nat)
    | WaitSleep(p: nat)
    | Sleep(p: nat, a: nat)
    | Tidy(p: nat)
    | Wakeup(a: nat)
    | Kill(k: nat)
    | SetTickets(p: nat, n: int)
    | Yield(p: nat)
    | Dispatch(p: nat)

  predicate Runs(s: State, p: nat) {
    p < |s.tab| == |s.ctl| && s.tab[p].state == Sched.Running && s.tab[p].chan == NoChan
  }

  ghost predicate Enabled(s: State, t: Step, init: nat) {
    match t
    case Alloc(p, k, _) =>
      && Runs(s, p) && s.ctl[p] == Plain && k < |s.tab| && s.tab[k].state == Sched.Unused
      && forall j: nat :: j < k ==> s.tab[j].state != Sched.Unused
    case Unalloc(p) => Runs(s, p) && s.ctl[p].Forking? && s.ctl[p].k < |s.tab|
    case Link(p) => Runs(s, p) && s.ctl[p].Forking? && s.ctl[p].k < |s.tab|
    case Start(p) => Runs(s, p) && s.ctl[p].Linked? && s.ctl[p].k < |s.tab|
    case Exit(p) => Runs(s, p) && s.ctl[p] == Plain && p != init
    case Reap(p, k) =>
      && Runs(s, p) && (s.ctl[p] == Plain || s.ctl[p] == InWait)
      && k < |s.tab| && s.tab[k].parent == At(p) && s.tab[k].state == Sched.Zombie && !HasZombie(s.tab, p, k)
    case WaitNone(p) =>
      && Runs(s, p) && (s.ctl[p] == Plain || s.ctl[p] == InWait) && !HasZombie(s.tab, p, |s.tab|)
      && (!HasChild(s.tab, p, |s.tab|) || s.tab[p].killed)
    case WaitSleep(p) =>
      && Runs(s, p) && (s.ctl[p] == Plain || s.ctl[p] == InWait) && !HasZombie(s.tab, p, |s.tab|)
      && HasChild(s.tab, p, |s.tab|) && !s.tab[p].killed
    case Sleep(p, _) => Runs(s, p) && s.ctl[p] == Plain
    case Tidy(p) => p < |s.tab| && s.tab[p].state == Sched.Running
    case Wakeup(_) => true
    case Kill(k) => k < |s.tab|
    case SetTickets(p, n) => Runs(s, p) && 0 <= n <= 1
    case Yield(p) => Runs(s, p)
    case Dispatch(p) => p < |s.tab| && s.tab[p].state == Sched.Runnable
  }

  ghost function Next(s: State, t: Step, init: nat): (s': State)
    requires Enabled(s, t, init)
  {
    var tab, ctl := s.tab, s.ctl;
    match t
    case Alloc(p, k, pid) => State(tab[k := Embryo(tab[k], pid)], ctl[p := Forking(k)])
    case Unalloc(p) => State(tab[ctl[p].k := tab[ctl[p].k].(state := Sched.Unused)], ctl[p := Plain])
    case Link(p) => State(tab[ctl[p].k := tab[ctl[p].k].(parent := At(p), priority := tab[p].priority)], ctl[p := Linked(ctl[p].k)])
    case Start(p) => State(tab[ctl[p].k := tab[ctl[p].k].(state := Sched.Runnable)], ctl[p := Plain])
    case Exit(p) => s.(tab := Exited(tab, p, init))
    case Reap(p, k) => State(tab[k := Reaped(tab[k])], ctl[p := Plain])
    case WaitNone(p) => s.(ctl := ctl[p := Plain])
    case WaitSleep(p) => State(tab[p := Asleep(tab[p], OnProc(p))], ctl[p := InWait])
    case Sleep(p, a) => s.(tab := tab[p := Asleep(tab[p], OnOther(a))])
    case Tidy(p) => s.(tab := tab[p := tab[p].(chan := NoChan)])
    case Wakeup(a) => s.(tab := Wake(tab, OnOther(a)))
    case Kill(k) => s.(tab := tab[k := Killed(tab[k])])
    case SetTickets(p, n) => s.(tab := tab[p := tab[p].(priority := n)])
    case Yield(p) => s.(tab := tab[p := tab[p].(state := Sched.Runnable)])
    case Dispatch(p) => s.(tab := tab[p := tab[p].(state := Sched.Running)])
  }

  // ---------------------------------------------------------------- the invariant

  /** Every parent is alive, and no process is its own parent. */
  ghost predicate ParentsOk(tab: seq<Proc>) {
    forall i {:trigger tab[i].parent} :: 0 <= i < |tab| && tab[i].parent.At? ==>
      tab[i].parent.i < |tab| && tab[i].parent.i != i && Alive(tab[tab[i].parent.i])
  }

  /** Nobody sleeps in wait while it has an exited child. */
  ghost predicate WaitersOk(tab: seq<Proc>) {
    forall i {:trigger tab[i].chan} :: 0 <= i < |tab| && tab[i].state == Sched.Sleeping && tab[i].chan.OnProc? ==>
      tab[i].chan == OnProc(i) && !HasZombie(tab, i, |tab|)
  }

  ghost predicate UnusedOk(tab: seq<Proc>) {
    forall i :: 0 <= i < |tab| && tab[i].state == Sched.Unused ==> tab[i].parent == Null
  }

  function Kid(c: Ctl): int {
    match c
    case Forking(k) => k
    case Linked(k) => k
    case _ => -1
  }

  /** An embryo under way belongs to one process, which is alive. */
  ghost predicate CtlOk(tab: seq<Proc>, ctl: seq<Ctl>) {
    && |ctl| == |tab|
    && (forall p {:trigger ctl[p]} :: 0 <= p < |ctl| && ctl[p] != Plain ==> Alive(tab[p]))
    && (forall p {:trigger ctl[p]} :: 0 <= p < |ctl| && Kid(ctl[p]) >= 0 ==>
      && Kid(ctl[p]) < |tab| && tab[Kid(ctl[p])].state == Sched.Embryo
      && tab[Kid(ctl[p])].parent == if ctl[p].Forking? then Null else At(p))
    && (forall p, q {:trigger ctl[p], ctl[q]} :: 0 <= p < |ctl| && 0 <= q < |ctl| && p != q && Kid(ctl[p]) >= 0 ==> Kid(ctl[p]) != Kid(ctl[q]))
  }

  ghost predicate Inv(s: State, init: nat) {
    && CtlOk(s.tab, s.ctl) && ParentsOk(s.tab) && WaitersOk(s.tab) && UnusedOk(s.tab)
    && init < |s.tab| && Alive(s.tab[init]) && s.tab[init].parent == Null
  }

  /** Only who runs, waits or is runnable may differ; sleepers in wait are old ones or
      have no exited child. */
  ghost predicate Calm(t0: seq<Proc>, t1: seq<Proc>) {
    && |t1| == |t0|
    && (forall i {:trigger t1[i]} :: 0 <= i < |t0| ==>
      t1[i].parent == t0[i].parent && (t1[i].state == t0[i].state || (Alive(t0[i]) && Alive(t1[i]))))
    && (forall i {:trigger t1[i].chan} :: 0 <= i < |t0| && t1[i].state == Sched.Sleeping && t1[i].chan.OnProc? ==>
      t1[i] == t0[i] || (t1[i].chan == OnProc(i) && !HasZombie(t0, i, |t0|)))
  }

  lemma CalmKeeps(t0: seq<Proc>, t1: seq<Proc>, ctl: seq<Ctl>)
    requires Calm(t0, t1) && CtlOk(t0, ctl) && ParentsOk(t0) && WaitersOk(t0) && UnusedOk(t0)
    ensures CtlOk(t1, ctl) && ParentsOk(t1) && WaitersOk(t1) && UnusedOk(t1)
  {
  }

  /** Leaving fork or wait, or entering wait, frees or takes no embryo. */
  lemma CtlKeeps(tab: seq<Proc>, ctl: seq<Ctl>, p: nat, c: Ctl)
    requires CtlOk(tab, ctl) && p < |tab| && Alive(tab[p]) && (c == Plain || c == InWait)
    ensures CtlOk(tab, ctl[p := c])
  {
  }

  /** No step of fork makes an exited child. */
  lemma ForkZombies(s: State, t: Step, init: nat)
    requires Inv(s, init) && Enabled(s, t, init) && (t.Alloc? || t.Unalloc? || t.Link? || t.Start?)
    ensures |Next(s, t, init).tab| == |s.tab|
    ensures forall p: nat :: HasZombie(Next(s, t, init).tab, p, |s.tab|) ==> HasZombie(s.tab, p, |s.tab|)
  {
  }

  lemma AllocKeeps(s: State, t: Step, init: nat)
    requires Inv(s, init) && Enabled(s, t, init) && t.Alloc?
    ensures Inv(Next(s, t, init), init)
  {
    hide HasZombie;
    ForkZombies(s, t, init);
  }

  lemma UnallocKeeps(s: State, t: Step, init: nat)
    requires Inv(s, init) && Enabled(s, t, init) && t.Unalloc?
    ensures Inv(Next(s, t, init), init)
  {
    hide HasZombie;
    ForkZombies(s, t, init);
  }

  lemma LinkKeeps(s: State, t: Step, init: nat)
    requires Inv(s, init) && Enabled(s, t, init) && t.Link?
    ensures Inv(Next(s, t, init), init)
  {
    hide HasZombie;
    ForkZombies(s, t, init);
  }

  lemma StartKeeps(s: State, t: Step, init: nat)
    requires Inv(s, init) && Enabled(s, t, init) && t.Start?
    ensures Inv(Next(s, t, init), init)
  {
    hide HasZombie;
    ForkZombies(s, t, init);
  }

  lemma ReapKeeps(s: State, p: nat, k: nat, init: nat)
    requires Inv(s, init) && Enabled(s, Step.Reap(p, k), init)
    ensures Inv(Next(s, Step.Reap(p, k), init), init)
  {
    var s' := Next(s, Step.Reap(p, k), init);
    forall q: nat ensures HasZombie(s'.tab, q, |s'.tab|) ==> HasZombie(s.tab, q, |s.tab|) {
      if HasZombie(s'.tab, q, |s'.tab|) {
        var i :| 0 <= i < |s'.tab| && s'.tab[i].parent == At(q) && s'.tab[i].state == Sched.Zombie;
        assert s.tab[i].parent == At(q) && s.tab[i].state == Sched.Zombie;
      }
    }
  }

  /** What exit does to each slot. */
  lemma ExitedSlots(tab: seq<Proc>, cur: nat, init: nat)
    requires cur < |tab|
    ensures |Exited(tab, cur, init)| == |tab|
    ensures forall i {:trigger Exited(tab, cur, init)[i]} :: 0 <= i < |tab| ==>
              var p := Exited(tab, cur, init)[i];
              && p.parent == (if tab[i].parent == At(cur) then At(init) else tab[i].parent)
              && p.chan == tab[i].chan
              && (if i == cur then p.state == Sched.Zombie
                 else p.state == tab[i].state || (tab[i].state == Sched.Sleeping && p.state == Sched.Runnable))
    ensures forall i {:trigger tab[i]} :: 0 <= i < |tab| && i != cur && SleepsOn(tab[i], ChanOf(tab[cur].parent)) ==>
              Exited(tab, cur, init)[i].state == Sched.Runnable
    ensures HasZombie(tab, cur, |tab|) && init < |tab| && init != cur && SleepsOn(tab[init], OnProc(init)) ==>
              Exited(tab, cur, init)[init].state == Sched.Runnable
  {
  }

  lemma ExitKeeps(s: State, p: nat, init: nat)
    requires Inv(s, init) && Enabled(s, Step.Exit(p), init)
    ensures Inv(Next(s, Step.Exit(p), init), init)
  {
    hide Exited, HasZombie;
    var tab, tab' := s.tab, Exited(s.tab, p, init);
    ExitedSlots(tab, p, init);
    ExitWaiters(s, p, init);
    hide WaitersOk;
    assert forall i :: 0 <= i < |tab| && i != p ==> Alive(tab'[i]) == Alive(tab[i]);
  }

  lemma ExitWaiters(s: State, p: nat, init: nat)
    requires Inv(s, init) && Enabled(s, Step.Exit(p), init)
    ensures WaitersOk(Exited(s.tab, p, init))
  {
    hide Exited, CtlOk, UnusedOk;
    var tab, tab' := s.tab, Exited(s.tab, p, init);
    ExitedSlots(tab, p, init);
    forall i | 0 <= i < |tab| && tab'[i].state == Sched.Sleeping && tab'[i].chan.OnProc?
      ensures tab'[i].chan == OnProc(i) && !HasZombie(tab', i, |tab|)
    {
      assert tab[i].chan == OnProc(i) && !HasZombie(tab, i, |tab|);
      forall k | 0 <= k < |tab| && tab'[k].parent == At(i) ensures tab'[k].state != Sched.Zombie {
        ExitNoZombie(tab, p, init, i, k);
      }
    }
  }

  /** A process still asleep in wait after an exit has no exited child. */
  lemma ExitNoZombie(tab: seq<Proc>, p: nat, init: nat, i: nat, k: nat)
    requires p < |tab| && i < |tab| && k < |tab| && init != p && ParentsOk(tab)
    requires SleepsOn(tab[i], OnProc(i)) && !HasZombie(tab, i, |tab|) && |Exited(tab, p, init)| == |tab|
    requires SleepsOn(Exited(tab, p, init)[i], OnProc(i)) && Exited(tab, p, init)[k].parent == At(i)
    ensures Exited(tab, p, init)[k].state != Sched.Zombie
  {
    hide Exited;
    ExitedSlots(tab, p, init);
    assert HasZombie(tab, p, |tab|) || tab[k].parent != At(p) || tab[k].state != Sched.Zombie;
  }

  lemma WaitKeeps(s: State, t: Step, init: nat)
    requires Inv(s, init) && Enabled(s, t, init) && (t.WaitNone? || t.WaitSleep?)
    ensures Inv(Next(s, t, init), init)
  {
    hide CtlOk, ParentsOk, WaitersOk, UnusedOk;
    if t.WaitNone? {
      CtlKeeps(s.tab, s.ctl, t.p, Plain);
    } else {
      CalmKeeps(s.tab, Next(s, t, init).tab, s.ctl);
      CtlKeeps(Next(s, t, init).tab, s.ctl, t.p, InWait);
    }
  }

  /** Steps that only make processes run, sleep outside wait, wake or change otherwise. */
  lemma QuietKeeps(s: State, t: Step, init: nat)
    requires Inv(s, init) && Enabled(s, t, init)
    requires t.Sleep? || t.Tidy? || t.Wakeup? || t.Kill? || t.SetTickets? || t.Yield? || t.Dispatch?
    ensures Inv(Next(s, t, init), init)
  {
    hide CtlOk, ParentsOk, WaitersOk, UnusedOk, HasZombie;
    CalmKeeps(s.tab, Next(s, t, init).tab, s.ctl);
  }

  lemma StepKeeps(s: State, t: Step, init: nat)
    requires Inv(s, init) && Enabled(s, t, init)
    ensures Inv(Next(s, t, init), init)
  {
    hide Inv, Next, Enabled;
    match t
    case Exit(p) => ExitKeeps(s, p, init);
    case Reap(p, k) => ReapKeeps(s, p, k, init);
    case WaitNone(_) => WaitKeeps(s, t, init);
    case WaitSleep(_) => WaitKeeps(s, t, init);
    case Alloc(_, _, _) => AllocKeeps(s, t, init);
    case Unalloc(_) => UnallocKeeps(s, t, init);
    case Link(_) => LinkKeeps(s, t, init);
    case Start(_) => StartKeeps(s, t, init);
    case _ => QuietKeeps(s, t, init);
  }

  // ---------------------------------------------------------------- nobody is orphaned

  /** Every process but init that has started has a parent, also after it exited. */
  ghost predicate Parented(tab: seq<Proc>, init: nat) {
    forall i {:trigger tab[i].parent} :: 0 <= i < |tab| && i != init && (Alive(tab[i]) || tab[i].state == Sched.Zombie) ==>
      tab[i].parent.At?
  }

  /** Every embryo is the work of a fork under way. */
  ghost predicate EmbryosOk(tab: seq<Proc>, ctl: seq<Ctl>) {
    forall i :: 0 <= i < |tab| && tab[i].state == Sched.Embryo ==> exists p :: 0 <= p < |ctl| && Kid(ctl[p]) == i
  }

  ghost predicate Settled(s: State, init: nat) { Parented(s.tab, init) && EmbryosOk(s.tab, s.ctl) }

  /** A step of p that leaves no embryo behind. */
  lemma EmbryosNext(t0: seq<Proc>, c0: seq<Ctl>, t1: seq<Proc>, c1: seq<Ctl>, p: nat)
    requires EmbryosOk(t0, c0) && |t1| == |t0| && |c1| == |c0| && p < |c0|
    requires forall i {:trigger t1[i]} :: 0 <= i < |t1| && t1[i].state == Sched.Embryo ==>
               Kid(c1[p]) == i || (t0[i].state == Sched.Embryo && Kid(c0[p]) != i)
    requires forall q :: 0 <= q < |c0| && q != p ==> c1[q] == c0[q]
    ensures EmbryosOk(t1, c1)
  {
    forall i | 0 <= i < |t1| && t1[i].state == Sched.Embryo ensures exists q :: 0 <= q < |c1| && Kid(c1[q]) == i {
      if Kid(c1[p]) != i {
        var q :| 0 <= q < |c0| && Kid(c0[q]) == i;
        assert q != p && Kid(c1[q]) == i;
      }
    }
  }

  /** The process that takes the step, if it changes what that process is in the middle of. */
  function Mover(t: Step): nat {
    match t
    case Alloc(p, _, _) => p
    case Unalloc(p) => p
    case Link(p) => p
    case Start(p) => p
    case Reap(p, _) => p
    case WaitNone(p) => p
    case WaitSleep(p) => p
    case _ => 0
  }

  lemma StepParents(s: State, t: Step, init: nat)
    requires Inv(s, init) && Parented(s.tab, init) && Enabled(s, t, init)
    ensures Parented(Next(s, t, init).tab, init)
  {
    hide WaitersOk, HasZombie, HasChild, Exited;
    if t.Exit? {
      ExitedSlots(s.tab, t.p, init);
    }
  }

  lemma StepEmbryos(s: State, t: Step, init: nat)
    requires Inv(s, init) && EmbryosOk(s.tab, s.ctl) && Enabled(s, t, init)
    ensures var s' := Next(s, t, init); EmbryosOk(s'.tab, s'.ctl)
  {
    hide WaitersOk, ParentsOk, HasZombie, HasChild, Exited, EmbryosOk;
    if t.Exit? {
      ExitedSlots(s.tab, t.p, init);
    }
    EmbryosNext(s.tab, s.ctl, Next(s, t, init).tab, Next(s, t, init).ctl, Mover(t));
  }

  ghost predicate IsRun(ss: seq<State>, ts: seq<Step>, init: nat) {
    && |ss| == |ts| + 1
    && forall i :: 0 <= i < |ts| ==> Enabled(ss[i], ts[i], init) && ss[i + 1] == Next(ss[i], ts[i], init)
  }

  /** After userinit: one process, without a parent, and every other slot unused. */
  ghost predicate Start0(s: State, init: nat) {
    && |s.tab| == |s.ctl| == NPROC && init < NPROC && s.tab[init].state == Sched.Runnable
    && (forall i :: 0 <= i < NPROC ==> s.tab[i].parent == Null && s.ctl[i] == Plain)
    && (forall i :: 0 <= i < NPROC && i != init ==> s.tab[i].state == Sched.Unused)
  }

  lemma {:induction false} RunKeeps(ss: seq<State>, ts: seq<Step>, init: nat, n: nat)
    requires IsRun(ss, ts, init) && Start0(ss[0], init) && n <= |ts|
    ensures Inv(ss[n], init) && Settled(ss[n], init)
  {
    if n > 0 {
      RunKeeps(ss, ts, init, n - 1);
      StepParents(ss[n - 1], ts[n - 1], init);
      StepEmbryos(ss[n - 1], ts[n - 1], init);
      StepKeeps(ss[n - 1], ts[n - 1], init);
    }
  }

  /** In every state of every run: a parent is neither unused nor exited; every exited
      process has a parent, which can reap it; and no process sleeps in wait while one of
      its children has exited. */
  lemma NoLostChild(ss: seq<State>, ts: seq<Step>, init: nat, n: nat, i: nat)
    requires IsRun(ss, ts, init) && Start0(ss[0], init) && n <= |ts| && i < |ss[n].tab|
    ensures var tab := ss[n].tab;
            && (tab[i].parent.At? ==> tab[i].parent.i < |tab| && tab[tab[i].parent.i].state !in {Sched.Unused, Sched.Embryo, Sched.Zombie})
            && (tab[i].state == Sched.Zombie ==> tab[i].parent.At? && !SleepsOn(tab[tab[i].parent.i], OnProc(tab[i].parent.i)))
            && (tab[i].state !in {Sched.Unused, Sched.Embryo} && i != init ==> tab[i].parent.At?)
            && (SleepsOn(tab[i], OnProc(i)) ==> forall k :: 0 <= k < |tab| && tab[k].parent == At(i) ==> tab[k].state != Sched.Zombie)
  {
    RunKeeps(ss, ts, init, n);
    var tab := ss[n].tab;
    forall p, k | 0 <= p < |tab| && 0 <= k < |tab| && tab[k].parent == At(p) && SleepsOn(tab[p], OnProc(p))
      ensures tab[k].state != Sched.Zombie
    {
      assert !HasZombie(tab, p, |tab|);
    }
  }

  // ---------------------------------------------------------------- from fork to wait

  /** A running process that calls wait, or goes around its loop, with an exited child reaps
      one and does nothing else: the first in the table. */
  lemma ZombieReaped(s: State, p: nat, i: nat, init: nat) returns (k: nat)
    requires Runs(s, p) && (s.ctl[p] == Plain || s.ctl[p] == InWait)
    requires i < |s.tab| && s.tab[i].parent == At(p) && s.tab[i].state == Sched.Zombie
    ensures k <= i && Enabled(s, Step.Reap(p, k), init) && Next(s, Step.Reap(p, k), init).tab[k].state == Sched.Unused
    ensures !Enabled(s, WaitNone(p), init) && !Enabled(s, WaitSleep(p), init)
  {
    k := 0;
    while !(s.tab[k].parent == At(p) && s.tab[k].state == Sched.Zombie)
      invariant k <= i && !HasZombie(s.tab, p, k)
      decreases i - k
    {
      ZombieNext(s.tab, p, k);
      k := k + 1;
    }
  }

  /** A fork by p that succeeds: the child in slot k is runnable, has p as its parent, the new pid and p's priority; it is marked
      killed only if the slot was; and nothing else has changed. */
  lemma ForkMakesChild(s: State, p: nat, k: nat, pid: int, init: nat)
    requires Enabled(s, Alloc(p, k, pid), init) && p != k
    ensures var s1 := Next(s, Alloc(p, k, pid), init);
            && Enabled(s1, Link(p), init)
            && var s2 := Next(s1, Link(p), init);
               && Enabled(s2, Step.Start(p), init)
               && Next(s2, Step.Start(p), init) ==
                  s.(tab := s.tab[k := s.tab[k].(state := Sched.Runnable, pid := pid, parent := At(p), priority := s.tab[p].priority)])
  {
    var s1 := Next(s, Alloc(p, k, pid), init);
    var s2 := Next(s1, Link(p), init);
    var s3 := Next(s2, Step.Start(p), init);
    assert s3.ctl == s.ctl;
    assert s3.tab == s.tab[k := s.tab[k].(state := Sched.Runnable, pid := pid, parent := At(p), priority := s.tab[p].priority)];
  }

  /** No slot that is free for a new process is marked killed. */
  ghost predicate Unmarked(tab: seq<Proc>) {
    forall i :: 0 <= i < |tab| && tab[i].state == Sched.Unused ==> !tab[i].killed
  }

  /** kill finds its pid in an unused slot, or fork gives up an embryo that kill has found. */
  predicate MarksUnused(s: State, t: Step)
    requires t.Kill? ==> t.k < |s.tab|
    requires t.Unalloc? ==> t.p < |s.ctl| && (s.ctl[t.p].Forking? ==> s.ctl[t.p].k < |s.tab|)
  {
    || (t.Kill? && s.tab[t.k].state == Sched.Unused)
    || (t.Unalloc? && s.ctl[t.p].Forking? && s.tab[s.ctl[t.p].k].killed)
  }

  lemma StepUnmarked(s: State, t: Step, init: nat)
    requires Inv(s, init) && Enabled(s, t, init) && Unmarked(s.tab)
    ensures Unmarked(Next(s, t, init).tab) <==> !MarksUnused(s, t)
  {
    hide WaitersOk, ParentsOk, HasZombie, HasChild, Exited;
    if t.Exit? {
      ExitedSlots(s.tab, t.p, init);
      ExitedMarks(s.tab, t.p, init);
    }
    var tab := Next(s, t, init).tab;
    if t.Kill? {
      assert tab[t.k].killed;
    }
    if t.Unalloc? {
      assert tab[s.ctl[t.p].k].state == Sched.Unused && tab[s.ctl[t.p].k].killed == s.tab[s.ctl[t.p].k].killed;
    }
  }

  /** exit marks nobody. */
  lemma ExitedMarks(tab: seq<Proc>, cur: nat, init: nat)
    requires cur < |tab|
    ensures forall i :: 0 <= i < |tab| ==> Exited(tab, cur, init)[i].killed == tab[i].killed
  {
  }

  /** A new process never starts out killed, in every run, if and only if kill is never called
      with the pid found in an unused slot, 0 for one, or of a process whose fork then fails. */
  lemma UnmarkedIff(ss: seq<State>, ts: seq<Step>, init: nat)
    requires IsRun(ss, ts, init) && Start0(ss[0], init) && Unmarked(ss[0].tab)
    ensures (forall n :: 0 <= n <= |ts| ==> Unmarked(ss[n].tab)) <==> forall n :: 0 <= n < |ts| ==> !MarksUnused(ss[n], ts[n])
  {
    hide Inv, Next, MarksUnused, Unmarked;
    if forall n :: 0 <= n <= |ts| ==> Unmarked(ss[n].tab) {
      forall n | 0 <= n < |ts| ensures !MarksUnused(ss[n], ts[n]) {
        RunKeeps(ss, ts, init, n);
        assert Unmarked(ss[n].tab) && Unmarked(ss[n + 1].tab);
        StepUnmarked(ss[n], ts[n], init);
      }
    }
    if forall n :: 0 <= n < |ts| ==> !MarksUnused(ss[n], ts[n]) {
      forall n | 0 <= n <= |ts| ensures Unmarked(ss[n].tab) {
        UnmarkedUpTo(ss, ts, init, n);
      }
    }
  }

  lemma {:induction false} UnmarkedUpTo(ss: seq<State>, ts: seq<Step>, init: nat, n: nat)
    requires IsRun(ss, ts, init) && Start0(ss[0], init) && Unmarked(ss[0].tab) && n <= |ts|
    requires forall m :: 0 <= m < |ts| ==> !MarksUnused(ss[m], ts[m])
    ensures Unmarked(ss[n].tab)
  {
    hide Inv, Next, MarksUnused, Unmarked;
    if n > 0 {
      UnmarkedUpTo(ss, ts, init, n - 1);
      RunKeeps(ss, ts, init, n - 1);
      StepUnmarked(ss[n - 1], ts[n - 1], init);
    }
  }

  /** kill of a pid found in the slot that fork takes next: the child starts out killed. */
  lemma KilledBeforeBirth(s: State, p: nat, k: nat, pid: int, init: nat)
    requires Enabled(s, Alloc(p, k, pid), init) && p != k
    ensures Enabled(s, Step.Kill(k), init)
    ensures var s1 := Next(s, Step.Kill(k), init);
            && Enabled(s1, Alloc(p, k, pid), init)
            && var s2 := Next(s1, Alloc(p, k, pid), init);
               && Enabled(s2, Link(p), init)
               && var s3 := Next(s2, Link(p), init);
                  Enabled(s3, Step.Start(p), init) && Next(s3, Step.Start(p), init).tab[k].state == Sched.Runnable
                  && Next(s3, Step.Start(p), init).tab[k].killed
  {
    ForkMakesChild(Next(s, Step.Kill(k), init), p, k, pid, init);
  }
}
