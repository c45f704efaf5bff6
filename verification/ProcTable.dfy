/** The process table of xv6/proc.c: fork, exit and wait. Every critical section under ptable.lock,
    and every write outside it, is one method; Valid() holds between any two of them, in any order
    and by any processes. */
module ProcTable {

  const NPROC := 64

  datatype ProcState = UNUSED | EMBRYO | SLEEPING | RUNNABLE | RUNNING | ZOMBIE

  /** What a process sleeps on: a process (in wait), or anything else. */
  datatype Chan = NoChan | ProcChan(slot: nat) | OtherChan(id: nat)

  datatype Parent = NoParent | Slot(slot: nat)

  datatype Proc = Proc(state: ProcState, pid: nat, parent: Parent, chan: Chan, killed: bool)

  /** The outcome of one pass of wait: a child reaped, -1, or asleep until a child exits. */
  datatype WaitResult = Reaped(slot: nat, pid: nat) | Failed | Waiting

  predicate Live(p: Proc) { p.state.SLEEPING? || p.state.RUNNABLE? || p.state.RUNNING? }

  predicate Zombie(p: Proc) { p.state.ZOMBIE? }

  predicate InWait(procs: seq<Proc>, p: nat)
    requires p < |procs|
  {
    procs[p].state.SLEEPING? && procs[p].chan == ProcChan(p)
  }

  // ---------- the invariants ----------

  /** Slot p: a live or zombie process other than init has a live parent; an unused slot has none; an
      embryo has none yet or its creator. */
  ghost predicate ParentOk(procs: seq<Proc>, init: nat, creator: map<nat, nat>, p: nat)
    requires p < |procs|
  {
    match procs[p].state
    case UNUSED => procs[p].parent.NoParent?
    case EMBRYO =>
      && p in creator && creator[p] < |procs| && creator[p] != p && Live(procs[creator[p]])
      && (procs[p].parent.NoParent? || procs[p].parent == Slot(creator[p]))
    case _ =>
      if p == init then procs[p].parent.NoParent?
      else
        && procs[p].parent.Slot? && procs[p].parent.slot < |procs| && procs[p].parent.slot != p
        && Live(procs[procs[p].parent.slot])
  }

  ghost predicate Parents(procs: seq<Proc>, init: nat, creator: map<nat, nat>) {
    && init < |procs| && Live(procs[init])
    && forall p :: 0 <= p < |procs| ==> ParentOk(procs, init, creator, p)
  }

  /** A process sleeping in wait has no zombie child. */
  ghost predicate Waits(procs: seq<Proc>) {
    forall p, c :: 0 <= p < |procs| && 0 <= c < |procs| && Zombie(procs[c]) && procs[c].parent == Slot(p) ==>
                     !InWait(procs, p)
  }

  ghost predicate IsZombie(procs: seq<Proc>, pid: nat) {
    exists p :: 0 <= p < |procs| && Zombie(procs[p]) && procs[p].pid == pid
  }

  ghost predicate NoRepeats(s: seq<nat>) {
    forall i, j :: 0 <= i < j < |s| ==> s[i] != s[j]
  }

  /** The pid of a process in use: older than nextpid, and exited just when it is a zombie. */
  ghost predicate PidOk(p: Proc, nextpid: nat, exited: seq<nat>, reaped: seq<nat>) {
    p.state.UNUSED? || (p.pid < nextpid && (p.pid in exited <==> Zombie(p)) && p.pid !in reaped)
  }

  /** Pids in use are distinct; what has exited and not been reaped is exactly the zombies; nothing
      exits or is reaped twice. */
  ghost predicate Pids(procs: seq<Proc>, nextpid: nat, exited: seq<nat>, reaped: seq<nat>) {
    && (forall p :: 0 <= p < |procs| ==> PidOk(procs[p], nextpid, exited, reaped))
    && (forall p, q :: 0 <= p < q < |procs| && !procs[p].state.UNUSED? && !procs[q].state.UNUSED? ==>
                         procs[p].pid != procs[q].pid)
    && (forall x :: x in exited ==> x < nextpid)
    && NoRepeats(exited) && NoRepeats(reaped)
    && (forall x :: x in reaped ==> x in exited)
    && (forall x :: x in exited && x !in reaped ==> IsZombie(procs, x))
  }

  /** EACH EXIT IS REAPED EXACTLY ONCE: in every valid state a pid that has exited is either a zombie
      or has been returned by wait once, never both, and no pid exits twice. */
  lemma ReapedOnce(procs: seq<Proc>, nextpid: nat, exited: seq<nat>, reaped: seq<nat>, pid: nat)
    requires Pids(procs, nextpid, exited, reaped)
    ensures pid in exited ==> (IsZombie(procs, pid) <==> pid !in reaped)
    ensures multiset(exited)[pid] <= 1 && multiset(reaped)[pid] <= multiset(exited)[pid]
  {
    if IsZombie(procs, pid) {
      var p :| 0 <= p < |procs| && Zombie(procs[p]) && procs[p].pid == pid;
      assert PidOk(procs[p], nextpid, exited, reaped);
    }
    CountsOnce(exited, pid);
    CountsOnce(reaped, pid);
  }

  lemma {:induction false} CountsOnce(s: seq<nat>, x: nat)
    requires NoRepeats(s)
    ensures multiset(s)[x] == if x in s then 1 else 0
  {
    if s != [] {
      var last := s[|s| - 1];
      CountsOnce(s[..|s| - 1], x);
      assert s == s[..|s| - 1] + [last];
    }
  }

  // ---------- changing one slot ----------

  /** A slot may change freely as far as the others are concerned, as long as nobody dies. */
  lemma ParentsUpdate(procs: seq<Proc>, init: nat, creator: map<nat, nat>, p: nat, x: Proc, creator': map<nat, nat>)
    requires Parents(procs, init, creator) && p < |procs|
    requires Live(procs[p]) ==> Live(x)
    requires creator' == creator || (!procs[p].state.EMBRYO? && p in creator' && creator' == creator[p := creator'[p]])
    requires ParentOk(procs[p := x], init, creator', p)
    ensures Parents(procs[p := x], init, creator')
  {
    var procs' := procs[p := x];
    forall q | 0 <= q < |procs'| ensures ParentOk(procs', init, creator', q) {
      assert ParentOk(procs, init, creator, q);
    }
  }

  lemma WaitsUpdate(procs: seq<Proc>, p: nat, x: Proc)
    requires Waits(procs) && p < |procs|
    requires Zombie(x) ==> Zombie(procs[p]) && x.parent == procs[p].parent
    requires InWait(procs[p := x], p) ==> InWait(procs, p)
    ensures Waits(procs[p := x])
  {
  }

  /** A change that leaves the pid, and whether the slot is in use and a zombie, alone. */
  lemma PidsUpdate(procs: seq<Proc>, nextpid: nat, exited: seq<nat>, reaped: seq<nat>, p: nat, x: Proc)
    requires Pids(procs, nextpid, exited, reaped) && p < |procs|
    requires x.pid == procs[p].pid && x.state.UNUSED? == procs[p].state.UNUSED? && Zombie(x) == Zombie(procs[p])
    ensures Pids(procs[p := x], nextpid, exited, reaped)
  {
    var procs' := procs[p := x];
    forall y | y in exited && y !in reaped ensures IsZombie(procs', y) {
      ZombieStays(procs, procs', y);
    }
  }

  lemma ZombieStays(procs: seq<Proc>, procs': seq<Proc>, y: nat)
    requires IsZombie(procs, y) && |procs'| == |procs|
    requires forall q :: 0 <= q < |procs| && Zombie(procs[q]) && procs[q].pid == y ==>
             Zombie(procs'[q]) && procs'[q].pid == y
    ensures IsZombie(procs', y)
  {
    var q :| 0 <= q < |procs| && Zombie(procs[q]) && procs[q].pid == y;
    assert Zombie(procs'[q]) && procs'[q].pid == y;
  }

  /** A slot comes into use with a fresh pid. */
  lemma PidsFresh(procs: seq<Proc>, nextpid: nat, exited: seq<nat>, reaped: seq<nat>, p: nat, x: Proc)
    requires Pids(procs, nextpid, exited, reaped) && p < |procs|
    requires procs[p].state.UNUSED? && x.pid == nextpid && !Zombie(x)
    ensures Pids(procs[p := x], nextpid + 1, exited, reaped)
  {
    var procs' := procs[p := x];
    forall q | 0 <= q < |procs'| ensures PidOk(procs'[q], nextpid + 1, exited, reaped) {
      assert PidOk(procs[q], nextpid, exited, reaped);
    }
    forall a, b | 0 <= a < b < |procs'| && !procs'[a].state.UNUSED? && !procs'[b].state.UNUSED?
      ensures procs'[a].pid != procs'[b].pid
    {
      assert PidOk(procs[a], nextpid, exited, reaped) && PidOk(procs[b], nextpid, exited, reaped);
    }
    forall y | y in exited && y !in reaped ensures IsZombie(procs', y) {
      ZombieStays(procs, procs', y);
    }
  }

  /** A slot goes out of use without having exited. */
  lemma PidsDrop(procs: seq<Proc>, nextpid: nat, exited: seq<nat>, reaped: seq<nat>, p: nat, x: Proc)
    requires Pids(procs, nextpid, exited, reaped) && p < |procs| && !Zombie(procs[p]) && x.state.UNUSED?
    ensures Pids(procs[p := x], nextpid, exited, reaped)
  {
    var procs' := procs[p := x];
    forall y | y in exited && y !in reaped ensures IsZombie(procs', y) {
      ZombieStays(procs, procs', y);
    }
  }

  /** A process exits. */
  lemma PidsExit(procs: seq<Proc>, nextpid: nat, exited: seq<nat>, reaped: seq<nat>, p: nat, x: Proc)
    requires Pids(procs, nextpid, exited, reaped) && p < |procs| && Live(procs[p]) && x == procs[p].(state := ZOMBIE)
    ensures Pids(procs[p := x], nextpid, exited + [x.pid], reaped)
  {
    var procs', exited' := procs[p := x], exited + [x.pid];
    assert PidOk(procs[p], nextpid, exited, reaped);
    forall q | 0 <= q < |procs'| ensures PidOk(procs'[q], nextpid, exited', reaped) {
      assert PidOk(procs[q], nextpid, exited, reaped);
    }
    forall y | y in exited' && y !in reaped ensures IsZombie(procs', y) {
      if y == x.pid {
        assert Zombie(procs'[p]) && procs'[p].pid == y;
      } else {
        ZombieStays(procs, procs', y);
      }
    }
  }

  /** A zombie is reaped: it was in the list of exits, and not yet in the list of reaped pids. */
  lemma PidsReap(procs: seq<Proc>, nextpid: nat, exited: seq<nat>, reaped: seq<nat>, p: nat, x: Proc)
    requires Pids(procs, nextpid, exited, reaped) && p < |procs| && Zombie(procs[p]) && x.state.UNUSED?
    ensures Pids(procs[p := x], nextpid, exited, reaped + [procs[p].pid])
    ensures procs[p].pid in exited && procs[p].pid !in reaped
  {
    var procs', pid := procs[p := x], procs[p].pid;
    assert PidOk(procs[p], nextpid, exited, reaped);
    forall q | 0 <= q < |procs'| ensures PidOk(procs'[q], nextpid, exited, reaped + [pid]) {
      assert PidOk(procs[q], nextpid, exited, reaped);
    }
    forall y | y in exited && y !in reaped + [pid] ensures IsZombie(procs', y) {
      ZombieStays(procs, procs', y);
    }
  }

  // ---------- waking up ----------

  /** The table after wakeup1(chan) has looked at the first n slots. */
  ghost predicate WokenUp(before: seq<Proc>, after: seq<Proc>, chan: Chan, n: nat) {
    && |after| == |before|
    && forall i :: 0 <= i < |before| ==>
         after[i] == if i < n && before[i].state.SLEEPING? && before[i].chan == chan then before[i].(state := RUNNABLE)
                     else before[i]
  }

  /** Two tables that differ only in sleepers having become runnable. */
  ghost predicate OnlyWoken(before: seq<Proc>, after: seq<Proc>) {
    && |after| == |before|
    && forall i :: 0 <= i < |before| ==>
         after[i] == before[i] || (before[i].state.SLEEPING? && after[i] == before[i].(state := RUNNABLE))
  }

  lemma OnlyWokenKeeps(before: seq<Proc>, after: seq<Proc>, init: nat, creator: map<nat, nat>,
                       nextpid: nat, exited: seq<nat>, reaped: seq<nat>)
    requires OnlyWoken(before, after)
    ensures Parents(before, init, creator) ==> Parents(after, init, creator)
    ensures Waits(before) ==> Waits(after)
    ensures Pids(before, nextpid, exited, reaped) ==> Pids(after, nextpid, exited, reaped)
  {
    if Parents(before, init, creator) {
      forall p | 0 <= p < |after| ensures ParentOk(after, init, creator, p) {
        assert ParentOk(before, init, creator, p);
      }
    }
    if Pids(before, nextpid, exited, reaped) {
      forall p | 0 <= p < |after| ensures PidOk(after[p], nextpid, exited, reaped) {
        assert PidOk(before[p], nextpid, exited, reaped);
      }
      forall y | y in exited && y !in reaped ensures IsZombie(after, y) {
        ZombieStays(before, after, y);
      }
    }
  }

  // ---------- exit ----------

  /** Slot i after exit's loop has passed it: a child of q is now a child of init, and a process
      waiting on init may have been woken. */
  ghost predicate Adopted(before: Proc, after: Proc, q: nat, init: nat) {
    var b := if before.parent == Slot(q) then before.(parent := Slot(init)) else before;
    after == b || (b.state.SLEEPING? && b.chan == ProcChan(init) && after == b.(state := RUNNABLE))
  }

  /** The table after exit's loop has passed the first n slots. */
  ghost predicate Reparented(before: seq<Proc>, after: seq<Proc>, q: nat, init: nat, n: nat) {
    && |after| == |before| && n <= |before|
    && (forall i :: 0 <= i < n ==> Adopted(before[i], after[i], q, init))
    && (forall i :: n <= i < |before| ==>
          after[i] == before[i]
          || (before[i].state.SLEEPING? && before[i].chan == ProcChan(init)
              && after[i] == before[i].(state := RUNNABLE)))
    // init has been woken if one of the adopted children was a zombie
    && (forall i :: 0 <= i < n && Zombie(before[i]) && before[i].parent == Slot(q) && init < |after| ==>
        !InWait(after, init))
  }

  lemma ReparentedKeeps(before: seq<Proc>, after: seq<Proc>, q: nat, init: nat, creator: map<nat, nat>,
                        nextpid: nat, exited: seq<nat>, reaped: seq<nat>)
    requires Parents(before, init, creator) && Waits(before) && Pids(before, nextpid, exited, reaped)
    requires Reparented(before, after, q, init, |before|) && q != init && q < |before|
    requires forall p :: 0 <= p < |before| && before[p].state.EMBRYO? ==> p in creator && creator[p] != q
    ensures Parents(after, init, creator) && Waits(after) && Pids(after, nextpid, exited, reaped)
    ensures forall p :: 0 <= p < |after| ==> after[p].parent != Slot(q)
  {
    assert forall p :: 0 <= p < |before| ==> Adopted(before[p], after[p], q, init);
    forall p | 0 <= p < |after| ensures ParentOk(after, init, creator, p) {
      assert ParentOk(before, init, creator, p);
    }
    forall p, c | 0 <= p < |after| && 0 <= c < |after| && Zombie(after[c]) && after[c].parent == Slot(p)
      ensures !InWait(after, p)
    {
      if before[c].parent != Slot(q) {
        assert !InWait(before, p);
      }
    }
    forall p | 0 <= p < |after| ensures PidOk(after[p], nextpid, exited, reaped) {
      assert PidOk(before[p], nextpid, exited, reaped);
    }
    forall y | y in exited && y !in reaped ensures IsZombie(after, y) {
      ZombieStays(before, after, y);
    }
  }

  /** A process whom nobody calls parent or creator may become a zombie. */
  lemma ParentsExit(procs: seq<Proc>, init: nat, creator: map<nat, nat>, q: nat)
    requires Parents(procs, init, creator) && q < |procs| && q != init && Live(procs[q])
    requires forall p :: 0 <= p < |procs| ==> procs[p].parent != Slot(q)
    requires forall p :: 0 <= p < |procs| && procs[p].state.EMBRYO? ==> p in creator && creator[p] != q
    ensures Parents(procs[q := procs[q].(state := ZOMBIE)], init, creator)
  {
    var procs' := procs[q := procs[q].(state := ZOMBIE)];
    forall p | 0 <= p < |procs'| ensures ParentOk(procs', init, creator, p) {
      assert ParentOk(procs, init, creator, p);
    }
  }

  lemma WaitsExit(procs: seq<Proc>, q: nat)
    requires Waits(procs) && q < |procs| && Live(procs[q])
    requires procs[q].parent.Slot? && procs[q].parent.slot < |procs| && !InWait(procs, procs[q].parent.slot)
    ensures Waits(procs[q := procs[q].(state := ZOMBIE)])
  {
  }

  /** What q's exit does to another process: a child goes to init; a process asleep on q's parent is
      woken; one asleep on init may be. */
  ghost predicate Beside(before: Proc, after: Proc, q: nat, parent: nat, init: nat) {
    var b := if before.parent == Slot(q) then before.(parent := Slot(init)) else before;
    && (after == b
        || (b.state.SLEEPING? && (b.chan == ProcChan(parent) || b.chan == ProcChan(init))
            && after == b.(state := RUNNABLE)))
    && (b.state.SLEEPING? && b.chan == ProcChan(parent) ==> after.state.RUNNABLE?)
  }

  /** After the wakeup and the adoptions, the exiting process is as it was, its parent is not asleep
      in wait, and only its children have a new parent. */
  lemma StillAwake(before: seq<Proc>, woken: seq<Proc>, after: seq<Proc>, q: nat, parent: nat, init: nat)
    requires q < |before| && parent < |before| && parent != q && q != init && before[q].parent == Slot(parent)
    requires WokenUp(before, woken, ProcChan(parent), |before|) && Reparented(woken, after, q, init, |before|)
    requires before[q].state.RUNNING?
    ensures after[q] == before[q] && !InWait(after, parent)
    ensures forall p :: 0 <= p < |before| ==>
              after[p].parent == if before[p].parent == Slot(q) then Slot(init) else before[p].parent
    ensures forall p :: 0 <= p < |before| ==> Beside(before[p], after[p], q, parent, init)
  {
    assert forall p :: 0 <= p < |woken| ==> Adopted(woken[p], after[p], q, init);
  }

  // ---------- wait ----------

  predicate NoChild(procs: seq<Proc>, q: nat) {
    forall c :: 0 <= c < |procs| ==> procs[c].parent != Slot(q)
  }

  predicate NoZombieChild(procs: seq<Proc>, q: nat) {
    forall c :: 0 <= c < |procs| && procs[c].parent == Slot(q) ==> !Zombie(procs[c])
  }

  lemma ReapKeeps(procs: seq<Proc>, init: nat, creator: map<nat, nat>, c: nat, x: Proc)
    requires Parents(procs, init, creator) && Waits(procs) && c < |procs| && Zombie(procs[c])
    requires x.state.UNUSED? && x.parent.NoParent?
    ensures Parents(procs[c := x], init, creator) && Waits(procs[c := x])
  {
    ParentsUpdate(procs, init, creator, c, x, creator);
    WaitsUpdate(procs, c, x);
  }

  lemma WaitsSleep(procs: seq<Proc>, q: nat, x: Proc)
    requires Waits(procs) && q < |procs| && !Zombie(x)
    requires forall c :: 0 <= c < |procs| && procs[c].parent == Slot(q) ==> !Zombie(procs[c])
    ensures Waits(procs[q := x])
  {
  }

  /** A process that has been marked, and woken if it slept. */
  function Killed(p: Proc): Proc {
    p.(killed := true, state := if p.state.SLEEPING? then RUNNABLE else p.state)
  }

  class Table {
    var procs: seq<Proc>
    var nextpid: nat
    const initproc: nat
    /** Which process is creating each embryo. */
    ghost var creator: map<nat, nat>
    /** All pids that have exited, and all that wait has returned, in order. */
    ghost var exited: seq<nat>
    ghost var reaped: seq<nat>

    ghost predicate Valid()
      reads this
    {
      && |procs| == NPROC && Parents(procs, initproc, creator) && Waits(procs) && Pids(procs, nextpid, exited, reaped)
    }

    /** userinit: the first process, runnable and without a parent. */
    constructor ()
      ensures Valid() && exited == [] && reaped == []
    {
      procs := seq(NPROC, i => if i == 0 then Proc(RUNNABLE, 1, NoParent, NoChan, false)
                               else Proc(UNUSED, 0, NoParent, NoChan, false));
      nextpid, initproc := 2, 0;
      creator, exited, reaped := map[], [], [];
    }

    /** wakeup1. */
    method Wakeup1(chan: Chan)
      modifies this`procs
      ensures WokenUp(old(procs), procs, chan, |procs|)
    {
      var p := 0;
      while p < |procs|
        invariant 0 <= p <= |procs| && WokenUp(old(procs), procs, chan, p)
      {
        if procs[p].state.SLEEPING? && procs[p].chan == chan {
          procs := procs[p := procs[p].(state := RUNNABLE)];
        }
        p := p + 1;
      }
    }

    /** wakeup: whoever calls it, on whatever channel. */
    method Wakeup(chan: Chan)
      requires Valid()
      modifies this`procs
      ensures Valid() && WokenUp(old(procs), procs, chan, NPROC)
    {
      Wakeup1(chan);
      hide Parents, Waits, Pids;
      OnlyWokenKeeps(old(procs), procs, initproc, creator, nextpid, exited, reaped);
    }

    /** allocproc, called by process `caller`: claim the first unused slot. */
    method Allocproc(caller: nat) returns (p: nat, ok: bool)
      requires Valid() && caller < NPROC && procs[caller].state.RUNNING?
      modifies this`procs, this`nextpid, this`creator
      ensures Valid()
      ensures ok ==>
                && p < NPROC && old(procs)[p].state.UNUSED? && (forall q :: 0 <= q < p ==> !old(procs)[q].state.UNUSED?)
                && procs == old(procs)[p := old(procs)[p].(state := EMBRYO, pid := old(nextpid))]
                && nextpid == old(nextpid) + 1 && creator == old(creator)[p := caller]
      ensures !ok ==> procs == old(procs) && forall q :: 0 <= q < NPROC ==> !procs[q].state.UNUSED?
    {
      p := 0;
      while p < NPROC && !procs[p].state.UNUSED?
        invariant 0 <= p <= NPROC && forall q :: 0 <= q < p ==> !procs[q].state.UNUSED?
      {
        p := p + 1;
      }
      ok := p < NPROC;
      if ok {
        var x := procs[p].(state := EMBRYO, pid := nextpid);
        assert ParentOk(procs, initproc, creator, p);
        hide Parents, Waits, Pids;
        ParentsUpdate(procs, initproc, creator, p, x, creator[p := caller]);
        WaitsUpdate(procs, p, x);
        PidsFresh(procs, nextpid, exited, reaped, p, x);
        procs := procs[p := x];
        nextpid := nextpid + 1;
        creator := creator[p := caller];
      }
    }

    /** fork gives up: no kernel stack or no page table. */
    method AbandonEmbryo(p: nat)
      requires Valid() && p < NPROC && procs[p].state.EMBRYO? && procs[p].parent.NoParent?
      modifies this`procs
      ensures Valid() && procs == old(procs)[p := old(procs)[p].(state := UNUSED)]
    {
      hide Parents, Waits, Pids;
      var x := procs[p].(state := UNUSED);
      ParentsUpdate(procs, initproc, creator, p, x, creator);
      WaitsUpdate(procs, p, x);
      PidsDrop(procs, nextpid, exited, reaped, p, x);
      procs := procs[p := x];
    }

    /** fork: np->parent = proc, written without the lock. */
    method SetParent(p: nat, caller: nat)
      requires Valid() && p < NPROC && procs[p].state.EMBRYO? && p in creator && creator[p] == caller
      modifies this`procs
      ensures Valid() && procs == old(procs)[p := old(procs)[p].(parent := Slot(caller))]
    {
      assert ParentOk(procs, initproc, creator, p);
      Update(p, procs[p].(parent := Slot(caller)));
    }

    /** fork: np->state = RUNNABLE, written without the lock. */
    method SetRunnable(p: nat)
      requires Valid() && p < NPROC && procs[p].state.EMBRYO? && procs[p].parent.Slot?
      modifies this`procs
      ensures Valid() && procs == old(procs)[p := old(procs)[p].(state := RUNNABLE)]
    {
      assert ParentOk(procs, initproc, creator, p);
      Update(p, procs[p].(state := RUNNABLE));
    }

    /** The scheduler picks p, or the running p gives up the CPU. */
    method Switch(p: nat)
      requires Valid() && p < NPROC && (procs[p].state.RUNNABLE? || procs[p].state.RUNNING?)
      modifies this`procs
      ensures Valid()
      ensures procs
              == old(procs)[p := old(procs)[p].(state := if old(procs)[p].state.RUNNABLE? then RUNNING else RUNNABLE)]
    {
      assert ParentOk(procs, initproc, creator, p);
      Update(p, procs[p].(state := if procs[p].state.RUNNABLE? then RUNNING else RUNNABLE));
    }

    /** sleep on something other than a child's exit. */
    method Sleep(p: nat, chan: Chan)
      requires Valid() && p < NPROC && procs[p].state.RUNNING? && !chan.ProcChan?
      modifies this`procs
      ensures Valid() && procs == old(procs)[p := old(procs)[p].(state := SLEEPING, chan := chan)]
    {
      assert ParentOk(procs, initproc, creator, p);
      Update(p, procs[p].(chan := chan, state := SLEEPING));
    }

    /** kill: mark the first process with that pid and wake it up; `p` is its slot. */
    method Kill(pid: nat) returns (ok: bool, p: nat)
      requires Valid()
      modifies this`procs
      ensures Valid()
      ensures ok <==> exists q :: 0 <= q < NPROC && old(procs)[q].pid == pid
      ensures !ok ==> procs == old(procs)
      ensures ok ==> p < NPROC && old(procs)[p].pid == pid && forall q :: 0 <= q < p ==> old(procs)[q].pid != pid
      ensures ok ==> procs == old(procs)[p := Killed(old(procs)[p])]
    {
      p := 0;
      while p < NPROC && procs[p].pid != pid
        invariant 0 <= p <= NPROC && forall q :: 0 <= q < p ==> procs[q].pid != pid
      {
        p := p + 1;
      }
      ok := p < NPROC;
      if ok {
        assert ParentOk(procs, initproc, creator, p);
        assert procs[p].pid == pid;
        Update(p, Killed(procs[p]));
      }
    }

    /** A write to one slot that neither ends nor starts a process's life. */
    method Update(p: nat, x: Proc)
      requires Valid() && p < NPROC && (Live(procs[p]) ==> Live(x)) && ParentOk(procs[p := x], initproc, creator, p)
      requires x.pid == procs[p].pid && x.state.UNUSED? == procs[p].state.UNUSED? && Zombie(x) == Zombie(procs[p])
      requires Zombie(x) ==> x.parent == procs[p].parent
      requires InWait(procs[p := x], p) ==> InWait(procs, p)
      modifies this`procs
      ensures Valid() && procs == old(procs)[p := x]
    {
      hide Parents, Waits, Pids;
      ParentsUpdate(procs, initproc, creator, p, x, creator);
      WaitsUpdate(procs, p, x);
      PidsUpdate(procs, nextpid, exited, reaped, p, x);
      procs := procs[p := x];
    }

    /** exit, under ptable.lock: wake the parent, give the children to init, become a zombie. The
        process is running exit, so it is not init and not in the middle of fork. */
    method Exit(q: nat)
      requires Valid() && q < NPROC && procs[q].state.RUNNING? && q != initproc
      requires forall p :: 0 <= p < NPROC && procs[p].state.EMBRYO? ==> p in creator && creator[p] != q
      modifies this`procs, this`exited
      ensures Valid() && procs[q].state.ZOMBIE? && procs[q].pid == old(procs)[q].pid
      ensures exited == old(exited) + [old(procs)[q].pid]
      ensures forall p :: 0 <= p < NPROC ==> procs[p].parent != Slot(q)
      ensures old(procs)[q].parent.Slot? && procs[q].parent == old(procs)[q].parent
      ensures forall p :: 0 <= p < NPROC && p != q ==>
                Beside(old(procs)[p], procs[p], q, old(procs)[q].parent.slot, initproc)
    {
      assert ParentOk(procs, initproc, creator, q);
      assert initproc < NPROC;
      hide Parents, Waits, Pids;
      var parent := procs[q].parent.slot;
      Wakeup1(ProcChan(parent));
      ghost var woken := procs;
      OnlyWokenKeeps(old(procs), procs, initproc, creator, nextpid, exited, reaped);
      Reparent(q);
      ReparentedKeeps(woken, procs, q, initproc, creator, nextpid, exited, reaped);
      StillAwake(old(procs), woken, procs, q, parent, initproc);
      var x := procs[q].(state := ZOMBIE);
      ParentsExit(procs, initproc, creator, q);
      WaitsExit(procs, q);
      PidsExit(procs, nextpid, exited, reaped, q, x);
      procs := procs[q := x];
      exited := exited + [x.pid];
    }

    /** exit's loop over the children. */
    method Reparent(q: nat)
      requires |procs| == NPROC && initproc < NPROC && q != initproc
      modifies this`procs
      ensures Reparented(old(procs), procs, q, initproc, NPROC)
    {
      var p := 0;
      while p < NPROC
        invariant 0 <= p <= NPROC && |procs| == NPROC
        invariant Reparented(old(procs), procs, q, initproc, p)
      {
        ghost var before := procs;
        if procs[p].parent == Slot(q) {
          procs := procs[p := procs[p].(parent := Slot(initproc))];
          if procs[p].state.ZOMBIE? {
            Wakeup1(ProcChan(initproc));
          }
        }
        p := p + 1;
      }
    }

    /** One pass of wait by process q: reap the first zombie child, fail without children or when
        killed, or fall asleep on the process itself. */
    method Wait(q: nat) returns (r: WaitResult)
      requires Valid() && q < NPROC && procs[q].state.RUNNING?
      modifies this`procs, this`reaped
      ensures Valid()
      ensures r.Reaped? ==>
                && r.slot < NPROC && Zombie(old(procs)[r.slot]) && old(procs)[r.slot].parent == Slot(q)
                && r.pid == old(procs)[r.slot].pid && r.pid in exited && r.pid !in old(reaped)
                && reaped == old(reaped) + [r.pid]
                && procs == old(procs)[r.slot := Proc(UNUSED, 0, NoParent, old(procs)[r.slot].chan, false)]
      ensures !r.Reaped? ==>
                reaped == old(reaped) && NoZombieChild(procs, q)
      ensures r.Failed? ==> procs == old(procs)
      ensures r.Failed? <==> NoZombieChild(old(procs), q) && (NoChild(old(procs), q) || old(procs)[q].killed)
      ensures r.Waiting? ==> procs == old(procs)[q := old(procs)[q].(state := SLEEPING, chan := ProcChan(q))]
    {
      var havekids := false;
      var p := 0;
      while p < NPROC
        invariant 0 <= p <= NPROC && procs == old(procs) && reaped == old(reaped)
        invariant forall c :: 0 <= c < p && procs[c].parent == Slot(q) ==> !Zombie(procs[c])
        invariant havekids <==> exists c :: 0 <= c < p && procs[c].parent == Slot(q)
      {
        if procs[p].parent == Slot(q) {
          havekids := true;
          if procs[p].state.ZOMBIE? {
            var pid := procs[p].pid;
            var x := Proc(UNUSED, 0, NoParent, procs[p].chan, false);
            hide Parents, Waits, Pids;
            ReapKeeps(procs, initproc, creator, p, x);
            PidsReap(procs, nextpid, exited, reaped, p, x);
            procs := procs[p := x];
            reaped := reaped + [pid];
            return Reaped(p, pid);
          }
        }
        p := p + 1;
      }
      if !havekids || procs[q].killed {
        return Failed;
      }
      assert ParentOk(procs, initproc, creator, q);
      var x := procs[q].(chan := ProcChan(q), state := SLEEPING);
      hide Parents, Waits, Pids;
      ParentsUpdate(procs, initproc, creator, q, x, creator);
      WaitsSleep(procs, q, x);
      PidsUpdate(procs, nextpid, exited, reaped, q, x);
      procs := procs[q := x];
      return Waiting;
    }
  }
}
