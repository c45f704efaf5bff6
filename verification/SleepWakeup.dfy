/** sleep and wakeup of xv6/proc.c as a step system: any number of processes, any interleaving of
    single lock operations, memory writes and scheduler steps. */
module SleepWakeup {
  import opened Prelude

  /** Where a process is. `lk` is the lock that protects the condition, `pt` is ptable.lock. */
  datatype Pc =
    | Out                   // elsewhere, holding nothing
    | Owing                 // released lk after a change, has still to call wakeup
    | Crit(owes: bool)      // holds lk; owes: it changed the condition and has not called wakeup since
    | WakeLock              // in wakeup, holding lk, before acquire(&ptable.lock)
    | WakeScan(slot: nat)   // in wakeup1, holding lk and pt, next to look at `slot`
    | LateLock              // as WakeLock, without lk
    | LateScan(slot: nat)   // as WakeScan, without lk
    | SleepLock             // in sleep, holding lk, before acquire(&ptable.lock)
    | SleepUnlock           // holds both, before release(lk)
    | SleepMark             // holds pt, before state = SLEEPING and sched()
    | Asleep                // SLEEPING on the channel
    | Woken                 // RUNNABLE again
    | Tidy                  // RUNNING, holding pt, before chan = 0 and release(&ptable.lock)
    | Retake                // before acquire(lk) at the end of sleep

  /** ptable.lock is free, held by a process of the protocol, or by the scheduler or other code. */
  datatype Holder = Free | By(p: nat) | Other

  /** pcs[i] is the process in slot i of the process table; x is the data that lk protects. */
  datatype State = State(lk: Option<nat>, pt: Holder, pcs: seq<Pc>, x: int)

  /** What process p waits for, as a condition on x. */
  type Condition = (nat, int) -> bool

  datatype Action =
    | Acquire(p: nat) | Change(p: nat, v: int) | CallWakeup(p: nat) | Release(p: nat) | ReleaseOwing(p: nat)
    | TakeTable(p: nat) | ScanSlot(p: nat) | ScanDone(p: nat)
    | CallSleep(p: nat) | DropLk(p: nat) | FallAsleep(p: nat)
    | OtherTakes | OtherDrops | Schedule(p: nat) | Kill(p: nat) | FinishSleep(p: nat)

  /** What one process sees and changes: the two locks, the data, its own program counter. */
  datatype Local = Local(lk: Option<nat>, pt: Holder, x: int, pc: Pc)

  /** One step of process p out of n; an action that is not enabled changes nothing. With `strict`,
      a process that has changed x calls wakeup before it releases lk; otherwise it may do so
      afterwards. */
  function Step(c: Condition, strict: bool, p: nat, n: nat, l: Local, a: Action): Local {
    match a
    case Acquire(_) => if (l.pc.Out? || l.pc.Retake?) && l.lk.None? then l.(pc := Crit(false), lk := Some(p)) else l
    case Change(_, v) => if l.pc.Crit? then l.(pc := Crit(true), x := v) else l
    case CallWakeup(_) => if l.pc.Crit? then l.(pc := WakeLock) else if l.pc.Owing? then l.(pc := LateLock) else l
    case Release(_) => if l.pc == Crit(false) then l.(pc := Out, lk := None) else l
    case ReleaseOwing(_) => if !strict && l.pc == Crit(true) then l.(pc := Owing, lk := None) else l
    case TakeTable(_) =>
      if !l.pt.Free? then l
      else if l.pc.WakeLock? then l.(pc := WakeScan(0), pt := By(p))
      else if l.pc.LateLock? then l.(pc := LateScan(0), pt := By(p))
      else if l.pc.SleepLock? then l.(pc := SleepUnlock, pt := By(p))
      else l
    case ScanSlot(_) =>
      if l.pc.WakeScan? && l.pc.slot < n then l.(pc := WakeScan(l.pc.slot + 1))
      else if l.pc.LateScan? && l.pc.slot < n then l.(pc := LateScan(l.pc.slot + 1))
      else l
    case ScanDone(_) =>
      if l.pc.WakeScan? && l.pc.slot >= n then l.(pc := Crit(false), pt := Free)
      else if l.pc.LateScan? && l.pc.slot >= n then l.(pc := Out, pt := Free)
      else l
    case CallSleep(_) => if l.pc == Crit(false) && !c(p, l.x) then l.(pc := SleepLock) else l
    case DropLk(_) => if l.pc.SleepUnlock? then l.(pc := SleepMark, lk := None) else l
    case FallAsleep(_) => if l.pc.SleepMark? then l.(pc := Asleep, pt := Other) else l
    case Schedule(_) => if l.pc.Woken? && l.pt.Other? then l.(pc := Tidy, pt := By(p)) else l
    case Kill(_) => if l.pc.Asleep? && l.pt.Other? then l.(pc := Woken) else l
    case FinishSleep(_) => if l.pc.Tidy? then l.(pc := Retake, pt := Free) else l
    case OtherTakes => l
    case OtherDrops => l
  }

  predicate Scanning(pc: Pc) { pc.WakeScan? || pc.LateScan? }

  /** The processes after wakeup1, run by process p, has looked at its next slot. */
  function Scanned(pcs: seq<Pc>, p: nat): (r: seq<Pc>)
    requires p < |pcs|
    ensures |r| == |pcs|
  {
    if Scanning(pcs[p]) && pcs[p].slot < |pcs| && pcs[pcs[p].slot].Asleep? then pcs[pcs[p].slot := Woken] else pcs
  }

  function View(s: State, p: nat): Local
    requires p < |s.pcs|
  {
    Local(s.lk, s.pt, s.x, s.pcs[p])
  }

  function Do(c: Condition, strict: bool, s: State, a: Action): (t: State)
    ensures |t.pcs| == |s.pcs|
  {
    if a.OtherTakes? then if s.pt.Free? then s.(pt := Other) else s
    else if a.OtherDrops? then if s.pt.Other? then s.(pt := Free) else s
    else if a.p >= |s.pcs| then s
    else
      var l := Step(c, strict, a.p, |s.pcs|, View(s, a.p), a);
      var pcs := if a.ScanSlot? then Scanned(s.pcs, a.p) else s.pcs;
      State(l.lk, l.pt, pcs[a.p := l.pc], l.x)
  }

  /** Everybody outside, both locks free. */
  predicate Init(s: State) {
    s.lk.None? && s.pt.Free? && forall p :: 0 <= p < |s.pcs| ==> s.pcs[p].Out?
  }

  function Exec(c: Condition, strict: bool, s: State, run: seq<Action>): State {
    if run == [] then s else Do(c, strict, Exec(c, strict, s, run[..|run| - 1]), run[|run| - 1])
  }

  // ---------- the invariant ----------

  predicate HoldsLk(pc: Pc) {
    pc.Crit? || pc.WakeLock? || pc.WakeScan? || pc.SleepLock? || pc.SleepUnlock?
  }

  predicate HoldsPt(pc: Pc) {
    pc.WakeScan? || pc.LateScan? || pc.SleepUnlock? || pc.SleepMark? || pc.Tidy?
  }

  /** A process at pc will still wake up the process in slot p. */
  predicate WillWake(pc: Pc, p: nat) {
    match pc
    case Crit(owes) => owes
    case WakeLock => true
    case LateLock => true
    case Owing => true
    case WakeScan(i) => i <= p
    case LateScan(i) => i <= p
    case _ => false
  }

  ghost predicate SomeoneWillWake(s: State, p: nat) {
    exists q :: 0 <= q < |s.pcs| && WillWake(s.pcs[q], p)
  }

  /** Process p holds a lock exactly when its program counter says so. */
  predicate LocksAt(p: nat, l: Local) {
    (HoldsLk(l.pc) <==> l.lk == Some(p)) && (HoldsPt(l.pc) <==> l.pt == By(p))
  }

  ghost predicate Locks(s: State) {
    forall p :: 0 <= p < |s.pcs| ==> LocksAt(p, View(s, p))
  }

  predicate Drowsy(pc: Pc) { pc.SleepMark? || pc.Asleep? }

  ghost predicate Inv(c: Condition, s: State) {
    && Locks(s)
    // between the test and the release of lk the condition stays false
    && (forall p :: 0 <= p < |s.pcs| && (s.pcs[p].SleepLock? || s.pcs[p].SleepUnlock?) ==> !c(p, s.x))
    // asleep, or on the way: if the condition has become true, a wakeup is on its way
    && (forall p :: 0 <= p < |s.pcs| && Drowsy(s.pcs[p]) && c(p, s.x) ==> SomeoneWillWake(s, p))
  }

  /** No process has released lk without calling wakeup. */
  predicate Late(pc: Pc) { pc.Owing? || pc.LateLock? || pc.LateScan? }

  ghost predicate NoLate(s: State) {
    forall p :: 0 <= p < |s.pcs| ==> !Late(s.pcs[p])
  }

  /** One process's step, seen alone. */
  lemma StepAlone(c: Condition, strict: bool, p: nat, n: nat, l: Local, a: Action)
    requires LocksAt(p, l)
    ensures var m := Step(c, strict, p, n, l, a);
            && LocksAt(p, m)
            // a lock changes hands only from or to this process
            && (m.lk == l.lk || (l.lk.None? && m.lk == Some(p)) || (l.lk == Some(p) && m.lk.None?))
            && (m.pt == l.pt || l.pt == By(p) || m.pt == By(p)) && (m.pt != l.pt && l.pt.By? ==> l.pt.p == p)
            // the data changes only under lk, and leaves the process owing a wakeup
            && (m.x != l.x ==> l.lk == Some(p) && m.pc == Crit(true))
            // a process gets drowsy only when its condition was false under lk
            && (m.pc.SleepLock? || m.pc.SleepUnlock? ==> l.pc.SleepLock? || l.pc.SleepUnlock? || !c(p, m.x))
            && (Drowsy(m.pc) ==> m.x == l.x && (Drowsy(l.pc) || l.pc.SleepUnlock?))
            && (strict && !Late(l.pc) ==> !Late(m.pc))
  {
  }

  /** It keeps its promise to wake up slot q, unless it is just looking at that slot. */
  lemma StepKeepsPromise(c: Condition, strict: bool, p: nat, n: nat, l: Local, a: Action, q: nat)
    requires LocksAt(p, l) && WillWake(l.pc, q) && q < n
    ensures WillWake(Step(c, strict, p, n, l, a).pc, q) || (a.ScanSlot? && Scanning(l.pc) && l.pc.slot == q)
  {
  }

  lemma InvStep(c: Condition, strict: bool, s: State, a: Action)
    requires Inv(c, s)
    ensures Inv(c, Do(c, strict, s, a))
    ensures strict && NoLate(s) ==> NoLate(Do(c, strict, s, a))
  {
    if !a.OtherTakes? && !a.OtherDrops? && a.p < |s.pcs| {
      StepAlone(c, strict, a.p, |s.pcs|, View(s, a.p), a);
      hide Step;
      var t := Do(c, strict, s, a);
      LocksStep(c, strict, s, a);
      forall q | 0 <= q < |t.pcs| && (t.pcs[q].SleepLock? || t.pcs[q].SleepUnlock?) ensures !c(q, t.x) {
        assert LocksAt(q, View(s, q)) && LocksAt(q, View(t, q));
      }
      forall q | 0 <= q < |t.pcs| && Drowsy(t.pcs[q]) && c(q, t.x) ensures SomeoneWillWake(t, q) {
        PromiseStep(c, strict, s, a, q);
      }
    } else {
      OtherStep(c, strict, s, a);
    }
  }

  lemma OtherStep(c: Condition, strict: bool, s: State, a: Action)
    requires Inv(c, s) && (a.OtherTakes? || a.OtherDrops? || a.p >= |s.pcs|)
    ensures Inv(c, Do(c, strict, s, a))
  {
    var t := Do(c, strict, s, a);
    assert t.pcs == s.pcs && t.x == s.x;
    forall q | 0 <= q < |t.pcs| ensures LocksAt(q, View(t, q)) {
      assert LocksAt(q, View(s, q));
    }
    forall q | 0 <= q < |t.pcs| && Drowsy(t.pcs[q]) && c(q, t.x) ensures SomeoneWillWake(t, q) {
      assert SomeoneWillWake(s, q);
    }
  }

  lemma LocksStep(c: Condition, strict: bool, s: State, a: Action)
    requires Locks(s) && !a.OtherTakes? && !a.OtherDrops? && a.p < |s.pcs|
    ensures Locks(Do(c, strict, s, a))
  {
    StepAlone(c, strict, a.p, |s.pcs|, View(s, a.p), a);
    hide Step;
    var t := Do(c, strict, s, a);
    forall q | 0 <= q < |t.pcs| ensures LocksAt(q, View(t, q)) {
      assert LocksAt(q, View(s, q));
    }
  }

  /** A drowsy process whose condition is true has a wakeup coming, after any step. */
  lemma PromiseStep(c: Condition, strict: bool, s: State, a: Action, q: nat)
    requires Inv(c, s) && !a.OtherTakes? && !a.OtherDrops? && a.p < |s.pcs|
    requires var t := Do(c, strict, s, a); q < |t.pcs| && Drowsy(t.pcs[q]) && c(q, t.x)
    ensures SomeoneWillWake(Do(c, strict, s, a), q)
  {
    var t := Do(c, strict, s, a);
    var p := a.p;
    assert LocksAt(p, View(s, p)) && LocksAt(q, View(s, q));
    StepAlone(c, strict, p, |s.pcs|, View(s, p), a);
    var l := Step(c, strict, p, |s.pcs|, View(s, p), a);
    assert t.pcs[p] == l.pc && t.x == l.x;
    if l.x != s.x {
      assert WillWake(t.pcs[p], q);
    } else {
      assert c(q, s.x);
      assert Drowsy(s.pcs[q]);
      var w :| 0 <= w < |s.pcs| && WillWake(s.pcs[w], q);
      if w == p {
        StepKeepsPromise(c, strict, p, |s.pcs|, View(s, p), a, q);
        assert WillWake(t.pcs[p], q);
      } else {
        assert t.pcs[w] == s.pcs[w];
        assert WillWake(t.pcs[w], q);
      }
    }
  }

  lemma {:induction false} InvAlways(c: Condition, strict: bool, s: State, run: seq<Action>)
    requires Init(s)
    ensures Inv(c, Exec(c, strict, s, run))
    ensures strict ==> NoLate(Exec(c, strict, s, run))
  {
    if run != [] {
      InvAlways(c, strict, s, run[..|run| - 1]);
      InvStep(c, strict, Exec(c, strict, s, run[..|run| - 1]), run[|run| - 1]);
    }
  }

  /** NO LOST WAKEUP. In every run of any number of processes that call wakeup between changing the
      data and releasing its lock: whenever both locks are free, every sleeping process waits for a
      condition that is false. */
  lemma NoLostWakeup(c: Condition, s: State, run: seq<Action>, p: nat)
    requires Init(s) && p < |s.pcs|
    ensures var t := Exec(c, true, s, run);
            |t.pcs| == |s.pcs| && (t.lk.None? && t.pt.Free? && t.pcs[p].Asleep? ==> !c(p, t.x))
  {
    ExecSize(c, true, s, run);
    InvAlways(c, true, s, run);
    var t := Exec(c, true, s, run);
    forall q | 0 <= q < |t.pcs| && WillWake(t.pcs[q], p) ensures t.lk == Some(q) {
      assert LocksAt(q, View(t, q)) && !Late(t.pcs[q]);
    }
  }

  /** Calling wakeup only after releasing the lock is safe too: a process sleeping on a condition
      that is true still has a wakeup coming, so once every process that owes one has finished
      calling it, the conditions of all sleepers are false. */
  lemma LateWakeupIsSafe(c: Condition, strict: bool, s: State, run: seq<Action>, p: nat)
    requires Init(s) && p < |s.pcs|
    ensures var t := Exec(c, strict, s, run);
            && |t.pcs| == |s.pcs|
            && (t.pcs[p].Asleep? && c(p, t.x) ==> SomeoneWillWake(t, p))
  {
    ExecSize(c, strict, s, run);
    InvAlways(c, strict, s, run);
  }

  lemma {:induction false} ExecSize(c: Condition, strict: bool, s: State, run: seq<Action>)
    ensures |Exec(c, strict, s, run).pcs| == |s.pcs|
  {
    if run != [] {
      ExecSize(c, strict, s, run[..|run| - 1]);
    }
  }
}
