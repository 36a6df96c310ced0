/** Exit and wait as interleaved steps of every process, with `wait_lock` and each
    process's lock explicit (kernel/proc.c). */
module ProcWait {

  datatype State = Unused | Used | Sleeping | Runnable | Running | Zombie
  datatype Chan = NoChan | OnProc(p: nat) | OnOther(c: nat)
  datatype Owner = Free | By(p: nat)
  datatype Parent = NoParent | Child(p: nat)

  /** Where the kernel thread of a process is. `NoThread` is a slot that has none
      (or not yet); the comments say which locks are held. */
  datatype Pc =
    | NoThread
    | Run                               // any other code; no lock
    | ExitStart                         // kexit; no lock
    | ExitScan(i: nat)                  // reparent at slot i; wait_lock
    | ExitWakeInit(i: nat, j: nat)      // its wakeup(initproc) at slot j; wait_lock
    | ExitWakeInitHeld(i: nat, j: nat)  // wait_lock, lock of j
    | ExitWake(j: nat)                  // wakeup(p->parent) at slot j; wait_lock
    | ExitWakeHeld(j: nat)              // wait_lock, lock of j
    | ExitLock                          // wait_lock
    | ExitMark                          // wait_lock, own lock
    | ExitRelease                       // ZOMBIE; wait_lock, own lock
    | ExitSched                         // in sched; own lock
    | Dead                              // switched away for good
    | WaitStart                         // kwait; no lock
    | WaitScan(i: nat, kids: bool)      // at slot i; wait_lock
    | WaitHeld(i: nat, kids: bool)      // wait_lock, lock of i
    | WaitDecide(kids: bool)            // after the scan; wait_lock
    | WaitExit                          // about to return; wait_lock
    | SleepLock                         // sleep(p, &wait_lock); wait_lock
    | SleepDrop                         // wait_lock, own lock
    | SleepMark                         // own lock
    | SleepSched                        // SLEEPING, in sched; own lock
    | Asleep                            // switched away
    | Woken                             // back from sched; own lock
    | ForkScan(i: nat)                  // allocproc at slot i; no lock
    | ForkHeld(i: nat)                  // lock of i
    | ForkMade(i: nat)                  // slot i is USED; lock of i
    | ForkLink(i: nat)                  // no lock
    | ForkLinked(i: nat)                // wait_lock
    | ForkUnlock(i: nat)                // parent set; wait_lock
    | ForkReady(i: nat)                 // no lock
    | ForkReadyHeld(i: nat)             // lock of i
    | Blocked                           // asleep on some other channel

  datatype Proc = Proc(state: State, chan: Chan, parent: Parent, killed: bool, lock: Owner, pc: Pc)

  /** The process table and `wait_lock`; slot 0 is `initproc`. */
  datatype Sys = Sys(ps: seq<Proc>, wait: Owner)

  /** One step. `p` is the process whose thread moves; the scheduler's own steps
      are `Switch` (it releases the lock of a process that left) and `Dispatch`. */
  datatype Label =
    | Move(p: nat)                      // the next step of the code
    | Begin(p: nat, pc: Pc)             // enter kexit, kwait or kfork
    | Fail(p: nat)                      // copyout in kwait or memory in kfork fails
    | Switch(p: nat)
    | Dispatch(p: nat)
    | Yield(p: nat)
    | SleepOther(p: nat, c: nat)
    | WakeOther(p: nat)
    | Kill(p: nat)

  predicate HoldsWait(pc: Pc) {
    match pc
    case ExitScan(_) => true
    case ExitWakeInit(_, _) => true
    case ExitWakeInitHeld(_, _) => true
    case ExitWake(_) => true
    case ExitWakeHeld(_) => true
    case ExitLock => true
    case ExitMark => true
    case ExitRelease => true
    case WaitScan(_, _) => true
    case WaitHeld(_, _) => true
    case WaitDecide(_) => true
    case WaitExit => true
    case SleepLock => true
    case SleepDrop => true
    case ForkLinked(_) => true
    case ForkUnlock(_) => true
    case _ => false
  }

  /** The slot whose lock the thread of `p` holds, -1 for none. */
  function HeldSlot(p: nat, pc: Pc): int {
    match pc
    case ExitWakeInitHeld(_, j) => j
    case ExitWakeHeld(j) => j
    case ExitMark => p
    case ExitRelease => p
    case ExitSched => p
    case WaitHeld(i, _) => i
    case SleepDrop => p
    case SleepMark => p
    case SleepSched => p
    case Woken => p
    case ForkHeld(i) => i
    case ForkMade(i) => i
    case ForkReadyHeld(i) => i
    case _ => -1
  }

  /** Points where a timer interrupt may make the process yield. */
  predicate Preemptible(pc: Pc) {
    match pc
    case Run => true
    case ExitStart => true
    case WaitStart => true
    case ForkScan(_) => true
    case ForkLink(_) => true
    case ForkReady(_) => true
    case _ => false
  }

  /** The outcome of a step of process `p`: the new contents of slot `p`, of one
      other slot, and of `wait_lock`. When no other slot changes, `i` is `p`. */
  datatype Effect = Effect(me: Proc, i: nat, it: Proc, wait: Owner)

  function Apply(s: Sys, p: nat, e: Effect): Sys
    requires p < |s.ps| && e.i < |s.ps|
  {
    Sys(s.ps[e.i := e.it][p := e.me], e.wait)
  }

  /** `freeproc`. */
  function Freed(q: Proc): Proc {
    q.(state := Unused, chan := NoChan, parent := NoParent, killed := false, pc := NoThread)
  }

  /** One slot of `wakeup(chan)`, and the release of its lock. */
  function WokenUp(q: Proc, chan: Chan): Proc {
    q.(state := if q.state == Sleeping && q.chan == chan then Runnable else q.state, lock := Free)
  }

  /** The lock that the next step of `p` has to acquire, if any, is free. */
  predicate CanMove(s: Sys, p: nat)
    requires p < |s.ps|
  {
    var n := |s.ps|;
    match s.ps[p].pc
    case NoThread => false
    case Run => false
    case ExitStart => s.wait == Free
    case ExitWakeInit(i, j) => j < n && j != p ==> s.ps[j].lock == Free
    case ExitWake(j) => j < n && j != p ==> s.ps[j].lock == Free
    case ExitLock => s.ps[p].lock == Free
    case ExitSched => false
    case Dead => false
    case WaitStart => s.wait == Free
    case WaitScan(i, kids) => i < n && s.ps[i].parent == Child(p) ==> s.ps[i].lock == Free
    case WaitDecide(kids) => s.ps[p].lock == Free
    case SleepLock => s.ps[p].lock == Free
    case SleepSched => false
    case Asleep => false
    case ForkScan(i) => i < n ==> s.ps[i].lock == Free
    case ForkLink(i) => s.wait == Free
    case ForkReady(i) => i < n ==> s.ps[i].lock == Free
    case Blocked => false
    case _ => true
  }

  predicate Enabled(s: Sys, l: Label) {
    && l.p < |s.ps|
    && var q := s.ps[l.p];
       match l
       case Move(p) => q.state in {Running, Zombie} && CanMove(s, p)
       case Begin(p, pc) =>
         q.state == Running && q.pc == Run &&
         (pc == WaitStart || pc == ForkScan(0) || (pc == ExitStart && p != 0))
       case Fail(p) =>
         q.state == Running &&
         (match q.pc
          case WaitHeld(i, _) => i < |s.ps| && s.ps[i].state == Zombie
          case ForkMade(i) => i < |s.ps|
          case _ => false)
       case Switch(p) => q.pc == SleepSched || q.pc == ExitSched
       case Dispatch(p) => q.state == Runnable && q.lock == Free
       case Yield(p) => q.state == Running && q.lock == Free && Preemptible(q.pc)
       case SleepOther(p, c) => q.state == Running && q.lock == Free && q.pc == Run
       case WakeOther(p) => q.state == Sleeping && q.chan.OnOther? && q.lock == Free
       case Kill(p) => q.lock == Free
  }

  /** Only slot `p` changes. */
  function Alone(s: Sys, p: nat, me: Proc): Effect
    requires p < |s.ps|
  {
    Effect(me, p, s.ps[p], s.wait)
  }

  /** Slot `p` changes, and slot `i` if that is another slot of the table. */
  function With(s: Sys, p: nat, me: Proc, i: nat, it: Proc): Effect
    requires p < |s.ps|
  {
    if i < |s.ps| && i != p then Effect(me, i, it, s.wait) else Alone(s, p, s.ps[p])
  }

  /** The steps of `reparent` in `kexit`, with its `wakeup(initproc)`. */
  function ReparentStep(s: Sys, p: nat): (e: Effect)
    requires p < |s.ps|
    ensures e.i < |s.ps|
  {
    var n := |s.ps|;
    var me := s.ps[p];
    match me.pc
    case ExitStart => Alone(s, p, me.(pc := ExitScan(0))).(wait := By(p))
    case ExitScan(i) =>
      if i >= n then Alone(s, p, me.(pc := ExitWake(0)))
      else if s.ps[i].parent == Child(p) then
        With(s, p, me.(pc := ExitWakeInit(i, 0)), i, s.ps[i].(parent := Child(0)))
      else Alone(s, p, me.(pc := ExitScan(i + 1)))
    case ExitWakeInit(i, j) =>
      if j >= n then Alone(s, p, me.(pc := ExitScan(i + 1)))
      else if j == p then Alone(s, p, me.(pc := ExitWakeInit(i, j + 1)))
      else With(s, p, me.(pc := ExitWakeInitHeld(i, j)), j, s.ps[j].(lock := By(p)))
    case ExitWakeInitHeld(i, j) =>
      if j >= n then Alone(s, p, me)
      else With(s, p, me.(pc := ExitWakeInit(i, j + 1)), j, WokenUp(s.ps[j], OnProc(0)))
    case _ => Alone(s, p, me)
  }

  /** The other steps of `kexit`, with `wakeup(p->parent)`. */
  function ExitStep(s: Sys, p: nat): (e: Effect)
    requires p < |s.ps|
    ensures e.i < |s.ps|
  {
    var n := |s.ps|;
    var me := s.ps[p];
    match me.pc
    case ExitWake(j) =>
      if j >= n then Alone(s, p, me.(pc := ExitLock))
      else if j == p then Alone(s, p, me.(pc := ExitWake(j + 1)))
      else With(s, p, me.(pc := ExitWakeHeld(j)), j, s.ps[j].(lock := By(p)))
    case ExitWakeHeld(j) =>
      if j >= n then Alone(s, p, me)
      else
        var chan := if me.parent.Child? then OnProc(me.parent.p) else NoChan;
        With(s, p, me.(pc := ExitWake(j + 1)), j, WokenUp(s.ps[j], chan))
    case ExitLock => Alone(s, p, me.(lock := By(p), pc := ExitMark))
    case ExitMark => Alone(s, p, me.(state := Zombie, pc := ExitRelease))
    case ExitRelease => Alone(s, p, me.(pc := ExitSched)).(wait := Free)
    case _ => Alone(s, p, me)
  }

  /** The steps of `kwait`. */
  function WaitStep(s: Sys, p: nat): (e: Effect)
    requires p < |s.ps|
    ensures e.i < |s.ps|
  {
    var n := |s.ps|;
    var me := s.ps[p];
    match me.pc
    case WaitStart => Alone(s, p, me.(pc := WaitScan(0, false))).(wait := By(p))
    case WaitScan(i, kids) =>
      if i >= n then Alone(s, p, me.(pc := WaitDecide(kids)))
      else if s.ps[i].parent == Child(p) then
        With(s, p, me.(pc := WaitHeld(i, kids)), i, s.ps[i].(lock := By(p)))
      else Alone(s, p, me.(pc := WaitScan(i + 1, kids)))
    case WaitHeld(i, kids) =>
      if i >= n then Alone(s, p, me)
      else if s.ps[i].state == Zombie then
        With(s, p, me.(pc := WaitExit), i, Freed(s.ps[i]).(lock := Free))
      else With(s, p, me.(pc := WaitScan(i + 1, true)), i, s.ps[i].(lock := Free))
    case WaitDecide(kids) =>
      Alone(s, p, me.(pc := if !kids || me.killed then WaitExit else SleepLock))
    case WaitExit => Alone(s, p, me.(pc := Run)).(wait := Free)
    case _ => Alone(s, p, me)
  }

  /** The steps of `sleep(p, &wait_lock)`. */
  function SleepStep(s: Sys, p: nat): (e: Effect)
    requires p < |s.ps|
    ensures e.i < |s.ps|
  {
    var me := s.ps[p];
    match me.pc
    case SleepLock => Alone(s, p, me.(lock := By(p), pc := SleepDrop))
    case SleepDrop => Alone(s, p, me.(pc := SleepMark)).(wait := Free)
    case SleepMark => Alone(s, p, me.(chan := OnProc(p), state := Sleeping, pc := SleepSched))
    case Woken => Alone(s, p, me.(chan := NoChan, lock := Free, pc := WaitStart))
    case _ => Alone(s, p, me)
  }

  /** The steps of `allocproc` in `kfork`. */
  function AllocStep(s: Sys, p: nat): (e: Effect)
    requires p < |s.ps|
    ensures e.i < |s.ps|
  {
    var n := |s.ps|;
    var me := s.ps[p];
    match me.pc
    case ForkScan(i) =>
      if i >= n then Alone(s, p, me.(pc := Run))
      else if i == p then Alone(s, p, me.(pc := ForkScan(i + 1)))
      else With(s, p, me.(pc := ForkHeld(i)), i, s.ps[i].(lock := By(p)))
    case ForkHeld(i) =>
      if i >= n then Alone(s, p, me)
      else if s.ps[i].state == Unused then
        With(s, p, me.(pc := ForkMade(i)), i, s.ps[i].(state := Used))
      else With(s, p, me.(pc := ForkScan(i + 1)), i, s.ps[i].(lock := Free))
    case ForkMade(i) =>
      if i >= n then Alone(s, p, me)
      else With(s, p, me.(pc := ForkLink(i)), i, s.ps[i].(lock := Free))
    case _ => Alone(s, p, me)
  }

  /** The other steps of `kfork`. */
  function ForkStep(s: Sys, p: nat): (e: Effect)
    requires p < |s.ps|
    ensures e.i < |s.ps|
  {
    var n := |s.ps|;
    var me := s.ps[p];
    match me.pc
    case ForkLink(i) => Alone(s, p, me.(pc := ForkLinked(i))).(wait := By(p))
    case ForkLinked(i) =>
      if i >= n then Alone(s, p, me)
      else With(s, p, me.(pc := ForkUnlock(i)), i, s.ps[i].(parent := Child(p)))
    case ForkUnlock(i) => Alone(s, p, me.(pc := ForkReady(i))).(wait := Free)
    case ForkReady(i) =>
      if i >= n then Alone(s, p, me)
      else With(s, p, me.(pc := ForkReadyHeld(i)), i, s.ps[i].(lock := By(p)))
    case ForkReadyHeld(i) =>
      if i >= n then Alone(s, p, me)
      else With(s, p, me.(pc := Run), i, s.ps[i].(state := Runnable, lock := Free, pc := Run))
    case _ => Alone(s, p, me)
  }

  predicate InReparent(pc: Pc) {
    pc.ExitStart? || pc.ExitScan? || pc.ExitWakeInit? || pc.ExitWakeInitHeld?
  }

  predicate InExit(pc: Pc) {
    pc.ExitWake? || pc.ExitWakeHeld? || pc.ExitLock? || pc.ExitMark? || pc.ExitRelease?
  }

  predicate InWait(pc: Pc) {
    pc.WaitStart? || pc.WaitScan? || pc.WaitHeld? || pc.WaitDecide? || pc.WaitExit?
  }

  predicate InSleep(pc: Pc) {
    pc.SleepLock? || pc.SleepDrop? || pc.SleepMark? || pc.Woken?
  }

  predicate InAlloc(pc: Pc) {
    pc.ForkScan? || pc.ForkHeld? || pc.ForkMade?
  }

  /** Entering one of these functions, and the failures inside them. */
  function BranchStep(s: Sys, l: Label): (e: Effect)
    requires l.p < |s.ps|
    ensures e.i < |s.ps|
  {
    var p := l.p;
    var me := s.ps[p];
    match l
    case Begin(_, pc) => Alone(s, p, me.(pc := pc))
    case Fail(_) =>
      (match me.pc
       case WaitHeld(i, _) =>
         if i >= |s.ps| then Alone(s, p, me)
         else With(s, p, me.(pc := WaitExit), i, s.ps[i].(lock := Free))
       case ForkMade(i) =>
         if i >= |s.ps| then Alone(s, p, me)
         else With(s, p, me.(pc := Run), i, Freed(s.ps[i]).(lock := Free))
       case _ => Alone(s, p, me))
    case _ => Alone(s, p, me)
  }

  /** The scheduler, and what other code does to a process. */
  function OtherStep(s: Sys, l: Label): (e: Effect)
    requires l.p < |s.ps|
    ensures e.i < |s.ps|
  {
    var p := l.p;
    var me := s.ps[p];
    match l
    case Switch(_) => Alone(s, p, me.(lock := Free, pc := if me.pc == SleepSched then Asleep else Dead))
    case Dispatch(_) =>
      if me.pc == Asleep then Alone(s, p, me.(state := Running, lock := By(p), pc := Woken))
      else if me.pc == Blocked then Alone(s, p, me.(state := Running, chan := NoChan, pc := Run))
      else Alone(s, p, me.(state := Running))
    case Yield(_) => Alone(s, p, me.(state := Runnable))
    case SleepOther(_, c) => Alone(s, p, me.(state := Sleeping, chan := OnOther(c), pc := Blocked))
    case WakeOther(_) => Alone(s, p, me.(state := Runnable))
    case Kill(_) =>
      Alone(s, p, me.(killed := true, state := if me.state == Sleeping then Runnable else me.state))
    case _ => Alone(s, p, me)
  }

  function EffectOf(s: Sys, l: Label): (e: Effect)
    requires l.p < |s.ps|
    ensures e.i < |s.ps|
  {
    var pc := s.ps[l.p].pc;
    if l.Begin? || l.Fail? then BranchStep(s, l)
    else if !l.Move? then OtherStep(s, l)
    else if InReparent(pc) then ReparentStep(s, l.p)
    else if InExit(pc) then ExitStep(s, l.p)
    else if InWait(pc) then WaitStep(s, l.p)
    else if InSleep(pc) then SleepStep(s, l.p)
    else if InAlloc(pc) then AllocStep(s, l.p)
    else ForkStep(s, l.p)
  }

  function Step(s: Sys, l: Label): Sys
    requires Enabled(s, l)
  {
    Apply(s, l.p, EffectOf(s, l))
  }

  // ----- The invariant -----

  predicate IsLive(st: State) {
    st == Sleeping || st == Runnable || st == Running
  }

  /** What the position of a thread says about the state and channel of its
      process. */
  predicate StateOk(p: nat, q: Proc) {
    match q.pc
    case NoThread => q.state == Used || (q.state == Unused && q.parent == NoParent)
    case ExitRelease => q.state == Zombie
    case ExitSched => q.state == Zombie
    case Dead => q.state == Zombie
    case SleepSched => q.state == Sleeping && q.chan == OnProc(p)
    case Asleep => (q.state == Sleeping || q.state == Runnable) && q.chan == OnProc(p)
    case Blocked => (q.state == Sleeping || q.state == Runnable) && q.chan.OnOther?
    case pc => q.state == Running || (q.state == Runnable && Preemptible(pc))
  }

  /** The slot that a thread holds the lock of or is setting up is another slot of
      the table. */
  predicate IndexOk(n: nat, p: nat, pc: Pc) {
    match pc
    case ExitWakeInitHeld(_, j) => j < n && j != p
    case ExitWakeHeld(j) => j < n && j != p
    case WaitHeld(i, _) => i < n && i != p
    case ForkHeld(i) => i < n && i != p
    case ForkMade(i) => i < n && i != p
    case ForkLink(i) => i < n && i != p
    case ForkLinked(i) => i < n && i != p
    case ForkUnlock(i) => i < n && i != p
    case ForkReady(i) => i < n && i != p
    case ForkReadyHeld(i) => i < n && i != p
    case _ => true
  }

  /** The slot that a fork at `pc` is filling, -1 for none. */
  function MakingSlot(pc: Pc): int {
    match pc
    case ForkMade(i) => i
    case ForkLink(i) => i
    case ForkLinked(i) => i
    case ForkUnlock(i) => i
    case ForkReady(i) => i
    case ForkReadyHeld(i) => i
    case _ => -1
  }

  /** ... and has already linked it to its parent. */
  predicate Linked(pc: Pc) {
    pc.ForkUnlock? || pc.ForkReady? || pc.ForkReadyHeld?
  }

  /** An exiting parent at `pc` has no children left below this slot. */
  function ScanBound(n: nat, pc: Pc): nat {
    match pc
    case ExitScan(i) => i
    case ExitWakeInit(i, _) => i + 1
    case ExitWakeInitHeld(i, _) => i + 1
    case ExitWake(_) => n
    case ExitWakeHeld(_) => n
    case ExitLock => n
    case ExitMark => n
    case _ => 0
  }

  predicate Exiting(pc: Pc) {
    pc.ExitStart? || pc.ExitScan? || pc.ExitWakeInit? || pc.ExitWakeInitHeld? || pc.ExitWake? ||
    pc.ExitWakeHeld? || pc.ExitLock? || pc.ExitMark? || pc.ExitRelease? || pc.ExitSched? || pc.Dead?
  }

  /** Locks are held exactly where the code holds them. */
  ghost predicate LockInv(s: Sys) {
    && (forall p :: 0 <= p < |s.ps| ==> (s.wait == By(p) <==> HoldsWait(s.ps[p].pc)))
    && (forall p, q :: 0 <= p < |s.ps| && 0 <= q < |s.ps| ==>
          (s.ps[q].lock == By(p) <==> HeldSlot(p, s.ps[p].pc) == q))
  }

  ghost predicate StateInv(s: Sys) {
    && |s.ps| > 0 && InitOk(s.ps[0])
    && (forall p :: 0 <= p < |s.ps| ==> StateOk(p, s.ps[p]) && IndexOk(|s.ps|, p, s.ps[p].pc))
  }

  /** `initproc` runs, never exits and has no parent. */
  predicate InitOk(q: Proc) {
    !Exiting(q.pc) && q.pc != NoThread && q.parent == NoParent
  }

  /** A slot that a fork is filling is USED and belongs to that fork alone. */
  ghost predicate ForkInv(s: Sys) {
    && (forall p, i :: 0 <= p < |s.ps| && 0 <= i < |s.ps| ==> MadeOk(s, p, i))
    && (forall p, p' :: 0 <= p < |s.ps| && 0 <= p' < |s.ps| && p != p' ==> MadeApart(s, p, p'))
  }

  predicate MadeOk(s: Sys, p: nat, i: nat)
    requires p < |s.ps| && i < |s.ps|
  {
    && (MakingSlot(s.ps[p].pc) == i ==>
          && s.ps[i].state == Used && s.ps[i].pc == NoThread
          && s.ps[i].parent == if Linked(s.ps[p].pc) then Child(p) else NoParent)
    && (s.ps[i].state == Used && s.ps[i].parent == Child(p) ==> MakingSlot(s.ps[p].pc) == i)
  }

  predicate MadeApart(s: Sys, p: nat, p': nat)
    requires p < |s.ps| && p' < |s.ps|
  {
    MakingSlot(s.ps[p].pc) != -1 ==> MakingSlot(s.ps[p].pc) != MakingSlot(s.ps[p'].pc)
  }

  /** No process has a ZOMBIE, UNUSED or half-made parent, and an exiting parent
      keeps only the children it has not reached yet. */
  ghost predicate ParentInv(s: Sys) {
    && (forall q :: 0 <= q < |s.ps| && s.ps[q].parent.Child? ==> s.ps[q].parent.p < |s.ps| && s.ps[q].parent.p != q)
    && (forall q, r :: 0 <= q < |s.ps| && 0 <= r < |s.ps| && s.ps[q].parent == Child(r) ==>
          IsLive(s.ps[r].state) && q >= ScanBound(|s.ps|, s.ps[r].pc))
  }

  /** `p` sleeps in `kwait`, or has given up `wait_lock` and is about to. */
  predicate Waiting(q: Proc) {
    q.pc == SleepMark || q.pc == SleepSched || (q.pc == Asleep && q.state == Sleeping)
  }

  /** A `reparent` under way has yet to reach slot 0 in its `wakeup(initproc)`. */
  predicate InitToWake(s: Sys) {
    && s.wait.By? && s.wait.p < |s.ps|
    && (match s.ps[s.wait.p].pc
        case ExitWakeInit(_, j) => j == 0
        case ExitWakeInitHeld(_, j) => j == 0
        case _ => false)
  }

  /** The scan of `kwait` at `pc` has seen that children below this slot are not
      zombies. */
  function SeenBound(n: nat, pc: Pc): nat {
    match pc
    case WaitScan(i, _) => i
    case WaitHeld(i, _) => i
    case WaitDecide(_) => n
    case SleepLock => n
    case SleepDrop => n
    case _ => 0
  }

  /** ... and that there are any. */
  predicate SeenKids(pc: Pc) {
    match pc
    case WaitScan(_, kids) => kids
    case WaitHeld(_, kids) => kids
    case WaitDecide(kids) => kids
    case _ => true
  }

  /** An exiting process at `pc` has woken its parent in slot `r`. */
  predicate Woke(pc: Pc, r: nat) {
    match pc
    case ExitWake(j) => j > r
    case ExitWakeHeld(j) => j > r
    case ExitLock => true
    case ExitMark => true
    case _ => false
  }

  /** No lost wakeup, with what the code knows on the way. */
  ghost predicate WaitInv(s: Sys) {
    && (forall q, r :: 0 <= q < |s.ps| && 0 <= r < |s.ps| && s.ps[q].parent == Child(r) ==>
          PairOk(s, q, r, s.ps[q], s.ps[r]))
    && (forall p, i :: 0 <= p < |s.ps| && 0 <= i < |s.ps| && HeldChild(s.ps[p].pc, i) ==>
          s.ps[i].parent == Child(p))
  }

  /** Child `q` and its parent `r`. */
  predicate PairOk(s: Sys, q: nat, r: nat, child: Proc, parent: Proc) {
    && (q < SeenBound(|s.ps|, parent.pc) ==> child.state != Zombie && SeenKids(parent.pc))
    && (child.state == Zombie && Waiting(parent) ==> r == 0 && InitToWake(s))
    && (Woke(child.pc, r) ==> !Waiting(parent))
  }

  predicate HeldChild(pc: Pc, i: nat) {
    pc.WaitHeld? && pc.i == i
  }

  ghost predicate Inv(s: Sys) {
    LockInv(s) && StateInv(s) && ForkInv(s) && ParentInv(s) && WaitInv(s)
  }

  // ----- What a step has to do locally for each part to be kept -----

  /** A lock word is left alone, or changes between free and held by `p`. */
  predicate Taken(was: Owner, now: Owner, p: nat) {
    was == now || ((was == Free || was == By(p)) && (now == Free || now == By(p)))
  }

  predicate Near(h: int, p: nat, i: nat) {
    h == -1 || h == p || h == i
  }

  predicate LockLocal(s: Sys, p: nat, e: Effect)
    requires p < |s.ps| && e.i < |s.ps|
  {
    var h, h' := HeldSlot(p, s.ps[p].pc), HeldSlot(p, e.me.pc);
    var it := s.ps[e.i];
    && Taken(s.wait, e.wait, p) && (e.wait == By(p) <==> HoldsWait(e.me.pc))
    && (h == h' || (Near(h, p, e.i) && Near(h', p, e.i)))
    && Taken(s.ps[p].lock, e.me.lock, p) && (e.me.lock == By(p) <==> h' == p)
    && (e.i != p ==>
          && HoldsWait(e.it.pc) == HoldsWait(it.pc) && HeldSlot(e.i, e.it.pc) == HeldSlot(e.i, it.pc)
          && Taken(it.lock, e.it.lock, p) && (e.it.lock == By(p) <==> h' == e.i))
  }

  lemma LockGeneric(s: Sys, p: nat, e: Effect)
    requires p < |s.ps| && e.i < |s.ps| && LockInv(s) && LockLocal(s, p, e)
    ensures LockInv(Apply(s, p, e))
  {
    var t := Apply(s, p, e);
    forall x | 0 <= x < |t.ps|
      ensures t.wait == By(x) <==> HoldsWait(t.ps[x].pc)
    {
      assert s.wait == By(x) <==> HoldsWait(s.ps[x].pc);
    }
    forall x, q | 0 <= x < |t.ps| && 0 <= q < |t.ps|
      ensures t.ps[q].lock == By(x) <==> HeldSlot(x, t.ps[x].pc) == q
    {
      assert s.ps[q].lock == By(x) <==> HeldSlot(x, s.ps[x].pc) == q;
    }
  }

  predicate StateLocal(s: Sys, p: nat, e: Effect)
    requires p < |s.ps| && e.i < |s.ps|
  {
    && StateOk(p, e.me) && IndexOk(|s.ps|, p, e.me.pc) && (p == 0 ==> InitOk(e.me))
    && (e.i != p ==>
          StateOk(e.i, e.it) && IndexOk(|s.ps|, e.i, e.it.pc) && (e.i == 0 ==> InitOk(e.it)))
  }

  lemma StateGeneric(s: Sys, p: nat, e: Effect)
    requires p < |s.ps| && e.i < |s.ps| && StateInv(s) && StateLocal(s, p, e)
    ensures StateInv(Apply(s, p, e))
  {
    hide StateOk, IndexOk, InitOk;
  }

  /** A slot that some fork may be filling stays as that fork left it. */
  predicate SameMade(was: Proc, now: Proc) {
    was.state == Used ==> now.state == was.state && now.pc == was.pc && now.parent == was.parent
  }

  predicate ForkLocal(s: Sys, p: nat, e: Effect)
    requires p < |s.ps| && e.i < |s.ps|
  {
    var m, m' := MakingSlot(s.ps[p].pc), MakingSlot(e.me.pc);
    var it := s.ps[e.i];
    && SameMade(s.ps[p], e.me) && (e.me.state == Used ==> s.ps[p].state == Used)
    && (e.i != p ==>
          && (m == e.i || SameMade(it, e.it)) && (e.it.state == Used ==> it.state == Used || m' == e.i)
          && MakingSlot(e.it.pc) == MakingSlot(it.pc) && Linked(e.it.pc) == Linked(it.pc))
    && (m != -1 && m != m' ==> m == e.i && e.i != p && e.it.state != Used)
    && (m' != -1 ==>
          if m' == e.i && e.i != p
          then
            && e.it.state == Used && e.it.pc == NoThread && (m == m' || it.state != Used)
            && e.it.parent == if Linked(e.me.pc) then Child(p) else NoParent
          else m == m' && Linked(e.me.pc) == Linked(s.ps[p].pc))
  }

  lemma ForkGeneric(s: Sys, p: nat, e: Effect)
    requires p < |s.ps| && e.i < |s.ps| && ForkInv(s) && ForkLocal(s, p, e)
    ensures ForkInv(Apply(s, p, e))
  {
    var t := Apply(s, p, e);
    forall x, i | 0 <= x < |t.ps| && 0 <= i < |t.ps|
      ensures MadeOk(t, x, i)
    {
      hide MakingSlot, Linked, ForkLocal;
      assert MadeOk(s, x, i) && MadeOk(s, p, i) && (x != p ==> MadeApart(s, x, p));
      MadeKept(s, p, e, x, i);
    }
    forall x, x' | 0 <= x < |t.ps| && 0 <= x' < |t.ps| && x != x'
      ensures MadeApart(t, x, x')
    {
      hide MakingSlot, Linked, ForkLocal;
      assert MadeApart(s, x, x');
      assert e.i < |s.ps| && MadeOk(s, x, e.i) && MadeOk(s, x', e.i);
      ApartKept(s, p, e, x, x');
    }
  }

  lemma MadeKept(s: Sys, p: nat, e: Effect, x: nat, i: nat)
    requires p < |s.ps| && e.i < |s.ps| && x < |s.ps| && i < |s.ps| && ForkLocal(s, p, e)
    requires MadeOk(s, x, i) && MadeOk(s, p, i) && (x != p ==> MadeApart(s, x, p))
    ensures MadeOk(Apply(s, p, e), x, i)
  {
    hide MakingSlot, Linked;
    var t := Apply(s, p, e);
    assert t.ps[x] == if x == p then e.me else if x == e.i then e.it else s.ps[x];
    assert t.ps[i] == if i == p then e.me else if i == e.i then e.it else s.ps[i];
  }

  lemma ApartKept(s: Sys, p: nat, e: Effect, x: nat, x': nat)
    requires p < |s.ps| && e.i < |s.ps| && x < |s.ps| && x' < |s.ps| && x != x' && ForkLocal(s, p, e)
    requires MadeApart(s, x, x') && MadeOk(s, x, e.i) && MadeOk(s, x', e.i)
    ensures MadeApart(Apply(s, p, e), x, x')
  {
    hide MakingSlot, Linked;
    var t := Apply(s, p, e);
    assert t.ps[x] == if x == p then e.me else if x == e.i then e.it else s.ps[x];
    assert t.ps[x'] == if x' == p then e.me else if x' == e.i then e.it else s.ps[x'];
  }

  predicate ParentLocal(s: Sys, p: nat, e: Effect)
    requires p < |s.ps| && e.i < |s.ps|
  {
    var n := |s.ps|;
    var me, it := s.ps[p], s.ps[e.i];
    var b, b' := ScanBound(n, me.pc), ScanBound(n, e.me.pc);
    // the children that p keeps
    && (IsLive(e.me.state) || !IsLive(me.state) || b >= n)
    && (b' <= b || b >= n || (b' == b + 1 && !ChildAfter(s, e, b, p)))
    && e.me.parent == me.parent
    && (e.i != p ==>
          // the children that i keeps
          && (IsLive(it.state) ==> IsLive(e.it.state) && ScanBound(n, e.it.pc) <= ScanBound(n, it.pc))
          // the parent that i gets
          && (e.it.parent == it.parent || e.it.parent == NoParent || AdoptedBy(s, p, e)))
  }

  /** Slot `b` is a child of `p` after the step. */
  predicate ChildAfter(s: Sys, e: Effect, b: nat, p: nat)
    requires b < |s.ps|
  {
    b != p && (if b == e.i then e.it.parent else s.ps[b].parent) == Child(p)
  }

  /** Slot `i` becomes a child of `initproc`, or of `p`. */
  predicate AdoptedBy(s: Sys, p: nat, e: Effect)
    requires p < |s.ps| && e.i < |s.ps|
  {
    || (e.it.parent == Child(0) && p != 0 && e.i != 0 && IsLive(s.ps[0].state) && ScanBound(|s.ps|, s.ps[0].pc) == 0)
    || (e.it.parent == Child(p) && IsLive(e.me.state) && ScanBound(|s.ps|, e.me.pc) == 0)
  }

  lemma ParentGeneric(s: Sys, p: nat, e: Effect)
    requires p < |s.ps| && e.i < |s.ps| && ParentInv(s) && ParentLocal(s, p, e)
    ensures ParentInv(Apply(s, p, e))
  {
    var t := Apply(s, p, e);
    forall q | 0 <= q < |t.ps| && t.ps[q].parent.Child?
      ensures t.ps[q].parent.p < |t.ps| && t.ps[q].parent.p != q
    {
      assert s.ps[q].parent.Child? ==> s.ps[q].parent.p < |s.ps| && s.ps[q].parent.p != q;
    }
    forall q, r | 0 <= q < |t.ps| && 0 <= r < |t.ps| && t.ps[q].parent == Child(r)
      ensures IsLive(t.ps[r].state) && q >= ScanBound(|t.ps|, t.ps[r].pc)
    {
      assert s.ps[q].parent == Child(r) ==> IsLive(s.ps[r].state) && q >= ScanBound(|s.ps|, s.ps[r].pc);
    }
  }

  predicate WaitLocal(s: Sys, p: nat, e: Effect)
    requires p < |s.ps| && e.i < |s.ps|
  {
    var n := |s.ps|;
    var me, it := s.ps[p], s.ps[e.i];
    var b, b' := SeenBound(n, me.pc), SeenBound(n, e.me.pc);
    var t := Apply(s, p, e);
    // init stays to be woken, or has been
    && (InitToWake(s) ==> InitToWake(t) || (e.i == 0 && p != 0 && !Waiting(e.it)))
    // p as a parent
    && (Waiting(e.me) ==> Waiting(me) || me.pc == SleepDrop)
    && (SeenKids(e.me.pc) || !SeenKids(me.pc) || b' == 0)
    && (b' <= b || b >= n ||
        (b' == b + 1 && (ChildAfter(s, e, b, p) ==> b == e.i && e.it.state != Zombie && SeenKids(e.me.pc))))
    // p as a child
    && (e.me.state == Zombie ==> me.state == Zombie || (me.pc == ExitMark && s.wait == By(p)))
    && e.me.parent == me.parent
    && (me.parent.Child? ==>
          var r := me.parent.p;
          Woke(e.me.pc, r) ==> Woke(me.pc, r) || (e.i == r && r != p && !Waiting(e.it)))
    && (e.i != p ==>
          // i as a parent
          && (Waiting(e.it) ==> Waiting(it))
          && (e.it.pc == it.pc || e.it.pc == NoThread || e.it.pc == Run)
          // i as a child
          && (e.it.state == Zombie ==> it.state == Zombie)
          && (e.it.parent == it.parent || e.it.parent == NoParent || Adopted(s, p, e))
          && (e.it.parent == it.parent || s.wait == By(p)))
    && (e.me.pc.WaitHeld? ==>
          || (e.me.pc == me.pc && e.i == p)
          || (e.me.pc.i == e.i && e.i != p && e.it.parent == Child(p)))
  }

  /** Slot `i` gets a parent that is not scanning or waiting, or that is about to
      be woken. */
  predicate Adopted(s: Sys, p: nat, e: Effect)
    requires p < |s.ps| && e.i < |s.ps|
  {
    var t := Apply(s, p, e);
    || (e.it.parent == Child(0) && p != 0 && e.i != 0 && s.wait == By(p) && InitToWake(t))
    || (e.it.parent == Child(p) && SeenBound(|s.ps|, e.me.pc) == 0 && !Waiting(e.me))
  }

  lemma PairKept(s: Sys, p: nat, e: Effect, q: nat, r: nat)
    requires p < |s.ps| && e.i < |s.ps| && q < |s.ps| && r < |s.ps| && q != r && WaitLocal(s, p, e)
    requires Apply(s, p, e).ps[q].parent == Child(r)
    requires s.ps[q].parent == Child(r) ==> PairOk(s, q, r, s.ps[q], s.ps[r])
    requires s.wait == By(r) <==> HoldsWait(s.ps[r].pc)
    requires s.wait == By(q) <==> HoldsWait(s.ps[q].pc)
    ensures PairOk(Apply(s, p, e), q, r, Apply(s, p, e).ps[q], Apply(s, p, e).ps[r])
  {
    SeenKept(s, p, e, q, r);
    ZombieKept(s, p, e, q, r);
    WokeKept(s, p, e, q, r);
    hide WaitLocal, Apply, SeenBound, SeenKids, Waiting, InitToWake, Woke, HoldsWait;
  }

  lemma SeenKept(s: Sys, p: nat, e: Effect, q: nat, r: nat)
    requires p < |s.ps| && e.i < |s.ps| && q < |s.ps| && r < |s.ps| && q != r && WaitLocal(s, p, e)
    requires Apply(s, p, e).ps[q].parent == Child(r)
    requires s.ps[q].parent == Child(r) ==> PairOk(s, q, r, s.ps[q], s.ps[r])
    requires s.wait == By(r) <==> HoldsWait(s.ps[r].pc)
    requires s.wait == By(q) <==> HoldsWait(s.ps[q].pc)
    ensures var t := Apply(s, p, e);
      q < SeenBound(|t.ps|, t.ps[r].pc) ==> t.ps[q].state != Zombie && SeenKids(t.ps[r].pc)
  {
    hide InitToWake, Woke;
    var t := Apply(s, p, e);
    assert t.ps[q] == if q == p then e.me else if q == e.i then e.it else s.ps[q];
    assert t.ps[r] == if r == p then e.me else if r == e.i then e.it else s.ps[r];
  }

  lemma ZombieKept(s: Sys, p: nat, e: Effect, q: nat, r: nat)
    requires p < |s.ps| && e.i < |s.ps| && q < |s.ps| && r < |s.ps| && q != r && WaitLocal(s, p, e)
    requires Apply(s, p, e).ps[q].parent == Child(r)
    requires s.ps[q].parent == Child(r) ==> PairOk(s, q, r, s.ps[q], s.ps[r])
    requires s.wait == By(r) <==> HoldsWait(s.ps[r].pc)
    requires s.wait == By(q) <==> HoldsWait(s.ps[q].pc)
    ensures var t := Apply(s, p, e);
      t.ps[q].state == Zombie && Waiting(t.ps[r]) ==> r == 0 && InitToWake(t)
  {
    var t := Apply(s, p, e);
    assert t.ps[q] == if q == p then e.me else if q == e.i then e.it else s.ps[q];
    assert t.ps[r] == if r == p then e.me else if r == e.i then e.it else s.ps[r];
  }

  lemma WokeKept(s: Sys, p: nat, e: Effect, q: nat, r: nat)
    requires p < |s.ps| && e.i < |s.ps| && q < |s.ps| && r < |s.ps| && q != r && WaitLocal(s, p, e)
    requires Apply(s, p, e).ps[q].parent == Child(r)
    requires s.ps[q].parent == Child(r) ==> PairOk(s, q, r, s.ps[q], s.ps[r])
    requires s.wait == By(r) <==> HoldsWait(s.ps[r].pc)
    requires s.wait == By(q) <==> HoldsWait(s.ps[q].pc)
    ensures var t := Apply(s, p, e);
      Woke(t.ps[q].pc, r) ==> !Waiting(t.ps[r])
  {
    hide InitToWake, SeenBound, SeenKids;
    var t := Apply(s, p, e);
    assert t.ps[q] == if q == p then e.me else if q == e.i then e.it else s.ps[q];
    assert t.ps[r] == if r == p then e.me else if r == e.i then e.it else s.ps[r];
  }

  lemma WaitGeneric(s: Sys, p: nat, e: Effect)
    requires p < |s.ps| && e.i < |s.ps| && LockInv(s) && ParentInv(s) && WaitInv(s) && WaitLocal(s, p, e)
    requires ParentInv(Apply(s, p, e))
    ensures WaitInv(Apply(s, p, e))
  {
    var t := Apply(s, p, e);
    forall q, r | 0 <= q < |t.ps| && 0 <= r < |t.ps| && t.ps[q].parent == Child(r)
      ensures PairOk(t, q, r, t.ps[q], t.ps[r])
    {
      hide WaitLocal, PairOk, HoldsWait, HeldSlot, ScanBound;
      assert t.ps[q].parent.p != q;
      PairKept(s, p, e, q, r);
    }
    forall x, i | 0 <= x < |t.ps| && 0 <= i < |t.ps| && HeldChild(t.ps[x].pc, i)
      ensures t.ps[i].parent == Child(x)
    {
      hide WaitLocal, PairOk, HoldsWait, HeldSlot, ScanBound, HeldChild;
      HeldKept(s, p, e, x, i);
    }
  }

  lemma HeldKept(s: Sys, p: nat, e: Effect, x: nat, i: nat)
    requires p < |s.ps| && e.i < |s.ps| && x < |s.ps| && i < |s.ps| && WaitLocal(s, p, e)
    requires HeldChild(Apply(s, p, e).ps[x].pc, i)
    requires HeldChild(s.ps[x].pc, i) ==> s.ps[i].parent == Child(x)
    requires s.wait == By(x) <==> HoldsWait(s.ps[x].pc)
    ensures Apply(s, p, e).ps[i].parent == Child(x)
  {
    hide InitToWake, PairOk;
    var t := Apply(s, p, e);
    assert t.ps[x] == if x == p then e.me else if x == e.i then e.it else s.ps[x];
    assert t.ps[i] == if i == p then e.me else if i == e.i then e.it else s.ps[i];
  }

  // ----- The steps of the code do that -----

  /** The invariant, as far as it is about slots `p`, `i` and 0. */
  predicate Facts(s: Sys, p: nat, i: nat)
    requires 0 < |s.ps| && p < |s.ps| && i < |s.ps|
  {
    var me, it := s.ps[p], s.ps[i];
    && (s.wait == By(p) <==> HoldsWait(me.pc)) && (s.wait == By(i) <==> HoldsWait(it.pc))
    && (me.lock == By(p) <==> HeldSlot(p, me.pc) == p)
    && (it.lock == By(p) <==> HeldSlot(p, me.pc) == i)
    && (it.lock == By(i) <==> HeldSlot(i, it.pc) == i)
    && StateOk(p, me) && IndexOk(|s.ps|, p, me.pc) && StateOk(i, it) && IndexOk(|s.ps|, i, it.pc)
    && InitOk(s.ps[0]) && StateOk(0, s.ps[0])
    && MadeOk(s, p, i)
    && (me.parent.Child? ==> me.parent.p < |s.ps| && me.parent.p != p)
    && (it.parent == Child(p) ==>
          IsLive(me.state) && i >= ScanBound(|s.ps|, me.pc) && PairOk(s, i, p, it, me))
    && (HeldChild(me.pc, i) ==> it.parent == Child(p))
  }

  lemma FactsHold(s: Sys, p: nat, i: nat)
    requires Inv(s) && p < |s.ps| && i < |s.ps|
    ensures Facts(s, p, i)
  {
    hide PairOk, StateOk, IndexOk, InitOk, HeldSlot, HoldsWait, MakingSlot, ScanBound;
  }

  lemma ReparentKeepsLock(s: Sys, p: nat)
    requires Enabled(s, Move(p)) && InReparent(s.ps[p].pc) && Facts(s, p, ReparentStep(s, p).i)
    ensures LockLocal(s, p, ReparentStep(s, p))
  {
    hide PairOk, InitOk, ScanBound;
  }

  lemma ReparentKeepsState(s: Sys, p: nat)
    requires Enabled(s, Move(p)) && InReparent(s.ps[p].pc) && Facts(s, p, ReparentStep(s, p).i)
    ensures StateLocal(s, p, ReparentStep(s, p))
  {
    hide PairOk, ScanBound, HeldChild;
  }

  lemma ReparentKeepsFork(s: Sys, p: nat)
    requires Enabled(s, Move(p)) && InReparent(s.ps[p].pc) && Facts(s, p, ReparentStep(s, p).i)
    ensures ForkLocal(s, p, ReparentStep(s, p))
  {
    hide PairOk, ScanBound, HeldSlot;
  }

  lemma ReparentKeepsParent(s: Sys, p: nat)
    requires Enabled(s, Move(p)) && InReparent(s.ps[p].pc) && Facts(s, p, ReparentStep(s, p).i)
    ensures ParentLocal(s, p, ReparentStep(s, p))
  {
    hide PairOk, HeldSlot;
  }

  lemma ReparentKeepsWait(s: Sys, p: nat)
    requires Enabled(s, Move(p)) && InReparent(s.ps[p].pc) && Facts(s, p, ReparentStep(s, p).i)
    ensures WaitLocal(s, p, ReparentStep(s, p))
  {
  }

  lemma ExitKeepsLock(s: Sys, p: nat)
    requires Enabled(s, Move(p)) && InExit(s.ps[p].pc) && Facts(s, p, ExitStep(s, p).i)
    ensures LockLocal(s, p, ExitStep(s, p))
  {
    hide PairOk, InitOk, ScanBound;
  }

  lemma ExitKeepsState(s: Sys, p: nat)
    requires Enabled(s, Move(p)) && InExit(s.ps[p].pc) && Facts(s, p, ExitStep(s, p).i)
    ensures StateLocal(s, p, ExitStep(s, p))
  {
    hide PairOk, ScanBound, HeldChild;
  }

  lemma ExitKeepsFork(s: Sys, p: nat)
    requires Enabled(s, Move(p)) && InExit(s.ps[p].pc) && Facts(s, p, ExitStep(s, p).i)
    ensures ForkLocal(s, p, ExitStep(s, p))
  {
    hide PairOk, ScanBound, HeldSlot;
  }

  lemma ExitKeepsParent(s: Sys, p: nat)
    requires Enabled(s, Move(p)) && InExit(s.ps[p].pc) && Facts(s, p, ExitStep(s, p).i)
    ensures ParentLocal(s, p, ExitStep(s, p))
  {
    hide PairOk, HeldSlot;
  }

  lemma ExitKeepsWait(s: Sys, p: nat)
    requires Enabled(s, Move(p)) && InExit(s.ps[p].pc) && Facts(s, p, ExitStep(s, p).i)
    ensures WaitLocal(s, p, ExitStep(s, p))
  {
  }

  lemma WaitKeepsLock(s: Sys, p: nat)
    requires Enabled(s, Move(p)) && InWait(s.ps[p].pc) && Facts(s, p, WaitStep(s, p).i)
    ensures LockLocal(s, p, WaitStep(s, p))
  {
    hide PairOk, InitOk, ScanBound;
  }

  lemma WaitKeepsState(s: Sys, p: nat)
    requires Enabled(s, Move(p)) && InWait(s.ps[p].pc) && Facts(s, p, WaitStep(s, p).i)
    ensures StateLocal(s, p, WaitStep(s, p))
  {
    hide PairOk, ScanBound, HeldChild;
  }

  lemma WaitKeepsFork(s: Sys, p: nat)
    requires Enabled(s, Move(p)) && InWait(s.ps[p].pc) && Facts(s, p, WaitStep(s, p).i)
    ensures ForkLocal(s, p, WaitStep(s, p))
  {
    hide PairOk, ScanBound, HeldSlot;
  }

  lemma WaitKeepsParent(s: Sys, p: nat)
    requires Enabled(s, Move(p)) && InWait(s.ps[p].pc) && Facts(s, p, WaitStep(s, p).i)
    ensures ParentLocal(s, p, WaitStep(s, p))
  {
    hide PairOk, HeldSlot;
  }

  lemma WaitKeepsWait(s: Sys, p: nat)
    requires Enabled(s, Move(p)) && InWait(s.ps[p].pc) && Facts(s, p, WaitStep(s, p).i)
    ensures WaitLocal(s, p, WaitStep(s, p))
  {
  }

  lemma SleepKeepsLock(s: Sys, p: nat)
    requires Enabled(s, Move(p)) && InSleep(s.ps[p].pc) && Facts(s, p, SleepStep(s, p).i)
    ensures LockLocal(s, p, SleepStep(s, p))
  {
    hide PairOk, InitOk, ScanBound;
  }

  lemma SleepKeepsState(s: Sys, p: nat)
    requires Enabled(s, Move(p)) && InSleep(s.ps[p].pc) && Facts(s, p, SleepStep(s, p).i)
    ensures StateLocal(s, p, SleepStep(s, p))
  {
    hide PairOk, ScanBound, HeldChild;
  }

  lemma SleepKeepsFork(s: Sys, p: nat)
    requires Enabled(s, Move(p)) && InSleep(s.ps[p].pc) && Facts(s, p, SleepStep(s, p).i)
    ensures ForkLocal(s, p, SleepStep(s, p))
  {
    hide PairOk, ScanBound, HeldSlot;
  }

  lemma SleepKeepsParent(s: Sys, p: nat)
    requires Enabled(s, Move(p)) && InSleep(s.ps[p].pc) && Facts(s, p, SleepStep(s, p).i)
    ensures ParentLocal(s, p, SleepStep(s, p))
  {
    hide PairOk, HeldSlot;
  }

  lemma SleepKeepsWait(s: Sys, p: nat)
    requires Enabled(s, Move(p)) && InSleep(s.ps[p].pc) && Facts(s, p, SleepStep(s, p).i)
    ensures WaitLocal(s, p, SleepStep(s, p))
  {
  }

  lemma AllocKeepsLock(s: Sys, p: nat)
    requires Enabled(s, Move(p)) && InAlloc(s.ps[p].pc) && Facts(s, p, AllocStep(s, p).i)
    ensures LockLocal(s, p, AllocStep(s, p))
  {
    hide PairOk, InitOk, ScanBound;
  }

  lemma AllocKeepsState(s: Sys, p: nat)
    requires Enabled(s, Move(p)) && InAlloc(s.ps[p].pc) && Facts(s, p, AllocStep(s, p).i)
    ensures StateLocal(s, p, AllocStep(s, p))
  {
    hide PairOk, ScanBound, HeldChild;
  }

  lemma AllocKeepsFork(s: Sys, p: nat)
    requires Enabled(s, Move(p)) && InAlloc(s.ps[p].pc) && Facts(s, p, AllocStep(s, p).i)
    ensures ForkLocal(s, p, AllocStep(s, p))
  {
    hide PairOk, ScanBound, HeldSlot;
  }

  lemma AllocKeepsParent(s: Sys, p: nat)
    requires Enabled(s, Move(p)) && InAlloc(s.ps[p].pc) && Facts(s, p, AllocStep(s, p).i)
    ensures ParentLocal(s, p, AllocStep(s, p))
  {
    hide PairOk, HeldSlot;
  }

  lemma AllocKeepsWait(s: Sys, p: nat)
    requires Enabled(s, Move(p)) && InAlloc(s.ps[p].pc) && Facts(s, p, AllocStep(s, p).i)
    ensures WaitLocal(s, p, AllocStep(s, p))
  {
  }

  lemma ForkKeepsLock(s: Sys, p: nat)
    requires Enabled(s, Move(p)) && Facts(s, p, ForkStep(s, p).i)
    ensures LockLocal(s, p, ForkStep(s, p))
  {
    hide PairOk, InitOk, ScanBound;
  }

  lemma ForkKeepsState(s: Sys, p: nat)
    requires Enabled(s, Move(p)) && Facts(s, p, ForkStep(s, p).i)
    ensures StateLocal(s, p, ForkStep(s, p))
  {
    hide PairOk, ScanBound, HeldChild;
  }

  lemma ForkKeepsFork(s: Sys, p: nat)
    requires Enabled(s, Move(p)) && Facts(s, p, ForkStep(s, p).i)
    ensures ForkLocal(s, p, ForkStep(s, p))
  {
    hide PairOk, ScanBound, HeldSlot;
  }

  lemma ForkKeepsParent(s: Sys, p: nat)
    requires Enabled(s, Move(p)) && Facts(s, p, ForkStep(s, p).i)
    ensures ParentLocal(s, p, ForkStep(s, p))
  {
    hide PairOk, HeldSlot;
  }

  lemma ForkKeepsWait(s: Sys, p: nat)
    requires Enabled(s, Move(p)) && Facts(s, p, ForkStep(s, p).i)
    ensures WaitLocal(s, p, ForkStep(s, p))
  {
  }

  lemma BranchKeepsLock(s: Sys, l: Label)
    requires Enabled(s, l) && !l.Move? && Facts(s, l.p, BranchStep(s, l).i)
    ensures LockLocal(s, l.p, BranchStep(s, l))
  {
    hide PairOk, InitOk, ScanBound;
  }

  lemma BranchKeepsState(s: Sys, l: Label)
    requires Enabled(s, l) && !l.Move? && Facts(s, l.p, BranchStep(s, l).i)
    ensures StateLocal(s, l.p, BranchStep(s, l))
  {
    hide PairOk, ScanBound, HeldChild;
  }

  lemma BranchKeepsFork(s: Sys, l: Label)
    requires Enabled(s, l) && !l.Move? && Facts(s, l.p, BranchStep(s, l).i)
    ensures ForkLocal(s, l.p, BranchStep(s, l))
  {
    hide PairOk, ScanBound, HeldSlot;
  }

  lemma BranchKeepsParent(s: Sys, l: Label)
    requires Enabled(s, l) && !l.Move? && Facts(s, l.p, BranchStep(s, l).i)
    ensures ParentLocal(s, l.p, BranchStep(s, l))
  {
    hide PairOk, HeldSlot;
  }

  lemma BranchKeepsWait(s: Sys, l: Label)
    requires Enabled(s, l) && !l.Move? && Facts(s, l.p, BranchStep(s, l).i)
    ensures WaitLocal(s, l.p, BranchStep(s, l))
  {
  }

  lemma OtherKeepsLock(s: Sys, l: Label)
    requires Enabled(s, l) && !l.Move? && Facts(s, l.p, OtherStep(s, l).i)
    ensures LockLocal(s, l.p, OtherStep(s, l))
  {
    hide PairOk, InitOk, ScanBound;
  }

  lemma OtherKeepsState(s: Sys, l: Label)
    requires Enabled(s, l) && !l.Move? && Facts(s, l.p, OtherStep(s, l).i)
    ensures StateLocal(s, l.p, OtherStep(s, l))
  {
    hide PairOk, ScanBound, HeldChild, MadeOk, HoldsWait;
  }

  lemma OtherKeepsFork(s: Sys, l: Label)
    requires Enabled(s, l) && !l.Move? && Facts(s, l.p, OtherStep(s, l).i)
    ensures ForkLocal(s, l.p, OtherStep(s, l))
  {
    hide PairOk, ScanBound, HeldSlot;
  }

  lemma OtherKeepsParent(s: Sys, l: Label)
    requires Enabled(s, l) && !l.Move? && Facts(s, l.p, OtherStep(s, l).i)
    ensures ParentLocal(s, l.p, OtherStep(s, l))
  {
    hide PairOk, HeldSlot;
  }

  lemma OtherKeepsWait(s: Sys, l: Label)
    requires Enabled(s, l) && !l.Move? && Facts(s, l.p, OtherStep(s, l).i)
    ensures WaitLocal(s, l.p, OtherStep(s, l))
  {
  }

  ghost predicate Local(s: Sys, p: nat, e: Effect)
    requires p < |s.ps| && e.i < |s.ps|
  {
    LockLocal(s, p, e) && StateLocal(s, p, e) && ForkLocal(s, p, e) && ParentLocal(s, p, e) && WaitLocal(s, p, e)
  }

  lemma StepIsLocal(s: Sys, l: Label)
    requires Inv(s) && Enabled(s, l)
    ensures Local(s, l.p, EffectOf(s, l))
  {
    hide Inv, Facts, LockLocal, StateLocal, ForkLocal, ParentLocal, WaitLocal;
    hide BranchStep, OtherStep, ReparentStep, ExitStep, WaitStep, SleepStep, AllocStep, ForkStep;
    var p := l.p;
    var pc := s.ps[p].pc;
    FactsHold(s, p, EffectOf(s, l).i);
    if l.Begin? || l.Fail? {
      BranchKeepsLock(s, l); BranchKeepsState(s, l); BranchKeepsFork(s, l);
      BranchKeepsParent(s, l); BranchKeepsWait(s, l);
    } else if !l.Move? {
      OtherKeepsLock(s, l); OtherKeepsState(s, l); OtherKeepsFork(s, l); OtherKeepsParent(s, l); OtherKeepsWait(s, l);
    } else if InReparent(pc) {
      ReparentKeepsLock(s, p); ReparentKeepsState(s, p); ReparentKeepsFork(s, p);
      ReparentKeepsParent(s, p); ReparentKeepsWait(s, p);
    } else if InExit(pc) {
      ExitKeepsLock(s, p); ExitKeepsState(s, p); ExitKeepsFork(s, p); ExitKeepsParent(s, p); ExitKeepsWait(s, p);
    } else if InWait(pc) {
      WaitKeepsLock(s, p); WaitKeepsState(s, p); WaitKeepsFork(s, p); WaitKeepsParent(s, p); WaitKeepsWait(s, p);
    } else if InSleep(pc) {
      SleepKeepsLock(s, p); SleepKeepsState(s, p); SleepKeepsFork(s, p); SleepKeepsParent(s, p); SleepKeepsWait(s, p);
    } else if InAlloc(pc) {
      AllocKeepsLock(s, p); AllocKeepsState(s, p); AllocKeepsFork(s, p); AllocKeepsParent(s, p); AllocKeepsWait(s, p);
    } else {
      ForkKeepsLock(s, p); ForkKeepsState(s, p); ForkKeepsFork(s, p); ForkKeepsParent(s, p); ForkKeepsWait(s, p);
    }
  }

  lemma {:induction false} StepKeepsInv(s: Sys, l: Label)
    requires Inv(s) && Enabled(s, l)
    ensures Inv(Step(s, l))
  {
    hide EffectOf, Apply, LockInv, StateInv, ForkInv, ParentInv, WaitInv;
    hide LockLocal, StateLocal, ForkLocal, ParentLocal, WaitLocal;
    StepIsLocal(s, l);
    var e := EffectOf(s, l);
    LockGeneric(s, l.p, e);
    StateGeneric(s, l.p, e);
    ForkGeneric(s, l.p, e);
    ParentGeneric(s, l.p, e);
    WaitGeneric(s, l.p, e);
  }

  // ----- Whole runs -----

  /** After `userinit`: `initproc` is runnable and every other slot is free. */
  function Boot(n: nat): Sys
    requires n > 0
  {
    Sys([Proc(Runnable, NoChan, NoParent, false, Free, Run)]
        + seq(n - 1, _ => Proc(Unused, NoChan, NoParent, false, Free, NoThread)), Free)
  }

  /** State `i + 1` follows from state `i` by step `i`. */
  ghost predicate Follows(ss: seq<Sys>, ls: seq<Label>, i: nat)
    requires i < |ls| && |ss| == |ls| + 1
  {
    Enabled(ss[i], ls[i]) && ss[i + 1] == Step(ss[i], ls[i])
  }

  /** The states `ss` of a run from boot, by the steps `ls`, in that order. */
  ghost predicate IsRun(n: nat, ss: seq<Sys>, ls: seq<Label>)
    requires n > 0
  {
    && |ss| == |ls| + 1 && ss[0] == Boot(n)
    && forall i: nat {:trigger Follows(ss, ls, i)} :: i < |ls| ==> Follows(ss, ls, i)
  }

  lemma {:induction false} BootInv(n: nat)
    requires n > 0
    ensures Inv(Boot(n))
  {
    var s := Boot(n);
    assert forall p :: 0 < p < n ==> s.ps[p] == Proc(Unused, NoChan, NoParent, false, Free, NoThread);
  }

  lemma {:induction false} RunInv(n: nat, ss: seq<Sys>, ls: seq<Label>, k: nat)
    requires n > 0 && IsRun(n, ss, ls) && k < |ss|
    ensures Inv(ss[k])
    decreases k
  {
    hide Inv, Step, Boot, Enabled;
    if k == 0 {
      BootInv(n);
    } else {
      RunInv(n, ss, ls, k - 1);
      assert Follows(ss, ls, k - 1);
      StepKeepsInv(ss[k - 1], ls[k - 1]);
    }
  }

  /** No lost wakeup: at every moment of every interleaving, when `wait_lock` is free no
      process that has a ZOMBIE child sleeps in `kwait`, or is in `sleep` on the way
      there with `wait_lock` already given up. */
  lemma {:induction false} NoLostWakeup(n: nat, ss: seq<Sys>, ls: seq<Label>, s: Sys, p: nat, q: nat)
    requires n > 0 && IsRun(n, ss, ls) && s in ss && s.wait == Free
    requires p < |s.ps| && q < |s.ps| && s.ps[q].parent == Child(p) && s.ps[q].state == Zombie
    ensures !Waiting(s.ps[p])
  {
    hide IsRun, LockInv, StateInv, ForkInv, ParentInv;
    var k: nat :| k < |ss| && ss[k] == s;
    RunInv(n, ss, ls, k);
    assert PairOk(s, q, p, s.ps[q], s.ps[p]);
  }

  /** At every moment of every interleaving the parent of a process is neither ZOMBIE
      nor UNUSED, and is not still being made. */
  lemma {:induction false} ParentsAreLive(n: nat, ss: seq<Sys>, ls: seq<Label>, s: Sys, q: nat)
    requires n > 0 && IsRun(n, ss, ls) && s in ss && q < |s.ps| && s.ps[q].parent.Child?
    ensures s.ps[q].parent.p < |s.ps| && IsLive(s.ps[s.ps[q].parent.p].state)
  {
    hide IsRun, LockInv, StateInv, ForkInv, WaitInv;
    var k: nat :| k < |ss| && ss[k] == s;
    RunInv(n, ss, ls, k);
    var r := s.ps[q].parent.p;
    assert r < |s.ps| && s.ps[q].parent == Child(r);
  }

  /** `kwait` goes to sleep, or gives up without having been killed, only when the
      scan it has just made is still right: no child is a zombie, respectively
      there is no child. */
  lemma {:induction false} WaitDecidesRightly(n: nat, ss: seq<Sys>, ls: seq<Label>, s: Sys, p: nat, q: nat)
    requires n > 0 && IsRun(n, ss, ls) && s in ss && p < |s.ps| && s.ps[p].pc.WaitDecide?
    requires q < |s.ps| && s.ps[q].parent == Child(p)
    ensures s.ps[p].pc.kids && s.ps[q].state != Zombie
  {
    hide IsRun, LockInv, StateInv, ForkInv, ParentInv;
    var k: nat :| k < |ss| && ss[k] == s;
    RunInv(n, ss, ls, k);
    assert PairOk(s, q, p, s.ps[q], s.ps[p]);
  }
}
