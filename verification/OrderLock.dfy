/** The per-order lock of controller/topup.go as an interleaving step system.

    Every shared access of LockOrder and UnlockOrder is one step of one thread;
    a run is any interleaving of such steps by any number of threads.  A mutex
    object is named by its position in the heap, so an entry that is deleted and
    created again under the same trade number is a different object. */
module OrderLock {
  import opened Prelude

  type Tid = nat
  type Mid = nat

  /** One refCountedMutex: who locked it, if anyone, and its reference count. */
  datatype Rcm = Rcm(owner: Option<Tid>, refCount: int)

  /** The statement a thread is about to execute. */
  datatype Step =
    | Idle
    | WantCreate     // LockOrder: createLock.Lock()
    | Looking        // orderLocks.Load, else Store of a new mutex
    | Found          // rcm.refCount++
    | Counted        // createLock.Unlock()
    | Waiting        // rcm.mu.Lock()
    | Holding        // UnlockOrder: orderLocks.Load, outside createLock
    | Loaded         // rcm.mu.Unlock()
    | WantRelease    // createLock.Lock()
    | Releasing      // rcm.refCount--
    | Decremented    // delete the entry if refCount == 0
    | Leaving        // createLock.Unlock()

  /** A thread: its next statement, its trade number and the mutex it points at.
      The last two mean nothing before they are set. */
  datatype Pc = Pc(at: Step, k: string, m: Mid)

  datatype State = State(
    creator: Option<Tid>,       // who holds createLock
    table: map<string, Mid>,    // orderLocks
    heap: seq<Rcm>,
    pcs: seq<Pc>,
    crashed: bool)              // an unlocked mutex was unlocked, which Go makes fatal

  datatype Action = Call(t: Tid, key: string) | Run(t: Tid)

  function Init(threads: nat): State {
    State(None, map[], [], seq(threads, _ => Pc(Idle, "", 0)), false)
  }

  // ---------------------------------------------------------------- steps

  /** The pointer a thread is about to dereference, if any, is allocated, and the
      mutex it is about to lock, if any, is free. */
  predicate CanRun(s: State, t: Tid) {
    && t < |s.pcs|
    && var m := s.pcs[t].m;
       match s.pcs[t].at
       case Idle => false
       case WantCreate | WantRelease => s.creator.None?
       case Waiting => m < |s.heap| && s.heap[m].owner.None?
       case Found | Loaded | Releasing | Decremented => m < |s.heap|
       case Looking | Counted | Holding | Leaving => true
  }

  predicate Enabled(s: State, a: Action) {
    && !s.crashed
    && match a
       case Call(t, _) => t < |s.pcs| && s.pcs[t].at.Idle?
       case Run(t) => CanRun(s, t)
  }

  function Goto(s: State, t: Tid, pc: Pc): State
    requires t < |s.pcs|
  {
    s.(pcs := s.pcs[t := pc])
  }

  function RunNext(s: State, t: Tid): State
    requires CanRun(s, t)
  {
    var pc := s.pcs[t];
    var k, m := pc.k, pc.m;
    match pc.at
    case WantCreate => Goto(s, t, pc.(at := Looking)).(creator := Some(t))
    case Looking =>
      if k in s.table then
        Goto(s, t, Pc(Found, k, s.table[k]))
      else
        Goto(s, t, Pc(Found, k, |s.heap|)).(table := s.table[k := |s.heap|], heap := s.heap + [Rcm(None, 0)])
    case Found =>
      Goto(s, t, pc.(at := Counted)).(heap := s.heap[m := s.heap[m].(refCount := s.heap[m].refCount + 1)])
    case Counted => Goto(s, t, pc.(at := Waiting)).(creator := None)
    case Waiting => Goto(s, t, pc.(at := Holding)).(heap := s.heap[m := s.heap[m].(owner := Some(t))])
    case Holding =>
      if k in s.table then Goto(s, t, Pc(Loaded, k, s.table[k])) else Goto(s, t, pc.(at := Idle))
    case Loaded =>
      if s.heap[m].owner.None? then
        s.(crashed := true)
      else
        Goto(s, t, pc.(at := WantRelease)).(heap := s.heap[m := s.heap[m].(owner := None)])
    case WantRelease => Goto(s, t, pc.(at := Releasing)).(creator := Some(t))
    case Releasing =>
      Goto(s, t, pc.(at := Decremented)).(heap := s.heap[m := s.heap[m].(refCount := s.heap[m].refCount - 1)])
    case Decremented =>
      Goto(s, t, pc.(at := Leaving)).(table := if s.heap[m].refCount == 0 then s.table - {k} else s.table)
    case Leaving => Goto(s, t, pc.(at := Idle)).(creator := None)
  }

  function Next(s: State, a: Action): State
    requires Enabled(s, a)
  {
    match a
    case Call(t, k) => Goto(s, t, Pc(WantCreate, k, 0))
    case Run(t) => RunNext(s, t)
  }

  /** Every action of the run is enabled when its turn comes. */
  predicate ValidRun(s: State, run: seq<Action>)
    decreases |run|
  {
    run == [] || (Enabled(s, run[0]) && ValidRun(Next(s, run[0]), run[1..]))
  }

  function Final(s: State, run: seq<Action>): State
    requires ValidRun(s, run)
    decreases |run|
  {
    if run == [] then s else Final(Next(s, run[0]), run[1..])
  }

  // ------------------------------------------------------------ invariant

  predicate InCreate(pc: Pc) {
    match pc.at
    case Looking | Found | Counted | Releasing | Decremented | Leaving => true
    case _ => false
  }

  /** The thread points at a mutex on behalf of its trade number. */
  predicate HasEntry(pc: Pc) {
    match pc.at
    case Idle | WantCreate | Looking | Leaving => false
    case _ => true
  }

  /** The thread is counted in refCount: it waits on, holds or releases m. */
  predicate Uses(pc: Pc, m: Mid) {
    HasEntry(pc) && !pc.at.Found? && !pc.at.Decremented? && pc.m == m
  }

  /** Between the return of LockOrder and the mu.Unlock() inside UnlockOrder. */
  predicate InSection(pc: Pc) {
    pc.at.Holding? || pc.at.Loaded?
  }

  ghost function Users(s: State, m: Mid): set<Tid> {
    set t | 0 <= t < |s.pcs| && Uses(s.pcs[t], m)
  }

  ghost predicate CreatorOk(s: State) {
    && (s.creator.Some? ==> s.creator.value < |s.pcs|)
    && forall t :: 0 <= t < |s.pcs| ==> (InCreate(s.pcs[t]) <==> s.creator == Some(t))
  }

  ghost predicate TableOk(s: State) {
    && (forall k :: k in s.table ==> s.table[k] < |s.heap|)
    && (forall k, l :: k in s.table && l in s.table && s.table[k] == s.table[l] ==> k == l)
  }

  ghost predicate PointersOk(s: State) {
    forall t :: 0 <= t < |s.pcs| && HasEntry(s.pcs[t]) ==>
      s.pcs[t].k in s.table && s.table[s.pcs[t].k] == s.pcs[t].m
  }

  ghost predicate CountsOk(s: State) {
    forall m :: 0 <= m < |s.heap| ==> s.heap[m].refCount == |Users(s, m)|
  }

  ghost predicate OwnersOk(s: State) {
    && (forall m :: 0 <= m < |s.heap| && s.heap[m].owner.Some? ==>
        s.heap[m].owner.value < |s.pcs| && InSection(s.pcs[s.heap[m].owner.value])
        && s.pcs[s.heap[m].owner.value].m == m)
    && (forall t :: 0 <= t < |s.pcs| && InSection(s.pcs[t]) ==>
        s.pcs[t].m < |s.heap| && s.heap[s.pcs[t].m].owner == Some(t))
  }

  /** Some thread still points at the entry. */
  ghost predicate Needed(s: State, k: string)
    requires k in s.table
  {
    exists t :: 0 <= t < |s.pcs| && HasEntry(s.pcs[t]) && s.pcs[t].m == s.table[k]
  }

  ghost predicate NoLeak(s: State) {
    forall k :: k in s.table ==> Needed(s, k)
  }

  /** Locks, pointers and owners agree. */
  ghost predicate Shape(s: State) {
    !s.crashed && CreatorOk(s) && TableOk(s) && PointersOk(s) && OwnersOk(s)
  }

  ghost predicate Inv(s: State) {
    Shape(s) && CountsOk(s) && NoLeak(s)
  }

  /** Replacing thread t's program counter adds it to, removes it from, or leaves alone each user set. */
  lemma UsersAfterGoto(s: State, t: Tid, pc: Pc, m: Mid)
    requires t < |s.pcs|
    ensures Users(Goto(s, t, pc), m) ==
            (if Uses(pc, m) then Users(s, m) + {t} else Users(s, m) - {t})
  {
  }

  lemma InitInv(threads: nat)
    ensures Inv(Init(threads))
  {
  }

  lemma CountsKept(s: State, s': State, t: Tid, pc: Pc)
    requires CountsOk(s) && t < |s.pcs|
    requires s'.pcs == s.pcs[t := pc]
    requires |s.heap| <= |s'.heap|
    requires forall m :: |s.heap| <= m < |s'.heap| ==> s'.heap[m].refCount == 0 && Users(s', m) == {}
    requires forall m :: 0 <= m < |s.heap| ==>
      s'.heap[m].refCount == s.heap[m].refCount
        + (if Uses(pc, m) then 1 else 0) - (if Uses(s.pcs[t], m) then 1 else 0)
    ensures CountsOk(s')
  {
    forall m | 0 <= m < |s'.heap|
      ensures s'.heap[m].refCount == |Users(s', m)|
    {
      if m < |s.heap| {
        UsersAfterGoto(s, t, pc, m);
        assert Users(s', m) == Users(Goto(s, t, pc), m);
        assert t in Users(s, m) <==> Uses(s.pcs[t], m);
      }
    }
  }

  /** A step of thread t keeps the old entries needed as long as t keeps its own pointer. */
  lemma NoLeakKept(s: State, s': State, t: Tid)
    requires NoLeak(s) && t < |s.pcs|
    requires |s'.pcs| == |s.pcs| && s'.pcs == s.pcs[t := s'.pcs[t]]
    requires forall l :: l in s'.table && l !in s.table ==> HasEntry(s'.pcs[t]) && s'.pcs[t].m == s'.table[l]
    requires forall l :: l in s'.table && l in s.table ==> s'.table[l] == s.table[l]
    requires HasEntry(s.pcs[t]) ==> HasEntry(s'.pcs[t]) && s'.pcs[t].m == s.pcs[t].m
    ensures NoLeak(s')
  {
    forall l | l in s'.table
      ensures Needed(s', l)
    {
      if l in s.table {
        var u :| 0 <= u < |s.pcs| && HasEntry(s.pcs[u]) && s.pcs[u].m == s.table[l];
        assert HasEntry(s'.pcs[u]) && s'.pcs[u].m == s'.table[l];
      } else {
        assert HasEntry(s'.pcs[t]);
      }
    }
  }

  lemma LookingShape(s: State, t: Tid)
    requires Shape(s) && CanRun(s, t) && s.pcs[t].at.Looking?
    ensures Shape(RunNext(s, t))
  {
  }

  lemma CreateLockShape(s: State, t: Tid)
    requires Shape(s) && CanRun(s, t)
        && (s.pcs[t].at.WantCreate? || s.pcs[t].at.Counted? || s.pcs[t].at.WantRelease? || s.pcs[t].at.Leaving?)
    ensures Shape(RunNext(s, t))
  {
  }

  lemma RefCountShape(s: State, t: Tid)
    requires Shape(s) && CanRun(s, t) && (s.pcs[t].at.Found? || s.pcs[t].at.Releasing?)
    ensures Shape(RunNext(s, t))
  {
  }

  lemma MutexShape(s: State, t: Tid)
    requires Shape(s) && CanRun(s, t) && (s.pcs[t].at.Waiting? || s.pcs[t].at.Holding? || s.pcs[t].at.Loaded?)
    ensures Shape(RunNext(s, t))
  {
  }

  /** The entry is deleted exactly when no other thread points at it. */
  lemma LastOneOut(s: State, t: Tid, u: Tid)
    requires Shape(s) && CountsOk(s) && CanRun(s, t) && s.pcs[t].at.Decremented?
    requires u < |s.pcs| && u != t && HasEntry(s.pcs[u])
    ensures s.heap[s.pcs[t].m].refCount == 0 ==> s.pcs[u].k != s.pcs[t].k
  {
    // Only the holder of createLock can point at an entry without being counted.
    assert !InCreate(s.pcs[u]) || s.creator == Some(u);
    assert u in Users(s, s.pcs[u].m);
  }

  lemma DecrementedShape(s: State, t: Tid)
    requires Shape(s) && CountsOk(s) && CanRun(s, t) && s.pcs[t].at.Decremented?
    ensures Shape(RunNext(s, t))
  {
    forall u | 0 <= u < |s.pcs| && u != t && HasEntry(s.pcs[u])
      ensures s.heap[s.pcs[t].m].refCount == 0 ==> s.pcs[u].k != s.pcs[t].k
    {
      LastOneOut(s, t, u);
    }
  }

  lemma RunCounts(s: State, t: Tid)
    requires Shape(s) && CountsOk(s) && CanRun(s, t)
    ensures CountsOk(RunNext(s, t))
  {
    var s' := RunNext(s, t);
    assert forall u :: 0 <= u < |s.pcs| && HasEntry(s.pcs[u]) ==> s.pcs[u].m < |s.heap|;
    CountsKept(s, s', t, s'.pcs[t]);
  }

  lemma RunNoLeak(s: State, t: Tid)
    requires NoLeak(s) && CanRun(s, t) && !s.pcs[t].at.Decremented?
    requires s.pcs[t].at.Holding? ==> s.pcs[t].k in s.table && s.table[s.pcs[t].k] == s.pcs[t].m
    ensures NoLeak(RunNext(s, t))
  {
    NoLeakKept(s, RunNext(s, t), t);
  }

  lemma DecrementedNoLeak(s: State, t: Tid)
    requires Inv(s) && CanRun(s, t) && s.pcs[t].at.Decremented?
    ensures NoLeak(RunNext(s, t))
  {
    var s' := RunNext(s, t);
    forall l | l in s'.table
      ensures Needed(s', l)
    {
      var u: Tid;
      if l == s.pcs[t].k {
        u :| u in Users(s, s.pcs[t].m);
      } else {
        u :| 0 <= u < |s.pcs| && HasEntry(s.pcs[u]) && s.pcs[u].m == s.table[l];
      }
      assert HasEntry(s'.pcs[u]) && s'.pcs[u].m == s'.table[l];
    }
  }

  lemma StepInv(s: State, a: Action)
    requires Inv(s) && Enabled(s, a)
    ensures Inv(Next(s, a))
  {
    match a
    case Call(t, k) =>
      CountsKept(s, Next(s, a), t, Next(s, a).pcs[t]);
      NoLeakKept(s, Next(s, a), t);
    case Run(t) =>
      RunCounts(s, t);
      if s.pcs[t].at.Decremented? { DecrementedNoLeak(s, t); } else { RunNoLeak(s, t); }
      match s.pcs[t].at
      case WantCreate | Counted | WantRelease | Leaving => CreateLockShape(s, t);
      case Looking => LookingShape(s, t);
      case Found | Releasing => RefCountShape(s, t);
      case Waiting | Holding | Loaded => MutexShape(s, t);
      case Decremented => DecrementedShape(s, t);
  }

  lemma {:induction false} RunInv(s: State, run: seq<Action>)
    requires Inv(s) && ValidRun(s, run)
    ensures Inv(Final(s, run))
    decreases |run|
  {
    if run != [] {
      StepInv(s, run[0]);
      RunInv(Next(s, run[0]), run[1..]);
    }
  }

  // ------------------------------------------------- what every run keeps

  /** At most one thread is between LockOrder(k) and the unlock of UnlockOrder(k). */
  lemma MutualExclusion(threads: nat, run: seq<Action>, t: Tid, u: Tid)
    requires ValidRun(Init(threads), run) && t < threads && u < threads
    ensures var s := Final(Init(threads), run);
            |s.pcs| == threads && (InSection(s.pcs[t]) && InSection(s.pcs[u]) && s.pcs[t].k == s.pcs[u].k ==> t == u)
  {
    InitInv(threads);
    RunInv(Init(threads), run);
    ThreadsFixed(Init(threads), run);
  }

  /** The count of every entry is the number of threads waiting on, holding or releasing it, and
      no mutex is ever unlocked while free. */
  lemma CountsExact(threads: nat, run: seq<Action>)
    requires ValidRun(Init(threads), run)
    ensures var s := Final(Init(threads), run);
            && !s.crashed
            && forall k :: k in s.table ==>
                 s.table[k] < |s.heap| && s.heap[s.table[k]].refCount == |Users(s, s.table[k])|
  {
    InitInv(threads);
    RunInv(Init(threads), run);
  }

  /** The Load of UnlockOrder runs outside createLock, yet always finds the very mutex that
      the thread locked, which is still locked by it. */
  lemma LoadFindsOwnMutex(threads: nat, run: seq<Action>, t: Tid)
    requires ValidRun(Init(threads), run) && t < threads
    ensures var s := Final(Init(threads), run);
            |s.pcs| == threads
            && (s.pcs[t].at.Holding? ==>
                  && CanRun(s, t)
                  && RunNext(s, t).pcs[t] == s.pcs[t].(at := Loaded)
                  && s.pcs[t].m < |s.heap| && s.heap[s.pcs[t].m].owner == Some(t))
  {
    InitInv(threads);
    RunInv(Init(threads), run);
    ThreadsFixed(Init(threads), run);
  }

  lemma {:induction false} ThreadsFixed(s: State, run: seq<Action>)
    requires ValidRun(s, run)
    ensures |Final(s, run).pcs| == |s.pcs|
    decreases |run|
  {
    if run != [] {
      ThreadsFixed(Next(s, run[0]), run[1..]);
    }
  }

  predicate AllIdle(s: State) {
    forall t :: 0 <= t < |s.pcs| ==> s.pcs[t].at.Idle?
  }

  /** While some thread is inside LockOrder or UnlockOrder, some thread can take a step. */
  lemma NeverStuck(s: State)
    requires Inv(s) && !AllIdle(s)
    ensures exists t :: Enabled(s, Run(t))
  {
    var t :| 0 <= t < |s.pcs| && !s.pcs[t].at.Idle?;
    if s.creator.Some? {
      var c := s.creator.value;
      assert InCreate(s.pcs[c]);
      assert Enabled(s, Run(c));
    } else if s.pcs[t].at.Waiting? && s.heap[s.pcs[t].m].owner.Some? {
      var o := s.heap[s.pcs[t].m].owner.value;
      assert InSection(s.pcs[o]);
      assert Enabled(s, Run(o));
    } else {
      assert Enabled(s, Run(t));
    }
  }

  /** Steps a thread still has to take before it is idle. */
  function Distance(at: Step): nat {
    match at
    case Idle => 0
    case WantCreate => 11
    case Looking => 10
    case Found => 9
    case Counted => 8
    case Waiting => 7
    case Holding => 6
    case Loaded => 5
    case WantRelease => 4
    case Releasing => 3
    case Decremented => 2
    case Leaving => 1
  }

  function TotalDistance(pcs: seq<Pc>): nat {
    if pcs == [] then 0 else Distance(pcs[0].at) + TotalDistance(pcs[1..])
  }

  lemma {:induction false} TotalAfterUpdate(pcs: seq<Pc>, t: Tid, pc: Pc)
    requires t < |pcs|
    ensures TotalDistance(pcs[t := pc]) == TotalDistance(pcs) - Distance(pcs[t].at) + Distance(pc.at)
  {
    if t == 0 {
      assert pcs[t := pc][1..] == pcs[1..];
    } else {
      assert pcs[t := pc][1..] == pcs[1..][t - 1 := pc];
      TotalAfterUpdate(pcs[1..], t - 1, pc);
    }
  }

  lemma {:induction false} ZeroTotal(pcs: seq<Pc>, t: Tid)
    requires t < |pcs| && TotalDistance(pcs) == 0
    ensures pcs[t].at.Idle?
  {
    if t > 0 {
      ZeroTotal(pcs[1..], t - 1);
    }
  }

  lemma DistanceDrops(s: State, t: Tid)
    requires Shape(s) && CanRun(s, t)
    ensures var s' := RunNext(s, t);
            && |s'.pcs| == |s.pcs| && s'.pcs == s.pcs[t := s'.pcs[t]]
            && Distance(s'.pcs[t].at) == Distance(s.pcs[t].at) - 1
  {
  }

  /** No livelock: each step of a thread brings the system exactly one step closer to idle. */
  lemma StepShortens(s: State, t: Tid)
    requires Inv(s) && Enabled(s, Run(t))
    ensures TotalDistance(RunNext(s, t).pcs) == TotalDistance(s.pcs) - 1
  {
    DistanceDrops(s, t);
    TotalAfterUpdate(s.pcs, t, RunNext(s, t).pcs[t]);
  }

  /** Once no new call arrives, every schedule of the threads drains the system: a run of thread
      steps never exceeds the total distance, and whenever it stops short a thread can go on. */
  lemma {:induction false} SchedulesDrain(s: State, run: seq<Action>)
    requires Inv(s) && ValidRun(s, run)
    requires forall i :: 0 <= i < |run| ==> run[i].Run?
    ensures |run| + TotalDistance(Final(s, run).pcs) == TotalDistance(s.pcs)
    ensures AllIdle(Final(s, run)) || exists t :: Enabled(Final(s, run), Run(t))
    decreases |run|
  {
    if run == [] {
      if !AllIdle(s) { NeverStuck(s); }
    } else {
      StepInv(s, run[0]);
      StepShortens(s, run[0].t);
      SchedulesDrain(Next(s, run[0]), run[1..]);
    }
  }

  /** The table is empty whenever all threads are idle, so no entry outlives its users. */
  lemma EmptyWhenIdle(s: State)
    requires Inv(s) && AllIdle(s)
    ensures s.table == map[] && s.creator.None?
  {
    assert s.table.Keys == {};
  }

  /** From any reachable state, every thread can finish. */
  lemma {:induction false} CanFinish(s: State) returns (run: seq<Action>)
    requires Inv(s)
    ensures ValidRun(s, run) && AllIdle(Final(s, run))
    decreases TotalDistance(s.pcs)
  {
    if AllIdle(s) {
      run := [];
    } else {
      NeverStuck(s);
      var t :| Enabled(s, Run(t));
      StepInv(s, Run(t));
      StepShortens(s, t);
      var rest := CanFinish(RunNext(s, t));
      run := [Run(t)] + rest;
      assert run[1..] == rest;
    }
  }

  /** Deadlock and livelock freedom from any reachable state: without new calls every schedule makes
      progress with each step, and it can only stop once all threads are idle and the table is empty. */
  lemma AlwaysDrains(threads: nat, run: seq<Action>, more: seq<Action>)
    requires ValidRun(Init(threads), run) && ValidRun(Final(Init(threads), run), more)
    requires forall i :: 0 <= i < |more| ==> more[i].Run?
    ensures var s, end := Final(Init(threads), run), Final(Final(Init(threads), run), more);
            && |more| + TotalDistance(end.pcs) == TotalDistance(s.pcs)
            && ((AllIdle(end) && end.table == map[] && end.creator.None?) || exists t :: Enabled(end, Run(t)))
  {
    InitInv(threads);
    RunInv(Init(threads), run);
    var s := Final(Init(threads), run);
    RunInv(s, more);
    SchedulesDrain(s, more);
    var end := Final(s, more);
    if AllIdle(end) {
      EmptyWhenIdle(end);
    }
  }
}
