/** Where the quota of a marked order goes (controller/topup.go): every mark is answered by a credit, a grant,
    a failure of the database between them, or a handler still on its way. */
module Conservation {
  import opened Settlement
  import L = OrderLock

  /** The step loses the credit of order k: the row was written but reported as failed, or the quota was not added. */
  predicate Loses(s: State, a: Action, k: string) {
    && ((a.Save? && a.written && a.failed) || (a.Credit? && !a.written))
    && a.t < |s.lock.pcs| && s.lock.pcs[a.t].k == k
  }

  /** How often the credit of order k is lost in a run. */
  function Losses(s: State, run: seq<Action>, k: string): nat
    requires ValidRun(s, run)
    decreases |run|
  {
    if run == [] then 0
    else (if Loses(s, run[0], k) then 1 else 0) + Losses(Next(s, run[0]), run[1..], k)
  }

  /** A handler has marked the order and not yet called for the credit. */
  ghost predicate Paying(s: State, k: string) {
    exists t :: 0 <= t < |s.jobs| && t < |s.lock.pcs| && s.jobs[t].Crediting? && s.lock.pcs[t].k == k
  }

  /** Marks that were not answered. */
  ghost function Unanswered(s: State, k: string): int {
    Marks(s.log, k) - Credits(s.log, k) - Grants(s.log, k) - if Paying(s, k) then 1 else 0
  }

  lemma PayingHolds(s: State, t: L.Tid)
    requires Books(s) && Exclusive(s) && InHandler(s, t)
    ensures Paying(s, s.lock.pcs[t].k) <==> s.jobs[t].Crediting?
  {
    var k := s.lock.pcs[t].k;
    if u :| 0 <= u < |s.jobs| && u < |s.lock.pcs| && s.jobs[u].Crediting? && s.lock.pcs[u].k == k {
      assert JobOk(s, u);
    }
  }

  /** A handler's step on its own order leaves the payment of others alone. */
  lemma OthersPaying(s: State, s': State, t: L.Tid, l: string)
    requires t < |s.jobs| && t < |s.lock.pcs| && s'.lock == s.lock
    requires |s'.jobs| == |s.jobs| && s'.jobs == s.jobs[t := s'.jobs[t]] && l != s.lock.pcs[t].k
    ensures Paying(s', l) <==> Paying(s, l)
  {
    if u :| 0 <= u < |s.jobs| && u < |s.lock.pcs| && s.jobs[u].Crediting? && s.lock.pcs[u].k == l {
      assert s'.jobs[u].Crediting?;
    }
    if u :| 0 <= u < |s'.jobs| && u < |s'.lock.pcs| && s'.jobs[u].Crediting? && s'.lock.pcs[u].k == l {
      assert s.jobs[u].Crediting?;
    }
  }

  /** Steps outside a handler leave every payment alone. */
  lemma LockPaying(s: State, s': State, t: L.Tid, k: string)
    requires t < |s.jobs| && |s'.jobs| == |s.jobs| == |s.lock.pcs| == |s'.lock.pcs|
    requires !s.jobs[t].Crediting? && !s'.jobs[t].Crediting?
    requires s'.jobs == s.jobs[t := s'.jobs[t]] && s'.lock.pcs == s.lock.pcs[t := s'.lock.pcs[t]]
    ensures Paying(s', k) <==> Paying(s, k)
  {
    if u :| 0 <= u < |s.jobs| && s.jobs[u].Crediting? && s.lock.pcs[u].k == k {
      assert s'.jobs[u].Crediting? && s'.lock.pcs[u].k == k;
    }
    if u :| 0 <= u < |s'.jobs| && s'.jobs[u].Crediting? && s'.lock.pcs[u].k == k {
      assert s.jobs[u].Crediting? && s.lock.pcs[u].k == k;
    }
  }

  lemma OutsideStep(s: State, a: Action, k: string)
    requires Inv(s) && Enabled(s, a) && (a.Deliver? || a.LockStep?)
    ensures Unanswered(Next(s, a), k) == Unanswered(s, k)
  {
    assert JobOk(s, a.t);
    LockPaying(s, Next(s, a), a.t, k);
  }

  /** What a transaction logs, it answers at once. */
  lemma FetchAnswers(s: State, t: L.Tid, reachable: bool, stale: bool, l: string)
    requires InHandler(s, t) && s.jobs[t].Entering?
    ensures var s' := FetchNext(s, t, reachable, stale);
            && s'.lock == s.lock && |s'.jobs| == |s.jobs| && s'.jobs == s.jobs[t := s'.jobs[t]]
            && !s'.jobs[t].Crediting?
            && Marks(s'.log, l) - Marks(s.log, l)
               == Credits(s'.log, l) - Credits(s.log, l) + Grants(s'.log, l) - Grants(s.log, l)
  {
    var s' := FetchNext(s, t, reachable, stale);
    var n := |s.log|;
    if s'.log != s.log {
      var m, e := s'.log[n], s'.log[n + 1];
      assert s'.log == s.log + [m] + [e];
      CountAppend(s.log, m, l);
      CountAppend(s.log + [m], e, l);
    }
  }

  lemma FetchStep(s: State, a: Action, k: string)
    requires Inv(s) && Enabled(s, a) && a.Fetch?
    ensures Unanswered(Next(s, a), k) == Unanswered(s, k)
  {
    var s' := Next(s, a);
    LockExcludes(s);
    StepInv(s, a);
    LockExcludes(s');
    FetchAnswers(s, a.t, a.reachable, a.stale, k);
    PayingHolds(s, a.t);
    PayingHolds(s', a.t);
    if k != s.lock.pcs[a.t].k { OthersPaying(s, s', a.t, k); }
  }

  lemma SaveStep(s: State, a: Action, k: string)
    requires Inv(s) && Enabled(s, a) && (a.Save? || a.Credit?)
    ensures Unanswered(Next(s, a), k) == Unanswered(s, k) + if Loses(s, a, k) then 1 else 0
  {
    var s' := Next(s, a);
    LockExcludes(s);
    StepInv(s, a);
    LockExcludes(s');
    PayingHolds(s, a.t);
    PayingHolds(s', a.t);
    if s'.log != s.log { CountAppend(s.log, s'.log[|s.log|], k); }
    if k != s.lock.pcs[a.t].k { OthersPaying(s, s', a.t, k); }
  }

  /** Exactly the lost credits stay unanswered. */
  lemma StepAccounts(s: State, a: Action, k: string)
    requires Inv(s) && Enabled(s, a)
    ensures Unanswered(Next(s, a), k) == Unanswered(s, k) + if Loses(s, a, k) then 1 else 0
  {
    match a
    case Deliver(_, _, _) => OutsideStep(s, a, k);
    case LockStep(_) => OutsideStep(s, a, k);
    case Fetch(_, _, _) => FetchStep(s, a, k);
    case Save(_, _, _) => SaveStep(s, a, k);
    case Credit(_, _) => SaveStep(s, a, k);
    case _ =>
  }

  lemma {:induction false} RunAccounts(s: State, run: seq<Action>, k: string)
    requires Inv(s) && ValidRun(s, run)
    ensures Unanswered(Final(s, run), k) == Unanswered(s, k) + Losses(s, run, k)
    decreases |run|
  {
    if run != [] {
      StepAccounts(s, run[0], k);
      StepInv(s, run[0]);
      RunAccounts(Next(s, run[0]), run[1..], k);
    }
  }

  /** After every run each mark of an order is a credit, a grant, a lost credit or one being paid. */
  lemma MarksAccounted(threads: nat, run: seq<Action>, k: string)
    requires ValidRun(Init(threads), run)
    ensures var s := Final(Init(threads), run);
            Marks(s.log, k) == Credits(s.log, k) + Grants(s.log, k) + Losses(Init(threads), run, k)
                               + if Paying(s, k) then 1 else 0
  {
    InitInv(threads);
    RunAccounts(Init(threads), run, k);
  }

  /** Once all threads are idle, a top-up order is marked without its credit if and only if a failure lost the
      credit; without failures every marked order was credited exactly once. */
  lemma CreditedUnlessLost(threads: nat, run: seq<Action>, k: string)
    requires ValidRun(Init(threads), run) && L.AllIdle(Final(Init(threads), run).lock)
    requires k !in Final(Init(threads), run).subs
    ensures var s := Final(Init(threads), run);
            && (Marks(s.log, k) == 1 && Credits(s.log, k) == 0 <==> Losses(Init(threads), run, k) > 0)
            && (Losses(Init(threads), run, k) == 0 ==> Credits(s.log, k) == Marks(s.log, k))
  {
    var s := Final(Init(threads), run);
    MarksAccounted(threads, run, k);
    InitInv(threads);
    RunInv(Init(threads), run);
    assert OrderOk(s, k);
    NotPaying(s, k);
  }

  lemma NotPaying(s: State, k: string)
    requires Inv(s) && L.AllIdle(s.lock)
    ensures !Paying(s, k)
  {
    forall t | 0 <= t < |s.jobs|
      ensures !s.jobs[t].Crediting?
    {
      assert JobOk(s, t);
    }
  }
}
