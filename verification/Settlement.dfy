/** Settlement of top-up and subscription orders (controller/topup.go, model/topup.go,
    model/subscription.go) on top of the order lock.

    Deliveries of one trade number may be repeated and concurrent, and every database call may fail,
    with or without having taken effect.  The handlers run between LockOrder and UnlockOrder; an unpaid
    subscription order expires without the lock. */
module Settlement {
  import opened Prelude
  import L = OrderLock

  datatype Status = Pending | Success | Closed

  /** A row of the top-up table. */
  datatype TopUp = TopUp(userId: int, amount: int, provider: string, payMethod: string, status: Status)

  datatype SubStatus = Open | Paid | Expired | Review

  /** A subscription order; its trade number may have a row in the top-up table as well. */
  datatype SubOrder = SubOrder(userId: int, provider: string, payMethod: string, status: SubStatus)

  const EPAY := "epay"
  const QUOTA_PER_UNIT := 500_000

  function QuotaOf(topUp: TopUp): int {
    topUp.amount * QUOTA_PER_UNIT
  }

  /** Who took the lock: EpayNotify or SubscriptionEpayNotify, with the method that was actually paid by, or
      AdminCompleteTopUp. */
  datatype Kind = Webhook(payType: string) | AdminComplete | Subscription(payType: string)

  /** Progress of a handler inside the lock. */
  datatype Job =
    | Entering(kind: Kind)      // has not read the order yet
    | Saving(topUp: TopUp)      // EpayNotify holds the changed order in memory, before topUp.Update()
    | Crediting(topUp: TopUp)   // before model.IncreaseUserQuota
    | Finished                  // before the deferred UnlockOrder

  /** What happened to the database, in order. */
  datatype Event =
    | Marked(k: string, before: Option<Status>)      // a top-up row was written with status success
    | Credited(k: string, userId: int, quota: int)   // quota was added to a user
    | Granted(k: string, userId: int)                // a user got the subscription

  datatype State = State(
    lock: L.State,
    jobs: seq<Job>,
    rows: map<string, TopUp>,
    subs: map<string, SubOrder>,
    log: seq<Event>)

  datatype Action =
    /** RequestEpay creates a top-up order. */
    | Insert(k: string, topUp: TopUp)
    /** CreateSubscriptionCheckoutOrder, which adds a top-up row of amount zero; older orders have none. */
    | Subscribe(k: string, order: SubOrder, mirrored: bool)
    | Deliver(t: L.Tid, k: string, kind: Kind)
    /** One step of LockOrder or UnlockOrder. */
    | LockStep(t: L.Tid)
    /** Read the order; AdminComplete and Subscription also run their transaction. */
    | Fetch(t: L.Tid, reachable: bool, stale: bool)
    /** topUp.Update() */
    | Save(t: L.Tid, written: bool, failed: bool)
    /** model.IncreaseUserQuota, whose error only ends the handler */
    | Credit(t: L.Tid, written: bool)
    /** ExpireSubscriptionOrder, outside the order lock */
    | Expire(k: string)

  function Init(threads: nat): State {
    State(L.Init(threads), seq(threads, _ => Finished), map[], map[], [])
  }

  /** The thread runs its handler, between LockOrder and UnlockOrder. */
  predicate InHandler(s: State, t: L.Tid) {
    t < |s.jobs| && t < |s.lock.pcs| && !s.lock.crashed && s.lock.pcs[t].at.Holding?
  }

  /** Trade numbers are unique, and those of subscriptions have a prefix of their own. */
  predicate Unused(s: State, k: string) {
    k !in s.rows && k !in s.subs
  }

  predicate Enabled(s: State, a: Action) {
    match a
    case Insert(k, topUp) => Unused(s, k) && topUp.status == Pending
    case Subscribe(k, order, _) => Unused(s, k) && order.status == Open
    case Deliver(t, k, _) => t < |s.jobs| && L.Enabled(s.lock, L.Call(t, k))
    case LockStep(t) =>
      t < |s.jobs| && L.Enabled(s.lock, L.Run(t)) && (s.lock.pcs[t].at.Holding? ==> s.jobs[t].Finished?)
    case Fetch(t, _, _) => InHandler(s, t) && s.jobs[t].Entering?
    case Save(t, written, failed) => InHandler(s, t) && s.jobs[t].Saving? && (written || failed)
    case Credit(t, _) => InHandler(s, t) && s.jobs[t].Crediting?
    case Expire(_) => true
  }

  function SetJob(s: State, t: L.Tid, job: Job): State
    requires t < |s.jobs|
  {
    s.(jobs := s.jobs[t := job])
  }

  function MarkSuccess(s: State, k: string, topUp: TopUp): State {
    var before := if k in s.rows then Some(s.rows[k].status) else None;
    s.(rows := s.rows[k := topUp], log := s.log + [Marked(k, before)])
  }

  function AddQuota(s: State, k: string, topUp: TopUp): State {
    s.(log := s.log + [Credited(k, topUp.userId, QuotaOf(topUp))])
  }

  /** The order ends paid and its user has the subscription. */
  function Grant(s: State, k: string, order: SubOrder): State {
    s.(subs := s.subs[k := order], log := s.log + [Granted(k, order.userId)])
  }

  /** upsertSubscriptionTopUpTx: the row of a paid subscription, None if it was paid by another method. */
  function PaidRow(s: State, k: string, order: SubOrder): Option<TopUp> {
    if k !in s.rows then Some(TopUp(order.userId, 0, "", order.payMethod, Success))
    else
      var row := s.rows[k];
      if row.payMethod == "" then Some(row.(payMethod := order.payMethod, status := Success))
      else if row.payMethod == order.payMethod then Some(row.(status := Success))
      else None
  }

  /** CompleteSubscriptionOrder, one transaction; stale says that the checkout no longer fits the user. */
  function CompleteSubscription(s: State, k: string, payType: string, stale: bool): State {
    if k !in s.subs || s.subs[k].provider != EPAY || s.subs[k].status != Open then s
    else
      var order := s.subs[k];
      if stale then s.(subs := s.subs[k := order.(status := Review)])
      else match PaidRow(s, k, order)
           case None => s
           case Some(row) =>
             var paid := order.(status := Paid, payMethod := if payType != "" then payType else order.payMethod);
             Grant(MarkSuccess(s, k, row), k, paid)
  }

  function FetchNext(s: State, t: L.Tid, reachable: bool, stale: bool): State
    requires InHandler(s, t) && s.jobs[t].Entering?
  {
    var k, done := s.lock.pcs[t].k, SetJob(s, t, Finished);
    if !reachable then done
    else
      match s.jobs[t].kind
      case Webhook(payType) =>
        if k in s.rows && s.rows[k].provider == EPAY && s.rows[k].status == Pending then
          SetJob(s, t, Saving(s.rows[k].(payMethod := payType, status := Success)))
        else done
      case AdminComplete =>
        if k in s.rows && s.rows[k].status == Pending && QuotaOf(s.rows[k]) > 0 then
          AddQuota(MarkSuccess(done, k, s.rows[k].(status := Success)), k, s.rows[k])
        else done
      case Subscription(payType) => CompleteSubscription(done, k, payType, stale)
  }

  /** ExpireSubscriptionOrder */
  function ExpireNext(s: State, k: string): State {
    if k !in s.subs || s.subs[k].provider != EPAY || s.subs[k].status != Open then s
    else
      var expired := s.(subs := s.subs[k := s.subs[k].(status := Expired)]);
      if k in s.rows && s.rows[k].status == Pending
      then expired.(rows := s.rows[k := s.rows[k].(status := Closed)])
      else expired
  }

  function Next(s: State, a: Action): State
    requires Enabled(s, a)
  {
    match a
    case Insert(k, topUp) => s.(rows := s.rows[k := topUp])
    case Subscribe(k, order, mirrored) =>
      var row := TopUp(order.userId, 0, EPAY, order.payMethod, Pending);
      s.(subs := s.subs[k := order], rows := if mirrored then s.rows[k := row] else s.rows)
    case Deliver(t, k, kind) => SetJob(s, t, Entering(kind)).(lock := L.Next(s.lock, L.Call(t, k)))
    case LockStep(t) => s.(lock := L.Next(s.lock, L.Run(t)))
    case Fetch(t, reachable, stale) => FetchNext(s, t, reachable, stale)
    case Save(t, written, failed) =>
      var topUp := s.jobs[t].topUp;
      var s1 := if written then MarkSuccess(s, s.lock.pcs[t].k, topUp) else s;
      SetJob(s1, t, if failed then Finished else Crediting(topUp))
    case Credit(t, written) =>
      SetJob(if written then AddQuota(s, s.lock.pcs[t].k, s.jobs[t].topUp) else s, t, Finished)
    case Expire(k) => ExpireNext(s, k)
  }

  predicate ValidRun(s: State, run: seq<Action>)
    decreases |run|
  {
    run == [] || (Enabled(s, run[0]) && ValidRun(Next(s, run[0]), run[1..]))
  }

  function Final(s: State, run: seq<Action>): State
    requires ValidRun(s, run)
    decreases |run|
  {
    if run == [] then s else Final(Next(s, run[0]), run[1..])
  }

  function Count(log: seq<Event>, wanted: Event -> bool): nat {
    if log == [] then 0
    else Count(log[..|log| - 1], wanted) + if wanted(log[|log| - 1]) then 1 else 0
  }

  function Marks(log: seq<Event>, k: string): nat {
    Count(log, (e: Event) => e.Marked? && e.k == k)
  }

  function Credits(log: seq<Event>, k: string): nat {
    Count(log, (e: Event) => e.Credited? && e.k == k)
  }

  function Grants(log: seq<Event>, k: string): nat {
    Count(log, (e: Event) => e.Granted? && e.k == k)
  }

  lemma CountAppend(log: seq<Event>, e: Event, k: string)
    ensures Marks(log + [e], k) == Marks(log, k) + if e.Marked? && e.k == k then 1 else 0
    ensures Credits(log + [e], k) == Credits(log, k) + if e.Credited? && e.k == k then 1 else 0
    ensures Grants(log + [e], k) == Grants(log, k) + if e.Granted? && e.k == k then 1 else 0
  {
    assert (log + [e])[..|log|] == log;
  }

  lemma {:induction false} CountExists(log: seq<Event>, wanted: Event -> bool)
    requires Count(log, wanted) > 0
    ensures exists i :: 0 <= i < |log| && wanted(log[i])
  {
    var n := |log| - 1;
    if !wanted(log[n]) {
      CountExists(log[..n], wanted);
    }
  }

  // ------------------------------------------------------------ invariant

  predicate SubExpired(s: State, k: string) {
    k in s.subs && s.subs[k].status == Expired
  }

  /** A handler past its read holds the lock.  No one else has touched its order since, except that a
      subscription order may have expired. */
  ghost predicate JobOk(s: State, t: L.Tid)
    requires t < |s.jobs| && |s.jobs| == |s.lock.pcs|
  {
    var k := s.lock.pcs[t].k;
    match s.jobs[t]
    case Entering(_) => true
    case Finished => true
    case Saving(topUp) =>
      && s.lock.pcs[t].at.Holding? && k in s.rows
      && (s.rows[k].status == Pending || SubExpired(s, k)) && Marks(s.log, k) == 0
      && topUp == s.rows[k].(payMethod := topUp.payMethod, status := Success)
    case Crediting(topUp) =>
      && s.lock.pcs[t].at.Holding? && k in s.rows
      && Marks(s.log, k) >= 1 && Credits(s.log, k) == 0
      && topUp == s.rows[k]
  }

  ghost predicate JobsOk(s: State) {
    |s.jobs| == |s.lock.pcs| && forall t :: 0 <= t < |s.jobs| ==> JobOk(s, t)
  }

  /** A top-up order is marked at most once.  The row of a subscription order carries no quota, and it is
      marked at most once before the subscription is granted. */
  ghost predicate OrderOk(s: State, k: string) {
    var marks, credits, grants := Marks(s.log, k), Credits(s.log, k), Grants(s.log, k);
    && credits <= 1 && credits <= marks
    && (marks >= 1 <==> k in s.rows && s.rows[k].status == Success)
    && if k !in s.subs then marks <= 1 && grants == 0 && (k in s.rows ==> s.rows[k].status != Closed)
       else
         && grants <= marks <= 1 + grants && grants <= 1
         && (grants == 1 <==> s.subs[k].status == Paid)
         && (k in s.rows ==> s.rows[k].amount == 0)
         && (k in s.rows && s.rows[k].status == Closed ==> SubExpired(s, k))
         && (k in s.rows && s.rows[k].status == Pending ==> !SubExpired(s, k))
  }

  /** An event is legitimate where it stands: a mark of a top-up order found it pending, a credit follows
      the mark of its own order and pays what that order says, and a grant goes to the user who ordered. */
  ghost predicate EventOk(s: State, j: nat)
    requires j < |s.log|
  {
    match s.log[j]
    case Marked(k, before) => k !in s.subs ==> before == Some(Pending)
    case Credited(k, userId, quota) =>
      && (exists i :: 0 <= i < j && s.log[i].Marked? && s.log[i].k == k)
      && k in s.rows && userId == s.rows[k].userId && quota == QuotaOf(s.rows[k])
    case Granted(k, userId) =>
      && (exists i :: 0 <= i < j && s.log[i].Marked? && s.log[i].k == k)
      && k in s.subs && userId == s.subs[k].userId
  }

  ghost predicate Books(s: State) {
    && JobsOk(s)
    && (forall k :: OrderOk(s, k))
    && (forall j :: 0 <= j < |s.log| ==> EventOk(s, j))
  }

  ghost predicate Exclusive(s: State) {
    var pcs := s.lock.pcs;
    forall t, u :: 0 <= t < |pcs| && 0 <= u < |pcs| && pcs[t].at.Holding? && pcs[u].at.Holding? ==>
      pcs[t].k == pcs[u].k ==> t == u
  }

  ghost predicate Inv(s: State) {
    L.Inv(s.lock) && Books(s)
  }

  // ---------------------------------------------------- changing one order

  /** Only order k differs, and what its events rely on is the same. */
  ghost predicate OnlyOrder(s: State, s': State, k: string) {
    && (forall l :: l != k ==> (l in s.rows <==> l in s'.rows) && (l in s.subs <==> l in s'.subs))
    && (forall l :: l != k && l in s.rows ==> s'.rows[l] == s.rows[l])
    && (forall l :: l != k && l in s.subs ==> s'.subs[l] == s.subs[l])
    && (k in s.rows ==> k in s'.rows && s'.rows[k].userId == s.rows[k].userId && s'.rows[k].amount == s.rows[k].amount)
    && (k in s.subs ==> k in s'.subs && s'.subs[k].userId == s.subs[k].userId)
  }

  /** Every order but k is in order, and so is every event. */
  ghost predicate OthersOk(s: State, k: string) {
    && (forall l :: l != k ==> OrderOk(s, l))
    && (forall j :: 0 <= j < |s.log| ==> EventOk(s, j))
  }

  lemma SameLogKeepsOthers(s: State, s': State, k: string)
    requires OthersOk(s, k) && OnlyOrder(s, s', k) && s'.log == s.log
    ensures OthersOk(s', k)
  {
    forall l | l != k
      ensures OrderOk(s', l)
    {
      assert OrderOk(s, l);
    }
    forall j | 0 <= j < |s.log|
      ensures EventOk(s', j)
    {
      assert EventOk(s, j);
    }
  }

  /** An event of order k is appended. */
  lemma AppendKeepsOthers(s: State, s': State, k: string, e: Event)
    requires OthersOk(s, k) && OnlyOrder(s, s', k) && e.k == k && s'.log == s.log + [e]
    requires EventOk(s', |s.log|)
    ensures OthersOk(s', k)
  {
    forall l | l != k
      ensures OrderOk(s', l)
    {
      assert OrderOk(s, l);
      CountAppend(s.log, e, l);
    }
    forall j | 0 <= j < |s'.log|
      ensures EventOk(s', j)
    {
      if j < |s.log| { OldEventOk(s, s', k, e, j); }
    }
  }

  lemma OldEventOk(s: State, s': State, k: string, e: Event, j: nat)
    requires OnlyOrder(s, s', k) && s'.log == s.log + [e] && j < |s.log| && EventOk(s, j)
    ensures EventOk(s', j)
  {
    if !s.log[j].Marked? {
      var i :| 0 <= i < j && s.log[i].Marked? && s.log[i].k == s.log[j].k;
      assert s'.log[i] == s.log[i];
    }
  }

  /** A marked order has its mark in the log. */
  lemma MarkIsThere(s: State, s': State, k: string)
    requires Marks(s.log, k) >= 1 && |s'.log| > |s.log| && s'.log[..|s.log|] == s.log
    ensures exists i :: 0 <= i < |s.log| && s'.log[i].Marked? && s'.log[i].k == k
  {
    CountExists(s.log, (e: Event) => e.Marked? && e.k == k);
    var i :| 0 <= i < |s.log| && s.log[i].Marked? && s.log[i].k == k;
    assert s'.log[i] == s.log[i];
  }

  /** The log may only grow by events of order k. */
  ghost predicate LogGrowsAt(s: State, s': State, k: string) {
    forall l :: l != k ==> Marks(s'.log, l) == Marks(s.log, l) && Credits(s'.log, l) == Credits(s.log, l)
  }

  /** While thread t changes the order it holds, the handlers of other orders notice nothing. */
  lemma OtherJobs(s: State, s': State, t: L.Tid)
    requires JobsOk(s) && Exclusive(s) && InHandler(s, t)
    requires s'.lock == s.lock && |s'.jobs| == |s.jobs| && s'.jobs == s.jobs[t := s'.jobs[t]]
    requires OnlyOrder(s, s', s.lock.pcs[t].k) && LogGrowsAt(s, s', s.lock.pcs[t].k)
    requires JobOk(s', t)
    ensures JobsOk(s')
  {
    forall u | 0 <= u < |s'.jobs|
      ensures JobOk(s', u)
    {
      assert JobOk(s, u);
    }
  }

  lemma AllOrders(s: State, k: string)
    requires OthersOk(s, k) && OrderOk(s, k)
    ensures forall l :: OrderOk(s, l)
  {
  }

  /** The thread holding k marks it, having read it pending. */
  lemma MarkKeepsBooks(s: State, t: L.Tid, topUp: TopUp, s': State)
    requires Books(s) && Exclusive(s) && InHandler(s, t)
    requires var k := s.lock.pcs[t].k;
             && k in s.rows && Marks(s.log, k) == 0 && (s.rows[k].status == Pending || SubExpired(s, k))
             && topUp == s.rows[k].(payMethod := topUp.payMethod, status := Success)
             && (s' == SetJob(MarkSuccess(s, k, topUp), t, Crediting(topUp))
                 || s' == SetJob(MarkSuccess(s, k, topUp), t, Finished))
    ensures Books(s') && Marks(s'.log, s.lock.pcs[t].k) == 1 && Credits(s'.log, s.lock.pcs[t].k) == 0
  {
    var k := s.lock.pcs[t].k;
    var e := Marked(k, Some(s.rows[k].status));
    assert OrderOk(s, k);
    AppendKeepsOthers(s, s', k, e);
    LogGrows(s, s', k, e);
    CountAppend(s.log, e, k);
    assert OrderOk(s', k);
    AllOrders(s', k);
    OtherJobs(s, s', t);
  }

  lemma LogGrows(s: State, s': State, k: string, e: Event)
    requires s'.log == s.log + [e] && e.k == k
    ensures LogGrowsAt(s, s', k)
  {
    forall l | l != k
      ensures Marks(s'.log, l) == Marks(s.log, l) && Credits(s'.log, l) == Credits(s.log, l)
    {
      CountAppend(s.log, e, l);
    }
  }

  /** The thread holding k credits it after its mark. */
  lemma CreditKeepsBooks(s: State, t: L.Tid)
    requires Books(s) && Exclusive(s) && InHandler(s, t)
    requires var k := s.lock.pcs[t].k;
             k in s.rows && Marks(s.log, k) >= 1 && Credits(s.log, k) == 0
    ensures var k := s.lock.pcs[t].k;
            Books(SetJob(AddQuota(s, k, s.rows[k]), t, Finished))
  {
    var k := s.lock.pcs[t].k;
    var s' := SetJob(AddQuota(s, k, s.rows[k]), t, Finished);
    var e := Credited(k, s.rows[k].userId, QuotaOf(s.rows[k]));
    assert OrderOk(s, k);
    MarkIsThere(s, s', k);
    AppendKeepsOthers(s, s', k, e);
    LogGrows(s, s', k, e);
    CountAppend(s.log, e, k);
    assert OrderOk(s', k);
    AllOrders(s', k);
    OtherJobs(s, s', t);
  }

  /** The thread holding k completes the subscription order k. */
  lemma SubscriptionKeepsBooks(s: State, t: L.Tid, payType: string, stale: bool)
    requires Books(s) && Exclusive(s) && InHandler(s, t)
    ensures Books(CompleteSubscription(SetJob(s, t, Finished), s.lock.pcs[t].k, payType, stale))
  {
    var k, done := s.lock.pcs[t].k, SetJob(s, t, Finished);
    var s' := CompleteSubscription(done, k, payType, stale);
    RelabelKeepsBooks(s, done, t);
    assert OrderOk(done, k);
    if s' == done {
    } else if s'.log == s.log {
      SameLogKeepsOthers(done, s', k);
      assert OrderOk(s', k);
      AllOrders(s', k);
      OtherJobs(done, s', t);
    } else {
      GrantKeepsBooks(done, t, payType, s');
    }
  }

  lemma GrantKeepsBooks(s: State, t: L.Tid, payType: string, s': State)
    requires Books(s) && Exclusive(s) && InHandler(s, t) && s.jobs[t].Finished?
    requires s' == CompleteSubscription(s, s.lock.pcs[t].k, payType, false) && s'.log != s.log
    ensures Books(s')
  {
    var k := s.lock.pcs[t].k;
    var row := PaidRow(s, k, s.subs[k]).value;
    var marked := MarkSuccess(s, k, row);
    var m, g := marked.log[|s.log|], Granted(k, s.subs[k].userId);
    assert OrderOk(s, k);
    AppendKeepsOthers(s, marked, k, m);
    CountAppend(s.log, m, k);
    MarkIsThere(marked, s', k);
    assert s'.log == marked.log + [g];
    AppendKeepsOthers(marked, s', k, g);
    CountAppend(marked.log, g, k);
    assert OrderOk(s', k);
    AllOrders(s', k);
    LogGrows(s, marked, k, m);
    LogGrows(marked, s', k, g);
    OtherJobs(s, s', t);
  }

  lemma FetchKeepsBooks(s: State, t: L.Tid, reachable: bool, stale: bool)
    requires Books(s) && Exclusive(s) && Enabled(s, Fetch(t, reachable, stale))
    ensures Books(FetchNext(s, t, reachable, stale))
  {
    var k := s.lock.pcs[t].k;
    var s' := FetchNext(s, t, reachable, stale);
    assert OrderOk(s, k);
    if reachable && s.jobs[t].kind.Subscription? {
      SubscriptionKeepsBooks(s, t, s.jobs[t].kind.payType, stale);
    } else if s'.log != s.log {
      var marked := SetJob(MarkSuccess(s, k, s.rows[k].(status := Success)), t, Finished);
      MarkKeepsBooks(s, t, s.rows[k].(status := Success), marked);
      CreditKeepsBooks(marked, t);
      assert s' == SetJob(AddQuota(marked, k, marked.rows[k]), t, Finished);
    } else {
      RelabelKeepsBooks(s, s', t);
    }
  }

  /** Changing only job t, to something its order justifies, changes nothing else. */
  lemma RelabelKeepsBooks(s: State, s': State, t: L.Tid)
    requires Books(s) && t < |s.jobs| && |s'.jobs| == |s.jobs| && s' == SetJob(s, t, s'.jobs[t])
    requires JobOk(s', t)
    ensures Books(s')
  {
    forall u | 0 <= u < |s'.jobs|
      ensures JobOk(s', u)
    {
      assert JobOk(s, u);
    }
    forall k ensures OrderOk(s', k) { assert OrderOk(s, k); }
    forall j | 0 <= j < |s'.log| ensures EventOk(s', j) { assert EventOk(s, j); }
  }

  /** A new order, or one that expires, changes without the lock. */
  lemma UnlockedKeepsBooks(s: State, k: string, s': State)
    requires Books(s) && OnlyOrder(s, s', k) && s'.log == s.log && s'.lock == s.lock && s'.jobs == s.jobs
    requires OrderOk(s', k)
    requires forall t :: 0 <= t < |s.jobs| && s.lock.pcs[t].k == k && JobOk(s, t) ==> JobOk(s', t)
    ensures Books(s')
  {
    SameLogKeepsOthers(s, s', k);
    AllOrders(s', k);
    forall u | 0 <= u < |s'.jobs|
      ensures JobOk(s', u)
    {
      assert JobOk(s, u);
    }
  }

  lemma CreateKeepsBooks(s: State, a: Action)
    requires Books(s) && Enabled(s, a) && (a.Insert? || a.Subscribe?)
    ensures Books(Next(s, a))
  {
    assert OrderOk(s, a.k);
    UnlockedKeepsBooks(s, a.k, Next(s, a));
  }

  lemma ExpireKeepsBooks(s: State, k: string)
    requires Books(s)
    ensures Books(ExpireNext(s, k))
  {
    assert OrderOk(s, k);
    UnlockedKeepsBooks(s, k, ExpireNext(s, k));
  }

  /** Lock steps leave a running handler at its place. */
  lemma LockKeepsBooks(s: State, s': State, t: L.Tid)
    requires Books(s) && t < |s.jobs| && s'.rows == s.rows && s'.subs == s.subs && s'.log == s.log
    requires |s'.jobs| == |s.jobs| && s'.jobs == s.jobs[t := s'.jobs[t]]
    requires |s'.lock.pcs| == |s.lock.pcs| && s'.lock.pcs == s.lock.pcs[t := s'.lock.pcs[t]]
    requires s'.jobs[t].Entering? || s'.jobs[t].Finished?
    ensures Books(s')
  {
    forall u | 0 <= u < |s'.jobs| ensures JobOk(s', u) { assert JobOk(s, u); }
    forall l ensures OrderOk(s', l) { assert OrderOk(s, l); }
    forall j | 0 <= j < |s'.log| ensures EventOk(s', j) { assert EventOk(s, j); }
  }

  lemma LockExcludes(s: State)
    requires L.Inv(s.lock)
    ensures Exclusive(s)
  {
  }

  lemma LockStepKeepsBooks(s: State, t: L.Tid)
    requires Books(s) && Enabled(s, LockStep(t))
    ensures Books(Next(s, LockStep(t)))
  {
    assert JobOk(s, t);
    LockKeepsBooks(s, Next(s, LockStep(t)), t);
  }

  lemma SaveKeepsBooks(s: State, t: L.Tid, written: bool, failed: bool)
    requires Books(s) && Exclusive(s) && Enabled(s, Save(t, written, failed))
    ensures Books(Next(s, Save(t, written, failed)))
  {
    assert JobOk(s, t);
    if written {
      MarkKeepsBooks(s, t, s.jobs[t].topUp, Next(s, Save(t, written, failed)));
    } else {
      RelabelKeepsBooks(s, Next(s, Save(t, written, failed)), t);
    }
  }

  lemma CreditStepKeepsBooks(s: State, t: L.Tid, written: bool)
    requires Books(s) && Exclusive(s) && Enabled(s, Credit(t, written))
    ensures Books(Next(s, Credit(t, written)))
  {
    assert JobOk(s, t);
    if written {
      CreditKeepsBooks(s, t);
    } else {
      RelabelKeepsBooks(s, Next(s, Credit(t, written)), t);
    }
  }

  lemma DeliverInv(s: State, t: L.Tid, k: string, kind: Kind)
    requires Inv(s) && Enabled(s, Deliver(t, k, kind))
    ensures Inv(Next(s, Deliver(t, k, kind)))
  {
    L.StepInv(s.lock, L.Call(t, k));
    LockKeepsBooks(s, Next(s, Deliver(t, k, kind)), t);
  }

  lemma LockStepInv(s: State, t: L.Tid)
    requires Inv(s) && Enabled(s, LockStep(t))
    ensures Inv(Next(s, LockStep(t)))
  {
    L.StepInv(s.lock, L.Run(t));
    LockStepKeepsBooks(s, t);
  }

  /** Every other action leaves the lock alone. */
  lemma DataStepInv(s: State, a: Action)
    requires Inv(s) && Enabled(s, a) && !a.Deliver? && !a.LockStep?
    ensures Inv(Next(s, a))
  {
    LockExcludes(s);
    assert Next(s, a).lock == s.lock;
    match a
    case Insert(_, _) => CreateKeepsBooks(s, a);
    case Subscribe(_, _, _) => CreateKeepsBooks(s, a);
    case Expire(k) => ExpireKeepsBooks(s, k);
    case Fetch(t, reachable, stale) => FetchKeepsBooks(s, t, reachable, stale);
    case Save(t, written, failed) => SaveKeepsBooks(s, t, written, failed);
    case Credit(t, written) => CreditStepKeepsBooks(s, t, written);
  }

  lemma StepInv(s: State, a: Action)
    requires Inv(s) && Enabled(s, a)
    ensures Inv(Next(s, a))
  {
    match a
    case Deliver(t, k, kind) => DeliverInv(s, t, k, kind);
    case LockStep(t) => LockStepInv(s, t);
    case _ => DataStepInv(s, a);
  }

  lemma {:induction false} RunInv(s: State, run: seq<Action>)
    requires Inv(s) && ValidRun(s, run)
    ensures Inv(Final(s, run))
    decreases |run|
  {
    if run != [] {
      StepInv(s, run[0]);
      RunInv(Next(s, run[0]), run[1..]);
    }
  }

  lemma InitInv(threads: nat)
    ensures Inv(Init(threads))
  {
    L.InitInv(threads);
  }

  // ------------------------------------------------- what every run keeps

  /** However deliveries, manual completions, expiries and failures interleave, an order is credited at most
      once, with its own amount, to its own user, and after it was marked; a top-up order is marked at most
      once, and was pending then. */
  lemma CreditedAtMostOnce(threads: nat, run: seq<Action>)
    requires ValidRun(Init(threads), run)
    ensures var s := Final(Init(threads), run);
            && (forall k :: Credits(s.log, k) <= 1 && Credits(s.log, k) <= Marks(s.log, k))
            && (forall k :: k !in s.subs ==> Marks(s.log, k) <= 1)
            && (forall j :: 0 <= j < |s.log| ==> EventOk(s, j))
            && (forall k :: Marks(s.log, k) >= 1 ==> k in s.rows && s.rows[k].status == Success)
  {
    InitInv(threads);
    RunInv(Init(threads), run);
    var s := Final(Init(threads), run);
    forall k
      ensures Credits(s.log, k) <= 1 && Credits(s.log, k) <= Marks(s.log, k)
      ensures k !in s.subs ==> Marks(s.log, k) <= 1
      ensures Marks(s.log, k) >= 1 ==> k in s.rows && s.rows[k].status == Success
    {
      assert OrderOk(s, k);
    }
  }

  /** A subscription is granted at most once, exactly if its order ends paid, and its trade number never
      adds quota. */
  lemma GrantedAtMostOnce(threads: nat, run: seq<Action>)
    requires ValidRun(Init(threads), run)
    ensures var s := Final(Init(threads), run);
            && (forall k :: Grants(s.log, k) <= 1)
            && (forall k :: Grants(s.log, k) == 1 <==> k in s.subs && s.subs[k].status == Paid)
            && (forall j :: 0 <= j < |s.log| && s.log[j].Credited? && s.log[j].k in s.subs ==> s.log[j].quota == 0)
  {
    InitInv(threads);
    RunInv(Init(threads), run);
    var s := Final(Init(threads), run);
    forall k
      ensures Grants(s.log, k) <= 1
      ensures Grants(s.log, k) == 1 <==> k in s.subs && s.subs[k].status == Paid
    {
      assert OrderOk(s, k);
    }
    forall j | 0 <= j < |s.log| && s.log[j].Credited? && s.log[j].k in s.subs
      ensures s.log[j].quota == 0
    {
      assert EventOk(s, j) && OrderOk(s, s.log[j].k);
    }
  }

  lemma GrantFindsPendingIff(s: State, k: string, payType: string, stale: bool)
    requires OrderOk(s, k)
    ensures var s' := CompleteSubscription(s, k, payType, stale);
            && s.log <= s'.log
            && forall i :: |s.log| <= i < |s'.log| && s'.log[i].Marked? ==>
                 s'.log[i].k == k && (s'.log[i].before == Some(Pending) <==> k in s.rows && Marks(s.log, k) == 0)
                 && !SubExpired(s, k)
  {
  }

  /** A mark finds its order pending if and only if the order has a row, is not marked yet, and is no
      expired subscription order. */
  lemma MarkFindsPendingIff(s: State, a: Action, i: nat)
    requires Inv(s) && Enabled(s, a) && |s.log| <= i < |Next(s, a).log| && Next(s, a).log[i].Marked?
    ensures var e := Next(s, a).log[i];
            e.before == Some(Pending) <==> e.k in s.rows && Marks(s.log, e.k) == 0 && !SubExpired(s, e.k)
  {
    var k := s.lock.pcs[a.t].k;
    assert OrderOk(s, k);
    assert JobOk(s, a.t);
    if a.Fetch? && s.jobs[a.t].kind.Subscription? {
      GrantFindsPendingIff(SetJob(s, a.t, Finished), k, s.jobs[a.t].kind.payType, a.stale);
    }
  }

  /** A mark, a credit or a grant of order k is only ever added by a thread that holds the lock of k, and no
      other thread is inside that lock. */
  lemma WritesHoldTheLock(s: State, a: Action, i: nat)
    requires Inv(s) && Enabled(s, a) && |s.log| <= i < |Next(s, a).log|
    ensures var k := Next(s, a).log[i].k;
            && (a.Fetch? || a.Save? || a.Credit?) && InHandler(s, a.t) && s.lock.pcs[a.t].k == k
            && forall u :: 0 <= u < |s.lock.pcs| && u != a.t && s.lock.pcs[u].k == k ==> !L.InSection(s.lock.pcs[u])
  {
    OthersOutside(s.lock, a.t);
  }

  lemma OthersOutside(lock: L.State, t: L.Tid)
    requires L.Inv(lock) && t < |lock.pcs| && L.InSection(lock.pcs[t])
    ensures forall u :: 0 <= u < |lock.pcs| && u != t && lock.pcs[u].k == lock.pcs[t].k ==> !L.InSection(lock.pcs[u])
  {
  }

  lemma CompleteKeepsSuccess(s: State, k: string, payType: string, stale: bool, l: string)
    requires l in s.rows && s.rows[l].status == Success
    ensures var s' := CompleteSubscription(s, k, payType, stale); l in s'.rows && s'.rows[l].status == Success
  {
  }

  /** Once a row says success it stays so, whatever step follows. */
  lemma SuccessIsFinal(s: State, a: Action, k: string)
    requires Inv(s) && Enabled(s, a) && k in s.rows && s.rows[k].status == Success
    ensures k in Next(s, a).rows && Next(s, a).rows[k].status == Success
  {
    if a.Save? {
      assert JobOk(s, a.t);
    } else if a.Fetch? && s.jobs[a.t].kind.Subscription? {
      var done := SetJob(s, a.t, Finished);
      CompleteKeepsSuccess(done, s.lock.pcs[a.t].k, s.jobs[a.t].kind.payType, a.stale, k);
    }
  }

  /** A handler never blocks a run: while any thread is busy, some action is possible. */
  lemma NeverStuck(s: State)
    requires Inv(s) && !L.AllIdle(s.lock)
    ensures exists a :: Enabled(s, a) && (a.LockStep? || a.Fetch? || a.Save? || a.Credit?)
  {
    L.NeverStuck(s.lock);
    var t: L.Tid :| L.Enabled(s.lock, L.Run(t));
    if InHandler(s, t) && !s.jobs[t].Finished? {
      match s.jobs[t]
      case Entering(_) => assert Enabled(s, Fetch(t, true, false));
      case Saving(_) => assert Enabled(s, Save(t, true, false));
      case Crediting(_) => assert Enabled(s, Credit(t, true));
    } else {
      assert Enabled(s, LockStep(t));
    }
  }

  // ---------------------------------------- what a handler that runs achieves

  /** A manual completion that reaches the database marks a pending order of a positive amount and credits 500000
      for each unit; otherwise it changes nothing. */
  lemma AdminCompletes(s: State, t: L.Tid, stale: bool)
    requires InHandler(s, t) && s.jobs[t] == Entering(AdminComplete)
    ensures var k, after := s.lock.pcs[t].k, Next(s, Fetch(t, true, stale));
            && after.jobs[t] == Finished && after.subs == s.subs
            && if k in s.rows && s.rows[k].status == Pending && s.rows[k].amount > 0 then
                 && after.rows == s.rows[k := s.rows[k].(status := Success)]
                 && after.log
                    == s.log + [Marked(k, Some(Pending)), Credited(k, s.rows[k].userId, s.rows[k].amount * 500000)]
               else after.rows == s.rows && after.log == s.log
  {
  }

  /** A payment notification whose database calls succeed marks a pending order of provider "epay", records how it
      was paid, and credits 500000 for each unit; otherwise it changes nothing. */
  lemma WebhookCompletes(s: State, t: L.Tid, payType: string, stale: bool)
    requires InHandler(s, t) && s.jobs[t] == Entering(Webhook(payType))
    ensures var k, read := s.lock.pcs[t].k, Next(s, Fetch(t, true, stale));
            && read.rows == s.rows && read.log == s.log && read.subs == s.subs
            && if k in s.rows && s.rows[k].status == Pending && s.rows[k].provider == "epay" then
                 var row := s.rows[k];
                 && Enabled(read, Save(t, true, false))
                 && var saved := Next(read, Save(t, true, false));
                    && Enabled(saved, Credit(t, true))
                    && var paid := Next(saved, Credit(t, true));
                       && paid.jobs[t] == Finished && paid.subs == s.subs
                       && paid.rows == s.rows[k := row.(payMethod := payType, status := Success)]
                       && paid.log
                          == s.log + [Marked(k, Some(Pending)), Credited(k, row.userId, row.amount * 500000)]
               else read.jobs[t] == Finished
  {
  }

  /** Whether an open subscription order of provider "epay" is paid by a method that its row accepts. */
  predicate Grantable(s: State, k: string) {
    && k in s.subs && s.subs[k].provider == "epay" && s.subs[k].status == Open
    && (k in s.rows && s.rows[k].payMethod != "" ==> s.rows[k].payMethod == s.subs[k].payMethod)
  }

  /** A subscription notification that reaches the database marks the row, or adds one of amount zero, and grants
      the subscription to the user of the order; a checkout that went stale is put up for review instead. */
  lemma SubscriptionCompletes(s: State, t: L.Tid, payType: string, stale: bool)
    requires InHandler(s, t) && s.jobs[t] == Entering(Subscription(payType))
    ensures var k, after := s.lock.pcs[t].k, Next(s, Fetch(t, true, stale));
            && after.jobs[t] == Finished
            && if stale && k in s.subs && s.subs[k].provider == "epay" && s.subs[k].status == Open then
                 after.rows == s.rows && after.log == s.log && after.subs == s.subs[k := s.subs[k].(status := Review)]
               else if !stale && Grantable(s, k) then
                 var order, found := s.subs[k], k in s.rows;
                 && after.log
                    == s.log + [Marked(k, if found then Some(s.rows[k].status) else None), Granted(k, order.userId)]
                 && after.subs
                    == s.subs[k := order.(status := Paid,
                                          payMethod := if payType == "" then order.payMethod else payType)]
                 && after.rows
                    == s.rows[k := if found then s.rows[k].(payMethod := order.payMethod, status := Success)
                                   else TopUp(order.userId, 0, "", order.payMethod, Success)]
               else after.rows == s.rows && after.log == s.log && after.subs == s.subs
  {
    var k := s.lock.pcs[t].k;
    if k in s.rows && Grantable(s, k) {
      var row := s.rows[k];
      if row.payMethod != "" { assert row.(payMethod := row.payMethod) == row; }
    }
  }

  /** Expiring closes an open order of provider "epay" and its row, if that is pending, and nothing else. */
  lemma ExpiryCloses(s: State, k: string)
    ensures var after := Next(s, Expire(k));
            && after.lock == s.lock && after.jobs == s.jobs && after.log == s.log
            && if k in s.subs && s.subs[k].provider == "epay" && s.subs[k].status == Open then
                 && after.subs == s.subs[k := s.subs[k].(status := Expired)]
                 && after.rows
                    == (if k in s.rows && s.rows[k].status == Pending then s.rows[k := s.rows[k].(status := Closed)]
                        else s.rows)
               else after.subs == s.subs && after.rows == s.rows
  {
  }

  /** Without the database a handler only ends. */
  lemma UnreachableEnds(s: State, t: L.Tid, stale: bool)
    requires InHandler(s, t) && s.jobs[t].Entering?
    ensures Next(s, Fetch(t, false, stale)) == s.(jobs := s.jobs[t := Finished])
  {
  }

  // --------------------------------- two runs with a subscription order

  lemma Cons(s: State, a: Action, rest: seq<Action>)
    requires Enabled(s, a) && ValidRun(Next(s, a), rest)
    ensures ValidRun(s, [a] + rest) && Final(s, [a] + rest) == Final(Next(s, a), rest)
  {
    assert ([a] + rest)[1..] == rest;
  }

  lemma {:induction false} Concat(s: State, a: seq<Action>, b: seq<Action>)
    requires ValidRun(s, a) && ValidRun(Final(s, a), b)
    ensures ValidRun(s, a + b) && Final(s, a + b) == Final(Final(s, a), b)
    decreases |a|
  {
    if a == [] {
      assert a + b == b;
    } else {
      Concat(Next(s, a[0]), a[1..], b);
      assert (a + b)[1..] == a[1..] + b;
    }
  }

  /** A run with one more action at its end. */
  lemma Snoc(s: State, run: seq<Action>, a: Action)
    requires ValidRun(s, run) && Enabled(Final(s, run), a)
    ensures ValidRun(s, run + [a]) && Final(s, run + [a]) == Next(Final(s, run), a)
  {
    assert [a][1..] == [];
    Concat(s, run, [a]);
  }

  /** The only thread finishes its handler and goes idle. */
  lemma {:induction false} Drain(s: State) returns (run: seq<Action>)
    requires Inv(s) && forall t :: 0 <= t < |s.jobs| ==> s.jobs[t].Finished?
    ensures ValidRun(s, run) && L.AllIdle(Final(s, run).lock)
    ensures Final(s, run) == s.(lock := Final(s, run).lock)
    decreases L.TotalDistance(s.lock.pcs)
  {
    if L.AllIdle(s.lock) {
      run := [];
    } else {
      L.NeverStuck(s.lock);
      var t: L.Tid :| L.Enabled(s.lock, L.Run(t));
      assert Enabled(s, LockStep(t));
      StepInv(s, LockStep(t));
      L.StepShortens(s.lock, t);
      var rest := Drain(Next(s, LockStep(t)));
      run := [LockStep(t)] + rest;
      Cons(s, LockStep(t), rest);
    }
  }

  /** The only thread, on its way into the lock. */
  predicate Alone(s: State, s': State, kind: Kind) {
    && s' == SetJobs(s, [Entering(kind)]).(lock := s'.lock)
    && |s'.lock.pcs| == 1 && !s'.lock.crashed
  }

  function SetJobs(s: State, jobs: seq<Job>): State {
    s.(jobs := jobs)
  }

  lemma Enters(s: State, k: string, kind: Kind) returns (run: seq<Action>)
    requires Inv(s) && L.AllIdle(s.lock) && |s.jobs| == 1
    ensures ValidRun(s, run)
    ensures var s' := Final(s, run);
            && Alone(s, s', kind) && s'.lock.pcs[0].at.Found? && s'.lock.pcs[0].k == k
            && s'.lock.creator == Some(0) && s'.lock.pcs[0].m < |s'.lock.heap|
            && s'.lock.heap[s'.lock.pcs[0].m].owner.None?
  {
    L.EmptyWhenIdle(s.lock);
    var a, b := Deliver(0, k, kind), LockStep(0);
    var s1 := Next(s, a);
    var s2 := Next(s1, b);
    assert ValidRun(Next(s2, b), []);
    Cons(s2, b, []);
    Cons(s1, b, [b] + []);
    Cons(s, a, [b] + ([b] + []));
    run := [a] + ([b] + ([b] + []));
  }

  lemma Locks(s: State, kind: Kind) returns (run: seq<Action>)
    requires |s.jobs| == |s.lock.pcs| == 1 && !s.lock.crashed && s.jobs[0] == Entering(kind)
    requires s.lock.pcs[0].at.Found? && s.lock.creator == Some(0) && s.lock.pcs[0].m < |s.lock.heap|
    requires s.lock.heap[s.lock.pcs[0].m].owner.None?
    ensures ValidRun(s, run)
    ensures var s' := Final(s, run); Alone(s, s', kind) && InHandler(s', 0) && s'.lock.pcs[0].k == s.lock.pcs[0].k
  {
    var b := LockStep(0);
    var s1 := Next(s, b);
    var s2 := Next(s1, b);
    assert ValidRun(Next(s2, b), []);
    Cons(s2, b, []);
    Cons(s1, b, [b] + []);
    Cons(s, b, [b] + ([b] + []));
    run := [b] + ([b] + ([b] + []));
  }

  /** Where all are idle, a delivery reaches its handler. */
  lemma Acquire(s: State, k: string, kind: Kind) returns (run: seq<Action>)
    requires Inv(s) && L.AllIdle(s.lock) && |s.jobs| == 1
    ensures ValidRun(s, run)
    ensures Alone(s, Final(s, run), kind) && InHandler(Final(s, run), 0) && Final(s, run).lock.pcs[0].k == k
  {
    var enter := Enters(s, k, kind);
    var lock := Locks(Final(s, enter), kind);
    Concat(s, enter, lock);
    run := enter + lock;
  }

  /** A payment of an open subscription order is notified to the top-up webhook, up to its read. */
  lemma Misdelivered(k: string, user: int, payMethod: string) returns (run: seq<Action>)
    ensures ValidRun(Init(1), run)
    ensures var s, row := Final(Init(1), run), TopUp(user, 0, EPAY, payMethod, Pending);
            && Inv(s) && |s.jobs| == 1 && InHandler(s, 0) && s.lock.pcs[0].k == k && |s.lock.pcs| == 1
            && s.jobs[0] == Saving(row.(status := Success)) && s.rows == map[k := row]
            && s.subs == map[k := SubOrder(user, EPAY, payMethod, Open)] && s.log == []
  {
    var order := SubOrder(user, EPAY, payMethod, Open);
    InitInv(1);
    var s0, a := Init(1), Subscribe(k, order, true);
    StepInv(s0, a);
    var acquire := Acquire(Next(s0, a), k, Webhook(payMethod));
    Cons(s0, a, acquire);
    Snoc(s0, [a] + acquire, Fetch(0, true, false));
    run := [a] + acquire + [Fetch(0, true, false)];
    RunInv(s0, run);
  }

  /** The order expires between the read and the write of the webhook, so its mark finds it closed. */
  lemma ExpiredThenMarked(k: string, user: int, payMethod: string) returns (run: seq<Action>)
    ensures ValidRun(Init(1), run) && Final(Init(1), run).log == [Marked(k, Some(Closed))]
  {
    var read := Misdelivered(k, user, payMethod);
    Snoc(Init(1), read, Expire(k));
    Snoc(Init(1), read + [Expire(k)], Save(0, true, false));
    run := read + [Expire(k)] + [Save(0, true, false)];
  }

  lemma PaysNothing(s: State, k: string, row: TopUp)
    requires InHandler(s, 0) && |s.jobs| == 1 && s.lock.pcs[0].k == k && row.amount == 0 && row.status == Pending
    requires s.jobs[0] == Saving(row.(status := Success)) && s.rows == map[k := row] && s.log == []
    ensures Enabled(s, Save(0, true, false))
    ensures var saved := Next(s, Save(0, true, false));
            && Enabled(saved, Credit(0, true))
            && var paid := Next(saved, Credit(0, true));
               && paid.jobs == [Finished] && paid.rows == map[k := row.(status := Success)] && paid.subs == s.subs
               && paid.log == [Marked(k, Some(Pending)), Credited(k, row.userId, 0)]
  {
  }

  /** The webhook goes on, marks the order and credits nothing. */
  lemma MarkedOnce(k: string, user: int, payMethod: string) returns (run: seq<Action>)
    ensures ValidRun(Init(1), run)
    ensures var s, row := Final(Init(1), run), TopUp(user, 0, EPAY, payMethod, Success);
            && Inv(s) && L.AllIdle(s.lock) && |s.jobs| == 1
            && s.rows == map[k := row] && s.subs == map[k := SubOrder(user, EPAY, payMethod, Open)]
            && s.log == [Marked(k, Some(Pending)), Credited(k, user, 0)]
  {
    var s0 := Init(1);
    var read := Misdelivered(k, user, payMethod);
    var s := Final(s0, read);
    PaysNothing(s, k, TopUp(user, 0, EPAY, payMethod, Pending));
    Snoc(s0, read, Save(0, true, false));
    var saved := read + [Save(0, true, false)];
    Snoc(s0, saved, Credit(0, true));
    var paid := saved + [Credit(0, true)];
    StepInv(s, Save(0, true, false));
    StepInv(Final(s0, saved), Credit(0, true));
    var drain := Drain(Final(s0, paid));
    Concat(s0, paid, drain);
    run := paid + drain;
    RunInv(Final(s0, paid), drain);
  }

  /** Then the subscription's own notification marks it again. */
  lemma MarkedTwice(k: string, user: int, payMethod: string) returns (run: seq<Action>)
    ensures ValidRun(Init(1), run)
    ensures Final(Init(1), run).log
         == [Marked(k, Some(Pending)), Credited(k, user, 0), Marked(k, Some(Success)), Granted(k, user)]
  {
    var once := MarkedOnce(k, user, payMethod);
    var s := Final(Init(1), once);
    var acquire := Acquire(s, k, Subscription(payMethod));
    Concat(Init(1), once, acquire);
    Snoc(Init(1), once + acquire, Fetch(0, true, false));
    run := once + acquire + [Fetch(0, true, false)];
  }
}
