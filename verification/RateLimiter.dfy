/** The in-memory rate limiter of common/rate-limit.go.

    Each key keeps a bounded queue of admission times, oldest first; a background purge drops keys.
    The reference limiter keeps every admission for ever and counts those still inside the window. */
module RateLimiter {
  import opened Prelude

  type Store = map<string, seq<int>>

  /** One call of Request at time now: does it pass, and what is the queue afterwards? */
  function Admit(queue: Option<seq<int>>, limit: nat, duration: int, now: int): (bool, seq<int>)
    requires queue.Some? ==> queue.value != []
  {
    match queue
    case None => (true, [now])
    case Some(q) =>
      if |q| < limit then (true, q + [now])
      else if now - q[0] >= duration then (true, q[1..] + [now])
      else (false, q)
  }

  function Lookup(store: Store, key: string): Option<seq<int>> {
    if key in store then Some(store[key]) else None
  }

  predicate Expired(queue: seq<int>, expiration: int, now: int) {
    queue == [] || now - queue[|queue| - 1] > expiration
  }

  function Purge(store: Store, expiration: int, now: int): Store {
    map key | key in store && !Expired(store[key], expiration, now) :: store[key]
  }

  predicate NonEmptyQueues(store: Store) {
    forall key :: key in store ==> store[key] != []
  }

  /** The limiter object.  The clock reading of each call is a parameter. */
  class InMemoryRateLimiter {
    var store: Store
    const expiration: int

    constructor (expiration: int)
      ensures store == map[] && this.expiration == expiration
    {
      store := map[];
      this.expiration := expiration;
    }

    method ClearExpiredItems(now: int)
      modifies this
      ensures store == Purge(old(store), expiration, now)
    {
      var todo := store.Keys;
      while todo != {}
        invariant todo <= old(store).Keys
        invariant store
               == map key | key in old(store) && (key in todo || !Expired(old(store)[key], expiration, now))
                    :: old(store)[key]
        decreases |todo|
      {
        var key :| key in todo;
        var queue := store[key];
        if |queue| == 0 || now - queue[|queue| - 1] > expiration {
          store := store - {key};
        }
        todo := todo - {key};
      }
    }

    method Request(key: string, maxRequestNum: nat, duration: int, now: int) returns (ok: bool)
      requires NonEmptyQueues(store)
      modifies this
      ensures var (admitted, queue) := Admit(Lookup(old(store), key), maxRequestNum, duration, now);
              ok == admitted && store == old(store)[key := queue]
      ensures NonEmptyQueues(store)
    {
      if key in store {
        var queue := store[key];
        if |queue| < maxRequestNum {
          store := store[key := queue + [now]];
          return true;
        } else if now - queue[0] >= duration {
          queue := queue[1..];
          store := store[key := queue + [now]];
          return true;
        } else {
          return false;
        }
      } else {
        store := store[key := []];
        store := store[key := store[key] + [now]];
        assert store[key] == [now];
      }
      return true;
    }
  }

  // ----------------------------------------------------------------- runs

  /** Every key is always used with one limit and one window length. */
  datatype Policy = Policy(limit: nat, duration: int)

  datatype Event = Request(key: string, now: int) | Tick(now: int)

  /** The clock never goes back. */
  predicate Ordered(events: seq<Event>, clock: int) {
    events == [] || (clock <= events[0].now && Ordered(events[1..], events[0].now))
  }

  /** What one event answers: nothing for a tick, which is one round of the purge. */
  function Reply(store: Store, policies: string -> Policy, event: Event): seq<bool>
    requires NonEmptyQueues(store)
  {
    match event
    case Tick(_) => []
    case Request(key, now) => [Admit(Lookup(store, key), policies(key).limit, policies(key).duration, now).0]
  }

  function After(store: Store, policies: string -> Policy, expiration: int, event: Event): (store': Store)
    requires NonEmptyQueues(store)
    ensures NonEmptyQueues(store')
  {
    match event
    case Tick(now) => Purge(store, expiration, now)
    case Request(key, now) =>
      store[key := Admit(Lookup(store, key), policies(key).limit, policies(key).duration, now).1]
  }

  /** The answers of the limiter to a run. */
  function Answers(store: Store, policies: string -> Policy, expiration: int, events: seq<Event>): seq<bool>
    requires NonEmptyQueues(store)
    decreases |events|
  {
    if events == [] then [] else
    Reply(store, policies, events[0])
    + Answers(After(store, policies, expiration, events[0]), policies, expiration, events[1..])
  }

  lemma Unroll(store: Store, policies: string -> Policy, expiration: int, event: Event, rest: seq<Event>)
    requires NonEmptyQueues(store)
    ensures Answers(store, policies, expiration, [event] + rest)
         == Reply(store, policies, event)
           + Answers(After(store, policies, expiration, event), policies, expiration, rest)
  {
  }

  lemma UnrollAt(store: Store, policies: string -> Policy, expiration: int, events: seq<Event>, i: nat, past: seq<bool>)
    requires NonEmptyQueues(store) && i < |events|
    ensures past + Answers(store, policies, expiration, events[i..])
         == (past + Reply(store, policies, events[i]))
            + Answers(After(store, policies, expiration, events[i]), policies, expiration, events[i + 1..])
    ensures events[i].Tick? ==> past + Reply(store, policies, events[i]) == past
  {
  }

  /** Driving the object through a run gives exactly these answers. */
  method Drive(limiter: InMemoryRateLimiter, policies: string -> Policy, events: seq<Event>)
    returns (answers: seq<bool>)
    requires NonEmptyQueues(limiter.store)
    modifies limiter
    ensures answers == Answers(old(limiter.store), policies, limiter.expiration, events)
  {
    answers := [];
    var i := 0;
    ghost var all := Answers(limiter.store, policies, limiter.expiration, events);
    assert events[0..] == events;
    while i < |events|
      invariant 0 <= i <= |events| && NonEmptyQueues(limiter.store)
      invariant all == answers + Answers(limiter.store, policies, limiter.expiration, events[i..])
    {
      ghost var reply := Reply(limiter.store, policies, events[i]);
      ghost var store' := After(limiter.store, policies, limiter.expiration, events[i]);
      UnrollAt(limiter.store, policies, limiter.expiration, events, i, answers);
      match events[i] {
        case Tick(now) =>
          limiter.ClearExpiredItems(now);
        case Request(key, now) =>
          var ok := limiter.Request(key, policies(key).limit, policies(key).duration, now);
          answers := answers + [ok];
      }
      assert limiter.store == store';
      i := i + 1;
    }
  }

  // ------------------------------------------------------------ reference

  /** A limit of zero still lets one request through, because a missing queue is not checked. */
  function Effective(limit: nat): nat {
    if limit == 0 then 1 else limit
  }

  /** Admissions less than `duration` old. */
  function InWindow(history: seq<int>, duration: int, now: int): nat {
    if history == [] then 0 else
    InWindow(history[..|history| - 1], duration, now) + if now - history[|history| - 1] < duration then 1 else 0
  }

  /** The limiter that remembers every admission. */
  predicate ReferenceAdmits(history: seq<int>, policy: Policy, now: int) {
    InWindow(history, policy.duration, now) < Effective(policy.limit)
  }

  type Histories = map<string, seq<int>>

  function HistoryOf(histories: Histories, key: string): seq<int> {
    if key in histories then histories[key] else []
  }

  function ReferenceReply(histories: Histories, policies: string -> Policy, event: Event): seq<bool> {
    match event
    case Tick(_) => []
    case Request(key, now) => [ReferenceAdmits(HistoryOf(histories, key), policies(key), now)]
  }

  function ReferenceAfter(histories: Histories, policies: string -> Policy, event: Event): Histories {
    match event
    case Tick(_) => histories
    case Request(key, now) =>
      if ReferenceAdmits(HistoryOf(histories, key), policies(key), now)
      then histories[key := HistoryOf(histories, key) + [now]] else histories
  }

  function ReferenceAnswers(histories: Histories, policies: string -> Policy, events: seq<Event>): seq<bool>
    decreases |events|
  {
    if events == [] then [] else
    ReferenceReply(histories, policies, events[0])
    + ReferenceAnswers(ReferenceAfter(histories, policies, events[0]), policies, events[1..])
  }

  lemma UnrollReference(histories: Histories, policies: string -> Policy, event: Event, rest: seq<Event>)
    ensures ReferenceAnswers(histories, policies, [event] + rest)
         == ReferenceReply(histories, policies, event)
           + ReferenceAnswers(ReferenceAfter(histories, policies, event), policies, rest)
  {
  }

  predicate Ascending(history: seq<int>, clock: int) {
    && (forall i, j :: 0 <= i < j < |history| ==> history[i] <= history[j])
    && (forall i :: 0 <= i < |history| ==> history[i] <= clock)
  }

  lemma {:induction false} WindowEmpty(history: seq<int>, duration: int, now: int)
    requires forall i :: 0 <= i < |history| ==> now - history[i] >= duration
    ensures InWindow(history, duration, now) == 0
  {
    if history != [] {
      WindowEmpty(history[..|history| - 1], duration, now);
    }
  }

  /** In an ascending history, fewer than n admissions are in the window exactly when the n-th last one left it. */
  lemma {:induction false} WindowByNthLast(history: seq<int>, duration: int, now: int, n: nat)
    requires n >= 1 && Ascending(history, now)
    ensures InWindow(history, duration, now) < n <==>
            (|history| < n || now - history[|history| - n] >= duration)
  {
    if history != [] {
      var last := |history| - 1;
      if now - history[last] >= duration {
        WindowEmpty(history, duration, now);
      } else if n > 1 {
        WindowByNthLast(history[..last], duration, now, n - 1);
      }
    }
  }

  predicate Suffix(q: seq<int>, history: seq<int>) {
    |q| <= |history| && q == history[|history| - |q|..]
  }

  /** The first n admissions have left the window. */
  predicate AllOld(history: seq<int>, n: nat, duration: int, now: int) {
    n <= |history| && forall i :: 0 <= i < n ==> now - history[i] >= duration
  }

  /** The queue is the end of the history: all of it that can still matter. */
  ghost predicate Remembers(queue: Option<seq<int>>, history: seq<int>, policy: Policy, clock: int) {
    var q := if queue.Some? then queue.value else [];
    var n := Effective(policy.limit);
    && (queue.Some? ==> q != [])
    && |q| <= n && Suffix(q, history) && Ascending(history, clock)
    && (|q| < n ==> AllOld(history, |history| - |q|, policy.duration, clock))
  }

  lemma AdmitDecides(queue: Option<seq<int>>, history: seq<int>, policy: Policy, clock: int, now: int)
    requires Remembers(queue, history, policy, clock) && clock <= now
    ensures Admit(queue, policy.limit, policy.duration, now).0 == ReferenceAdmits(history, policy, now)
  {
    var n := Effective(policy.limit);
    WindowByNthLast(history, policy.duration, now, n);
    if queue.Some? && |queue.value| == n {
      assert queue.value[0] == history[|history| - n];
    }
  }

  lemma AscendingGrows(history: seq<int>, clock: int, now: int)
    requires Ascending(history, clock) && clock <= now
    ensures Ascending(history + [now], now)
  {
  }

  lemma GrownRemembers(q: seq<int>, history: seq<int>, policy: Policy, clock: int, now: int)
    requires Suffix(q, history) && Ascending(history, clock) && clock <= now
    requires |q| < Effective(policy.limit) && AllOld(history, |history| - |q|, policy.duration, clock)
    ensures Remembers(Some(q + [now]), history + [now], policy, now)
  {
  }

  lemma SlidRemembers(q: seq<int>, history: seq<int>, policy: Policy, clock: int, now: int)
    requires Suffix(q, history) && Ascending(history, clock) && clock <= now && |q| == Effective(policy.limit)
    ensures Remembers(Some(q[1..] + [now]), history + [now], policy, now)
  {
  }

  lemma AdmitRemembers(queue: Option<seq<int>>, history: seq<int>, policy: Policy, clock: int, now: int)
    requires Remembers(queue, history, policy, clock) && clock <= now
    ensures var (ok, q) := Admit(queue, policy.limit, policy.duration, now);
            Remembers(Some(q), if ok then history + [now] else history, policy, now)
  {
    match queue
    case None =>
      GrownRemembers([], history, policy, clock, now);
      assert [] + [now] == [now];
    case Some(q) =>
      if |q| < policy.limit {
        GrownRemembers(q, history, policy, clock, now);
      } else if now - q[0] >= policy.duration {
        SlidRemembers(q, history, policy, clock, now);
      }
  }

  lemma PurgeAgrees(store: Store, key: string, history: seq<int>, policy: Policy, clock: int, now: int, expiration: int)
    requires Remembers(Lookup(store, key), history, policy, clock) && clock <= now
    requires policy.duration <= expiration + 1
    ensures Remembers(Lookup(Purge(store, expiration, now), key), history, policy, now)
  {
  }

  ghost predicate AllRemember(store: Store, histories: Histories, policies: string -> Policy, clock: int) {
    forall key :: Remembers(Lookup(store, key), HistoryOf(histories, key), policies(key), clock)
  }

  lemma KeyAgrees(store: Store, histories: Histories, policies: string -> Policy, expiration: int, clock: int,
                  event: Event, k: string)
    requires NonEmptyQueues(store) && clock <= event.now && (event.Tick? ==> policies(k).duration <= expiration + 1)
    requires Remembers(Lookup(store, k), HistoryOf(histories, k), policies(k), clock)
    ensures event.Request? && event.key == k ==>
              Reply(store, policies, event) == ReferenceReply(histories, policies, event)
    ensures Remembers(Lookup(After(store, policies, expiration, event), k),
                      HistoryOf(ReferenceAfter(histories, policies, event), k), policies(k), event.now)
  {
    var h := HistoryOf(histories, k);
    match event
    case Tick(now) => PurgeAgrees(store, k, h, policies(k), clock, now, expiration);
    case Request(key, now) =>
      if k == key {
        AdmitDecides(Lookup(store, k), h, policies(k), clock, now);
        AdmitRemembers(Lookup(store, k), h, policies(k), clock, now);
      }
  }

  lemma StepAgrees(store: Store, histories: Histories, policies: string -> Policy, expiration: int, clock: int,
                   event: Event)
    requires NonEmptyQueues(store) && AllRemember(store, histories, policies, clock) && clock <= event.now
    requires event.Tick? ==> forall key :: policies(key).duration <= expiration + 1
    ensures Reply(store, policies, event) == ReferenceReply(histories, policies, event)
    ensures AllRemember(After(store, policies, expiration, event), ReferenceAfter(histories, policies, event),
                        policies, event.now)
  {
    forall k
      ensures Remembers(Lookup(After(store, policies, expiration, event), k),
                        HistoryOf(ReferenceAfter(histories, policies, event), k), policies(k), event.now)
    {
      KeyAgrees(store, histories, policies, expiration, clock, event, k);
    }
    if event.Request? {
      KeyAgrees(store, histories, policies, expiration, clock, event, event.key);
    }
  }

  /** A run without purges, as when no purge was started (Init with an expiration of zero). */
  predicate NoTicks(events: seq<Event>) {
    events == [] || (events[0].Request? && NoTicks(events[1..]))
  }

  /** The bounded queue answers like the full history, if it is not purged or no window outlasts the
      expiration by more than a second. */
  lemma {:induction false} RunAgrees(store: Store, histories: Histories, policies: string -> Policy, expiration: int,
                                     events: seq<Event>, clock: int)
    requires NonEmptyQueues(store) && AllRemember(store, histories, policies, clock) && Ordered(events, clock)
    requires NoTicks(events) || forall key :: policies(key).duration <= expiration + 1
    ensures Answers(store, policies, expiration, events) == ReferenceAnswers(histories, policies, events)
    decreases |events|
  {
    if events != [] {
      StepAgrees(store, histories, policies, expiration, clock, events[0]);
      RunAgrees(After(store, policies, expiration, events[0]), ReferenceAfter(histories, policies, events[0]),
                policies, expiration, events[1..], events[0].now);
    }
  }

  // ----------------------------------------------------- what runs guarantee

  ghost predicate HasDurations(policies: string -> Policy, durations: string -> int) {
    forall key :: policies(key).duration == durations(key)
  }

  /** With these window lengths a fresh limiter agrees with the reference on every run, whatever the limits. */
  ghost predicate Exact(durations: string -> int, expiration: int, purging: bool) {
    forall policies, events, start ::
      HasDurations(policies, durations) && Ordered(events, start) && (purging || NoTicks(events)) ==>
        Answers(map[], policies, expiration, events) == ReferenceAnswers(map[], policies, events)
  }

  /** A purge forgets an admission that still counts, once a window outlasts the expiration by two
      seconds: one request, a purge as soon as it expires, and a second request. */
  lemma PurgeForgets(policies: string -> Policy, expiration: int, key: string)
    requires 0 <= expiration && policies(key).limit == 1 && policies(key).duration > expiration + 1
    ensures var t := expiration + 1;
            var run := [Request(key, 0)] + ([Tick(t)] + ([Request(key, t)] + []));
            && Ordered(run, 0)
            && Answers(map[], policies, expiration, run) == [true, true]
            && ReferenceAnswers(map[], policies, run) == [true, false]
  {
    var t := expiration + 1;
    var once: Store := map[key := [0]];
    var last := [Request(key, t)] + [];
    var run := [Request(key, 0)] + ([Tick(t)] + last);
    assert run[1..] == [Tick(t)] + last && run[1..][1..] == last && last[1..] == [];
    assert Ordered(last, t) && Ordered([Tick(t)] + last, 0);
    Unroll(map[], policies, expiration, Request(key, 0), [Tick(t)] + last);
    UnrollReference(map[], policies, Request(key, 0), [Tick(t)] + last);
    assert [] + [0] == [0] && InWindow([0], policies(key).duration, t) == 1;
    Unroll(once, policies, expiration, Tick(t), last);
    UnrollReference(once, policies, Tick(t), last);
    assert Purge(once, expiration, t) == map[];
    Unroll(map[], policies, expiration, Request(key, t), []);
    UnrollReference(once, policies, Request(key, t), []);
  }

  /** The bounded queue is exact if and only if it is not purged, or no window outlasts the expiration by more
      than one second.  Init starts the purge for every positive expiration, which is then cut to seconds. */
  lemma ExactIffWindowsExpire(durations: string -> int, expiration: int, purging: bool)
    requires purging ==> 0 <= expiration
    ensures Exact(durations, expiration, purging) <==> (purging ==> forall key :: durations(key) <= expiration + 1)
  {
    if purging ==> forall key :: durations(key) <= expiration + 1 {
      forall policies, events, start |
        HasDurations(policies, durations) && Ordered(events, start) && (purging || NoTicks(events))
        ensures Answers(map[], policies, expiration, events) == ReferenceAnswers(map[], policies, events)
      {
        RunAgrees(map[], map[], policies, expiration, events, start);
      }
    } else {
      var key :| durations(key) > expiration + 1;
      var policies := k => Policy(1, durations(k));
      PurgeForgets(policies, expiration, key);
      assert HasDurations(policies, durations);
    }
  }

  /** The times at which requests of key were let through. */
  function Admitted(events: seq<Event>, answers: seq<bool>, key: string): seq<int> {
    if events == [] || answers == [] then []
    else if events[0].Tick? then Admitted(events[1..], answers, key)
    else (if answers[0] && events[0].key == key then [events[0].now] else []) + Admitted(events[1..], answers[1..], key)
  }

  ghost predicate Spaced(history: seq<int>, policy: Policy) {
    var n := Effective(policy.limit);
    forall i :: 0 <= i < |history| - n ==> history[i + n] - history[i] >= policy.duration
  }

  lemma AdmittedStep(event: Event, rest: seq<Event>, reply: seq<bool>, answers: seq<bool>, key: string)
    requires |reply| == if event.Tick? then 0 else 1
    ensures Admitted([event] + rest, reply + answers, key)
         == (if event.Request? && event.key == key && reply[0] then [event.now] else []) + Admitted(rest, answers, key)
  {
    assert ([event] + rest)[1..] == rest;
    if event.Tick? {
      assert reply + answers == answers;
    } else {
      assert (reply + answers)[1..] == answers;
    }
  }

  lemma SpacedGrows(history: seq<int>, policy: Policy, clock: int, now: int)
    requires Spaced(history, policy) && Ascending(history, clock) && clock <= now
    requires ReferenceAdmits(history, policy, now)
    ensures Spaced(history + [now], policy)
  {
    var n := Effective(policy.limit);
    WindowByNthLast(history, policy.duration, now, n);
  }

  lemma {:induction false} ReferenceSpaced(histories: Histories, policies: string -> Policy, events: seq<Event>,
                                           clock: int, key: string)
    requires Ordered(events, clock) && Ascending(HistoryOf(histories, key), clock)
    requires Spaced(HistoryOf(histories, key), policies(key))
    ensures var admitted := Admitted(events, ReferenceAnswers(histories, policies, events), key);
            Spaced(HistoryOf(histories, key) + admitted, policies(key))
    decreases |events|
  {
    var h := HistoryOf(histories, key);
    if events == [] {
      assert h + [] == h;
    } else {
      var event, rest := events[0], events[1..];
      var histories' := ReferenceAfter(histories, policies, event);
      var answers := ReferenceAnswers(histories', policies, rest);
      assert events == [event] + rest;
      AdmittedStep(event, rest, ReferenceReply(histories, policies, event), answers, key);
      var later := Admitted(rest, answers, key);
      if event.Request? && event.key == key && ReferenceAdmits(h, policies(key), event.now) {
        SpacedGrows(h, policies(key), clock, event.now);
        AscendingGrows(h, clock, event.now);
        assert (h + [event.now]) + later == h + ([event.now] + later);
      } else {
        assert HistoryOf(histories', key) == h;
        assert [] + later == later;
      }
      ReferenceSpaced(histories', policies, rest, event.now, key);
    }
  }

  /** So no window shorter than the duration ever holds more than the limit: any admission and the
      one `limit` places later are at least the duration apart. */
  lemma WindowNeverOverfull(policies: string -> Policy, expiration: int, events: seq<Event>, start: int, key: string)
    requires Ordered(events, start)
    requires NoTicks(events) || forall k :: policies(k).duration <= expiration + 1
    ensures Spaced(Admitted(events, Answers(map[], policies, expiration, events), key), policies(key))
  {
    RunAgrees(map[], map[], policies, expiration, events, start);
    ReferenceSpaced(map[], policies, events, start, key);
    var admitted := Admitted(events, ReferenceAnswers(map[], policies, events), key);
    assert [] + admitted == admitted;
  }

  // ------------------------------------------------------ in plain terms

  lemma {:induction false} InWindowCounts(history: seq<int>, duration: int, now: int)
    ensures InWindow(history, duration, now) == |set i | 0 <= i < |history| && now - history[i] < duration|
  {
    var young := set i | 0 <= i < |history| && now - history[i] < duration;
    if history != [] {
      var n := |history| - 1;
      var init := history[..n];
      InWindowCounts(init, duration, now);
      var before := set i | 0 <= i < |init| && now - init[i] < duration;
      assert young == before + if now - history[n] < duration then {n} else {};
    }
  }

  /** The reference admits a request exactly if fewer admissions than the limit, or none if the limit is zero, are
      less than the duration old. */
  lemma ReferenceIff(history: seq<int>, policy: Policy, now: int)
    ensures ReferenceAdmits(history, policy, now)
       <==> |set i | 0 <= i < |history| && now - history[i] < policy.duration|
            < if policy.limit > 1 then policy.limit else 1
  {
    InWindowCounts(history, policy.duration, now);
  }
}
