/** Step-up verification kept in the session cookie (controller/secure_verification.go,
    controller/passkey.go, middleware/secure_verification.go).

    Every request carries the session as it was last saved.  A handler edits its own copy, and an edit
    takes effect only if Save succeeds.  Clock readings and the outcome of Save are parameters. */
module StepUp {
  import opened Prelude

  const PASSKEY_READY_TIMEOUT := 60
  const SECURE_VERIFICATION_TIMEOUT := 300
  const PASSKEY := "passkey"
  const PASSWORD := "password"

  /** id, secure_passkey_ready_at, secure_verified_at and secure_verified_method. */
  datatype Session = Session(user: Option<int>, readyAt: Option<int>, verifiedAt: Option<int>,
                             verifiedBy: Option<string>)

  const FRESH := Session(None, None, None, None)

  // -------------------------------------------------------------- requests

  datatype Request =
    /** setupLogin, in whatever way the user logged in. */
    | Login(user: int, now: int, saved: bool)
    /** PasskeyVerifyFinish, once the WebAuthn assertion was accepted. */
    | Assert(now: int, saved: bool)
    /** UniversalVerify with method passkey: the clock is read twice, and Save is called twice. */
    | VerifyPasskey(hasPasskey: bool, checkedAt: int, consumed: bool, now: int, saved: bool)
    /** UniversalVerify with method password, for a matching or a wrong password. */
    | VerifyPassword(matches: bool, now: int, saved: bool)
    /** requirePasskeyDeleteVerification in front of PasskeyDelete. */
    | DeletePasskey(hasPasskey: bool, now: int, saved: bool)
    /** The middleware that drops an expired verification. */
    | Guarded(now: int, saved: bool)
    /** session.Clear() on logout or when the session user is gone. */
    | Logout(now: int, saved: bool)

  /** consumePasskeyReady: the marker goes away even when it is too old. */
  function Consume(s: Session, checkedAt: int, saved: bool): (bool, Session) {
    if s.readyAt.None? || !saved then (false, s)
    else (checkedAt - s.readyAt.value < PASSKEY_READY_TIMEOUT, s.(readyAt := None))
  }

  function Stamp(s: Session, way: string, now: int, saved: bool): (bool, Session) {
    if saved then (true, s.(readyAt := None, verifiedAt := Some(now), verifiedBy := Some(way))) else (false, s)
  }

  predicate Expired(s: Session, now: int) {
    s.verifiedAt.None? || now - s.verifiedAt.value >= SECURE_VERIFICATION_TIMEOUT
  }

  function DropVerification(s: Session, saved: bool): Session {
    if saved then s.(verifiedAt := None, verifiedBy := None) else s
  }

  /** Whether the request is granted, and the session it leaves behind. */
  function Serve(s: Session, r: Request): (bool, Session) {
    match r
    case Login(user, _, saved) => (saved, if saved then s.(user := Some(user)) else s)
    case Logout(_, saved) => (true, if saved then FRESH else s)
    case _ => if s.user.None? then (false, s) else ServeUser(s, r)
  }

  /** The requests that need a session user. */
  function ServeUser(s: Session, r: Request): (bool, Session)
    requires !r.Login? && !r.Logout?
  {
    match r
    case Assert(now, saved) =>
      (saved, if saved then s.(readyAt := Some(now), verifiedAt := None, verifiedBy := None) else s)
    case VerifyPasskey(hasPasskey, checkedAt, consumed, now, saved) =>
      if !hasPasskey then (false, s)
      else
        var (ready, s1) := Consume(s, checkedAt, consumed);
        if ready then Stamp(s1, PASSKEY, now, saved) else (false, s1)
    case VerifyPassword(matches, now, saved) =>
      if matches then Stamp(s, PASSWORD, now, saved) else (false, s)
    case DeletePasskey(hasPasskey, now, saved) =>
      if !hasPasskey then (false, s)
      else if Expired(s, now) then (false, DropVerification(s, saved))
      else (s.verifiedBy == Some(PASSKEY), s)
    case Guarded(now, saved) =>
      if s.verifiedAt.None? then (false, s)
      else if Expired(s, now) then (false, DropVerification(s, saved))
      else (true, s)
  }

  /** The handlers, statement by statement, on the cookie. */
  class Cookie {
    var session: Session

    constructor ()
      ensures session == FRESH
    {
      session := FRESH;
    }

    /** setupLogin: a new user id, and nothing else of what concerns step-up. */
    method SetupLogin(user: int, now: int, saved: bool) returns (ok: bool)
      modifies this
      ensures (ok, session) == Serve(old(session), Login(user, now, saved))
    {
      var s := session.(user := Some(user));
      if !saved { return false; }
      session := s;
      return true;
    }

    method PasskeyVerifyFinish(now: int, saved: bool) returns (ok: bool)
      modifies this
      ensures (ok, session) == Serve(old(session), Assert(now, saved))
    {
      var s := session;
      if s.user.None? { return false; }
      s := s.(readyAt := Some(now));
      s := s.(verifiedAt := None);
      s := s.(verifiedBy := None);
      if !saved { return false; }
      session := s;
      return true;
    }

    method ConsumePasskeyReady(checkedAt: int, saved: bool) returns (ready: bool)
      modifies this
      ensures (ready, session) == Consume(old(session), checkedAt, saved)
    {
      var s := session;
      if s.readyAt.None? { return false; }
      var readyAt := s.readyAt.value;
      s := s.(readyAt := None);
      if !saved { return false; }
      session := s;
      if checkedAt - readyAt >= PASSKEY_READY_TIMEOUT { return false; }
      return true;
    }

    method SetSecureVerificationSession(way: string, now: int, saved: bool) returns (ok: bool)
      modifies this
      ensures (ok, session) == Stamp(old(session), way, now, saved)
    {
      var s := session;
      s := s.(readyAt := None);
      s := s.(verifiedAt := Some(now));
      s := s.(verifiedBy := Some(way));
      if !saved { return false; }
      session := s;
      return true;
    }

    method UniversalVerifyPasskey(hasPasskey: bool, checkedAt: int, consumed: bool, now: int, saved: bool)
      returns (ok: bool)
      modifies this
      ensures (ok, session) == Serve(old(session), VerifyPasskey(hasPasskey, checkedAt, consumed, now, saved))
    {
      if session.user.None? || !hasPasskey { return false; }
      var verified := ConsumePasskeyReady(checkedAt, consumed);
      if !verified { return false; }
      ok := SetSecureVerificationSession(PASSKEY, now, saved);
    }

    method RequirePasskeyDeleteVerification(hasPasskey: bool, now: int, saved: bool) returns (ok: bool)
      modifies this
      ensures (ok, session) == Serve(old(session), DeletePasskey(hasPasskey, now, saved))
    {
      if session.user.None? || !hasPasskey { return false; }
      var s := session;
      if s.verifiedAt.None? || now - s.verifiedAt.value >= SECURE_VERIFICATION_TIMEOUT {
        s := s.(verifiedAt := None);
        s := s.(verifiedBy := None);
        if saved { session := s; }
        return false;
      }
      if s.verifiedBy.None? || s.verifiedBy.value != PASSKEY { return false; }
      return true;
    }
  }

  // --------------------------------------------- the requests, in plain terms

  /** A password counts exactly if it matches; a passkey exactly if there is one, with a marker less than 60 seconds
      old that could be used up.  Either is granted if the session could be saved and has a user. */
  lemma VerifiedIff(s: Session, hasPasskey: bool, matches: bool, checkedAt: int, consumed: bool, now: int, saved: bool)
    ensures Serve(s, VerifyPassword(matches, now, saved)).0 <==> s.user.Some? && matches && saved
    ensures Serve(s, VerifyPasskey(hasPasskey, checkedAt, consumed, now, saved)).0
       <==> s.user.Some? && hasPasskey && s.readyAt.Some? && checkedAt - s.readyAt.value < 60 && consumed && saved
    ensures Serve(s, VerifyPassword(matches, now, saved)).0 ==>
              Serve(s, VerifyPassword(matches, now, saved)).1 == Session(s.user, None, Some(now), Some("password"))
    ensures Serve(s, VerifyPasskey(hasPasskey, checkedAt, consumed, now, saved)).0 ==>
              Serve(s, VerifyPasskey(hasPasskey, checkedAt, consumed, now, saved)).1
              == Session(s.user, None, Some(now), Some("passkey"))
  {
  }

  /** A refused verification writes no verification; one by passkey may still use up the marker. */
  lemma RefusedVerification(s: Session, hasPasskey: bool, matches: bool, checkedAt: int, consumed: bool, now: int,
                            saved: bool)
    ensures !Serve(s, VerifyPassword(matches, now, saved)).0 ==> Serve(s, VerifyPassword(matches, now, saved)).1 == s
    ensures var (ok, after) := Serve(s, VerifyPasskey(hasPasskey, checkedAt, consumed, now, saved));
            !ok ==> after == if s.user.Some? && hasPasskey && consumed
                             then Session(s.user, None, s.verifiedAt, s.verifiedBy)
                             else s
  {
  }

  /** A passkey is deleted exactly with a passkey verification less than 300 seconds old, a guarded request is let
      through with any such verification; neither changes the session, and an expired verification is dropped. */
  lemma GuardedIff(s: Session, hasPasskey: bool, now: int, saved: bool)
    ensures var recent := s.verifiedAt.Some? && now - s.verifiedAt.value < 300;
            && (Serve(s, Guarded(now, saved)).0 <==> s.user.Some? && recent)
            && (Serve(s, DeletePasskey(hasPasskey, now, saved)).0
                <==> s.user.Some? && hasPasskey && recent && s.verifiedBy == Some("passkey"))
            && (recent ==>
                  Serve(s, Guarded(now, saved)).1 == s && Serve(s, DeletePasskey(hasPasskey, now, saved)).1 == s)
            && (s.user.Some? && hasPasskey && !recent && saved ==>
                  Serve(s, DeletePasskey(hasPasskey, now, saved)).1 == Session(s.user, s.readyAt, None, None))
  {
  }

  /** An assertion of the session user writes the marker and clears the verification, a login only sets the user,
      and a logout clears all. */
  lemma SessionWrites(s: Session, user: int, now: int, saved: bool)
    ensures Serve(s, Assert(now, saved))
         == if s.user.Some? && saved then (true, Session(s.user, Some(now), None, None)) else (false, s)
    ensures Serve(s, Login(user, now, saved))
         == if saved then (true, Session(Some(user), s.readyAt, s.verifiedAt, s.verifiedBy)) else (false, s)
    ensures Serve(s, Logout(now, saved)).1 == if saved then Session(None, None, None, None) else s
  {
  }

  /** A passkey flow in time always succeeds: assertion, verification less than 60 seconds later, deletion less than
      300 seconds after that. */
  lemma FlowSucceeds(s: Session, asserted: int, checkedAt: int, verified: int, deleted: int)
    requires s.user.Some?
    ensures var (a, s1) := Serve(s, Assert(asserted, true));
            var (v, s2) := Serve(s1, VerifyPasskey(true, checkedAt, true, verified, true));
            var (d, s3) := Serve(s2, DeletePasskey(true, deleted, true));
            a && (v <==> checkedAt - asserted < 60) && (v ==> (d <==> deleted - verified < 300))
  {
  }

  // ------------------------------------------------------------------ runs

  /** The session after a run of requests that started from a fresh session. */
  function After(run: seq<Request>): Session {
    if run == [] then FRESH else Serve(After(run[..|run| - 1]), run[|run| - 1]).1
  }

  /** Whether the i-th request was granted. */
  predicate Granted(run: seq<Request>, i: nat)
    requires i < |run|
  {
    Serve(After(run[..i]), run[i]).0
  }

  function Start(r: Request): int {
    if r.VerifyPasskey? then r.checkedAt else r.now
  }

  /** The clock never goes back, not within a request either. */
  predicate Timely(run: seq<Request>) {
    && (forall i :: 0 <= i < |run| ==> Start(run[i]) <= run[i].now)
    && (forall i, j :: 0 <= i < j < |run| ==> run[i].now <= Start(run[j]))
  }

  predicate LoggedOut(run: seq<Request>, i: nat)
    requires i < |run|
  {
    run[i].Logout? && run[i].saved
  }

  /** Requests that write a marker or a verification, or clear the session. */
  predicate Overwrites(run: seq<Request>, i: nat)
    requires i < |run|
  {
    || ((run[i].Assert? || run[i].VerifyPasskey? || run[i].VerifyPassword?) && Granted(run, i))
    || LoggedOut(run, i)
  }

  lemma PrefixRun(run: seq<Request>, i: nat)
    requires i < |run|
    ensures forall j :: 0 <= j < i ==> Granted(run[..i], j) == Granted(run, j)
  {
    forall j | 0 <= j < i
      ensures Granted(run[..i], j) == Granted(run, j)
    {
      assert run[..i][..j] == run[..j];
    }
  }

  /** A marker in the session was written by an accepted assertion, and nothing was granted on it since. */
  lemma {:induction false} MarkerOrigin(run: seq<Request>) returns (a: nat)
    requires After(run).readyAt.Some?
    ensures a < |run| && run[a].Assert? && Granted(run, a) && run[a].now == After(run).readyAt.value
    ensures forall j :: a < j < |run| ==> !Overwrites(run, j)
  {
    var n := |run| - 1;
    PrefixRun(run, n);
    if run[n].Assert? && Granted(run, n) {
      a := n;
    } else {
      a := MarkerOrigin(run[..n]);
      assert run[..n][..a] == run[..a];
      forall j | a < j < |run|
        ensures !Overwrites(run, j)
      {
        if j < n { assert run[..n][j] == run[j] && !Overwrites(run[..n], j); }
      }
    }
  }

  /** No step was granted after request a, other than request v, and the session was not cleared. */
  ghost predicate QuietSince(run: seq<Request>, a: nat, v: nat) {
    forall j :: a < j < |run| && j != v ==> !Overwrites(run, j)
  }

  lemma QuietExtends(run: seq<Request>, a: nat, v: nat)
    requires run != [] && a < |run| && QuietSince(run[..|run| - 1], a, v)
    requires v == |run| - 1 || !Overwrites(run, |run| - 1)
    ensures QuietSince(run, a, v)
  {
    var n := |run| - 1;
    PrefixRun(run, n);
    forall j | a < j < |run| && j != v
      ensures !Overwrites(run, j)
    {
      if j < n { assert run[..n][j] == run[j] && !Overwrites(run[..n], j); }
    }
  }

  /** A passkey verification in the session was granted to a marker less than a minute old, which
      an earlier assertion had written and no other verification had used. */
  lemma {:induction false} VerificationOrigin(run: seq<Request>) returns (v: nat, a: nat)
    requires Timely(run) && After(run).verifiedBy == Some(PASSKEY)
    ensures a < v < |run| && After(run).verifiedAt == Some(run[v].now)
    ensures run[v].VerifyPasskey? && Granted(run, v) && run[a].Assert? && Granted(run, a)
    ensures 0 <= run[v].checkedAt - run[a].now < PASSKEY_READY_TIMEOUT
    ensures QuietSince(run, a, v)
  {
    var n := |run| - 1;
    PrefixRun(run, n);
    var init := run[..n];
    if run[n].VerifyPasskey? && Granted(run, n) {
      v := n;
      a := MarkerOrigin(init);
    } else {
      v, a := VerificationOrigin(init);
      assert init[..v] == run[..v];
    }
    assert init[..a] == run[..a];
    QuietExtends(run, a, v);
  }

  /** A passkey deletion that passes its check comes less than 300 seconds after a passkey verification
      that used up a marker less than 60 seconds old, with no other step and no logout in between. */
  lemma DeletionIsBacked(run: seq<Request>, d: nat) returns (v: nat, a: nat)
    requires Timely(run) && d < |run| && run[d].DeletePasskey? && Granted(run, d)
    ensures a < v < d && run[v].VerifyPasskey? && Granted(run, v) && run[a].Assert? && Granted(run, a)
    ensures 0 <= run[d].now - run[v].now < 300
    ensures 0 <= run[v].checkedAt - run[a].now < 60
    ensures forall j :: a < j < d && j != v ==> !Overwrites(run, j)
  {
    PrefixRun(run, d);
    v, a := VerificationOrigin(run[..d]);
    assert run[..d][..v] == run[..v] && run[..d][..a] == run[..a];
    forall j | a < j < d && j != v
      ensures !Overwrites(run, j)
    {
      assert run[..d][j] == run[j] && QuietSince(run[..d], a, v) && !Overwrites(run[..d], j);
    }
  }

  // -------------------------------------------------------- whose passkey

  /** The user of the last login between two requests. */
  function LastLogin(run: seq<Request>, lo: nat, hi: nat): Option<int>
    requires hi <= |run|
    decreases hi
  {
    if hi <= lo + 1 then None
    else if run[hi - 1].Login? && run[hi - 1].saved then Some(run[hi - 1].user)
    else LastLogin(run, lo, hi - 1)
  }

  lemma AfterNext(run: seq<Request>, i: nat)
    requires i < |run|
    ensures After(run[..i + 1]) == Serve(After(run[..i]), run[i]).1
  {
    assert run[..i + 1][..i] == run[..i];
  }

  lemma UserStep(s: Session, r: Request)
    ensures Serve(s, r).1.user
         == if r.Login? && r.saved then Some(r.user) else if r.Logout? && r.saved then None else s.user
  {
  }

  lemma {:induction false} UserSince(run: seq<Request>, lo: nat, hi: nat)
    requires lo < hi <= |run| && forall j :: lo < j < hi ==> !LoggedOut(run, j)
    ensures After(run[..hi]).user
         == if LastLogin(run, lo, hi).Some? then LastLogin(run, lo, hi) else After(run[..lo + 1]).user
    decreases hi
  {
    if hi > lo + 1 {
      UserSince(run, lo, hi - 1);
      AfterNext(run, hi - 1);
      UserStep(After(run[..hi - 1]), run[hi - 1]);
      assert !LoggedOut(run, hi - 1);
    }
  }

  lemma AssertKeepsUser(run: seq<Request>, a: nat)
    requires a < |run| && run[a].Assert?
    ensures After(run[..a + 1]).user == After(run[..a]).user
  {
    AfterNext(run, a);
  }

  /** A passkey deletion that passes its check concerns the user who made the assertion behind it, if and only if
      no one logged in since, or that user did so last: a login leaves the verification standing. */
  lemma DeletionByOwnerIff(run: seq<Request>, d: nat) returns (v: nat, a: nat)
    requires Timely(run) && d < |run| && run[d].DeletePasskey? && Granted(run, d)
    ensures a < v < d && run[v].VerifyPasskey? && Granted(run, v) && run[a].Assert? && Granted(run, a)
    ensures forall j :: a < j < d && j != v ==> !Overwrites(run, j)
    ensures var owner := After(run[..a]).user;
            After(run[..d]).user == owner <==> LastLogin(run, a, d).None? || LastLogin(run, a, d) == owner
  {
    v, a := DeletionIsBacked(run, d);
    AssertKeepsUser(run, a);
    forall j | a < j < d
      ensures !LoggedOut(run, j)
    {
      assert j != v ==> !Overwrites(run, j);
    }
    UserSince(run, a, d);
  }

  /** User 2 logs in over the session in which user 1 verified, and deletes the passkey of user 2. */
  lemma OtherOwnerExample()
    ensures var run := [Login(1, 0, true), Assert(0, true), VerifyPasskey(true, 0, true, 0, true), Login(2, 0, true),
                        DeletePasskey(true, 0, true)];
            Timely(run) && Granted(run, 4) && After(run[..1]).user == Some(1) && After(run[..4]).user == Some(2)
  {
    var run := [Login(1, 0, true), Assert(0, true), VerifyPasskey(true, 0, true, 0, true), Login(2, 0, true),
                DeletePasskey(true, 0, true)];
    assert run[..0] == [];
    AfterNext(run, 0);
    AfterNext(run, 1);
    AfterNext(run, 2);
    AfterNext(run, 3);
    assert After(run[..1]) == Session(Some(1), None, None, None);
    assert After(run[..2]) == Session(Some(1), Some(0), None, None);
    assert After(run[..3]) == Session(Some(1), None, Some(0), Some(PASSKEY));
    assert After(run[..4]) == Session(Some(2), None, Some(0), Some(PASSKEY));
  }

  // -------------------------------------------------------------- counting

  function Assertions(run: seq<Request>): nat {
    if run == [] then 0
    else Assertions(run[..|run| - 1]) + if run[|run| - 1].Assert? && Granted(run, |run| - 1) then 1 else 0
  }

  function PasskeyVerifications(run: seq<Request>): nat {
    if run == [] then 0
    else
      var n := |run| - 1;
      PasskeyVerifications(run[..n]) + if run[n].VerifyPasskey? && Granted(run, n) then 1 else 0
  }

  /** Each granted passkey verification uses up an assertion of its own. */
  lemma {:induction false} VerificationsNeedAssertions(run: seq<Request>)
    ensures PasskeyVerifications(run) + (if After(run).readyAt.Some? then 1 else 0) <= Assertions(run)
  {
    if run != [] {
      VerificationsNeedAssertions(run[..|run| - 1]);
    }
  }
}
