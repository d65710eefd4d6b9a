/** `FishbowlSession` (FishbowlSession.py): a connection to the ERP that
    logs in on creation with bounded retries, counts its successful calls,
    and logs itself out when a query or a cycle import fails. The HTTP
    calls are oracles: their answers are parameters, and each operation
    reports which calls it made. Printing and the wait between login
    attempts are not modelled. */
module FishbowlSessions {
  import opened Common

  /** The answer to the i-th login call (counted from 0): no result, or a
      result carrying a token that may be empty. */
  type LoginOracle = nat -> Option<string>

  /** `result and result["token"]`: a result with a non-empty token. */
  predicate GotToken(reply: Option<string>) {
    reply.Some? && reply.value != ""
  }

  /** Reference for `login`: from call `i` on, with `remaining` attempts
      left, the token obtained and the number of calls made in total. */
  function LoginFrom(oracle: LoginOracle, i: nat, remaining: int): (r: (Option<string>, nat))
    decreases if remaining > 0 then remaining else 0
  {
    if remaining <= 0 then (None, i)
    else if GotToken(oracle(i)) then (oracle(i), i + 1)
    else LoginFrom(oracle, i + 1, remaining - 1)
  }

  /** What the reference promises: at most `remaining` more calls; a token
      comes from the last call made and every earlier one failed; no token
      means every attempt was spent and failed. */
  lemma {:induction false} LoginFromSpec(oracle: LoginOracle, i: nat, remaining: int)
    ensures var (token, calls) := LoginFrom(oracle, i, remaining);
            && i <= calls <= i + (if remaining > 0 then remaining else 0)
            && (forall j :: i <= j < calls - 1 ==> !GotToken(oracle(j)))
            && (token.Some? ==> calls > i && GotToken(token) && token == oracle(calls - 1))
            && (token.None? ==> calls == i + (if remaining > 0 then remaining else 0)
                                && (calls == i || !GotToken(oracle(calls - 1))))
    decreases if remaining > 0 then remaining else 0
  {
    if remaining > 0 && !GotToken(oracle(i)) {
      LoginFromSpec(oracle, i + 1, remaining - 1);
    }
  }

  /** `login`: calls the ERP until a token comes back or `attempts` calls
      have failed, and returns the token (None when every attempt failed,
      or at once when `attempts` is not positive) and the number of calls
      made. */
  method Login(attempts: int, oracle: LoginOracle) returns (token: Option<string>, calls: nat)
    ensures (token, calls) == LoginFrom(oracle, 0, attempts)
    ensures calls <= (if attempts > 0 then attempts else 0)
    ensures token.Some? ==> GotToken(token)
  {
    var retryCounter := attempts;
    calls := 0;
    token := None;
    while retryCounter > 0
      invariant calls + retryCounter == attempts
      invariant LoginFrom(oracle, calls, retryCounter) == LoginFrom(oracle, 0, attempts)
      decreases retryCounter
    {
      var result := oracle(calls);
      calls := calls + 1;
      if GotToken(result) {
        token := result;
        LoginFromSpec(oracle, 0, attempts);
        return;
      }
      retryCounter := retryCounter - 1;
    }
    LoginFromSpec(oracle, 0, attempts);
  }

  datatype Session = Session(isTestDb: bool, loginAttempts: int, token: Option<string>,
                             isActive: bool, callCount: int)

  /** A session is active exactly when it holds a token, and its count of
      successful calls is not negative. */
  predicate Valid(s: Session) {
    (s.isActive <==> GotToken(s.token)) && s.callCount >= 0
  }

  /** The constructor: with `autoLogin` it logs in (making `loginCalls`
      calls) and is active exactly when a token came back; without it, it
      makes no call and is inactive. The call count starts at zero. */
  method NewSession(isTestDb: bool, autoLogin: bool, loginAttempts: int, oracle: LoginOracle)
    returns (s: Session, loginCalls: nat)
    ensures Valid(s) && s.callCount == 0
    ensures s.isTestDb == isTestDb && s.loginAttempts == loginAttempts
    ensures s.isActive <==> autoLogin && LoginFrom(oracle, 0, loginAttempts).0.Some?
    ensures !autoLogin ==> loginCalls == 0 && s.token.None?
    ensures autoLogin ==> (s.token, loginCalls) == LoginFrom(oracle, 0, loginAttempts)
  {
    var token: Option<string> := None;
    loginCalls := 0;
    if autoLogin {
      token, loginCalls := Login(loginAttempts, oracle);
    }
    s := Session(isTestDb, loginAttempts, token, GotToken(token), 0);
  }

  /** What `logout` returns: status code and reason phrase. */
  datatype Status = Status(status: int, reason: string)

  /** A query or import answer: status code, reason phrase and body. */
  datatype Answer<D> = Answer(status: int, reason: string, data: D)

  predicate IsOk<D>(a: Answer<D>) {
    a.reason == "OK"
  }

  predicate StatusOk(a: Status) {
    a.reason == "OK"
  }

  /** An ERP call the session made, with the token it sent. */
  datatype Call = LogoutCall(token: Option<string>) | QueryCall(token: Option<string>, sql: string)
                | CycleCall(token: Option<string>)

  datatype Failure = NotLoggedIn | CallFailure

  datatype Result<T> = Ok(value: T) | Err(error: Failure)

  /** The session after an operation, what it returned or raised, and the
      calls it made in order. */
  datatype Step<T> = Step(session: Session, result: Result<T>, calls: seq<Call>)

  /** `logout`: an inactive session answers {200, OK} without calling the
      ERP; an active one calls it, and on OK becomes inactive, drops its
      token and counts the call; any other reason raises with nothing
      changed. */
  function Logout(s: Session, reply: Status): (r: Step<Status>)
    ensures !s.isActive ==> r == Step(s, Ok(Status(200, "OK")), [])
    ensures s.isActive ==> r.calls == [LogoutCall(s.token)]
    ensures s.isActive && StatusOk(reply) ==>
              && r.result == Ok(reply) && !r.session.isActive && r.session.token.None?
              && r.session.callCount == s.callCount + 1
              && r.session.isTestDb == s.isTestDb && r.session.loginAttempts == s.loginAttempts
    ensures s.isActive && !StatusOk(reply) ==> r.result == Err(CallFailure) && r.session == s
    ensures Valid(s) ==> Valid(r.session)
  {
    if s.isActive then
      if StatusOk(reply) then
        Step(s.(callCount := s.callCount + 1, isActive := false, token := None), Ok(reply), [LogoutCall(s.token)])
      else Step(s, Err(CallFailure), [LogoutCall(s.token)])
    else Step(s, Ok(Status(200, "OK")), [])
  }

  /** `query`: an inactive session raises before calling anything. An OK
      answer is counted and returned; any other answer triggers `logout`
      and then raises `CallFailure` (also when the logout itself fails). */
  function Query<D>(s: Session, sql: string, reply: Answer<D>, logoutReply: Status)
    : (r: Step<Answer<D>>)
    ensures !s.isActive ==> r == Step(s, Err(NotLoggedIn), [])
    ensures s.isActive ==> |r.calls| >= 1 && r.calls[0] == QueryCall(s.token, sql)
    ensures s.isActive && IsOk(reply) ==>
              r == Step(s.(callCount := s.callCount + 1), Ok(reply), [QueryCall(s.token, sql)])
    ensures s.isActive && !IsOk(reply) ==>
              && r.result == Err(CallFailure)
              && r.calls == [QueryCall(s.token, sql), LogoutCall(s.token)]
              && (StatusOk(logoutReply) ==> !r.session.isActive && r.session.callCount == s.callCount + 1)
              && (!StatusOk(logoutReply) ==> r.session == s)
    ensures Valid(s) ==> Valid(r.session)
  {
    if !s.isActive then Step(s, Err(NotLoggedIn), [])
    else if IsOk(reply) then Step(s.(callCount := s.callCount + 1), Ok(reply), [QueryCall(s.token, sql)])
    else
      var out := Logout(s, logoutReply);
      Step(out.session, Err(CallFailure), [QueryCall(s.token, sql)] + out.calls)
  }

  /** `cycle_inventory`: calls the cycle-count import whatever the session
      state (an inactive session sends no token). An OK answer is counted
      and returned; any other answer triggers `logout` and then raises
      `CallFailure`. */
  function CycleInventory<D>(s: Session, reply: Answer<D>, logoutReply: Status)
    : (r: Step<Answer<D>>)
    ensures |r.calls| >= 1 && r.calls[0] == CycleCall(s.token)
    ensures IsOk(reply) ==> r == Step(s.(callCount := s.callCount + 1), Ok(reply), [CycleCall(s.token)])
    ensures !IsOk(reply) ==>
              && r.result == Err(CallFailure)
              && r.calls == [CycleCall(s.token)] + Logout(s, logoutReply).calls
              && r.session == Logout(s, logoutReply).session
    ensures Valid(s) ==> Valid(r.session)
  {
    if IsOk(reply) then Step(s.(callCount := s.callCount + 1), Ok(reply), [CycleCall(s.token)])
    else
      var out := Logout(s, logoutReply);
      Step(out.session, Err(CallFailure), [CycleCall(s.token)] + out.calls)
  }

  /** The call count counts successful calls: it never falls, and it rises
      by exactly the number of OK answers an operation received. */
  lemma CallCountCountsSuccesses<D>(s: Session, sql: string, reply: Answer<D>, logoutReply: Status)
    requires s.isActive
    ensures var q := Query(s, sql, reply, logoutReply);
            q.session.callCount == s.callCount + (if IsOk(reply) then 1 else 0)
                                   + (if !IsOk(reply) && StatusOk(logoutReply) then 1 else 0)
    ensures var c := CycleInventory(s, reply, logoutReply);
            c.session.callCount == s.callCount + (if IsOk(reply) then 1 else 0)
                                   + (if !IsOk(reply) && StatusOk(logoutReply) then 1 else 0)
  {
  }

  /** Only `cycle_inventory` reaches the ERP from an inactive session, and
      it does so without a token. */
  lemma InactiveSessionCalls<D>(s: Session, sql: string, reply: Answer<D>, logoutReply: Status)
    requires Valid(s) && !s.isActive
    ensures Query(s, sql, reply, logoutReply).calls == []
    ensures Logout(s, logoutReply).calls == []
    ensures forall c :: c in CycleInventory(s, reply, logoutReply).calls ==> !GotToken(c.token)
  {
  }

  /** One call on an existing session, with the answers the ERP gives. */
  datatype SessionOp<D> =
    | QueryOp(sql: string, reply: Answer<D>, logoutReply: Status)
    | CycleOp(reply: Answer<D>, logoutReply: Status)
    | LogoutOp(status: Status)

  function ApplyOp<D>(s: Session, op: SessionOp<D>): (Session, seq<Call>) {
    match op
    case QueryOp(sql, reply, lr) => var q := Query(s, sql, reply, lr); (q.session, q.calls)
    case CycleOp(reply, lr) => var c := CycleInventory(s, reply, lr); (c.session, c.calls)
    case LogoutOp(st) => var l := Logout(s, st); (l.session, l.calls)
  }

  /** The session after the operations in `ops`, in order, and every call
      they made. */
  function RunOps<D>(s: Session, ops: seq<SessionOp<D>>): (Session, seq<Call>)
    decreases |ops|
  {
    if ops == [] then (s, [])
    else
      var (mid, before) := RunOps(s, ops[..|ops| - 1]);
      var (after, last) := ApplyOp(mid, ops[|ops| - 1]);
      (after, before + last)
  }

  /** Over any run of operations a valid session stays valid, its call
      count never falls, it never gains a token it did not start with (an
      explicit `login` returns a token without storing it), and every query
      and logout it sends carries a real token; only the cycle import can
      go out without one. */
  lemma {:induction false} RunOpsInvariant<D>(s: Session, ops: seq<SessionOp<D>>)
    requires Valid(s)
    ensures var (t, calls) := RunOps(s, ops);
            && Valid(t) && t.callCount >= s.callCount
            && (t.token == s.token || t.token.None?)
            && (forall c :: c in calls ==> c.token == s.token || c.token.None?)
            && (forall c :: c in calls && !c.CycleCall? ==> GotToken(c.token))
    decreases |ops|
  {
    if ops != [] {
      RunOpsInvariant(s, ops[..|ops| - 1]);
    }
  }
}
