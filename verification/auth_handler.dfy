/** The authentication operation handler: it tries a bind with the
    operation's credentials and reports the outcome, then either restores
    the connection's earlier session or, when asked, keeps the new
    credentials as the connection's own. The directory's answers (whether
    the bind is accepted, whether restoring succeeds) are inputs; the calls
    the handler makes on the connection and the events it dispatches are
    recorded. */
module AuthHandler {
  import opened Wrappers

  datatype AuthenticationOperation = AuthenticationOperation(username: string, password: string, switchToCredentials: bool)

  /** The operations a handler may be offered. */
  datatype Operation =
    | Authentication(auth: AuthenticationOperation)
    | Add(dn: string)
    | Delete(dn: string)
    | Rename(dn: string)
    | BatchModify(dn: string)
    | Query(filter: string)

  /** This handler takes authentication operations and nothing else. */
  function Supports(op: Operation): (r: bool)
    ensures r <==> exists a :: op == Authentication(a)
  {
    op.Authentication?
  }

  datatype Credentials = Credentials(username: string, password: string)

  /** The calls the handler makes on the connection and its configuration.
      `Connect` carries `connect`'s four arguments as the handler passes
      them: user name, password, a flag (`false` in the bind attempt) and a
      fourth argument (`null` there); the parameterless form is
      `Connect(None, None, false, None)`. */
  datatype Call =
    | IsBound
    | Connect(username: Option<string>, password: Option<string>, flag: bool, fourth: Option<string>)
    | Close
    | GetLastError
    | GetExtendedErrorNumber
    | GetConfig
    | SetUsername(newUsername: string)
    | SetPassword(newPassword: string)

  const Reconnect: Call := Connect(None, None, false, None)

  /** The connection: the credentials its configuration holds, who it is
      bound as, if anyone, and the calls made on it so far. */
  datatype Connection = Connection(config: Credentials, boundAs: Option<Credentials>, calls: seq<Call>)

  /** A new connection is not bound. */
  function NewConnection(config: Credentials): (c: Connection)
    ensures c.boundAs.None? && c.config == config && c.calls == []
  {
    Connection(config, None, [])
  }

  /** Outside an authentication a connection is bound, if at all, with its
      configured credentials. */
  predicate Consistent(c: Connection) {
    c.boundAs.Some? ==> c.boundAs.value == c.config
  }

  datatype AuthResponse = AuthResponse(isAuthenticated: bool, errorMessage: Option<string>, errorCode: Option<int>)

  datatype EventName = AuthenticationBefore | AuthenticationAfter

  /** A dispatched event: its name, the operation and, after the attempt,
      the response. */
  datatype Event = Event(name: EventName, op: AuthenticationOperation, response: Option<AuthResponse>)

  datatype Handler = Handler(conn: Connection, events: seq<Event>)

  /** The directory's answer to the bind attempt: accepted, or rejected with
      the connection's last error message and extended error number. */
  datatype BindOutcome = Accepted | Rejected(lastError: string, errorNumber: int)

  /** The response returned with the handler's new state, or the exception
      raised when restoring the earlier session fails, with the state then. */
  datatype Execution = Returned(response: AuthResponse, state: Handler) | Raised(state: Handler)

  function CredentialsOf(op: AuthenticationOperation): Credentials {
    Credentials(op.username, op.password)
  }

  function ResponseTo(attempt: BindOutcome): AuthResponse {
    match attempt
    case Accepted => AuthResponse(true, None, None)
    case Rejected(e, n) => AuthResponse(false, Some(e), Some(n))
  }

  /** The calls up to and including the bind attempt and, when it is
      rejected, the reading of the error. */
  function AttemptCalls(op: AuthenticationOperation, attempt: BindOutcome): seq<Call> {
    [IsBound, Connect(Some(op.username), Some(op.password), false, None)]
      + (if attempt.Rejected? then [GetLastError, GetExtendedErrorNumber] else [])
  }

  /** The calls after the attempt: switching credentials, restoring the
      earlier session, or closing a connection that was not bound before. */
  function FollowUpCalls(op: AuthenticationOperation, attempt: BindOutcome, wasBound: bool): seq<Call> {
    if attempt.Accepted? && op.switchToCredentials then [GetConfig, SetUsername(op.username), SetPassword(op.password)]
    else if wasBound then [Close, Reconnect]
    else [Close]
  }

  /** `execute` for an authentication operation. `restored` is whether the
      parameterless reconnect that restores an earlier session succeeds. */
  function Execute(h: Handler, op: AuthenticationOperation, attempt: BindOutcome, restored: bool): (x: Execution)
    // the before-event comes first; the after-event, carrying the response,
    // is dispatched exactly when a response is returned
    ensures x.Returned? ==> x.state.events == h.events + [Event(AuthenticationBefore, op, None), Event(AuthenticationAfter, op, Some(x.response))]
    ensures x.Raised? ==> x.state.events == h.events + [Event(AuthenticationBefore, op, None)]
    // authenticated exactly when the bind was accepted; a rejection reports
    // the connection's last error and error number
    ensures x.Returned? ==> (x.response.isAuthenticated <==> attempt.Accepted?)
    ensures x.Returned? && attempt.Rejected? ==>
      x.response.errorMessage == Some(attempt.lastError) && x.response.errorCode == Some(attempt.errorNumber)
    ensures x.Returned? && attempt.Accepted? ==> x.response.errorMessage.None? && x.response.errorCode.None?
    // the calls: isBound, the bind `connect(user, password, false, null)`,
    // the error readers on rejection, then the follow-up
    ensures x.state.conn.calls == h.conn.calls + AttemptCalls(op, attempt) + FollowUpCalls(op, attempt, h.conn.boundAs.Some?)
    // only an accepted switching attempt touches the stored credentials
    ensures x.state.conn.config == (if attempt.Accepted? && op.switchToCredentials then CredentialsOf(op) else h.conn.config)
    // the exception happens only when an earlier session could not be restored
    ensures x.Raised? <==> h.conn.boundAs.Some? && !(attempt.Accepted? && op.switchToCredentials) && !restored
  {
    var before := h.events + [Event(AuthenticationBefore, op, None)];
    var wasBound := h.conn.boundAs.Some?;
    var response := ResponseTo(attempt);
    var calls := h.conn.calls + AttemptCalls(op, attempt) + FollowUpCalls(op, attempt, wasBound);
    var after := before + [Event(AuthenticationAfter, op, Some(response))];
    if attempt.Accepted? && op.switchToCredentials then
      var creds := CredentialsOf(op);
      Returned(response, Handler(Connection(creds, Some(creds), calls), after))
    else if wasBound then
      if restored then Returned(response, Handler(Connection(h.conn.config, Some(h.conn.config), calls), after))
      else Raised(Handler(Connection(h.conn.config, None, calls), before))
    else
      Returned(response, Handler(Connection(h.conn.config, None, calls), after))
  }

  /** Authenticating someone without switching leaves the connection as it
      was: same credentials, and bound again exactly when it was bound
      before. */
  lemma NonSwitchingIsTransparent(h: Handler, op: AuthenticationOperation, attempt: BindOutcome, restored: bool)
    requires Consistent(h.conn)
    requires !op.switchToCredentials || attempt.Rejected?
    requires Execute(h, op, attempt, restored).Returned?
    ensures Execute(h, op, attempt, restored).state.conn.config == h.conn.config
    ensures Execute(h, op, attempt, restored).state.conn.boundAs == h.conn.boundAs
  {
  }

  /** Switching after an accepted bind leaves the connection bound as the
      new credentials, which are now its configured ones, with no close. */
  lemma SwitchKeepsNewSession(h: Handler, op: AuthenticationOperation)
    requires op.switchToCredentials
    ensures Execute(h, op, Accepted, false).Returned?
    ensures Execute(h, op, Accepted, false).state.conn.boundAs == Some(CredentialsOf(op))
    ensures Execute(h, op, Accepted, false).state.conn.config == CredentialsOf(op)
    ensures Close !in Execute(h, op, Accepted, false).state.conn.calls[|h.conn.calls|..]
  {
    var x := Execute(h, op, Accepted, false);
    var added := x.state.conn.calls[|h.conn.calls|..];
    assert added == AttemptCalls(op, Accepted) + FollowUpCalls(op, Accepted, h.conn.boundAs.Some?);
  }

  /** Every execution keeps the connection consistent: it ends unbound or
      bound as its configured credentials. In particular a rejected identity
      never stays bound unless it is the configured one. */
  lemma ExecutePreservesConsistent(h: Handler, op: AuthenticationOperation, attempt: BindOutcome, restored: bool)
    requires Consistent(h.conn)
    ensures Consistent(Execute(h, op, attempt, restored).state.conn)
    ensures attempt.Rejected? ==>
      Execute(h, op, attempt, restored).state.conn.boundAs in {None, Some(h.conn.config)}
  {
  }

  /** The configuration is read exactly when the bind was accepted and a
      switch was asked for. */
  lemma ConfigReadOnlyToSwitch(h: Handler, op: AuthenticationOperation, attempt: BindOutcome, restored: bool)
    ensures var added := Execute(h, op, attempt, restored).state.conn.calls[|h.conn.calls|..];
      GetConfig in added <==> attempt.Accepted? && op.switchToCredentials
  {
    var x := Execute(h, op, attempt, restored);
    var added := x.state.conn.calls[|h.conn.calls|..];
    assert added == AttemptCalls(op, attempt) + FollowUpCalls(op, attempt, h.conn.boundAs.Some?);
  }

  /** The calls one execution adds to the connection's log. */
  lemma AddedCalls(h: Handler, op: AuthenticationOperation, attempt: BindOutcome, restored: bool) returns (added: seq<Call>)
    ensures added == Execute(h, op, attempt, restored).state.conn.calls[|h.conn.calls|..]
    ensures added == AttemptCalls(op, attempt) + FollowUpCalls(op, attempt, h.conn.boundAs.Some?)
  {
    added := Execute(h, op, attempt, restored).state.conn.calls[|h.conn.calls|..];
  }

  /** What the handler asks of the connection, call by call: `isBound` and
      the bind come first; the error readers are called exactly on a
      rejection; `close` is called exactly when no accepted switch keeps the
      new session; the stored credentials are set exactly on an accepted
      switch. */
  lemma CallsMade(h: Handler, op: AuthenticationOperation, attempt: BindOutcome, restored: bool)
    ensures var added := Execute(h, op, attempt, restored).state.conn.calls[|h.conn.calls|..];
      && |added| >= 2
      && added[0] == IsBound
      && added[1] == Connect(Some(op.username), Some(op.password), false, None)
      && (GetLastError in added <==> attempt.Rejected?)
      && (GetExtendedErrorNumber in added <==> attempt.Rejected?)
      && (Close in added <==> !(attempt.Accepted? && op.switchToCredentials))
      && (SetUsername(op.username) in added <==> attempt.Accepted? && op.switchToCredentials)
      && (SetPassword(op.password) in added <==> attempt.Accepted? && op.switchToCredentials)
  {
    var added := AddedCalls(h, op, attempt, restored);
    var bind := Connect(Some(op.username), Some(op.password), false, None);
    if attempt.Accepted? && op.switchToCredentials {
      assert added == [IsBound, bind, GetConfig, SetUsername(op.username), SetPassword(op.password)];
    } else {
      var errors := if attempt.Rejected? then [GetLastError, GetExtendedErrorNumber] else [];
      var tail := if h.conn.boundAs.Some? then [Close, Reconnect] else [Close];
      assert added == [IsBound, bind] + errors + tail;
      assert Close in tail && SetUsername(op.username) !in tail && SetPassword(op.password) !in tail;
      assert GetLastError !in tail && GetExtendedErrorNumber !in tail;
    }
  }

  /** A session is restored with `close` and the parameterless `connect`
      exactly when the connection was bound and no switch happened. */
  lemma RestoreOnlyWhenBound(h: Handler, op: AuthenticationOperation, attempt: BindOutcome, restored: bool)
    ensures var added := Execute(h, op, attempt, restored).state.conn.calls[|h.conn.calls|..];
      Reconnect in added <==> h.conn.boundAs.Some? && !(attempt.Accepted? && op.switchToCredentials)
  {
    var x := Execute(h, op, attempt, restored);
    var added := x.state.conn.calls[|h.conn.calls|..];
    assert added == AttemptCalls(op, attempt) + FollowUpCalls(op, attempt, h.conn.boundAs.Some?);
    assert Connect(Some(op.username), Some(op.password), false, None) != Reconnect;
  }

  // ---------------------------------------------------------------------
  // The source's examples, with user `foo` and password `bar`

  const Foo: AuthenticationOperation := AuthenticationOperation("foo", "bar", false)
  const FooSwitching: AuthenticationOperation := AuthenticationOperation("foo", "bar", true)
  const FooBind: Call := Connect(Some("foo"), Some("bar"), false, None)

  /** A handler over a bound connection with configured credentials `config`. */
  function BoundHandler(config: Credentials): (h: Handler)
    ensures Consistent(h.conn) && h.conn.boundAs.Some? && h.conn.calls == [] && h.events == []
  {
    Handler(Connection(config, Some(config), []), [])
  }

  /** On a bound connection an accepted bind is reported as authenticated,
      the events frame it, and the session is restored with `close` and
      `connect()`. */
  lemma AuthenticateExample(config: Credentials)
    ensures Execute(BoundHandler(config), Foo, Accepted, true)
      == Returned(AuthResponse(true, None, None),
           Handler(Connection(config, Some(config), [IsBound, FooBind, Close, Reconnect]),
             [Event(AuthenticationBefore, Foo, None), Event(AuthenticationAfter, Foo, Some(AuthResponse(true, None, None)))]))
  {
  }

  /** On a connection that was never bound the handler only closes. */
  lemma NotBoundExample(config: Credentials)
    ensures NewConnection(config).boundAs.None?
    ensures Execute(Handler(NewConnection(config), []), Foo, Accepted, true).state.conn.calls
      == [IsBound, FooBind, Close]
  {
  }

  /** With a switch the configuration receives `foo` and `bar`. */
  lemma SwitchExample(config: Credentials)
    ensures Execute(BoundHandler(config), FooSwitching, Accepted, true).state.conn
      == Connection(Credentials("foo", "bar"), Some(Credentials("foo", "bar")),
           [IsBound, FooBind, GetConfig, SetUsername("foo"), SetPassword("bar")])
  {
  }

  /** A rejected bind gives the last error `foo` and number 99, and with a
      switch asked for the configuration is never read. */
  lemma RejectedExample(config: Credentials)
    ensures Execute(BoundHandler(config), Foo, Rejected("foo", 99), true).response == AuthResponse(false, Some("foo"), Some(99))
    ensures Execute(BoundHandler(config), FooSwitching, Rejected("foo", 99), true).state.conn
      == Connection(config, Some(config), [IsBound, FooBind, GetLastError, GetExtendedErrorNumber, Close, Reconnect])
  {
  }

  /** The handler supports authentication and none of the other operations. */
  lemma SupportsExample()
    ensures Supports(Authentication(Foo))
    ensures !Supports(Add("foo")) && !Supports(Delete("foo")) && !Supports(Rename("foo"))
    ensures !Supports(BatchModify("foo")) && !Supports(Query(""))
  {
  }
}
