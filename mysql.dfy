/** The `Mysql` wrapper class of the `mysql` module: one connection opened
    eagerly when the object is made, CRUD helpers that run one statement
    each, and two context managers, `cursor` and `transaction`.

    A Python exception is modelled as a `Failure`/`Fail` value carrying an
    `Error`. A `with` block is modelled by its two halves: the `Enter`
    method runs the context manager up to its `yield`, the caller runs the
    block, and the `Exit` method receives how the block ended (`Pass`, or
    `Fail` with the exception it raised) and runs the rest. Each method
    states the driver calls it makes as a function of the driver's answers,
    and what it returns or raises as a function of the same answers; the
    lemmas at the end are about those functions. */
module MysqlClient {
  import opened Wrappers
  import opened Values
  import opened Driver

  // ---------------------------------------------------------------------
  // Exceptions

  /** The exception classes involved. `Raised(name)` stands for any other
      exception class derived from `Exception` that a `with` block may
      raise. */
  datatype ErrorKind =
    | DriverError        // mysql.connector.Error
    | ConnectionError    // the builtin ConnectionError
    | PlainException     // the builtin Exception
    | TransactionError   // the module's own TransactionError
    | Raised(name: string)

  /** An exception: its class, its message, and the exception it was raised
      from (`raise ... from e`). */
  datatype Error = Error(kind: ErrorKind, message: string, cause: Option<Error>)

  /** The `mysql.connector.Error` a failed driver call raises. */
  function DriverFailure(message: string): Error {
    Error(DriverError, message, None)
  }

  /** The `ConnectionError` a failed connect raises: the driver's message
      behind a fixed prefix, raised from the driver error. */
  function ConnectFailure(message: string): (e: Error)
    ensures e.kind == ConnectionError && e.cause == Some(DriverFailure(message))
    ensures |"Failed to connect to MySQL: "| <= |e.message|
    ensures e.message[..|"Failed to connect to MySQL: "|] == "Failed to connect to MySQL: "
    ensures e.message[|"Failed to connect to MySQL: "|..] == message
  {
    Error(ConnectionError, "Failed to connect to MySQL: " + message, Some(DriverFailure(message)))
  }

  /** The plain `Exception` a failed read raises: the driver's message
      behind a fixed prefix, raised from the driver error. */
  function ReadFailure(message: string): (e: Error)
    ensures e.kind == PlainException && e.cause == Some(DriverFailure(message))
    ensures |"Failed to read from MySQL: "| <= |e.message|
    ensures e.message[..|"Failed to read from MySQL: "|] == "Failed to read from MySQL: "
    ensures e.message[|"Failed to read from MySQL: "|..] == message
  {
    Error(PlainException, "Failed to read from MySQL: " + message, Some(DriverFailure(message)))
  }

  /** The `TransactionError` a failed rollback raises, with a fixed message,
      raised from the rollback's driver error. */
  function RollbackFailure(message: string): (e: Error)
    ensures e.kind == TransactionError && e.cause == Some(DriverFailure(message))
  {
    Error(TransactionError, "Failed to rollback transaction", Some(DriverFailure(message)))
  }

  // ---------------------------------------------------------------------
  // Connection parameters

  /** `{"host": host, "user": username, "password": password, **kwargs}`.
      Python refuses `host`, `username` and `password` among the keyword
      arguments, since they name parameters; `user` is accepted and then
      overrides `username`. */
  function ConnectionParams(host: string, username: string, password: string, kwargs: map<string, Value>)
    : (params: map<string, Value>)
    requires "host" !in kwargs && "username" !in kwargs && "password" !in kwargs
    ensures params.Keys == kwargs.Keys + {"host", "user", "password"}
    ensures params["host"] == Str(host) && params["password"] == Str(password)
    ensures params["user"] == if "user" in kwargs then kwargs["user"] else Str(username)
    ensures forall k :: k in kwargs ==> params[k] == kwargs[k]
  {
    map["host" := Str(host), "user" := Str(username), "password" := Str(password)] + kwargs
  }

  // ---------------------------------------------------------------------
  // connect and close

  /** What `connect` raises, given the driver's answer. */
  function ConnectResult(answer: Result<Handle, string>): (r: Outcome<Error>)
    ensures r.Pass? <==> answer.Success?
    ensures answer.Failure? ==> r == Fail(ConnectFailure(answer.error))
    ensures r.Fail? ==> r.error.kind == ConnectionError && r.error.cause.Some? &&
                        r.error.cause.value.kind == DriverError &&
                        r.error.message == "Failed to connect to MySQL: " + r.error.cause.value.message
  {
    match answer
    case Success(_) => Pass
    case Failure(message) => Fail(ConnectFailure(message))
  }

  /** The calls `close` makes: none without a connection, otherwise a
      liveness check, then `close` only on a live connection. */
  function CloseCalls(conn: Option<Handle>, live: bool): (calls: seq<Event>)
    ensures conn.None? ==> calls == []
    ensures conn.Some? ==> |calls| >= 1 && calls[0] == Pinged(conn.value, live)
    ensures conn.Some? ==> (Closed(conn.value) in calls <==> live)
  {
    if conn.None? then []
    else [Pinged(conn.value, live)] + (if live then [Closed(conn.value)] else [])
  }

  // ---------------------------------------------------------------------
  // create, read, update, delete

  /** When a write commits after its statement: `create` only when values
      were given, `update` and `delete` always. */
  datatype CommitPolicy = CommitWithValues | CommitAlways

  predicate CommitsAfter(policy: CommitPolicy, vals: seq<Value>) {
    policy == CommitAlways || vals != []
  }

  /** The values passed to `execute`: the tuple when it is non-empty (a
      non-empty tuple is true), none otherwise. */
  function Args(vals: seq<Value>): (args: Option<seq<Value>>)
    ensures args.None? <==> vals == []
    ensures args.Some? ==> args.value == vals
  {
    if vals == [] then None else Some(vals)
  }

  /** The calls a write makes on connection `conn`, given the driver's
      answers; `cursor` is the cursor the driver hands out. The cursor is
      not closed. */
  function WriteCalls(policy: CommitPolicy, conn: Handle, cursor: CursorId, statement: string, vals: seq<Value>,
                      execute: Result<int, string>, commit: Outcome<string>): seq<Event>
  {
    [CursorOpened(conn, cursor, false), Executed(cursor, statement, Args(vals), execute)]
    + (if execute.Success? && CommitsAfter(policy, vals) then [Committed(conn, commit)] else [])
  }

  /** What a write returns or raises: the cursor's `rowcount`, or the
      driver's error unchanged. */
  function WriteResult(policy: CommitPolicy, vals: seq<Value>, execute: Result<int, string>, commit: Outcome<string>)
    : (r: Result<int, Error>)
    ensures r.Success? <==> execute.Success? && (CommitsAfter(policy, vals) ==> commit.Pass?)
    ensures r.Success? ==> r.value == execute.value
    ensures r.Failure? ==> r.error.kind == DriverError && r.error.cause == None
  {
    if execute.Failure? then Failure(DriverFailure(execute.error))
    else if CommitsAfter(policy, vals) && commit.Fail? then Failure(DriverFailure(commit.error))
    else Success(execute.value)
  }

  /** The calls `read` makes. */
  function ReadCalls(conn: Handle, cursor: CursorId, statement: string, vals: seq<Value>,
                     execute: Result<int, string>, fetch: Result<seq<Row>, string>): seq<Event>
  {
    [CursorOpened(conn, cursor, false), Executed(cursor, statement, Args(vals), execute)]
    + (if execute.Success? then [Fetched(cursor, fetch)] else [])
  }

  /** What `read` returns or raises: the fetched rows, or the driver's
      error wrapped in a plain `Exception`. */
  function ReadResult(execute: Result<int, string>, fetch: Result<seq<Row>, string>): (r: Result<seq<Row>, Error>)
    ensures r.Success? <==> execute.Success? && fetch.Success?
    ensures r.Success? ==> r.value == fetch.value
    ensures execute.Failure? ==> r == Failure(ReadFailure(execute.error))
    ensures execute.Success? && fetch.Failure? ==> r == Failure(ReadFailure(fetch.error))
    ensures r.Failure? ==> r.error.kind == PlainException && r.error.cause.Some? &&
                           r.error.cause.value.kind == DriverError &&
                           r.error.message == "Failed to read from MySQL: " + r.error.cause.value.message
  {
    if execute.Failure? then Failure(ReadFailure(execute.error))
    else if fetch.Failure? then Failure(ReadFailure(fetch.error))
    else Success(fetch.value)
  }

  // ---------------------------------------------------------------------
  // The cursor context manager

  /** The cursor context manager reconnects when there is no connection or
      the driver reports it is not connected. */
  predicate Reconnects(conn: Option<Handle>, live: bool) {
    conn.None? || !live
  }

  /** The calls the `cursor` context manager makes before its `yield`. */
  function CursorEnterCalls(conn: Option<Handle>, params: map<string, Value>, live: bool,
                            connect: Result<Handle, string>, cursor: CursorId, dictionary: bool): seq<Event>
  {
    (if conn.None? then [] else [Pinged(conn.value, live)])
    + (if Reconnects(conn, live) then [Connected(params, connect)] else [])
    + (if Reconnects(conn, live) && connect.Failure? then []
       else [CursorOpened(if Reconnects(conn, live) then connect.value else conn.value, cursor, dictionary)])
  }

  /** The cursor the `with` statement binds, or the `ConnectionError` raised
      before the block could run. */
  function CursorEnterResult(conn: Option<Handle>, live: bool, connect: Result<Handle, string>, cursor: CursorId)
    : (r: Result<CursorId, Error>)
    ensures r.Failure? <==> Reconnects(conn, live) && connect.Failure?
    ensures r.Failure? ==> r.error == ConnectFailure(connect.error)
    ensures r.Success? ==> r.value == cursor
    ensures !Reconnects(conn, live) ==> r == Success(cursor)
    ensures r.Failure? ==> r.error.kind == ConnectionError && r.error.cause.Some? &&
                           r.error.message == "Failed to connect to MySQL: " + r.error.cause.value.message
  {
    if Reconnects(conn, live) && connect.Failure? then Failure(ConnectFailure(connect.error)) else Success(cursor)
  }

  // ---------------------------------------------------------------------
  // The transaction context manager

  /** `except rollback_on`: a class matches itself and, for `Exception`,
      every kind here, all of which derive from it. `None` stands for the
      default `(Exception,)`. */
  predicate Matches(rollbackOn: Option<set<ErrorKind>>, kind: ErrorKind) {
    rollbackOn.None? || kind in rollbackOn.value || PlainException in rollbackOn.value
  }

  /** A rollback is attempted for a matching exception, and for any other
      one when the connection is not in autocommit mode. */
  predicate RollsBack(rollbackOn: Option<set<ErrorKind>>, kind: ErrorKind, autocommit: bool) {
    Matches(rollbackOn, kind) || !autocommit
  }

  /** The calls the two `except` clauses make for the exception `err`. The
      autocommit flag is read only when `err` does not match. */
  function RecoveryCalls(conn: Handle, rollbackOn: Option<set<ErrorKind>>, err: Error,
                         autocommit: bool, rollback: Outcome<string>): seq<Event>
  {
    if Matches(rollbackOn, err.kind) then [RolledBack(conn, rollback)]
    else [AutocommitRead(conn, autocommit)] + (if !autocommit then [RolledBack(conn, rollback)] else [])
  }

  /** The exception the `except` clauses raise: `err` itself (the bare
      `raise`), unless an attempted rollback failed. */
  function Recovered(rollbackOn: Option<set<ErrorKind>>, err: Error, autocommit: bool, rollback: Outcome<string>)
    : (raised: Error)
    ensures !RollsBack(rollbackOn, err.kind, autocommit) || rollback.Pass? ==> raised == err
    ensures RollsBack(rollbackOn, err.kind, autocommit) && rollback.Fail? ==>
              raised.kind == TransactionError && raised.cause == Some(DriverFailure(rollback.error))
    ensures raised == err || (raised.kind == TransactionError && RollsBack(rollbackOn, err.kind, autocommit) && rollback.Fail?)
  {
    if RollsBack(rollbackOn, err.kind, autocommit) && rollback.Fail? then RollbackFailure(rollback.error) else err
  }

  /** The calls `transaction` makes before its `yield`. */
  function TransactionEnterCalls(conn: Handle, rollbackOn: Option<set<ErrorKind>>, start: Outcome<string>,
                                 autocommit: bool, rollback: Outcome<string>): seq<Event>
  {
    [TransactionStarted(conn, start)]
    + (if start.Fail? then RecoveryCalls(conn, rollbackOn, DriverFailure(start.error), autocommit, rollback) else [])
  }

  /** Whether the block runs (`Pass`) or what is raised before it. */
  function TransactionEnterResult(rollbackOn: Option<set<ErrorKind>>, start: Outcome<string>,
                                  autocommit: bool, rollback: Outcome<string>): (r: Outcome<Error>)
    ensures r.Pass? <==> start.Pass?
  {
    if start.Pass? then Pass else Fail(Recovered(rollbackOn, DriverFailure(start.error), autocommit, rollback))
  }

  /** The calls `transaction` makes after its `yield`, given how the block
      ended. */
  function TransactionExitCalls(conn: Handle, rollbackOn: Option<set<ErrorKind>>, block: Outcome<Error>,
                                commit: Outcome<string>, autocommit: bool, rollback: Outcome<string>): seq<Event>
  {
    match block
    case Pass =>
      [Committed(conn, commit)]
      + (if commit.Fail? then RecoveryCalls(conn, rollbackOn, DriverFailure(commit.error), autocommit, rollback) else [])
    case Fail(err) => RecoveryCalls(conn, rollbackOn, err, autocommit, rollback)
  }

  /** How the `with` statement ends. */
  function TransactionExitResult(rollbackOn: Option<set<ErrorKind>>, block: Outcome<Error>,
                                 commit: Outcome<string>, autocommit: bool, rollback: Outcome<string>)
    : (r: Outcome<Error>)
    ensures r.Pass? <==> block.Pass? && commit.Pass?
  {
    match block
    case Pass =>
      if commit.Pass? then Pass
      else Fail(Recovered(rollbackOn, DriverFailure(commit.error), autocommit, rollback))
    case Fail(err) => Fail(Recovered(rollbackOn, err, autocommit, rollback))
  }

  // ---------------------------------------------------------------------
  // The class

  class Mysql {
    /** `self.connection_params`. */
    const connectionParams: map<string, Value>
    /** The driver module the class calls into. */
    const driver: Connector
    /** `self.conn`. */
    var conn: Option<Handle>

    /** The object holds a connection the driver handed out. */
    ghost predicate Valid()
      reads this, driver
    {
      conn.Some? && conn.value.id < driver.nextConn
    }

    /** The attribute assignments of `__init__`, before it calls `connect`. */
    constructor Init(params: map<string, Value>, driver: Connector)
      ensures connectionParams == params && this.driver == driver && conn == None
    {
      connectionParams := params;
      this.driver := driver;
      conn := None;
    }

    /** `Mysql(host, username, password, **kwargs)`: the connection is opened
        at once; if that raises, no object is returned. */
    static method Open(host: string, username: string, password: string, kwargs: map<string, Value>, driver: Connector)
      returns (r: Result<Mysql, Error>)
      requires "host" !in kwargs && "username" !in kwargs && "password" !in kwargs
      modifies driver
      ensures |driver.trace| == |old(driver.trace)| + 1
      ensures var call := driver.trace[|old(driver.trace)|];
              driver.trace == old(driver.trace) + [call] &&
              call.Connected? && call.params == ConnectionParams(host, username, password, kwargs) &&
              (r.Success? <==> call.connectAnswer.Success?) &&
              (r.Failure? ==> r.error == ConnectFailure(call.connectAnswer.error)) &&
              (r.Success? ==> r.value.conn == Some(call.connectAnswer.value))
      ensures r.Success? ==> fresh(r.value) && r.value.driver == driver && r.value.Valid()
      ensures r.Success? ==> r.value.connectionParams == ConnectionParams(host, username, password, kwargs)
    {
      var db := new Mysql.Init(ConnectionParams(host, username, password, kwargs), driver);
      var outcome := db.Connect();
      if outcome.Pass? {
        r := Success(db);
      } else {
        r := Failure(outcome.error);
      }
    }

    /** `connect()`: on success the new connection replaces the old one; on
        failure the old one is kept and `ConnectionError` is raised. */
    method Connect() returns (r: Outcome<Error>)
      modifies this, driver
      ensures |driver.trace| == |old(driver.trace)| + 1
      ensures var call := driver.trace[|old(driver.trace)|];
              driver.trace == old(driver.trace) + [call] &&
              call.Connected? && call == Connected(connectionParams, call.connectAnswer) &&
              r == ConnectResult(call.connectAnswer) &&
              conn == (if r.Pass? then Some(call.connectAnswer.value) else old(conn))
      ensures r.Pass? ==> conn == Some(Handle(old(driver.nextConn)))
      ensures driver.nextConn >= old(driver.nextConn) && driver.closed == old(driver.closed)
      ensures driver.nextCursor == old(driver.nextCursor)
      ensures old(conn.Some? && conn.value.id < driver.nextConn) ==> conn.Some? && conn.value.id < driver.nextConn
      ensures r.Pass? ==> Valid()
    {
      var answer := driver.Connect(connectionParams);
      match answer {
        case Success(handle) =>
          conn := Some(handle);
          r := Pass;
        case Failure(message) =>
          r := Fail(ConnectFailure(message));
      }
    }

    /** `close()`: closes the connection if there is one and it is alive.
        `self.conn` is left in place. */
    method Close()
      modifies driver
      ensures exists live: bool :: driver.trace == old(driver.trace) + CloseCalls(conn, live) &&
                                  driver.closed == old(driver.closed) + (if conn.Some? && live then {conn.value.id} else {})
      ensures driver.nextConn == old(driver.nextConn) && driver.nextCursor == old(driver.nextCursor)
    {
      if conn.Some? {
        var live := driver.Ping(conn.value);
        if live {
          driver.Close(conn.value);
        }
        assert driver.trace == old(driver.trace) + CloseCalls(conn, live);
      } else {
        assert driver.trace == old(driver.trace) + CloseCalls(conn, false);
      }
    }

    /** `__enter__`: the object itself. */
    method Enter() returns (db: Mysql)
      ensures db == this
    {
      db := this;
    }

    /** `__exit__`: closes the connection; whatever the block raised is not
        suppressed. */
    method Exit(block: Outcome<Error>) returns (r: Outcome<Error>)
      modifies driver
      ensures r == block
      ensures exists live: bool :: driver.trace == old(driver.trace) + CloseCalls(conn, live)
      ensures driver.nextConn == old(driver.nextConn) && driver.nextCursor == old(driver.nextCursor)
    {
      Close();
      r := block;
    }

    /** The shared body of `create`, `update` and `delete`. */
    method Write(policy: CommitPolicy, statement: string, vals: seq<Value>)
      returns (r: Result<int, Error>, ghost execute: Result<int, string>, ghost commit: Outcome<string>)
      requires Valid()
      modifies driver
      ensures driver.trace == old(driver.trace)
                + WriteCalls(policy, conn.value, CursorId(old(driver.nextCursor)), statement, vals, execute, commit)
      ensures r == WriteResult(policy, vals, execute, commit)
      ensures Valid() && driver.nextCursor == old(driver.nextCursor) + 1
      ensures driver.nextConn == old(driver.nextConn) && driver.closed == old(driver.closed)
    {
      var handle := conn.value;
      var cursor := driver.OpenCursor(handle, false);
      var executed := driver.Execute(cursor, statement, Args(vals));
      execute, commit := executed, Pass;
      if executed.Failure? {
        r := Failure(DriverFailure(executed.error));
        return;
      }
      if CommitsAfter(policy, vals) {
        var committed := driver.Commit(handle);
        commit := committed;
        if committed.Fail? {
          r := Failure(DriverFailure(committed.error));
          return;
        }
      }
      r := Success(executed.value);
    }

    /** `create(statement, vals)`: commits only when values were given. */
    method Create(statement: string, vals: seq<Value>)
      returns (r: Result<int, Error>, ghost execute: Result<int, string>, ghost commit: Outcome<string>)
      requires Valid()
      modifies driver
      ensures driver.trace == old(driver.trace)
                + WriteCalls(CommitWithValues, conn.value, CursorId(old(driver.nextCursor)), statement, vals, execute, commit)
      ensures r == WriteResult(CommitWithValues, vals, execute, commit)
      ensures Valid() && driver.nextCursor == old(driver.nextCursor) + 1
      ensures driver.nextConn == old(driver.nextConn) && driver.closed == old(driver.closed)
    {
      r, execute, commit := Write(CommitWithValues, statement, vals);
    }

    /** `update(statement, vals)`: commits after every statement. */
    method Update(statement: string, vals: seq<Value>)
      returns (r: Result<int, Error>, ghost execute: Result<int, string>, ghost commit: Outcome<string>)
      requires Valid()
      modifies driver
      ensures driver.trace == old(driver.trace)
                + WriteCalls(CommitAlways, conn.value, CursorId(old(driver.nextCursor)), statement, vals, execute, commit)
      ensures r == WriteResult(CommitAlways, vals, execute, commit)
      ensures Valid() && driver.nextCursor == old(driver.nextCursor) + 1
      ensures driver.nextConn == old(driver.nextConn) && driver.closed == old(driver.closed)
    {
      r, execute, commit := Write(CommitAlways, statement, vals);
    }

    /** `delete(statement, vals)`: the same steps as `update`. */
    method Delete(statement: string, vals: seq<Value>)
      returns (r: Result<int, Error>, ghost execute: Result<int, string>, ghost commit: Outcome<string>)
      requires Valid()
      modifies driver
      ensures driver.trace == old(driver.trace)
                + WriteCalls(CommitAlways, conn.value, CursorId(old(driver.nextCursor)), statement, vals, execute, commit)
      ensures r == WriteResult(CommitAlways, vals, execute, commit)
      ensures Valid() && driver.nextCursor == old(driver.nextCursor) + 1
      ensures driver.nextConn == old(driver.nextConn) && driver.closed == old(driver.closed)
    {
      r, execute, commit := Write(CommitAlways, statement, vals);
    }

    /** `read(statement, vals)`: the rows `fetchall` returns; a driver error
        from `execute` or `fetchall` is re-raised as a plain `Exception`. */
    method Read(statement: string, vals: seq<Value>)
      returns (r: Result<seq<Row>, Error>, ghost execute: Result<int, string>, ghost fetch: Result<seq<Row>, string>)
      requires Valid()
      modifies driver
      ensures driver.trace == old(driver.trace)
                + ReadCalls(conn.value, CursorId(old(driver.nextCursor)), statement, vals, execute, fetch)
      ensures r == ReadResult(execute, fetch)
      ensures Valid() && driver.nextCursor == old(driver.nextCursor) + 1
      ensures driver.nextConn == old(driver.nextConn) && driver.closed == old(driver.closed)
    {
      var cursor := driver.OpenCursor(conn.value, false);
      var executed := driver.Execute(cursor, statement, Args(vals));
      execute, fetch := executed, Success([]);
      if executed.Failure? {
        r := Failure(ReadFailure(executed.error));
        return;
      }
      var fetched := driver.FetchAll(cursor);
      fetch := fetched;
      if fetched.Failure? {
        r := Failure(ReadFailure(fetched.error));
        return;
      }
      r := Success(fetched.value);
    }

    /** The `cursor(dictionary)` context manager up to its `yield`: reconnects
        when there is no connection or it is not alive, then opens a cursor. */
    method CursorEnter(dictionary: bool)
      returns (r: Result<CursorId, Error>, ghost live: bool, ghost connect: Result<Handle, string>)
      modifies this, driver
      ensures driver.trace == old(driver.trace)
                + CursorEnterCalls(old(conn), connectionParams, live, connect, CursorId(old(driver.nextCursor)), dictionary)
      ensures r == CursorEnterResult(old(conn), live, connect, CursorId(old(driver.nextCursor)))
      ensures conn == (if Reconnects(old(conn), live) && connect.Success? then Some(connect.value) else old(conn))
      ensures old(conn).Some? && old(conn).value.id in old(driver.closed) ==> Reconnects(old(conn), live)
      ensures old(Valid()) || r.Success? ==> Valid()
      ensures driver.closed == old(driver.closed)
    {
      var alive := false;
      connect := Failure("");
      if conn.Some? {
        alive := driver.Ping(conn.value);
      }
      live := alive;
      if conn.None? || !alive {
        var outcome := Connect();
        connect := driver.trace[|driver.trace| - 1].connectAnswer;
        if outcome.Fail? {
          r := Failure(outcome.error);
          return;
        }
      }
      var cursor := driver.OpenCursor(conn.value, dictionary);
      r := Success(cursor);
    }

    /** The `cursor` context manager after its `yield`: the cursor is closed
        (`finally`) and the block's exception, if any, propagates. */
    method CursorExit(cursor: CursorId, block: Outcome<Error>) returns (r: Outcome<Error>)
      modifies driver
      ensures r == block
      ensures driver.trace == old(driver.trace) + [CursorClosed(cursor)]
      ensures driver.nextConn == old(driver.nextConn) && driver.nextCursor == old(driver.nextCursor)
      ensures driver.closed == old(driver.closed)
    {
      driver.CloseCursor(cursor);
      r := block;
    }

    /** The `except` clauses shared by both halves of `transaction`. */
    method Recover(rollbackOn: Option<set<ErrorKind>>, err: Error)
      returns (raised: Error, ghost autocommit: bool, ghost rollback: Outcome<string>)
      requires Valid()
      modifies driver
      ensures driver.trace == old(driver.trace) + RecoveryCalls(conn.value, rollbackOn, err, autocommit, rollback)
      ensures raised == Recovered(rollbackOn, err, autocommit, rollback)
      ensures Valid() && driver.nextCursor == old(driver.nextCursor)
      ensures driver.nextConn == old(driver.nextConn) && driver.closed == old(driver.closed)
    {
      autocommit, rollback := true, Pass;
      var attempt := true;
      if !Matches(rollbackOn, err.kind) {
        var on := driver.Autocommit(conn.value);
        autocommit, attempt := on, !on;
      }
      if attempt {
        var rolledBack := driver.Rollback(conn.value);
        rollback := rolledBack;
        if rolledBack.Fail? {
          raised := RollbackFailure(rolledBack.error);
          return;
        }
      }
      raised := err;
    }

    /** The `transaction(rollback_on)` context manager up to its `yield`. */
    method TransactionEnter(rollbackOn: Option<set<ErrorKind>>)
      returns (r: Outcome<Error>, ghost start: Outcome<string>, ghost autocommit: bool, ghost rollback: Outcome<string>)
      requires Valid()
      modifies driver
      ensures driver.trace == old(driver.trace) + TransactionEnterCalls(conn.value, rollbackOn, start, autocommit, rollback)
      ensures r == TransactionEnterResult(rollbackOn, start, autocommit, rollback)
      ensures Valid() && driver.nextCursor == old(driver.nextCursor)
      ensures driver.nextConn == old(driver.nextConn) && driver.closed == old(driver.closed)
    {
      autocommit, rollback := true, Pass;
      var started := driver.StartTransaction(conn.value);
      start := started;
      if started.Pass? {
        r := Pass;
      } else {
        var raised;
        raised, autocommit, rollback := Recover(rollbackOn, DriverFailure(started.error));
        r := Fail(raised);
      }
    }

    /** The `transaction` context manager after its `yield`: commit after a
        block that completed, the `except` clauses otherwise (and when the
        commit itself fails). */
    method TransactionExit(rollbackOn: Option<set<ErrorKind>>, block: Outcome<Error>)
      returns (r: Outcome<Error>, ghost commit: Outcome<string>, ghost autocommit: bool, ghost rollback: Outcome<string>)
      requires Valid()
      modifies driver
      ensures driver.trace == old(driver.trace)
                + TransactionExitCalls(conn.value, rollbackOn, block, commit, autocommit, rollback)
      ensures r == TransactionExitResult(rollbackOn, block, commit, autocommit, rollback)
      ensures Valid() && driver.nextCursor == old(driver.nextCursor)
      ensures driver.nextConn == old(driver.nextConn) && driver.closed == old(driver.closed)
    {
      commit, autocommit, rollback := Pass, true, Pass;
      var failure: Error;
      if block.Pass? {
        var committed := driver.Commit(conn.value);
        commit := committed;
        if committed.Pass? {
          r := Pass;
          return;
        }
        failure := DriverFailure(committed.error);
      } else {
        failure := block.error;
      }
      var raised;
      raised, autocommit, rollback := Recover(rollbackOn, failure);
      r := Fail(raised);
    }
  }

  // ---------------------------------------------------------------------
  // Properties of the call sequences

  /** Some call of `calls` is a `commit`. */
  predicate CallsCommit(calls: seq<Event>) {
    exists i :: 0 <= i < |calls| && calls[i].Committed?
  }

  /** Some call of `calls` is a `rollback`. */
  predicate CallsRollback(calls: seq<Event>) {
    exists i :: 0 <= i < |calls| && calls[i].RolledBack?
  }

  /** `create` commits exactly when values were given and the statement
      went through. */
  lemma CreateCommitsOnlyWithValues(conn: Handle, cursor: CursorId, statement: string, vals: seq<Value>,
                                    execute: Result<int, string>, commit: Outcome<string>)
    ensures CallsCommit(WriteCalls(CommitWithValues, conn, cursor, statement, vals, execute, commit))
            <==> vals != [] && execute.Success?
  {
    var calls := WriteCalls(CommitWithValues, conn, cursor, statement, vals, execute, commit);
    if vals != [] && execute.Success? {
      assert calls[2].Committed?;
    }
  }

  /** `update` and `delete` commit after every statement that went through:
      exactly once, right after the execute. */
  lemma UpdateCommitsAfterEveryStatement(conn: Handle, cursor: CursorId, statement: string, vals: seq<Value>,
                                         execute: Result<int, string>, commit: Outcome<string>)
    ensures CallsCommit(WriteCalls(CommitAlways, conn, cursor, statement, vals, execute, commit)) <==> execute.Success?
    ensures var calls := WriteCalls(CommitAlways, conn, cursor, statement, vals, execute, commit);
            execute.Success? ==> |calls| == 3 && calls[1].Executed? && calls[2] == Committed(conn, commit) &&
                                 !calls[0].Committed? && !calls[1].Committed?
  {
    var calls := WriteCalls(CommitAlways, conn, cursor, statement, vals, execute, commit);
    if execute.Success? {
      assert calls[2].Committed?;
    }
  }

  /** A write runs exactly its one statement, on a fresh plain cursor, with
      the values bound only when there are some; it never closes the cursor. */
  lemma WriteRunsOneStatement(policy: CommitPolicy, conn: Handle, cursor: CursorId, statement: string,
                              vals: seq<Value>, execute: Result<int, string>, commit: Outcome<string>)
    ensures var calls := WriteCalls(policy, conn, cursor, statement, vals, execute, commit);
            2 <= |calls| <= 3 &&
            calls[0] == CursorOpened(conn, cursor, false) &&
            calls[1] == Executed(cursor, statement, if vals == [] then None else Some(vals), execute) &&
            (forall i :: 0 <= i < |calls| ==> !calls[i].CursorClosed? && !calls[i].RolledBack?)
  {
  }

  /** The failure the unit test provokes: `execute` raising
      `Error("Test error")` makes `read` raise an `Exception` whose message
      is `Failed to read from MySQL: Test error`, raised from the driver
      error, and nothing is fetched. */
  lemma ReadReportsDriverMessage(conn: Handle, cursor: CursorId, statement: string, vals: seq<Value>,
                                 fetch: Result<seq<Row>, string>)
    ensures ReadResult(Failure("Test error"), fetch)
            == Failure(Error(PlainException, "Failed to read from MySQL: Test error", Some(Error(DriverError, "Test error", None))))
    ensures |ReadCalls(conn, cursor, statement, vals, Failure("Test error"), fetch)| == 2
  {
    assert "Failed to read from MySQL: " + "Test error" == "Failed to read from MySQL: Test error";
  }

  /** `read` never commits. */
  lemma ReadNeverCommits(conn: Handle, cursor: CursorId, statement: string, vals: seq<Value>,
                         execute: Result<int, string>, fetch: Result<seq<Row>, string>)
    ensures !CallsCommit(ReadCalls(conn, cursor, statement, vals, execute, fetch))
  {
  }

  /** A live connection is reused: no `connect`, and the cursor is opened on
      it. */
  lemma LiveConnectionReused(conn: Handle, params: map<string, Value>, connect: Result<Handle, string>,
                             cursor: CursorId, dictionary: bool)
    ensures CursorEnterCalls(Some(conn), params, true, connect, cursor, dictionary)
            == [Pinged(conn, true), CursorOpened(conn, cursor, dictionary)]
    ensures CursorEnterResult(Some(conn), true, connect, cursor) == Success(cursor)
  {
  }

  /** A connection that is not alive is replaced once: one `connect`, then
      the cursor is opened on the new connection, or `ConnectionError` is
      raised and no cursor is opened. */
  lemma DeadConnectionReplaced(conn: Handle, params: map<string, Value>, connect: Result<Handle, string>,
                               cursor: CursorId, dictionary: bool)
    ensures CursorEnterCalls(Some(conn), params, false, connect, cursor, dictionary)
            == [Pinged(conn, false), Connected(params, connect)]
               + (if connect.Success? then [CursorOpened(connect.value, cursor, dictionary)] else [])
    ensures CursorEnterResult(Some(conn), false, connect, cursor)
            == if connect.Success? then Success(cursor) else Failure(ConnectFailure(connect.error))
  {
  }

  /** A block that completes is committed and nothing is rolled back. */
  lemma CompletedBlockCommits(conn: Handle, rollbackOn: Option<set<ErrorKind>>, autocommit: bool, rollback: Outcome<string>)
    ensures TransactionExitCalls(conn, rollbackOn, Pass, Pass, autocommit, rollback) == [Committed(conn, Pass)]
    ensures TransactionExitResult(rollbackOn, Pass, Pass, autocommit, rollback) == Pass
  {
  }

  /** After a block that raised, nothing is committed. */
  lemma FailedBlockNeverCommits(conn: Handle, rollbackOn: Option<set<ErrorKind>>, err: Error,
                                commit: Outcome<string>, autocommit: bool, rollback: Outcome<string>)
    ensures !CallsCommit(TransactionExitCalls(conn, rollbackOn, Fail(err), commit, autocommit, rollback))
  {
  }

  /** After a block that raised `err`, a rollback is attempted exactly when
      `err` matches `rollback_on` or the connection is not in autocommit
      mode; `err` itself propagates unless that rollback failed. */
  lemma FailedBlockRollsBackWhen(conn: Handle, rollbackOn: Option<set<ErrorKind>>, err: Error,
                                 commit: Outcome<string>, autocommit: bool, rollback: Outcome<string>)
    ensures var calls := TransactionExitCalls(conn, rollbackOn, Fail(err), commit, autocommit, rollback);
            CallsRollback(calls) <==> RollsBack(rollbackOn, err.kind, autocommit)
    ensures TransactionExitResult(rollbackOn, Fail(err), commit, autocommit, rollback)
            == if RollsBack(rollbackOn, err.kind, autocommit) && rollback.Fail? then Fail(RollbackFailure(rollback.error))
               else Fail(err)
  {
    var calls := TransactionExitCalls(conn, rollbackOn, Fail(err), commit, autocommit, rollback);
    if RollsBack(rollbackOn, err.kind, autocommit) {
      assert calls[|calls| - 1].RolledBack?;
    }
  }

  /** An exception that `rollback_on` matches is answered by exactly one
      rollback, whatever the autocommit mode, and the autocommit flag is
      not consulted; the exception is re-raised unless that rollback failed.
      The default `rollback_on`, and any that names `Exception`, matches
      every exception. */
  lemma MatchedFailureRollsBackOnce(conn: Handle, rollbackOn: Option<set<ErrorKind>>, err: Error,
                                    commit: Outcome<string>, autocommit: bool, rollback: Outcome<string>)
    requires Matches(rollbackOn, err.kind)
    ensures TransactionExitCalls(conn, rollbackOn, Fail(err), commit, autocommit, rollback) == [RolledBack(conn, rollback)]
    ensures TransactionExitResult(rollbackOn, Fail(err), commit, autocommit, rollback)
            == if rollback.Pass? then Fail(err) else Fail(RollbackFailure(rollback.error))
  {
  }

  /** An exception `rollback_on` does not name, on a connection in
      autocommit mode, propagates without a rollback. */
  lemma UnmatchedUnderAutocommitPropagates(conn: Handle, kinds: set<ErrorKind>, err: Error,
                                           commit: Outcome<string>, rollback: Outcome<string>)
    requires err.kind !in kinds && PlainException !in kinds
    ensures TransactionExitCalls(conn, Some(kinds), Fail(err), commit, true, rollback) == [AutocommitRead(conn, true)]
    ensures TransactionExitResult(Some(kinds), Fail(err), commit, true, rollback) == Fail(err)
  {
  }

  /** A failed commit is handled like an exception from the block: the
      driver error goes through the same `except` clauses. */
  lemma FailedCommitRecovered(conn: Handle, rollbackOn: Option<set<ErrorKind>>, message: string,
                              autocommit: bool, rollback: Outcome<string>)
    ensures TransactionExitCalls(conn, rollbackOn, Pass, Fail(message), autocommit, rollback)
            == [Committed(conn, Fail(message))] + RecoveryCalls(conn, rollbackOn, DriverFailure(message), autocommit, rollback)
    ensures TransactionExitResult(rollbackOn, Pass, Fail(message), autocommit, rollback)
            == Fail(Recovered(rollbackOn, DriverFailure(message), autocommit, rollback))
  {
  }

  /** A failed `start_transaction` keeps the block from running and goes
      through the same `except` clauses; nothing is committed. */
  lemma FailedStartRecovered(conn: Handle, rollbackOn: Option<set<ErrorKind>>, message: string,
                             autocommit: bool, rollback: Outcome<string>)
    ensures TransactionEnterResult(rollbackOn, Fail(message), autocommit, rollback).Fail?
    ensures !CallsCommit(TransactionEnterCalls(conn, rollbackOn, Fail(message), autocommit, rollback))
    ensures CallsRollback(TransactionEnterCalls(conn, rollbackOn, Fail(message), autocommit, rollback))
            <==> RollsBack(rollbackOn, DriverError, autocommit)
  {
    var calls := TransactionEnterCalls(conn, rollbackOn, Fail(message), autocommit, rollback);
    if RollsBack(rollbackOn, DriverError, autocommit) {
      assert calls[|calls| - 1].RolledBack?;
    }
  }
}
