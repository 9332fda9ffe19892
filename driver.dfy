/** The part of the `mysql.connector` driver the client class talks to:
    `connect`, and on a connection `is_connected`, `cursor`, `commit`,
    `rollback`, `start_transaction`, the `autocommit` property and `close`;
    on a cursor `execute`, `fetchall` and `close`.

    The server is not modelled. Every answer the driver gives (success or an
    `Error` with its message, a row count, the fetched rows, whether the
    connection is alive, the autocommit flag) is chosen freely on each call,
    and every call is recorded, with its answer, in a ghost trace. The only
    answer that is constrained is `is_connected` on a connection that was
    closed or never handed out: it is false. */
module Driver {
  import opened Wrappers
  import opened Values

  /** A connection the driver handed out. */
  datatype Handle = Handle(id: nat)

  /** A cursor the driver handed out. */
  datatype CursorId = CursorId(id: nat)

  /** One driver call and the answer it gave. A failed call carries the
      message of the `mysql.connector.Error` it raised. */
  datatype Event =
    | Connected(params: map<string, Value>, connectAnswer: Result<Handle, string>)
    | Pinged(conn: Handle, live: bool)
    | CursorOpened(conn: Handle, cursor: CursorId, dictionary: bool)
    | Executed(cursor: CursorId, sql: string, args: Option<seq<Value>>, executeAnswer: Result<int, string>)
    | Fetched(cursor: CursorId, fetchAnswer: Result<seq<Row>, string>)
    | CursorClosed(cursor: CursorId)
    | Committed(conn: Handle, answer: Outcome<string>)
    | RolledBack(conn: Handle, answer: Outcome<string>)
    | TransactionStarted(conn: Handle, answer: Outcome<string>)
    | AutocommitRead(conn: Handle, on: bool)
    | Closed(conn: Handle)

  class Connector {
    /** Every call made so far, in order. */
    ghost var trace: seq<Event>
    /** The id the next successful `connect` hands out. */
    var nextConn: nat
    /** The id the next `cursor` hands out. */
    var nextCursor: nat
    /** Ids of the connections `close` was called on. */
    var closed: set<nat>

    constructor ()
      ensures trace == [] && nextConn == 0 && nextCursor == 0 && closed == {}
    {
      trace := [];
      nextConn := 0;
      nextCursor := 0;
      closed := {};
    }

    /** `mysql.connector.connect(**params)`. */
    method Connect(params: map<string, Value>) returns (answer: Result<Handle, string>)
      modifies this
      ensures answer.Success? ==> answer.value == Handle(old(nextConn)) && nextConn == old(nextConn) + 1
      ensures answer.Failure? ==> nextConn == old(nextConn)
      ensures nextCursor == old(nextCursor) && closed == old(closed)
      ensures trace == old(trace) + [Connected(params, answer)]
    {
      var ok: bool := *;
      if ok {
        answer := Success(Handle(nextConn));
        nextConn := nextConn + 1;
      } else {
        var message: string := *;
        answer := Failure(message);
      }
      trace := trace + [Connected(params, answer)];
    }

    /** `conn.is_connected()`: never true for a connection that was closed
        or never handed out. */
    method Ping(conn: Handle) returns (live: bool)
      modifies this
      ensures conn.id in closed || conn.id >= nextConn ==> !live
      ensures nextConn == old(nextConn) && nextCursor == old(nextCursor) && closed == old(closed)
      ensures trace == old(trace) + [Pinged(conn, live)]
    {
      live := *;
      if conn.id in closed || conn.id >= nextConn {
        live := false;
      }
      trace := trace + [Pinged(conn, live)];
    }

    /** `conn.cursor(dictionary=...)`. */
    method OpenCursor(conn: Handle, dictionary: bool) returns (cursor: CursorId)
      modifies this
      ensures cursor == CursorId(old(nextCursor)) && nextCursor == old(nextCursor) + 1
      ensures nextConn == old(nextConn) && closed == old(closed)
      ensures trace == old(trace) + [CursorOpened(conn, cursor, dictionary)]
    {
      cursor := CursorId(nextCursor);
      nextCursor := nextCursor + 1;
      trace := trace + [CursorOpened(conn, cursor, dictionary)];
    }

    /** `cursor.execute(sql)` (no `args`) or `cursor.execute(sql, args)`;
        on success the answer is the cursor's `rowcount`. */
    method Execute(cursor: CursorId, sql: string, args: Option<seq<Value>>) returns (answer: Result<int, string>)
      modifies this
      ensures nextConn == old(nextConn) && nextCursor == old(nextCursor) && closed == old(closed)
      ensures trace == old(trace) + [Executed(cursor, sql, args, answer)]
    {
      answer := *;
      trace := trace + [Executed(cursor, sql, args, answer)];
    }

    /** `cursor.fetchall()`. */
    method FetchAll(cursor: CursorId) returns (answer: Result<seq<Row>, string>)
      modifies this
      ensures nextConn == old(nextConn) && nextCursor == old(nextCursor) && closed == old(closed)
      ensures trace == old(trace) + [Fetched(cursor, answer)]
    {
      answer := *;
      trace := trace + [Fetched(cursor, answer)];
    }

    /** `cursor.close()`. */
    method CloseCursor(cursor: CursorId)
      modifies this
      ensures nextConn == old(nextConn) && nextCursor == old(nextCursor) && closed == old(closed)
      ensures trace == old(trace) + [CursorClosed(cursor)]
    {
      trace := trace + [CursorClosed(cursor)];
    }

    /** `conn.commit()`. */
    method Commit(conn: Handle) returns (answer: Outcome<string>)
      modifies this
      ensures nextConn == old(nextConn) && nextCursor == old(nextCursor) && closed == old(closed)
      ensures trace == old(trace) + [Committed(conn, answer)]
    {
      answer := *;
      trace := trace + [Committed(conn, answer)];
    }

    /** `conn.rollback()`. */
    method Rollback(conn: Handle) returns (answer: Outcome<string>)
      modifies this
      ensures nextConn == old(nextConn) && nextCursor == old(nextCursor) && closed == old(closed)
      ensures trace == old(trace) + [RolledBack(conn, answer)]
    {
      answer := *;
      trace := trace + [RolledBack(conn, answer)];
    }

    /** `conn.start_transaction()`. */
    method StartTransaction(conn: Handle) returns (answer: Outcome<string>)
      modifies this
      ensures nextConn == old(nextConn) && nextCursor == old(nextCursor) && closed == old(closed)
      ensures trace == old(trace) + [TransactionStarted(conn, answer)]
    {
      answer := *;
      trace := trace + [TransactionStarted(conn, answer)];
    }

    /** `conn.autocommit`. */
    method Autocommit(conn: Handle) returns (on: bool)
      modifies this
      ensures nextConn == old(nextConn) && nextCursor == old(nextCursor) && closed == old(closed)
      ensures trace == old(trace) + [AutocommitRead(conn, on)]
    {
      on := *;
      trace := trace + [AutocommitRead(conn, on)];
    }

    /** `conn.close()`. */
    method Close(conn: Handle)
      modifies this
      ensures nextConn == old(nextConn) && nextCursor == old(nextCursor) && closed == old(closed) + {conn.id}
      ensures trace == old(trace) + [Closed(conn)]
    {
      closed := closed + {conn.id};
      trace := trace + [Closed(conn)];
    }
  }
}
