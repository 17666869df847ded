/** The database session (`DatabaseManager`): at most one connection, a
    connected flag, and the current database name. The MySQL connector and
    the server are oracles: `connector` says whether a connection attempt
    with given parameters succeeds, and `engine` says what the server
    answers to a statement. */
module Session {
  import opened Wrappers
  import opened Json
  import ConfigStore

  /** One cell of a result row. */
  datatype Value = VNull | VInt(i: int) | VFloat(f: real) | VText(s: string)

  type Row = seq<Value>

  /** A connection object: the connector's handle and `is_connected()`. */
  datatype Connection = Connection(handle: nat, alive: bool)

  /** The session state: `connection`, `current_database`, and the handles
      closed so far. */
  datatype State = State(connection: Option<Connection>, currentDatabase: Option<string>, closed: seq<nat>)

  /** A freshly constructed `DatabaseManager`. */
  const Initial := State(None, None, [])

  /** The keyword arguments given to `mysql.connector.connect`. */
  datatype ConnectParams = ConnectParams(host: Json, port: Json, user: Json, password: Json, database: Option<string>)

  datatype ConnectOutcome = Opened(handle: nat) | Refused(message: string)

  /** One statement sent through a cursor, with its parameters. */
  datatype Statement = Statement(sql: string, params: seq<Value>)

  /** The first field of a `cursor.description` entry is the column name. */
  datatype ColumnDescriptor = ColumnDescriptor(name: string, typeCode: int)

  /** What the server does with a statement: a description (`None` for
      statements without a result set), the rows and the row count; or an
      error raised by `cursor.execute`. */
  datatype EngineReply =
    | Reply(description: Option<seq<ColumnDescriptor>>, rows: seq<Row>, rowcount: int)
    | Failure(message: string)

  /** A result set with its column names, rows and row count; or, for a
      statement that returns no rows, only the row count. */
  datatype QueryResult = Tabular(columns: seq<string>, rows: seq<Row>, rowcount: int) | Mutation(rowcount: int)

  /** The result, and whether `commit()` was called. */
  datatype Executed = Executed(result: QueryResult, committed: bool)

  /** The exceptions the operations raise: the "not connected" error, the
      server's error, the `KeyError` of reading rows from a mutation result,
      and the `IndexError` of reading the first cell of an empty row. */
  datatype ExecError = NotConnected | EngineError(message: string) | NoResultSet | EmptyRow

  /** A connection exists and still reports itself connected. */
  predicate IsConnected(s: State) {
    s.connection.Some? && s.connection.value.alive
  }

  /** No database is selected: none was given, or the empty name. */
  predicate NoDatabase(s: State) {
    s.currentDatabase.None? || s.currentDatabase.value == ""
  }

  /** Connection parameters from the `mysql` section; `database` is passed
      only when it is a non-empty name. */
  function ParamsFor(config: ConfigStore.Config, database: Option<string>): ConnectParams
    requires ConfigStore.HasConnectionSettings(config)
  {
    var m := config[ConfigStore.Mysql].fields;
    ConnectParams(m["host"], m["port"], m["username"], m["password"],
                  if database.Some? && database.value != "" then database else None)
  }

  /** `connect(database)`: on success the new connection and `database`
      replace the old ones, without closing a previous connection; on
      failure nothing changes. The boolean is the return value. */
  function Connect(s: State, config: ConfigStore.Config, database: Option<string>,
                   connector: ConnectParams -> ConnectOutcome): (r: (State, bool))
    requires ConfigStore.HasConnectionSettings(config)
    ensures r.1 <==> connector(ParamsFor(config, database)).Opened?
    ensures r.1 ==> IsConnected(r.0) && r.0.currentDatabase == database
    ensures r.1 ==> r.0.connection.value.handle == connector(ParamsFor(config, database)).handle
    ensures r.0.closed == s.closed
    ensures !r.1 ==> r.0 == s
  {
    match connector(ParamsFor(config, database))
    case Opened(h) => (State(Some(Connection(h, true)), database, s.closed), true)
    case Refused(_) => (s, false)
  }

  /** `disconnect()`: closes and clears only a live connection. */
  function Disconnect(s: State): (r: State)
    ensures IsConnected(s) ==>
              r.connection.None? && r.currentDatabase.None? && r.closed == s.closed + [s.connection.value.handle]
    ensures !IsConnected(s) ==> r == s
    ensures !IsConnected(r)
  {
    if IsConnected(s) then State(None, None, s.closed + [s.connection.value.handle]) else s
  }

  /** The column names: the first element of each cursor description entry. */
  function ColumnNames(description: seq<ColumnDescriptor>): (r: seq<string>)
    ensures |r| == |description|
    ensures forall i | 0 <= i < |r| :: r[i] == description[i].name
  {
    seq(|description|, i requires 0 <= i < |description| => description[i].name)
  }

  /** `cursor.description` is truthy: present and not empty. */
  predicate Describes(reply: EngineReply) {
    reply.Reply? && reply.description.Some? && |reply.description.value| > 0
  }

  /** `execute_query(query, params, fetch)`. */
  function ExecuteQuery(s: State, sql: string, params: seq<Value>, fetch: bool,
                        engine: Statement -> EngineReply): (r: Result<Executed, ExecError>)
    ensures !IsConnected(s) ==> r == Err(NotConnected)
    ensures IsConnected(s) && engine(Statement(sql, params)).Failure? ==>
              r == Err(EngineError(engine(Statement(sql, params)).message))
    // a live connection and a statement the server accepts always give a result
    ensures r.Ok? <==> IsConnected(s) && engine(Statement(sql, params)).Reply?
    // tabular exactly when rows are wanted and the statement has a description
    ensures r.Ok? ==> (r.value.result.Tabular? <==> fetch && Describes(engine(Statement(sql, params))))
    ensures r.Ok? ==> (r.value.committed <==> r.value.result.Mutation?)
    ensures r.Ok? ==> r.value.result.rowcount == engine(Statement(sql, params)).rowcount
    ensures r.Ok? && r.value.result.Tabular? ==>
              var reply := engine(Statement(sql, params));
              && r.value.result.rows == reply.rows
              && |r.value.result.columns| == |reply.description.value|
              && forall i | 0 <= i < |r.value.result.columns| ::
                   r.value.result.columns[i] == reply.description.value[i].name
  {
    if !IsConnected(s) then Err(NotConnected)
    else
      var reply := engine(Statement(sql, params));
      if reply.Failure? then Err(EngineError(reply.message))
      else if fetch && Describes(reply) then
        Ok(Executed(Tabular(ColumnNames(reply.description.value), reply.rows, reply.rowcount), false))
      else Ok(Executed(Mutation(reply.rowcount), true))
  }

  /** The first cell of each fetched row, in row order. */
  function FirstColumn(r: Result<Executed, ExecError>): Result<seq<Value>, ExecError> {
    match r
    case Err(e) => Err(e)
    case Ok(x) =>
      if x.result.Mutation? then Err(NoResultSet)
      else if exists i | 0 <= i < |x.result.rows| :: |x.result.rows[i]| == 0 then Err(EmptyRow)
      else Ok(seq(|x.result.rows|, i requires 0 <= i < |x.result.rows| => x.result.rows[i][0]))
  }

  /** The first cell of each row of a successful `sql`. */
  predicate ListsFirstCells(s: State, sql: string, engine: Statement -> EngineReply, names: seq<Value>) {
    var reply := engine(Statement(sql, []));
    && IsConnected(s)
    && Describes(reply)
    && |names| == |reply.rows|
    && forall i | 0 <= i < |names| :: |reply.rows[i]| > 0 && names[i] == reply.rows[i][0]
  }

  /** The reply has a result set whose every row has a first cell. */
  predicate HasFirstCells(reply: EngineReply) {
    Describes(reply) && forall i | 0 <= i < |reply.rows| :: |reply.rows[i]| > 0
  }

  /** What listing the first cells of `sql`'s rows gives, on every session
      and every server reply: "not connected", the server's error, no
      result set, an empty row, or the first cells. */
  predicate ListingOutcome(s: State, sql: string, engine: Statement -> EngineReply,
                           r: Result<seq<Value>, ExecError>) {
    var reply := engine(Statement(sql, []));
    && (!IsConnected(s) ==> r == Err(NotConnected))
    && (IsConnected(s) && reply.Failure? ==> r == Err(EngineError(reply.message)))
    && (IsConnected(s) && reply.Reply? && !Describes(reply) ==> r == Err(NoResultSet))
    && (IsConnected(s) && Describes(reply) && !HasFirstCells(reply) ==> r == Err(EmptyRow))
    && (r.Ok? <==> IsConnected(s) && HasFirstCells(reply))
    && (r.Ok? ==> ListsFirstCells(s, sql, engine, r.value))
  }

  /** `get_tables()`: no statement at all without a current database. */
  function GetTables(s: State, engine: Statement -> EngineReply): (r: Result<seq<Value>, ExecError>)
    ensures NoDatabase(s) ==> r == Ok([])
    ensures !NoDatabase(s) ==> ListingOutcome(s, "SHOW TABLES", engine, r)
  {
    if NoDatabase(s) then Ok([])
    else FirstColumn(ExecuteQuery(s, "SHOW TABLES", [], true, engine))
  }

  /** `get_databases()`. */
  function GetDatabases(s: State, engine: Statement -> EngineReply): (r: Result<seq<Value>, ExecError>)
    ensures ListingOutcome(s, "SHOW DATABASES", engine, r)
  {
    FirstColumn(ExecuteQuery(s, "SHOW DATABASES", [], true, engine))
  }

  /** Listing the first cells of `sql` fails exactly as `execute_query`
      fails, fails with no result set when `execute_query` returns only a
      row count, and otherwise returns the first cell of each fetched row
      (when every row has one). */
  predicate AgreesWithQuery(q: Result<Executed, ExecError>, r: Result<seq<Value>, ExecError>) {
    && (q.Err? ==> r == Err(q.error))
    && (q.Ok? && q.value.result.Mutation? ==> r == Err(NoResultSet))
    && (q.Ok? && q.value.result.Tabular? && (forall i | 0 <= i < |q.value.result.rows| :: |q.value.result.rows[i]| > 0) ==>
          && r.Ok? && |r.value| == |q.value.result.rows|
          && forall i | 0 <= i < |r.value| :: r.value[i] == q.value.result.rows[i][0])
  }

  /** `get_databases` is the first column of `execute_query("SHOW DATABASES")`. */
  lemma GetDatabasesIsFirstColumn(s: State, engine: Statement -> EngineReply)
    ensures AgreesWithQuery(ExecuteQuery(s, "SHOW DATABASES", [], true, engine), GetDatabases(s, engine))
  {
  }

  /** With a current database, `get_tables` is the first column of
      `execute_query("SHOW TABLES")`. */
  lemma GetTablesIsFirstColumn(s: State, engine: Statement -> EngineReply)
    requires !NoDatabase(s)
    ensures AgreesWithQuery(ExecuteQuery(s, "SHOW TABLES", [], true, engine), GetTables(s, engine))
  {
  }

  /** No statement runs before the first successful `connect`, nor after a
      `disconnect` that follows it. */
  lemma NotConnectedOutsideSession(s: State, config: ConfigStore.Config, database: Option<string>,
                                   connector: ConnectParams -> ConnectOutcome,
                                   sql: string, params: seq<Value>, fetch: bool, engine: Statement -> EngineReply)
    requires ConfigStore.HasConnectionSettings(config)
    ensures ExecuteQuery(Initial, sql, params, fetch, engine) == Err(NotConnected)
    ensures var (connected, ok) := Connect(s, config, database, connector);
            ok ==> ExecuteQuery(Disconnect(connected), sql, params, fetch, engine) == Err(NotConnected)
  {
  }

  /** Connecting while connected leaks the earlier connection: it is never
      closed, and disconnecting afterwards closes only the new one. */
  lemma ReconnectLeaksPrevious(s: State, config: ConfigStore.Config, database: Option<string>,
                               connector: ConnectParams -> ConnectOutcome)
    requires ConfigStore.HasConnectionSettings(config)
    requires IsConnected(s)
    ensures var (connected, ok) := Connect(s, config, database, connector);
            ok ==> Disconnect(connected).closed == s.closed + [connected.connection.value.handle]
  {
  }

  /** `disconnect()` twice is `disconnect()` once. */
  lemma DisconnectIdempotent(s: State)
    ensures Disconnect(Disconnect(s)) == Disconnect(s)
  {
  }

  /** A `SELECT` over two rows of `(id, name)` gives the columns, both rows
      and the row count; an `UPDATE` of three rows gives only the count. */
  lemma SelectAndUpdateExamples(s: State)
    requires IsConnected(s)
    ensures var rows := [[VInt(1), VText("a")], [VInt(2), VText("b")]];
            var select := (st: Statement) =>
              Reply(Some([ColumnDescriptor("id", 3), ColumnDescriptor("name", 253)]), rows, 2);
            ExecuteQuery(s, "SELECT * FROM t", [], true, select)
              == Ok(Executed(Tabular(["id", "name"], rows, 2), false))
    ensures var update := (st: Statement) => Reply(None, [], 3);
            ExecuteQuery(s, "UPDATE t SET x = 1", [], true, update) == Ok(Executed(Mutation(3), true))
  {
    assert ColumnNames([ColumnDescriptor("id", 3), ColumnDescriptor("name", 253)]) == ["id", "name"];
  }
}
