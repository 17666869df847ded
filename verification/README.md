# MySQL database manager: the data-management core

This project models the sequential logic under the Tkinter GUI of the MySQL
database manager (`tql.py`) and proves properties of it. The model covers
the core of the program, as pure functions over immutable values:

- **Configuration load and repair** (`ConfigManager.load_config`). This is a
  key-by-key merge of the stored JSON object into the defaults. A missing,
  undecodable or non-object file falls back to the defaults, which are
  written back.
- **Recency lists.** Query history keeps 100 entries keyed by query text.
  Recent projects keep 10 entries keyed by database name. Favorites are an
  append-only list. A history entry can be deleted by index, and a favorite
  is looked up by its name.
- **Credential store.** This is the `users` table, keyed by username. It
  supports account creation, authentication and the first-run `admin`
  bootstrap.
- **Session state machine** (`DatabaseManager`). It covers connect,
  disconnect, `execute_query` with its tabular and mutation results,
  `get_tables` and `get_databases`.
- **Statement builders.** These are the table designer's CREATE TABLE and
  the add-row dialog's parameterised INSERT.
- **Small helpers.** These are the system-database filter, the truncation
  of history text for display, foreign-key grouping, and Python's
  `str.strip`.

Files and databases are replaced by values passed in and out. A JSON file
is the value `json.load` produced from it. A write is the value that would
be written. The accounts table is a map. The history, favorites and
projects files are sequences. Three external services become function
parameters:

- the SHA-256 password hash: `hash: string -> string`, about which nothing
  is assumed;
- `mysql.connector.connect`: `connector`, which maps connection parameters
  to an opened handle or a refusal;
- the MySQL server: `engine`, which maps a statement to an optional
  description, rows and a row count, or to an error.

Timestamps are opaque strings supplied by the caller.

Modules: `Wrappers` (Option/Result), `Json`, `ConfigStore`, `Recency` (the
shared recency-list shape), `History`, `Credentials`, `Session`,
`Statements`, `Schema`, `Text`, and `Workbench` (the GUI flows that combine
the stores: running the editor's query, start-up authentication, the
create-account dialog, adding a row).

Behaviour of the program that a reader might not expect:

- `current_user` is absent from a configuration loaded from an existing
  file that holds a JSON object. A missing or undecodable file, or one that
  holds JSON other than an object, yields the defaults, which do include
  `current_user` (tql.py:118-123). The merge at tql.py:94-117 only fills sections whose default is a
  dictionary, and the default of `current_user` is `None`
  (`ConfigStore.ReloadDropsCurrentUser`, `ConfigStore.ReloadDefaults`).
- `connect` does not close a connection that is already open. It assigns
  the new connection over the old one at tql.py:312
  (`Session.ReconnectLeaksPrevious`).
- History is recorded only after `execute_query` returns without raising
  (`Workbench.RunQuery`).
- `connect` reports failure as `False`. The refusal message goes only to
  a message box, so the model's `Connect` returns a boolean and drops the
  message.
- Accounts created from the login dialog's Create Account button go into
  the table while the dialog is open. A later Login press in the same
  dialog can use them (`Workbench.LoginDialog`,
  `Workbench.CreatedAccountLogsIn`).

## Model

| member | source | states |
|---|---|---|
| ConfigStore.Load | tql.py:54-123 | A missing, undecodable or non-object file yields exactly the defaults, which are written back. A stored object is not rewritten. Its result has exactly the `mysql`, `appearance` and `editor` sections, and no `current_user`. Each section has exactly the default keys. Each value is the stored one when the stored section is a dictionary holding that key, otherwise the default. Values pass through without type checks. |
| ConfigStore.LoadProvidesConnectionSettings | tql.py:299-306 | Whatever the file holds, the loaded configuration has `mysql.host`, `port`, `username` and `password`, so `connect` can read them. |
| ConfigStore.MergeSectionIdempotent | tql.py:109-114 | Merging one section against its own merge result changes nothing. |
| ConfigStore.MergedSectionsAreDictionaryDefaults | tql.py:94-99 | Whatever the stored object holds, the merge produces exactly the default sections whose default value is a dictionary: `mysql`, `appearance` and `editor`. |
| ConfigStore.MergeIdempotent | tql.py:94-117 | Merging an already merged configuration gives it back unchanged. |
| ConfigStore.ReloadSettles | tql.py:79-123 | Load, save and load again settle after one round. If the file held an object, the reload returns the loaded configuration unchanged. |
| ConfigStore.ReloadDropsCurrentUser | tql.py:96-99 | A stored `current_user` never survives a reload. |
| ConfigStore.ReloadDefaults | tql.py:57-117 | Reloading the written-back defaults gives the defaults without `current_user`. |
| Recency.Without | tql.py:418 | The kept entries are exactly those of the input whose key differs from the removed key. |
| Recency.Promote | tql.py:418-420 | The result is `[new] + take(cap-1, without(old, key(new)))`. Its length is between 1 and the cap. The new entry is at index 0. No other entry has its key. An entry with another key leaves only when the list is full. |
| Recency.TakeWithoutIsSubsequence | tql.py:418-420 | Filtering and then truncating keeps the surviving entries in their original relative order. |
| Recency.PromoteKeepsOrder | tql.py:418-420 | After a promotion, the entries behind the new one keep their relative order from the old list. |
| Recency.WithoutAbsentKey | tql.py:418 | Filtering out a key that no entry has changes nothing. |
| Recency.PromoteNewKey | tql.py:418-420 | A new key is prepended to the whole list when there is room. When the list is full, exactly the oldest entry is dropped. |
| Recency.PromoteSameKeyTwice | tql.py:418-420 | Promoting two entries with the same key in a row equals promoting only the second. |
| History.AddToHistory | tql.py:407-422 | The history keeps at most 100 entries. The new `{query, database, timestamp}` comes first. No other entry has the same query text. The remaining entries come from the old history in their old order. An entry for another query is dropped only when the history is full. |
| History.RecordTwice | tql.py:418-420 | Recording the same text twice leaves one entry, in front, with the second recording's database and timestamp. |
| History.RecordNewQuery | tql.py:418-420 | A query not yet recorded is prepended. On a full history, the 101st distinct query drops exactly the oldest entry. |
| History.DeleteHistoryEntry | tql.py:1627-1628 | `pop(i)` removes exactly element `i`. It keeps the elements before `i` and shifts the ones after it, and the multiset loses only `history[i]`. |
| History.DisplayQuery | tql.py:1600 | Text of at most 100 characters is shown unchanged. Longer text is shown as its first 100 characters followed by `...`. |
| History.AddFavorite | tql.py:439-449 | The list grows by exactly one at the end. Earlier favorites are unchanged. Duplicate names are accepted. |
| History.FindFavorite | tql.py:1249 | Returns the first favorite with the name. If there is none, it returns `None`, where the source raises `StopIteration`. |
| History.FavoriteNameShadowing | tql.py:1249 | Saving a favorite under a name already in use does not change which favorite that name loads. |
| History.AddToRecentProjects | tql.py:979-998 | The list keeps at most 10 projects. The new project comes first. No other project has the same database. The rest keep their old order. A project for another database is dropped only when the list is full. |
| History.ReopenProject | tql.py:994-996 | Adding a project for a database already listed replaces the earlier entry and moves it to the front. |
| Credentials.Authenticate | tql.py:524-535 | True only for a username that is in the table, with the hash of the password. |
| Credentials.CreateUser | tql.py:602-616 | Returns False and leaves the table unchanged when the username exists. Otherwise it returns True and adds exactly one row, `(hash(password), 'user')`. Every other row is unchanged. |
| Credentials.CreateDefaultAdmin | tql.py:683-694 | On the empty table it creates exactly one row, `admin` with `hash("admin")` and role `admin`, which then authenticates. |
| Credentials.CreateThenAuthenticate | tql.py:524-616 | A new user logs in with the chosen password, and with another password only if the two hash alike. Other users' logins are unchanged. |
| Credentials.DuplicateUsernameKeepsFirstPassword | tql.py:602-616 | A second `create_user` of the same name fails and changes nothing, so the first password still works. |
| Session.Connect | tql.py:299-317 | Success occurs exactly when the connector opens a connection with the `mysql` settings, passing the database only when it is non-empty. On success the session is connected and `current_database` is the requested one. On failure nothing changes. No connection is ever closed. |
| Session.Disconnect | tql.py:319-324 | Clears the connection and `current_database` and closes the handle only when connected. Otherwise it changes nothing. Afterwards the session is never connected. |
| Session.ColumnNames | tql.py:336 | The columns are the description's names, in order. |
| Session.ExecuteQuery | tql.py:326-343 | Fails with "not connected" without a live connection. An engine error is passed through. Otherwise it succeeds; failures of `fetchall` and `commit` are not modelled. The result is tabular exactly when `fetch` is set and the description is non-empty. Columns come from the description names, rows are passed through, and nothing is committed. Otherwise the statement is committed and only the row count is returned. |
| Session.GetTables | tql.py:350-355 | Returns `[]` with no statement when there is no current database. Otherwise it fails with "not connected" without a live connection, passes on the server's error, fails with no result set when `SHOW TABLES` gives no description, and fails on an empty row. It succeeds exactly when connected with a described reply whose rows all have a first cell, and then returns those first cells. |
| Session.GetDatabases | tql.py:345-348 | Fails with "not connected" without a live connection, passes on the server's error, fails with no result set when `SHOW DATABASES` gives no description, and fails on an empty row. It succeeds exactly when connected with a described reply whose rows all have a first cell, and then returns those first cells. |
| Session.GetDatabasesIsFirstColumn | tql.py:345-348 | A consistency lemma over the two definitions, not a separate promise of the source: for every session and reply, `get_databases` fails exactly as `execute_query("SHOW DATABASES")` fails, fails with no result set when that returns only a row count, and otherwise returns the first cell of each fetched row. |
| Session.GetTablesIsFirstColumn | tql.py:350-355 | A consistency lemma like the one above: with a current database, `get_tables` stands in the same relation to `execute_query("SHOW TABLES")`. |
| Session.NotConnectedOutsideSession | tql.py:326-328 | A statement fails with "not connected" before any successful `connect`, and after `connect` followed by `disconnect`. |
| Session.ReconnectLeaksPrevious | tql.py:309-313 | After connecting over a live connection, a disconnect closes only the new handle. |
| Session.DisconnectIdempotent | tql.py:319-324 | Disconnecting twice is the same as disconnecting once. |
| Session.SelectAndUpdateExamples | tql.py:335-341 | A two-row `(id, name)` SELECT returns those columns, both rows and count 2, uncommitted. An UPDATE of 3 rows returns only count 3 and commits. |
| Statements.ConstraintsShape | tql.py:1781-1789 | The constraints start with ` NOT NULL` exactly for a primary-key or Not Null column. They end in a quoted default exactly when a default is given. |
| Statements.ColumnClauseShape | tql.py:1775-1789 | A definition reads `` `name` TYPE ``. Then comes `(size)` exactly for a sized VARCHAR or CHAR column. The constraints come last. |
| Statements.PrimaryKeyNames | tql.py:1782-1783 | The key list is empty exactly when no column is a primary key. |
| Statements.PrimaryKeyNamesMembers | tql.py:1782-1783 | The key list holds the quoted name of every primary-key column, and every entry is the quoted name of a primary-key column. |
| Statements.ColumnClauses | tql.py:1771-1791 | Gives one definition per column, in column order. |
| Statements.ColumnDefinitions | tql.py:1768-1791 | The loop yields one definition per column, in order, plus the quoted primary-key names in column order. |
| Statements.CreateTableStatement | tql.py:1757-1800 | Rejects a table name that is blank after stripping, then an empty column list. Otherwise it yields one clause per column, plus a single trailing `PRIMARY KEY (...)` clause exactly when some column is a primary key, all inside `CREATE TABLE`. |
| Statements.NonEmpty | tql.py:1373-1377 | The parameter list is empty exactly when every entry is empty. Every parameter is non-empty. |
| Statements.InsertableColumns | tql.py:1350 | Every `DESCRIBE` row whose Extra is not `auto_increment` has its field offered. |
| Statements.InsertableColumnsOnlyOffered | tql.py:1350 | Every offered column is the field of a `DESCRIBE` row whose Extra is not `auto_increment`. |
| Statements.InsertableColumnsInOrder | tql.py:1350 | The offered columns are exactly the fields of the rows that remain after the `auto_increment` rows are filtered out. Each remaining row contributes its field once, in `DESCRIBE` order, so the list is a subsequence of the row fields. |
| Statements.PlaceholderList | tql.py:1373-1379 | Gives one placeholder per entry, in entry order: `%s` for a filled entry and `NULL` for an empty one. |
| Statements.PlaceholdersMatchParameters | tql.py:1373-1382 | The statement always has as many `%s` placeholders as parameters. |
| Statements.Placeholders | tql.py:1370-1379 | The loop builds exactly the placeholder list and the filled entries, in order. |
| Statements.InsertStatement | tql.py:1369-1384 | Gives one placeholder per column: `%s` for a filled entry and `NULL` for an empty one. The number of `%s` equals the number of parameters, which are the filled entries in order. There is no statement when every entry is empty. |
| Schema.UserDatabases | tql.py:941-943 | Lists exactly the databases that are not `information_schema`, `mysql`, `performance_schema` or `sys`, in server order. |
| Schema.FirstSeenTables | tql.py:1864-1868 | Every table of the listing appears, and each appears once. |
| Schema.GroupIndex | tql.py:1867 | Finds the group of a table, or reports that no group has that table. |
| Schema.FirstSeenTablesOnlyListed | tql.py:1864-1868 | Every table in the order is the table of some key in the listing. |
| Schema.ReferencesAbsent | tql.py:1867-1869 | A table that never appears has no references. |
| Schema.AddToExistingGroup | tql.py:1869 | Appending to an existing group keeps the grouping correct. |
| Schema.AddNewGroup | tql.py:1867-1869 | Opening a group for a new table keeps the grouping correct. |
| Schema.GroupByTable | tql.py:1864-1869 | Gives one group per table, in order of first appearance. Each group holds exactly that table's references, in listing order. |
| Text.TrimLeft | tql.py:1158 | Removes exactly the leading Python whitespace. |
| Text.TrimRight | tql.py:1158 | Removes exactly the trailing Python whitespace. |
| Text.Strip | tql.py:1158 | The result is a slice of the text, and everything before and after that slice is whitespace. It is empty exactly when the text is all whitespace. Otherwise it neither starts nor ends with whitespace. |
| Text.StripIdempotent | tql.py:1758 | Stripping twice is the same as stripping once. |
| Workbench.RunQuery | tql.py:1156-1170 | Blank editor text runs nothing. The stripped query is recorded in the history, under the current database, exactly when it was executed without an error. A failure leaves the history unchanged. |
| Workbench.DisconnectedRunLeavesHistory | tql.py:1163-1170 | Without a live connection a query fails with "not connected" and the history is unchanged. |
| Workbench.CreateAccount | tql.py:577-595 | An empty field, then a confirmation mismatch, is rejected. Then a taken username is rejected. Otherwise exactly one `user` row is added and every other row is unchanged. Rejections leave the table unchanged. |
| Workbench.LoginDialog | tql.py:503-517 | The dialog handles events until the first Login press that authenticates. It returns that press's username, which has an account in the table at that point. It returns `None` only after handling every event. |
| Workbench.LoginDialogStore | tql.py:513-517 | The table the dialog leaves is the original table after the Create presses among the handled events. |
| Workbench.LoginDialogFirstSuccess | tql.py:503-511 | The dialog closes on the first Login press that authenticates against the table as the earlier Create presses left it. No earlier Login press authenticates. |
| Workbench.LoginDialogFailsOnlyWithoutLogin | tql.py:503-517 | The dialog returns no user exactly when no Login press authenticates at its point in the event sequence. |
| Workbench.LoginDialogKeepsAccounts | tql.py:513-517 | The dialog never changes or removes an account that existed before it opened. |
| Workbench.AccountsOnlyAdded | tql.py:577-616 | Create presses never change an existing account. Every new account comes from a Create press with that username and a confirmed password, and is stored with that password's hash and the `user` role. |
| Workbench.AuthenticateUser | tql.py:652-674 | On an empty table it adds exactly the `admin` row, starts as `admin` and writes no configuration. Otherwise the table is the one the login dialog leaves, with every earlier account unchanged. The application continues exactly when the dialog yields a non-empty user name. That user has an account, is stored as `current_user`, and the configuration is saved. |
| Workbench.BootstrapThenLogin | tql.py:652-694 | After the first-run bootstrap, the next start-up admits `admin`/`admin` and saves `current_user`. |
| Workbench.CreatedAccountLogsIn | tql.py:503-517 | When the table already has accounts, creating an account in the login dialog and then logging in with it starts the application as that user. The user then has an account in the table and is saved as `current_user`. |
| Workbench.AddRow | tql.py:1340-1388 | Runs nothing when no table is selected or when every entry is empty. Otherwise it runs exactly ``INSERT INTO `table` (columns) VALUES (placeholders)`` over the offered columns, with `%s` for each filled entry and `NULL` for each empty one, and passes the filled entries as text parameters in order. A run that succeeds is always a committed mutation. It fails with "not connected" outside a session. |

## Left out

- Tk presentation is not modelled: dialogs, treeviews, menus, the status bar, theme styling and window geometry. It has no invariants of its own.
- `SQLHighlighter` is not modelled. It relies on the Tk text widget's regex search and index strings.
- File and database I/O are not modelled: JSON files, sqlite3 and `mysql.connector`. They are replaced by values and oracles. Write failures (`save_config` swallows them; `save_history`, `save_projects` and `save_favorites` do not) are not modelled.
- Loading the history, favorites and projects files is not modelled. A missing or undecodable file counts as an empty list. Other read errors propagate, including a `UnicodeDecodeError` or a `PermissionError`. The stored value is used as the typed list, without checking its shape.
- ConfigStore.Load: operating-system read errors other than a vanished file (for instance, permission denied) propagate out of `load_config` in the source. They are not modelled.
- The SHA-256 hash is a parameter. No property relies on its injectivity, so "a wrong password fails" is stated only as "fails unless the hashes agree".
- `datetime.now()` timestamps are opaque parameters. The query's execution time is not modelled. The history entry's `execution_time` field is always `None` in the source and is omitted.
- CSV/Excel export via `csv` and `pandas`, and the placeholder import, export and delete-row handlers, are not modelled.
- `threading` and `queue` are imported but unused.
- The fixed introspection and sample-data SQL are not modelled: `create_database`, `create_sample_table` and `get_table_structure`. Their idempotence is a property of the MySQL server.
- The `new_project` orchestration (tql.py:860-907) is not modelled, because it is a sequence of GUI and server steps. It connects, creates the database, disconnects, reconnects to create the sample table, then calls `add_to_recent_projects`, which is modelled.
- The `open_recent_project` orchestration (tql.py:961-977) is not modelled, for the same reason. It copies the project's settings into the `mysql` section and replaces the database manager without disconnecting the old one. It then connects through `show_main_screen`. It never calls `add_to_recent_projects`, so reopening a project does not move it to the front of the recent list.
- Statements.ColumnDefinitions: a column's size and default are modelled as the text typed into the designer. The ttk treeview returns a stored value that `int()` accepts as that integer. So in the source such a size or default is written in its normalised form: `007` becomes `7`, ` 12` becomes `12`, and `1_000` becomes `1000`. It is omitted when the integer is zero (`0`, `00`, `+0`, `-0`). The model writes the text as typed.
- Statements.InsertStatement: entries are matched to columns by position. The source keys them by column name, which is the same thing for the distinct names `DESCRIBE` returns.
- Session.ExecuteQuery: the row count is whatever the engine reports. The model does not tie it to the number of rows fetched.
- Session.ExecuteQuery: does not model a failure of `cursor.fetchall()` (tql.py:337) or `connection.commit()` (tql.py:340). Both run outside any handler and can raise. One example is mysql.connector refusing to commit while a result set is unread, which happens when a row-returning statement runs with `fetch` off. The engine parameter reports only the outcome of `cursor.execute`, so the model returns success in those cases. No caller in tql.py runs a row-returning statement with `fetch` off.
- JSON numbers are integers or reals. NaN and infinities are not modelled.
