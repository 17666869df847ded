/** The application-level flows that tie the stores together: running the
    query in the editor, start-up authentication with first-run bootstrap,
    the create-account dialog, and adding a row. User input arrives as
    parameters; message boxes become outcome values. */
module Workbench {
  import opened Wrappers
  import opened Json
  import opened Text
  import ConfigStore
  import Credentials
  import Session
  import History
  import Statements

  datatype QueryOutcome = EmptyQuery | Shown(result: Session.QueryResult) | Failed(error: Session.ExecError)

  /** `MySQLDatabaseManager.execute_query`: the stripped editor text is run
      with rows fetched; only a run that did not raise is recorded in the
      history, under the session's current database. */
  function RunQuery(s: Session.State, history: seq<History.HistoryEntry>, editorText: string,
                    engine: Session.Statement -> Session.EngineReply, now: string)
    : (r: (seq<History.HistoryEntry>, QueryOutcome))
    ensures Strip(editorText) == "" ==> r == (history, EmptyQuery)
    ensures r.1.Shown? <==>
              Strip(editorText) != "" && Session.ExecuteQuery(s, Strip(editorText), [], true, engine).Ok?
    ensures r.1.Shown? ==> r.0 == History.AddToHistory(history, Strip(editorText), s.currentDatabase, now)
    ensures !r.1.Shown? ==> r.0 == history
    ensures r.1.Failed? ==>
              Session.ExecuteQuery(s, Strip(editorText), [], true, engine) == Err(r.1.error)
  {
    var query := Strip(editorText);
    if query == "" then (history, EmptyQuery)
    else
      match Session.ExecuteQuery(s, query, [], true, engine)
      case Err(e) => (history, Failed(e))
      case Ok(x) => (History.AddToHistory(history, query, s.currentDatabase, now), Shown(x.result))
  }

  /** Without a live connection nothing reaches the history. */
  lemma DisconnectedRunLeavesHistory(s: Session.State, history: seq<History.HistoryEntry>, editorText: string,
                                     engine: Session.Statement -> Session.EngineReply, now: string)
    requires !Session.IsConnected(s)
    ensures RunQuery(s, history, editorText, engine, now).0 == history
    ensures Strip(editorText) != "" ==>
              RunQuery(s, history, editorText, engine, now).1 == Failed(Session.NotConnected)
  {
  }

  datatype AccountOutcome = MissingFields | PasswordMismatch | UsernameTaken | Created

  /** The Create button of the create-account dialog: both fields must be
      filled and the confirmation must match before `create_user` runs. */
  function CreateAccount(store: Credentials.Store, username: string, password: string, confirm: string,
                         hash: string -> string, now: string): (r: (Credentials.Store, AccountOutcome))
    ensures r.1 == Created <==> username != "" && password != "" && password == confirm && username !in store
    ensures (username == "" || password == "") ==> r.1 == MissingFields
    ensures username != "" && password != "" && password != confirm ==> r.1 == PasswordMismatch
    ensures r.1 == UsernameTaken <==> username != "" && password != "" && password == confirm && username in store
    ensures r.1 != Created ==> r.0 == store
    ensures r.1 == Created ==>
              && r.0.Keys == store.Keys + {username}
              && r.0[username] == Credentials.Credential(hash(password), Credentials.DefaultRole, now)
              && forall u | u in store :: r.0[u] == store[u]
  {
    if username == "" || password == "" then (store, MissingFields)
    else if password != confirm then (store, PasswordMismatch)
    else
      var (after, ok) := Credentials.CreateUser(store, username, password, hash, now);
      if ok then (after, Created) else (store, UsernameTaken)
  }

  /** What the user does in the login dialog: press Login with a username
      and password, or press Create in the create-account dialog opened
      from its Create Account button (at time `now`). */
  datatype DialogEvent =
    | Login(username: string, password: string)
    | Create(username: string, password: string, confirm: string, now: string)

  /** The account table after one event: only a Create can change it. */
  function AfterEvent(store: Credentials.Store, hash: string -> string, e: DialogEvent): Credentials.Store {
    match e
    case Login(_, _) => store
    case Create(u, p, c, now) => CreateAccount(store, u, p, c, hash, now).0
  }

  /** The account table after a run of events. */
  function Accounts(store: Credentials.Store, hash: string -> string, events: seq<DialogEvent>): Credentials.Store
    decreases |events|
  {
    if events == [] then store else Accounts(AfterEvent(store, hash, events[0]), hash, events[1..])
  }

  /** Event `i` is a Login press that authenticates against the table as
      the events before it left it. */
  predicate LogsIn(store: Credentials.Store, hash: string -> string, events: seq<DialogEvent>, i: nat)
    requires i < |events|
  {
    events[i].Login? && Credentials.Authenticate(Accounts(store, hash, events[..i]), events[i].username,
                                                 events[i].password, hash)
  }

  /** How the login dialog ended: the account table, the username it
      returns, and how many events it handled before closing. */
  datatype DialogEnd = DialogEnd(store: Credentials.Store, user: Option<string>, handled: nat)

  lemma AccountsPrefix(store: Credentials.Store, hash: string -> string, events: seq<DialogEvent>, i: nat)
    requires 0 < i <= |events|
    ensures Accounts(store, hash, events[..i]) == Accounts(AfterEvent(store, hash, events[0]), hash, events[1..][..i - 1])
  {
    assert events[..i][1..] == events[1..][..i - 1];
  }

  lemma LogsInShift(store: Credentials.Store, hash: string -> string, events: seq<DialogEvent>, i: nat)
    requires 0 < i < |events|
    ensures LogsIn(store, hash, events, i) == LogsIn(AfterEvent(store, hash, events[0]), hash, events[1..], i - 1)
  {
    AccountsPrefix(store, hash, events, i);
  }

  /** `LoginDialog.show`: a failed Login shows an error and keeps the dialog
      open; accounts created meanwhile go into the table at once; the first
      Login that authenticates closes the dialog with its username; closing
      the dialog without one gives `None`. */
  function LoginDialog(store: Credentials.Store, hash: string -> string, events: seq<DialogEvent>): (r: DialogEnd)
    ensures r.handled <= |events|
    ensures r.user.None? ==> r.handled == |events|
    ensures r.user.Some? ==> r.handled > 0 && events[r.handled - 1].Login?
                             && r.user.value == events[r.handled - 1].username
    ensures r.user.Some? ==> r.user.value in r.store
    decreases |events|
  {
    if events == [] then DialogEnd(store, None, 0)
    else
      var e := events[0];
      if e.Login? && Credentials.Authenticate(store, e.username, e.password, hash) then
        DialogEnd(store, Some(e.username), 1)
      else
        var rest := LoginDialog(AfterEvent(store, hash, e), hash, events[1..]);
        DialogEnd(rest.store, rest.user, rest.handled + 1)
  }

  /** The table the dialog leaves is the one its handled events built. */
  lemma {:induction false} LoginDialogStore(store: Credentials.Store, hash: string -> string, events: seq<DialogEvent>)
    ensures var r := LoginDialog(store, hash, events);
            r.store == Accounts(store, hash, events[..r.handled])
    decreases |events|
  {
    if events != [] {
      var e := events[0];
      var r := LoginDialog(store, hash, events);
      if e.Login? && Credentials.Authenticate(store, e.username, e.password, hash) {
        assert events[..1][1..] == [];
      } else {
        var rest := LoginDialog(AfterEvent(store, hash, e), hash, events[1..]);
        LoginDialogStore(AfterEvent(store, hash, e), hash, events[1..]);
        AccountsPrefix(store, hash, events, rest.handled + 1);
      }
    }
  }

  /** The dialog closes on the first Login press that authenticates
      against the table as it stands at that point, and the returned user
      has an account there. */
  lemma {:induction false} LoginDialogFirstSuccess(store: Credentials.Store, hash: string -> string,
                                                   events: seq<DialogEvent>)
    ensures var r := LoginDialog(store, hash, events);
            && (r.user.Some? ==> LogsIn(store, hash, events, r.handled - 1))
            && (forall i | 0 <= i < r.handled && LogsIn(store, hash, events, i) :: i == r.handled - 1 && r.user.Some?)
    decreases |events|
  {
    if events != [] {
      var e := events[0];
      var r := LoginDialog(store, hash, events);
      assert events[..0] == [];
      if e.Login? && Credentials.Authenticate(store, e.username, e.password, hash) {
        assert LogsIn(store, hash, events, 0);
      } else {
        var rest := LoginDialog(AfterEvent(store, hash, e), hash, events[1..]);
        LoginDialogFirstSuccess(AfterEvent(store, hash, e), hash, events[1..]);
        assert !LogsIn(store, hash, events, 0);
        forall i | 0 <= i < r.handled && LogsIn(store, hash, events, i)
          ensures i == r.handled - 1 && r.user.Some?
        {
          if i > 0 {
            LogsInShift(store, hash, events, i);
          }
        }
        if r.user.Some? {
          LogsInShift(store, hash, events, rest.handled);
        }
      }
    }
  }

  /** The dialog never changes or removes an account that existed before it opened. */
  lemma {:induction false} LoginDialogKeepsAccounts(store: Credentials.Store, hash: string -> string,
                                                    events: seq<DialogEvent>)
    ensures forall u | u in store :: u in LoginDialog(store, hash, events).store
                                     && LoginDialog(store, hash, events).store[u] == store[u]
    decreases |events|
  {
    if events != [] {
      var e := events[0];
      if !(e.Login? && Credentials.Authenticate(store, e.username, e.password, hash)) {
        var next := AfterEvent(store, hash, e);
        assert forall u | u in store :: u in next && next[u] == store[u];
        LoginDialogKeepsAccounts(next, hash, events[1..]);
      }
    }
  }

  /** The dialog returns no user exactly when no Login press authenticates. */
  lemma LoginDialogFailsOnlyWithoutLogin(store: Credentials.Store, hash: string -> string, events: seq<DialogEvent>)
    ensures LoginDialog(store, hash, events).user.None? <==> forall i | 0 <= i < |events| :: !LogsIn(store, hash, events, i)
  {
    var r := LoginDialog(store, hash, events);
    LoginDialogFirstSuccess(store, hash, events);
  }

  /** The dialog never changes or removes an account, and every account it
      adds comes from a Create press with that username and a confirmed
      password, stored with the default role. */
  lemma {:induction false} AccountsOnlyAdded(store: Credentials.Store, hash: string -> string, events: seq<DialogEvent>)
    ensures forall u | u in store :: u in Accounts(store, hash, events) && Accounts(store, hash, events)[u] == store[u]
    ensures forall u | u in Accounts(store, hash, events) && u !in store ::
              exists i | 0 <= i < |events| ::
                && events[i].Create? && events[i].username == u && events[i].password == events[i].confirm
                && Accounts(store, hash, events)[u]
                     == Credentials.Credential(hash(events[i].password), Credentials.DefaultRole, events[i].now)
    decreases |events|
  {
    if events != [] {
      var e := events[0];
      var next := AfterEvent(store, hash, e);
      var final := Accounts(store, hash, events);
      assert final == Accounts(next, hash, events[1..]);
      AccountsOnlyAdded(next, hash, events[1..]);
      assert forall u | u in store :: u in next && next[u] == store[u];
      forall u | u in final && u !in store
        ensures exists i | 0 <= i < |events| ::
                  && events[i].Create? && events[i].username == u && events[i].password == events[i].confirm
                  && final[u] == Credentials.Credential(hash(events[i].password), Credentials.DefaultRole, events[i].now)
      {
        if u in next {
          assert events[0].Create? && events[0].username == u && events[0].password == events[0].confirm;
        } else {
          var k :| 0 <= k < |events[1..]| && events[1..][k].Create? && events[1..][k].username == u
                   && events[1..][k].password == events[1..][k].confirm
                   && final[u] == Credentials.Credential(hash(events[1..][k].password), Credentials.DefaultRole,
                                                         events[1..][k].now);
          assert events[k + 1] == events[1..][k];
        }
      }
    }
  }

  /** The state after `authenticate_user`: the account table, the current
      user, the configuration in memory, the configuration written to the
      file (if any), and whether the application goes on. */
  datatype Startup = Startup(store: Credentials.Store, currentUser: Option<string>, config: ConfigStore.Config,
                             savedConfig: Option<ConfigStore.Config>, proceed: bool)

  /** `authenticate_user`: an empty account table gets the default admin
      and the application starts as `admin` without a login or a
      configuration write; otherwise the login dialog decides, and a
      (non-empty) user name is recorded as `current_user` and saved. */
  function AuthenticateUser(store: Credentials.Store, config: ConfigStore.Config, hash: string -> string,
                            events: seq<DialogEvent>, now: string): (r: Startup)
    ensures |store| == 0 ==>
              && r.proceed && r.currentUser == Some(Credentials.AdminName)
              && |r.store| == 1 && Credentials.Authenticate(r.store, Credentials.AdminName, Credentials.AdminPassword, hash)
              && r.store[Credentials.AdminName].role == Credentials.AdminRole
              && r.config == config && r.savedConfig.None?
    // the table is the one the dialog left: the old accounts unchanged, plus those created in it
    ensures |store| > 0 ==>
              && r.store == LoginDialog(store, hash, events).store
              && (forall u | u in store :: u in r.store && r.store[u] == store[u])
              && r.currentUser == LoginDialog(store, hash, events).user
    ensures |store| > 0 ==>
              (r.proceed <==> r.currentUser.Some? && r.currentUser.value != "")
    ensures r.proceed ==> r.currentUser.Some? && r.currentUser.value in r.store
    ensures |store| > 0 && r.proceed ==>
              && r.config == config[ConfigStore.CurrentUser := JString(r.currentUser.value)]
              && r.savedConfig == Some(r.config)
    ensures |store| > 0 && !r.proceed ==> r.config == config && r.savedConfig.None?
  {
    if |store| == 0 then
      Startup(Credentials.CreateDefaultAdmin(store, hash, now), Some(Credentials.AdminName), config, None, true)
    else
      var end := LoginDialog(store, hash, events);
      LoginDialogKeepsAccounts(store, hash, events);
      if end.user.Some? && end.user.value != "" then
        var updated := config[ConfigStore.CurrentUser := JString(end.user.value)];
        Startup(end.store, end.user, updated, Some(updated), true)
      else Startup(end.store, end.user, config, None, false)
  }

  /** After the first-run bootstrap, the next start-up lets `admin` in with
      the password `admin` and saves it as the current user. */
  lemma BootstrapThenLogin(config: ConfigStore.Config, hash: string -> string, t1: string, t2: string,
                           later: seq<DialogEvent>)
    ensures var first := AuthenticateUser(map[], config, hash, [], t1);
            var second := AuthenticateUser(first.store, config, hash,
                                           [Login(Credentials.AdminName, Credentials.AdminPassword)] + later, t2);
            && second.proceed && second.currentUser == Some(Credentials.AdminName)
            && second.store == first.store
            && second.savedConfig == Some(config[ConfigStore.CurrentUser := JString(Credentials.AdminName)])
  {
    var first := AuthenticateUser(map[], config, hash, [], t1);
    var events := [Login(Credentials.AdminName, Credentials.AdminPassword)] + later;
    assert events[..1][..0] == [];
    assert LoginDialog(first.store, hash, events).handled == 1;
  }

  /** An account created from the login dialog logs in at once: with some
      accounts already present, creating `username` and then logging in
      with it starts the application as that user, which is now in the
      table. */
  lemma CreatedAccountLogsIn(store: Credentials.Store, config: ConfigStore.Config, hash: string -> string,
                             username: string, password: string, now: string, later: seq<DialogEvent>)
    requires |store| > 0
    requires CreateAccount(store, username, password, password, hash, now).1 == Created
    ensures var r := AuthenticateUser(store, config, hash,
                                      [Create(username, password, password, now), Login(username, password)] + later,
                                      now);
            && r.proceed && r.currentUser == Some(username) && username in r.store
            && r.savedConfig == Some(config[ConfigStore.CurrentUser := JString(username)])
  {
    var events := [Create(username, password, password, now), Login(username, password)] + later;
    var after := CreateAccount(store, username, password, password, hash, now).0;
    assert events[1..][0] == Login(username, password);
    assert Credentials.Authenticate(after, username, password, hash);
    assert LoginDialog(after, hash, events[1..]).user == Some(username);
  }

  /** The Add button of the add-row dialog: builds the INSERT over the
      columns that are not `auto_increment` and runs it without fetching,
      so a run that succeeds is always committed. Nothing runs when no table
      is selected or when every entry is empty. */
  method AddRow(s: Session.State, table: string, structure: seq<Statements.DescribedColumn>,
                entries: seq<string>, engine: Session.Statement -> Session.EngineReply)
    returns (r: Option<Result<Session.Executed, Session.ExecError>>)
    requires |entries| == |Statements.InsertableColumns(structure)|
    ensures r.None? <==> table == "" || forall i | 0 <= i < |entries| :: entries[i] == ""
    ensures r.Some? && r.value.Ok? ==> r.value.value.committed && r.value.value.result.Mutation?
    ensures r.Some? && !Session.IsConnected(s) ==> r.value == Err(Session.NotConnected)
    ensures r.Some? ==>
              var values := Statements.NonEmpty(entries);
              r.value == Session.ExecuteQuery(
                s,
                "INSERT INTO " + Statements.Quote(table) + " (" + Join(Statements.InsertableColumns(structure), ", ")
                + ") VALUES (" + Join(Statements.PlaceholderList(entries), ", ") + ")",
                seq(|values|, k requires 0 <= k < |values| => Session.VText(values[k])),
                false, engine)
  {
    if table == "" {
      return None;
    }
    var columns := Statements.InsertableColumns(structure);
    var statement, placeholders := Statements.InsertStatement(table, columns, entries);
    assert placeholders == Statements.PlaceholderList(entries);
    match statement {
      case None => r := None;
      case Some(st) =>
        var values := Statements.NonEmpty(entries);
        assert st.params == seq(|values|, k requires 0 <= k < |values| => Session.VText(values[k]));
        r := Some(Session.ExecuteQuery(s, st.sql, st.params, false, engine));
    }
  }
}
