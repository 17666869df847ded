/** Query history, favorites (`QueryHistoryManager`) and the recent-projects
    list (`MySQLDatabaseManager.add_to_recent_projects`). The JSON files are
    represented by the lists they hold; timestamps are opaque strings supplied
    by the caller. */
module History {
  import opened Wrappers
  import Recency

  /** One history record: `{query, database, timestamp}`. */
  datatype HistoryEntry = HistoryEntry(query: string, database: Option<string>, timestamp: string)

  /** One favorite: `{name, query, database, created_at}`. */
  datatype Favorite = Favorite(name: string, query: string, database: Option<string>, createdAt: string)

  /** One recent project: `{name, database, host, port, username, password, last_opened}`. */
  datatype Project = Project(
    name: string, database: string, host: string, port: int,
    username: string, password: string, lastOpened: string)

  const HistoryLimit: nat := 100
  const RecentProjectsLimit: nat := 10
  const DisplayLimit: nat := 100

  function QueryOf(e: HistoryEntry): string { e.query }

  function DatabaseOf(p: Project): string { p.database }

  /** `add_to_history`: the recorded query goes first, an earlier recording of
      the same text is dropped, and at most 100 entries are kept. */
  function AddToHistory(history: seq<HistoryEntry>, query: string, database: Option<string>, timestamp: string)
    : (r: seq<HistoryEntry>)
    ensures 1 <= |r| <= HistoryLimit
    ensures r[0] == HistoryEntry(query, database, timestamp)
    ensures forall i | 1 <= i < |r| :: r[i].query != query
    ensures forall i | 1 <= i < |r| :: r[i] in history
    ensures Recency.SubsequenceOf(r[1..], history)
    // another query's entry is only pushed out of a full history
    ensures forall i | 0 <= i < |history| && history[i].query != query && history[i] !in r ::
              |r| == HistoryLimit
  {
    var entry := HistoryEntry(query, database, timestamp);
    Recency.PromoteKeepsOrder(history, entry, QueryOf, HistoryLimit);
    Recency.Promote(history, entry, QueryOf, HistoryLimit)
  }

  /** Recording the same text twice leaves one entry, in front, carrying the
      second recording's database and timestamp; the first leaves no trace. */
  lemma RecordTwice(history: seq<HistoryEntry>, query: string,
                    db1: Option<string>, t1: string, db2: Option<string>, t2: string)
    ensures AddToHistory(AddToHistory(history, query, db1, t1), query, db2, t2)
         == AddToHistory(history, query, db2, t2)
  {
    Recency.PromoteSameKeyTwice(history, HistoryEntry(query, db1, t1), HistoryEntry(query, db2, t2),
                                QueryOf, HistoryLimit);
  }

  /** A query not yet in the history is prepended; when the history is full
      the oldest (last) entry is the only one dropped. */
  lemma RecordNewQuery(history: seq<HistoryEntry>, query: string, database: Option<string>, timestamp: string)
    requires Recency.KeyAbsent(history, QueryOf, query)
    ensures |history| < HistoryLimit ==>
              AddToHistory(history, query, database, timestamp)
                == [HistoryEntry(query, database, timestamp)] + history
    ensures |history| >= HistoryLimit ==>
              AddToHistory(history, query, database, timestamp)
                == [HistoryEntry(query, database, timestamp)] + history[..HistoryLimit - 1]
  {
    Recency.PromoteNewKey(history, HistoryEntry(query, database, timestamp), QueryOf, HistoryLimit);
  }

  /** `history.pop(index)` in the history dialog; the index is that of a
      displayed row, so it is always in range. */
  function DeleteHistoryEntry(history: seq<HistoryEntry>, index: nat): (r: seq<HistoryEntry>)
    requires index < |history|
    ensures |r| == |history| - 1
    ensures multiset(r) + multiset{history[index]} == multiset(history)
    ensures forall i | 0 <= i < index :: r[i] == history[i]
    ensures forall i | index <= i < |r| :: r[i] == history[i + 1]
  {
    assert history == history[..index] + [history[index]] + history[index + 1..];
    history[..index] + history[index + 1..]
  }

  /** The text shown for a history entry: the first 100 characters followed
      by `...` when the query is longer than 100 characters. */
  function DisplayQuery(query: string): (r: string)
    ensures |query| <= DisplayLimit ==> r == query
    ensures |query| > DisplayLimit ==> |r| == DisplayLimit + 3 && r[DisplayLimit..] == "..."
    ensures |query| > DisplayLimit ==> r[..DisplayLimit] == query[..DisplayLimit]
  {
    if |query| > DisplayLimit then query[..DisplayLimit] + "..." else query
  }

  /** `add_favorite`: append, with no check on the name. */
  function AddFavorite(favorites: seq<Favorite>, name: string, query: string, database: Option<string>, createdAt: string)
    : (r: seq<Favorite>)
    ensures |r| == |favorites| + 1
    ensures r[..|favorites|] == favorites
    ensures r[|favorites|] == Favorite(name, query, database, createdAt)
  {
    favorites + [Favorite(name, query, database, createdAt)]
  }

  /** The position of the first favorite with that name, or `None` where
      the source's lookup would raise `StopIteration`. */
  function FindFavorite(favorites: seq<Favorite>, name: string): (r: Option<nat>)
    ensures r.Some? ==> r.value < |favorites| && favorites[r.value].name == name
    ensures r.Some? ==> forall j | 0 <= j < r.value :: favorites[j].name != name
    ensures r.None? ==> forall j | 0 <= j < |favorites| :: favorites[j].name != name
  {
    if favorites == [] then None
    else if favorites[0].name == name then Some(0)
    else match FindFavorite(favorites[1..], name)
      case None => None
      case Some(i) => Some(i + 1)
  }

  /** Saving a favorite under a name already in use does not change which
      favorite is loaded by that name: the earlier one shadows the new one. */
  lemma {:induction false} FavoriteNameShadowing(favorites: seq<Favorite>, name: string, query: string,
                                                database: Option<string>, createdAt: string)
    ensures var after := AddFavorite(favorites, name, query, database, createdAt);
            FindFavorite(after, name)
              == if FindFavorite(favorites, name).Some? then FindFavorite(favorites, name)
                 else Some(|favorites|)
    decreases |favorites|
  {
    var after := AddFavorite(favorites, name, query, database, createdAt);
    if favorites != [] && favorites[0].name != name {
      assert after[0] == favorites[0];
      assert after[1..] == AddFavorite(favorites[1..], name, query, database, createdAt);
      FavoriteNameShadowing(favorites[1..], name, query, database, createdAt);
    }
  }

  /** `add_to_recent_projects`: the project goes first, any earlier project
      for the same database is dropped, and at most 10 projects are kept.
      The credentials are those of the current connection settings. */
  function AddToRecentProjects(projects: seq<Project>, name: string, database: string, host: string,
                               port: int, username: string, password: string, lastOpened: string)
    : (r: seq<Project>)
    ensures 1 <= |r| <= RecentProjectsLimit
    ensures r[0] == Project(name, database, host, port, username, password, lastOpened)
    ensures forall i | 1 <= i < |r| :: r[i].database != database
    ensures forall i | 1 <= i < |r| :: r[i] in projects
    ensures Recency.SubsequenceOf(r[1..], projects)
    // another database's project is only pushed out of a full list
    ensures forall i | 0 <= i < |projects| && projects[i].database != database && projects[i] !in r ::
              |r| == RecentProjectsLimit
  {
    var p := Project(name, database, host, port, username, password, lastOpened);
    Recency.PromoteKeepsOrder(projects, p, DatabaseOf, RecentProjectsLimit);
    Recency.Promote(projects, p, DatabaseOf, RecentProjectsLimit)
  }

  /** Re-adding a project for a database already listed replaces the earlier
      entry and moves it to the front, as if it had never been listed. */
  lemma ReopenProject(projects: seq<Project>, first: Project, second: Project)
    requires first.database == second.database
    ensures var once := AddToRecentProjects(projects, first.name, first.database, first.host, first.port,
                                            first.username, first.password, first.lastOpened);
            AddToRecentProjects(once, second.name, second.database, second.host, second.port,
                                second.username, second.password, second.lastOpened)
              == AddToRecentProjects(projects, second.name, second.database, second.host, second.port,
                                     second.username, second.password, second.lastOpened)
  {
    Recency.PromoteSameKeyTwice(projects, first, second, DatabaseOf, RecentProjectsLimit);
  }
}
