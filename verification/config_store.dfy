/** Loading and repairing the application configuration (`ConfigManager`).
    The JSON file is represented by what `json.load` made of it; writing a
    file back is represented by the value that would be written. */
module ConfigStore {
  import opened Json
  import opened Wrappers

  /** A configuration is a JSON object: section name to section value. */
  type Config = map<string, Json>

  const Mysql := "mysql"
  const Appearance := "appearance"
  const Editor := "editor"
  const CurrentUser := "current_user"

  /** The sections whose default is a dictionary and are therefore merged. */
  const MergedSections: set<string> := {Mysql, Appearance, Editor}

  const MysqlDefaults: map<string, Json> :=
    map["host" := JString("localhost"), "port" := JInt(3306),
        "username" := JString("root"), "password" := JString("")]

  const AppearanceDefaults: map<string, Json> :=
    map["theme" := JString("Light"), "font_size" := JInt(10)]

  const EditorDefaults: map<string, Json> :=
    map["auto_complete" := JBool(true), "syntax_highlighting" := JBool(true)]

  /** The default configuration, `current_user` included (as JSON null). */
  const Defaults: Config :=
    map[Mysql := JObject(MysqlDefaults), Appearance := JObject(AppearanceDefaults),
        Editor := JObject(EditorDefaults), CurrentUser := JNull]

  /** What `json.load` made of the configuration file. A file that vanishes
      between the existence test and the read is `Undecodable` as well: the
      source catches `FileNotFoundError` together with decoding errors. */
  datatype StoredFile = Missing | Undecodable | Parsed(value: Json)

  /** The configuration returned, and the configuration written back to the
      file (`None` when the file is left as it is). */
  datatype LoadResult = LoadResult(config: Config, writeBack: Option<Config>)

  /** The stored section when it is a dictionary, else the empty one. */
  function StoredSection(stored: Config, section: string): map<string, Json> {
    if section in stored && stored[section].JObject? then stored[section].fields else map[]
  }

  /** Each default key of one section, with the stored value when there is one. */
  function MergeSection(defaults: map<string, Json>, stored: map<string, Json>): map<string, Json> {
    map k | k in defaults :: if k in stored then stored[k] else defaults[k]
  }

  /** The validated configuration built from a stored object: only default
      sections whose default value is a dictionary take part. */
  function Merge(stored: Config): Config {
    map s | s in Defaults && Defaults[s].JObject? ::
      JObject(MergeSection(Defaults[s].fields, StoredSection(stored, s)))
  }

  /** The value the merge keeps for key `k` of section `s`. */
  function Chosen(stored: Config, s: string, k: string): Json
    requires s in MergedSections && k in Defaults[s].fields
  {
    var section := StoredSection(stored, s);
    if k in section then section[k] else Defaults[s].fields[k]
  }

  /** `ConfigManager.load_config`. */
  function Load(file: StoredFile): (r: LoadResult)
    // recovery: a missing, undecodable or non-object file yields the defaults,
    // which are also written back
    ensures !(file.Parsed? && file.value.JObject?) ==>
              r.config == Defaults && r.writeBack == Some(Defaults)
    // a stored object is never rewritten
    ensures file.Parsed? && file.value.JObject? ==> r.writeBack.None?
    // merge: exactly the three dictionary sections, each with exactly the
    // default keys, every value the stored one when present, else the default
    ensures file.Parsed? && file.value.JObject? ==>
              && r.config.Keys == MergedSections
              && CurrentUser !in r.config
              && (forall s | s in MergedSections ::
                    r.config[s].JObject? && r.config[s].fields.Keys == Defaults[s].fields.Keys)
              && (forall s, k | s in MergedSections && k in Defaults[s].fields ::
                    r.config[s].fields[k] == Chosen(file.value.fields, s, k))
  {
    match file
    case Missing => LoadResult(Defaults, Some(Defaults))
    case Undecodable => LoadResult(Defaults, Some(Defaults))
    case Parsed(v) =>
      if v.JObject? then
        MergedSectionsAreDictionaryDefaults(v.fields);
        LoadResult(Merge(v.fields), None)
      else LoadResult(Defaults, Some(Defaults))
  }

  /** The keys `DatabaseManager.connect` reads from the configuration. */
  predicate HasConnectionSettings(c: Config) {
    && Mysql in c && c[Mysql].JObject?
    && "host" in c[Mysql].fields && "port" in c[Mysql].fields
    && "username" in c[Mysql].fields && "password" in c[Mysql].fields
  }

  /** Whatever the file holds, the loaded configuration carries every
      connection setting, so reading them never fails. */
  lemma LoadProvidesConnectionSettings(file: StoredFile)
    ensures HasConnectionSettings(Load(file).config)
  {
    var c := Load(file).config;
    if file.Parsed? && file.value.JObject? {
      assert Mysql in MergedSections;
      assert c[Mysql].fields.Keys == MysqlDefaults.Keys;
    }
  }

  /** Merging a section against its own merge result changes nothing. */
  lemma MergeSectionIdempotent(d: map<string, Json>, stored: map<string, Json>)
    ensures MergeSection(d, MergeSection(d, stored)) == MergeSection(d, stored)
  {
  }

  /** The merged sections are exactly the default sections holding a dictionary. */
  lemma MergedSectionsAreDictionaryDefaults(stored: Config)
    ensures Merge(stored).Keys == MergedSections
  {
    assert Defaults[Mysql].JObject? && Defaults[Appearance].JObject? && Defaults[Editor].JObject?;
    assert !Defaults[CurrentUser].JObject?;
  }

  /** Merging an already merged configuration changes nothing. */
  lemma {:induction false} MergeIdempotent(stored: Config)
    ensures Merge(Merge(stored)) == Merge(stored)
  {
    var m := Merge(stored);
    var mm := Merge(m);
    MergedSectionsAreDictionaryDefaults(stored);
    MergedSectionsAreDictionaryDefaults(m);
    forall s | s in MergedSections
      ensures mm[s] == m[s]
    {
      var d := Defaults[s].fields;
      assert m[s] == JObject(MergeSection(d, StoredSection(stored, s)));
      assert StoredSection(m, s) == MergeSection(d, StoredSection(stored, s));
      MergeSectionIdempotent(d, StoredSection(stored, s));
    }
  }

  /** Saving what was loaded and loading it again settles after one round:
      the second reload returns exactly what the first reload returned, and
      when the file already held an object the first reload already returns
      the loaded configuration. */
  lemma ReloadSettles(file: StoredFile)
    ensures var c1 := Load(file).config;
            var c2 := Load(Parsed(JObject(c1))).config;
            && Load(Parsed(JObject(c2))).config == c2
            && (file.Parsed? && file.value.JObject? ==> c2 == c1)
  {
    var c1 := Load(file).config;
    MergeIdempotent(c1);
    if file.Parsed? && file.value.JObject? {
      MergeIdempotent(file.value.fields);
    }
  }

  /** `current_user` never survives a reload: its default is not a dictionary,
      so the merge skips it, even when the file stores a user name. */
  lemma ReloadDropsCurrentUser(c: Config, user: string)
    ensures CurrentUser !in Load(Parsed(JObject(c[CurrentUser := JString(user)]))).config
  {
  }

  /** Reloading the default configuration gives it back without `current_user`. */
  lemma ReloadDefaults()
    ensures Load(Parsed(JObject(Defaults))).config == Defaults - {CurrentUser}
  {
    var d := Merge(Defaults);
    var e := Defaults - {CurrentUser};
    assert d.Keys == e.Keys;
    forall s | s in d ensures d[s] == e[s] {
      var fields := Defaults[s].fields;
      assert StoredSection(Defaults, s) == fields;
      assert MergeSection(fields, fields) == fields;
    }
  }
}
