/** `ChromaDB_VectorStore`: the training store as an object. Its three
    collections are fields that the `add_*` and `remove_*` methods update in
    place; each method is proved against the function of `StoreSpec`,
    `Purge` or `Listing` that states what it does to the collections. */
module ChromaStore {
  import opened Common
  import opened Json
  import Uuid
  import opened DatasetFilter
  import opened StoreSpec
  import opened Purge
  import opened Listing

  // ---------------------------------------------------------------------
  // __init__: the settings read from the config

  /** The client the store talks to. */
  datatype ClientKind = Persistent(path: Value) | InMemory | Provided(handle: nat)

  /** `ValueError("Unsupported client was set in config: …")` */
  datatype StoreError = UnsupportedClient(client: Value)

  /** What `__init__` reads from its config. */
  datatype Settings = Settings(client: ClientKind, nResultsSql: Value, nResultsDocumentation: Value, nResultsDdl: Value)

  /** `config.get(key, config.get("n_results", 10))`: the specific key wins
      over the shared one, which wins over 10. */
  function NResults(config: Config, key: string): (v: Value)
    ensures key in config ==> v == config[key]
    ensures key !in config && "n_results" in config ==> v == config["n_results"]
    ensures key !in config && "n_results" !in config ==> v == VInt(10)
  {
    GetOr(config, key, GetOr(config, "n_results", VInt(10)))
  }

  /** The settings of `ChromaDB_VectorStore(config)`; a missing config is
      the empty one. */
  function StoreSettings(config: Option<Config>): (r: Result<Settings, StoreError>)
    ensures var cfg := config.GetOr(map[]);
      var client := GetOr(cfg, "client", VStr("persistent"));
      && (r.Err? <==> client != VStr("persistent") && client != VStr("in-memory") && !client.VClient?)
      && (r.Err? ==> r.error == UnsupportedClient(client))
      && (r.Ok? ==>
        && r.value.nResultsSql == NResults(cfg, "n_results_sql")
        && r.value.nResultsDocumentation == NResults(cfg, "n_results_documentation")
        && r.value.nResultsDdl == NResults(cfg, "n_results_ddl")
        && (client == VStr("persistent") <==> r.value.client.Persistent?)
        && (r.value.client.Persistent? ==> r.value.client.path == GetOr(cfg, "path", VStr(".")))
        && (client == VStr("in-memory") <==> r.value.client.InMemory?)
        && (client.VClient? <==> r.value.client.Provided?)
        && (client.VClient? ==> r.value.client.handle == client.handle))
  {
    var cfg := config.GetOr(map[]);
    var client := GetOr(cfg, "client", VStr("persistent"));
    var kind :=
      if client == VStr("persistent") then Some(Persistent(GetOr(cfg, "path", VStr("."))))
      else if client == VStr("in-memory") then Some(InMemory)
      else if client.VClient? then Some(Provided(client.handle))
      else None;
    match kind
    case None => Err(UnsupportedClient(client))
    case Some(k) =>
      Ok(Settings(k, NResults(cfg, "n_results_sql"), NResults(cfg, "n_results_documentation"), NResults(cfg, "n_results_ddl")))
  }

  /** A shared `n_results` sets all three counts unless a specific key
      overrides one of them. */
  lemma SharedNResults(cfg: Config, n: Value)
    requires "n_results" in cfg && cfg["n_results"] == n
    ensures var r := StoreSettings(Some(cfg));
      r.Ok? ==>
        && r.value.nResultsSql == (if "n_results_sql" in cfg then cfg["n_results_sql"] else n)
        && r.value.nResultsDocumentation == (if "n_results_documentation" in cfg then cfg["n_results_documentation"] else n)
        && r.value.nResultsDdl == (if "n_results_ddl" in cfg then cfg["n_results_ddl"] else n)
  {
  }

  /** With no config the store opens a persistent client at `.` and
      retrieves 10 of each kind. */
  lemma DefaultSettings()
    ensures StoreSettings(None) == Ok(Settings(Persistent(VStr(".")), VInt(10), VInt(10), VInt(10)))
  {
  }

  // ---------------------------------------------------------------------
  // The store

  class ChromaVectorStore {
    const codec: Codec
    const hashes: Uuid.Hashes
    const settings: Settings
    var sql: seq<Entry>
    var ddl: seq<Entry>
    var documentation: seq<Entry>

    /** The three collections. */
    function State(): Collections
      reads this
    {
      Collections(sql, ddl, documentation)
    }

    /** The store invariant of `StoreSpec`: unique ids carrying their
        collection's suffix, and documents the listing can read. */
    ghost predicate Valid()
      reads this
    {
      StoreSpec.Valid(codec, State())
    }

    /** `ChromaDB_VectorStore(config)` over a client whose collections
        already hold `stored` (`get_or_create_collection` keeps what is
        there). An unsupported client raises, which `Open` reports. */
    constructor (settings: Settings, codec: Codec, hashes: Uuid.Hashes, stored: Collections)
      ensures this.settings == settings && this.codec == codec && this.hashes == hashes
      ensures State() == stored
    {
      this.settings := settings;
      this.codec := codec;
      this.hashes := hashes;
      sql := stored.sql;
      ddl := stored.ddl;
      documentation := stored.documentation;
    }

    /** `add_question_sql(question, sql, dataset=…)` */
    method AddQuestionSql(question: Option<string>, sql: Option<string>, dataset: Option<string>) returns (id: Option<string>)
      modifies this
      ensures (State(), id) == StoreSpec.AddQuestionSql(hashes, codec, old(State()), question, sql, dataset)
      ensures old(Valid()) ==> Valid()
    {
      if Valid() {
        AddQuestionSqlValid(hashes, codec, State(), question, sql, dataset);
      }
      if Absent(question) || Absent(sql) {
        return None;
      }
      var docJson := codec.dumps(DocumentFields(Sql, dataset.GetOr("default"), question.value, sql.value));
      var docId := DocId(hashes, docJson, Sql);
      this.sql := Insert(this.sql, Entry(docId, docJson));
      id := Some(docId);
    }

    /** `add_ddl(ddl, dataset=…)` */
    method AddDdl(ddl: Option<string>, dataset: Option<string>) returns (id: Option<string>)
      modifies this
      ensures (State(), id) == AddText(hashes, codec, old(State()), Ddl, ddl, dataset)
      ensures old(Valid()) ==> Valid()
    {
      if Valid() {
        AddTextValid(hashes, codec, State(), Ddl, ddl, dataset);
      }
      if Absent(ddl) {
        return None;
      }
      var docJson := codec.dumps(DocumentFields(Ddl, dataset.GetOr("default"), "", ddl.value));
      var docId := DocId(hashes, docJson, Ddl);
      this.ddl := Insert(this.ddl, Entry(docId, docJson));
      id := Some(docId);
    }

    /** `add_documentation(documentation, dataset=…)` */
    method AddDocumentation(documentation: Option<string>, dataset: Option<string>) returns (id: Option<string>)
      modifies this
      ensures (State(), id) == AddText(hashes, codec, old(State()), Documentation, documentation, dataset)
      ensures old(Valid()) ==> Valid()
    {
      if Valid() {
        AddTextValid(hashes, codec, State(), Documentation, documentation, dataset);
      }
      if Absent(documentation) {
        return None;
      }
      var docJson := codec.dumps(DocumentFields(Documentation, dataset.GetOr("default"), "", documentation.value));
      var docId := DocId(hashes, docJson, Documentation);
      this.documentation := Insert(this.documentation, Entry(docId, docJson));
      id := Some(docId);
    }

    /** `remove_training_data(id)` */
    method RemoveTrainingData(id: string) returns (removed: bool)
      modifies this
      ensures (State(), removed) == StoreSpec.RemoveTrainingData(old(State()), id)
      ensures old(Valid()) ==> Valid()
    {
      if Valid() {
        RemoveTrainingDataValid(codec, State(), id);
      }
      if EndsWith(id, "-sql") {
        sql := Delete(sql, id);
        return true;
      } else if EndsWith(id, "-ddl") {
        ddl := Delete(ddl, id);
        return true;
      } else if EndsWith(id, "-doc") {
        documentation := Delete(documentation, id);
        return true;
      }
      return false;
    }

    /** `remove_collection(collection_name, dataset)`: list the collection,
        keep the dataset's ids, remove each. */
    method RemoveCollection(collectionName: string, dataset: string) returns (ok: bool)
      modifies this
      ensures (State(), ok) == Purge.RemoveCollection(codec, old(State()), collectionName, dataset)
      ensures old(Valid()) ==> Valid()
    {
      if Valid() {
        RemoveCollectionValid(codec, State(), collectionName, dataset);
      }
      var kind := KindNamed(collectionName);
      if kind.None? {
        return false;
      }
      var es := Get(State(), kind.value);
      var ids, _ := FilterCollectionByDataset(codec, dataset, Docs(es), Ids(es));
      ghost var target := RemoveAll(State(), ids);
      var i := 0;
      while i < |ids|
        invariant i <= |ids|
        invariant RemoveAll(State(), ids[i..]) == target
      {
        assert ids[i..][1..] == ids[i + 1..];
        var _ := RemoveTrainingData(ids[i]);
        i := i + 1;
      }
      return true;
    }

    /** `remove_collections(dataset, collection_name, ACCEPTED_TYPES)` */
    method RemoveCollections(dataset: string, collectionName: CollectionArg, accepted: seq<string>) returns (ok: bool)
      modifies this
      ensures (State(), ok) == Purge.RemoveCollections(codec, old(State()), dataset, collectionName, accepted)
      ensures old(Valid()) ==> Valid()
    {
      var names: seq<string>;
      if !ArgTruthy(collectionName) {
        names := accepted;
      } else if collectionName.OneName? {
        names := [collectionName.s];
      } else if collectionName.NameList? {
        names := collectionName.items;
      } else {
        return false;
      }
      assert Requested(collectionName, accepted) == Some(names);
      RemoveEachName(names, accepted, dataset);
      return true;
    }

    /** The loop of `remove_collections`: each accepted name is purged,
        the others are skipped. */
    method RemoveEachName(names: seq<string>, accepted: seq<string>, dataset: string)
      modifies this
      ensures State() == RemoveEach(codec, old(State()), names, accepted, dataset)
      ensures old(Valid()) ==> Valid()
    {
      ghost var target := RemoveEach(codec, State(), names, accepted, dataset);
      var i := 0;
      while i < |names|
        invariant i <= |names|
        invariant RemoveEach(codec, State(), names[i..], accepted, dataset) == target
        invariant old(Valid()) ==> Valid()
      {
        assert names[i..][1..] == names[i + 1..];
        if names[i] in accepted {
          var _ := RemoveCollection(names[i], dataset);
        }
        i := i + 1;
      }
    }

    /** One block of `get_training_data`: the filter's ids and dicts as
        rows; a dict without one of the keys read raises `KeyError`, which
        drops the whole block. */
    method BlockOf(k: Kind, es: seq<Entry>, dataset: string) returns (block: seq<Row>)
      ensures block == Block(codec, k, es, dataset)
    {
      var ids, documents := FilterCollectionByDataset(codec, dataset, Docs(es), Ids(es));
      block := [];
      var i := 0;
      while i < |ids|
        invariant i <= |ids| == |documents|
        invariant forall j :: 0 <= j < i ==> HasRowKeys(k, documents[j])
        invariant |block| == i && forall j :: 0 <= j < i ==> block[j] == RowOf(k, ids[j], documents[j])
      {
        if !HasRowKeys(k, documents[i]) {
          return [];
        }
        block := block + [RowOf(k, ids[i], documents[i])];
        i := i + 1;
      }
    }

    /** `get_training_data(dataset=…)` */
    method GetTrainingData(dataset: Option<string>) returns (rows: seq<Row>)
      ensures rows == TrainingData(codec, State(), dataset)
    {
      var ds := dataset.GetOr("default");
      var ddlRows := BlockOf(Ddl, ddl, ds);
      var sqlRows := BlockOf(Sql, sql, ds);
      var docRows := BlockOf(Documentation, documentation, ds);
      rows := ddlRows + sqlRows + docRows;
    }
  }

  /** `ChromaDB_VectorStore(config)`: the settings are read first; an
      unsupported client raises before any collection is opened. */
  method Open(config: Option<Config>, codec: Codec, hashes: Uuid.Hashes, stored: Collections)
    returns (r: Result<ChromaVectorStore, StoreError>)
    ensures StoreSettings(config).Err? ==> r == Err(StoreSettings(config).error)
    ensures StoreSettings(config).Ok? ==>
      && r.Ok? && fresh(r.value)
      && r.value.settings == StoreSettings(config).value
      && r.value.codec == codec && r.value.hashes == hashes
      && r.value.State() == stored
  {
    match StoreSettings(config)
    case Err(e) =>
      return Err(e);
    case Ok(s) =>
      var store := new ChromaVectorStore(s, codec, hashes, stored);
      return Ok(store);
  }
}
