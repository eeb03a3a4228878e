/** The three Chroma collections of `ChromaDB_VectorStore` as values, and
    what each store operation does to them. The class in `ChromaStore`
    updates its fields exactly as these functions say; the properties of the
    store are proved here, about the functions.

    A collection is the sequence of its entries in insertion order, which is
    the order `get()` lists them in. Chroma's `add` keeps the entry already
    stored under an id and ignores the new one; `delete` drops the entry
    with that id, if any. */
module StoreSpec {
  import opened Common
  import opened Json
  import opened Uuid
  import opened DatasetFilter

  /** One stored document and its id. Embeddings are not modelled. */
  datatype Entry = Entry(id: string, document: string)

  /** The three kinds of training data, one collection each. */
  datatype Kind = Sql | Ddl | Documentation

  /** The suffix of the ids of each kind. */
  function Suffix(k: Kind): string {
    match k
    case Sql => "-sql"
    case Ddl => "-ddl"
    case Documentation => "-doc"
  }

  /** The collection name, which is also the key of the document text. */
  function Name(k: Kind): string {
    match k
    case Sql => "sql"
    case Ddl => "ddl"
    case Documentation => "documentation"
  }

  datatype Collections = Collections(sql: seq<Entry>, ddl: seq<Entry>, documentation: seq<Entry>)

  function Get(c: Collections, k: Kind): seq<Entry> {
    match k
    case Sql => c.sql
    case Ddl => c.ddl
    case Documentation => c.documentation
  }

  /** `c` with the collection of kind `k` replaced. */
  function With(c: Collections, k: Kind, es: seq<Entry>): (r: Collections)
    ensures Get(r, k) == es
    ensures forall k' :: k' != k ==> Get(r, k') == Get(c, k')
  {
    match k
    case Sql => c.(sql := es)
    case Ddl => c.(ddl := es)
    case Documentation => c.(documentation := es)
  }

  /** The `ids` and `documents` lists of `collection.get()`. */
  function Ids(es: seq<Entry>): (r: seq<string>)
    ensures |r| == |es| && forall i :: 0 <= i < |es| ==> r[i] == es[i].id
  {
    if es == [] then [] else [es[0].id] + Ids(es[1..])
  }

  function Docs(es: seq<Entry>): (r: seq<string>)
    ensures |r| == |es| && forall i :: 0 <= i < |es| ==> r[i] == es[i].document
  {
    if es == [] then [] else [es[0].document] + Docs(es[1..])
  }

  // ---------------------------------------------------------------------
  // Chroma's add and delete

  /** `collection.add(documents=…, ids=…)` of one entry. */
  function Insert(es: seq<Entry>, e: Entry): (r: seq<Entry>)
    ensures e.id in Ids(es) ==> r == es
    ensures e.id !in Ids(es) ==> r == es + [e]
  {
    if e.id in Ids(es) then es else es + [e]
  }

  /** `collection.delete(ids=id)` */
  function Delete(es: seq<Entry>, id: string): (r: seq<Entry>)
    ensures forall e :: e in r <==> e in es && e.id != id
    ensures |r| <= |es|
  {
    if es == [] then []
    else if es[0].id == id then Delete(es[1..], id)
    else [es[0]] + Delete(es[1..], id)
  }

  /** Deleting an id that is not there changes nothing. */
  lemma {:induction false} DeleteAbsent(es: seq<Entry>, id: string)
    requires id !in Ids(es)
    ensures Delete(es, id) == es
  {
    if es != [] {
      assert Ids(es)[0] == es[0].id;
      assert id !in Ids(es[1..]) by {
        forall i | 0 <= i < |es[1..]| ensures Ids(es[1..])[i] != id {
          assert Ids(es[1..])[i] == Ids(es)[i + 1];
        }
      }
      DeleteAbsent(es[1..], id);
    }
  }

  /** Deleting the last-added entry's id undoes the addition. */
  lemma {:induction false} DeleteAppended(es: seq<Entry>, e: Entry)
    requires e.id !in Ids(es)
    ensures Delete(es + [e], e.id) == es
  {
    if es == [] {
      assert [e][1..] == [];
    } else {
      assert (es + [e])[1..] == es[1..] + [e];
      assert Ids(es)[0] == es[0].id;
      assert e.id !in Ids(es[1..]) by {
        forall i | 0 <= i < |es[1..]| ensures Ids(es[1..])[i] != e.id {
          assert Ids(es[1..])[i] == Ids(es)[i + 1];
        }
      }
      DeleteAppended(es[1..], e);
    }
  }

  // ---------------------------------------------------------------------
  // remove_training_data

  predicate EndsWith(s: string, suffix: string) {
    |s| >= |suffix| && s[|s| - |suffix|..] == suffix
  }

  /** The collection an id is routed to by its suffix. */
  function Route(id: string): Option<Kind> {
    if EndsWith(id, "-sql") then Some(Sql)
    else if EndsWith(id, "-ddl") then Some(Ddl)
    else if EndsWith(id, "-doc") then Some(Documentation)
    else None
  }

  /** An id with the suffix of a kind is routed to that kind. */
  lemma RouteOfSuffix(id: string, k: Kind)
    requires EndsWith(id, Suffix(k))
    ensures Route(id) == Some(k)
  {
    var tail := id[|id| - 4..];
    assert tail == Suffix(k);
    if k != Sql {
      assert tail[1] != 's';
      assert !EndsWith(id, "-sql");
    }
    if k == Documentation {
      assert tail[3] == 'c';
      assert !EndsWith(id, "-ddl");
    }
  }

  /** `remove_training_data(id)`: delete from the collection the suffix
      names and return True; any other id changes nothing and returns
      False. */
  function RemoveTrainingData(c: Collections, id: string): (r: (Collections, bool))
    ensures r.1 <==> Route(id).Some?
    ensures Route(id).None? ==> r.0 == c
    ensures Route(id).Some? ==> Get(r.0, Route(id).value) == Delete(Get(c, Route(id).value), id)
    ensures forall k :: Route(id) != Some(k) ==> Get(r.0, k) == Get(c, k)
  {
    match Route(id)
    case None => (c, false)
    case Some(k) => (With(c, k, Delete(Get(c, k), id)), true)
  }

  // ---------------------------------------------------------------------
  // add_question_sql, add_ddl, add_documentation

  /** Python's `str.isspace` for one character. */
  predicate IsSpace(ch: char) {
    var n := ch as int;
    (0x09 <= n <= 0x0D) || (0x1C <= n <= 0x20) || n == 0x85 || n == 0xA0 || n == 0x1680
    || (0x2000 <= n <= 0x200A) || n == 0x2028 || n == 0x2029 || n == 0x202F || n == 0x205F || n == 0x3000
  }

  /** `text is None or not text.strip()` */
  predicate Absent(text: Option<string>) {
    text.None? || forall i :: 0 <= i < |text.value| ==> IsSpace(text.value[i])
  }

  /** The dict literal each `add_*` serialises: the dataset first, then the
      type fields. */
  function DocumentFields(k: Kind, dataset: string, question: string, text: string): (f: Fields)
    ensures |f| >= 2 && f[0] == ("dataset", dataset) && f[|f| - 1] == (Name(k), text)
  {
    match k
    case Sql => [("dataset", dataset), ("question", question), ("sql", text)]
    case Ddl => [("dataset", dataset), ("ddl", text)]
    case Documentation => [("dataset", dataset), ("documentation", text)]
  }

  /** `f"{deterministic_uuid(doc_json)}-{doc_type}"` (`-doc` for
      documentation). */
  function DocId(h: Hashes, docJson: string, k: Kind): (id: string)
    ensures EndsWith(id, Suffix(k)) && |id| == 40
    ensures IsCanonicalUuid5(id[..36])
  {
    var u := DeterministicUuid(h, Text(docJson)).value;
    assert (u + Suffix(k))[..36] == u;
    u + Suffix(k)
  }

  /** Serialise, derive the id, insert. */
  function AddDocument(h: Hashes, codec: Codec, c: Collections, k: Kind, fields: Fields): (r: (Collections, string))
    ensures r.1 == DocId(h, codec.dumps(fields), k)
    ensures Get(r.0, k) == Insert(Get(c, k), Entry(r.1, codec.dumps(fields)))
    ensures forall k' :: k' != k ==> Get(r.0, k') == Get(c, k')
  {
    var docJson := codec.dumps(fields);
    var id := DocId(h, docJson, k);
    (With(c, k, Insert(Get(c, k), Entry(id, docJson))), id)
  }

  /** `add_question_sql(question, sql, dataset=…)`; `dataset` is None when
      the keyword is not given. Nothing is added, and None is returned, when
      either text is None or blank. */
  function AddQuestionSql(h: Hashes, codec: Codec, c: Collections, question: Option<string>, sql: Option<string>, dataset: Option<string>)
    : (r: (Collections, Option<string>))
    ensures Absent(question) || Absent(sql) <==> r.1.None?
    ensures r.1.None? ==> r.0 == c
    ensures r.1.Some? ==>
      var f := DocumentFields(Sql, dataset.GetOr("default"), question.value, sql.value);
      (r.0, r.1.value) == AddDocument(h, codec, c, Sql, f)
  {
    if Absent(question) || Absent(sql) then (c, None)
    else
      var f := DocumentFields(Sql, dataset.GetOr("default"), question.value, sql.value);
      var (c', id) := AddDocument(h, codec, c, Sql, f);
      (c', Some(id))
  }

  /** `add_ddl(ddl, dataset=…)` and `add_documentation(documentation,
      dataset=…)`. */
  function AddText(h: Hashes, codec: Codec, c: Collections, k: Kind, text: Option<string>, dataset: Option<string>)
    : (r: (Collections, Option<string>))
    requires k != Sql
    ensures Absent(text) <==> r.1.None?
    ensures r.1.None? ==> r.0 == c
    ensures r.1.Some? ==>
      (r.0, r.1.value) == AddDocument(h, codec, c, k, DocumentFields(k, dataset.GetOr("default"), "", text.value))
  {
    if Absent(text) then (c, None)
    else
      var (c', id) := AddDocument(h, codec, c, k, DocumentFields(k, dataset.GetOr("default"), "", text.value));
      (c', Some(id))
  }

  // ---------------------------------------------------------------------
  // The store invariant

  /** A stored document as the listing needs it: a dict with the dataset,
      the text under the collection's name and, for SQL, the question. */
  predicate WellFormed(codec: Codec, k: Kind, doc: string) {
    && IsObject(codec, doc)
    && "dataset" in ObjectOf(codec, doc)
    && Name(k) in ObjectOf(codec, doc)
    && (k == Sql ==> "question" in ObjectOf(codec, doc))
  }

  predicate UniqueIds(es: seq<Entry>) {
    forall i, j :: 0 <= i < j < |es| ==> es[i].id != es[j].id
  }

  /** Every id carries its collection's suffix, ids are unique, and every
      document is well formed. */
  predicate CollectionValid(codec: Codec, k: Kind, es: seq<Entry>) {
    && UniqueIds(es)
    && forall e :: e in es ==> EndsWith(e.id, Suffix(k)) && WellFormed(codec, k, e.document)
  }

  ghost predicate Valid(codec: Codec, c: Collections) {
    && RoundTrips(codec)
    && CollectionValid(codec, Sql, c.sql)
    && CollectionValid(codec, Ddl, c.ddl)
    && CollectionValid(codec, Documentation, c.documentation)
  }

  lemma ValidGet(codec: Codec, c: Collections, k: Kind)
    requires Valid(codec, c)
    ensures CollectionValid(codec, k, Get(c, k))
  {
  }

  lemma ValidWith(codec: Codec, c: Collections, k: Kind, es: seq<Entry>)
    requires Valid(codec, c) && CollectionValid(codec, k, es)
    ensures Valid(codec, With(c, k, es))
  {
    var r := With(c, k, es);
    assert forall k' :: CollectionValid(codec, k', Get(r, k'));
    assert Get(r, Sql) == r.sql && Get(r, Ddl) == r.ddl && Get(r, Documentation) == r.documentation;
  }

  /** A written document is read back as the dict written, so it is well
      formed. */
  lemma WrittenIsWellFormed(codec: Codec, k: Kind, dataset: string, question: string, text: string)
    requires RoundTrips(codec)
    ensures var f := DocumentFields(k, dataset, question, text);
      && IsObject(codec, codec.dumps(f))
      && ObjectOf(codec, codec.dumps(f)) == ToMap(f)
      && WellFormed(codec, k, codec.dumps(f))
      && ToMap(f)["dataset"] == JStr(dataset)
      && ToMap(f)[Name(k)] == JStr(text)
      && (k == Sql ==> ToMap(f)["question"] == JStr(question))
  {
    var f := DocumentFields(k, dataset, question, text);
    assert codec.loads(codec.dumps(f)) == Decoded(JObject(ToMap(f)));
    assert "dataset" != "question" by { assert "dataset"[0] != "question"[0]; }
    assert "dataset" != "sql" by { assert "dataset"[0] != "sql"[0]; }
    assert "question" != "sql" by { assert "question"[0] != "sql"[0]; }
    assert "dataset" != "ddl" by { assert "dataset"[1] != "ddl"[1]; }
    assert "dataset" != "documentation" by { assert "dataset"[1] != "documentation"[1]; }
    var d := map["dataset" := JStr(dataset)];
    assert f[..1] == [("dataset", dataset)];
    assert f[..1][..0] == [];
    assert ToMap(f[..1]) == d;
    match k
    case Sql =>
      assert f[..2] == [("dataset", dataset), ("question", question)];
      assert f[..2][..1] == f[..1];
      assert ToMap(f[..2]) == d["question" := JStr(question)];
      assert ToMap(f) == d["question" := JStr(question)]["sql" := JStr(text)];
    case Ddl =>
      assert ToMap(f) == d["ddl" := JStr(text)];
    case Documentation =>
      assert ToMap(f) == d["documentation" := JStr(text)];
  }

  lemma InsertValid(codec: Codec, k: Kind, es: seq<Entry>, e: Entry)
    requires CollectionValid(codec, k, es)
    requires EndsWith(e.id, Suffix(k)) && WellFormed(codec, k, e.document)
    ensures CollectionValid(codec, k, Insert(es, e))
  {
    if e.id !in Ids(es) {
      var r := es + [e];
      forall i, j | 0 <= i < j < |r| ensures r[i].id != r[j].id {
        if j == |es| {
          assert Ids(es)[i] == es[i].id;
        }
      }
    }
  }

  /** Adding keeps the store invariant: in particular the new id carries
      the suffix of the collection it is added to. */
  lemma {:induction false} AddDocumentValid(h: Hashes, codec: Codec, c: Collections, k: Kind, dataset: string, question: string, text: string)
    requires Valid(codec, c)
    ensures Valid(codec, AddDocument(h, codec, c, k, DocumentFields(k, dataset, question, text)).0)
  {
    var f := DocumentFields(k, dataset, question, text);
    WrittenIsWellFormed(codec, k, dataset, question, text);
    var e := Entry(DocId(h, codec.dumps(f), k), codec.dumps(f));
    InsertValid(codec, k, Get(c, k), e);
    ValidWith(codec, c, k, Insert(Get(c, k), e));
  }

  lemma AddQuestionSqlValid(h: Hashes, codec: Codec, c: Collections, question: Option<string>, sql: Option<string>, dataset: Option<string>)
    requires Valid(codec, c)
    ensures Valid(codec, AddQuestionSql(h, codec, c, question, sql, dataset).0)
  {
    if !(Absent(question) || Absent(sql)) {
      AddDocumentValid(h, codec, c, Sql, dataset.GetOr("default"), question.value, sql.value);
    }
  }

  lemma AddTextValid(h: Hashes, codec: Codec, c: Collections, k: Kind, text: Option<string>, dataset: Option<string>)
    requires Valid(codec, c) && k != Sql
    ensures Valid(codec, AddText(h, codec, c, k, text, dataset).0)
  {
    if !Absent(text) {
      AddDocumentValid(h, codec, c, k, dataset.GetOr("default"), "", text.value);
    }
  }

  /** Adding the same document twice is adding it once. */
  lemma AddDocumentIdempotent(h: Hashes, codec: Codec, c: Collections, k: Kind, fields: Fields)
    ensures var (c1, id1) := AddDocument(h, codec, c, k, fields);
      AddDocument(h, codec, c1, k, fields) == (c1, id1)
  {
    var (c1, id1) := AddDocument(h, codec, c, k, fields);
    var e := Entry(id1, codec.dumps(fields));
    assert e.id in Ids(Get(c1, k)) by {
      if e.id !in Ids(Get(c, k)) {
        assert Get(c1, k) == Get(c, k) + [e];
        assert Ids(Get(c1, k))[|Get(c, k)|] == e.id;
      }
    }
    assert With(c1, k, Get(c1, k)) == c1;
  }

  /** Removing a freshly added document by the id its add returned restores
      the store. */
  lemma AddThenRemove(h: Hashes, codec: Codec, c: Collections, k: Kind, fields: Fields)
    requires DocId(h, codec.dumps(fields), k) !in Ids(Get(c, k))
    ensures var (c1, id) := AddDocument(h, codec, c, k, fields);
      RemoveTrainingData(c1, id) == (c, true)
  {
    var (c1, id) := AddDocument(h, codec, c, k, fields);
    RouteOfSuffix(id, k);
    DeleteAppended(Get(c, k), Entry(id, codec.dumps(fields)));
    var r := RemoveTrainingData(c1, id).0;
    assert Get(r, Sql) == Get(c, Sql) && Get(r, Ddl) == Get(c, Ddl) && Get(r, Documentation) == Get(c, Documentation);
  }

  /** An id routed nowhere deletes nothing; an id routed to a collection
      deletes from that collection only, and keeps the invariant. */
  lemma RemoveTrainingDataValid(codec: Codec, c: Collections, id: string)
    requires Valid(codec, c)
    ensures Valid(codec, RemoveTrainingData(c, id).0)
  {
    if Route(id).Some? {
      var k := Route(id).value;
      var es := Get(c, k);
      var d := Delete(es, id);
      DeleteValid(codec, k, es, id);
      ValidWith(codec, c, k, d);
    }
  }

  lemma {:induction false} DeleteValid(codec: Codec, k: Kind, es: seq<Entry>, id: string)
    requires CollectionValid(codec, k, es)
    ensures CollectionValid(codec, k, Delete(es, id))
  {
    DeleteUnique(es, id);
  }

  lemma {:induction false} DeleteUnique(es: seq<Entry>, id: string)
    requires UniqueIds(es)
    ensures UniqueIds(Delete(es, id))
  {
    if es != [] {
      var tail := es[1..];
      assert UniqueIds(tail);
      DeleteUnique(tail, id);
      if es[0].id != id {
        var d := Delete(tail, id);
        forall e | e in d ensures e.id != es[0].id {
          var m :| 0 <= m < |tail| && tail[m] == e;
          assert es[m + 1] == e;
        }
        ConsUnique(es[0], d);
      }
    }
  }

  lemma ConsUnique(x: Entry, d: seq<Entry>)
    requires UniqueIds(d)
    requires forall e :: e in d ==> e.id != x.id
    ensures UniqueIds([x] + d)
  {
    var r := [x] + d;
    forall i, j | 0 <= i < j < |r| ensures r[i].id != r[j].id {
      if i == 0 {
        assert r[j] == d[j - 1];
      } else {
        assert r[i] == d[i - 1] && r[j] == d[j - 1];
      }
    }
  }
}
