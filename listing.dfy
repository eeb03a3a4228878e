/** `get_training_data(dataset=…)`: one table of the training data of a
    dataset, DDL rows first, then question/SQL rows, then documentation
    rows. Each collection is a block of its own: an exception while building
    a block (a document without one of the keys the rows read) drops that
    block and no other. The table is a sequence of row records. */
module Listing {
  import opened Common
  import opened Json
  import opened DatasetFilter
  import opened StoreSpec
  import opened Purge

  /** One row: `id`, `dataset`, `question` (None outside SQL), `content`,
      `training_data_type`. */
  datatype Row = Row(id: string, dataset: JValue, question: Option<JValue>, content: JValue, trainingDataType: string)

  /** The keys the rows of a block read from each dict. */
  predicate HasRowKeys(k: Kind, m: map<string, JValue>) {
    "dataset" in m && Name(k) in m && (k == Sql ==> "question" in m)
  }

  function RowOf(k: Kind, id: string, m: map<string, JValue>): (r: Row)
    requires HasRowKeys(k, m)
    ensures r.id == id && r.dataset == m["dataset"] && r.content == m[Name(k)] && r.trainingDataType == Name(k)
    ensures r.question == if k == Sql then Some(m["question"]) else None
  {
    Row(id, m["dataset"], if k == Sql then Some(m["question"]) else None, m[Name(k)], Name(k))
  }

  /** The block of one collection: the filter's result as rows, or nothing
      when a dict lacks a key. */
  function Block(codec: Codec, k: Kind, es: seq<Entry>, dataset: string): (rows: seq<Row>)
    ensures forall i :: 0 <= i < |rows| ==> rows[i].trainingDataType == Name(k)
  {
    var m := Filter(codec, dataset, Docs(es), Ids(es));
    if forall i :: 0 <= i < |m.documents| ==> HasRowKeys(k, m.documents[i]) then
      seq(|m.ids|, i requires 0 <= i < |m.ids| => RowOf(k, m.ids[i], m.documents[i]))
    else []
  }

  /** The table `get_training_data` returns; the dataset defaults to
      `"default"`. */
  function TrainingData(codec: Codec, c: Collections, dataset: Option<string>): seq<Row> {
    var ds := dataset.GetOr("default");
    Block(codec, Ddl, c.ddl, ds) + Block(codec, Sql, c.sql, ds) + Block(codec, Documentation, c.documentation, ds)
  }

  /** Every row belongs to the requested dataset. */
  lemma BlockOfDataset(codec: Codec, k: Kind, es: seq<Entry>, dataset: string)
    ensures forall r :: r in Block(codec, k, es, dataset) ==> r.dataset == JStr(dataset)
  {
    var m := Filter(codec, dataset, Docs(es), Ids(es));
    forall r | r in Block(codec, k, es, dataset) ensures r.dataset == JStr(dataset) {
      var i :| 0 <= i < |m.ids| && Block(codec, k, es, dataset)[i] == r;
      assert Matches(m.documents[i], dataset);
    }
  }

  lemma ListingOfDataset(codec: Codec, c: Collections, dataset: Option<string>)
    ensures forall r :: r in TrainingData(codec, c, dataset) ==> r.dataset == JStr(dataset.GetOr("default"))
  {
    var ds := dataset.GetOr("default");
    BlockOfDataset(codec, Ddl, c.ddl, ds);
    BlockOfDataset(codec, Sql, c.sql, ds);
    BlockOfDataset(codec, Documentation, c.documentation, ds);
  }

  /** The position of a type in the table. */
  function Rank(trainingDataType: string): nat {
    if trainingDataType == "ddl" then 0 else if trainingDataType == "sql" then 1 else 2
  }

  /** Three blocks of one type each, in rank order, concatenate to a table
      in rank order. */
  lemma BlocksInRankOrder(a: seq<Row>, b: seq<Row>, d: seq<Row>, ta: string, tb: string, td: string)
    requires AllOfType(a, ta) && AllOfType(b, tb) && AllOfType(d, td)
    requires Rank(ta) <= Rank(tb) <= Rank(td)
    ensures var rows := a + b + d;
      forall i, j :: 0 <= i < j < |rows| ==> Rank(rows[i].trainingDataType) <= Rank(rows[j].trainingDataType)
  {
    var rows := a + b + d;
    forall i | 0 <= i < |rows|
      ensures rows[i].trainingDataType == if i < |a| then ta else if i < |a| + |b| then tb else td
    {
      if i < |a| {
        assert rows[i] == a[i];
      } else if i < |a| + |b| {
        assert rows[i] == b[i - |a|];
      } else {
        assert rows[i] == d[i - |a| - |b|];
      }
    }
  }

  /** DDL rows come first, then SQL rows, then documentation rows. */
  lemma ListingInTypeOrder(codec: Codec, c: Collections, dataset: Option<string>)
    ensures var rows := TrainingData(codec, c, dataset);
      forall i, j :: 0 <= i < j < |rows| ==> Rank(rows[i].trainingDataType) <= Rank(rows[j].trainingDataType)
  {
    var ds := dataset.GetOr("default");
    var a, b, d := Block(codec, Ddl, c.ddl, ds), Block(codec, Sql, c.sql, ds), Block(codec, Documentation, c.documentation, ds);
    assert "sql" != "ddl" by { assert "sql"[0] != "ddl"[0]; }
    BlocksInRankOrder(a, b, d, "ddl", "sql", "documentation");
  }

  /** The rows of a type. */
  function OfType(rows: seq<Row>, t: string): seq<Row> {
    if rows == [] then []
    else if rows[0].trainingDataType == t then [rows[0]] + OfType(rows[1..], t)
    else OfType(rows[1..], t)
  }

  lemma {:induction false} OfTypeAppend(a: seq<Row>, b: seq<Row>, t: string)
    ensures OfType(a + b, t) == OfType(a, t) + OfType(b, t)
  {
    if a == [] {
      assert a + b == b;
    } else {
      assert (a + b)[1..] == a[1..] + b;
      OfTypeAppend(a[1..], b, t);
    }
  }

  lemma {:induction false} OfTypeAll(rows: seq<Row>, t: string)
    requires forall i :: 0 <= i < |rows| ==> rows[i].trainingDataType == t
    ensures OfType(rows, t) == rows
  {
    if rows != [] {
      OfTypeAll(rows[1..], t);
    }
  }

  lemma {:induction false} OfTypeNone(rows: seq<Row>, t: string)
    requires forall i :: 0 <= i < |rows| ==> rows[i].trainingDataType != t
    ensures OfType(rows, t) == []
  {
    if rows != [] {
      OfTypeNone(rows[1..], t);
    }
  }

  /** Rows that are all of one type. */
  predicate AllOfType(rows: seq<Row>, t: string) {
    forall i :: 0 <= i < |rows| ==> rows[i].trainingDataType == t
  }

  /** Selecting a type from three blocks of one type each keeps the blocks of
      that type, in order. */
  lemma OfTypeOfBlocks(a: seq<Row>, b: seq<Row>, d: seq<Row>, ta: string, tb: string, td: string, t: string)
    requires AllOfType(a, ta) && AllOfType(b, tb) && AllOfType(d, td)
    ensures OfType(a + b + d, t) == (if ta == t then a else []) + (if tb == t then b else []) + (if td == t then d else [])
  {
    OfTypeAppend(a + b, d, t);
    OfTypeAppend(a, b, t);
    if ta == t { OfTypeAll(a, t); } else { OfTypeNone(a, t); }
    if tb == t { OfTypeAll(b, t); } else { OfTypeNone(b, t); }
    if td == t { OfTypeAll(d, t); } else { OfTypeNone(d, t); }
  }

  /** The rows of each type are the block of that type's collection and
      depend on that collection alone: a collection that fails to list
      costs only its own rows. */
  lemma ListingRowsOfType(codec: Codec, c: Collections, dataset: Option<string>, k: Kind)
    ensures OfType(TrainingData(codec, c, dataset), Name(k)) == Block(codec, k, Get(c, k), dataset.GetOr("default"))
  {
    var ds := dataset.GetOr("default");
    var a, b, d := Block(codec, Ddl, c.ddl, ds), Block(codec, Sql, c.sql, ds), Block(codec, Documentation, c.documentation, ds);
    OfTypeOfBlocks(a, b, d, "ddl", "sql", "documentation", Name(k));
    assert "sql" != "ddl" by { assert "sql"[0] != "ddl"[0]; }
    assert "documentation" != "ddl" by { assert "documentation"[1] != "ddl"[1]; }
    assert "documentation" != "sql" by { assert "documentation"[0] != "sql"[0]; }
  }

  // ---------------------------------------------------------------------
  // Added data is listed

  /** The entries of the dataset, in order. */
  function MatchingEntries(codec: Codec, dataset: string, es: seq<Entry>): (r: seq<Entry>)
    ensures forall e :: e in r ==> e in es && EntryMatches(codec, dataset, e)
  {
    if es == [] then []
    else if EntryMatches(codec, dataset, es[0]) then [es[0]] + MatchingEntries(codec, dataset, es[1..])
    else MatchingEntries(codec, dataset, es[1..])
  }

  function ObjectsOf(codec: Codec, es: seq<Entry>): (r: seq<map<string, JValue>>)
    requires forall e :: e in es ==> IsObject(codec, e.document)
    ensures |r| == |es| && forall i :: 0 <= i < |es| ==> r[i] == ObjectOf(codec, es[i].document)
  {
    if es == [] then [] else [ObjectOf(codec, es[0].document)] + ObjectsOf(codec, es[1..])
  }

  /** On a collection whose documents all parse to dicts, the filter returns
      the ids and dicts of the dataset's entries. */
  lemma {:induction false} FilterOfParsed(codec: Codec, dataset: string, es: seq<Entry>, n: nat)
    requires n <= |es|
    requires forall e :: e in es ==> IsObject(codec, e.document)
    ensures var sel := MatchingEntries(codec, dataset, es[n..]);
      ScanFrom(codec, dataset, Docs(es), Ids(es), n) == Matched(Ids(sel), ObjectsOf(codec, sel))
    decreases |es| - n
  {
    if n < |es| {
      FilterOfParsed(codec, dataset, es, n + 1);
      assert es[n..][1..] == es[n + 1..];
      assert es[n..][0] == es[n];
    }
  }

  lemma {:induction false} MatchingEntriesAppend(codec: Codec, dataset: string, es: seq<Entry>, e: Entry)
    requires EntryMatches(codec, dataset, e)
    ensures MatchingEntries(codec, dataset, es + [e]) == MatchingEntries(codec, dataset, es) + [e]
  {
    if es == [] {
      assert [e][1..] == [];
    } else {
      assert (es + [e])[1..] == es[1..] + [e];
      MatchingEntriesAppend(codec, dataset, es[1..], e);
    }
  }

  /** After `add_ddl` or `add_documentation` of new text, the listing of its
      dataset ends its block with the new row. */
  lemma AddedTextListed(h: Uuid.Hashes, codec: Codec, c: Collections, k: Kind, text: string, dataset: string)
    requires Valid(codec, c) && k != Sql && !Absent(Some(text))
    requires DocId(h, codec.dumps(DocumentFields(k, dataset, "", text)), k) !in Ids(Get(c, k))
    ensures var r := AddText(h, codec, c, k, Some(text), Some(dataset));
      && r.1.Some?
      && Row(r.1.value, JStr(dataset), None, JStr(text), Name(k)) in TrainingData(codec, r.0, Some(dataset))
  {
    var r := AddText(h, codec, c, k, Some(text), Some(dataset));
    AddedRowInBlock(h, codec, c, k, dataset, "", text);
    ListingRowsOfType(codec, r.0, Some(dataset), k);
    OfTypeSubset(TrainingData(codec, r.0, Some(dataset)), Name(k));
    var rows := Block(codec, k, Get(r.0, k), dataset);
    assert rows[|rows| - 1] in rows;
  }

  /** After `add_question_sql` of a new pair, the listing of its dataset
      holds the new row with its question. */
  lemma AddedQuestionSqlListed(h: Uuid.Hashes, codec: Codec, c: Collections, question: string, sql: string, dataset: string)
    requires Valid(codec, c) && !Absent(Some(question)) && !Absent(Some(sql))
    requires DocId(h, codec.dumps(DocumentFields(Sql, dataset, question, sql)), Sql) !in Ids(Get(c, Sql))
    ensures var r := AddQuestionSql(h, codec, c, Some(question), Some(sql), Some(dataset));
      && r.1.Some?
      && Row(r.1.value, JStr(dataset), Some(JStr(question)), JStr(sql), "sql") in TrainingData(codec, r.0, Some(dataset))
  {
    var r := AddQuestionSql(h, codec, c, Some(question), Some(sql), Some(dataset));
    AddedRowInBlock(h, codec, c, Sql, dataset, question, sql);
    ListingRowsOfType(codec, r.0, Some(dataset), Sql);
    OfTypeSubset(TrainingData(codec, r.0, Some(dataset)), "sql");
    var rows := Block(codec, Sql, Get(r.0, Sql), dataset);
    assert rows[|rows| - 1] in rows;
  }

  lemma {:induction false} OfTypeSubset(rows: seq<Row>, t: string)
    ensures forall r :: r in OfType(rows, t) ==> r in rows
  {
    if rows != [] {
      OfTypeSubset(rows[1..], t);
    }
  }

  /** On a well-formed collection the filter returns the dataset's
      entries, each of whose dicts has the keys the rows read. */
  lemma FilterOfWellFormed(codec: Codec, k: Kind, es: seq<Entry>, dataset: string)
    requires forall x :: x in es ==> WellFormed(codec, k, x.document)
    ensures var sel := MatchingEntries(codec, dataset, es);
      var m := Filter(codec, dataset, Docs(es), Ids(es));
      && m == Matched(Ids(sel), ObjectsOf(codec, sel))
      && forall i :: 0 <= i < |m.documents| ==> HasRowKeys(k, m.documents[i])
  {
    FilterOfParsed(codec, dataset, es, 0);
    assert es[0..] == es;
    var sel := MatchingEntries(codec, dataset, es);
    forall i | 0 <= i < |sel| ensures HasRowKeys(k, ObjectsOf(codec, sel)[i]) {
      assert sel[i] in sel;
    }
  }

  /** A block whose dicts all have the row keys holds one row per result. */
  lemma BlockRows(codec: Codec, k: Kind, es: seq<Entry>, dataset: string, i: nat)
    requires var m := Filter(codec, dataset, Docs(es), Ids(es));
      && i < |m.ids|
      && forall j :: 0 <= j < |m.documents| ==> HasRowKeys(k, m.documents[j])
    ensures var m := Filter(codec, dataset, Docs(es), Ids(es));
      var rows := Block(codec, k, es, dataset);
      i < |rows| && rows[i] == RowOf(k, m.ids[i], m.documents[i])
  {
  }

  /** The last of the matched entries gives the last id and dict. */
  lemma MatchedLast(codec: Codec, sel: seq<Entry>, e: Entry)
    requires forall x :: x in sel + [e] ==> IsObject(codec, x.document)
    ensures var m := Matched(Ids(sel + [e]), ObjectsOf(codec, sel + [e]));
      && |m.ids| == |sel| + 1
      && m.ids[|sel|] == e.id
      && m.documents[|sel|] == ObjectOf(codec, e.document)
  {
    assert (sel + [e])[|sel|] == e;
  }

  /** Appending a document of the dataset to a well-formed collection
      appends its row to the collection's block. */
  lemma BlockEndsWith(codec: Codec, k: Kind, es: seq<Entry>, e: Entry, dataset: string)
    requires forall x :: x in es ==> WellFormed(codec, k, x.document)
    requires WellFormed(codec, k, e.document) && EntryMatches(codec, dataset, e)
    ensures var rows := Block(codec, k, es + [e], dataset);
      |rows| > 0 && rows[|rows| - 1] == RowOf(k, e.id, ObjectOf(codec, e.document))
  {
    var es1 := es + [e];
    assert forall x :: x in es1 ==> WellFormed(codec, k, x.document);
    FilterOfWellFormed(codec, k, es1, dataset);
    MatchingEntriesAppend(codec, dataset, es, e);
    var sel := MatchingEntries(codec, dataset, es);
    MatchedLast(codec, sel, e);
    BlockRows(codec, k, es1, dataset, |sel|);
  }

  /** The row of a document the store wrote holds the written values. */
  lemma RowOfWritten(codec: Codec, k: Kind, dataset: string, question: string, text: string, id: string)
    requires RoundTrips(codec)
    ensures var doc := codec.dumps(DocumentFields(k, dataset, question, text));
      && WellFormed(codec, k, doc)
      && RowOf(k, id, ObjectOf(codec, doc)) == Row(id, JStr(dataset), if k == Sql then Some(JStr(question)) else None, JStr(text), Name(k))
  {
    WrittenIsWellFormed(codec, k, dataset, question, text);
  }

  /** The block of a collection a new document was added to ends with the
      document's row. */
  lemma AddedRowInBlock(h: Uuid.Hashes, codec: Codec, c: Collections, k: Kind, dataset: string, question: string, text: string)
    requires Valid(codec, c)
    requires DocId(h, codec.dumps(DocumentFields(k, dataset, question, text)), k) !in Ids(Get(c, k))
    ensures var r := AddDocument(h, codec, c, k, DocumentFields(k, dataset, question, text));
      var rows := Block(codec, k, Get(r.0, k), dataset);
      && |rows| > 0
      && rows[|rows| - 1] == Row(r.1, JStr(dataset), if k == Sql then Some(JStr(question)) else None, JStr(text), Name(k))
  {
    var f := DocumentFields(k, dataset, question, text);
    var r := AddDocument(h, codec, c, k, f);
    var e := Entry(r.1, codec.dumps(f));
    assert Get(r.0, k) == Get(c, k) + [e];
    ValidGet(codec, c, k);
    RowOfWritten(codec, k, dataset, question, text, r.1);
    WrittenIsWellFormed(codec, k, dataset, question, text);
    assert EntryMatches(codec, dataset, e);
    BlockEndsWith(codec, k, Get(c, k), e, dataset);
  }
}
