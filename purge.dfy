/** `remove_collection` and `remove_collections`: deleting one dataset's
    training data from one or more collections. A purge lists the
    collection, keeps the ids whose document belongs to the dataset, and
    hands each id to `remove_training_data`, which routes it by its suffix. */
module Purge {
  import opened Common
  import opened Json
  import opened DatasetFilter
  import opened StoreSpec

  /** `for collection_id in ids: self.remove_training_data(id=collection_id)` */
  function RemoveAll(c: Collections, ids: seq<string>): Collections
    decreases |ids|
  {
    if ids == [] then c else RemoveAll(RemoveTrainingData(c, ids[0]).0, ids[1..])
  }

  /** The collection a `collection_name` names, if any. */
  function KindNamed(name: string): (r: Option<Kind>)
    ensures r.Some? ==> Name(r.value) == name
    ensures r.None? ==> forall k :: Name(k) != name
  {
    if name == "sql" then Some(Sql)
    else if name == "ddl" then Some(Ddl)
    else if name == "documentation" then Some(Documentation)
    else None
  }

  /** The ids `filter_collection_by_dataset` returns for one collection. */
  function DatasetIds(codec: Codec, c: Collections, k: Kind, dataset: string): seq<string> {
    Filter(codec, dataset, Docs(Get(c, k)), Ids(Get(c, k))).ids
  }

  /** `remove_collection(collection_name, dataset)`. Re-fetching the
      collection with `get_or_create_collection` leaves its contents as they
      are. */
  function RemoveCollection(codec: Codec, c: Collections, name: string, dataset: string): (r: (Collections, bool))
    ensures r.1 <==> KindNamed(name).Some?
    ensures !r.1 ==> r.0 == c
  {
    match KindNamed(name)
    case None => (c, false)
    case Some(k) => (RemoveAll(c, DatasetIds(codec, c, k, dataset)), true)
  }

  // ---------------------------------------------------------------------
  // What a purge leaves

  /** The entry's document is a dict of the dataset. */
  predicate EntryMatches(codec: Codec, dataset: string, e: Entry) {
    IsObject(codec, e.document) && Matches(ObjectOf(codec, e.document), dataset)
  }

  /** The entries not of the dataset, in order. */
  function Unmatched(codec: Codec, dataset: string, es: seq<Entry>): seq<Entry> {
    if es == [] then []
    else if EntryMatches(codec, dataset, es[0]) then Unmatched(codec, dataset, es[1..])
    else [es[0]] + Unmatched(codec, dataset, es[1..])
  }

  /** The entries left are exactly the entries not of the dataset. */
  lemma {:induction false} UnmatchedMembers(codec: Codec, dataset: string, es: seq<Entry>)
    ensures forall e :: e in Unmatched(codec, dataset, es) <==> e in es && !EntryMatches(codec, dataset, e)
  {
    if es != [] {
      UnmatchedMembers(codec, dataset, es[1..]);
      assert forall e :: e in es <==> e == es[0] || e in es[1..];
    }
  }

  /** The ids of the entries of the dataset, in order. */
  function MatchingIds(codec: Codec, dataset: string, es: seq<Entry>): (r: seq<string>)
    ensures forall x :: x in r ==> x in Ids(es)
  {
    if es == [] then []
    else if EntryMatches(codec, dataset, es[0]) then [es[0].id] + MatchingIds(codec, dataset, es[1..])
    else MatchingIds(codec, dataset, es[1..])
  }

  /** On a collection whose documents all parse to dicts, the filter's ids
      are the ids of the dataset's entries. */
  lemma {:induction false} FilterIdsOfParsed(codec: Codec, dataset: string, es: seq<Entry>, n: nat)
    requires n <= |es|
    requires forall e :: e in es ==> IsObject(codec, e.document)
    ensures ScanFrom(codec, dataset, Docs(es), Ids(es), n).ids == MatchingIds(codec, dataset, es[n..])
    decreases |es| - n
  {
    if n < |es| {
      FilterIdsOfParsed(codec, dataset, es, n + 1);
      assert es[n..][1..] == es[n + 1..];
      assert es[n..][0] == es[n];
    }
  }

  /** Deleting a list of ids one at a time. */
  function DeleteAll(es: seq<Entry>, ids: seq<string>): seq<Entry>
    decreases |ids|
  {
    if ids == [] then es else DeleteAll(Delete(es, ids[0]), ids[1..])
  }

  /** The entries whose id is not in `ids`. */
  function Without(es: seq<Entry>, ids: seq<string>): seq<Entry> {
    if es == [] then []
    else if es[0].id in ids then Without(es[1..], ids)
    else [es[0]] + Without(es[1..], ids)
  }

  lemma {:induction false} WithoutDelete(es: seq<Entry>, x: string, rest: seq<string>)
    ensures Without(Delete(es, x), rest) == Without(es, [x] + rest)
  {
    if es != [] {
      WithoutDelete(es[1..], x, rest);
    }
  }

  lemma {:induction false} DeleteAllIsWithout(es: seq<Entry>, ids: seq<string>)
    ensures DeleteAll(es, ids) == Without(es, ids)
    decreases |ids|
  {
    if ids == [] {
      WithoutNothing(es);
    } else {
      DeleteAllIsWithout(Delete(es, ids[0]), ids[1..]);
      WithoutDelete(es, ids[0], ids[1..]);
      assert [ids[0]] + ids[1..] == ids;
    }
  }

  lemma {:induction false} WithoutNothing(es: seq<Entry>)
    ensures Without(es, []) == es
  {
    if es != [] {
      WithoutNothing(es[1..]);
    }
  }

  /** An id no entry has is irrelevant to `Without`. */
  lemma {:induction false} WithoutIrrelevant(es: seq<Entry>, x: string, ids: seq<string>)
    requires x !in Ids(es)
    ensures Without(es, [x] + ids) == Without(es, ids)
  {
    if es != [] {
      assert Ids(es)[0] == es[0].id;
      assert x !in Ids(es[1..]) by {
        forall i | 0 <= i < |es[1..]| ensures Ids(es[1..])[i] != x {
          assert Ids(es[1..])[i] == Ids(es)[i + 1];
        }
      }
      WithoutIrrelevant(es[1..], x, ids);
    }
  }

  /** With unique ids, deleting the ids of the dataset's entries deletes
      exactly those entries. */
  lemma {:induction false} WithoutMatchingIds(codec: Codec, dataset: string, es: seq<Entry>)
    requires UniqueIds(es)
    ensures Without(es, MatchingIds(codec, dataset, es)) == Unmatched(codec, dataset, es)
  {
    if es != [] {
      var tail := es[1..];
      assert UniqueIds(tail);
      WithoutMatchingIds(codec, dataset, tail);
      assert es[0].id !in Ids(tail) by {
        forall i | 0 <= i < |tail| ensures Ids(tail)[i] != es[0].id {
          assert tail[i] == es[i + 1];
        }
      }
      if EntryMatches(codec, dataset, es[0]) {
        WithoutIrrelevant(tail, es[0].id, MatchingIds(codec, dataset, tail));
      }
    }
  }

  /** Deleting ids that all carry the suffix of `k` touches collection `k`
      only. */
  lemma {:induction false} RemoveAllOneKind(c: Collections, k: Kind, ids: seq<string>)
    requires forall x :: x in ids ==> EndsWith(x, Suffix(k))
    ensures RemoveAll(c, ids) == With(c, k, DeleteAll(Get(c, k), ids))
    decreases |ids|
  {
    if ids == [] {
      assert With(c, k, Get(c, k)) == c by {
        var w := With(c, k, Get(c, k));
        assert Get(w, Sql) == Get(c, Sql) && Get(w, Ddl) == Get(c, Ddl) && Get(w, Documentation) == Get(c, Documentation);
      }
    } else {
      RouteOfSuffix(ids[0], k);
      var c1 := RemoveTrainingData(c, ids[0]).0;
      assert c1 == With(c, k, Delete(Get(c, k), ids[0])) by {
        var w := With(c, k, Delete(Get(c, k), ids[0]));
        assert Get(w, Sql) == Get(c1, Sql) && Get(w, Ddl) == Get(c1, Ddl) && Get(w, Documentation) == Get(c1, Documentation);
      }
      RemoveAllOneKind(c1, k, ids[1..]);
      var w1 := With(c1, k, DeleteAll(Get(c1, k), ids[1..]));
      var w := With(c, k, DeleteAll(Get(c, k), ids));
      assert Get(w, Sql) == Get(w1, Sql) && Get(w, Ddl) == Get(w1, Ddl) && Get(w, Documentation) == Get(w1, Documentation);
    }
  }

  /** `remove_collection(name, dataset)` on a valid store leaves the named
      collection with exactly its entries of other datasets, in order, and
      the other collections as they were. */
  lemma PurgeRemovesDataset(codec: Codec, c: Collections, k: Kind, dataset: string)
    requires Valid(codec, c)
    ensures var r := RemoveCollection(codec, c, Name(k), dataset);
      && r.1
      && Get(r.0, k) == Unmatched(codec, dataset, Get(c, k))
      && forall k' :: k' != k ==> Get(r.0, k') == Get(c, k')
  {
    var es := Get(c, k);
    ValidGet(codec, c, k);
    assert KindNamed(Name(k)) == Some(k);
    var ids := DatasetIds(codec, c, k, dataset);
    FilterIdsOfParsed(codec, dataset, es, 0);
    assert es[0..] == es;
    assert ids == MatchingIds(codec, dataset, es);
    forall x | x in ids ensures EndsWith(x, Suffix(k)) {
      var i :| 0 <= i < |Ids(es)| && Ids(es)[i] == x;
      assert es[i] in es;
    }
    RemoveAllOneKind(c, k, ids);
    DeleteAllIsWithout(es, ids);
    WithoutMatchingIds(codec, dataset, es);
  }

  lemma {:induction false} RemoveAllValid(codec: Codec, c: Collections, ids: seq<string>)
    requires Valid(codec, c)
    ensures Valid(codec, RemoveAll(c, ids))
    decreases |ids|
  {
    if ids != [] {
      RemoveTrainingDataValid(codec, c, ids[0]);
      RemoveAllValid(codec, RemoveTrainingData(c, ids[0]).0, ids[1..]);
    }
  }

  lemma RemoveCollectionValid(codec: Codec, c: Collections, name: string, dataset: string)
    requires Valid(codec, c)
    ensures Valid(codec, RemoveCollection(codec, c, name, dataset).0)
  {
    if KindNamed(name).Some? {
      RemoveAllValid(codec, c, DatasetIds(codec, c, KindNamed(name).value, dataset));
    }
  }

  // ---------------------------------------------------------------------
  // remove_collections

  /** The `collection_name` argument: absent (None), a str, a list of str,
      or any other object, of which only its truthiness matters. */
  datatype CollectionArg = NoName | OneName(s: string) | NameList(items: seq<string>) | OtherArg(truthy: bool)

  predicate ArgTruthy(arg: CollectionArg) {
    match arg
    case NoName => false
    case OneName(s) => s != ""
    case NameList(items) => items != []
    case OtherArg(t) => t
  }

  /** The default of `ACCEPTED_TYPES`. */
  const AcceptedTypes: seq<string> := ["sql", "ddl", "documentation"]

  /** The names `remove_collections` walks through; None when it gives up. */
  function Requested(arg: CollectionArg, accepted: seq<string>): Option<seq<string>> {
    if !ArgTruthy(arg) then Some(accepted)
    else match arg
      case OneName(s) => Some([s])
      case NameList(items) => Some(items)
      case _ => None
  }

  /** The loop of `remove_collections`: unaccepted names are skipped. */
  function RemoveEach(codec: Codec, c: Collections, names: seq<string>, accepted: seq<string>, dataset: string): Collections
    decreases |names|
  {
    if names == [] then c
    else
      var c1 := if names[0] in accepted then RemoveCollection(codec, c, names[0], dataset).0 else c;
      RemoveEach(codec, c1, names[1..], accepted, dataset)
  }

  /** `remove_collections(dataset, collection_name, ACCEPTED_TYPES)` */
  function RemoveCollections(codec: Codec, c: Collections, dataset: string, arg: CollectionArg, accepted: seq<string>)
    : (r: (Collections, bool))
    ensures r.1 <==> Requested(arg, accepted).Some?
    ensures !r.1 ==> r.0 == c
  {
    match Requested(arg, accepted)
    case None => (c, false)
    case Some(names) => (RemoveEach(codec, c, names, accepted, dataset), true)
  }

  /** An argument of another type that is truthy changes nothing. */
  lemma OtherArgRejected(codec: Codec, c: Collections, dataset: string, accepted: seq<string>)
    ensures RemoveCollections(codec, c, dataset, OtherArg(true), accepted) == (c, false)
  {
  }

  lemma {:induction false} RemoveEachValid(codec: Codec, c: Collections, names: seq<string>, accepted: seq<string>, dataset: string)
    requires Valid(codec, c)
    ensures Valid(codec, RemoveEach(codec, c, names, accepted, dataset))
    decreases |names|
  {
    if names != [] {
      RemoveCollectionValid(codec, c, names[0], dataset);
      var c1 := if names[0] in accepted then RemoveCollection(codec, c, names[0], dataset).0 else c;
      RemoveEachValid(codec, c1, names[1..], accepted, dataset);
    }
  }

  /** A purge never removes an entry of another dataset. */
  lemma {:induction false} RemoveEachKeepsOthers(codec: Codec, c: Collections, names: seq<string>, accepted: seq<string>,
                                                 dataset: string, k: Kind, e: Entry)
    requires Valid(codec, c)
    requires e in Get(c, k) && !EntryMatches(codec, dataset, e)
    ensures e in Get(RemoveEach(codec, c, names, accepted, dataset), k)
    decreases |names|
  {
    if names != [] {
      var c1 := if names[0] in accepted then RemoveCollection(codec, c, names[0], dataset).0 else c;
      if names[0] in accepted && KindNamed(names[0]).Some? {
        var kn := KindNamed(names[0]).value;
        PurgeRemovesDataset(codec, c, kn, dataset);
        UnmatchedMembers(codec, dataset, Get(c, kn));
      }
      RemoveCollectionValid(codec, c, names[0], dataset);
      RemoveEachKeepsOthers(codec, c1, names[1..], accepted, dataset, k, e);
    }
  }

  /** Whatever it is asked to purge, `remove_collections` keeps the store
      invariant and every entry of another dataset. */
  lemma RemoveCollectionsKeepsOthers(codec: Codec, c: Collections, dataset: string, arg: CollectionArg,
                                     accepted: seq<string>, k: Kind, e: Entry)
    requires Valid(codec, c)
    requires e in Get(c, k) && !EntryMatches(codec, dataset, e)
    ensures var r := RemoveCollections(codec, c, dataset, arg, accepted).0;
      Valid(codec, r) && e in Get(r, k)
  {
    if Requested(arg, accepted).Some? {
      var names := Requested(arg, accepted).value;
      RemoveEachValid(codec, c, names, accepted, dataset);
      RemoveEachKeepsOthers(codec, c, names, accepted, dataset, k, e);
    }
  }

  /** Names outside the accepted list are skipped: asking only for them
      changes nothing. */
  lemma {:induction false} UnacceptedSkipped(codec: Codec, c: Collections, names: seq<string>, accepted: seq<string>, dataset: string)
    requires forall i :: 0 <= i < |names| ==> names[i] !in accepted
    ensures RemoveEach(codec, c, names, accepted, dataset) == c
    decreases |names|
  {
    if names != [] {
      UnacceptedSkipped(codec, c, names[1..], accepted, dataset);
    }
  }

  /** One step of the loop over an accepted name. */
  lemma RemoveEachAccepted(codec: Codec, c: Collections, names: seq<string>, accepted: seq<string>, dataset: string)
    requires names != [] && names[0] in accepted
    ensures RemoveEach(codec, c, names, accepted, dataset)
         == RemoveEach(codec, RemoveCollection(codec, c, names[0], dataset).0, names[1..], accepted, dataset)
  {
  }

  /** The default names purge `sql`, then `ddl`, then `documentation`. */
  lemma RemoveEachDefault(codec: Codec, c: Collections, dataset: string)
    ensures var c1 := RemoveCollection(codec, c, "sql", dataset).0;
      var c2 := RemoveCollection(codec, c1, "ddl", dataset).0;
      RemoveEach(codec, c, AcceptedTypes, AcceptedTypes, dataset) == RemoveCollection(codec, c2, "documentation", dataset).0
  {
    var a := AcceptedTypes;
    var c1 := RemoveCollection(codec, c, "sql", dataset).0;
    var c2 := RemoveCollection(codec, c1, "ddl", dataset).0;
    assert a[0] == "sql" && a[1..][0] == "ddl" && a[2..][0] == "documentation";
    RemoveEachAccepted(codec, c, a, a, dataset);
    RemoveEachAccepted(codec, c1, a[1..], a, dataset);
    assert a[1..][1..] == a[2..];
    RemoveEachAccepted(codec, c2, a[2..], a, dataset);
    assert a[2..][1..] == [];
  }

  /** With no name (or an empty one) and the default accepted types, every
      collection loses its entries of the dataset and keeps all others. */
  lemma PurgeAllByDefault(codec: Codec, c: Collections, dataset: string, arg: CollectionArg)
    requires Valid(codec, c) && !ArgTruthy(arg)
    ensures var r := RemoveCollections(codec, c, dataset, arg, AcceptedTypes);
      && r.1
      && forall k :: Get(r.0, k) == Unmatched(codec, dataset, Get(c, k))
  {
    assert Requested(arg, AcceptedTypes) == Some(AcceptedTypes);
    RemoveEachDefault(codec, c, dataset);
    var c1 := RemoveCollection(codec, c, "sql", dataset).0;
    PurgeRemovesDataset(codec, c, Sql, dataset);
    RemoveCollectionValid(codec, c, "sql", dataset);
    var c2 := RemoveCollection(codec, c1, "ddl", dataset).0;
    PurgeRemovesDataset(codec, c1, Ddl, dataset);
    RemoveCollectionValid(codec, c1, "ddl", dataset);
    var c3 := RemoveCollection(codec, c2, "documentation", dataset).0;
    PurgeRemovesDataset(codec, c2, Documentation, dataset);
    assert Get(c3, Sql) == Unmatched(codec, dataset, Get(c, Sql));
    assert Get(c3, Ddl) == Unmatched(codec, dataset, Get(c, Ddl));
    assert Get(c3, Documentation) == Unmatched(codec, dataset, Get(c, Documentation));
  }

  /** Purging a collection twice leaves what purging it once leaves. */
  lemma {:induction false} UnmatchedIdempotent(codec: Codec, dataset: string, es: seq<Entry>)
    ensures Unmatched(codec, dataset, Unmatched(codec, dataset, es)) == Unmatched(codec, dataset, es)
  {
    if es != [] {
      UnmatchedIdempotent(codec, dataset, es[1..]);
      if !EntryMatches(codec, dataset, es[0]) {
        var u := Unmatched(codec, dataset, es[1..]);
        assert ([es[0]] + u)[0] == es[0] && ([es[0]] + u)[1..] == u;
      }
    }
  }

  /** Every collection name is an accepted type, and names tell the
      collections apart. */
  lemma NameAccepted(k: Kind, k': Kind)
    ensures Name(k) in AcceptedTypes && KindNamed(Name(k)) == Some(k)
    ensures Name(k) == Name(k') ==> k == k'
  {
    assert KindNamed(Name(k')) == Some(k');
  }

  /** The loop over the default accepted types purges exactly the named
      collections, each once however often it is named. */
  lemma {:induction false} RemoveEachNamed(codec: Codec, c: Collections, names: seq<string>, dataset: string)
    requires Valid(codec, c)
    ensures forall k ::
      Get(RemoveEach(codec, c, names, AcceptedTypes, dataset), k) == if Name(k) in names then Unmatched(codec, dataset, Get(c, k)) else Get(c, k)
    decreases |names|
  {
    if names != [] {
      var n := names[0];
      var c1 := if n in AcceptedTypes then RemoveCollection(codec, c, n, dataset).0 else c;
      var r := RemoveEach(codec, c, names, AcceptedTypes, dataset);
      assert r == RemoveEach(codec, c1, names[1..], AcceptedTypes, dataset);
      assert forall k :: Name(k) in names <==> Name(k) == n || Name(k) in names[1..];
      RemoveCollectionValid(codec, c, n, dataset);
      RemoveEachNamed(codec, c1, names[1..], dataset);
      forall k
        ensures Get(r, k) == if Name(k) in names then Unmatched(codec, dataset, Get(c, k)) else Get(c, k)
      {
        NameAccepted(k, k);
        if n in AcceptedTypes && KindNamed(n).Some? {
          var kn := KindNamed(n).value;
          PurgeRemovesDataset(codec, c, kn, dataset);
          NameAccepted(k, kn);
          if k == kn {
            UnmatchedIdempotent(codec, dataset, Get(c, k));
          }
        }
      }
    }
  }

  /** `remove_collections(dataset, name)` with one accepted name purges that
      collection and leaves the other two as they were. */
  lemma OneNamePurges(codec: Codec, c: Collections, dataset: string, k: Kind)
    requires Valid(codec, c)
    ensures var r := RemoveCollections(codec, c, dataset, OneName(Name(k)), AcceptedTypes);
      && r.1
      && Get(r.0, k) == Unmatched(codec, dataset, Get(c, k))
      && forall k' :: k' != k ==> Get(r.0, k') == Get(c, k')
  {
    NameAccepted(k, k);
    assert Requested(OneName(Name(k)), AcceptedTypes) == Some([Name(k)]);
    RemoveEachAccepted(codec, c, [Name(k)], AcceptedTypes, dataset);
    assert [Name(k)][1..] == [];
    PurgeRemovesDataset(codec, c, k, dataset);
  }

  /** `remove_collections(dataset, names)` with a list: a non-empty list
      purges exactly the collections it names (unknown names are skipped,
      repeated ones change nothing more); an empty list purges them all. */
  lemma NameListPurges(codec: Codec, c: Collections, dataset: string, names: seq<string>)
    requires Valid(codec, c)
    ensures var r := RemoveCollections(codec, c, dataset, NameList(names), AcceptedTypes);
      && r.1
      && forall k :: Get(r.0, k) == if names == [] || Name(k) in names then Unmatched(codec, dataset, Get(c, k)) else Get(c, k)
  {
    if names == [] {
      PurgeAllByDefault(codec, c, dataset, NameList(names));
    } else {
      RemoveEachNamed(codec, c, names, dataset);
    }
  }
}
