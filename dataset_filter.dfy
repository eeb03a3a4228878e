/** `filter_collection_by_dataset(dataset, train_data)`: the entries of a
    collection listing that belong to one dataset.

    The listing is the `documents` and `ids` lists of a Chroma `get()`
    result (an absent key is the empty list). Each document is parsed in
    order; a parsed dict whose `"dataset"` (default `""`) equals the tag
    contributes its id and its dict. Any exception on the way (text that is
    not JSON, JSON that is not a dict, an id list that is too short) ends
    the scan, and what was collected up to then is returned. */
module DatasetFilter {
  import opened Common
  import opened Json

  /** The document at `n` parses to a dict. */
  predicate IsObject(codec: Codec, doc: string) {
    codec.loads(doc).Decoded? && codec.loads(doc).value.JObject?
  }

  function ObjectOf(codec: Codec, doc: string): map<string, JValue>
    requires IsObject(codec, doc)
  {
    codec.loads(doc).value.fields
  }

  /** `dic.get("dataset", "") == dataset` */
  predicate Matches(m: map<string, JValue>, dataset: string) {
    GetOr(m, "dataset", JStr("")) == JStr(dataset)
  }

  /** The scan raises at document `n`: it does not parse to a dict, or it
      matches and has no id. */
  predicate Fails(codec: Codec, dataset: string, docs: seq<string>, idList: seq<string>, n: nat)
    requires n < |docs|
  {
    !IsObject(codec, docs[n]) || (Matches(ObjectOf(codec, docs[n]), dataset) && n >= |idList|)
  }

  /** Ids and dicts, position by position. */
  datatype Matched = Matched(ids: seq<string>, documents: seq<map<string, JValue>>)

  /** What the scan collects from document `n` on. */
  function ScanFrom(codec: Codec, dataset: string, docs: seq<string>, idList: seq<string>, n: nat): (r: Matched)
    ensures |r.ids| == |r.documents|
    ensures forall i :: 0 <= i < |r.documents| ==> Matches(r.documents[i], dataset)
    decreases |docs| - n
  {
    if n >= |docs| then Matched([], [])
    else if Fails(codec, dataset, docs, idList, n) then Matched([], [])
    else
      var m := ObjectOf(codec, docs[n]);
      var rest := ScanFrom(codec, dataset, docs, idList, n + 1);
      if Matches(m, dataset) then Matched([idList[n]] + rest.ids, [m] + rest.documents)
      else rest
  }

  /** The result of `filter_collection_by_dataset`. */
  function Filter(codec: Codec, dataset: string, docs: seq<string>, idList: seq<string>): Matched {
    ScanFrom(codec, dataset, docs, idList, 0)
  }

  /** `filter_collection_by_dataset(dataset, {"documents": docs, "ids": idList})` */
  method FilterCollectionByDataset(codec: Codec, dataset: string, docs: seq<string>, idList: seq<string>)
    returns (ids: seq<string>, documents: seq<map<string, JValue>>)
    ensures Matched(ids, documents) == Filter(codec, dataset, docs, idList)
  {
    ids := [];
    documents := [];
    var n := 0;
    while n < |docs|
      invariant n <= |docs|
      invariant Filter(codec, dataset, docs, idList) ==
        Matched(ids + ScanFrom(codec, dataset, docs, idList, n).ids,
                documents + ScanFrom(codec, dataset, docs, idList, n).documents)
    {
      var loaded := codec.loads(docs[n]);
      if !loaded.Decoded? || !loaded.value.JObject? {
        break;  // json.loads raised, or `dic.get` on a non-dict did
      }
      var dic := loaded.value.fields;
      if GetOr(dic, "dataset", JStr("")) == JStr(dataset) {
        if n >= |idList| {
          break;  // id_list[n] raised IndexError
        }
        assert ids + ScanFrom(codec, dataset, docs, idList, n).ids
          == (ids + [idList[n]]) + ScanFrom(codec, dataset, docs, idList, n + 1).ids;
        assert documents + ScanFrom(codec, dataset, docs, idList, n).documents
          == (documents + [dic]) + ScanFrom(codec, dataset, docs, idList, n + 1).documents;
        ids := ids + [idList[n]];
        documents := documents + [dic];
      }
      n := n + 1;
    }
    assert ids + [] == ids && documents + [] == documents;
  }

  // ---------------------------------------------------------------------
  // What the scan returns, by position

  /** Where the scan stops: the first failing document from `n` on, or the
      end of the list. */
  function StopFrom(codec: Codec, dataset: string, docs: seq<string>, idList: seq<string>, n: nat): (s: nat)
    requires n <= |docs|
    ensures n <= s <= |docs|
    ensures s < |docs| ==> Fails(codec, dataset, docs, idList, s)
    ensures forall i :: n <= i < s ==> !Fails(codec, dataset, docs, idList, i)
    ensures forall i :: n <= i < s ==> IsObject(codec, docs[i])
    decreases |docs| - n
  {
    if n == |docs| || Fails(codec, dataset, docs, idList, n) then n
    else StopFrom(codec, dataset, docs, idList, n + 1)
  }

  /** The positions from `n` up to `stop` whose document matches, in order. */
  function MatchingPositions(codec: Codec, dataset: string, docs: seq<string>, n: nat, stop: nat): (ps: seq<nat>)
    requires n <= stop <= |docs|
    requires forall i :: n <= i < stop ==> IsObject(codec, docs[i])
    ensures forall j :: 0 <= j < |ps| ==> n <= ps[j] < stop && Matches(ObjectOf(codec, docs[ps[j]]), dataset)
    ensures forall j, k :: 0 <= j < k < |ps| ==> ps[j] < ps[k]
    ensures forall i :: n <= i < stop && Matches(ObjectOf(codec, docs[i]), dataset) ==> i in ps
    decreases stop - n
  {
    if n == stop then []
    else if Matches(ObjectOf(codec, docs[n]), dataset) then [n] + MatchingPositions(codec, dataset, docs, n + 1, stop)
    else MatchingPositions(codec, dataset, docs, n + 1, stop)
  }

  /** The ids at the given positions. */
  function IdsAt(idList: seq<string>, ps: seq<nat>): (r: seq<string>)
    requires forall j :: 0 <= j < |ps| ==> ps[j] < |idList|
    ensures |r| == |ps| && forall j :: 0 <= j < |ps| ==> r[j] == idList[ps[j]]
  {
    if ps == [] then [] else [idList[ps[0]]] + IdsAt(idList, ps[1..])
  }

  /** The dicts of the documents at the given positions. */
  function ObjectsAt(codec: Codec, docs: seq<string>, ps: seq<nat>): (r: seq<map<string, JValue>>)
    requires forall j :: 0 <= j < |ps| ==> ps[j] < |docs| && IsObject(codec, docs[ps[j]])
    ensures |r| == |ps| && forall j :: 0 <= j < |ps| ==> r[j] == ObjectOf(codec, docs[ps[j]])
  {
    if ps == [] then [] else [ObjectOf(codec, docs[ps[0]])] + ObjectsAt(codec, docs, ps[1..])
  }

  /** The scan returns exactly the matching documents before the first
      failure, in their original order, each with the id at its own
      position. */
  lemma {:induction false} ScanSelectsMatches(codec: Codec, dataset: string, docs: seq<string>, idList: seq<string>, n: nat)
    requires n <= |docs|
    ensures var ps := MatchingPositions(codec, dataset, docs, n, StopFrom(codec, dataset, docs, idList, n));
      && (forall j :: 0 <= j < |ps| ==> ps[j] < |idList|)
      && ScanFrom(codec, dataset, docs, idList, n) == Matched(IdsAt(idList, ps), ObjectsAt(codec, docs, ps))
    decreases |docs| - n
  {
    var stop := StopFrom(codec, dataset, docs, idList, n);
    if n < |docs| && !Fails(codec, dataset, docs, idList, n) {
      ScanSelectsMatches(codec, dataset, docs, idList, n + 1);
      assert stop == StopFrom(codec, dataset, docs, idList, n + 1);
      var ps := MatchingPositions(codec, dataset, docs, n, stop);
      var rest := MatchingPositions(codec, dataset, docs, n + 1, stop);
      if Matches(ObjectOf(codec, docs[n]), dataset) {
        assert ps == [n] + rest;
        assert ps[1..] == rest;
      } else {
        assert ps == rest;
      }
    }
  }

  /** A scan that meets no failure returns every matching document. */
  lemma FilterComplete(codec: Codec, dataset: string, docs: seq<string>, idList: seq<string>, i: nat)
    requires StopFrom(codec, dataset, docs, idList, 0) == |docs|
    requires i < |docs| && IsObject(codec, docs[i]) && Matches(ObjectOf(codec, docs[i]), dataset)
    ensures i < |idList|
    ensures idList[i] in Filter(codec, dataset, docs, idList).ids
    ensures ObjectOf(codec, docs[i]) in Filter(codec, dataset, docs, idList).documents
  {
    ScanSelectsMatches(codec, dataset, docs, idList, 0);
    var ps := MatchingPositions(codec, dataset, docs, 0, |docs|);
    var j :| 0 <= j < |ps| && ps[j] == i;
    var r := Filter(codec, dataset, docs, idList);
    assert r.ids[j] == idList[i];
    assert r.documents[j] == ObjectOf(codec, docs[i]);
  }

  /** When document `k` is the first to fail, the result is the result on
      the documents before it: nothing after a failure is looked at. */
  lemma {:induction false} FailureKeepsPrefix(codec: Codec, dataset: string, docs: seq<string>, idList: seq<string>, k: nat, n: nat)
    requires n <= k < |docs|
    requires Fails(codec, dataset, docs, idList, k)
    requires forall i :: n <= i < k ==> !Fails(codec, dataset, docs, idList, i)
    ensures ScanFrom(codec, dataset, docs, idList, n) == ScanFrom(codec, dataset, docs[..k], idList, n)
    decreases k - n
  {
    if n < k {
      FailureKeepsPrefix(codec, dataset, docs, idList, k, n + 1);
      assert docs[..k][n] == docs[n];
    }
  }
}
