/** `_extract_documents(query_results)`: the documents of a Chroma query
    result. A query for one text answers with one list of document texts;
    those are parsed as JSON when every one of them parses, and returned as
    texts otherwise. */
module Extract {
  import opened Common
  import opened Json

  /** An element of the `documents` list of a query result: a list of
      texts (one per query text), or anything else. */
  datatype DocItem = DocList(texts: seq<string>) | Scalar(v: JValue)

  /** A query result: its `documents` entry, if it has one. */
  datatype QueryResult = QueryResult(documents: Option<seq<DocItem>>)

  /** What `_extract_documents` returns. */
  datatype Extracted =
    | Items(items: seq<DocItem>)     // the `documents` list as it is
    | Texts(texts: seq<string>)      // the single inner list, unparsed
    | Values(values: seq<Parsed>)    // the single inner list, parsed
    | NoDocuments                    // `None`: the result has no `documents`

  /** `[json.loads(doc) for doc in texts]`, or None when one of them raises. */
  function LoadAll(codec: Codec, texts: seq<string>): (r: Option<seq<Parsed>>)
    ensures r.Some? <==> forall i :: 0 <= i < |texts| ==> codec.loads(texts[i]).Decoded?
    ensures r.Some? ==> |r.value| == |texts| && forall i :: 0 <= i < |texts| ==> r.value[i] == codec.loads(texts[i]).value
  {
    if texts == [] then Some([])
    else
      var head := codec.loads(texts[0]);
      match LoadAll(codec, texts[1..])
      case None => None
      case Some(rest) => if head.Decoded? then Some([head.value] + rest) else None
  }

  /** `_extract_documents(query_results)`; `None` for `query_results` is the
      outer None. */
  function ExtractDocuments(codec: Codec, queryResults: Option<QueryResult>): (r: Extracted)
    ensures queryResults.None? ==> r == Items([])
    ensures queryResults.Some? && queryResults.value.documents.None? ==> r == NoDocuments
    ensures queryResults.Some? && queryResults.value.documents.Some? ==>
      var docs := queryResults.value.documents.value;
      && (!(|docs| == 1 && docs[0].DocList?) ==> r == Items(docs))
      && (|docs| == 1 && docs[0].DocList? ==>
            var texts := docs[0].texts;
            && ((forall i :: 0 <= i < |texts| ==> codec.loads(texts[i]).Decoded?) <==> r.Values?)
            && (r.Values? ==> |r.values| == |texts| && forall i :: 0 <= i < |texts| ==> r.values[i] == codec.loads(texts[i]).value)
            && (!r.Values? ==> r == Texts(texts)))
  {
    match queryResults
    case None => Items([])
    case Some(q) =>
      match q.documents
      case None => NoDocuments
      case Some(docs) =>
        if |docs| == 1 && docs[0].DocList? then
          match LoadAll(codec, docs[0].texts)
          case Some(vs) => Values(vs)
          case None => Texts(docs[0].texts)
        else Items(docs)
  }

  /** The texts `json.dumps` writes for the given dicts. */
  function DumpAll(codec: Codec, fs: seq<Fields>): (r: seq<string>)
    ensures |r| == |fs| && forall i :: 0 <= i < |fs| ==> r[i] == codec.dumps(fs[i])
  {
    if fs == [] then [] else [codec.dumps(fs[0])] + DumpAll(codec, fs[1..])
  }

  /** The dicts those texts hold. */
  function ObjectsOfFields(fs: seq<Fields>): (r: seq<Parsed>)
    ensures |r| == |fs| && forall i :: 0 <= i < |fs| ==> r[i] == JObject(ToMap(fs[i]))
  {
    if fs == [] then [] else [JObject(ToMap(fs[0]))] + ObjectsOfFields(fs[1..])
  }

  /** A query that answers with documents the store wrote gives back the
      dicts that were written, in the order of the answer. */
  lemma ExtractWritten(codec: Codec, fs: seq<Fields>)
    requires RoundTrips(codec)
    ensures ExtractDocuments(codec, Some(QueryResult(Some([DocList(DumpAll(codec, fs))])))) == Values(ObjectsOfFields(fs))
  {
    var texts := DumpAll(codec, fs);
    forall i | 0 <= i < |texts| ensures codec.loads(texts[i]) == Decoded(JObject(ToMap(fs[i]))) {
      assert texts[i] == codec.dumps(fs[i]);
    }
  }

  /** One text that does not parse makes the whole list come back as
      texts. */
  lemma OneBadTextKeepsTexts(codec: Codec, texts: seq<string>, i: nat)
    requires i < |texts| && codec.loads(texts[i]) == ParseError
    ensures ExtractDocuments(codec, Some(QueryResult(Some([DocList(texts)])))) == Texts(texts)
  {
  }
}
