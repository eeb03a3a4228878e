/** `convert_to_string_list`: one line of text per row of a business-term
    table. The table is a sequence of rows; each cell holds the text that
    Python's f-string formatting makes of it. */
module BusinessTerms {
  import opened Common

  datatype TermRow = TermRow(
    businessTerm: string,
    businessDescription: string,
    relatedTables: string,
    relatedColumns: string)

  /** One `key : value; ` segment of a formatted row. */
  function Segment(key: string, value: string): string {
    key + " : " + value + "; "
  }

  /** The text of one row:
      `business_term : …; business_description : …; related_tables : …; related_columns : …; ` */
  function FormatRow(row: TermRow): string {
    Segment("business_term", row.businessTerm)
    + Segment("business_description", row.businessDescription)
    + Segment("related_tables", row.relatedTables)
    + Segment("related_columns", row.relatedColumns)
  }

  /** `convert_to_string_list(df)`: iterate over the rows in order, appending
      each row's text. */
  method ConvertToStringList(rows: seq<TermRow>) returns (result: seq<string>)
    ensures |result| == |rows|
    ensures forall i :: 0 <= i < |rows| ==> result[i] == FormatRow(rows[i])
  {
    result := [];
    for i := 0 to |rows|
      invariant |result| == i
      invariant forall k :: 0 <= k < i ==> result[k] == FormatRow(rows[k])
    {
      result := result + [FormatRow(rows[i])];
    }
  }

  // ---------------------------------------------------------------------
  // Reading a formatted row back

  /** Read one `key : value; ` segment off the front of `s`; the value ends
      at the first `;`. Returns the value and what follows the segment. */
  function ReadSegment(key: string, s: string): Option<(string, string)> {
    var head := key + " : ";
    if |s| < |head| || s[..|head|] != head then None
    else
      var rest := s[|head|..];
      match FirstIndex(rest, ';')
      case None => None
      case Some(j) =>
        if j + 1 < |rest| && rest[j + 1] == ' ' then Some((rest[..j], rest[j + 2..])) else None
  }

  /** The column names, in the order a row is written. */
  const RowKeys: seq<string> := ["business_term", "business_description", "related_tables", "related_columns"]

  /** The segments for the given keys and values, in order. */
  function Segments(keys: seq<string>, values: seq<string>): string
    requires |keys| == |values|
  {
    if keys == [] then [] else Segment(keys[0], values[0]) + Segments(keys[1..], values[1..])
  }

  /** Read one segment per key, in order, and nothing after them. */
  function ReadSegments(keys: seq<string>, s: string): (r: Option<seq<string>>)
    ensures r.Some? ==> |r.value| == |keys|
  {
    if keys == [] then (if s == [] then Some([]) else None)
    else match ReadSegment(keys[0], s)
      case None => None
      case Some((v, rest)) =>
        match ReadSegments(keys[1..], rest)
        case None => None
        case Some(vs) => Some([v] + vs)
  }

  /** Read a whole formatted row. */
  function ReadRow(s: string): Option<TermRow> {
    match ReadSegments(RowKeys, s)
    case None => None
    case Some(vs) => Some(TermRow(vs[0], vs[1], vs[2], vs[3]))
  }

  predicate NoSemicolon(v: string) {
    forall k :: 0 <= k < |v| ==> v[k] != ';'
  }

  /** A segment whose value holds no `;` reads back as that value, leaving
      what followed it. */
  lemma ReadSegmentOfSegment(key: string, v: string, tail: string)
    requires NoSemicolon(v)
    ensures ReadSegment(key, Segment(key, v) + tail) == Some((v, tail))
  {
    var head := key + " : ";
    var s := Segment(key, v) + tail;
    assert s == head + (v + ";" + (" " + tail));
    assert s[..|head|] == head;
    var rest := s[|head|..];
    assert rest == v + ";" + (" " + tail);
    FirstIndexAfter(v, ';', " " + tail);
    assert rest[..|v|] == v;
    assert rest[|v| + 2..] == tail;
  }

  /** Segments whose values hold no `;` read back as those values. */
  lemma {:induction false} ReadSegmentsOfSegments(keys: seq<string>, values: seq<string>)
    requires |keys| == |values|
    requires forall i :: 0 <= i < |values| ==> NoSemicolon(values[i])
    ensures ReadSegments(keys, Segments(keys, values)) == Some(values)
  {
    if keys != [] {
      var tail := Segments(keys[1..], values[1..]);
      ReadSegmentOfSegment(keys[0], values[0], tail);
      ReadSegmentsOfSegments(keys[1..], values[1..]);
      assert [values[0]] + values[1..] == values;
    }
  }

  /** A row's text is its four segments. */
  lemma FormatRowIsSegments(row: TermRow)
    ensures FormatRow(row) == Segments(RowKeys, [row.businessTerm, row.businessDescription, row.relatedTables, row.relatedColumns])
  {
    var vs := [row.businessTerm, row.businessDescription, row.relatedTables, row.relatedColumns];
    assert Segments(RowKeys[3..], vs[3..]) == Segment("related_columns", row.relatedColumns) by {
      assert RowKeys[3..][1..] == [];
    }
    assert Segments(RowKeys[2..], vs[2..]) == Segment("related_tables", row.relatedTables) + Segments(RowKeys[3..], vs[3..]) by {
      assert RowKeys[2..][1..] == RowKeys[3..] && vs[2..][1..] == vs[3..];
    }
    assert Segments(RowKeys[1..], vs[1..]) == Segment("business_description", row.businessDescription) + Segments(RowKeys[2..], vs[2..]) by {
      assert RowKeys[1..][1..] == RowKeys[2..] && vs[1..][1..] == vs[2..];
    }
  }

  /** The row text determines the row: reading it back gives the row again,
      as long as no cell contains `;`. */
  lemma ReadRowOfFormatRow(row: TermRow)
    requires NoSemicolon(row.businessTerm) && NoSemicolon(row.businessDescription)
    requires NoSemicolon(row.relatedTables) && NoSemicolon(row.relatedColumns)
    ensures ReadRow(FormatRow(row)) == Some(row)
  {
    var vs := [row.businessTerm, row.businessDescription, row.relatedTables, row.relatedColumns];
    FormatRowIsSegments(row);
    ReadSegmentsOfSegments(RowKeys, vs);
  }
}
