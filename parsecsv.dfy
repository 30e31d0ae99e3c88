/**
 * pkg/parsing/parsecsv.go: the naive comma-splitting CSV reader. The header
 * line names the columns; each requested field is found in it ignoring case,
 * and every later line with enough columns yields one row of the requested
 * fields, in the order they were requested, with one surrounding double
 * quote stripped from each end of a value.
 *
 * The scanner's input is modelled as the sequence of its lines, and the
 * channel the rows are sent on as the sequence of rows it delivers.
 */
module ParseCsv {
  import opened Types
  import opened Errors
  import opened Text

  // ---------------------------------------------------------------------------
  // getFieldOrder

  /** The index of the first heading at or after `j` equal to `name` ignoring case. */
  function FirstFold(name: string, headers: seq<string>, j: nat): (r: Option<nat>)
    requires j <= |headers|
    ensures r.Some? ==> j <= r.value < |headers| && EqualFold(name, headers[r.value])
    ensures r.Some? ==> forall k :: j <= k < r.value ==> !EqualFold(name, headers[k])
    ensures r.None? ==> forall k :: j <= k < |headers| ==> !EqualFold(name, headers[k])
    decreases |headers| - j
  {
    if j == |headers| then None
    else if EqualFold(name, headers[j]) then Some(j)
    else FirstFold(name, headers, j + 1)
  }

  /** The heading index of every field that has one, in field order; fields without one are left out. */
  function FieldOrder(fields: seq<string>, headers: seq<string>): (order: seq<nat>)
    ensures |order| <= |fields|
    ensures forall k :: 0 <= k < |order| ==> order[k] < |headers|
  {
    if fields == [] then []
    else
      var front := FieldOrder(fields[..|fields| - 1], headers);
      match FirstFold(fields[|fields| - 1], headers, 0)
      case Some(h) => front + [h]
      case None => front
  }

  /** What getFieldOrder returns for a header line: the field order and the number of headings. */
  function HeaderOf(fields: seq<string>, line: string): (r: (seq<nat>, nat))
    ensures forall k :: 0 <= k < |r.0| ==> r.0[k] < r.1
  {
    if line == [] then ([], 0)
    else (FieldOrder(fields, Split(line, ',')), |Split(line, ',')|)
  }

  /**
   * Every field has a heading exactly when none is left out, and then entry
   * i of the order is the first heading matching field i.
   */
  lemma {:induction false} FieldOrderComplete(fields: seq<string>, headers: seq<string>)
    ensures |FieldOrder(fields, headers)| == |fields| <==>
            forall i :: 0 <= i < |fields| ==> FirstFold(fields[i], headers, 0).Some?
    ensures |FieldOrder(fields, headers)| == |fields| ==>
            forall i :: 0 <= i < |fields| ==> FieldOrder(fields, headers)[i] == FirstFold(fields[i], headers, 0).value
  {
    if fields != [] {
      var init := fields[..|fields| - 1];
      FieldOrderComplete(init, headers);
      assert forall i :: 0 <= i < |init| ==> init[i] == fields[i];
    }
  }

  /**
   * getFieldOrder: an empty header line gives no order and no headings;
   * otherwise the headings are the comma-separated pieces of the line.
   */
  method GetFieldOrder(fields: seq<string>, line: string) returns (order: seq<nat>, numHeadings: nat)
    ensures (order, numHeadings) == HeaderOf(fields, line)
    ensures line == [] ==> order == [] && numHeadings == 0
    ensures line != [] ==> numHeadings == Occurrences(line, ',') + 1
  {
    order := [];
    if |line| == 0 {
      return order, 0;
    }
    var headers := Split(line, ',');
    var f := 0;
    while f < |fields|
      invariant f <= |fields|
      invariant order == FieldOrder(fields[..f], headers)
    {
      var fieldName := fields[f];
      var h := 0;
      var found := false;
      while h < |headers| && !found
        invariant h <= |headers|
        invariant !found ==> FirstFold(fieldName, headers, 0) == FirstFold(fieldName, headers, h)
        invariant found ==> FirstFold(fieldName, headers, 0) == Some(h - 1)
                            && order == FieldOrder(fields[..f], headers) + [h - 1]
        invariant !found ==> order == FieldOrder(fields[..f], headers)
        decreases |headers| - h, if found then 0 else 1
      {
        if EqualFold(fieldName, headers[h]) {
          order := order + [h];
          found := true;
        }
        h := h + 1;
      }
      assert fields[..f + 1][..f] == fields[..f];
      f := f + 1;
    }
    assert fields[..f] == fields;
    numHeadings := |headers|;
  }

  /** A header line with at least one separator or a non-empty heading splits back into its headings. */
  lemma HeaderOfJoined(fields: seq<string>, headers: seq<string>)
    requires |headers| >= 1 && forall i :: 0 <= i < |headers| ==> ',' !in headers[i]
    requires Join(headers, ',') != []
    ensures HeaderOf(fields, Join(headers, ',')) == (FieldOrder(fields, headers), |headers|)
  {
    SplitOfJoin(headers, ',');
  }

  // ---------------------------------------------------------------------------
  // ParseCSV row projection

  /** One leading and one trailing double quote, when present, are removed. */
  function Unquote(value: string): (r: string)
    ensures |r| <= |value| <= |r| + 2
  {
    var v := if |value| > 0 && value[0] == '"' then value[1..] else value;
    if |v| > 0 && v[|v| - 1] == '"' then v[..|v| - 1] else v
  }

  /** Quoting any text and unquoting it gives the text back, whatever quotes it holds. */
  lemma UnquoteQuoted(s: string)
    ensures Unquote(['"'] + s + ['"']) == s
  {
    var q := ['"'] + s + ['"'];
    assert q[1..] == s + ['"'];
    assert (s + ['"'])[..|s|] == s;
  }

  /** A value without a quote at either end is kept as it is. */
  lemma UnquotePlain(s: string)
    requires s == [] || (s[0] != '"' && s[|s| - 1] != '"')
    ensures Unquote(s) == s
  {
  }

  /** The requested columns of one row, in field order, each unquoted. */
  function Project(columns: seq<string>, order: seq<nat>): (row: seq<string>)
    requires forall k :: 0 <= k < |order| ==> order[k] < |columns|
    ensures |row| == |order|
  {
    seq(|order|, i requires 0 <= i < |order| => Unquote(columns[order[i]]))
  }

  /** The loop filling `result`: entry i is the unquoted column `order[i]`. */
  method ProjectRow(columns: seq<string>, order: seq<nat>, width: nat) returns (result: seq<string>)
    requires |order| == width
    requires forall k :: 0 <= k < |order| ==> order[k] < |columns|
    ensures result == Project(columns, order)
  {
    result := seq(width, _ => []);
    var fieldNo := 0;
    while fieldNo < |order|
      invariant fieldNo <= |order| && |result| == width
      invariant forall i :: 0 <= i < fieldNo ==> result[i] == Unquote(columns[order[i]])
    {
      var value := columns[order[fieldNo]];
      if |value| > 0 && value[0] == '"' {
        value := value[1..];
      }
      if |value| > 0 && value[|value| - 1] == '"' {
        value := value[..|value| - 1];
      }
      result := result[fieldNo := value];
      fieldNo := fieldNo + 1;
    }
  }

  /** The rows the reader sends for `lines`: lines with fewer columns than headings are skipped. */
  function RowsOf(lines: seq<string>, order: seq<nat>, numHeadings: nat): (rows: seq<seq<string>>)
    requires forall k :: 0 <= k < |order| ==> order[k] < numHeadings
    ensures |rows| <= |lines|
    ensures forall i :: 0 <= i < |rows| ==> |rows[i]| == |order|
  {
    if lines == [] then []
    else
      var front := RowsOf(lines[..|lines| - 1], order, numHeadings);
      var columns := Split(lines[|lines| - 1], ',');
      if |columns| < numHeadings then front else front + [Project(columns, order)]
  }

  /** Rows come out in line order: the rows of two stretches of lines are the rows of each, in turn. */
  lemma {:induction false} RowsOfAppend(a: seq<string>, b: seq<string>, order: seq<nat>, numHeadings: nat)
    requires forall k :: 0 <= k < |order| ==> order[k] < numHeadings
    ensures RowsOf(a + b, order, numHeadings) == RowsOf(a, order, numHeadings) + RowsOf(b, order, numHeadings)
    decreases |b|
  {
    if b == [] {
      assert a + b == a;
    } else {
      var b' := b[..|b| - 1];
      RowsOfAppend(a, b', order, numHeadings);
      assert (a + b)[..|a + b| - 1] == a + b';
      assert (a + b)[|a + b| - 1] == b[|b| - 1];
    }
  }

  /**
   * A line joined from comma-free columns is skipped when it has fewer
   * columns than headings, and otherwise gives the requested columns,
   * unquoted, in field order; extra columns are ignored.
   */
  lemma RowOfJoinedLine(columns: seq<string>, order: seq<nat>, numHeadings: nat)
    requires |columns| >= 1 && forall i :: 0 <= i < |columns| ==> ',' !in columns[i]
    requires forall k :: 0 <= k < |order| ==> order[k] < numHeadings
    ensures |columns| < numHeadings ==> RowsOf([Join(columns, ',')], order, numHeadings) == []
    ensures |columns| >= numHeadings ==>
            RowsOf([Join(columns, ',')], order, numHeadings) == [Project(columns, order)]
  {
    SplitOfJoin(columns, ',');
    assert [Join(columns, ',')][..0] == [];
  }

  /**
   * ParseCSV: no line at all is io.EOF; a requested field missing from the
   * header is an error and no rows; otherwise the rows of every later line.
   */
  method ParseCSV(lines: seq<string>, fields: seq<string>) returns (r: Result<seq<seq<string>>>)
    ensures lines == [] ==> r == Err(EndOfFile)
    ensures lines != [] && |HeaderOf(fields, lines[0]).0| != |fields| ==> r == Err(MissingFields)
    ensures lines != [] && |HeaderOf(fields, lines[0]).0| == |fields| ==>
            r == Ok(RowsOf(lines[1..], HeaderOf(fields, lines[0]).0, HeaderOf(fields, lines[0]).1))
  {
    if |lines| == 0 {
      return Err(EndOfFile);
    }
    var fieldOrder, numHeadings := GetFieldOrder(fields, lines[0]);
    if |fieldOrder| != |fields| {
      return Err(MissingFields);
    }
    var rows: seq<seq<string>> := [];
    var idx := 1;
    while idx < |lines|
      invariant 1 <= idx <= |lines|
      invariant rows == RowsOf(lines[1..idx], fieldOrder, numHeadings)
    {
      var columns := Split(lines[idx], ',');
      assert lines[1..idx + 1][..idx - 1] == lines[1..idx];
      if |columns| >= numHeadings {
        var result := ProjectRow(columns, fieldOrder, |fields|);
        rows := rows + [result];
      }
      idx := idx + 1;
    }
    assert lines[1..idx] == lines[1..];
    return Ok(rows);
  }

  /**
   * With a non-empty header line, ParseCSV fails for a missing field exactly
   * when some requested field has no heading equal to it ignoring case.
   */
  lemma MissingFieldsExactly(fields: seq<string>, line: string)
    requires line != []
    ensures |HeaderOf(fields, line).0| != |fields| <==>
            exists i :: 0 <= i < |fields| && FirstFold(fields[i], Split(line, ','), 0).None?
  {
    FieldOrderComplete(fields, Split(line, ','));
  }

  // ---------------------------------------------------------------------------
  // stringsToUint64s / ParseCSVToUint64s

  /** Every entry as a decimal uint64, or None as soon as one is not. */
  function Uint64sOf(from: seq<string>): (r: Option<seq<Uint64>>)
    ensures r.Some? ==> |r.value| == |from|
  {
    if from == [] then Some([])
    else match (Uint64sOf(from[..|from| - 1]), ParseUint(from[|from| - 1], 10, Bits64))
      case (Some(front), Some(v)) => Some(front + [v])
      case _ => None
  }

  /** All or nothing: the conversion succeeds exactly when every entry is a decimal uint64, each converted in place. */
  lemma {:induction false} Uint64sOfAllOrNothing(from: seq<string>)
    ensures Uint64sOf(from).Some? <==> forall i :: 0 <= i < |from| ==> ParseUint(from[i], 10, Bits64).Some?
    ensures Uint64sOf(from).Some? ==>
            forall i :: 0 <= i < |from| ==> Uint64sOf(from).value[i] == ParseUint(from[i], 10, Bits64).value
  {
    if from != [] {
      var init := from[..|from| - 1];
      Uint64sOfAllOrNothing(init);
      assert forall i :: 0 <= i < |init| ==> init[i] == from[i];
    }
  }

  /** stringsToUint64s: the converted entries, or the error naming the first entry that is not a number. */
  method StringsToUint64s(from: seq<string>) returns (r: Result<seq<Uint64>>)
    ensures r.Ok? <==> Uint64sOf(from).Some?
    ensures r.Ok? ==> r.value == Uint64sOf(from).value
    ensures r.Err? ==> exists k :: 0 <= k < |from| && r.error == BadNumber(from[k])
                                   && ParseUint(from[k], 10, Bits64).None?
                                   && forall i :: 0 <= i < k ==> ParseUint(from[i], 10, Bits64).Some?
  {
    var into: seq<Uint64> := [];
    var idx := 0;
    while idx < |from|
      invariant idx <= |from|
      invariant Uint64sOf(from[..idx]) == Some(into)
    {
      var v := ParseUint(from[idx], 10, Bits64);
      assert from[..idx + 1][..idx] == from[..idx];
      if v.None? {
        Uint64sOfAllOrNothing(from);
        Uint64sOfAllOrNothing(from[..idx]);
        assert forall i :: 0 <= i < idx ==> from[..idx][i] == from[i];
        return Err(BadNumber(from[idx]));
      }
      into := into + [v.value];
      idx := idx + 1;
    }
    assert from[..idx] == from;
    return Ok(into);
  }

  /** The numeric rows of `rows`: a row with an entry that is not a number is logged and dropped. */
  function NumericRows(rows: seq<seq<string>>): (out: seq<seq<Uint64>>)
    ensures |out| <= |rows|
  {
    if rows == [] then []
    else
      var front := NumericRows(rows[..|rows| - 1]);
      match Uint64sOf(rows[|rows| - 1])
      case Some(v) => front + [v]
      case None => front
  }

  /** Every numeric row comes from a row whose entries all converted to it. */
  lemma {:induction false} NumericRowSource(rows: seq<seq<string>>, j: nat) returns (i: nat)
    requires j < |NumericRows(rows)|
    ensures i < |rows| && Uint64sOf(rows[i]) == Some(NumericRows(rows)[j])
  {
    var init := rows[..|rows| - 1];
    var front := NumericRows(init);
    if j < |front| {
      i := NumericRowSource(init, j);
      assert rows[i] == init[i];
      assert NumericRows(rows)[..|front|] == front;
    } else {
      i := |rows| - 1;
    }
  }

  /** ParseCSVToUint64s: ParseCSV's error, or its rows converted to numbers, dropping those that do not convert. */
  method ParseCSVToUint64s(lines: seq<string>, fields: seq<string>) returns (r: Result<seq<seq<Uint64>>>)
    ensures lines == [] ==> r == Err(EndOfFile)
    ensures lines != [] && |HeaderOf(fields, lines[0]).0| != |fields| ==> r == Err(MissingFields)
    ensures lines != [] && |HeaderOf(fields, lines[0]).0| == |fields| ==>
            r == Ok(NumericRows(RowsOf(lines[1..], HeaderOf(fields, lines[0]).0, HeaderOf(fields, lines[0]).1)))
  {
    var incoming := ParseCSV(lines, fields);
    if incoming.Err? {
      return Err(incoming.error);
    }
    var rows := incoming.value;
    var arraysOut: seq<seq<Uint64>> := [];
    var idx := 0;
    while idx < |rows|
      invariant idx <= |rows|
      invariant arraysOut == NumericRows(rows[..idx])
    {
      var row := StringsToUint64s(rows[idx]);
      assert rows[..idx + 1][..idx] == rows[..idx];
      if row.Ok? {
        arraysOut := arraysOut + [row.value];
      }
      idx := idx + 1;
    }
    assert rows[..idx] == rows;
    return Ok(arraysOut);
  }
}
