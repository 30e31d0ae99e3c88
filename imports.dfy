/**
 * imports.go: building the per-station listing table from the EDDB
 * listings CSV. The header line must name every column the import needs
 * (matched exactly); each later line is projected onto those columns, rows
 * whose station or commodity id is not a valid entity id are filtered and
 * skipped, and the remaining rows are gathered by station and commodity,
 * a later row replacing an earlier one for the same pair.
 *
 * The file's lines are a parameter; the channels between the reading,
 * projecting and gathering goroutines are modelled as one loop over the
 * lines, which delivers the rows in the same order.
 */
module Imports {
  import opened Types
  import opened Errors
  import opened Text

  // ---------------------------------------------------------------------------
  // getIndexes

  /** The index of the first header at or after `j` exactly equal to `name`. */
  function FirstExact(name: string, headers: seq<string>, j: nat): (r: Option<nat>)
    requires j <= |headers|
    ensures r.Some? ==> j <= r.value < |headers| && headers[r.value] == name
    ensures r.Some? ==> forall k :: j <= k < r.value ==> headers[k] != name
    ensures r.None? ==> forall k :: j <= k < |headers| ==> headers[k] != name
    decreases |headers| - j
  {
    if j == |headers| then None
    else if headers[j] == name then Some(j)
    else FirstExact(name, headers, j + 1)
  }

  /** What getIndexes returns: every field's header index, or the first field without a header. */
  function IndexesOf(fieldNames: seq<string>, headers: seq<string>): (r: Result<seq<nat>>)
    ensures r.Ok? ==> |r.value| == |fieldNames|
    ensures r.Ok? ==> forall k :: 0 <= k < |r.value| ==> r.value[k] < |headers|
  {
    if fieldNames == [] then Ok([])
    else match IndexesOf(fieldNames[..|fieldNames| - 1], headers)
      case Err(e) => Err(e)
      case Ok(front) =>
        match FirstExact(fieldNames[|fieldNames| - 1], headers, 0)
        case None => Err(MissingColumn(fieldNames[|fieldNames| - 1]))
        case Some(h) => Ok(front + [h])
  }

  /**
   * getIndexes succeeds exactly when every field has a header, and then
   * entry i is the first header equal to field i; otherwise it names the
   * first field that has none.
   */
  lemma {:induction false} IndexesOfSpec(fieldNames: seq<string>, headers: seq<string>)
    ensures IndexesOf(fieldNames, headers).Ok? <==>
            forall i :: 0 <= i < |fieldNames| ==> FirstExact(fieldNames[i], headers, 0).Some?
    ensures IndexesOf(fieldNames, headers).Ok? ==>
            forall i :: 0 <= i < |fieldNames| ==> IndexesOf(fieldNames, headers).value[i] == FirstExact(fieldNames[i], headers, 0).value
    ensures IndexesOf(fieldNames, headers).Err? ==>
            exists k :: 0 <= k < |fieldNames| && FirstExact(fieldNames[k], headers, 0).None?
                        && IndexesOf(fieldNames, headers).error == MissingColumn(fieldNames[k])
                        && forall i :: 0 <= i < k ==> FirstExact(fieldNames[i], headers, 0).Some?
  {
    if fieldNames != [] {
      var init := fieldNames[..|fieldNames| - 1];
      var last := |fieldNames| - 1;
      IndexesOfSpec(init, headers);
      assert forall i :: 0 <= i < |init| ==> init[i] == fieldNames[i];
      if IndexesOf(init, headers).Err? {
        var k :| 0 <= k < |init| && FirstExact(init[k], headers, 0).None?
                 && IndexesOf(init, headers).error == MissingColumn(init[k])
                 && forall i :: 0 <= i < k ==> FirstExact(init[i], headers, 0).Some?;
        assert FirstExact(fieldNames[k], headers, 0).None?;
      } else if FirstExact(fieldNames[last], headers, 0).None? {
        assert IndexesOf(fieldNames, headers).error == MissingColumn(fieldNames[last]);
      }
    }
  }

  /** getIndexes: the nested search for each field's header, stopping at the first field without one. */
  method GetIndexes(fieldNames: seq<string>, headers: seq<string>) returns (r: Result<seq<nat>>)
    ensures r == IndexesOf(fieldNames, headers)
  {
    var indexes: seq<nat> := [];
    var fieldIdx := 0;
    while fieldIdx < |fieldNames|
      invariant fieldIdx <= |fieldNames|
      invariant IndexesOf(fieldNames[..fieldIdx], headers) == Ok(indexes)
    {
      var fieldName := fieldNames[fieldIdx];
      assert fieldNames[..fieldIdx + 1][..fieldIdx] == fieldNames[..fieldIdx];
      var hdrIdx := 0;
      var found := false;
      while hdrIdx < |headers| && !found
        invariant hdrIdx <= |headers|
        invariant !found ==> FirstExact(fieldName, headers, 0) == FirstExact(fieldName, headers, hdrIdx)
        invariant found ==> FirstExact(fieldName, headers, 0) == Some(hdrIdx - 1)
        decreases |headers| - hdrIdx, if found then 0 else 1
      {
        if fieldName == headers[hdrIdx] {
          found := true;
        }
        hdrIdx := hdrIdx + 1;
      }
      if !found {
        IndexesOfPrefixErr(fieldNames, headers, fieldIdx + 1);
        return Err(MissingColumn(fieldName));
      }
      indexes := indexes + [hdrIdx - 1];
      fieldIdx := fieldIdx + 1;
    }
    assert fieldNames[..fieldIdx] == fieldNames;
    return Ok(indexes);
  }

  /** Once a prefix of the fields fails, the whole lookup fails with the same error. */
  lemma {:induction false} IndexesOfPrefixErr(fieldNames: seq<string>, headers: seq<string>, n: nat)
    requires n <= |fieldNames|
    requires IndexesOf(fieldNames[..n], headers).Err?
    ensures IndexesOf(fieldNames, headers) == IndexesOf(fieldNames[..n], headers)
    decreases |fieldNames| - n
  {
    if n < |fieldNames| {
      assert fieldNames[..n + 1][..n] == fieldNames[..n];
      IndexesOfPrefixErr(fieldNames, headers, n + 1);
    } else {
      assert fieldNames[..n] == fieldNames;
    }
  }

  // ---------------------------------------------------------------------------
  // importListings: one line

  /** The columns importListings needs, in the order it uses them. */
  const ListingFields: seq<string> :=
    ["station_id", "commodity_id", "supply", "demand", "buy_price", "sell_price", "collected_at"]

  /** One accepted row: the ids it is filed under and the row rejoined with commas. */
  datatype StationListing = StationListing(stationId: EntityID, commodityId: EntityID, listing: string)

  /** The projected row of a line, or None when the line lacks one of the required columns. */
  function RowOf(line: seq<string>, indexes: seq<nat>): (row: Option<seq<string>>)
    ensures row.Some? <==> forall k :: 0 <= k < |indexes| ==> indexes[k] < |line|
    ensures row.Some? ==> |row.value| == |indexes|
  {
    if forall k :: 0 <= k < |indexes| ==> indexes[k] < |line|
    then Some(seq(|indexes|, k requires 0 <= k < |indexes| => line[indexes[k]]))
    else None
  }

  /** The loop filling `row`: entry i of the row is column `indexes[i]` of the line. */
  method ProjectLine(line: seq<string>, indexes: seq<nat>) returns (row: Option<seq<string>>)
    ensures row == RowOf(line, indexes)
    ensures row.Some? ==> forall i :: 0 <= i < |indexes| ==> row.value[i] == line[indexes[i]]
  {
    var cells: seq<string> := [];
    var fieldIdx := 0;
    while fieldIdx < |indexes|
      invariant fieldIdx <= |indexes| && |cells| == fieldIdx
      invariant forall k :: 0 <= k < fieldIdx ==> indexes[k] < |line| && cells[k] == line[indexes[k]]
    {
      if indexes[fieldIdx] >= |line| {
        return None;
      }
      cells := cells + [line[indexes[fieldIdx]]];
      fieldIdx := fieldIdx + 1;
    }
    assert cells == seq(|indexes|, k requires 0 <= k < |indexes| => line[indexes[k]]);
    return Some(cells);
  }

  /** An id column as importListings accepts it: a decimal int64 in 1..2^32-1. */
  function EntityIdOf(text: string): (r: Option<EntityID>)
    ensures r.Some? <==> ParseInt64(text).Some? && 0 < ParseInt64(text).value < TwoTo32
    ensures r.Some? ==> r.value as int == ParseInt64(text).value
  {
    match ParseInt64(text)
    case Some(v) => if v <= 0 || v >= TwoTo32 then None else Some(v as EntityID)
    case None => None
  }

  /**
   * One line of the listings file: skipped when it lacks a required column,
   * when its station id is not a valid entity id, or when its commodity id
   * is not; otherwise filed under both ids.
   */
  function ImportRow(line: seq<string>, indexes: seq<nat>): (r: Option<StationListing>)
    requires |indexes| >= 2
    ensures r.Some? ==> RowOf(line, indexes).Some?
    ensures r.Some? ==> 0 < r.value.stationId && 0 < r.value.commodityId
    ensures r.Some? ==> r.value.listing == Join(RowOf(line, indexes).value, ',')
    ensures r.Some? ==> ParseInt64(line[indexes[0]]) == Some(r.value.stationId as int)
                        && ParseInt64(line[indexes[1]]) == Some(r.value.commodityId as int)
    ensures r.None? && RowOf(line, indexes).Some? ==>
            EntityIdOf(line[indexes[0]]).None? || EntityIdOf(line[indexes[1]]).None?
  {
    match RowOf(line, indexes)
    case None => None
    case Some(row) =>
      match (EntityIdOf(row[0]), EntityIdOf(row[1]))
      case (Some(station), Some(commodity)) => Some(StationListing(station, commodity, Join(row, ',')))
      case _ => None
  }

  /** What the projecting goroutine does with one line as written: a short line panics on the index. */
  datatype RowOutcome = Panic | Skip | Send(listing: StationListing)

  /** The line lacks one of the required columns. */
  predicate ShortRow(line: seq<string>, indexes: seq<nat>) {
    exists k :: 0 <= k < |indexes| && indexes[k] >= |line|
  }

  /** The row handling as written: no column-count check before `line[rowIdx]`. */
  function ImportRowAsWritten(line: seq<string>, indexes: seq<nat>): (r: RowOutcome)
    requires |indexes| >= 2
    ensures r.Panic? <==> ShortRow(line, indexes)
    ensures r.Panic? <==> RowOf(line, indexes).None?
    ensures !r.Panic? ==> (r.Send? <==> ImportRow(line, indexes).Some?)
    ensures r.Send? ==> r.listing == ImportRow(line, indexes).value
  {
    if ShortRow(line, indexes) then Panic
    else match ImportRow(line, indexes)
      case Some(l) => Send(l)
      case None => Skip
  }

  /**
   * A blank line splits into a single empty column, so with a header that
   * puts any required column after the first, the import panics where the
   * corrected row handling skips the line.
   */
  lemma BlankLinePanics(indexes: seq<nat>)
    requires |indexes| >= 2 && indexes[1] >= 1
    ensures ImportRowAsWritten(Split([], ','), indexes) == Panic
    ensures ImportRow(Split([], ','), indexes) == None
  {
    assert Split([], ',') == [[]];
    assert indexes[1] >= |Split([], ',')|;
  }

  // ---------------------------------------------------------------------------
  // importListings: gathering the rows

  /** The table after filing one accepted row: it replaces any earlier row for the same pair. */
  function File(data: map<EntityID, map<EntityID, string>>, l: StationListing): map<EntityID, map<EntityID, string>>
  {
    var listings := if l.stationId in data then data[l.stationId] else map[];
    data[l.stationId := listings[l.commodityId := l.listing]]
  }

  /** The accepted rows of `lines`, in line order. */
  function Accepted(lines: seq<seq<string>>, indexes: seq<nat>): (ls: seq<StationListing>)
    requires |indexes| >= 2
    ensures |ls| <= |lines|
  {
    if lines == [] then []
    else
      var front := Accepted(lines[..|lines| - 1], indexes);
      match ImportRow(lines[|lines| - 1], indexes)
      case Some(l) => front + [l]
      case None => front
  }

  /** The table built from accepted rows filed in order. */
  function FileAll(ls: seq<StationListing>): map<EntityID, map<EntityID, string>>
  {
    if ls == [] then map[] else File(FileAll(ls[..|ls| - 1]), ls[|ls| - 1])
  }

  /** The gathering loop's state: the table and the count of rows it took in. */
  datatype Gathering = Gathering(stationData: map<EntityID, map<EntityID, string>>, loaded: nat)

  /** One line through the projecting and gathering goroutines. */
  function Step(g: Gathering, line: seq<string>, indexes: seq<nat>): Gathering
    requires |indexes| >= 2
  {
    match ImportRow(line, indexes)
    case Some(l) => Gathering(File(g.stationData, l), g.loaded + 1)
    case None => g
  }

  /** The gathering loop's state after `lines`. */
  function Gathered(lines: seq<seq<string>>, indexes: seq<nat>): Gathering
    requires |indexes| >= 2
  {
    if lines == [] then Gathering(map[], 0)
    else Step(Gathered(lines[..|lines| - 1], indexes), lines[|lines| - 1], indexes)
  }

  /** The lines of the file after the header, each split at its commas. */
  function SplitLines(lines: seq<string>): (rows: seq<seq<string>>)
    ensures |rows| == |lines|
  {
    if lines == [] then [] else SplitLines(lines[..|lines| - 1]) + [Split(lines[|lines| - 1], ',')]
  }

  /** The loop's table is the accepted rows filed in order, and `loaded` counts every accepted row. */
  lemma {:induction false} GatheredIsAccepted(lines: seq<seq<string>>, indexes: seq<nat>)
    requires |indexes| >= 2
    ensures Gathered(lines, indexes) == Gathering(FileAll(Accepted(lines, indexes)), |Accepted(lines, indexes)|)
  {
    if lines != [] {
      GatheredIsAccepted(lines[..|lines| - 1], indexes);
      var front := Accepted(lines[..|lines| - 1], indexes);
      match ImportRow(lines[|lines| - 1], indexes)
      case Some(l) =>
        assert (front + [l])[..|front|] == front;
      case None =>
    }
  }

  /** A pair has an entry exactly when some accepted row names it. */
  lemma {:induction false} FileAllHas(ls: seq<StationListing>, station: EntityID, commodity: EntityID)
    ensures (station in FileAll(ls) && commodity in FileAll(ls)[station]) <==>
            exists k :: 0 <= k < |ls| && ls[k].stationId == station && ls[k].commodityId == commodity
  {
    if ls != [] {
      var init := ls[..|ls| - 1];
      FileAllHas(init, station, commodity);
      assert forall k :: 0 <= k < |init| ==> init[k] == ls[k];
    }
  }

  /** The entry for a pair is the listing of the last accepted row naming it. */
  lemma {:induction false} FileAllLastWins(ls: seq<StationListing>, k: nat)
    requires k < |ls|
    requires forall j :: k < j < |ls| ==>
               ls[j].stationId != ls[k].stationId || ls[j].commodityId != ls[k].commodityId
    ensures ls[k].stationId in FileAll(ls) && ls[k].commodityId in FileAll(ls)[ls[k].stationId]
    ensures FileAll(ls)[ls[k].stationId][ls[k].commodityId] == ls[k].listing
  {
    var init := ls[..|ls| - 1];
    if k < |ls| - 1 {
      assert forall j :: 0 <= j < |init| ==> init[j] == ls[j];
      FileAllLastWins(init, k);
    }
  }

  /** Filing never loses another station's or another commodity's entry. */
  lemma {:induction false} FileAllGrows(ls: seq<StationListing>, n: nat)
    requires n <= |ls|
    ensures forall s :: s in FileAll(ls[..n]) ==> s in FileAll(ls) && FileAll(ls[..n])[s].Keys <= FileAll(ls)[s].Keys
    decreases |ls| - n
  {
    if n == |ls| {
      assert ls[..n] == ls;
    } else {
      FileAllGrows(ls, n + 1);
      assert ls[..n + 1][..n] == ls[..n];
    }
  }

  /** Gathering one more line of the file is one more Step. */
  lemma GatheredSnoc(body: seq<string>, line: string, indexes: seq<nat>)
    requires |indexes| >= 2
    ensures Gathered(SplitLines(body + [line]), indexes)
         == Step(Gathered(SplitLines(body), indexes), Split(line, ','), indexes)
  {
    assert (body + [line])[..|body|] == body;
    assert SplitLines(body + [line]) == SplitLines(body) + [Split(line, ',')];
    assert (SplitLines(body) + [Split(line, ',')])[..|body|] == SplitLines(body);
  }

  /**
   * The projecting and gathering of one line as written, updating the
   * station's map in place: a line lacking a required column panics on the
   * index.
   */
  method GatherLine(g: Gathering, line: seq<string>, indexes: seq<nat>) returns (next: Result<Gathering>)
    requires |indexes| >= 2
    ensures ShortRow(line, indexes) ==> next == Err(IndexOutOfRange) && ImportRowAsWritten(line, indexes).Panic?
    ensures !ShortRow(line, indexes) ==> next == Ok(Step(g, line, indexes)) && !ImportRowAsWritten(line, indexes).Panic?
  {
    var row := ProjectLine(line, indexes);
    if row.None? {
      // line[rowIdx] is out of range.
      return Err(IndexOutOfRange);
    }
    next := Ok(g);
    var stationId := EntityIdOf(row.value[0]);
    if stationId.None? {
      return;
    }
    var commodityId := EntityIdOf(row.value[1]);
    if commodityId.None? {
      return;
    }
    var listing := Join(row.value, ',');
    var stationData := g.stationData;
    if stationId.value in stationData {
      var listings := stationData[stationId.value];
      stationData := stationData[stationId.value := listings[commodityId.value := listing]];
    } else {
      stationData := stationData[stationId.value := map[commodityId.value := listing]];
    }
    next := Ok(Gathering(stationData, g.loaded + 1));
  }

  /** Some row lacks a required column (see ImportRowAsWritten), so that importListings as written panics on it. */
  predicate PanicsOn(rows: seq<seq<string>>, indexes: seq<nat>)
    requires |indexes| >= 2
    decreases |rows|
  {
    rows != [] && (PanicsOn(rows[..|rows| - 1], indexes) || ShortRow(rows[|rows| - 1], indexes))
  }

  /** PanicsOn holds exactly when some row panics. */
  lemma {:induction false} PanicsOnSpec(rows: seq<seq<string>>, indexes: seq<nat>)
    requires |indexes| >= 2
    ensures PanicsOn(rows, indexes) <==> exists i :: 0 <= i < |rows| && ShortRow(rows[i], indexes)
    decreases |rows|
  {
    if rows != [] {
      var init := rows[..|rows| - 1];
      PanicsOnSpec(init, indexes);
      assert forall i :: 0 <= i < |init| ==> init[i] == rows[i];
    }
  }

  lemma SplitLinesSnoc(body: seq<string>, line: string)
    ensures SplitLines(body + [line]) == SplitLines(body) + [Split(line, ',')]
  {
    assert (body + [line])[..|body|] == body;
  }

  /** One more line panics the file exactly when the lines before did or it does. */
  lemma PanicsOnSnoc(body: seq<string>, line: string, indexes: seq<nat>)
    requires |indexes| >= 2
    ensures PanicsOn(SplitLines(body + [line]), indexes)
            <==> PanicsOn(SplitLines(body), indexes) || ShortRow(Split(line, ','), indexes)
  {
    var rows := SplitLines(body);
    SplitLinesSnoc(body, line);
    assert (rows + [Split(line, ',')])[..|rows|] == rows;
  }

  /** A panic on the first n lines of the body is a panic of the body. */
  lemma {:induction false} PanicsOnGrows(body: seq<string>, n: nat, indexes: seq<nat>)
    requires |indexes| >= 2 && n <= |body| && PanicsOn(SplitLines(body[..n]), indexes)
    ensures PanicsOn(SplitLines(body), indexes)
    decreases |body| - n
  {
    if n < |body| {
      assert body[..n + 1] == body[..n] + [body[n]];
      PanicsOnSnoc(body[..n], body[n], indexes);
      PanicsOnGrows(body, n + 1, indexes);
    } else {
      assert body[..n] == body;
    }
  }

  /** The projecting and gathering of one line with the corrected row handling: a short line is skipped. */
  method GatherLineCorrected(g: Gathering, line: seq<string>, indexes: seq<nat>) returns (next: Gathering)
    requires |indexes| >= 2
    ensures next == Step(g, line, indexes)
  {
    next := g;
    var row := ProjectLine(line, indexes);
    if row.None? {
      return;
    }
    var stationId := EntityIdOf(row.value[0]);
    if stationId.None? {
      return;
    }
    var commodityId := EntityIdOf(row.value[1]);
    if commodityId.None? {
      return;
    }
    var listing := Join(row.value, ',');
    var stationData := g.stationData;
    if stationId.value in stationData {
      var listings := stationData[stationId.value];
      stationData := stationData[stationId.value := listings[commodityId.value := listing]];
    } else {
      stationData := stationData[stationId.value := map[commodityId.value := listing]];
    }
    next := Gathering(stationData, g.loaded + 1);
  }

  /**
   * The loop of importListings over the lines after the header: the first
   * line lacking a required column panics; otherwise every line is handled
   * in order and the accepted rows gathered.
   */
  method GatherBody(body: seq<string>, indexes: seq<nat>) returns (r: Result<Gathering>)
    requires |indexes| >= 2
    ensures PanicsOn(SplitLines(body), indexes) ==> r == Err(IndexOutOfRange)
    ensures !PanicsOn(SplitLines(body), indexes) ==> r == Ok(Gathered(SplitLines(body), indexes))
  {
    var g := Gathering(map[], 0);
    for i := 0 to |body|
      invariant !PanicsOn(SplitLines(body[..i]), indexes)
      invariant g == Gathered(SplitLines(body[..i]), indexes)
    {
      assert body[..i + 1] == body[..i] + [body[i]];
      GatheredSnoc(body[..i], body[i], indexes);
      PanicsOnSnoc(body[..i], body[i], indexes);
      var next := GatherLine(g, Split(body[i], ','), indexes);
      if next.Err? {
        PanicsOnGrows(body, i + 1, indexes);
        return next;
      }
      g := next.value;
    }
    assert body[..|body|] == body;
    return Ok(g);
  }

  /**
   * importListings over a column list whose first two names are the station
   * and commodity id columns: a file without even a header line is an
   * error, as is a header lacking a required column (getIndexes' error,
   * wrapped with the file's name); a later line lacking a required column
   * panics; otherwise every later line is handled in order and the accepted
   * rows gathered.
   */
  method ImportListingsWith(lines: seq<string>, fieldNames: seq<string>) returns (r: Result<Gathering>)
    requires |fieldNames| >= 2
    ensures lines == [] ==> r == Err(EmptyListingsFile)
    ensures lines != [] && IndexesOf(fieldNames, Split(lines[0], ',')).Err? ==>
            r == Err(ListingsFile(IndexesOf(fieldNames, Split(lines[0], ',')).error))
    ensures lines != [] && IndexesOf(fieldNames, Split(lines[0], ',')).Ok? ==>
            var indexes := IndexesOf(fieldNames, Split(lines[0], ',')).value;
            && (PanicsOn(SplitLines(lines[1..]), indexes) ==> r == Err(IndexOutOfRange))
            && (!PanicsOn(SplitLines(lines[1..]), indexes) ==> r == Ok(Gathered(SplitLines(lines[1..]), indexes)))
  {
    if |lines| == 0 {
      return Err(EmptyListingsFile);
    }
    var found := GetIndexes(fieldNames, Split(lines[0], ','));
    if found.Err? {
      return Err(ListingsFile(found.error));
    }
    r := GatherBody(lines[1..], found.value);
  }

  /** The loop of importListings over the lines after the header, with the corrected row handling. */
  method GatherBodyCorrected(body: seq<string>, indexes: seq<nat>) returns (g: Gathering)
    requires |indexes| >= 2
    ensures g == Gathered(SplitLines(body), indexes)
  {
    g := Gathering(map[], 0);
    for i := 0 to |body|
      invariant g == Gathered(SplitLines(body[..i]), indexes)
    {
      assert body[..i + 1] == body[..i] + [body[i]];
      GatheredSnoc(body[..i], body[i], indexes);
      g := GatherLineCorrected(g, Split(body[i], ','), indexes);
    }
    assert body[..|body|] == body;
  }

  /**
   * importListings with the corrected row handling (ImportRow): the same
   * outcome as ImportListingsWith, except that a line lacking a required
   * column is skipped rather than ending the import.
   */
  method ImportListingsWithCorrected(lines: seq<string>, fieldNames: seq<string>) returns (r: Result<Gathering>)
    requires |fieldNames| >= 2
    ensures lines == [] ==> r == Err(EmptyListingsFile)
    ensures lines != [] && IndexesOf(fieldNames, Split(lines[0], ',')).Err? ==>
            r == Err(ListingsFile(IndexesOf(fieldNames, Split(lines[0], ',')).error))
    ensures lines != [] && IndexesOf(fieldNames, Split(lines[0], ',')).Ok? ==>
            r == Ok(Gathered(SplitLines(lines[1..]), IndexesOf(fieldNames, Split(lines[0], ',')).value))
  {
    if |lines| == 0 {
      return Err(EmptyListingsFile);
    }
    var found := GetIndexes(fieldNames, Split(lines[0], ','));
    if found.Err? {
      return Err(ListingsFile(found.error));
    }
    var g := GatherBodyCorrected(lines[1..], found.value);
    return Ok(g);
  }

  /** importListings with the columns it requires. */
  method ImportListings(lines: seq<string>) returns (r: Result<Gathering>)
    ensures lines == [] ==> r == Err(EmptyListingsFile)
    ensures lines != [] && IndexesOf(ListingFields, Split(lines[0], ',')).Err? ==>
            r == Err(ListingsFile(IndexesOf(ListingFields, Split(lines[0], ',')).error))
    ensures lines != [] && IndexesOf(ListingFields, Split(lines[0], ',')).Ok? ==>
            var indexes := IndexesOf(ListingFields, Split(lines[0], ',')).value;
            && (PanicsOn(SplitLines(lines[1..]), indexes) ==> r == Err(IndexOutOfRange))
            && (!PanicsOn(SplitLines(lines[1..]), indexes) ==> r == Ok(Gathered(SplitLines(lines[1..]), indexes)))
  {
    r := ImportListingsWith(lines, ListingFields);
  }
}
