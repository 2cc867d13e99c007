/** POST /api/mark-present: find the attendee by exact name and set their
    "Feb MYF" cell to "Present". */
module MarkPresent {
  import opened Wrappers
  import opened Seqs
  import opened Sheet

  const NameHeader: string := "Name"
  const StatusHeader: string := "Feb MYF"
  const Present: string := "Present"

  /** `row[nameIndex] === name`; an absent name (`undefined`) equals an
      undefined cell. */
  predicate NameIs(row: Row, ni: nat, name: Option<string>) {
    Cell(row, ni) == name
  }

  /** The route's search from row `start` (the route itself starts at 0). */
  function MarkPresentFrom(rows: Grid, name: Option<string>, start: nat): (r: Result<CellUpdate, LookupError>)
    ensures r == Failure(ColumnNotFound) <==> NameHeader !in Headers(rows) || StatusHeader !in Headers(rows)
    ensures r.Failure? ==> r == Failure(ColumnNotFound) || r == Failure(NoMatch)
    ensures r == Failure(NoMatch) ==>
              forall j :: start <= j < |rows| ==> !NameIs(rows[j], FindHeader(Headers(rows), NameHeader).value, name)
    ensures r.Success? ==>
              && r.value.value == Present
              && Some(r.value.col) == FindHeader(Headers(rows), StatusHeader)
              && start <= r.value.row < |rows|
              && NameIs(rows[r.value.row], FindHeader(Headers(rows), NameHeader).value, name)
              && forall j :: start <= j < r.value.row ==>
                   !NameIs(rows[j], FindHeader(Headers(rows), NameHeader).value, name)
  {
    var headers := Headers(rows);
    var ni := FindHeader(headers, NameHeader);
    var si := FindHeader(headers, StatusHeader);
    if ni.None? || si.None? then Failure(ColumnNotFound)
    else
      match FirstFrom(rows, start, row => NameIs(row, ni.value, name))
      case None => Failure(NoMatch)
      case Some(k) => Success(CellUpdate(k, si.value, Present))
  }

  /** The route as written: `rows.findIndex(row => row[nameIndex] === name)`. */
  function MarkPresent(rows: Grid, name: Option<string>): (r: Result<CellUpdate, LookupError>)
    ensures r.Success? ==> r.value.row < |rows| && r.value.value == Present
    ensures NameHeader in Headers(rows) && StatusHeader in Headers(rows) ==>
              (r == Failure(NoMatch) <==>
                 forall j :: 0 <= j < |rows| ==> !NameIs(rows[j], FindHeader(Headers(rows), NameHeader).value, name))
  {
    MarkPresentFrom(rows, name, 0)
  }

  /** The route answers 200 exactly when both headers exist and some row,
      the header row included, carries the name; otherwise 500. */
  lemma PresentStatus(rows: Grid, name: Option<string>)
    ensures WriteStatus(MarkPresent(rows, name)) == 200 <==>
              && NameHeader in Headers(rows) && StatusHeader in Headers(rows)
              && exists k :: 0 <= k < |rows| && NameIs(rows[k], FindHeader(Headers(rows), NameHeader).value, name)
    ensures WriteStatus(MarkPresent(rows, name)) == 500 <==> MarkPresent(rows, name).Failure?
  {
  }

  /** Only the first row with the name is marked: a later duplicate keeps
      its status cell, and so does every other row. */
  lemma FirstDuplicateOnly(rows: Grid, name: string, a: nat, b: nat)
    requires NameHeader in Headers(rows) && StatusHeader in Headers(rows)
    requires a < b < |rows|
    requires NameIs(rows[a], FindHeader(Headers(rows), NameHeader).value, Some(name))
    requires NameIs(rows[b], FindHeader(Headers(rows), NameHeader).value, Some(name))
    ensures var r := MarkPresent(rows, Some(name));
            r.Success? && r.value.row <= a
            && SheetAfter(rows, r)[b] == rows[b]
  {
  }

  /** On success exactly the located status cell becomes "Present"; the
      range's 1-based row number addresses the matched row. A failure
      writes nothing. */
  lemma MarkPresentEffect(rows: Grid, name: Option<string>)
    ensures var r := MarkPresent(rows, name);
            var g := SheetAfter(rows, r);
            && (r.Failure? ==> g == rows)
            && (r.Success? ==>
                  && ApplyRangeWrite(rows, RangeOf(r.value), Present) == Some(g)
                  && CellAt(g, r.value.row, r.value.col) == Some(Present)
                  && |g| == |rows|
                  && (forall r' :: 0 <= r' < |rows| && r' != r.value.row ==> g[r'] == rows[r'])
                  && forall r': nat, c': nat :: (r' != r.value.row || c' != r.value.col) ==>
                       CellAt(g, r', c') == CellAt(rows, r', c')
                       || (r' == r.value.row && c' < r.value.col
                           && CellAt(rows, r', c') == None && CellAt(g, r', c') == Some("")))
  {
    var r := MarkPresent(rows, name);
    if r.Success? {
      AddressRoundTrip(rows, r.value);
    }
  }

  /** Example: with header row `Name, Contact, Feb MYF`,
      "Bob" is found at data row 1 (value row 2), "Carol" is not found. */
  lemma LocatorExample(alice: Row, bob: Row, header: Row)
    requires header == ["Name", "Contact", "Feb MYF"]
    requires alice == ["Alice", "9876543210"] && bob == ["Bob", "2345678901"]
    ensures MarkPresent([header, alice, bob], Some("Bob")) == Success(CellUpdate(2, 2, Present))
    ensures MarkPresent([header, alice, bob], Some("Carol")) == Failure(NoMatch)
  {
    assert FindHeader(header, NameHeader) == Some(0);
    assert FindHeader(header, StatusHeader) == Some(2);
    var rows := [header, alice, bob];
    assert !NameIs(rows[0], 0, Some("Bob")) && !NameIs(rows[1], 0, Some("Bob"));
    assert NameIs(rows[2], 0, Some("Bob"));
    assert forall j :: 0 <= j < 3 ==> !NameIs(rows[j], 0, Some("Carol"));
  }

  // ---------------------------------------------------------------------
  // The header row is a candidate.

  /** As written, the name "Name" matches the header row itself, so the
      "Feb MYF" header is overwritten with "Present". */
  lemma NameHeaderOverwritten(rows: Grid)
    requires NameHeader in Headers(rows) && StatusHeader in Headers(rows)
    ensures var r := MarkPresent(rows, Some(NameHeader));
            && r.Success? && r.value.row == 0
            && CellAt(rows, 0, r.value.col) == Some(StatusHeader)
            && CellAt(SheetAfter(rows, r), 0, r.value.col) == Some(Present)
  {
    assert NameIs(rows[0], FindHeader(Headers(rows), NameHeader).value, Some(NameHeader));
  }

  /** The search over data rows only, row index kept absolute: it writes
      "Present" at the first data row with the name, and fails with
      `NoMatch` exactly when no data row has it. */
  function MarkPresentDataRows(rows: Grid, name: Option<string>): (r: Result<CellUpdate, LookupError>)
    ensures r == Failure(ColumnNotFound) <==> NameHeader !in Headers(rows) || StatusHeader !in Headers(rows)
    ensures NameHeader in Headers(rows) && StatusHeader in Headers(rows) ==>
              && (r == Failure(NoMatch) <==>
                    forall j :: 1 <= j < |rows| ==> !NameIs(rows[j], FindHeader(Headers(rows), NameHeader).value, name))
              && (r.Success? ==>
                    && r.value.value == Present
                    && Some(r.value.col) == FindHeader(Headers(rows), StatusHeader)
                    && 1 <= r.value.row < |rows|
                    && NameIs(rows[r.value.row], FindHeader(Headers(rows), NameHeader).value, name)
                    && forall j :: 1 <= j < r.value.row ==>
                         !NameIs(rows[j], FindHeader(Headers(rows), NameHeader).value, name))
    ensures r.Success? ==> 1 <= r.value.row < |rows|
    ensures r.Success? ==> SheetAfter(rows, r)[0] == rows[0]
  {
    MarkPresentFrom(rows, name, 1)
  }
}
