/** POST /api/mark-registered: find the attendee by phone suffix and set
    their "May MYF(2025)" cell to "Registered". */
module MarkRegistered {
  import opened Wrappers
  import opened Seqs
  import opened PhoneMatch
  import opened Sheet

  const ContactHeader: string := "Contact"
  const StatusHeader: string := "May MYF(2025)"
  const Registered: string := "Registered"

  /** The row's contact cell matches the query, pieces untrimmed. */
  predicate Hit(row: Row, ci: nat, q: string) {
    Cell(row, ci).Some? && ContactMatches(Cell(row, ci).value, q, false)
  }

  /** `findIndex` stops at this row: either it matches, or evaluating the
      predicate on it throws because the contact cell is undefined. */
  predicate Stops(row: Row, ci: nat, q: string) {
    Cell(row, ci).None? || Hit(row, ci, q)
  }

  /** The search of the rows from `start`, with its two failure modes. */
  function Locate(rows: Grid, start: nat, ci: nat, q: string): (r: Result<nat, LookupError>)
    ensures r.Success? ==> start <= r.value < |rows| && Hit(rows[r.value], ci, q)
    ensures r.Success? || r == Failure(NoMatch) || (r.Failure? && r.error.CellMissing?)
    ensures r.Failure? && r.error.CellMissing? ==>
              start <= r.error.row < |rows| && Cell(rows[r.error.row], ci).None?
    ensures r.Success? ==> forall j :: start <= j < r.value ==> Cell(rows[j], ci).Some? && !Hit(rows[j], ci, q)
    ensures r.Failure? && r.error.CellMissing? ==>
              forall j :: start <= j < r.error.row ==> Cell(rows[j], ci).Some? && !Hit(rows[j], ci, q)
    ensures r == Failure(NoMatch) <==>
              forall j :: start <= j < |rows| ==> Cell(rows[j], ci).Some? && !Hit(rows[j], ci, q)
  {
    match FirstFrom(rows, start, row => Stops(row, ci, q))
    case None => Failure(NoMatch)
    case Some(k) => if Cell(rows[k], ci).None? then Failure(CellMissing(k)) else Success(k)
  }

  /** Row `k` is where a search from `start` stops with a match: it hits,
      and every row before it has a defined, non-matching contact cell. */
  predicate FirstHit(rows: Grid, start: nat, ci: nat, q: string, k: int) {
    && start <= k < |rows|
    && Hit(rows[k], ci, q)
    && forall j :: start <= j < k ==> !Stops(rows[j], ci, q)
  }

  /** Everything a search from `start` can end in, given that both headers
      exist and a contact was sent: the first matching row is written, an
      undefined contact cell reached first fails, and `NoMatch` exactly
      when every row has a defined contact cell that does not match. */
  predicate SearchOutcome(rows: Grid, contact: Option<string>, start: nat, r: Result<CellUpdate, LookupError>)
    requires ContactHeader in Headers(rows) && StatusHeader in Headers(rows)
  {
    var ci := FindHeader(Headers(rows), ContactHeader).value;
    && (contact.None? ==> r == Failure(ParameterMissing))
    && (contact.Some? ==>
          && (r.Success? ==>
                && FirstHit(rows, start, ci, contact.value, r.value.row)
                && r.value.value == Registered
                && Some(r.value.col) == FindHeader(Headers(rows), StatusHeader))
          && (r.Failure? ==> r == Failure(NoMatch) || r.error.CellMissing?)
          && (r.Failure? && r.error.CellMissing? ==>
                && start <= r.error.row < |rows|
                && Cell(rows[r.error.row], ci).None?
                && forall j :: start <= j < r.error.row ==> !Stops(rows[j], ci, contact.value))
          && (r == Failure(NoMatch) <==> forall j :: start <= j < |rows| ==> !Stops(rows[j], ci, contact.value)))
  }

  /** The search as the route writes it (`rows.findIndex`, from row 0),
      returning the cell to set. */
  function MarkRegistered(rows: Grid, contact: Option<string>): (r: Result<CellUpdate, LookupError>)
    ensures r == Failure(ColumnNotFound) <==>
              ContactHeader !in Headers(rows) || StatusHeader !in Headers(rows)
    ensures ContactHeader in Headers(rows) && StatusHeader in Headers(rows) ==>
              SearchOutcome(rows, contact, 0, r)
  {
    MarkRegisteredFrom(rows, contact, 0)
  }

  /** The route's search started at row `start`. */
  function MarkRegisteredFrom(rows: Grid, contact: Option<string>, start: nat): (r: Result<CellUpdate, LookupError>)
    ensures r == Failure(ColumnNotFound) <==>
              ContactHeader !in Headers(rows) || StatusHeader !in Headers(rows)
    ensures ContactHeader in Headers(rows) && StatusHeader in Headers(rows) ==>
              SearchOutcome(rows, contact, start, r)
  {
    var headers := Headers(rows);
    var ci := FindHeader(headers, ContactHeader);
    var si := FindHeader(headers, StatusHeader);
    if ci.None? || si.None? then Failure(ColumnNotFound)
    else if contact.None? then Failure(ParameterMissing)
    else
      match Locate(rows, start, ci.value, contact.value)
      case Failure(e) => Failure(e)
      case Success(k) => Success(CellUpdate(k, si.value, Registered))
  }

  /** The route answers 200 exactly when both headers exist, a contact was
      sent, and the search from the header row stops at a matching row. */
  lemma RegisteredStatus(rows: Grid, contact: Option<string>)
    ensures WriteStatus(MarkRegistered(rows, contact)) == 200 <==>
              && ContactHeader in Headers(rows) && StatusHeader in Headers(rows)
              && contact.Some?
              && exists k :: FirstHit(rows, 0, FindHeader(Headers(rows), ContactHeader).value, contact.value, k)
    ensures WriteStatus(MarkRegistered(rows, contact)) == 500 <==> MarkRegistered(rows, contact).Failure?
  {
    var r := MarkRegistered(rows, contact);
    if ContactHeader in Headers(rows) && StatusHeader in Headers(rows) && contact.Some? {
      var ci := FindHeader(Headers(rows), ContactHeader).value;
      if exists k :: FirstHit(rows, 0, ci, contact.value, k) {
        var k :| FirstHit(rows, 0, ci, contact.value, k);
        assert Stops(rows[k], ci, contact.value);
      }
    }
  }

  /** On success exactly the located status cell becomes "Registered" and
      every other cell keeps its value (a short row is padded with empty
      cells up to the status column); on failure nothing is written. */
  lemma MarkRegisteredEffect(rows: Grid, contact: Option<string>)
    ensures var r := MarkRegistered(rows, contact);
            var g := SheetAfter(rows, r);
            && (r.Failure? ==> g == rows)
            && (r.Success? ==>
                  && CellAt(g, r.value.row, r.value.col) == Some(Registered)
                  && |g| == |rows|
                  && forall r': nat, c': nat :: (r' != r.value.row || c' != r.value.col) ==>
                       CellAt(g, r', c') == CellAt(rows, r', c')
                       || (r' == r.value.row && c' < r.value.col
                           && CellAt(rows, r', c') == None && CellAt(g, r', c') == Some("")))
  {
  }

  /** A row before the match whose contact cell is undefined makes the
      whole call fail. */
  lemma MissingContactCellFails(rows: Grid, q: string, k: nat)
    requires ContactHeader in Headers(rows) && StatusHeader in Headers(rows)
    requires k < |rows|
    requires Cell(rows[k], FindHeader(Headers(rows), ContactHeader).value).None?
    requires forall j :: 0 <= j < k ==> !Hit(rows[j], FindHeader(Headers(rows), ContactHeader).value, q)
    ensures MarkRegistered(rows, Some(q)).Failure?
  {
    var ci := FindHeader(Headers(rows), ContactHeader).value;
    assert Stops(rows[k], ci, q);
  }

  // ---------------------------------------------------------------------
  // The header row is a candidate.

  /** As written, an empty contact matches the header row itself (the
      header cell "Contact" has a last-five window "ntact", which contains
      ""), so the status header is overwritten with "Registered". */
  lemma EmptyContactOverwritesHeader(rows: Grid)
    requires ContactHeader in Headers(rows) && StatusHeader in Headers(rows)
    ensures var r := MarkRegistered(rows, Some(""));
            && r.Success? && r.value.row == 0
            && CellAt(SheetAfter(rows, r), 0, r.value.col) == Some(Registered)
            && CellAt(rows, 0, r.value.col) == Some(StatusHeader)
  {
    var ci := FindHeader(Headers(rows), ContactHeader).value;
    EmptyQueryMatches(rows[0][ci], false);
    assert Hit(rows[0], ci, "");
  }

  /** The search over data rows only (`rows.slice(1)`, as
      get-name-from-phone does), with the row index kept absolute. */
  function MarkRegisteredDataRows(rows: Grid, contact: Option<string>): (r: Result<CellUpdate, LookupError>)
    ensures r == Failure(ColumnNotFound) <==>
              ContactHeader !in Headers(rows) || StatusHeader !in Headers(rows)
    ensures ContactHeader in Headers(rows) && StatusHeader in Headers(rows) ==>
              SearchOutcome(rows, contact, 1, r)
    ensures r.Success? ==> 1 <= r.value.row < |rows|
  {
    MarkRegisteredFrom(rows, contact, 1)
  }

  /** With the search over data rows the header row is never written. */
  lemma DataRowsKeepHeader(rows: Grid, contact: Option<string>)
    ensures Headers(SheetAfter(rows, MarkRegisteredDataRows(rows, contact))) == Headers(rows)
  {
    var r := MarkRegisteredDataRows(rows, contact);
    if r.Success? {
      assert SheetAfter(rows, r)[0] == rows[0];
    }
  }
}
