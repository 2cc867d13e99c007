/** GET /api/get-name-from-phone?phone=...: the name of the first data row
    whose contact cell matches the phone's last four digits. */
module NameFromPhone {
  import opened Wrappers
  import opened Seqs
  import opened PhoneMatch
  import opened Sheet

  /** The route's answers. `Found(None)` is a matched row with no Name
      cell, which is sent as `{}` with status 200. */
  datatype Lookup = Found(name: Option<string>) | PhoneRequired | NoEntry | Failed

  /** A data row is a candidate when its contact cell is non-empty and
      some trimmed piece matches. */
  predicate Candidate(row: Row, ci: nat, phone: string) {
    Truthy(Cell(row, ci)) && ContactMatches(Cell(row, ci).value, phone, true)
  }

  function NameFromPhone(rows: Grid, phone: Option<string>): (r: Lookup)
    ensures r == PhoneRequired <==> !Truthy(phone)
    ensures r == Failed <==> Truthy(phone) && ("Name" !in Headers(rows) || "Contact" !in Headers(rows))
    ensures r.Found? ==>
              exists k :: FirstCandidate(rows, FindHeader(Headers(rows), "Contact").value, phone.value, k)
                          && r.name == Cell(rows[k], FindHeader(Headers(rows), "Name").value)
    ensures r == NoEntry ==>
              forall j :: 1 <= j < |rows| ==> !Candidate(rows[j], FindHeader(Headers(rows), "Contact").value, phone.value)
  {
    if !Truthy(phone) then PhoneRequired
    else
      var headers := Headers(rows);
      var ni := FindHeader(headers, "Name");
      var ci := FindHeader(headers, "Contact");
      if ni.None? || ci.None? then Failed
      else
        match FirstFrom(rows, 1, row => Candidate(row, ci.value, phone.value))
        case None => NoEntry
        case Some(k) =>
          assert FirstCandidate(rows, ci.value, phone.value, k);
          Found(Cell(rows[k], ni.value))
  }

  /** Row `k` is a data row, a candidate, and no earlier data row is. */
  predicate FirstCandidate(rows: Grid, ci: nat, phone: string, k: int) {
    && 1 <= k < |rows|
    && Candidate(rows[k], ci, phone)
    && forall j :: 1 <= j < k ==> !Candidate(rows[j], ci, phone)
  }

  /** The HTTP status of each answer. */
  function Status(r: Lookup): (code: int)
    ensures code == 200 <==> r.Found?
    ensures code == 400 <==> r == PhoneRequired
    ensures code == 404 <==> r == NoEntry
    ensures code == 500 <==> r == Failed
  {
    match r
    case Found(_) => 200
    case PhoneRequired => 400
    case NoEntry => 404
    case Failed => 500
  }

  /** 404 exactly when a phone was sent, both headers exist and no data row
      matches; 200 exactly when one does. */
  lemma LookupStatus(rows: Grid, phone: Option<string>)
    ensures Status(NameFromPhone(rows, phone)) == 404 <==>
              && Truthy(phone) && "Name" in Headers(rows) && "Contact" in Headers(rows)
              && forall j :: 1 <= j < |rows| ==> !Candidate(rows[j], FindHeader(Headers(rows), "Contact").value, phone.value)
    ensures Status(NameFromPhone(rows, phone)) == 200 <==>
              && Truthy(phone) && "Name" in Headers(rows) && "Contact" in Headers(rows)
              && exists k :: 1 <= k < |rows| && Candidate(rows[k], FindHeader(Headers(rows), "Contact").value, phone.value)
  {
    var r := NameFromPhone(rows, phone);
    if r.Found? {
      var ci := FindHeader(Headers(rows), "Contact").value;
      var k :| FirstCandidate(rows, ci, phone.value, k);
      assert 1 <= k < |rows| && Candidate(rows[k], ci, phone.value);
    }
  }

  /** A matching data row always yields `Found`, and the answer comes from
      a data row at or before it, never from the header row, even when its
      own "Contact" cell would match. */
  lemma DataRowFound(rows: Grid, phone: string, k: nat)
    requires phone != "" && "Name" in Headers(rows) && "Contact" in Headers(rows)
    requires 1 <= k < |rows| && Candidate(rows[k], FindHeader(Headers(rows), "Contact").value, phone)
    ensures NameFromPhone(rows, Some(phone)).Found?
    ensures exists m :: m <= k && FirstCandidate(rows, FindHeader(Headers(rows), "Contact").value, phone, m)
  {
  }

  /** Rows with an empty or missing contact cell never match. */
  lemma EmptyContactNeverCandidate(row: Row, ci: nat, phone: string)
    requires !Truthy(Cell(row, ci))
    ensures !Candidate(row, ci, phone)
  {
  }
}
