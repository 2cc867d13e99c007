/** GET /api/get-attendance-list: each data row with a name, paired with
    the last four characters of each of its contact numbers. */
module AttendanceList {
  import opened Wrappers
  import opened JsText
  import opened Seqs
  import opened Sheet

  datatype Entry = Entry(name: string, contactNumbers: seq<string>)

  /** `num.trim().slice(-4)`, kept when non-empty. */
  function LastFour(piece: string): Option<string> {
    var t := SliceFrom(Trim(piece), -4);
    if t != "" then Some(t) else None
  }

  /** The `contactNumbers` of one row: empty for a missing or empty cell. */
  function ContactNumbers(cell: Option<string>): (nums: seq<string>)
    ensures !Truthy(cell) ==> nums == []
    ensures forall k :: 0 <= k < |nums| ==> 1 <= |nums[k]| <= 4
    ensures Truthy(cell) ==> |nums| <= |Split(cell.value)|
  {
    if !Truthy(cell) then []
    else
      var pieces := Split(cell.value);
      FilterMapSelects(pieces, LastFour);
      FilterMap(pieces, LastFour)
  }

  /** Each contact number is the last (up to) four characters of a trimmed
      piece of the cell, in piece order, and no non-empty piece is lost. */
  lemma ContactNumbersAreSuffixes(cell: string)
    requires cell != ""
    ensures var nums := ContactNumbers(Some(cell));
            var pieces := Split(cell);
            var idx := KeptIndices(pieces, LastFour);
            && |idx| == |nums|
            && (forall k :: 0 <= k < |idx| ==>
                  idx[k] < |pieces| && nums[k] == SliceFrom(Trim(pieces[idx[k]]), -4))
            && (forall k, l :: 0 <= k < l < |idx| ==> idx[k] < idx[l])
            && (forall i :: 0 <= i < |pieces| ==> (Trim(pieces[i]) != "" <==> i in idx))
  {
    var pieces := Split(cell);
    FilterMapSelects(pieces, LastFour);
    forall i | 0 <= i < |pieces|
      ensures LastFour(pieces[i]).Some? <==> Trim(pieces[i]) != ""
    {
      LastFourDefined(pieces[i]);
    }
  }

  /** A piece yields a contact number exactly when it is not blank. */
  lemma LastFourDefined(piece: string)
    ensures LastFour(piece).Some? <==> Trim(piece) != ""
  {
    var t := Trim(piece);
    if t != "" {
      SliceLast(t, 4);
    }
  }

  /** The entry for one data row; `null` (dropped) when the name is falsy. */
  function EntryOf(ni: nat, ci: nat): Row -> Option<Entry> {
    row => if Truthy(Cell(row, ni)) then Some(Entry(Cell(row, ni).value, ContactNumbers(Cell(row, ci)))) else None
  }

  function GetAttendanceList(rows: Grid): (r: Result<seq<Entry>, LookupError>)
    ensures r.Failure? <==> "Name" !in Headers(rows) || "Contact" !in Headers(rows)
    ensures r.Failure? ==> r.error == ColumnNotFound
    ensures r.Success? ==> |r.value| <= |rows| - 1
    ensures r.Success? ==> forall k :: 0 <= k < |r.value| ==> r.value[k].name != ""
    ensures r.Success? ==> forall k, j :: 0 <= k < |r.value| && 0 <= j < |r.value[k].contactNumbers| ==>
              1 <= |r.value[k].contactNumbers[j]| <= 4
  {
    var headers := Headers(rows);
    var ni := FindHeader(headers, "Name");
    var ci := FindHeader(headers, "Contact");
    if ni.None? then Failure(ColumnNotFound)
    else if ci.None? then Failure(ColumnNotFound)
    else
      FilterMapSelects(rows[1..], EntryOf(ni.value, ci.value));
      Success(FilterMap(rows[1..], EntryOf(ni.value, ci.value)))
  }

  /** The list holds one entry per data row with a non-empty name, in row
      order, and entry `k` carries that row's name and contact numbers. */
  lemma AttendanceListSelects(rows: Grid)
    requires "Name" in Headers(rows) && "Contact" in Headers(rows)
    ensures var es := GetAttendanceList(rows).value;
            var ni := FindHeader(Headers(rows), "Name").value;
            var ci := FindHeader(Headers(rows), "Contact").value;
            var data := rows[1..];
            var idx := KeptIndices(data, EntryOf(ni, ci));
            && |idx| == |es|
            && (forall k :: 0 <= k < |idx| ==>
                  (&& idx[k] < |data|
                   && Cell(data[idx[k]], ni) == Some(es[k].name)
                   && es[k].contactNumbers == ContactNumbers(Cell(data[idx[k]], ci))))
            && (forall k, l :: 0 <= k < l < |idx| ==> idx[k] < idx[l])
            && (forall i :: 0 <= i < |data| ==> (Truthy(Cell(data[i], ni)) <==> i in idx))
  {
    var ni := FindHeader(Headers(rows), "Name").value;
    var ci := FindHeader(Headers(rows), "Contact").value;
    var data := rows[1..];
    FilterMapSelects(data, EntryOf(ni, ci));
    assert forall i :: 0 <= i < |data| ==> (EntryOf(ni, ci)(data[i]).Some? <==> Truthy(Cell(data[i], ni)));
  }
}
