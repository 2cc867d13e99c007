/** GET /api/get-names: the non-empty Name cells of the data rows. */
module NameList {
  import opened Wrappers
  import opened Seqs
  import opened Sheet

  /** `row[nameIndex]`, kept when truthy. */
  function NameOf(ni: nat): Row -> Option<string> {
    row => if Truthy(Cell(row, ni)) then Some(Cell(row, ni).value) else None
  }

  /** `rows.slice(1).map(row => row[nameIndex]).filter(name => name)`. */
  function GetNames(rows: Grid): (r: Result<seq<string>, LookupError>)
    ensures r.Failure? <==> "Name" !in Headers(rows)
    ensures r.Failure? ==> r.error == ColumnNotFound
    ensures r.Success? ==> |r.value| <= |rows| - 1
    ensures r.Success? ==> forall k :: 0 <= k < |r.value| ==> r.value[k] != ""
  {
    var ni := FindHeader(Headers(rows), "Name");
    if ni.None? then Failure(ColumnNotFound)
    else
      var names := FilterMap(rows[1..], NameOf(ni.value));
      FilterMapSelects(rows[1..], NameOf(ni.value));
      Success(names)
  }

  /** The names are exactly the truthy Name cells of the data rows, in
      row order: name `k` comes from data row `idx[k]`, the positions
      increase, and every data row with a non-empty name is among them. */
  lemma GetNamesSelects(rows: Grid)
    requires "Name" in Headers(rows)
    ensures var names := GetNames(rows).value;
            var ni := FindHeader(Headers(rows), "Name").value;
            var data := rows[1..];
            var idx := KeptIndices(data, NameOf(ni));
            && |idx| == |names|
            && (forall k :: 0 <= k < |idx| ==> idx[k] < |data| && Cell(data[idx[k]], ni) == Some(names[k]))
            && (forall k, l :: 0 <= k < l < |idx| ==> idx[k] < idx[l])
            && (forall i :: 0 <= i < |data| ==> (Truthy(Cell(data[i], ni)) <==> i in idx))
  {
    var ni := FindHeader(Headers(rows), "Name").value;
    var data := rows[1..];
    FilterMapSelects(data, NameOf(ni));
    var idx := KeptIndices(data, NameOf(ni));
    assert forall i :: 0 <= i < |data| ==> (NameOf(ni)(data[i]).Some? <==> Truthy(Cell(data[i], ni)));
  }
}
