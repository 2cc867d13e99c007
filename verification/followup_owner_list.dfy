/** POST /api/get-followupowner-list: the data rows assigned to one
    follow-up owner, each as a record keyed by the header row. */
module FollowupOwnerList {
  import opened Wrappers
  import opened Seqs
  import opened Sheet

  const OwnerHeader: string := "Followup owner"

  /** `entry[header] = row[index]` for each header, in order; a repeated
      header keeps the value of its last column. An undefined cell is kept
      as `None`. */
  type Record = map<string, Option<string>>

  function RecordOf(headers: Row, row: Row, n: nat): (m: Record)
    requires n <= |headers|
    ensures m.Keys == set i | 0 <= i < n :: headers[i]
    ensures forall i :: 0 <= i < n && (forall j :: i < j < n ==> headers[j] != headers[i]) ==>
              m[headers[i]] == Cell(row, i)
  {
    if n == 0 then map[]
    else
      var m0 := RecordOf(headers, row, n - 1);
      assert (set i | 0 <= i < n :: headers[i]) == (set i | 0 <= i < n - 1 :: headers[i]) + {headers[n - 1]};
      m0[headers[n - 1] := Cell(row, n - 1)]
  }

  /** `currentFollowupOwner && currentFollowupOwner === followupOwner`. */
  predicate OwnedBy(row: Row, oi: nat, owner: Option<string>) {
    Truthy(Cell(row, oi)) && Cell(row, oi) == owner
  }

  function Keep(headers: Row, oi: nat, owner: Option<string>): Row -> Option<Record> {
    row => if OwnedBy(row, oi, owner) then Some(RecordOf(headers, row, |headers|)) else None
  }

  function GetFollowupOwnerList(rows: Grid, owner: Option<string>): (r: Result<seq<Record>, LookupError>)
    ensures r.Failure? <==> OwnerHeader !in Headers(rows)
    ensures r.Failure? ==> r.error == ColumnNotFound
    ensures r.Success? ==> |r.value| <= |rows| - 1
    ensures r.Success? ==> forall k :: 0 <= k < |r.value| ==> r.value[k].Keys == set h | h in Headers(rows)
  {
    var headers := Headers(rows);
    var oi := FindHeader(headers, OwnerHeader);
    if oi.None? then Failure(ColumnNotFound)
    else
      var f := Keep(headers, oi.value, owner);
      FilterMapSelects(rows[1..], f);
      var es := FilterMap(rows[1..], f);
      assert forall k :: 0 <= k < |es| ==> es[k].Keys == set i | 0 <= i < |headers| :: headers[i];
      assert (set i | 0 <= i < |headers| :: headers[i]) == set h | h in headers;
      Success(es)
  }

  /** The output is exactly the data rows whose owner cell is non-empty
      and equal to the requested owner, in order, each mapped to its
      header-keyed record. */
  lemma FollowupOwnerSelects(rows: Grid, owner: Option<string>)
    requires OwnerHeader in Headers(rows)
    ensures var es := GetFollowupOwnerList(rows, owner).value;
            var headers := Headers(rows);
            var oi := FindHeader(headers, OwnerHeader).value;
            var data := rows[1..];
            var idx := KeptIndices(data, Keep(headers, oi, owner));
            && |idx| == |es|
            && (forall k :: 0 <= k < |idx| ==> idx[k] < |data| && es[k] == RecordOf(headers, data[idx[k]], |headers|))
            && (forall k, l :: 0 <= k < l < |idx| ==> idx[k] < idx[l])
            && (forall i :: 0 <= i < |data| ==> (OwnedBy(data[i], oi, owner) <==> i in idx))
  {
    var headers := Headers(rows);
    var oi := FindHeader(headers, OwnerHeader).value;
    var data := rows[1..];
    FilterMapSelects(data, Keep(headers, oi, owner));
    assert forall i :: 0 <= i < |data| ==> (Keep(headers, oi, owner)(data[i]).Some? <==> OwnedBy(data[i], oi, owner));
  }

  /** An empty or absent owner selects nothing. */
  lemma EmptyOwnerYieldsNothing(rows: Grid, owner: Option<string>)
    requires OwnerHeader in Headers(rows)
    requires !Truthy(owner)
    ensures GetFollowupOwnerList(rows, owner) == Success([])
  {
    var headers := Headers(rows);
    var oi := FindHeader(headers, OwnerHeader).value;
    FilterMapNone(rows[1..], Keep(headers, oi, owner));
  }
}
