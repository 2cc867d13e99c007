/** The attendance page's name autocomplete. */
module StatusUpdate {
  import opened Wrappers
  import opened JsText
  import opened Seqs
  import opened AttendanceList

  /** The typed name and the suggestions shown under it. */
  datatype Autocomplete = Autocomplete(selectedName: string, filtered: seq<Entry>)

  /** `entry.name.toLowerCase().startsWith(value.toLowerCase())`. */
  predicate Suggests(e: Entry, value: string) {
    StartsWith(ToLower(e.name), ToLower(value))
  }

  function KeepIfSuggested(value: string): Entry -> Option<Entry> {
    e => if Suggests(e, value) then Some(e) else None
  }

  /** `entries.filter(...)`. */
  function FilterEntries(entries: seq<Entry>, value: string): (r: seq<Entry>)
    ensures |r| <= |entries|
    ensures forall k :: 0 <= k < |r| ==> r[k] in entries && Suggests(r[k], value)
  {
    FilterMapSelects(entries, KeepIfSuggested(value));
    FilterMap(entries, KeepIfSuggested(value))
  }

  /** `handleNameChange`. */
  function HandleNameChange(entries: seq<Entry>, value: string): (s: Autocomplete)
    ensures s.selectedName == value
    ensures forall k :: 0 <= k < |s.filtered| ==> s.filtered[k] in entries && Suggests(s.filtered[k], value)
    ensures forall e :: e in entries && Suggests(e, value) ==> e in s.filtered
  {
    FilterSelects(entries, value);
    var idx := KeptIndices(entries, KeepIfSuggested(value));
    forall e | e in entries && Suggests(e, value)
      ensures e in FilterEntries(entries, value)
    {
      var i :| 0 <= i < |entries| && entries[i] == e;
      var k :| 0 <= k < |idx| && idx[k] == i;
      assert FilterEntries(entries, value)[k] == e;
    }
    Autocomplete(value, FilterEntries(entries, value))
  }

  /** Clicking a suggestion. */
  function SelectSuggestion(s: Autocomplete, e: Entry): (t: Autocomplete)
    ensures t.selectedName == e.name && t.filtered == []
  {
    Autocomplete(e.name, [])
  }

  /** A chosen entry is still suggested when its own name is the input:
      the selection round-trips through the filter. */
  lemma SelectedStillSuggested(entries: seq<Entry>, s: Autocomplete, e: Entry)
    requires e in entries
    ensures e in HandleNameChange(entries, SelectSuggestion(s, e).selectedName).filtered
  {
    assert IsPrefix(ToLower(e.name), ToLower(e.name));
  }

  /** The suggestions are exactly the entries whose lower-cased name starts
      with the lower-cased input, in their original order. */
  lemma FilterSelects(entries: seq<Entry>, value: string)
    ensures var r := FilterEntries(entries, value);
            var idx := KeptIndices(entries, KeepIfSuggested(value));
            && |idx| == |r|
            && (forall k :: 0 <= k < |idx| ==> idx[k] < |entries| && r[k] == entries[idx[k]])
            && (forall k, l :: 0 <= k < l < |idx| ==> idx[k] < idx[l])
            && (forall i :: 0 <= i < |entries| ==> (Suggests(entries[i], value) <==> i in idx))
  {
    FilterMapSelects(entries, KeepIfSuggested(value));
    assert forall i :: 0 <= i < |entries| ==>
             (KeepIfSuggested(value)(entries[i]).Some? <==> Suggests(entries[i], value));
  }

  /** An empty input suggests every entry. */
  lemma EmptyInputSuggestsAll(entries: seq<Entry>)
    ensures FilterEntries(entries, "") == entries
  {
    FilterMapAll(entries, KeepIfSuggested(""));
  }

  /** Matching ignores ASCII case: "al" suggests "Alice". */
  lemma CaseInsensitive(e: Entry, value: string)
    requires e.name == "Alice" && value == "aL"
    ensures Suggests(e, value)
  {
    assert ToLower(e.name)[..2] == ToLower(value);
  }
}
