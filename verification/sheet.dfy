/** The "MYF attendees" sheet as `values.get` returns it, header lookup,
    and the single-cell write the mark routes send. */
module Sheet {
  import opened Wrappers
  import opened JsText
  import opened Seqs
  import opened ColumnLetters

  /** Row `i` of the value is sheet row `i + 1`; rows may be ragged. */
  type Row = seq<string>
  type Grid = seq<Row>

  /** The tab every route reads and writes. */
  const SheetName: string := "MYF attendees"

  /** `row[i]`: `None` past the end of the row (JavaScript `undefined`). */
  function Cell(row: Row, i: nat): (c: Option<string>)
    ensures c.Some? <==> i < |row|
    ensures c.Some? ==> c.value == row[i]
  {
    if i < |row| then Some(row[i]) else None
  }

  /** JavaScript truthiness of a cell: defined and non-empty. */
  predicate Truthy(c: Option<string>) {
    c.Some? && c.value != ""
  }

  /** `rows[0] || []`. */
  function Headers(rows: Grid): (h: Row)
    ensures rows != [] ==> h == rows[0]
    ensures rows == [] ==> h == []
  {
    if rows == [] then [] else rows[0]
  }

  /** `headers.findIndex(header => header === name)`. */
  function FindHeader(headers: Row, name: string): (r: Option<nat>)
    ensures r.Some? ==> r.value < |headers| && headers[r.value] == name
    ensures r.Some? ==> forall j :: 0 <= j < r.value ==> headers[j] != name
    ensures r.None? <==> name !in headers
  {
    FirstFrom(headers, 0, h => h == name)
  }

  /** Cell `(r, c)` of the whole grid. */
  function CellAt(rows: Grid, r: nat, c: nat): Option<string> {
    if r < |rows| then Cell(rows[r], c) else None
  }

  /** `row` with cell `c` set to `v`; a short row is padded with empty
      cells up to `c`, as the sheet reads back after such a write. */
  function SetInRow(row: Row, c: nat, v: string): (r: Row)
    ensures |r| == if c < |row| then |row| else c + 1
    ensures r[c] == v
    ensures forall j :: 0 <= j < |r| && j != c ==> r[j] == (if j < |row| then row[j] else "")
  {
    if c < |row| then row[c := v]
    else row + seq(c - |row|, _ => "") + [v]
  }

  /** The grid after writing `v` into cell `(r, c)`; rows below the data
      are added empty. */
  function SetCell(rows: Grid, r: nat, c: nat, v: string): (g: Grid)
    ensures |g| == if r < |rows| then |rows| else r + 1
    ensures CellAt(g, r, c) == Some(v)
    ensures forall r' :: 0 <= r' < |rows| && r' != r ==> g[r'] == rows[r']
    ensures forall r': nat, c': nat :: (r' != r || c' != c) ==>
              CellAt(g, r', c') == CellAt(rows, r', c')
              || (r' == r && c' < c && CellAt(rows, r', c') == None && CellAt(g, r', c') == Some(""))
  {
    var padded := if r < |rows| then rows else rows + seq(r + 1 - |rows|, _ => []);
    var g := padded[r := SetInRow(padded[r], c, v)];
    assert forall r' :: 0 <= r' < |rows| ==> padded[r'] == rows[r'];
    assert forall r' :: |rows| <= r' < |padded| ==> padded[r'] == [];
    forall r': nat, c': nat | r' != r || c' != c
      ensures CellAt(g, r', c') == CellAt(rows, r', c')
              || (r' == r && c' < c && CellAt(rows, r', c') == None && CellAt(g, r', c') == Some(""))
    {
      if r' == r {
        assert CellAt(g, r', c') == Cell(SetInRow(padded[r], c, v), c');
      }
    }
    g
  }

  // ---------------------------------------------------------------------
  // A1 addressing

  /** The decimal digit for `d`. */
  function DigitChar(d: nat): (c: char)
    requires d < 10
    ensures IsDigit(c)
  {
    ('0' as int + d) as char
  }

  /** `${n}` for a non-negative integer: decimal, no leading zeros. */
  function Decimal(n: nat): (s: string)
    ensures s != [] && AllDigits(s)
    ensures |s| > 1 ==> s[0] != '0'
  {
    if n < 10 then [DigitChar(n)] else Decimal(n / 10) + [DigitChar(n % 10)]
  }

  /** The value of a string of decimal digits. */
  function DecimalValue(s: string): nat
    requires AllDigits(s)
  {
    if s == [] then 0
    else DecimalValue(s[..|s| - 1]) * 10 + (s[|s| - 1] as int - '0' as int)
  }

  lemma {:induction false} DecimalRoundTrip(n: nat)
    ensures DecimalValue(Decimal(n)) == n
  {
    var s := Decimal(n);
    if n >= 10 {
      DecimalRoundTrip(n / 10);
      assert s[..|s| - 1] == Decimal(n / 10);
    }
  }

  /** Length of the run of upper-case letters at the start of `s`. */
  function LeadingLetters(s: string): (k: nat)
    ensures k <= |s|
    ensures forall i :: 0 <= i < k ==> IsUpper(s[i])
    ensures k < |s| ==> !IsUpper(s[k])
  {
    if s == [] || !IsUpper(s[0]) then 0 else 1 + LeadingLetters(s[1..])
  }

  /** How the sheet reads an A1 cell reference `<letters><row number>`:
      the 0-based column and the 1-based row. */
  function ParseA1(s: string): Option<(nat, nat)> {
    var k := LeadingLetters(s);
    var letters := s[..k];
    var digits := s[k..];
    if k == 0 || digits == [] || !AllDigits(digits) then None
    else
      EncodeDecodeIndexNonNegative(letters);
      Some((ColumnIndex(letters) as nat, DecimalValue(digits)))
  }

  lemma EncodeDecodeIndexNonNegative(s: string)
    requires IsLabel(s)
    ensures ColumnIndex(s) >= 0
  {
    EncodeDecode(s);
  }

  /** A located cell and the literal to put there; `row` is the 0-based
      position in the value `values.get` returned. */
  datatype CellUpdate = CellUpdate(row: nat, col: nat, value: string)

  /** The range text the route sends:
      `MYF attendees!${getColumnLetter(col)}${row + 1}`. */
  function RangeOf(u: CellUpdate): string {
    SheetName + "!" + ColumnLetter(u.col) + Decimal(u.row + 1)
  }

  /** The sheet's side of `values.update` for a single-cell range on
      the attendee tab; `None` when the range is not such a reference. */
  function ApplyRangeWrite(rows: Grid, range: string, value: string): Option<Grid> {
    var prefix := SheetName + "!";
    if !IsPrefix(prefix, range) then None
    else
      match ParseA1(range[|prefix|..])
      case None => None
      case Some((col, rowNumber)) =>
        if rowNumber == 0 then None else Some(SetCell(rows, rowNumber - 1, col, value))
  }

  lemma {:induction false} LeadingLettersOfLabel(letters: string, rest: string)
    requires forall i :: 0 <= i < |letters| ==> IsUpper(letters[i])
    requires rest != [] && !IsUpper(rest[0])
    ensures LeadingLetters(letters + rest) == |letters|
  {
    if letters != [] {
      assert (letters + rest)[1..] == letters[1..] + rest;
      LeadingLettersOfLabel(letters[1..], rest);
    }
  }

  /** The range text addresses exactly the located cell: the label decodes
      to the column, and the 1-based row number to the matched row. */
  lemma AddressRoundTrip(rows: Grid, u: CellUpdate)
    ensures ApplyRangeWrite(rows, RangeOf(u), u.value) == Some(SetCell(rows, u.row, u.col, u.value))
  {
    var prefix := SheetName + "!";
    var letters := ColumnLetter(u.col);
    var digits := Decimal(u.row + 1);
    var range := RangeOf(u);
    assert range == prefix + (letters + digits);
    assert range[|prefix|..] == letters + digits;
    DecodeEncode(u.col);
    assert !IsUpper(digits[0]);
    LeadingLettersOfLabel(letters, digits);
    assert (letters + digits)[..|letters|] == letters;
    assert (letters + digits)[|letters|..] == digits;
    DecimalRoundTrip(u.row + 1);
  }

  /** Why a route's lookup failed; every one of these ends the request
      with the route's failure response and no write. */
  datatype LookupError =
    | ColumnNotFound      // a required header is absent from row 0
    | CellMissing(row: nat) // `split` on an undefined cell threw
    | NoMatch             // no row satisfied the search
    | ParameterMissing    // the request did not carry the value to search for

  /** The HTTP status of a mark route: 200 once its update is sent, 500
      for every thrown error. */
  function WriteStatus(r: Result<CellUpdate, LookupError>): (code: int)
    ensures code == 200 <==> r.Success?
    ensures code == 500 <==> r.Failure?
  {
    if r.Success? then 200 else 500
  }

  /** The sheet once a route has finished: its single `values.update`
      applied on success, untouched on failure. */
  function SheetAfter(rows: Grid, r: Result<CellUpdate, LookupError>): (g: Grid)
    ensures r.Failure? ==> g == rows
    ensures r.Success? ==> g == SetCell(rows, r.value.row, r.value.col, r.value.value)
  {
    match r
    case Failure(_) => rows
    case Success(u) =>
      AddressRoundTrip(rows, u);
      match ApplyRangeWrite(rows, RangeOf(u), u.value)
      case Some(g) => g
      case None => rows
  }
}
