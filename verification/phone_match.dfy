/** The lenient phone comparison: a stored number matches a query when
    the stored number's last five characters contain the query's last
    four. A contact cell may hold several numbers separated by `,` or `/`. */
module PhoneMatch {
  import opened JsText

  /** `piece.slice(-5).includes(query.slice(-4))`. */
  predicate PieceMatches(piece: string, query: string) {
    Includes(SliceFrom(piece, -5), SliceFrom(query, -4))
  }

  /** The piece as compared: trimmed at get-name-from-phone, raw at
      mark-registered. */
  function Prepare(piece: string, trim: bool): string {
    if trim then Trim(piece) else piece
  }

  /** `pieces.some(p => PieceMatches(Prepare(p), query))`. */
  predicate AnyPieceMatches(pieces: seq<string>, query: string, trim: bool) {
    pieces != [] && (PieceMatches(Prepare(pieces[0], trim), query) || AnyPieceMatches(pieces[1..], query, trim))
  }

  /** The whole contact cell matches the query. */
  predicate ContactMatches(cell: string, query: string, trim: bool) {
    AnyPieceMatches(Split(cell), query, trim)
  }

  /** Piece `i` of `pieces` matches the query. */
  predicate MatchesAt(pieces: seq<string>, query: string, trim: bool, i: int) {
    0 <= i < |pieces| && PieceMatches(Prepare(pieces[i], trim), query)
  }

  /** `some` holds exactly when one of the pieces matches. */
  lemma {:induction false} AnyPieceMatchesIff(pieces: seq<string>, query: string, trim: bool)
    ensures AnyPieceMatches(pieces, query, trim) <==> exists i :: MatchesAt(pieces, query, trim, i)
  {
    if pieces != [] {
      AnyPieceMatchesIff(pieces[1..], query, trim);
      if MatchesAt(pieces, query, trim, 0) {
      } else if exists i :: MatchesAt(pieces, query, trim, i) {
        var i :| MatchesAt(pieces, query, trim, i);
        assert pieces[1..][i - 1] == pieces[i];
        assert MatchesAt(pieces[1..], query, trim, i - 1);
      } else if AnyPieceMatches(pieces[1..], query, trim) {
        var i :| MatchesAt(pieces[1..], query, trim, i);
        assert MatchesAt(pieces, query, trim, i + 1);
      }
    }
  }

  /** A cell matches exactly when some `,`/`/` piece of it, trimmed or
      not as the call site decides, has a last-five window holding the
      query's last four characters. */
  lemma ContactMatchesIff(cell: string, query: string, trim: bool)
    ensures ContactMatches(cell, query, trim) <==> exists i :: MatchesAt(Split(cell), query, trim, i)
  {
    assert ContactMatches(cell, query, trim) == AnyPieceMatches(Split(cell), query, trim);
    AnyPieceMatchesIff(Split(cell), query, trim);
  }

  /** An empty query is contained in every window, so it matches any cell. */
  lemma {:induction false} EmptyQueryMatches(cell: string, trim: bool)
    ensures ContactMatches(cell, "", trim)
  {
    IncludesEmpty(SliceFrom(Prepare(Split(cell)[0], trim), -5));
  }

  /** Splitting at a separator that ends a separator-free prefix. */
  lemma {:induction false} SplitAfter(a: string, c: char, b: string)
    requires forall j :: 0 <= j < |a| ==> !IsSeparator(a[j])
    requires IsSeparator(c)
    ensures Split(a + [c] + b) == [a] + Split(b)
  {
    if a == [] {
      assert [c] + b == (a + [c] + b);
      assert (a + [c] + b)[1..] == b;
    } else {
      var s := a + [c] + b;
      assert s[1..] == a[1..] + [c] + b;
      SplitAfter(a[1..], c, b);
      assert [a[0]] + a[1..] == a;
    }
  }

  /** A separator-free string is a single piece. */
  lemma {:induction false} SplitNone(a: string)
    requires forall j :: 0 <= j < |a| ==> !IsSeparator(a[j])
    ensures Split(a) == [a]
  {
    if a != [] {
      SplitNone(a[1..]);
      assert [a[0]] + a[1..] == a;
    }
  }

  lemma ExampleSplit(a: string, b: string)
    requires a == "9876543210" && b == "2345678901"
    ensures Split(a + ", " + b) == [a, [' '] + b]
  {
    var sb := [' '] + b;
    assert a + ", " + b == a + [','] + sb;
    assert forall j :: 0 <= j < |a| ==> !IsSeparator(a[j]);
    assert forall j :: 0 <= j < |sb| ==> !IsSeparator(sb[j]);
    SplitAfter(a, ',', sb);
    SplitNone(sb);
  }

  lemma ExampleTrim(a: string, b: string)
    requires a == "9876543210" && b == "2345678901"
    ensures Trim([' '] + b) == b && Trim(a) == a
  {
    var sb := [' '] + b;
    assert LeadingSpaces(b) == 0;
    assert sb[1..] == b;
    assert LeadingSpaces(sb) == 1;
    assert TrailingSpaces(b) == 0;
    assert LeadingSpaces(a) == 0;
    assert TrailingSpaces(a) == 0;
  }

  lemma ExampleWindows(a: string, b: string, other: string)
    requires a == "9876543210" && b == "2345678901" && other == "0000000000"
    ensures PieceMatches(b, b)
    ensures !PieceMatches(a, other) && !PieceMatches(b, other)
  {
    var wa := SliceFrom(a, -5);
    var wb := SliceFrom(b, -5);
    var qb := SliceFrom(b, -4);
    var qo := SliceFrom(other, -4);
    assert wb == b[5..] && qb == b[6..] && wa == a[5..] && qo == other[6..];
    assert wb[1..] == qb;
    assert IsPrefix(qb, wb[1..]);
    assert Includes(wb, qb);
    assert wa[0] != '0' && wa[1] != '0' && wb[0] != '0' && wb[1] != '0';
    assert !IsPrefix(qo, wa) && !IsPrefix(qo, wa[1..]);
    assert !IsPrefix(qo, wb) && !IsPrefix(qo, wb[1..]);
    IncludesTooLong(wa[1..][1..], qo);
    IncludesTooLong(wb[1..][1..], qo);
    assert !Includes(wa[1..], qo);
    assert !Includes(wb[1..], qo);
    assert !Includes(wa, qo);
    assert !Includes(wb, qo);
  }

  /** The cell `a + ", " + b` with two ten-digit numbers `a`, `b`: the
      second one is found by its own digits, and a number sharing no
      last-four digits with either is not. */
  lemma MatchExamples(a: string, b: string, other: string)
    requires a == "9876543210" && b == "2345678901" && other == "0000000000"
    ensures ContactMatches(a + ", " + b, b, true)
    ensures !ContactMatches(a + ", " + b, other, true)
  {
    ExampleSplit(a, b);
    ExampleTrim(a, b);
    ExampleWindows(a, b, other);
    var pieces := [a, [' '] + b];
    assert pieces[1..][1..] == [];
    assert Prepare(pieces[1], true) == b && Prepare(pieces[0], true) == a;
    assert !AnyPieceMatches(pieces[1..][1..], other, true);
    assert !AnyPieceMatches(pieces[1..], other, true);
    assert !AnyPieceMatches(pieces, other, true);
  }
}
