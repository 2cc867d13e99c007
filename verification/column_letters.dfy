/** Spreadsheet column labels: 0-based column index to letters, bijective
    base 26 (A..Z, AA..AZ, BA.., ZZ, AAA..). The mark-registered and
    mark-present routes carry identical copies of this helper. */
module ColumnLetters {

  predicate IsUpper(c: char) {
    'A' <= c <= 'Z'
  }

  /** A well-formed label: non-empty, upper-case letters only. */
  predicate IsLabel(s: string) {
    s != [] && forall i :: 0 <= i < |s| ==> IsUpper(s[i])
  }

  /** The letter for digit `d`: `String.fromCharCode(65 + d)`. */
  function Letter(d: nat): (c: char)
    requires d < 26
    ensures IsUpper(c)
  {
    (65 + d) as char
  }

  /** The label of column `index`: non-empty upper-case letters for every
      column; negative indices give the empty label, as the source loop
      does not run for them. */
  function ColumnLetter(index: int): (s: string)
    ensures index >= 0 ==> IsLabel(s)
    decreases index + 1
  {
    if index < 0 then ""
    else ColumnLetter(index / 26 - 1) + [Letter(index % 26)]
  }

  /** The source's loop: prepend `65 + index % 26`, then continue with
      `floor(index / 26) - 1` while the index is non-negative. */
  method ColumnLetterLoop(index: int) returns (letter: string)
    ensures letter == ColumnLetter(index)
  {
    letter := "";
    var i := index;
    while i >= 0
      invariant i >= -1 || i == index
      invariant ColumnLetter(i) + letter == ColumnLetter(index)
      decreases i + 1
    {
      letter := [Letter(i % 26)] + letter;
      i := i / 26 - 1;
    }
  }

  /** The value of a label read as a bijective base-26 numeral
      (A = 1, ..., Z = 26). */
  function LabelValue(s: string): nat
    requires forall i :: 0 <= i < |s| ==> IsUpper(s[i])
  {
    if s == [] then 0
    else
      assert IsUpper(s[|s| - 1]);
      LabelValue(s[..|s| - 1]) * 26 + (s[|s| - 1] as int - 'A' as int + 1)
  }

  /** Decoding a label back to a 0-based column index. */
  function ColumnIndex(s: string): int
    requires forall i :: 0 <= i < |s| ==> IsUpper(s[i])
  {
    LabelValue(s) - 1
  }

  /** Decoding inverts encoding: the label of `index` reads back as `index`. */
  lemma {:induction false} DecodeEncode(index: int)
    requires index >= 0
    ensures IsLabel(ColumnLetter(index))
    ensures ColumnIndex(ColumnLetter(index)) == index
    decreases index
  {
    var m := index / 26 - 1;
    var s := ColumnLetter(index);
    assert s[..|s| - 1] == ColumnLetter(m);
    assert s[|s| - 1] as int - 'A' as int == index % 26;
    if m >= 0 {
      DecodeEncode(m);
      assert LabelValue(ColumnLetter(m)) == index / 26;
    } else {
      assert ColumnLetter(m) == "";
      assert index / 26 == 0;
    }
    assert LabelValue(s) == (index / 26) * 26 + index % 26 + 1;
  }

  /** Encoding inverts decoding: every well-formed label is the label of
      the index it decodes to, so labels and indices are in bijection. */
  lemma {:induction false} EncodeDecode(s: string)
    requires IsLabel(s)
    ensures ColumnIndex(s) >= 0
    ensures ColumnLetter(ColumnIndex(s)) == s
    decreases |s|
  {
    var t := s[..|s| - 1];
    var d := s[|s| - 1] as int - 'A' as int;
    var n := LabelValue(s) - 1;
    assert n == LabelValue(t) * 26 + d;
    assert n % 26 == d && n / 26 == LabelValue(t) by {
      assert 0 <= d < 26;
    }
    assert Letter(d) == s[|s| - 1];
    if t == [] {
      assert ColumnLetter(n / 26 - 1) == "";
    } else {
      EncodeDecode(t);
    }
    assert s == t + [s[|s| - 1]];
  }

  /** Distinct columns get distinct labels. */
  lemma ColumnLetterInjective(a: int, b: int)
    requires a >= 0 && b >= 0
    requires ColumnLetter(a) == ColumnLetter(b)
    ensures a == b
  {
    DecodeEncode(a);
    DecodeEncode(b);
  }

  /** The boundary labels of one, two and three letters. */
  lemma ColumnLetterExamples()
    ensures ColumnLetter(0) == "A"
    ensures ColumnLetter(25) == "Z"
    ensures ColumnLetter(26) == "AA"
    ensures ColumnLetter(701) == "ZZ"
    ensures ColumnLetter(702) == "AAA"
  {
    assert ColumnLetter(-1) == "";
    assert ColumnLetter(0) == "A";
    assert ColumnLetter(25) == "Z";
    assert ColumnLetter(26) == ColumnLetter(0) + "A";
    assert ColumnLetter(701) == ColumnLetter(25) + "Z";
    assert ColumnLetter(702) == ColumnLetter(26) + "A";
  }
}
