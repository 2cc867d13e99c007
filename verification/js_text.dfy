/** The JavaScript string operations the routes and components rely on,
    over `seq<char>`. Lengths count characters, not UTF-16 code units. */
module JsText {

  /** The characters JavaScript's `trim()` removes and the regular
      expression class `\s` matches (WhiteSpace and LineTerminator). */
  predicate IsSpace(c: char) {
    var n := c as int;
    n == 0x09 || n == 0x0A || n == 0x0B || n == 0x0C || n == 0x0D || n == 0x20
    || n == 0xA0 || n == 0x1680 || (0x2000 <= n <= 0x200A)
    || n == 0x2028 || n == 0x2029 || n == 0x202F || n == 0x205F
    || n == 0x3000 || n == 0xFEFF
  }

  /** The regular expression class `\d`. */
  predicate IsDigit(c: char) {
    '0' <= c <= '9'
  }

  predicate IsAsciiLetter(c: char) {
    ('a' <= c <= 'z') || ('A' <= c <= 'Z')
  }

  predicate AllDigits(s: string) {
    forall i :: 0 <= i < |s| ==> IsDigit(s[i])
  }

  /** Number of leading whitespace characters. */
  function LeadingSpaces(s: string): (k: nat)
    ensures k <= |s|
    ensures forall i :: 0 <= i < k ==> IsSpace(s[i])
    ensures k < |s| ==> !IsSpace(s[k])
  {
    if s == [] || !IsSpace(s[0]) then 0 else 1 + LeadingSpaces(s[1..])
  }

  /** Number of trailing whitespace characters. */
  function TrailingSpaces(s: string): (k: nat)
    ensures k <= |s|
    ensures forall i :: |s| - k <= i < |s| ==> IsSpace(s[i])
    ensures k < |s| ==> !IsSpace(s[|s| - k - 1])
  {
    if s == [] || !IsSpace(s[|s| - 1]) then 0 else 1 + TrailingSpaces(s[..|s| - 1])
  }

  /** `s.trim()`: the infix left after removing whitespace from both ends. */
  function Trim(s: string): (t: string)
    ensures |t| <= |s|
    ensures t != [] ==> !IsSpace(t[0]) && !IsSpace(t[|t| - 1])
    ensures exists i :: TrimmedAt(s, t, i)
  {
    var a := LeadingSpaces(s);
    var rest := s[a..];
    var b := TrailingSpaces(rest);
    var t := rest[..|rest| - b];
    assert s[a..a + |t|] == t;
    assert TrimmedAt(s, t, a);
    t
  }

  /** `t` sits at offset `i` of `s` with only whitespace around it. */
  predicate TrimmedAt(s: string, t: string, i: int) {
    && 0 <= i <= |s| - |t|
    && s[i..i + |t|] == t
    && (forall j :: 0 <= j < i ==> IsSpace(s[j]))
    && (forall j :: i + |t| <= j < |s| ==> IsSpace(s[j]))
  }

  /** The offset JavaScript's `slice` uses for an argument `k` on a string
      of length `len`: negative counts from the end, and both are clamped. */
  function RelativeIndex(k: int, len: nat): (r: nat)
    ensures r <= len
    ensures 0 <= k <= len ==> r == k
    ensures k < 0 && len + k >= 0 ==> r == len + k
    ensures len + k < 0 ==> r == 0
    ensures k > len ==> r == len
  {
    if k < 0 then (if len + k < 0 then 0 else len + k)
    else if k > len then len else k
  }

  /** `s.slice(start, end)`. */
  function Slice<T>(s: seq<T>, start: int, end: int): (r: seq<T>)
    ensures |r| <= |s|
    ensures RelativeIndex(start, |s|) <= RelativeIndex(end, |s|) ==>
              r == s[RelativeIndex(start, |s|)..RelativeIndex(end, |s|)]
    ensures RelativeIndex(start, |s|) > RelativeIndex(end, |s|) ==> r == []
  {
    var a := RelativeIndex(start, |s|);
    var b := RelativeIndex(end, |s|);
    if a <= b then s[a..b] else []
  }

  /** `s.slice(start)`. */
  function SliceFrom<T>(s: seq<T>, start: int): seq<T> {
    Slice(s, start, |s|)
  }

  /** `s.slice(-n)` for `n > 0` keeps the last `n` characters, or all of
      `s` when it is shorter. */
  lemma SliceLast<T>(s: seq<T>, n: nat)
    requires n > 0
    ensures |SliceFrom(s, -(n as int))| == if |s| < n then |s| else n
    ensures SliceFrom(s, -(n as int)) == s[|s| - |SliceFrom(s, -(n as int))|..]
  {
  }

  predicate IsPrefix<T(==)>(p: seq<T>, s: seq<T>) {
    |p| <= |s| && s[..|p|] == p
  }

  /** `s.startsWith(p)`. */
  predicate StartsWith(s: string, p: string) {
    IsPrefix(p, s)
  }

  /** `hay.includes(needle)`, scanning start positions left to right. */
  predicate Includes(hay: string, needle: string)
    decreases |hay|
  {
    IsPrefix(needle, hay) || (hay != [] && Includes(hay[1..], needle))
  }

  /** `needle` occurs in `hay` starting at position `i`. */
  predicate OccursAt(hay: string, needle: string, i: int) {
    0 <= i <= |hay| - |needle| && hay[i..i + |needle|] == needle
  }

  /** `Includes` holds exactly when `needle` occurs at some position. */
  lemma {:induction false} IncludesIff(hay: string, needle: string)
    ensures Includes(hay, needle) <==> exists i :: OccursAt(hay, needle, i)
    decreases |hay|
  {
    if IsPrefix(needle, hay) {
      assert OccursAt(hay, needle, 0);
    } else if hay == [] {
    } else {
      IncludesIff(hay[1..], needle);
      if exists i :: OccursAt(hay, needle, i) {
        var i :| OccursAt(hay, needle, i);
        assert i != 0;
        assert hay[1..][i - 1..i - 1 + |needle|] == hay[i..i + |needle|];
        assert OccursAt(hay[1..], needle, i - 1);
      }
      if Includes(hay[1..], needle) {
        var i :| OccursAt(hay[1..], needle, i);
        assert hay[i + 1..i + 1 + |needle|] == hay[1..][i..i + |needle|];
        assert OccursAt(hay, needle, i + 1);
      }
    }
  }

  /** A needle longer than the haystack is never included. */
  lemma {:induction false} IncludesTooLong(hay: string, needle: string)
    requires |needle| > |hay|
    ensures !Includes(hay, needle)
    decreases |hay|
  {
    if hay != [] {
      IncludesTooLong(hay[1..], needle);
    }
  }

  /** The empty string is included in every string. */
  lemma IncludesEmpty(hay: string)
    ensures Includes(hay, "")
  {
  }

  /** The separators of the regular expression `/[,/]/`. */
  predicate IsSeparator(c: char) {
    c == ',' || c == '/'
  }

  /** `s.split(/[,/]/)`: always at least one piece; adjacent or edge
      separators give empty pieces. */
  function Split(s: string): (pieces: seq<string>)
    ensures |pieces| >= 1
    ensures forall k, j :: 0 <= k < |pieces| && 0 <= j < |pieces[k]| ==> !IsSeparator(pieces[k][j])
  {
    if s == [] then [[]]
    else
      var rest := Split(s[1..]);
      if IsSeparator(s[0]) then [[]] + rest
      else [[s[0]] + rest[0]] + rest[1..]
  }

  /** The separators of `s`, in order. */
  function Separators(s: string): (seps: string)
    ensures forall j :: 0 <= j < |seps| ==> IsSeparator(seps[j])
  {
    if s == [] then []
    else if IsSeparator(s[0]) then [s[0]] + Separators(s[1..])
    else Separators(s[1..])
  }

  /** Re-joins pieces, putting `seps[k]` between `pieces[k]` and `pieces[k+1]`. */
  function JoinWith(pieces: seq<string>, seps: string): string
    requires |pieces| == |seps| + 1
    decreases |seps|
  {
    if seps == [] then pieces[0]
    else pieces[0] + [seps[0]] + JoinWith(pieces[1..], seps[1..])
  }

  /** Splitting loses nothing: there is one more piece than separators and
      re-joining the pieces with the original separators gives `s` back. */
  lemma {:induction false} SplitJoin(s: string)
    ensures |Split(s)| == |Separators(s)| + 1
    ensures JoinWith(Split(s), Separators(s)) == s
  {
    if s == [] {
    } else {
      SplitJoin(s[1..]);
      var rest := Split(s[1..]);
      var seps := Separators(s[1..]);
      if IsSeparator(s[0]) {
        assert Split(s)[1..] == rest;
      } else {
        var pieces := Split(s);
        assert pieces[1..] == rest[1..];
        if seps == [] {
          assert JoinWith(pieces, seps) == [s[0]] + rest[0];
        } else {
          assert JoinWith(rest, seps) == rest[0] + [seps[0]] + JoinWith(rest[1..], seps[1..]);
          assert JoinWith(pieces, seps) == [s[0]] + rest[0] + [seps[0]] + JoinWith(rest[1..], seps[1..]);
        }
      }
    }
  }

  /** ASCII lower-casing of one character. */
  function LowerChar(c: char): char {
    if 'A' <= c <= 'Z' then (c as int + 32) as char else c
  }

  /** `s.toLowerCase()` on the ASCII range. */
  function ToLower(s: string): (r: string)
    ensures |r| == |s|
    ensures forall i :: 0 <= i < |s| ==> r[i] == LowerChar(s[i])
  {
    seq(|s|, i requires 0 <= i < |s| => LowerChar(s[i]))
  }

  /** `s.replace(/\D/g, '')`: the digits of `s`, in order. */
  function DigitsOf(s: string): (d: string)
    ensures AllDigits(d)
    ensures |d| <= |s|
  {
    if s == [] then []
    else if IsDigit(s[0]) then [s[0]] + DigitsOf(s[1..])
    else DigitsOf(s[1..])
  }

  /** Lower-casing leaves no upper-case ASCII letter, so a second pass
      changes nothing. */
  lemma ToLowerIdempotent(s: string)
    ensures forall i :: 0 <= i < |s| ==> !('A' <= ToLower(s)[i] <= 'Z')
    ensures ToLower(ToLower(s)) == ToLower(s)
  {
  }

  /** Digit extraction distributes over concatenation. */
  lemma {:induction false} DigitsOfAppend(a: string, b: string)
    ensures DigitsOf(a + b) == DigitsOf(a) + DigitsOf(b)
    decreases |a|
  {
    if a == [] {
      assert a + b == b;
    } else {
      var ab := a + b;
      assert ab != [] && ab[0] == a[0];
      assert ab[1..] == a[1..] + b;
      DigitsOfAppend(a[1..], b);
      if IsDigit(a[0]) {
        assert DigitsOf(ab) == [a[0]] + DigitsOf(a[1..] + b);
        assert DigitsOf(a) == [a[0]] + DigitsOf(a[1..]);
      } else {
        assert DigitsOf(ab) == DigitsOf(a[1..] + b);
        assert DigitsOf(a) == DigitsOf(a[1..]);
      }
    }
  }

  /** One character contributes itself when it is a digit, else nothing. */
  lemma DigitsOfChar(c: char)
    ensures DigitsOf([c]) == if IsDigit(c) then [c] else []
  {
    assert [c][1..] == [];
  }

  /** A number typed as `(ddd) ddd-dddd`: the punctuation and the space
      are dropped and the digits keep their order. */
  lemma DigitsOfFormatted(area: string, exchange: string, line: string)
    requires AllDigits(area) && AllDigits(exchange) && AllDigits(line)
    ensures DigitsOf("(" + area + ") " + exchange + "-" + line) == area + exchange + line
  {
    var p3 := "(" + area + ") ";
    var p5 := p3 + exchange + "-";
    calc {
      DigitsOf(p5 + line);
    == { DigitsOfAppend(p5, line); }
      DigitsOf(p5) + DigitsOf(line);
    == { DigitsAround(p3, exchange, "-"); }
      DigitsOf(p3) + DigitsOf(exchange) + DigitsOf(line);
    == { DigitsAround("(", area, ") "); }
      DigitsOf("(") + DigitsOf(area) + DigitsOf(exchange) + DigitsOf(line);
    == { DigitsOfChar('('); assert "(" == ['(']; }
      [] + DigitsOf(area) + DigitsOf(exchange) + DigitsOf(line);
    == { DigitsOfDigits(area); DigitsOfDigits(exchange); DigitsOfDigits(line); }
      [] + area + exchange + line;
    == { assert [] + area == area; }
      area + exchange + line;
    }
  }

  /** Digits between two digit-free strings are kept unchanged. */
  lemma DigitsAround(pre: string, mid: string, post: string)
    requires forall i :: 0 <= i < |post| ==> !IsDigit(post[i])
    ensures DigitsOf(pre + mid + post) == DigitsOf(pre) + DigitsOf(mid)
  {
    DigitsOfAppend(pre, mid);
    DigitsOfAppend(pre + mid, post);
    NoDigits(post);
  }

  /** A digit-free string has no digits to keep. */
  lemma {:induction false} NoDigits(s: string)
    requires forall i :: 0 <= i < |s| ==> !IsDigit(s[i])
    ensures DigitsOf(s) == []
  {
    if s != [] {
      NoDigits(s[1..]);
    }
  }

  /** A string of digits is its own digit string. */
  lemma {:induction false} DigitsOfDigits(s: string)
    requires AllDigits(s)
    ensures DigitsOf(s) == s
  {
    if s != [] {
      DigitsOfDigits(s[1..]);
    }
  }
}
