/**
 * The Python string builtins the symptom extractor relies on: `str.lower`,
 * `str.strip`, `str.split(", ")`, and the ordering of `str` values that
 * `sorted(..., reverse=True)` uses.
 */
module Text {
  import opened Sorting

  /** The characters for which Python's `str.isspace()` holds. */
  predicate IsSpace(c: char) {
    || c == ' ' || '\t' <= c <= '\r' || '\U{1C}' <= c <= '\U{1F}'
    || c == '\U{85}' || c == '\U{A0}' || c == '\U{1680}'
    || '\U{2000}' <= c <= '\U{200A}' || c == '\U{2028}' || c == '\U{2029}'
    || c == '\U{202F}' || c == '\U{205F}' || c == '\U{3000}'
  }

  predicate IsUpper(c: char) {
    'A' <= c <= 'Z'
  }

  function LowerChar(c: char): char {
    if IsUpper(c) then (c as int + 32) as char else c
  }

  /** `s.lower()`, on the ASCII letters. */
  function Lower(s: string): (r: string)
    ensures |r| == |s|
    ensures forall i :: 0 <= i < |r| ==> !IsUpper(r[i])
    ensures forall i :: 0 <= i < |s| && !IsUpper(s[i]) ==> r[i] == s[i]
    ensures forall i :: 0 <= i < |s| && IsUpper(s[i]) ==> r[i] as int == s[i] as int + 32
  {
    seq(|s|, i requires 0 <= i < |s| => LowerChar(s[i]))
  }

  /** The number of whitespace characters `s` starts with. */
  function LeadingSpace(s: string): (n: nat)
    ensures n <= |s|
    ensures forall k :: 0 <= k < n ==> IsSpace(s[k])
    ensures n < |s| ==> !IsSpace(s[n])
  {
    if s != [] && IsSpace(s[0]) then 1 + LeadingSpace(s[1..]) else 0
  }

  /** The number of whitespace characters `s` ends with. */
  function TrailingSpace(s: string): (n: nat)
    ensures n <= |s|
    ensures forall k :: |s| - n <= k < |s| ==> IsSpace(s[k])
    ensures n < |s| ==> !IsSpace(s[|s| - 1 - n])
  {
    if s != [] && IsSpace(s[|s| - 1]) then 1 + TrailingSpace(s[..|s| - 1]) else 0
  }

  /**
   * `s.strip()`: the slice of `s` left once its leading and trailing
   * whitespace is removed.
   */
  function Strip(s: string): (r: string)
    ensures LeadingSpace(s) + |r| <= |s|
    ensures r == s[LeadingSpace(s)..LeadingSpace(s) + |r|]
    ensures forall k :: 0 <= k < LeadingSpace(s) ==> IsSpace(s[k])
    ensures forall k :: LeadingSpace(s) + |r| <= k < |s| ==> IsSpace(s[k])
    ensures r == [] || (!IsSpace(r[0]) && !IsSpace(r[|r| - 1]))
  {
    var rest := s[LeadingSpace(s)..];
    rest[..|rest| - TrailingSpace(rest)]
  }

  /** `p` contains the separator ", " somewhere. */
  predicate HasSeparator(p: string) {
    exists i :: 0 <= i < |p| - 1 && p[i] == ',' && p[i + 1] == ' '
  }

  /** `", ".join(pieces)`. */
  function Join(pieces: seq<string>): string {
    if pieces == [] then ""
    else if |pieces| == 1 then pieces[0]
    else pieces[0] + ", " + Join(pieces[1..])
  }

  /**
   * `s.split(", ")`: the pieces between the separators, scanning left to
   * right. Joining the pieces gives `s` back, and no piece contains the
   * separator.
   */
  function Split(s: string): (pieces: seq<string>)
    ensures |pieces| >= 1
    ensures pieces[0] <= s
    ensures Join(pieces) == s
    ensures forall p :: p in pieces ==> !HasSeparator(p)
  {
    if |s| < 2 then
      assert !HasSeparator(s);
      [s]
    else if s[0] == ',' && s[1] == ' ' then
      var rest := Split(s[2..]);
      assert s == "" + ", " + s[2..];
      [""] + rest
    else
      var rest := Split(s[1..]);
      assert rest[0] in rest;
      ExtendPiece(s, rest[0]);
      JoinExtend(s[0], rest);
      assert s == [s[0]] + s[1..];
      [[s[0]] + rest[0]] + rest[1..]
  }

  /** Prefixing a character that does not start a separator keeps a piece free of separators. */
  lemma ExtendPiece(s: string, piece: string)
    requires |s| >= 2 && !(s[0] == ',' && s[1] == ' ')
    requires piece <= s[1..] && !HasSeparator(piece)
    ensures !HasSeparator([s[0]] + piece)
  {
    var first := [s[0]] + piece;
    forall i | 0 <= i < |first| - 1
      ensures !(first[i] == ',' && first[i + 1] == ' ')
    {
      if i == 0 {
        assert first[1] == piece[0] == s[1];
      } else {
        assert piece[i - 1] == first[i] && piece[i] == first[i + 1];
      }
    }
  }

  lemma JoinExtend(c: char, pieces: seq<string>)
    requires |pieces| >= 1
    ensures Join([[c] + pieces[0]] + pieces[1..]) == [c] + Join(pieces)
  {
    if |pieces| > 1 {
      assert ([[c] + pieces[0]] + pieces[1..])[1..] == pieces[1..];
    }
  }

  /** Python's `a < b` on `str`: lexicographic order of code points. */
  predicate LexLess(a: string, b: string) {
    if a == [] then b != []
    else b != [] && (a[0] < b[0] || (a[0] == b[0] && LexLess(a[1..], b[1..])))
  }

  lemma {:induction false} LexIrreflexive(a: string)
    ensures !LexLess(a, a)
  {
    if a != [] {
      LexIrreflexive(a[1..]);
    }
  }

  lemma {:induction false} LexTransitive(a: string, b: string, c: string)
    requires LexLess(a, b) && LexLess(b, c)
    ensures LexLess(a, c)
  {
    if a != [] && a[0] == b[0] && b[0] == c[0] {
      LexTransitive(a[1..], b[1..], c[1..]);
    }
  }

  lemma {:induction false} LexTotal(a: string, b: string)
    ensures a == b || LexLess(a, b) || LexLess(b, a)
  {
    if a != [] && b != [] && a[0] == b[0] {
      LexTotal(a[1..], b[1..]);
      assert a == [a[0]] + a[1..] && b == [b[0]] + b[1..];
    }
  }

  /** The order of `sorted(..., reverse=True)` on strings: `a` comes before `b` when `a > b`. */
  predicate LexAbove(a: string, b: string) {
    LexLess(b, a)
  }

  lemma LexAboveIsStrictWeakOrder()
    ensures StrictWeakOrder(LexAbove)
  {
    forall a, b | LexAbove(a, b)
      ensures !LexAbove(b, a)
    {
      if LexAbove(b, a) {
        LexTransitive(a, b, a);
        LexIrreflexive(a);
      }
    }
    forall a, b, c | !LexAbove(a, b) && !LexAbove(b, c)
      ensures !LexAbove(a, c)
    {
      LexTotal(a, b);
      LexTotal(b, c);
      if LexAbove(a, c) {
        if a == b {
        } else if b == c {
        } else {
          LexTransitive(a, b, c);
          LexTransitive(a, c, a);
          LexIrreflexive(a);
        }
      }
    }
  }

  /** `sorted(xs, reverse=True)` for strings. */
  function SortDescending(xs: seq<string>): seq<string> {
    Sort(xs, LexAbove)
  }

  /** The elements of `s` are pairwise different and each is greater than every later one. */
  ghost predicate StrictlyDescending(s: seq<string>) {
    forall i, j :: 0 <= i < j < |s| ==> LexLess(s[j], s[i])
  }

  predicate Differ(a: string, b: string) {
    a != b
  }

  /**
   * Sorting a list without duplicates gives a strictly descending list with
   * the same elements.
   */
  lemma SortDescendingStrict(xs: seq<string>)
    requires Pairwise(xs, Differ)
    ensures multiset(SortDescending(xs)) == multiset(xs)
    ensures StrictlyDescending(SortDescending(xs))
  {
    var r := SortDescending(xs);
    LexAboveIsStrictWeakOrder();
    SortSorted(xs, LexAbove);
    SortPairwise(xs, LexAbove, Differ);
    forall i, j | 0 <= i < j < |r|
      ensures LexLess(r[j], r[i])
    {
      LexTotal(r[i], r[j]);
    }
  }

  /**
   * A strictly descending list is determined by its set of elements: two of
   * them with the same elements are equal.
   */
  lemma {:induction false} DescendingUnique(a: seq<string>, b: seq<string>)
    requires StrictlyDescending(a) && StrictlyDescending(b)
    requires forall x :: x in a <==> x in b
    ensures a == b
  {
    assert a != [] ==> a[0] in a;
    assert b != [] ==> b[0] in b;
    if a != [] {
      assert a[0] in a && a[0] in b;
      assert b[0] in b && b[0] in a;
      if a[0] != b[0] {
        var i :| 0 <= i < |b| && b[i] == a[0];
        var j :| 0 <= j < |a| && a[j] == b[0];
        assert LexLess(a[0], b[0]) && LexLess(b[0], a[0]);
        LexTransitive(a[0], b[0], a[0]);
        LexIrreflexive(a[0]);
      }
      assert a == [a[0]] + a[1..] && b == [b[0]] + b[1..];
      forall x
        ensures x in a[1..] <==> x in b[1..]
      {
        LexIrreflexive(x);
        if x in a[1..] {
          var i :| 1 <= i < |a| && a[i] == x;
          assert x != a[0] && x in b;
        }
        if x in b[1..] {
          var i :| 1 <= i < |b| && b[i] == x;
          assert x != b[0] && x in a;
        }
      }
      DescendingUnique(a[1..], b[1..]);
    }
  }
}
