/** Python string operations that several components share. */
module Text {

  /** The code points for which Python's str.isspace holds; regex \s and str.strip agree on them. */
  predicate IsSpace(c: char) {
    || '\t' <= c <= '\r'
    || '\U{1c}' <= c <= '\U{20}'
    || c == '\U{85}' || c == '\U{a0}' || c == '\U{1680}'
    || '\U{2000}' <= c <= '\U{200a}'
    || c == '\U{2028}' || c == '\U{2029}' || c == '\U{202f}' || c == '\U{205f}' || c == '\U{3000}'
  }

  /** No white space at either end: the fixed points of str.strip. */
  predicate Trimmed(s: string) {
    s == "" || (!IsSpace(s[0]) && !IsSpace(s[|s| - 1]))
  }

  /** str.strip() with no argument. */
  function Strip(s: string): (r: string)
    ensures Trimmed(r)
    ensures Trimmed(s) ==> r == s
    ensures |r| <= |s|
  {
    if s == "" then ""
    else if IsSpace(s[0]) then Strip(s[1..])
    else if IsSpace(s[|s| - 1]) then Strip(s[..|s| - 1])
    else s
  }

  /** strip cuts white space off the two ends and nothing else. */
  lemma {:induction false} StripCuts(s: string) returns (lo: nat, hi: nat)
    ensures lo <= hi <= |s| && Strip(s) == s[lo..hi]
    ensures forall i :: 0 <= i < |s| && !(lo <= i < hi) ==> IsSpace(s[i])
    decreases |s|
  {
    if s == "" {
      lo, hi := 0, 0;
    } else if IsSpace(s[0]) {
      lo, hi := StripCuts(s[1..]);
      CutTail(s, lo, hi);
      lo, hi := lo + 1, hi + 1;
    } else if IsSpace(s[|s| - 1]) {
      lo, hi := StripCuts(s[..|s| - 1]);
      assert s[..|s| - 1][lo..hi] == s[lo..hi];
      assert forall i :: 0 <= i < |s| - 1 ==> s[..|s| - 1][i] == s[i];
    } else {
      lo, hi := 0, |s|;
    }
  }

  lemma CutTail(s: string, lo: nat, hi: nat)
    requires s != "" && lo <= hi < |s|
    ensures s[1..][lo..hi] == s[lo + 1..hi + 1]
    ensures forall i :: 1 <= i < |s| ==> s[1..][i - 1] == s[i]
  {
  }

  /** The white space characters, one by one. */
  lemma SpacesAre(c: char)
    ensures IsSpace(c) <==>
            c in {'\t', '\n', '\U{0b}', '\U{0c}', '\r', '\U{1c}', '\U{1d}', '\U{1e}', '\U{1f}', ' ', '\U{85}', '\U{a0}',
                  '\U{1680}', '\U{2000}', '\U{2001}', '\U{2002}', '\U{2003}', '\U{2004}', '\U{2005}', '\U{2006}',
                  '\U{2007}', '\U{2008}', '\U{2009}', '\U{200a}', '\U{2028}', '\U{2029}', '\U{202f}', '\U{205f}',
                  '\U{3000}'}
  {
  }

  /** sep.join(parts) for a one-character separator. */
  function Join(parts: seq<string>, sep: char): string {
    if parts == [] then ""
    else if |parts| == 1 then parts[0]
    else parts[0] + [sep] + Join(parts[1..], sep)
  }

  /** s.split(sep) for a one-character separator; never empty. */
  function Split(s: string, sep: char): (parts: seq<string>)
    ensures |parts| > 0
    ensures forall p :: p in parts ==> sep !in p
  {
    if s == "" then [""]
    else
      var rest := Split(s[1..], sep);
      if s[0] == sep then [""] + rest else [[s[0]] + rest[0]] + rest[1..]
  }

  /** Splitting a piece followed by the separator peels the piece off. */
  lemma {:induction false} SplitPiece(piece: string, rest: string, sep: char)
    requires sep !in piece
    ensures Split(piece + [sep] + rest, sep) == [piece] + Split(rest, sep)
  {
    if piece == "" {
      assert (piece + [sep] + rest)[1..] == rest;
    } else {
      SplitPiece(piece[1..], rest, sep);
      assert (piece + [sep] + rest)[1..] == piece[1..] + [sep] + rest;
      assert [piece[0]] + piece[1..] == piece;
    }
  }

  lemma {:induction false} SplitWhole(piece: string, sep: char)
    requires sep !in piece
    ensures Split(piece, sep) == [piece]
  {
    if piece != "" {
      SplitWhole(piece[1..], sep);
      assert [piece[0]] + piece[1..] == piece;
    }
  }

  /** Splitting undoes joining when no part holds the separator. */
  lemma {:induction false} SplitJoin(parts: seq<string>, sep: char)
    requires parts != []
    requires forall p :: p in parts ==> sep !in p
    ensures Split(Join(parts, sep), sep) == parts
  {
    if |parts| == 1 {
      SplitWhole(parts[0], sep);
    } else {
      SplitPiece(parts[0], Join(parts[1..], sep), sep);
      SplitJoin(parts[1..], sep);
    }
  }

  /** Joining undoes splitting. */
  lemma {:induction false} JoinSplit(s: string, sep: char)
    ensures Join(Split(s, sep), sep) == s
  {
    if s != "" {
      JoinSplit(s[1..], sep);
      var rest := Split(s[1..], sep);
      if s[0] == sep {
        assert ([""] + rest)[1..] == rest;
      } else {
        var parts := [[s[0]] + rest[0]] + rest[1..];
        assert parts[1..] == rest[1..];
        if |rest| == 1 {
          assert Join(parts, sep) == [s[0]] + rest[0];
        } else {
          assert Join(parts, sep) == [s[0]] + (rest[0] + [sep] + Join(rest[1..], sep));
        }
      }
    }
  }

  /** The pieces on the two sides of a separator. */
  lemma {:induction false} SplitAppend(a: string, b: string, sep: char)
    ensures Split(a + [sep] + b, sep) == Split(a, sep) + Split(b, sep)
  {
    var s := a + [sep] + b;
    if a == "" {
      assert s[1..] == b;
    } else {
      assert s[1..] == a[1..] + [sep] + b && s[0] == a[0];
      SplitAppend(a[1..], b, sep);
      PiecesAppend(a[0], Split(a[1..], sep), Split(b, sep), sep);
    }
  }

  /** The pieces of a text from its first character and the pieces of the rest. */
  function GrownPieces(c: char, rest: seq<string>, sep: char): seq<string>
    requires rest != []
  {
    if c == sep then [""] + rest else [[c] + rest[0]] + rest[1..]
  }

  lemma PiecesAppend(c: char, rest: seq<string>, more: seq<string>, sep: char)
    requires rest != []
    ensures GrownPieces(c, rest + more, sep) == GrownPieces(c, rest, sep) + more
  {
    assert (rest + more)[1..] == rest[1..] + more;
  }

  /** list(dict.fromkeys(values)): first occurrences, in order. */
  function Dedupe<T(==,!new)>(values: seq<T>): (r: seq<T>)
    ensures forall x :: x in r <==> x in values
    ensures forall i, j :: 0 <= i < j < |r| ==> r[i] != r[j]
  {
    if values == [] then []
    else
      var init := Dedupe(values[..|values| - 1]);
      var last := values[|values| - 1];
      if last in init then init else init + [last]
  }

  /** Where x first stands. */
  function FirstAt<T(==)>(values: seq<T>, x: T): (i: nat)
    requires x in values
    ensures i < |values| && values[i] == x && x !in values[..i]
  {
    if values[0] == x then 0
    else
      assert values == [values[0]] + values[1..];
      var i := FirstAt(values[1..], x);
      assert values[..i + 1] == [values[0]] + values[1..][..i];
      i + 1
  }

  /** De-duplication keeps the values in the order of their first occurrences. */
  lemma {:induction false} DedupeKeepsOrder<T(!new)>(values: seq<T>, i: nat, j: nat)
    requires i < j < |Dedupe(values)|
    ensures FirstAt(values, Dedupe(values)[i]) < FirstAt(values, Dedupe(values)[j])
  {
    var n := |values| - 1;
    var init, last := Dedupe(values[..n]), values[n];
    assert values == values[..n] + [last];
    FirstAtPrefix(values, n, Dedupe(values)[i]);
    if j < |init| {
      FirstAtPrefix(values, n, Dedupe(values)[j]);
      DedupeKeepsOrder(values[..n], i, j);
    } else {
      assert FirstAt(values, last) == n;
    }
  }

  lemma {:induction false} FirstAtPrefix<T(!new)>(values: seq<T>, n: nat, x: T)
    requires n <= |values| && x in values[..n]
    ensures FirstAt(values, x) == FirstAt(values[..n], x)
  {
    if values[0] != x {
      assert values == [values[0]] + values[1..];
      assert values[..n][1..] == values[1..][..n - 1];
      assert values[..n] == [values[0]] + values[1..][..n - 1];
      FirstAtPrefix(values[1..], n - 1, x);
    }
  }

  /** A duplicate-free sequence is its own de-duplication. */
  lemma {:induction false} DedupeDistinct<T(!new)>(values: seq<T>)
    requires forall i, j :: 0 <= i < j < |values| ==> values[i] != values[j]
    ensures Dedupe(values) == values
  {
    if values != [] {
      var n := |values| - 1;
      DedupeDistinct(values[..n]);
      assert values == values[..n] + [values[n]];
    }
  }

  /** sub occurs in s at position i. */
  predicate OccursAt(sub: string, s: string, i: int) {
    0 <= i && i + |sub| <= |s| && s[i..i + |sub|] == sub
  }

  /** Python's `sub in s`. */
  ghost predicate Occurs(sub: string, s: string) {
    exists i :: OccursAt(sub, s, i)
  }
}
