/** core/keyword_highlight.py: cutting a text into highlighted and plain segments. */
module KeywordHighlight {
  import opened Text
  import opened Ranges
  import opened KeywordText
  import opened KeywordRules

  // ---- normalised text with an index map ----

  /** The folding of one character. */
  function Piece(f: Folding, c: char): string {
    MapChars(f.lower, f.nfkc(c))
  }

  /** For each folded character of the first n characters, the index it comes from. */
  function FoldedSources(f: Folding, text: string, n: nat): (r: seq<nat>)
    requires n <= |text|
    ensures forall i :: i in r ==> i < n
  {
    if n == 0 then []
    else if IsZeroWidth(text[n - 1]) then FoldedSources(f, text, n - 1)
    else FoldedSources(f, text, n - 1) + seq(|Piece(f, text[n - 1])|, _ => n - 1)
  }

  /** The sources of Words(d, m): a written space comes from the first space of its gap. */
  function Sources(d: string, src: seq<nat>, m: Mode, gap: nat): (r: seq<nat>)
    requires |d| == |src|
    ensures |r| == |Words(d, m)|
  {
    if d == "" then []
    else if IsSpace(d[0]) then Sources(d[1..], src[1..], AfterSpace(m), if m == Word then src[0] else gap)
    else (if m == Gap then [gap, src[0]] else [src[0]]) + Sources(d[1..], src[1..], Word, gap)
  }

  function EndGap(d: string, src: seq<nat>, m: Mode, gap: nat): nat
    requires |d| == |src|
  {
    if d == "" then gap
    else if IsSpace(d[0]) then EndGap(d[1..], src[1..], AfterSpace(m), if m == Word then src[0] else gap)
    else EndGap(d[1..], src[1..], Word, gap)
  }

  /** The text as the highlighter sees it. */
  function Seen(f: Folding, text: string): string {
    Words(Folded(f, text), Start)
  }

  /** Where each character of Seen comes from. */
  function Origins(f: Folding, text: string): (r: seq<nat>)
    ensures |r| == |Seen(f, text)|
  {
    FoldedPrefix(f, text, |text|);
    assert text[..|text|] == text;
    Sources(Folded(f, text), FoldedSources(f, text, |text|), Start, 0)
  }

  /** Folding one more character. */
  lemma FoldedStep(f: Folding, text: string, n: nat)
    requires n < |text|
    ensures IsZeroWidth(text[n]) ==> Folded(f, text[..n + 1]) == Folded(f, text[..n])
    ensures !IsZeroWidth(text[n]) ==> Folded(f, text[..n + 1]) == Folded(f, text[..n]) + Piece(f, text[n])
  {
    var kept := RemoveZeroWidth([text[n]]);
    assert text[..n + 1] == text[..n] + [text[n]];
    RemovalAppend(text[..n], [text[n]]);
    MapCharsAppend(f.nfkc, RemoveZeroWidth(text[..n]), kept);
    MapCharsAppend(f.lower, MapChars(f.nfkc, RemoveZeroWidth(text[..n])), MapChars(f.nfkc, kept));
    if !IsZeroWidth(text[n]) {
      assert kept == [text[n]];
      assert MapChars(f.nfkc, kept) == f.nfkc(text[n]) + MapChars(f.nfkc, "");
      assert MapChars(f.nfkc, kept) == f.nfkc(text[n]);
    }
  }

  lemma {:induction false} FoldedPrefix(f: Folding, text: string, n: nat)
    requires n <= |text|
    ensures |Folded(f, text[..n])| == |FoldedSources(f, text, n)|
  {
    if n > 0 {
      FoldedPrefix(f, text, n - 1);
      FoldedStep(f, text, n - 1);
    }
  }

  lemma {:induction false} SourcesAppend(a: string, asrc: seq<nat>, b: string, bsrc: seq<nat>, m: Mode, gap: nat)
    requires |a| == |asrc| && |b| == |bsrc|
    ensures Sources(a + b, asrc + bsrc, m, gap) ==
            Sources(a, asrc, m, gap) + Sources(b, bsrc, EndMode(a, m), EndGap(a, asrc, m, gap))
    ensures EndGap(a + b, asrc + bsrc, m, gap) == EndGap(b, bsrc, EndMode(a, m), EndGap(a, asrc, m, gap))
  {
    if a == "" {
      assert a + b == b && asrc + bsrc == bsrc;
    } else {
      assert (a + b)[1..] == a[1..] + b && (asrc + bsrc)[1..] == asrc[1..] + bsrc;
      if IsSpace(a[0]) {
        SourcesAppend(a[1..], asrc[1..], b, bsrc, AfterSpace(m), if m == Word then asrc[0] else gap);
      } else {
        SourcesAppend(a[1..], asrc[1..], b, bsrc, Word, gap);
      }
    }
  }

  /** What the loop has written for the folded characters d so far: the words, and the space of an open gap. */
  ghost predicate Written(d: string, src: seq<nat>, chars: string, origins: seq<nat>, lastWasSpace: bool) {
    && |d| == |src|
    && (lastWasSpace <==> EndMode(d, Start) == Gap)
    && (chars == "" <==> EndMode(d, Start) == Start)
    && chars == Words(d, Start) + (if lastWasSpace then " " else "")
    && origins == Sources(d, src, Start, 0) + (if lastWasSpace then [EndGap(d, src, Start, 0)] else [])
    && (chars != "" && !lastWasSpace ==> !IsSpace(chars[|chars| - 1]))
  }

  lemma WrittenStep(d: string, src: seq<nat>, c: char, i: nat, chars: string, origins: seq<nat>, lastWasSpace: bool)
    requires Written(d, src, chars, origins, lastWasSpace)
    ensures
      if !IsSpace(c) then Written(d + [c], src + [i], chars + [c], origins + [i], false)
      else if !lastWasSpace && chars != "" then Written(d + [c], src + [i], chars + " ", origins + [i], true)
      else Written(d + [c], src + [i], chars, origins, lastWasSpace)
  {
    WordsAppend(d, [c], Start);
    SourcesAppend(d, src, [c], [i], Start, 0);
    var m, gap := EndMode(d, Start), EndGap(d, src, Start, 0);
    OneCharacter(c, i, m, gap);
    if !IsSpace(c) && m == Gap {
      assert Words(d, Start) + [' ', c] == chars + [c];
      assert Sources(d, src, Start, 0) + [gap, i] == origins + [i];
    }
  }

  lemma OneCharacter(c: char, i: nat, m: Mode, gap: nat)
    ensures Words([c], m) == (if IsSpace(c) then "" else if m == Gap then [' ', c] else [c])
    ensures Sources([c], [i], m, gap) == (if IsSpace(c) then [] else if m == Gap then [gap, i] else [i])
    ensures EndMode([c], m) == (if IsSpace(c) then AfterSpace(m) else Word)
    ensures EndGap([c], [i], m, gap) == (if IsSpace(c) && m == Word then i else gap)
  {
  }

  /** The inner loop of _normalize_with_original_map: the folding of the character at index i. */
  method WritePiece(piece: string, i: nat, ghost d: string, ghost src: seq<nat>, chars0: string, origins0: seq<nat>,
                    lastWasSpace0: bool)
    returns (chars: string, origins: seq<nat>, lastWasSpace: bool)
    requires Written(d, src, chars0, origins0, lastWasSpace0)
    ensures Written(d + piece, src + seq(|piece|, _ => i), chars, origins, lastWasSpace)
  {
    chars, origins, lastWasSpace := chars0, origins0, lastWasSpace0;
    ghost var done, from: seq<nat> := d, src;
    for j := 0 to |piece|
      invariant done == d + piece[..j] && from == src + seq(j, _ => i)
      invariant Written(done, from, chars, origins, lastWasSpace)
    {
      var c := piece[j];
      WrittenStep(done, from, c, i, chars, origins, lastWasSpace);
      done, from := done + [c], from + [i];
      if IsSpace(c) {
        if !lastWasSpace && chars != "" {
          chars, origins := chars + " ", origins + [i];
          lastWasSpace := true;
        }
        continue;
      }
      chars, origins := chars + [c], origins + [i];
      lastWasSpace := false;
    }
    assert piece[..|piece|] == piece;
  }

  /** _normalize_with_original_map */
  method NormalizeWithOriginalMap(f: Folding, text: string) returns (chars: string, origins: seq<nat>)
    ensures chars == Seen(f, text) && origins == Origins(f, text)
  {
    chars, origins := "", [];
    var lastWasSpace := false;
    for i := 0 to |text|
      invariant Written(Folded(f, text[..i]), FoldedSources(f, text, i), chars, origins, lastWasSpace)
    {
      FoldedStep(f, text, i);
      if IsZeroWidth(text[i]) {
        continue;
      }
      chars, origins, lastWasSpace := WritePiece(Piece(f, text[i]), i, Folded(f, text[..i]),
                                                 FoldedSources(f, text, i), chars, origins, lastWasSpace);
    }
    assert text[..|text|] == text;
    if chars != "" && chars[|chars| - 1] == ' ' {
      chars, origins := chars[..|chars| - 1], origins[..|origins| - 1];
    }
  }

  /** Main result: the highlighter and the matcher read the same text. */
  lemma SeenIsMatched(f: Folding, text: string)
    requires Regular(f)
    ensures Seen(f, text) == NormalizeForMatch(f, text)
  {
    NormalizeForMatchIsOnePass(f, text);
  }

  ghost predicate Sorted(s: seq<nat>) {
    forall i, j :: 0 <= i <= j < |s| ==> s[i] <= s[j]
  }

  /** Sources are drawn from src, in order, apart from the gap that is already open. */
  lemma {:induction false} SourcesSorted(d: string, src: seq<nat>, m: Mode, gap: nat)
    requires |d| == |src| && Sorted(src)
    requires m == Gap ==> forall k :: 0 <= k < |src| ==> gap <= src[k]
    ensures Sorted(Sources(d, src, m, gap))
    ensures forall x :: x in Sources(d, src, m, gap) ==> x in src || (m == Gap && x == gap)
  {
    if d != "" {
      assert src == [src[0]] + src[1..];
      if IsSpace(d[0]) {
        SourcesSorted(d[1..], src[1..], AfterSpace(m), if m == Word then src[0] else gap);
      } else {
        SourcesSorted(d[1..], src[1..], Word, gap);
        var rest := Sources(d[1..], src[1..], Word, gap);
        forall k | 0 <= k < |rest| ensures src[0] <= rest[k] {
          assert rest[k] in src[1..];
          var j :| 0 <= j < |src[1..]| && src[1..][j] == rest[k];
          assert src[j + 1] == rest[k];
        }
        assert m == Gap ==> gap <= src[0];
      }
    }
  }

  lemma {:induction false} FoldedSourcesSorted(f: Folding, text: string, n: nat)
    requires n <= |text|
    ensures Sorted(FoldedSources(f, text, n))
  {
    if n > 0 {
      FoldedSourcesSorted(f, text, n - 1);
      var init := FoldedSources(f, text, n - 1);
      assert forall k :: 0 <= k < |init| ==> init[k] in init;
    }
  }

  /** The index map is non-decreasing and stays inside the text. */
  lemma OriginsSorted(f: Folding, text: string)
    ensures Sorted(Origins(f, text))
    ensures forall x :: x in Origins(f, text) ==> x < |text|
  {
    FoldedPrefix(f, text, |text|);
    assert text[..|text|] == text;
    FoldedSourcesSorted(f, text, |text|);
    SourcesSorted(Folded(f, text), FoldedSources(f, text, |text|), Start, 0);
  }

  /** White space of any kind is written as a plain space. */
  function Squash(c: char): char {
    if IsSpace(c) then ' ' else c
  }

  /** Each written character is a folded character of its source, or the space of the gap already open. */
  lemma {:induction false} SourceHolds(d: string, src: seq<nat>, m: Mode, gap: nat, k: nat)
    requires |d| == |src| && k < |Words(d, m)|
    ensures
      || (exists j :: 0 <= j < |d| && src[j] == Sources(d, src, m, gap)[k] && Words(d, m)[k] == Squash(d[j]))
      || (m == Gap && k == 0 && Sources(d, src, m, gap)[k] == gap && Words(d, m)[k] == ' ')
  {
    if IsSpace(d[0]) {
      var gap' := if m == Word then src[0] else gap;
      SourceHolds(d[1..], src[1..], AfterSpace(m), gap', k);
      if j :| 0 <= j < |d[1..]| && src[1..][j] == Sources(d, src, m, gap)[k] && Words(d, m)[k] == Squash(d[1..][j]) {
        assert src[j + 1] == src[1..][j] && d[j + 1] == d[1..][j];
      } else if m == Word {
        assert src[0] == Sources(d, src, m, gap)[k] && Words(d, m)[k] == Squash(d[0]);
      }
    } else {
      var head := if m == Gap then 1 else 0;
      if k < head {
      } else if k == head {
        assert src[0] == Sources(d, src, m, gap)[k] && Words(d, m)[k] == Squash(d[0]);
      } else {
        SourceHolds(d[1..], src[1..], Word, gap, k - head - 1);
        var j :| 0 <= j < |d[1..]| && src[1..][j] == Sources(d, src, m, gap)[k] && Words(d, m)[k] == Squash(d[1..][j]);
        assert src[j + 1] == src[1..][j] && d[j + 1] == d[1..][j];
      }
    }
  }

  lemma {:induction false} FoldedSourceHolds(f: Folding, text: string, n: nat, j: nat)
    requires n <= |text| && |Folded(f, text[..n])| == |FoldedSources(f, text, n)|
    requires j < |FoldedSources(f, text, n)|
    ensures FoldedSources(f, text, n)[j] < n
    ensures !IsZeroWidth(text[FoldedSources(f, text, n)[j]])
    ensures Folded(f, text[..n])[j] in Piece(f, text[FoldedSources(f, text, n)[j]])
  {
    FoldedPrefix(f, text, n - 1);
    FoldedStep(f, text, n - 1);
    if j < |FoldedSources(f, text, n - 1)| {
      FoldedSourceHolds(f, text, n - 1, j);
    }
  }

  /** The index map is right: every character the highlighter sees is a folded character of its source, which is
      not a zero-width one. */
  lemma OriginHolds(f: Folding, text: string, k: nat)
    requires k < |Seen(f, text)|
    ensures Origins(f, text)[k] < |text| && !IsZeroWidth(text[Origins(f, text)[k]])
    ensures exists c :: c in Piece(f, text[Origins(f, text)[k]]) && Seen(f, text)[k] == Squash(c)
  {
    FoldedPrefix(f, text, |text|);
    assert text[..|text|] == text;
    var d, src := Folded(f, text), FoldedSources(f, text, |text|);
    SourceHolds(d, src, Start, 0, k);
    var j :| 0 <= j < |d| && src[j] == Sources(d, src, Start, 0)[k] && Words(d, Start)[k] == Squash(d[j]);
    FoldedSourceHolds(f, text, |text|, j);
  }

  // ---- segments ----

  datatype Segment = Segment(text: string, highlighted: bool)

  function Texts(segments: seq<Segment>): string {
    if segments == [] then "" else Texts(segments[..|segments| - 1]) + segments[|segments| - 1].text
  }

  /** For each character of the concatenated texts, whether it is highlighted. */
  function Flags(segments: seq<Segment>): (r: seq<bool>)
    ensures |r| == |Texts(segments)|
  {
    if segments == [] then []
    else
      var last := segments[|segments| - 1];
      Flags(segments[..|segments| - 1]) + seq(|last.text|, _ => last.highlighted)
  }

  /** No segment is empty, and highlighted and plain segments alternate. */
  ghost predicate Alternating(segments: seq<Segment>) {
    && (forall k :: 0 <= k < |segments| ==> segments[k].text != "")
    && (forall i, j :: 0 <= i && j == i + 1 < |segments| ==> segments[i].highlighted != segments[j].highlighted)
  }

  /** Position p lies in the source span of the term occurrence at position i of the seen text. */
  ghost predicate InSpan(seen: string, origins: seq<nat>, term: string, i: int, p: int)
    requires |seen| == |origins|
  {
    OccursAt(term, seen, i) && term != "" && origins[i] <= p <= origins[i + |term| - 1]
  }

  /** Position p lies in the source span of some occurrence of one of the terms. */
  ghost predicate Spanned(seen: string, origins: seq<nat>, terms: seq<string>, p: int)
    requires |seen| == |origins|
  {
    exists term, i :: term in terms && InSpan(seen, origins, term, i, p)
  }

  /** Position p lies in the source span of some occurrence of some rule's term. */
  ghost predicate Marked(f: Folding, text: string, rules: seq<Rule>, p: int) {
    Spanned(Seen(f, text), Origins(f, text), TermsOfRules(rules), p)
  }

  /** min(s) and max(s) */
  method Extremes(s: seq<nat>) returns (least: nat, greatest: nat)
    requires s != []
    ensures least in s && forall k :: 0 <= k < |s| ==> least <= s[k]
    ensures greatest in s && forall k :: 0 <= k < |s| ==> s[k] <= greatest
  {
    least, greatest := s[0], s[0];
    for i := 1 to |s|
      invariant least in s && forall k :: 0 <= k < i ==> least <= s[k]
      invariant greatest in s && forall k :: 0 <= k < i ==> s[k] <= greatest
    {
      if s[i] < least {
        least := s[i];
      }
      if s[i] > greatest {
        greatest := s[i];
      }
    }
  }

  /** The spans of the term's occurrences before a position of the seen text. */
  ghost predicate SpansBefore(seen: string, origins: seq<nat>, term: string, start: int, ranges: seq<Range>)
    requires |seen| == |origins|
  {
    forall p :: Covers(ranges, p) <==> SpannedBefore(seen, origins, term, start, p)
  }

  ghost predicate SpannedBefore(seen: string, origins: seq<nat>, term: string, start: int, p: int)
    requires |seen| == |origins|
  {
    exists i :: i < start && InSpan(seen, origins, term, i, p)
  }

  lemma SpannedStep(seen: string, origins: seq<nat>, term: string, start: nat, index: nat, p: int)
    requires |seen| == |origins| && start <= index
    requires forall i :: start <= i < index ==> !OccursAt(term, seen, i)
    ensures SpannedBefore(seen, origins, term, index + 1, p) <==>
            SpannedBefore(seen, origins, term, start, p) || InSpan(seen, origins, term, index, p)
  {
  }

  /** The source range of an occurrence, from its first character's source through its last one's. */
  method SpanAt(origins: seq<nat>, term: string, index: nat) returns (r: Range)
    requires Sorted(origins) && term != "" && index + |term| <= |origins|
    ensures r == Range(origins[index], origins[index + |term| - 1] + 1)
  {
    var sources := origins[index..index + |term|];
    var least, greatest := Extremes(sources);
    assert sources[0] == origins[index] && sources[|term| - 1] == origins[index + |term| - 1];
    r := Range(least, greatest + 1);
  }

  lemma SpanStep(seen: string, origins: seq<nat>, term: string, start: nat, index: nat, ranges: seq<Range>, r: Range)
    requires |seen| == |origins| && term != ""
    requires SpansBefore(seen, origins, term, start, ranges)
    requires start <= index && OccursAt(term, seen, index)
    requires r == Range(origins[index], origins[index + |term| - 1] + 1)
    requires forall i :: start <= i < index ==> !OccursAt(term, seen, i)
    ensures SpansBefore(seen, origins, term, index + 1, ranges + [r])
  {
    forall p ensures Covers(ranges + [r], p) <==> SpannedBefore(seen, origins, term, index + 1, p) {
      CoversAppend(ranges, r, p);
      SpannedStep(seen, origins, term, start, index, p);
    }
  }

  lemma NothingLeft(seen: string, origins: seq<nat>, term: string, start: nat)
    requires |seen| == |origins|
    requires forall i :: start <= i ==> !OccursAt(term, seen, i)
    ensures forall p :: SpannedBefore(seen, origins, term, start, p) <==> exists i :: InSpan(seen, origins, term, i, p)
  {
  }

  /** The ranges of one term: every occurrence, overlapping ones included. */
  method TermRanges(seen: string, origins: seq<nat>, term: string) returns (ranges: seq<Range>)
    requires |seen| == |origins| && Sorted(origins) && term != ""
    ensures forall p :: Covers(ranges, p) <==> exists i :: InSpan(seen, origins, term, i, p)
  {
    ranges := [];
    var start := 0;
    while true
      invariant 0 <= start <= |seen| + 1
      invariant SpansBefore(seen, origins, term, start, ranges)
      decreases |seen| + 1 - start
    {
      var index := FindFrom(term, seen, start);
      if index < 0 {
        NothingLeft(seen, origins, term, start);
        break;
      }
      var r := SpanAt(origins, term, index);
      SpanStep(seen, origins, term, start, index, ranges, r);
      ranges := ranges + [r];
      start := index + 1;
    }
  }

  lemma CoversConcat(a: seq<Range>, b: seq<Range>, p: int)
    ensures Covers(a + b, p) <==> Covers(a, p) || Covers(b, p)
  {
    if Covers(a, p) {
      var k :| 0 <= k < |a| && a[k].Has(p);
      assert (a + b)[k].Has(p);
    }
    if Covers(b, p) {
      var k :| 0 <= k < |b| && b[k].Has(p);
      assert (a + b)[|a| + k].Has(p);
    }
  }

  lemma SpannedSnoc(seen: string, origins: seq<nat>, terms: seq<string>, term: string, p: int)
    requires |seen| == |origins|
    ensures Spanned(seen, origins, terms + [term], p) <==>
            Spanned(seen, origins, terms, p) || exists i :: InSpan(seen, origins, term, i, p)
  {
    if Spanned(seen, origins, terms, p) {
      var t, i :| t in terms && InSpan(seen, origins, t, i, p);
      assert t in terms + [term];
    }
    if i :| InSpan(seen, origins, term, i, p) {
      assert term in terms + [term];
    }
  }

  /** The inner loop over a rule's terms. */
  method AddRuleRanges(seen: string, origins: seq<nat>, terms: seq<string>, ranges0: seq<Range>,
                       ghost done: seq<string>)
    returns (ranges: seq<Range>)
    requires |seen| == |origins| && Sorted(origins) && "" !in terms
    requires forall p :: Covers(ranges0, p) <==> Spanned(seen, origins, done, p)
    ensures forall p :: Covers(ranges, p) <==> Spanned(seen, origins, done + terms, p)
  {
    ranges := ranges0;
    assert done + terms[..0] == done;
    for k := 0 to |terms|
      invariant forall p :: Covers(ranges, p) <==> Spanned(seen, origins, done + terms[..k], p)
    {
      var more := TermRanges(seen, origins, terms[k]);
      assert done + terms[..k + 1] == done + terms[..k] + [terms[k]];
      forall p ensures Covers(ranges + more, p) <==> Spanned(seen, origins, done + terms[..k + 1], p) {
        CoversConcat(ranges, more, p);
        SpannedSnoc(seen, origins, done + terms[..k], terms[k], p);
      }
      ranges := ranges + more;
    }
    assert done + terms[..|terms|] == done + terms;
  }

  lemma TermsOfSnoc(rules: seq<Rule>, k: nat)
    requires k < |rules| && "" !in rules[k].terms
    ensures forall t :: t in TermsOfRules(rules[..k + 1]) <==> t in TermsOfRules(rules[..k]) + rules[k].terms
  {
    assert rules[..k + 1] == rules[..k] + [rules[k]];
  }

  /** The ranges of all terms of all rules. */
  method RuleRanges(seen: string, origins: seq<nat>, rules: seq<Rule>) returns (ranges: seq<Range>)
    requires |seen| == |origins| && Sorted(origins)
    requires forall rule :: rule in rules ==> "" !in rule.terms
    ensures forall p :: Covers(ranges, p) <==> Spanned(seen, origins, TermsOfRules(rules), p)
  {
    ranges := [];
    for k := 0 to |rules|
      invariant forall p :: Covers(ranges, p) <==> Spanned(seen, origins, TermsOfRules(rules[..k]), p)
    {
      assert rules[k] in rules;
      ranges := AddRuleRanges(seen, origins, rules[k].terms, ranges, TermsOfRules(rules[..k]));
      TermsOfSnoc(rules, k);
    }
    assert rules[..|rules|] == rules;
  }

  ghost predicate FlagsAre(flags: seq<bool>, merged: seq<Range>) {
    forall p :: 0 <= p < |flags| ==> (flags[p] <==> Covers(merged, p))
  }

  lemma TextsAppend(segments: seq<Segment>, s: Segment)
    ensures Texts(segments + [s]) == Texts(segments) + s.text
  {
    assert (segments + [s])[..|segments|] == segments;
  }

  lemma FlagsAppend(segments: seq<Segment>, s: Segment)
    ensures Flags(segments + [s]) == Flags(segments) + seq(|s.text|, _ => s.highlighted)
  {
    assert (segments + [s])[..|segments|] == segments;
  }

  /** The segments cover the text up to cursor, flag it by the ranges, and end the given way. */
  ghost predicate Cut(segments: seq<Segment>, text: string, cursor: int, merged: seq<Range>, lit: bool) {
    && 0 <= cursor <= |text|
    && Texts(segments) == text[..cursor]
    && Alternating(segments)
    && FlagsAre(Flags(segments), merged)
    && (segments != [] ==> segments[|segments| - 1].highlighted == lit)
  }

  /** Appending the piece of text up to end, all of which is or is not covered. */
  lemma CutStep(segments: seq<Segment>, text: string, cursor: int, end: int, merged: seq<Range>, lit: bool)
    requires Cut(segments, text, cursor, merged, !lit) && cursor < end <= |text|
    requires forall p :: cursor <= p < end ==> (Covers(merged, p) <==> lit)
    ensures Cut(segments + [Segment(text[cursor..end], lit)], text, end, merged, lit)
  {
    var s := Segment(text[cursor..end], lit);
    TextsAppend(segments, s);
    FlagsAppend(segments, s);
    assert text[..end] == text[..cursor] + text[cursor..end];
    FlagsStep(Flags(segments), merged, end - cursor, lit);
  }

  lemma FlagsStep(flags: seq<bool>, merged: seq<Range>, n: nat, lit: bool)
    requires FlagsAre(flags, merged)
    requires forall p :: |flags| <= p < |flags| + n ==> (Covers(merged, p) <==> lit)
    ensures FlagsAre(flags + seq(n, _ => lit), merged)
  {
  }

  /** The loop over the merged ranges, and the rest of the text. */
  method CutSegments(text: string, merged: seq<Range>) returns (segments: seq<Segment>)
    requires Canonical(merged) && Within(merged, |text|) && merged != []
    ensures Texts(segments) == text && Alternating(segments) && FlagsAre(Flags(segments), merged)
  {
    segments := [];
    var cursor := 0;
    for k := 0 to |merged|
      invariant cursor == if k == 0 then 0 else merged[k - 1].hi
      invariant segments != [] <==> k > 0
      invariant Cut(segments, text, cursor, merged, true)
    {
      var r := merged[k];
      if cursor < r.lo {
        GapIsUncovered(merged, k);
        CutStep(segments, text, cursor, r.lo, merged, false);
        segments := segments + [Segment(text[cursor..r.lo], false)];
      }
      assert forall p :: r.lo <= p < r.hi ==> r.Has(p);
      CutStep(segments, text, r.lo, r.hi, merged, true);
      segments := segments + [Segment(text[r.lo..r.hi], true)];
      cursor := r.hi;
    }
    if cursor < |text| {
      GapIsUncovered(merged, |merged|);
      CutStep(segments, text, cursor, |text|, merged, false);
      assert text[cursor..|text|] == text[cursor..];
      segments := segments + [Segment(text[cursor..], false)];
    }
    assert text[..|text|] == text;
  }

  /** Nothing between a range and the next is covered. */
  lemma GapIsUncovered(merged: seq<Range>, k: nat)
    requires Canonical(merged) && k <= |merged|
    ensures forall p :: (k > 0 ==> merged[k - 1].hi <= p) && (k < |merged| ==> p < merged[k].lo) ==> !Covers(merged, p)
  {
  }

  /** The one plain segment. */
  function Whole(text: string): (r: seq<Segment>)
    ensures Texts(r) == text && (text != "" ==> Alternating(r))
    ensures forall p :: 0 <= p < |text| ==> !Flags(r)[p]
  {
    var r := [Segment(text, false)];
    assert r[..0] == [];
    r
  }

  lemma InputTermsNotEmpty(f: Folding, input: string)
    ensures forall rule :: rule in ParseInput(f, input) ==> "" !in rule.terms
  {
    RulesAreParserMade(f, Split(input, ';'));
  }

  lemma SpansWithin(f: Folding, text: string, rules: seq<Rule>)
    ensures forall p :: Spanned(Seen(f, text), Origins(f, text), TermsOfRules(rules), p) ==> 0 <= p < |text|
  {
    OriginsSorted(f, text);
    var origins := Origins(f, text);
    forall k | 0 <= k < |origins| ensures 0 <= origins[k] < |text| {
      assert origins[k] in origins;
    }
  }

  /** The segments are a partition of the text; none is empty, highlighted and plain ones alternate, and a character
      is highlighted just when it lies in the source span of a term occurrence. */
  ghost predicate Highlighted(f: Folding, text: string, matchedRule: string, segments: seq<Segment>) {
    && Texts(segments) == text && Alternating(segments)
    && forall p :: 0 <= p < |text| ==> (Flags(segments)[p] <==> Marked(f, text, ParseInput(f, matchedRule), p))
  }

  /** Main result. */
  method BuildHighlightSegments(f: Folding, text: string, matchedRule: string) returns (segments: seq<Segment>)
    ensures Highlighted(f, text, matchedRule, segments)
  {
    if text == "" {
      return [];
    }
    var rules := ParseKeywordInput(f, matchedRule);
    if rules == [] {
      return Whole(text);
    }
    var seen, origins := NormalizeWithOriginalMap(f, text);
    OriginsSorted(f, text);
    InputTermsNotEmpty(f, matchedRule);
    var ranges := RuleRanges(seen, origins, rules);
    var merged := MergeRanges(ranges);
    if merged == [] {
      return Whole(text);
    }
    SpansWithin(f, text, rules);
    CanonicalWithin(merged, |text|);
    segments := CutSegments(text, merged);
  }
}
