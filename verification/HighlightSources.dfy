/** The highlighter's index map, character by character: white space aside, it is the folded text with the positions
    its characters were folded from. */
module HighlightSources {
  import opened Text
  import opened KeywordText
  import opened KeywordHighlight

  /** A folded character and the position in the text it comes from. */
  datatype Mark = Mark(c: char, source: nat)

  /** The characters other than white space, with their positions. */
  function Marks(d: string, src: seq<nat>): seq<Mark>
    requires |d| == |src|
  {
    if d == "" then []
    else (if IsSpace(d[0]) then [] else [Mark(d[0], src[0])]) + Marks(d[1..], src[1..])
  }

  lemma {:induction false} MarksAppend(a: string, asrc: seq<nat>, b: string, bsrc: seq<nat>)
    requires |a| == |asrc| && |b| == |bsrc|
    ensures Marks(a + b, asrc + bsrc) == Marks(a, asrc) + Marks(b, bsrc)
  {
    if a == "" {
      assert a + b == b && asrc + bsrc == bsrc;
    } else {
      assert (a + b)[1..] == a[1..] + b && (asrc + bsrc)[1..] == asrc[1..] + bsrc;
      MarksAppend(a[1..], asrc[1..], b, bsrc);
    }
  }

  lemma {:induction false} WordsKeepMarks(d: string, src: seq<nat>, m: Mode, gap: nat)
    requires |d| == |src|
    ensures Marks(Words(d, m), Sources(d, src, m, gap)) == Marks(d, src)
  {
    if d != "" {
      if IsSpace(d[0]) {
        WordsKeepMarks(d[1..], src[1..], AfterSpace(m), if m == Word then src[0] else gap);
      } else {
        WordsKeepMarks(d[1..], src[1..], Word, gap);
        var chars, sources := Words(d[1..], Word), Sources(d[1..], src[1..], Word, gap);
        if m == Gap {
          MarksAppend([' ', d[0]], [gap, src[0]], chars, sources);
          assert [' ', d[0]][1..] == [d[0]] && [gap, src[0]][1..] == [src[0]];
        } else {
          MarksAppend([d[0]], [src[0]], chars, sources);
        }
      }
    }
  }

  /** All characters of one piece come from one position. */
  function PieceMarks(piece: string, i: nat): seq<Mark> {
    if piece == "" then []
    else (if IsSpace(piece[0]) then [] else [Mark(piece[0], i)]) + PieceMarks(piece[1..], i)
  }

  /** The foldings of the characters in order, each with its position; zero-width characters fold to nothing. */
  function TextMarks(f: Folding, text: string, n: nat): seq<Mark>
    requires n <= |text|
  {
    if n == 0 then [] else TextMarks(f, text, n - 1) + Added(f, text, n - 1)
  }

  function Added(f: Folding, text: string, n: nat): seq<Mark>
    requires n < |text|
  {
    if IsZeroWidth(text[n]) then [] else PieceMarks(Piece(f, text[n]), n)
  }

  lemma {:induction false} MarksOfPiece(piece: string, i: nat)
    ensures Marks(piece, seq(|piece|, _ => i)) == PieceMarks(piece, i)
  {
    if piece != "" {
      MarksOfPiece(piece[1..], i);
      assert seq(|piece|, _ => i)[1..] == seq(|piece[1..]|, _ => i);
    }
  }

  lemma MarksGrow(d: string, src: seq<nat>, piece: string, i: nat)
    requires |d| == |src|
    ensures Marks(d + piece, src + seq(|piece|, _ => i)) == Marks(d, src) + PieceMarks(piece, i)
  {
    MarksOfPiece(piece, i);
    MarksAppend(d, src, piece, seq(|piece|, _ => i));
  }

  /** The folding of the first n characters has their marks. */
  ghost predicate Agrees(f: Folding, text: string, n: nat) {
    && n <= |text| && |Folded(f, text[..n])| == |FoldedSources(f, text, n)|
    && Marks(Folded(f, text[..n]), FoldedSources(f, text, n)) == TextMarks(f, text, n)
  }

  lemma AgreesAtStart(f: Folding, text: string)
    ensures Agrees(f, text, 0)
  {
    assert text[..0] == "" && Folded(f, "") == "";
  }

  lemma AgreesStep(f: Folding, text: string, n: nat)
    requires n < |text| && Agrees(f, text, n)
    ensures Agrees(f, text, n + 1)
  {
    FoldedStep(f, text, n);
    if !IsZeroWidth(text[n]) {
      MarksGrow(Folded(f, text[..n]), FoldedSources(f, text, n), Piece(f, text[n]), n);
    }
  }

  lemma {:induction false} FoldedMarks(f: Folding, text: string, n: nat)
    requires n <= |text|
    ensures Agrees(f, text, n)
  {
    if n == 0 {
      AgreesAtStart(f, text);
    } else {
      FoldedMarks(f, text, n - 1);
      AgreesStep(f, text, n - 1);
    }
  }

  /** Main result: white space aside, the characters the highlighter sees and the positions it gives them are the
      foldings of the text's characters, in order, at those characters' positions. */
  lemma OriginsAreExact(f: Folding, text: string)
    ensures Marks(Seen(f, text), Origins(f, text)) == TextMarks(f, text, |text|)
  {
    assert text[..|text|] == text;
    FoldedMarks(f, text, |text|);
    WordsKeepMarks(Folded(f, text), FoldedSources(f, text, |text|), Start, 0);
  }
}
