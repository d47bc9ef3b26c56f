/** Text normalisation of core/keyword_rules.py. Unicode NFKC and lower-casing are a pair of per-character maps,
    so the results below speak of text on which both act character by character. */
module KeywordText {
  import opened Text

  predicate IsZeroWidth(c: char) {
    '\U{200b}' <= c <= '\U{200d}' || c == '\U{feff}'
  }

  /** The two foldings, one character at a time. */
  datatype Folding = Folding(nfkc: char -> string, lower: char -> string)

  predicate AllSpace(s: string) {
    forall i :: 0 <= i < |s| ==> IsSpace(s[i])
  }

  predicate NoSpace(s: string) {
    forall i :: 0 <= i < |s| ==> !IsSpace(s[i])
  }

  predicate NoZeroWidth(s: string) {
    forall i :: 0 <= i < |s| ==> !IsZeroWidth(s[i])
  }

  /** White space folds to white space, nothing folds to a zero-width character, and lower-casing keeps a
      character's being white space. */
  ghost predicate Regular(f: Folding) {
    && (forall c: char :: IsSpace(c) ==> f.nfkc(c) != "" && AllSpace(f.nfkc(c)))
    && (forall c: char :: !IsZeroWidth(c) ==> NoZeroWidth(f.nfkc(c)))
    && (forall c: char :: IsSpace(c) ==> f.lower(c) != "" && AllSpace(f.lower(c)))
    && (forall c: char :: !IsSpace(c) ==> f.lower(c) != "" && NoSpace(f.lower(c)))
    && f.lower(' ') == " "
  }

  function MapChars(f: char -> string, s: string): string {
    if s == "" then "" else f(s[0]) + MapChars(f, s[1..])
  }

  function RemoveZeroWidth(s: string): (r: string)
    ensures NoZeroWidth(r)
    ensures NoZeroWidth(s) ==> r == s
  {
    if s == "" then "" else (if IsZeroWidth(s[0]) then "" else [s[0]]) + RemoveZeroWidth(s[1..])
  }

  /** re.sub(r"\s+", " ", s) */
  function CollapseSpaces(s: string): string {
    if s == "" then ""
    else if !IsSpace(s[0]) then [s[0]] + CollapseSpaces(s[1..])
    else if |s| > 1 && IsSpace(s[1]) then CollapseSpaces(s[1..])
    else " " + CollapseSpaces(s[1..])
  }

  function NormalizeText(s: string): string {
    Strip(CollapseSpaces(RemoveZeroWidth(s)))
  }

  function NormalizeForMatch(f: Folding, s: string): string {
    MapChars(f.lower, NormalizeText(MapChars(f.nfkc, NormalizeText(s))))
  }

  // ---- a one-pass form of the same normalisation ----

  /** Where a left-to-right pass stands: before the first word, in a word, or after white space that follows one. */
  datatype Mode = Start | Word | Gap

  function AfterSpace(m: Mode): Mode {
    if m == Start then Start else Gap
  }

  /** The words of s separated by single spaces; a space is written only when the next word begins. */
  function Words(s: string, m: Mode): string {
    if s == "" then ""
    else if IsSpace(s[0]) then Words(s[1..], AfterSpace(m))
    else (if m == Gap then [' ', s[0]] else [s[0]]) + Words(s[1..], Word)
  }

  function EndMode(s: string, m: Mode): Mode {
    if s == "" then m
    else EndMode(s[1..], if IsSpace(s[0]) then AfterSpace(m) else Word)
  }

  lemma {:induction false} WordsAppend(a: string, b: string, m: Mode)
    ensures Words(a + b, m) == Words(a, m) + Words(b, EndMode(a, m))
    ensures EndMode(a + b, m) == EndMode(b, EndMode(a, m))
  {
    if a == "" {
      assert a + b == b;
    } else {
      assert (a + b)[1..] == a[1..] + b;
      WordsAppend(a[1..], b, if IsSpace(a[0]) then AfterSpace(m) else Word);
    }
  }

  lemma {:induction false} WordsOfSpace(s: string, m: Mode)
    requires AllSpace(s) && s != ""
    ensures Words(s, m) == "" && EndMode(s, m) == AfterSpace(m)
  {
    if |s| > 1 {
      WordsOfSpace(s[1..], AfterSpace(m));
    }
  }

  /** Single plain spaces only, none at the ends. */
  predicate Tidy(s: string) {
    && Trimmed(s)
    && SingleSpaced(s)
  }

  predicate SingleSpaced(s: string) {
    && (forall i :: 0 <= i < |s| && IsSpace(s[i]) ==> s[i] == ' ')
    && (forall i, j :: 0 <= i && j == i + 1 < |s| ==> !(IsSpace(s[i]) && IsSpace(s[j])))
  }

  lemma {:induction false} CollapseIsSingleSpaced(s: string)
    ensures SingleSpaced(CollapseSpaces(s))
    ensures s == "" <==> CollapseSpaces(s) == ""
    ensures s != "" ==> (IsSpace(CollapseSpaces(s)[0]) <==> IsSpace(s[0]))
  {
    if s != "" {
      CollapseIsSingleSpaced(s[1..]);
    }
  }

  lemma {:induction false} WordsOfCollapsed(s: string, m: Mode)
    ensures Words(CollapseSpaces(s), m) == Words(s, m)
  {
    if s != "" {
      if !IsSpace(s[0]) {
        WordsOfCollapsed(s[1..], Word);
      } else if |s| > 1 && IsSpace(s[1]) {
        WordsOfCollapsed(s[1..], m);
        assert AfterSpace(AfterSpace(m)) == AfterSpace(m);
      } else {
        WordsOfCollapsed(s[1..], AfterSpace(m));
      }
    }
  }

  lemma {:induction false} WordsOfStripped(s: string)
    ensures Words(Strip(s), Start) == Words(s, Start)
    ensures SingleSpaced(s) ==> SingleSpaced(Strip(s))
    decreases |s|
  {
    if s != "" {
      if IsSpace(s[0]) {
        WordsOfStripped(s[1..]);
      } else if IsSpace(s[|s| - 1]) {
        var front, last := s[..|s| - 1], [s[|s| - 1]];
        assert s == front + last;
        WordsAppend(front, last, Start);
        WordsOfSpace(last, EndMode(front, Start));
        WordsOfStripped(front);
      }
    }
  }

  lemma TidyTail(s: string)
    requires SingleSpaced(s) && s != ""
    ensures SingleSpaced(s[1..])
    ensures |s| > 1 && IsSpace(s[0]) ==> s[0] == ' ' && !IsSpace(s[1])
  {
  }

  /** A space and the word character after it are copied as they are. */
  lemma OneGap(s: string)
    requires |s| > 1 && s[0] == ' ' && !IsSpace(s[1])
    ensures Words(s, Word) == [' ', s[1]] + Words(s[2..], Word)
    ensures s == [' ', s[1]] + s[2..]
  {
    assert s[1..][0] == s[1] && s[1..][1..] == s[2..];
    assert Words(s, Word) == Words(s[1..], Gap);
  }

  /** Inside a word, tidy text is copied as it is. */
  lemma {:induction false} WordsInTidy(s: string)
    requires SingleSpaced(s) && (s != "" ==> !IsSpace(s[|s| - 1]))
    ensures Words(s, Word) == s
  {
    if s != "" {
      TidyTail(s);
      if IsSpace(s[0]) {
        OneGap(s);
        TidyTail(s[1..]);
        assert s[1..][1..] == s[2..];
        WordsInTidy(s[2..]);
      } else {
        WordsInTidy(s[1..]);
        assert s == [s[0]] + s[1..];
      }
    }
  }

  lemma WordsOfTidy(s: string, m: Mode)
    requires SingleSpaced(s) && (s != "" ==> !IsSpace(s[|s| - 1]))
    requires m != Word ==> s == "" || !IsSpace(s[0])
    ensures Words(s, m) == (if m == Gap && s != "" then " " + s else s)
  {
    if m == Word {
      WordsInTidy(s);
    } else if s != "" {
      TidyTail(s);
      WordsInTidy(s[1..]);
      assert s == [s[0]] + s[1..] && " " + s == [' ', s[0]] + s[1..];
    }
  }

  /** normalize_text in one pass. */
  lemma NormalizeTextIsWords(s: string)
    ensures NormalizeText(s) == Words(RemoveZeroWidth(s), Start)
    ensures Tidy(NormalizeText(s)) && NoZeroWidth(NormalizeText(s))
  {
    var t := RemoveZeroWidth(s);
    CollapseIsSingleSpaced(t);
    WordsOfCollapsed(t, Start);
    WordsOfStripped(CollapseSpaces(t));
    WordsOfTidy(NormalizeText(s), Start);
    WordsKeepsOut(t, Start);
  }

  lemma {:induction false} WordsKeepsOut(s: string, m: Mode)
    requires NoZeroWidth(s)
    ensures NoZeroWidth(Words(s, m))
  {
    if s != "" {
      WordsKeepsOut(s[1..], if IsSpace(s[0]) then AfterSpace(m) else Word);
    }
  }

  /** Tidy text without zero-width characters is a fixed point of normalize_text. */
  lemma NormalizeTextFixed(s: string)
    requires Tidy(s) && NoZeroWidth(s)
    ensures NormalizeText(s) == s
  {
    NormalizeTextIsWords(s);
    WordsOfTidy(s, Start);
  }

  /** normalize_text is idempotent. */
  lemma NormalizeTextStable(s: string)
    ensures NormalizeText(NormalizeText(s)) == NormalizeText(s)
  {
    NormalizeTextIsWords(s);
    NormalizeTextFixed(NormalizeText(s));
  }

  lemma MapCharsOne(f: char -> string, c: char)
    ensures MapChars(f, [c]) == f(c)
  {
  }

  lemma {:induction false} MapCharsAppend(f: char -> string, a: string, b: string)
    ensures MapChars(f, a + b) == MapChars(f, a) + MapChars(f, b)
  {
    if a == "" {
      assert a + b == b;
    } else {
      assert (a + b)[1..] == a[1..] + b;
      MapCharsAppend(f, a[1..], b);
    }
  }

  /** How a pass over the folded words, in mode l, relates to a pass over the folded text, in mode r, when
      the pass that produced the words is in mode m. */
  predicate InStep(m: Mode, l: Mode, r: Mode) {
    match m
    case Start => l == Start && r == Start
    case Word => l == r
    case Gap => r == AfterSpace(l)
  }

  lemma MapCharsCons(g: char -> string, c: char, rest: string)
    ensures MapChars(g, [c] + rest) == g(c) + MapChars(g, rest)
  {
    assert ([c] + rest)[1..] == rest;
  }

  /** What a per-character map makes of the words when a word character comes first. */
  lemma MapOfWords(g: char -> string, s: string, m: Mode)
    requires s != "" && !IsSpace(s[0])
    ensures MapChars(g, Words(s, m)) ==
            (if m == Gap then g(' ') else "") + (g(s[0]) + MapChars(g, Words(s[1..], Word)))
  {
    var rest := Words(s[1..], Word);
    MapCharsCons(g, s[0], rest);
    if m == Gap {
      MapCharsCons(g, ' ', [s[0]] + rest);
      assert Words(s, m) == [' '] + ([s[0]] + rest);
    } else {
      assert Words(s, m) == [s[0]] + rest;
    }
  }

  /** Folding first and tidying afterwards gives what tidying, folding and tidying gives. */
  lemma {:induction false} FoldedWords(f: Folding, s: string, m: Mode, l: Mode, r: Mode)
    requires Regular(f) && InStep(m, l, r)
    ensures Words(MapChars(f.nfkc, Words(s, m)), l) == Words(MapChars(f.nfkc, s), r)
  {
    if s != "" {
      var c, rest := s[0], s[1..];
      WordsAppend(f.nfkc(c), MapChars(f.nfkc, rest), r);
      if IsSpace(c) {
        WordsOfSpace(f.nfkc(c), r);
        FoldedWords(f, rest, AfterSpace(m), l, AfterSpace(r));
      } else {
        FoldedWord(f, s, m, l, r);
        FoldedWords(f, rest, Word, EndMode(f.nfkc(c), r), EndMode(f.nfkc(c), r));
      }
    }
  }

  /** One word character: the space owed before it brings both passes to the same mode. */
  lemma FoldedWord(f: Folding, s: string, m: Mode, l: Mode, r: Mode)
    requires Regular(f) && InStep(m, l, r) && s != "" && !IsSpace(s[0])
    ensures Words(MapChars(f.nfkc, Words(s, m)), l) ==
            Words(f.nfkc(s[0]), r) + Words(MapChars(f.nfkc, Words(s[1..], Word)), EndMode(f.nfkc(s[0]), r))
  {
    MapOfWords(f.nfkc, s, m);
    var tail := f.nfkc(s[0]) + MapChars(f.nfkc, Words(s[1..], Word));
    WordsAppend(f.nfkc(s[0]), MapChars(f.nfkc, Words(s[1..], Word)), r);
    if m == Gap {
      WordsAppend(f.nfkc(' '), tail, l);
      WordsOfSpace(f.nfkc(' '), l);
    } else {
      assert "" + tail == tail;
    }
  }

  /** Lower-casing commutes with tidying. */
  lemma {:induction false} LoweredWords(f: Folding, s: string, m: Mode)
    requires Regular(f)
    ensures MapChars(f.lower, Words(s, m)) == Words(MapChars(f.lower, s), m)
  {
    if s != "" {
      var c, rest := s[0], s[1..];
      WordsAppend(f.lower(c), MapChars(f.lower, rest), m);
      if IsSpace(c) {
        WordsOfSpace(f.lower(c), m);
        LoweredWords(f, rest, AfterSpace(m));
      } else {
        LoweredWords(f, rest, Word);
        LoweredWord(f.lower, s, m);
      }
    }
  }

  /** One word character: it stays a word character, after the same owed space. */
  lemma LoweredWord(g: char -> string, s: string, m: Mode)
    requires s != "" && !IsSpace(s[0]) && g(s[0]) != "" && NoSpace(g(s[0])) && g(' ') == " "
    ensures EndMode(g(s[0]), m) == Word
    ensures MapChars(g, Words(s, m)) == Words(g(s[0]), m) + MapChars(g, Words(s[1..], Word))
  {
    var word, rest := g(s[0]), MapChars(g, Words(s[1..], Word));
    WordsOfWord(word, m);
    MapOfWords(g, s, m);
    OwedSpace(m, word, rest);
  }

  lemma OwedSpace(m: Mode, word: string, rest: string)
    ensures (if m == Gap then " " else "") + (word + rest) == (if m == Gap then " " + word else word) + rest
  {
  }

  lemma {:induction false} WordsInWord(s: string)
    requires NoSpace(s)
    ensures Words(s, Word) == s && EndMode(s, Word) == Word
  {
    if s != "" {
      WordsInWord(s[1..]);
      assert s == [s[0]] + s[1..];
    }
  }

  lemma WordsOfWord(s: string, m: Mode)
    requires NoSpace(s) && s != ""
    ensures Words(s, m) == (if m == Gap then " " + s else s) && EndMode(s, m) == Word
  {
    WordsInWord(s[1..]);
    assert s == [s[0]] + s[1..];
    assert " " + s == [' ', s[0]] + s[1..];
  }

  lemma {:induction false} FoldKeepsOut(f: Folding, s: string)
    requires Regular(f) && NoZeroWidth(s)
    ensures NoZeroWidth(MapChars(f.nfkc, s))
  {
    if s != "" {
      FoldKeepsOut(f, s[1..]);
      assert NoZeroWidth(f.nfkc(s[0]));
    }
  }

  /** The text folded character by character, before any white space is collapsed. */
  function Folded(f: Folding, s: string): string {
    MapChars(f.lower, MapChars(f.nfkc, RemoveZeroWidth(s)))
  }

  /** Main result: normalize_for_match is one pass over the folded characters. */
  lemma NormalizeForMatchIsOnePass(f: Folding, s: string)
    requires Regular(f)
    ensures NormalizeForMatch(f, s) == Words(Folded(f, s), Start)
  {
    var t := RemoveZeroWidth(s);
    NormalizeTextIsWords(s);
    FoldKeepsOut(f, NormalizeText(s));
    NormalizeTextIsWords(MapChars(f.nfkc, NormalizeText(s)));
    FoldedWords(f, t, Start, Start, Start);
    LoweredWords(f, MapChars(f.nfkc, t), Start);
  }

  /** The words of any text are tidy. */
  lemma WordsAreTidy(s: string)
    ensures Tidy(Words(s, Start))
  {
    CollapseIsSingleSpaced(s);
    WordsOfCollapsed(s, Start);
    WordsOfStripped(CollapseSpaces(s));
    WordsOfTidy(Strip(CollapseSpaces(s)), Start);
  }

  /** Normalised text holds single plain spaces only, none at the ends. */
  lemma NormalizeForMatchIsTidy(f: Folding, s: string)
    requires Regular(f)
    ensures Tidy(NormalizeForMatch(f, s))
  {
    NormalizeForMatchIsOnePass(f, s);
    WordsAreTidy(Folded(f, s));
  }

  // ---- normalising is joining the words ----

  predicate AreWords(words: seq<string>) {
    forall k :: 0 <= k < |words| ==> words[k] != "" && NoSpace(words[k])
  }

  /** str.split(): the runs of characters that are not white space. */
  function WordList(s: string): (r: seq<string>)
    ensures AreWords(r)
    ensures s != "" && !IsSpace(s[0]) ==> r != []
  {
    if s == "" then []
    else if IsSpace(s[0]) then WordList(s[1..])
    else if |s| > 1 && !IsSpace(s[1]) then
      var rest := WordList(s[1..]);
      [[s[0]] + rest[0]] + rest[1..]
    else [[s[0]]] + WordList(s[1..])
  }

  function JoinedWords(s: string): string {
    Join(WordList(s), ' ')
  }

  /** Joined words with a separator before them, if there are any. */
  function Owed(words: seq<string>): string {
    if words == [] then "" else " " + Join(words, ' ')
  }

  /** What a pass writes for s, by the mode it starts in. */
  function WrittenFrom(s: string, m: Mode): string {
    if m == Start || (m == Word && s != "" && !IsSpace(s[0])) then JoinedWords(s) else Owed(WordList(s))
  }

  lemma {:induction false} WordsAreJoined(s: string, m: Mode)
    ensures Words(s, m) == WrittenFrom(s, m)
  {
    if s != "" {
      if IsSpace(s[0]) {
        WordsAreJoined(s[1..], AfterSpace(m));
      } else {
        WordsAreJoined(s[1..], Word);
        FirstWord(s);
        OwedFirst(s[0], Words(s[1..], Word));
      }
    }
  }

  lemma OwedFirst(c: char, rest: string)
    ensures [' ', c] + rest == " " + ([c] + rest)
  {
  }

  /** The first character of the first word, and what follows it. */
  lemma FirstWord(s: string)
    requires s != "" && !IsSpace(s[0])
    ensures JoinedWords(s) == [s[0]] + WrittenFrom(s[1..], Word)
  {
    var c, rest := s[0], WordList(s[1..]);
    if |s| > 1 && !IsSpace(s[1]) {
      GrownJoin(c, rest);
    } else {
      LedJoin(c, rest);
    }
  }

  lemma GrownJoin(c: char, rest: seq<string>)
    requires rest != []
    ensures Join([[c] + rest[0]] + rest[1..], ' ') == [c] + Join(rest, ' ')
  {
    var words := [[c] + rest[0]] + rest[1..];
    assert words[1..] == rest[1..];
    if |rest| > 1 {
      assert [c] + (rest[0] + [' '] + Join(rest[1..], ' ')) == ([c] + rest[0]) + [' '] + Join(rest[1..], ' ');
    }
  }

  lemma LedJoin(c: char, rest: seq<string>)
    ensures Join([[c]] + rest, ' ') == [c] + Owed(rest)
  {
    assert ([[c]] + rest)[1..] == rest;
    assert [c] + [' '] + Join(rest, ' ') == [c] + (" " + Join(rest, ' '));
  }

  /** Main result: normalize_text joins the words of the text, without zero-width characters, by single spaces. */
  lemma NormalizeTextJoinsWords(s: string)
    ensures NormalizeText(s) == JoinedWords(RemoveZeroWidth(s))
  {
    NormalizeTextIsWords(s);
    WordsAreJoined(RemoveZeroWidth(s), Start);
  }

  /** The four zero-width characters are dropped, any other is kept. */
  lemma RemovalOfOne(c: char)
    ensures RemoveZeroWidth([c]) == if c in {'\U{200b}', '\U{200c}', '\U{200d}', '\U{feff}'} then "" else [c]
  {
  }

  /** What is kept of two texts is kept in order. */
  lemma {:induction false} RemovalAppend(a: string, b: string)
    ensures RemoveZeroWidth(a + b) == RemoveZeroWidth(a) + RemoveZeroWidth(b)
  {
    if a == "" {
      assert a + b == b;
    } else {
      assert (a + b)[1..] == a[1..] + b;
      RemovalAppend(a[1..], b);
    }
  }

  /** The words of joined words are those words. */
  lemma {:induction false} WordsOfJoined(words: seq<string>)
    requires AreWords(words)
    ensures WordList(Join(words, ' ')) == words
  {
    if |words| == 1 {
      OneWordList(words[0]);
    } else if |words| > 1 {
      WordsOfJoined(words[1..]);
      FollowedWord(words[0], Join(words[1..], ' '));
      assert words == [words[0]] + words[1..];
    }
  }

  lemma {:induction false} OneWordList(w: string)
    requires w != "" && NoSpace(w)
    ensures WordList(w) == [w]
  {
    if |w| > 1 {
      OneWordList(w[1..]);
      assert !IsSpace(w[1]);
      assert w == [w[0]] + w[1..];
    } else {
      assert w == [w[0]] && w[1..] == "";
    }
  }

  lemma {:induction false} FollowedWord(w: string, rest: string)
    requires w != "" && NoSpace(w)
    ensures WordList(w + [' '] + rest) == [w] + WordList(rest)
  {
    var s := w + [' '] + rest;
    assert s[0] == w[0] && !IsSpace(w[0]);
    if |w| > 1 {
      assert s[1] == w[1] && !IsSpace(w[1]);
      FollowedWord(w[1..], rest);
      assert s[1..] == w[1..] + [' '] + rest;
      assert w == [w[0]] + w[1..];
    } else {
      assert w == [w[0]] && s[1] == ' ';
      assert s[1..] == [' '] + rest && s[1..][1..] == rest;
      assert WordList(s[1..]) == WordList(rest);
    }
  }
}
