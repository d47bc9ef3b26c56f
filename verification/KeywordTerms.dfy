/** core/keyword_rules.py: what a rule text means. Semicolons separate alternatives, white space separates the words
    of one alternative, and a rule asks for every one of its words. */
module KeywordTerms {
  import opened Options
  import opened Text
  import opened KeywordText
  import opened KeywordRules

  // ---- one rule ----

  /** The words of a piece of text, without zero-width characters. */
  function WordsOf(piece: string): seq<string> {
    WordList(RemoveZeroWidth(piece))
  }

  function Folds(f: Folding, words: seq<string>): (r: seq<string>)
    ensures |r| == |words| && forall k :: 0 <= k < |r| ==> r[k] == NormalizeForMatch(f, words[k])
  {
    seq(|words|, k requires 0 <= k < |words| => NormalizeForMatch(f, words[k]))
  }

  lemma NonEmptyOne(x: string)
    ensures NonEmpty([x]) == if x == "" then [] else [x]
  {
  }

  /** Dropping empty texts goes piece by piece. */
  lemma {:induction false} NonEmptyAppend(a: seq<string>, b: seq<string>)
    ensures NonEmpty(a + b) == NonEmpty(a) + NonEmpty(b)
  {
    if a == [] {
      assert a + b == b;
    } else {
      assert (a + b)[1..] == a[1..] + b;
      NonEmptyAppend(a[1..], b);
    }
  }

  lemma {:induction false} TermsAreFolds(f: Folding, parts: seq<string>)
    ensures TermsOf(f, parts) == NonEmpty(Folds(f, parts))
  {
    if parts != [] {
      TermsAreFolds(f, parts[1..]);
      assert Folds(f, parts)[1..] == Folds(f, parts[1..]);
    }
  }

  /** Main result: a text makes a rule just when one of its words folds to something; the rule shows the words joined
      by single spaces, and its terms are the words' non-empty foldings, each word in order. */
  lemma RuleIsItsWords(f: Folding, text: string)
    ensures
      var words := WordsOf(text);
      var terms := NonEmpty(Folds(f, words));
      BuildKeywordRule(f, text) == if terms == [] then None else Some(Rule(Join(words, ' '), terms))
  {
    var words := WordsOf(text);
    NormalizeTextJoinsWords(text);
    if words != [] {
      assert words[0] != "" && NormalizeText(text) != "";
      forall p | p in words ensures ' ' !in p {
        var k :| 0 <= k < |words| && words[k] == p;
      }
      SplitJoin(words, ' ');
      TermsAreFolds(f, words);
    }
  }

  /** Some word of the piece folds to something. */
  ghost predicate HasTerm(f: Folding, piece: string) {
    exists w :: w in WordsOf(piece) && NormalizeForMatch(f, w) != ""
  }

  /** Every word of the piece, folded, occurs in the text. */
  ghost predicate AllOccur(f: Folding, piece: string, text: string) {
    forall w :: w in WordsOf(piece) ==> Occurs(NormalizeForMatch(f, w), text)
  }

  lemma FoldsHold(f: Folding, words: seq<string>, t: string)
    ensures t in NonEmpty(Folds(f, words)) <==> t != "" && exists w :: w in words && NormalizeForMatch(f, w) == t
  {
    if w :| w in words && NormalizeForMatch(f, w) == t {
      var k :| 0 <= k < |words| && words[k] == w;
      assert Folds(f, words)[k] == t;
    }
  }

  /** The terms of a rule, as a set. */
  lemma TermsHold(f: Folding, piece: string)
    ensures BuildKeywordRule(f, piece).Some? <==> HasTerm(f, piece)
    ensures BuildKeywordRule(f, piece).Some? ==> forall t ::
                t in BuildKeywordRule(f, piece).value.terms <==>
                t != "" && exists w :: w in WordsOf(piece) && NormalizeForMatch(f, w) == t
  {
    RuleIsItsWords(f, piece);
    var words := WordsOf(piece);
    var terms := NonEmpty(Folds(f, words));
    forall t ensures t in terms <==> t != "" && exists w :: w in words && NormalizeForMatch(f, w) == t {
      FoldsHold(f, words, t);
    }
    if terms != [] {
      assert terms[0] in terms;
    }
    if w :| w in words && NormalizeForMatch(f, w) != "" {
      assert NormalizeForMatch(f, w) in terms;
    }
  }

  ghost predicate AllIn(terms: seq<string>, text: string) {
    forall t :: t in terms ==> Occurs(t, text)
  }

  /** The empty text occurs everywhere, so only the others matter. */
  lemma NonEmptyOccur(all: seq<string>, text: string)
    ensures AllIn(NonEmpty(all), text) <==> AllIn(all, text)
  {
    assert OccursAt("", text, 0);
    assert forall t :: t in NonEmpty(all) ==> t in all;
    if AllIn(NonEmpty(all), text) {
      forall t | t in all ensures Occurs(t, text) {
        assert t == "" || t in NonEmpty(all);
      }
    }
  }

  lemma MatchesAllTerms(rule: Rule, text: string)
    ensures MatchesRule(rule, text) <==> AllIn(rule.terms, text)
  {
    if AllIn(rule.terms, text) {
      forall k | 0 <= k < |rule.terms| ensures Contains(rule.terms[k], text) {
        assert rule.terms[k] in rule.terms;
      }
    }
    if MatchesRule(rule, text) {
      forall t | t in rule.terms ensures Occurs(t, text) {
        var k :| 0 <= k < |rule.terms| && rule.terms[k] == t;
        assert Contains(rule.terms[k], text);
      }
    }
  }

  lemma FoldsOccur(f: Folding, words: seq<string>, text: string)
    ensures AllIn(Folds(f, words), text) <==>
            forall w :: w in words ==> Occurs(NormalizeForMatch(f, w), text)
  {
    var folds := Folds(f, words);
    if AllIn(folds, text) {
      forall w | w in words ensures Occurs(NormalizeForMatch(f, w), text) {
        var k :| 0 <= k < |words| && words[k] == w;
        assert folds[k] in folds;
      }
    }
    if forall w :: w in words ==> Occurs(NormalizeForMatch(f, w), text) {
      forall t | t in folds ensures Occurs(t, text) {
        var k :| 0 <= k < |words| && folds[k] == t;
        assert words[k] in words;
      }
    }
  }

  /** Main result: a rule asks for all words of its text. */
  lemma RuleAsksForAllWords(f: Folding, piece: string, text: string)
    requires BuildKeywordRule(f, piece).Some?
    ensures MatchesRule(BuildKeywordRule(f, piece).value, text) <==> AllOccur(f, piece, text)
  {
    RuleIsItsWords(f, piece);
    NonEmptyOccur(Folds(f, WordsOf(piece)), text);
    FoldsOccur(f, WordsOf(piece), text);
    MatchesAllTerms(BuildKeywordRule(f, piece).value, text);
  }

  /** Words without zero-width characters are the words of their joined text. */
  lemma {:induction false} JoinHasNoZeroWidth(words: seq<string>)
    requires forall k :: 0 <= k < |words| ==> NoZeroWidth(words[k])
    ensures NoZeroWidth(Join(words, ' '))
  {
    if |words| > 1 {
      JoinHasNoZeroWidth(words[1..]);
    }
  }

  /** The rule text printed from words. */
  lemma RuleOfWords(f: Folding, words: seq<string>, text: string)
    requires AreWords(words) && forall k :: 0 <= k < |words| ==> NoZeroWidth(words[k])
    requires exists w :: w in words && NormalizeForMatch(f, w) != ""
    ensures
      var rule := BuildKeywordRule(f, Join(words, ' '));
      && rule == Some(Rule(Join(words, ' '), NonEmpty(Folds(f, words))))
      && (MatchesRule(rule.value, text) <==> forall w :: w in words ==> Occurs(NormalizeForMatch(f, w), text))
  {
    var piece := Join(words, ' ');
    JoinHasNoZeroWidth(words);
    WordsOfJoined(words);
    assert WordsOf(piece) == words;
    RuleIsItsWords(f, piece);
    TermsHold(f, piece);
    RuleAsksForAllWords(f, piece, text);
  }

  // ---- the rules of an input ----

  lemma {:induction false} SomesAppend(a: seq<Option<Rule>>, b: seq<Option<Rule>>)
    ensures Somes(a + b) == Somes(a) + Somes(b)
  {
    if b == [] {
      assert a + b == a;
    } else {
      var init := b[..|b| - 1];
      assert (a + b)[..|a + b| - 1] == a + init;
      SomesAppend(a, init);
    }
  }

  lemma BuiltAppend(f: Folding, left: seq<string>, right: seq<string>)
    ensures Built(f, left + right) == Built(f, left) + Built(f, right)
  {
    var all := left + right;
    forall k | 0 <= k < |all| ensures Built(f, all)[k] == (Built(f, left) + Built(f, right))[k] {
      if k < |left| {
        assert all[k] == left[k] && Built(f, left)[k] == BuildKeywordRule(f, left[k]);
      } else {
        assert all[k] == right[k - |left|];
        assert Built(f, right)[k - |left|] == BuildKeywordRule(f, right[k - |left|]);
      }
    }
  }

  lemma RulesOfAppend(f: Folding, left: seq<string>, right: seq<string>)
    ensures RulesOf(f, left + right) == RulesOf(f, left) + RulesOf(f, right)
  {
    BuiltAppend(f, left, right);
    SomesAppend(Built(f, left), Built(f, right));
  }

  lemma InputAppend(f: Folding, a: string, b: string)
    ensures ParseInput(f, a + ";" + b) == ParseInput(f, a) + ParseInput(f, b)
  {
    assert a + ";" + b == a + [';'] + b;
    SplitAppend(a, b, ';');
    RulesOfAppend(f, Split(a, ';'), Split(b, ';'));
  }

  lemma InputOfPiece(f: Folding, piece: string)
    requires ';' !in piece
    ensures ParseInput(f, piece) == match BuildKeywordRule(f, piece) case Some(rule) => [rule] case None => []
  {
    SplitWhole(piece, ';');
    var built := Built(f, [piece]);
    assert built == [BuildKeywordRule(f, piece)] && built[..0] == [];
    assert Somes(built[..0]) == [];
  }

  /** Main result: the alternatives of an input are parsed one by one, in order; a piece without a semicolon gives its
      rule, or nothing when no word of it folds to something. */
  lemma AlternativesAreSeparate(f: Folding, a: string, b: string)
    ensures ParseInput(f, a + ";" + b) == ParseInput(f, a) + ParseInput(f, b)
    ensures ';' !in a && HasTerm(f, a) ==>
              |ParseInput(f, a)| == 1 && Some(ParseInput(f, a)[0]) == BuildKeywordRule(f, a)
    ensures ';' !in a && !HasTerm(f, a) ==> ParseInput(f, a) == []
  {
    InputAppend(f, a, b);
    TermsHold(f, a);
    if ';' !in a {
      InputOfPiece(f, a);
    }
  }

  lemma RulesOfHold(f: Folding, pieces: seq<string>, rule: Rule)
    ensures rule in RulesOf(f, pieces) <==> exists piece :: piece in pieces && BuildKeywordRule(f, piece) == Some(rule)
  {
    if rule in RulesOf(f, pieces) {
      var k :| 0 <= k < |pieces| && Built(f, pieces)[k] == Some(rule);
      assert pieces[k] in pieces;
    }
    if piece :| piece in pieces && BuildKeywordRule(f, piece) == Some(rule) {
      var k :| 0 <= k < |pieces| && pieces[k] == piece;
      assert Built(f, pieces)[k] == Some(rule);
    }
  }

  /** The rules of an input are those of its pieces that have a term. */
  lemma InputHolds(f: Folding, input: string, rule: Rule)
    ensures rule in ParseInput(f, input) <==>
            exists piece :: piece in Split(input, ';') && HasTerm(f, piece) && BuildKeywordRule(f, piece) == Some(rule)
  {
    RulesOfHold(f, Split(input, ';'), rule);
    if piece :| piece in Split(input, ';') && BuildKeywordRule(f, piece) == Some(rule) {
      TermsHold(f, piece);
    }
  }

  lemma ValueIsInput(f: Folding, value: string)
    ensures ParseValues(f, [value]) == ParseInput(f, value)
  {
    assert [value][..0] == [] && ParseValues(f, []) == [];
  }

  /** Values are parsed one by one, in order. */
  lemma {:induction false} ValuesAreSeparate(f: Folding, a: seq<string>, b: seq<string>)
    ensures ParseValues(f, a + b) == ParseValues(f, a) + ParseValues(f, b)
  {
    if b == [] {
      assert a + b == a;
    } else {
      assert (a + b)[..|a + b| - 1] == a + b[..|b| - 1];
      ValuesAreSeparate(f, a, b[..|b| - 1]);
    }
  }

  // ---- keyword lists ----

  /** The piece is an alternative of one of the values, and has a term. */
  ghost predicate IsAlternative(f: Folding, values: seq<string>, piece: string) {
    HasTerm(f, piece) && exists v :: v in values && piece in Split(v, ';')
  }

  lemma ValuesHold(f: Folding, values: seq<string>, rule: Rule)
    ensures rule in ParseValues(f, values) <==>
            exists piece :: IsAlternative(f, values, piece) && BuildKeywordRule(f, piece) == Some(rule)
  {
    ParseValuesHolds(f, values, rule);
    forall v ensures rule in ParseInput(f, v) <==> exists piece ::
                         piece in Split(v, ';') && HasTerm(f, piece) && BuildKeywordRule(f, piece) == Some(rule)
    {
      InputHolds(f, v, rule);
    }
    if v :| v in values && rule in ParseInput(f, v) {
      var piece :| piece in Split(v, ';') && HasTerm(f, piece) && BuildKeywordRule(f, piece) == Some(rule);
      assert IsAlternative(f, values, piece);
    }
    if piece :| IsAlternative(f, values, piece) && BuildKeywordRule(f, piece) == Some(rule) {
      var v :| v in values && piece in Split(v, ';');
      assert rule in ParseInput(f, v);
    }
  }

  /** Main result: a keyword list matches a text just when all words of one of its alternatives occur in it. */
  lemma ValuesMatch(f: Folding, values: seq<string>, text: string)
    ensures (exists rule :: rule in ParseValues(f, values) && MatchesRule(rule, text)) <==>
            exists piece :: IsAlternative(f, values, piece) && AllOccur(f, piece, text)
  {
    if rule :| rule in ParseValues(f, values) && MatchesRule(rule, text) {
      ValuesHold(f, values, rule);
      var piece :| IsAlternative(f, values, piece) && BuildKeywordRule(f, piece) == Some(rule);
      RuleAsksForAllWords(f, piece, text);
    }
    if piece :| IsAlternative(f, values, piece) && AllOccur(f, piece, text) {
      TermsHold(f, piece);
      var rule := BuildKeywordRule(f, piece).value;
      ValuesHold(f, values, rule);
      RuleAsksForAllWords(f, piece, text);
    }
  }

  // ---- reporting ----

  lemma AcceptedOne(rule: Rule, text: string)
    ensures Accepted([rule], text) == if Accepts(rule, text) then [rule.raw] else []
  {
  }

  /** Rules are reported one by one, in order. */
  lemma {:induction false} AcceptedAppend(a: seq<Rule>, b: seq<Rule>, text: string)
    ensures Accepted(a + b, text) == Accepted(a, text) + Accepted(b, text)
  {
    if a == [] {
      assert a + b == b;
    } else {
      assert (a + b)[1..] == a[1..] + b;
      AcceptedAppend(a[1..], b, text);
    }
  }
}
