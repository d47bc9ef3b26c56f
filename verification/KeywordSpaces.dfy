/** What a space inside an exclude term does to ignore phrases: the exact condition under which ignoring more never
    makes a rule fire, and a configuration that meets the failing case. */
module KeywordSpaces {
  import opened Options
  import opened Text
  import opened KeywordText
  import opened KeywordRules
  import opened KeywordGroups
  import opened KeywordExclude

  // ---- the inputs are reachable ones ----

  lemma {:induction false} TermsAreTidy(f: Folding, parts: seq<string>)
    requires Regular(f)
    ensures forall t :: t in TermsOf(f, parts) ==> Tidy(t)
  {
    if parts != [] {
      TermsAreTidy(f, parts[1..]);
      NormalizeForMatchIsTidy(f, parts[0]);
    }
  }

  /** The terms of a parsed rule are tidy and not empty. */
  lemma ParsedTermsAreTidy(f: Folding, rule: Rule)
    requires Regular(f) && ParserMade(f, rule)
    ensures forall t :: t in rule.terms ==> t != "" && Tidy(t)
  {
    TermsAreTidy(f, Split(NormalizeText(rule.raw), ' '));
  }

  /** The ignore phrases of a compiled matcher are proper. */
  lemma IgnorePhrasesAreProper(f: Folding, values: seq<string>)
    requires Regular(f)
    ensures ProperPhrases(IgnorePhrases(f, values))
  {
    var rules := ParseValues(f, values);
    forall p | p in IgnorePhrases(f, values) ensures p != "" && Tidy(p) {
      var rule :| rule in rules && p == NormalizeForMatch(f, rule.raw);
      NormalizeForMatchIsTidy(f, rule.raw);
    }
  }

  // ---- one rule ----

  ghost predicate HasSpace(rule: Rule) {
    exists t :: t in rule.terms && ' ' in t
  }

  /** On this normalised text the rule fires with more ignore phrases and not with fewer. */
  ghost predicate FiresMore(rule: Rule, fewer: seq<string>, more: seq<string>, text: string) {
    && ProperPhrases(fewer) && ProperPhrases(more) && (forall p :: p in fewer ==> p in more)
    && Tidy(text) && MatchesRule(rule, Masked(more, text)) && !MatchesRule(rule, Masked(fewer, text))
  }

  /** Adding ignore phrases never makes the rule fire on a normalised text. */
  ghost predicate NeverFiresMore(rule: Rule) {
    forall fewer, more, text :: !FiresMore(rule, fewer, more, text)
  }

  /** Two word characters that no term of the rule holds. */
  ghost predicate Fresh(rule: Rule, c: char, d: char) {
    && c != d && !IsSpace(c) && !IsSpace(d)
    && forall t :: t in rule.terms ==> c !in t && d !in t
  }

  /** Main result, with its exact condition: ignoring more never makes the rule fire if and only if none of its
      terms holds a space. */
  lemma IgnoringMoreIsSafeWithoutSpaces(rule: Rule, c: char, d: char)
    requires Fresh(rule, c, d) && forall t :: t in rule.terms ==> t != "" && Tidy(t)
    ensures NeverFiresMore(rule) <==> !HasSpace(rule)
  {
    if HasSpace(rule) {
      SpacedRuleFires(rule, c, d);
    } else {
      forall fewer, more, text ensures !FiresMore(rule, fewer, more, text) {
        if ProperPhrases(more) && (forall p :: p in fewer ==> p in more) && MatchesRule(rule, Masked(more, text)) {
          SpacelessRuleIsSafe(rule, fewer, more, text);
        }
      }
    }
  }

  lemma SpacelessRuleIsSafe(rule: Rule, fewer: seq<string>, more: seq<string>, text: string)
    requires !HasSpace(rule) && "" !in rule.terms && "" !in more && forall p :: p in fewer ==> p in more
    requires MatchesRule(rule, Masked(more, text))
    ensures MatchesRule(rule, Masked(fewer, text))
  {
    ExcludeRuleFires(rule, fewer, text);
    ExcludeRuleFires(rule, more, text);
    forall t | t in rule.terms ensures Untouched(t, fewer, text) {
      var i :| OccursAt(t, text, i) && Clear(i, i + |t|, more, text);
      assert Clear(i, i + |t|, fewer, text);
    }
  }

  /** A longest spaced term: every other term that holds it would be longer. */
  lemma {:induction false} LongestSpaced(terms: seq<string>) returns (best: string)
    requires exists t :: t in terms && ' ' in t
    ensures best in terms && ' ' in best
    ensures forall t :: t in terms && ' ' in t ==> |t| <= |best|
  {
    var head, rest := terms[0], terms[1..];
    assert terms == [head] + rest;
    if exists t :: t in rest && ' ' in t {
      best := LongestSpaced(rest);
      if ' ' in head && |head| > |best| {
        best := head;
      }
    } else {
      best := head;
    }
  }

  /** The terms one after another, each closed by d, with c standing in for the spaces of one of them. */
  function Disguised(terms: seq<string>, term: string, c: char, d: char): string {
    if terms == [] then ""
    else
      (if terms[0] == term then Replace(term, ' ', c) else terms[0]) + [d] + Disguised(terms[1..], term, c, d)
  }

  lemma OccurrenceHolds(sub: string, s: string, i: int, q: int)
    requires OccursAt(sub, s, i) && i <= q < i + |sub|
    ensures s[q] in sub
  {
    assert s[i..i + |sub|][q - i] == s[q];
  }

  lemma OccursInPart(sub: string, a: string, d: char, b: string, i: int)
    requires d !in sub && OccursAt(sub, a + [d] + b, i)
    ensures OccursAt(sub, a, i) || OccursAt(sub, b, i - |a| - 1)
  {
    var s := a + [d] + b;
    if i <= |a| < i + |sub| {
      OccurrenceHolds(sub, s, i, |a|);
    } else if i + |sub| <= |a| {
      assert s[i..i + |sub|] == a[i..i + |sub|];
    } else {
      assert s[i..i + |sub|] == b[i - |a| - 1..i - |a| - 1 + |sub|];
    }
  }

  lemma PieceHides(head: string, term: string, c: char, i: int)
    requires ' ' in term && c !in term && (' ' in head ==> |head| <= |term|)
    ensures !OccursAt(term, if head == term then Replace(term, ' ', c) else head, i)
  {
    var piece := if head == term then Replace(term, ' ', c) else head;
    var k :| 0 <= k < |term| && term[k] == ' ';
    if 0 <= i && i + |term| <= |piece| {
      assert piece[i..i + |term|][k] == piece[i + k];
      if ' ' in piece {
        assert i == 0 && piece[0..|term|] == piece;
      }
    }
  }

  /** The disguised term is nowhere in the text. */
  lemma {:induction false} DisguiseHides(terms: seq<string>, term: string, c: char, d: char, i: int)
    requires ' ' in term && c !in term && d !in term
    requires forall t :: t in terms && ' ' in t ==> |t| <= |term|
    ensures !OccursAt(term, Disguised(terms, term, c, d), i)
    decreases |terms|
  {
    if terms != [] {
      var head, rest := terms[0], Disguised(terms[1..], term, c, d);
      var piece := if head == term then Replace(term, ' ', c) else head;
      assert terms == [head] + terms[1..];
      PieceHides(head, term, c, i);
      DisguiseHides(terms[1..], term, c, d, i - |piece| - 1);
      if OccursAt(term, piece + [d] + rest, i) {
        OccursInPart(term, piece, d, rest, i);
      }
    }
  }

  lemma OccursFirst(sub: string, d: char, b: string)
    ensures Occurs(sub, sub + [d] + b)
  {
    assert (sub + [d] + b)[0..|sub|] == sub;
    assert OccursAt(sub, sub + [d] + b, 0);
  }

  lemma OccursLater(sub: string, a: string, d: char, b: string)
    requires Occurs(sub, b)
    ensures Occurs(sub, a + [d] + b)
  {
    var i :| OccursAt(sub, b, i);
    var s, k := a + [d] + b, |a| + 1 + i;
    assert s[k..k + |sub|] == b[i..i + |sub|];
    assert OccursAt(sub, s, k);
  }

  lemma ReplaceAppend(a: string, d: char, b: string, from: char, to: char)
    requires d != from
    ensures Replace(a + [d] + b, from, to) == Replace(a, from, to) + [d] + Replace(b, from, to)
  {
  }

  lemma ReplaceBack(s: string, term: string, c: char)
    requires c !in s
    ensures Replace(if s == term then Replace(term, ' ', c) else s, c, ' ') == s
  {
    var piece := if s == term then Replace(term, ' ', c) else s;
    forall p | 0 <= p < |s| ensures Replace(piece, c, ' ')[p] == s[p] {
      assert s[p] in s;
    }
  }

  /** Turning c back into spaces brings every term back. */
  lemma {:induction false} DisguiseReturns(terms: seq<string>, term: string, c: char, d: char, t: string)
    requires c != d && t in terms && forall x :: x in terms ==> c !in x
    ensures Occurs(t, Replace(Disguised(terms, term, c, d), c, ' '))
    decreases |terms|
  {
    var head, rest := terms[0], Disguised(terms[1..], term, c, d);
    var piece := if head == term then Replace(term, ' ', c) else head;
    var back := Replace(rest, c, ' ');
    assert terms == [head] + terms[1..];
    ReplaceAppend(piece, d, rest, c, ' ');
    ReplaceBack(head, term, c);
    if t == head {
      OccursFirst(head, d, back);
    } else {
      DisguiseReturns(terms[1..], term, c, d, t);
      OccursLater(t, head, d, back);
    }
  }

  lemma ReplaceIsTidy(s: string, c: char)
    requires Tidy(s) && !IsSpace(c)
    ensures Tidy(Replace(s, ' ', c))
  {
  }

  lemma TidyAppend(a: string, d: char, b: string)
    requires Tidy(a) && !IsSpace(d) && Tidy(b)
    ensures Tidy(a + [d] + b)
  {
  }

  lemma {:induction false} DisguiseIsTidy(terms: seq<string>, term: string, c: char, d: char)
    requires !IsSpace(c) && !IsSpace(d) && forall t :: t in terms ==> Tidy(t)
    ensures Tidy(Disguised(terms, term, c, d))
  {
    if terms != [] {
      var head := terms[0];
      assert terms == [head] + terms[1..];
      DisguiseIsTidy(terms[1..], term, c, d);
      ReplaceIsTidy(head, c);
      TidyAppend(if head == term then Replace(term, ' ', c) else head, d, Disguised(terms[1..], term, c, d));
    }
  }

  lemma SpacedRuleFires(rule: Rule, c: char, d: char)
    requires HasSpace(rule) && Fresh(rule, c, d) && forall t :: t in rule.terms ==> t != "" && Tidy(t)
    ensures !NeverFiresMore(rule)
  {
    var term := LongestSpaced(rule.terms);
    DisguiseIsTidy(rule.terms, term, c, d);
    DisguisedFires(rule, term, c, d);
    DisguisedIsSilent(rule, term, c, d);
    OneCharacterFires(rule, c, Disguised(rule.terms, term, c, d));
  }

  lemma OneCharacterFires(rule: Rule, c: char, text: string)
    requires !IsSpace(c) && Tidy(text)
    requires MatchesRule(rule, Masked([[c]], text)) && !MatchesRule(rule, Masked([], text))
    ensures !NeverFiresMore(rule)
  {
    OneCharacterIsProper(c);
    assert FiresMore(rule, [], [[c]], text);
  }

  lemma DisguisedFires(rule: Rule, term: string, c: char, d: char)
    requires Fresh(rule, c, d)
    ensures MatchesRule(rule, Masked([[c]], Disguised(rule.terms, term, c, d)))
  {
    var text := Disguised(rule.terms, term, c, d);
    MaskedCharacter(c, text);
    forall k | 0 <= k < |rule.terms| ensures Contains(rule.terms[k], Replace(text, c, ' ')) {
      DisguiseReturns(rule.terms, term, c, d, rule.terms[k]);
    }
  }

  lemma DisguisedIsSilent(rule: Rule, term: string, c: char, d: char)
    requires Fresh(rule, c, d) && term in rule.terms && ' ' in term
    requires forall t :: t in rule.terms && ' ' in t ==> |t| <= |term|
    ensures !MatchesRule(rule, Masked([], Disguised(rule.terms, term, c, d)))
  {
    var text := Disguised(rule.terms, term, c, d);
    MaskedCharacter(c, text);
    forall i ensures !OccursAt(term, text, i) {
      DisguiseHides(rule.terms, term, c, d, i);
    }
    MissingTerm(rule, term, text);
  }

  lemma MissingTerm(rule: Rule, term: string, text: string)
    requires term in rule.terms && !Occurs(term, text)
    ensures !MatchesRule(rule, text)
  {
    var k :| 0 <= k < |rule.terms| && rule.terms[k] == term;
    assert !Contains(rule.terms[k], text);
  }

  lemma OneCharacterIsProper(c: char)
    requires !IsSpace(c)
    ensures ProperPhrases([[c]])
  {
    assert forall p :: p in [[c]] ==> p == [c];
  }

  // ---- configurations with one include keyword and one exclude rule ----

  lemma NoGroups()
    ensures Normalized([], false) == []
  {
    assert EntriesUpTo([], 1, false) == [];
    assert EntriesUpTo([], 2, false) == [];
  }

  lemma OneKeyword(keyword: string)
    requires keyword != "" && Trimmed(keyword)
    ensures KeywordValues([keyword]) == [keyword]
  {
    var values := [keyword];
    assert forall k :: k in values ==> k == keyword;
    assert StripAll(values) == values;
    DedupeDistinct(values);
  }

  /** One flat keyword is one group. */
  lemma OneGroup(keyword: string)
    requires keyword != "" && Trimmed(keyword)
    ensures EffectiveGroups([keyword], []) == [Group("1", DefaultLabel("1"), [keyword])]
  {
    NoGroups();
    OneKeyword(keyword);
  }

  lemma OneGroupAccepts(f: Folding, g: Group, rule: Rule, text: string)
    requires g.keywords != [] && ParseValues(f, g.keywords) == [rule]
    ensures GroupedAccepts(CompileGroups(f, [g]), text) <==> MatchesRule(rule, text)
  {
    var compiled := CompileGroups(f, [g]);
    assert g in [g];
    ParsedAreParserMade(f, g.keywords);
    ReportsMatches(f, [rule], text);
    assert rule in [rule];
    forall c | c in compiled ensures GroupRules(c, text) == DedupeRules(Accepted([rule], text)) {
    }
    assert CompiledGroup(g, [rule]) in compiled;
  }

  /** With one include keyword and one exclude rule, eligibility is the one rule matching and the other not. */
  lemma OneRuleEach(f: Folding, keyword: string, included: Rule, exclude: string, excluded: Rule,
                    ignores: seq<string>, text: string)
    requires keyword != "" && Trimmed(keyword)
    requires ParseValues(f, [keyword]) == [included] && ParseValues(f, [exclude]) == [excluded]
    ensures Eligible(Compile(f, [keyword], [], [exclude], ignores), text) <==>
            MatchesRule(included, text) && !MatchesRule(excluded, Masked(IgnorePhrases(f, ignores), text))
  {
    OneGroup(keyword);
    OneGroupAccepts(f, Group("1", DefaultLabel("1"), [keyword]), included, text);
    ParsedAreParserMade(f, [exclude]);
    ReportsMatches(f, [excluded], Masked(IgnorePhrases(f, ignores), text));
    assert excluded in [excluded];
  }

  lemma OneTerm(f: Folding, s: string, term: string)
    requires term != "" && NormalizeForMatch(f, s) == term
    ensures TermsOf(f, [s]) == [term]
  {
    assert [s][1..] == [];
    assert TermsOf(f, [s][1..]) == [];
  }

  /** One word is the rule of that word. */
  lemma OneWord(f: Folding, word: string, term: string)
    requires word != "" && Tidy(word) && NoZeroWidth(word) && ' ' !in word && ';' !in word
    requires term != "" && NormalizeForMatch(f, word) == term
    ensures BuildKeywordRule(f, word) == Some(Rule(word, [term]))
    ensures ParseValues(f, [word]) == [Rule(word, [term])]
  {
    NormalizeTextFixed(word);
    SplitWhole(word, ' ');
    OneTerm(f, word, term);
    OneValue(f, word, Rule(word, [term]));
  }

  lemma OneValue(f: Folding, value: string, rule: Rule)
    requires ';' !in value && BuildKeywordRule(f, value) == Some(rule)
    ensures ParseValues(f, [value]) == [rule]
  {
    SplitWhole(value, ';');
    AllSome(Built(f, [value]), [rule]);
    assert [value][..0] == [];
  }

  lemma OneIgnorePhrase(f: Folding, word: string)
    requires word != "" && ParseValues(f, [word]) == [Rule(word, [word])] && NormalizeForMatch(f, word) == word
    ensures IgnorePhrases(f, [word]) == [word]
  {
    var rules := [Rule(word, [word])];
    assert rules[1..] == [];
    assert NormalizedRaws(f, rules[1..]) == [];
    assert NormalizedRaws(f, rules) == [word];
    NonEmptyKeepsAll([word]);
    DedupeDistinct([word]);
  }

  // ---- a configuration that meets the failing case ----

  /** Compatibility normalisation of the acute accent U+00B4: a space and the combining accent U+0301. */
  function AcuteNfkc(c: char): string {
    if c == '\U{b4}' then " \U{301}" else [c]
  }

  function Unchanged(c: char): string {
    [c]
  }

  const ACUTE := Folding(AcuteNfkc, Unchanged)

  lemma AcuteIsRegular()
    ensures Regular(ACUTE)
  {
  }

  lemma {:induction false} MapUnchanged(g: char -> string, s: string)
    requires forall c :: c in s ==> g(c) == [c]
    ensures MapChars(g, s) == s
  {
    if s != "" {
      MapUnchanged(g, s[1..]);
      assert s == [s[0]] + s[1..];
    }
  }

  /** Text without the accent is its own normal form. */
  lemma PlainIsNormal(s: string)
    requires Tidy(s) && NoZeroWidth(s) && '\U{b4}' !in s
    ensures NormalizeForMatch(ACUTE, s) == s
  {
    NormalizeTextFixed(s);
    MapUnchanged(AcuteNfkc, s);
    MapUnchanged(Unchanged, s);
  }

  lemma AccentIsSpaced()
    ensures NormalizeForMatch(ACUTE, "a\U{b4}") == "a \U{301}"
  {
    var raw, term := "a\U{b4}", "a \U{301}";
    NormalizeTextFixed(raw);
    MapCharsAppend(AcuteNfkc, "a", "\U{b4}");
    assert raw == "a" + "\U{b4}" && term == "a" + " \U{301}";
    assert MapChars(AcuteNfkc, "a") == "a";
    assert MapChars(AcuteNfkc, "\U{b4}") == " \U{301}";
    NormalizeTextFixed(term);
    MapUnchanged(Unchanged, term);
  }

  /** The parser makes a rule whose one term holds a space. */
  lemma SpacedRuleIsParsed()
    ensures BuildKeywordRule(ACUTE, "a\U{b4}") == Some(Rule("a\U{b4}", ["a \U{301}"]))
    ensures ParseValues(ACUTE, ["a\U{b4}"]) == [Rule("a\U{b4}", ["a \U{301}"])]
  {
    AccentIsSpaced();
    OneWord(ACUTE, "a\U{b4}", "a \U{301}");
  }

  lemma PlainWord(word: string)
    requires word != "" && Tidy(word) && NoZeroWidth(word) && '\U{b4}' !in word && ' ' !in word && ';' !in word
    ensures NormalizeForMatch(ACUTE, word) == word && ParseValues(ACUTE, [word]) == [Rule(word, [word])]
  {
    PlainIsNormal(word);
    OneWord(ACUTE, word, word);
  }

  lemma OneTermMatches(rule: Rule, term: string, text: string)
    requires rule.terms == [term]
    ensures MatchesRule(rule, text) <==> Occurs(term, text)
  {
    assert rule.terms[0] == term;
    assert MatchesRule(rule, text) <==> Contains(term, text);
  }

  const INCLUDED := Rule("a", ["a"])
  const EXCLUDED := Rule("a\U{b4}", ["a \U{301}"])
  const TEXT := "ax\U{301}"

  /** The include rule matches the text; the exclude rule comes into it only once "x" is masked. */
  lemma RulesOnText()
    ensures MatchesRule(INCLUDED, TEXT)
    ensures !MatchesRule(EXCLUDED, Masked([], TEXT)) && MatchesRule(EXCLUDED, Masked(["x"], TEXT))
  {
    var term := "a \U{301}";
    assert Replace(term, ' ', 'x') == TEXT && ['x'] == "x" && term[1] == ' ';
    SpacedTermLeaks(term, 'x');
    OneTermMatches(EXCLUDED, term, Masked([], TEXT));
    OneTermMatches(EXCLUDED, term, Masked(["x"], TEXT));
    assert TEXT[0..1] == "a" && OccursAt("a", TEXT, 0);
    OneTermMatches(INCLUDED, "a", TEXT);
  }

  /** The configuration: include "a", exclude the word "a" with an acute accent. */
  function Configured(ignores: seq<string>): Matcher {
    Compile(ACUTE, ["a"], [], ["a\U{b4}"], ignores)
  }

  lemma ConfiguredMeans(ignores: seq<string>, phrases: seq<string>)
    requires IgnorePhrases(ACUTE, ignores) == phrases
    ensures Eligible(Configured(ignores), TEXT) <==> !MatchesRule(EXCLUDED, Masked(phrases, TEXT))
  {
    PlainWord("a");
    SpacedRuleIsParsed();
    OneRuleEach(ACUTE, "a", INCLUDED, "a\U{b4}", EXCLUDED, ignores, TEXT);
    RulesOnText();
  }

  /** The folding is regular, the text is normalised, and the exclude rule is one the parser makes. */
  lemma ConfiguredIsReal()
    ensures Regular(ACUTE) && NormalizeForMatch(ACUTE, TEXT) == TEXT
    ensures ParseValues(ACUTE, ["a\U{b4}"]) == [EXCLUDED]
  {
    AcuteIsRegular();
    PlainIsNormal(TEXT);
    SpacedRuleIsParsed();
  }

  /** Main result: monotonicity does need spaceless exclude terms. The text is eligible without ignore values, and
      ignoring "x" makes it ineligible. */
  lemma IgnoringMoreCanExclude()
    ensures Eligible(Configured([]), TEXT) && !Eligible(Configured(["x"]), TEXT)
  {
    PlainWord("x");
    OneIgnorePhrase(ACUTE, "x");
    ConfiguredMeans([], []);
    ConfiguredMeans(["x"], ["x"]);
    RulesOnText();
  }
}
