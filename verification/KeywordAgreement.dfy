/** The matcher and the highlighter agree: what evaluation reports is what gets highlighted. */
module KeywordAgreement {
  import opened Options
  import opened Text
  import opened KeywordText
  import opened KeywordGroups
  import opened KeywordRules
  import opened KeywordExclude
  import opened KeywordHighlight

  /** Parsing printed raw texts gives back exactly the rules they parse to. */
  lemma ParseFormatted(f: Folding, raws: seq<string>)
    requires forall raw :: raw in raws ==> raw != "" && ';' !in raw && BuildKeywordRule(f, raw).Some?
    ensures forall rule :: rule in ParseInput(f, FormatRules(raws)) <==>
                             exists raw :: raw in raws && BuildKeywordRule(f, raw) == Some(rule)
  {
    var kept := Dedupe(raws);
    NonEmptyKeepsAll(kept);
    ParseJoined(f, kept);
    forall rule
      ensures rule in RulesFor(f, kept) <==> exists raw :: raw in kept && BuildKeywordRule(f, raw) == Some(rule)
    {
      RulesForHold(f, kept, rule);
    }
  }

  lemma RulesForHold(f: Folding, raws: seq<string>, rule: Rule)
    requires forall raw :: raw in raws ==> BuildKeywordRule(f, raw).Some?
    ensures rule in RulesFor(f, raws) <==> exists raw :: raw in raws && BuildKeywordRule(f, raw) == Some(rule)
  {
    if rule in RulesFor(f, raws) {
      var k :| 0 <= k < |raws| && RulesFor(f, raws)[k] == rule;
      assert raws[k] in raws;
    }
    if raw :| raw in raws && BuildKeywordRule(f, raw) == Some(rule) {
      var k :| 0 <= k < |raws| && raws[k] == raw;
      assert RulesFor(f, raws)[k] == rule;
    }
  }

  lemma MatchesOfTexts(c: CompiledGroup, text: string)
    ensures RuleTexts(MatchesOf(c, text)) == GroupRules(c, text)
  {
  }

  lemma RuleTextsAppend(a: seq<GroupMatch>, b: seq<GroupMatch>)
    ensures RuleTexts(a + b) == RuleTexts(a) + RuleTexts(b)
  {
  }

  /** The rule is reported by one of the first n groups. */
  ghost predicate ReportedBefore(compiled: seq<CompiledGroup>, n: nat, text: string, raw: string)
    requires n <= |compiled|
  {
    exists j :: 0 <= j < n && raw in GroupRules(compiled[j], text)
  }

  lemma ReportedStep(compiled: seq<CompiledGroup>, n: nat, text: string, raw: string)
    requires 0 < n <= |compiled|
    ensures ReportedBefore(compiled, n, text, raw) <==>
            ReportedBefore(compiled, n - 1, text, raw) || raw in GroupRules(compiled[n - 1], text)
  {
  }

  /** The matches of the first n groups name the rules those groups report. */
  lemma {:induction false} MatchesUpToHold(compiled: seq<CompiledGroup>, n: nat, text: string, raw: string)
    requires n <= |compiled|
    ensures raw in RuleTexts(MatchesUpTo(compiled, n, text)) <==> ReportedBefore(compiled, n, text, raw)
  {
    if n > 0 {
      MatchesUpToHold(compiled, n - 1, text, raw);
      ReportedStep(compiled, n, text, raw);
      RuleTextsAppend(MatchesUpTo(compiled, n - 1, text), MatchesOf(compiled[n - 1], text));
      MatchesOfTexts(compiled[n - 1], text);
    }
  }

  /** What evaluation shows for an accepted text. */
  function Shown(m: Matcher, text: string): seq<string> {
    MatchedRules(MatchesUpTo(m.groups, |m.groups|, text))
  }

  ghost predicate GroupRuleMatches(m: Matcher, rule: Rule, text: string) {
    exists c :: c in m.groups && rule in c.rules && MatchesRule(rule, text)
  }

  lemma ShownHold(m: Matcher, text: string, raw: string)
    ensures raw in Shown(m, text) <==>
            raw != "" && exists rule, c :: c in m.groups && rule in c.rules && rule.raw == raw && Accepts(rule, text)
  {
    MatchesUpToHold(m.groups, |m.groups|, text, raw);
    if raw in Shown(m, text) {
      var j :| 0 <= j < |m.groups| && raw in GroupRules(m.groups[j], text);
      assert m.groups[j] in m.groups;
    }
    if raw != "" {
      if rule, c :| c in m.groups && rule in c.rules && rule.raw == raw && Accepts(rule, text) {
        assert raw in GroupRules(c, text);
      }
    }
  }

  /** Main result: the rule text shown for a post parses back to exactly the group rules that match the post. */
  lemma ShownRulesAreMatches(f: Folding, m: Matcher, text: string)
    requires forall c :: c in m.groups ==> AllParserMade(f, c.rules)
    ensures forall rule :: rule in ParseInput(f, FormatRules(Shown(m, text))) <==> GroupRuleMatches(m, rule, text)
  {
    var shown := Shown(m, text);
    forall raw | raw in shown ensures raw != "" && ';' !in raw && BuildKeywordRule(f, raw).Some? {
      ShownHold(m, text, raw);
      var rule, c :| c in m.groups && rule in c.rules && rule.raw == raw && Accepts(rule, text);
      assert ParserMade(f, rule);
    }
    ParseFormatted(f, shown);
    forall rule
      ensures (exists raw :: raw in shown && BuildKeywordRule(f, raw) == Some(rule))
              <==> GroupRuleMatches(m, rule, text)
    {
      ShownRule(f, m, text, rule);
    }
  }

  lemma ShownRule(f: Folding, m: Matcher, text: string, rule: Rule)
    requires forall c :: c in m.groups ==> AllParserMade(f, c.rules)
    ensures (exists raw :: raw in Shown(m, text) && BuildKeywordRule(f, raw) == Some(rule))
            <==> GroupRuleMatches(m, rule, text)
  {
    if raw :| raw in Shown(m, text) && BuildKeywordRule(f, raw) == Some(rule) {
      ShownHold(m, text, raw);
      var match', c :| c in m.groups && match' in c.rules && match'.raw == raw && Accepts(match', text);
      assert ParserMade(f, match');
    }
    if GroupRuleMatches(m, rule, text) {
      var c :| c in m.groups && rule in c.rules && MatchesRule(rule, text);
      assert ParserMade(f, rule);
      ParserMadeAccepts(f, rule, text);
      RawIsNotEmpty(f, rule);
      ShownHold(m, text, rule.raw);
    }
  }

  /** All source characters of the occurrence of the term at position i are highlighted. */
  ghost predicate Lit(f: Folding, text: string, rules: seq<Rule>, term: string, i: int) {
    && OccursAt(term, Seen(f, text), i)
    && forall p :: 0 <= p < |text| && InSpan(Seen(f, text), Origins(f, text), term, i, p) ==> Marked(f, text, rules, p)
  }

  /** Main result: highlighting a text by the rule text its evaluation shows lights up an occurrence of every term
      of every group rule the matcher accepts, and lights up nothing else. */
  lemma MatchesAreHighlighted(f: Folding, includes: seq<string>, groups: seq<Group>, excludes: seq<string>,
                              ignores: seq<string>, text: string)
    requires Regular(f)
    ensures
      var m := Compile(f, includes, groups, excludes, ignores);
      var rules := ParseInput(f, FormatRules(Shown(m, NormalizeForMatch(f, text))));
      && (forall rule, term :: GroupRuleMatches(m, rule, NormalizeForMatch(f, text)) && term in rule.terms ==>
            exists i :: Lit(f, text, rules, term, i))
      && (forall p :: Marked(f, text, rules, p) ==>
            exists rule, term, i :: GroupRuleMatches(m, rule, NormalizeForMatch(f, text)) && term in rule.terms &&
                                    InSpan(Seen(f, text), Origins(f, text), term, i, p))
  {
    var m := Compile(f, includes, groups, excludes, ignores);
    var normalized := NormalizeForMatch(f, text);
    var rules := ParseInput(f, FormatRules(Shown(m, normalized)));
    SeenIsMatched(f, text);
    CompiledRulesAreParserMade(f, includes, groups, excludes, ignores);
    ShownRulesAreMatches(f, m, normalized);
    forall rule, term | GroupRuleMatches(m, rule, normalized) && term in rule.terms
      ensures exists i :: Lit(f, text, rules, term, i)
    {
      TermIsLit(f, text, rules, rule, term);
    }
    forall p | Marked(f, text, rules, p)
      ensures exists rule, term, i :: GroupRuleMatches(m, rule, normalized) && term in rule.terms &&
                                      InSpan(Seen(f, text), Origins(f, text), term, i, p)
    {
      var term, i :| term in TermsOfRules(rules) && InSpan(Seen(f, text), Origins(f, text), term, i, p);
      var rule :| rule in rules && term in rule.terms;
      assert GroupRuleMatches(m, rule, normalized);
    }
  }

  lemma TermIsLit(f: Folding, text: string, rules: seq<Rule>, rule: Rule, term: string)
    requires rule in rules && term in rule.terms && MatchesRule(rule, Seen(f, text))
    ensures exists i :: Lit(f, text, rules, term, i)
  {
    assert Contains(term, Seen(f, text)) by {
      var k :| 0 <= k < |rule.terms| && rule.terms[k] == term;
    }
    var i :| OccursAt(term, Seen(f, text), i);
    forall p | 0 <= p < |text| && InSpan(Seen(f, text), Origins(f, text), term, i, p)
      ensures Marked(f, text, rules, p)
    {
      assert term in TermsOfRules(rules);
    }
    assert Lit(f, text, rules, term, i);
  }

  /** Position p lies in the source span of a term of a group rule the matcher accepts. */
  ghost predicate InMatch(f: Folding, m: Matcher, text: string, p: int) {
    exists rule, term, i :: GroupRuleMatches(m, rule, NormalizeForMatch(f, text)) && term in rule.terms &&
                            InSpan(Seen(f, text), Origins(f, text), term, i, p)
  }

  /** An occurrence of the term is highlighted over its whole source span. */
  ghost predicate TermLit(f: Folding, text: string, segments: seq<Segment>, term: string)
    requires Texts(segments) == text
  {
    exists i :: OccursAt(term, Seen(f, text), i) && SpanLit(f, text, segments, term, i)
  }

  ghost predicate SpanLit(f: Folding, text: string, segments: seq<Segment>, term: string, i: int)
    requires Texts(segments) == text
  {
    forall p :: 0 <= p < |text| && InSpan(Seen(f, text), Origins(f, text), term, i, p) ==> Flags(segments)[p]
  }

  /** The highlighter was given exactly the rules of the groups that match. */
  ghost predicate GivenMatches(f: Folding, m: Matcher, text: string, rules: seq<Rule>) {
    forall rule :: rule in rules <==> GroupRuleMatches(m, rule, NormalizeForMatch(f, text))
  }

  lemma MarkedIsInMatch(f: Folding, m: Matcher, text: string, rules: seq<Rule>, p: int)
    requires GivenMatches(f, m, text, rules)
    ensures Marked(f, text, rules, p) <==> InMatch(f, m, text, p)
  {
    if InMatch(f, m, text, p) {
      var rule, term, i :| GroupRuleMatches(m, rule, NormalizeForMatch(f, text)) && term in rule.terms &&
                           InSpan(Seen(f, text), Origins(f, text), term, i, p);
      assert term in TermsOfRules(rules);
    }
  }

  lemma MatchIsLit(f: Folding, m: Matcher, text: string, shown: string, segments: seq<Segment>,
                   rule: Rule, term: string)
    requires Regular(f) && Highlighted(f, text, shown, segments)
    requires GivenMatches(f, m, text, ParseInput(f, shown))
    requires GroupRuleMatches(m, rule, NormalizeForMatch(f, text)) && term in rule.terms
    ensures TermLit(f, text, segments, term)
  {
    SeenIsMatched(f, text);
    TermIsLit(f, text, ParseInput(f, shown), rule, term);
    var i :| Lit(f, text, ParseInput(f, shown), term, i);
    assert SpanLit(f, text, segments, term, i);
  }

  /** What an evaluation shows: the matching group rules of an accepted text, and nothing of any other. */
  lemma EvaluationShows(f: Folding, m: Matcher, text: string, e: Evaluation)
    requires Evaluated(f, m, text, e) && forall c :: c in m.groups ==> AllParserMade(f, c.rules)
    ensures GroupedAccepts(m.groups, NormalizeForMatch(f, text)) ==>
              GivenMatches(f, m, text, ParseInput(f, e.includeRule))
    ensures !GroupedAccepts(m.groups, NormalizeForMatch(f, text)) ==> ParseInput(f, e.includeRule) == []
  {
    ShownRulesAreMatches(f, m, NormalizeForMatch(f, text));
    NothingMatched();
    EmptyInput(f);
  }

  /** Main result: highlighting a text by the rule text of its own evaluation. A character is highlighted if and only
      if the groups accept the text and the character lies in the source span of a term of a matching group rule. */
  lemma EvaluationIsHighlighted(f: Folding, includes: seq<string>, groups: seq<Group>, excludes: seq<string>,
                                ignores: seq<string>, text: string, e: Evaluation, segments: seq<Segment>)
    requires Evaluated(f, Compile(f, includes, groups, excludes, ignores), text, e)
    requires Highlighted(f, text, e.includeRule, segments)
    ensures
      var m := Compile(f, includes, groups, excludes, ignores);
      forall p :: 0 <= p < |text| ==>
        (Flags(segments)[p] <==> GroupedAccepts(m.groups, NormalizeForMatch(f, text)) && InMatch(f, m, text, p))
  {
    var m, rules := Compile(f, includes, groups, excludes, ignores), ParseInput(f, e.includeRule);
    CompiledRulesAreParserMade(f, includes, groups, excludes, ignores);
    EvaluationShows(f, m, text, e);
    forall p | 0 <= p < |text|
      ensures Flags(segments)[p] <==> GroupedAccepts(m.groups, NormalizeForMatch(f, text)) && InMatch(f, m, text, p)
    {
      if GroupedAccepts(m.groups, NormalizeForMatch(f, text)) {
        MarkedIsInMatch(f, m, text, rules, p);
      } else {
        NothingMarked(f, text, p);
      }
    }
  }

  lemma NothingMarked(f: Folding, text: string, p: int)
    ensures !Marked(f, text, [], p)
  {
  }

  /** Main result: in an eligible text every include group has a matching rule, and an occurrence of each of its terms
      is highlighted. */
  lemma EligibleIsHighlighted(f: Folding, includes: seq<string>, groups: seq<Group>, excludes: seq<string>,
                              ignores: seq<string>, text: string, e: Evaluation, segments: seq<Segment>)
    requires Regular(f)
    requires Evaluated(f, Compile(f, includes, groups, excludes, ignores), text, e) && e.eligible
    requires Highlighted(f, text, e.includeRule, segments)
    ensures
      var m, normalized := Compile(f, includes, groups, excludes, ignores), NormalizeForMatch(f, text);
      && (forall c :: c in m.groups ==> SomeRuleMatches(c.rules, normalized))
      && (forall rule, term :: GroupRuleMatches(m, rule, normalized) && term in rule.terms ==>
            TermLit(f, text, segments, term))
  {
    var m, normalized := Compile(f, includes, groups, excludes, ignores), NormalizeForMatch(f, text);
    CompiledRulesAreParserMade(f, includes, groups, excludes, ignores);
    EvaluationShows(f, m, text, e);
    forall c | c in m.groups ensures SomeRuleMatches(c.rules, normalized) {
      ReportsMatches(f, c.rules, normalized);
    }
    forall rule, term | GroupRuleMatches(m, rule, normalized) && term in rule.terms
      ensures TermLit(f, text, segments, term)
    {
      MatchIsLit(f, m, text, e.includeRule, segments, rule, term);
    }
  }

  /** The segment list is determined by the text and its flags, so the contract of the highlighter has one answer. */
  lemma {:induction false} SegmentsAreUnique(a: seq<Segment>, b: seq<Segment>)
    requires Alternating(a) && Alternating(b)
    requires Texts(a) == Texts(b) && Flags(a) == Flags(b)
    ensures a == b
    decreases |a|
  {
    if a != [] && b != [] {
      var n, k := |a| - 1, |b| - 1;
      LastSegment(a, b);
      LastSegment(b, a);
      assert Texts(a) == Texts(a[..n]) + a[n].text && Texts(b) == Texts(b[..k]) + b[k].text;
      assert a[n].text == Texts(a)[|Texts(a)| - |a[n].text|..];
      assert b[k].text == Texts(b)[|Texts(b)| - |b[k].text|..];
      assert Texts(a[..n]) == Texts(a)[..|Texts(a)| - |a[n].text|];
      assert Texts(b[..k]) == Texts(b)[..|Texts(b)| - |b[k].text|];
      assert Flags(a[..n]) == Flags(a)[..|Texts(a[..n])|];
      assert Flags(b[..k]) == Flags(b)[..|Texts(b[..k])|];
      SegmentsAreUnique(a[..n], b[..k]);
      assert a == a[..n] + [a[n]] && b == b[..k] + [b[k]];
    }
  }

  /** The last segment of one list is no longer than that of the other: before it the flag changes. */
  lemma LastSegment(a: seq<Segment>, b: seq<Segment>)
    requires Alternating(a) && Alternating(b) && a != [] && b != []
    requires Texts(a) == Texts(b) && Flags(a) == Flags(b)
    ensures |a[|a| - 1].text| <= |b[|b| - 1].text| && a[|a| - 1].highlighted == b[|b| - 1].highlighted
  {
    var total, last, other := |Texts(a)|, a[|a| - 1], b[|b| - 1];
    assert Flags(a)[total - 1] == last.highlighted;
    assert Flags(b)[total - 1] == other.highlighted;
    if |last.text| > |other.text| {
      assert Flags(a)[total - |other.text| - 1] == last.highlighted;
      FlagBeforeLast(b);
    }
  }

  lemma FlagBeforeLast(b: seq<Segment>)
    requires Alternating(b) && b != [] && |Texts(b)| > |b[|b| - 1].text|
    ensures Flags(b)[|Texts(b)| - |b[|b| - 1].text| - 1] != b[|b| - 1].highlighted
  {
    var init, p := b[..|b| - 1], |Texts(b)| - |b[|b| - 1].text| - 1;
    assert init[|init| - 1].highlighted != b[|b| - 1].highlighted;
    assert Flags(init)[p] == init[|init| - 1].highlighted;
  }
}
