/** core/keyword_rules.py: ignore phrases, masking, and the compiled include/exclude evaluation. */
module KeywordExclude {
  import opened Text
  import opened Ranges
  import opened KeywordText
  import opened KeywordGroups
  import opened KeywordRules
  import ConfigMerge

  // ---- masking ----

  /** Position p of the text lies in an occurrence of some phrase. */
  ghost predicate Ignored(phrases: seq<string>, text: string, p: int) {
    exists phrase, i :: phrase in phrases && OccursAt(phrase, text, i) && i <= p < i + |phrase|
  }

  /** The text with every ignored position blanked. */
  ghost function Masked(phrases: seq<string>, text: string): (r: string)
    ensures |r| == |text|
    ensures forall p :: 0 <= p < |text| ==> r[p] == if Ignored(phrases, text, p) then ' ' else text[p]
  {
    seq(|text|, p requires 0 <= p < |text| => if Ignored(phrases, text, p) then ' ' else text[p])
  }

  /** PhraseRangeMatcher.ranges: the positions of all phrase occurrences, as a canonical list. */
  method PhraseRanges(phrases: seq<string>, text: string) returns (merged: seq<Range>)
    requires "" !in phrases
    ensures Canonical(merged) && Within(merged, |text|)
    ensures forall p :: Covers(merged, p) <==> Ignored(phrases, text, p)
  {
    var hits := IterMatches(phrases, text);
    var ranges: seq<Range> := [];
    for k := 0 to |hits|
      invariant |ranges| == k
      invariant forall j :: 0 <= j < k ==> ranges[j] == RangeOf(hits[j])
    {
      ranges := ranges + [RangeOf(hits[k])];
    }
    merged := MergeRanges(ranges);
    HitsCoverIgnored(phrases, text, hits, ranges);
    CanonicalWithin(merged, |text|);
  }

  function RangeOf(hit: Hit): Range {
    Range(hit.end - |hit.word| + 1, hit.end + 1)
  }

  lemma HitsCoverIgnored(phrases: seq<string>, text: string, hits: seq<Hit>, ranges: seq<Range>)
    requires forall hit :: hit in hits <==> IsHit(hit, phrases, text)
    requires |ranges| == |hits| && forall j :: 0 <= j < |hits| ==> ranges[j] == RangeOf(hits[j])
    ensures forall p :: Covers(ranges, p) <==> Ignored(phrases, text, p)
  {
    forall p ensures Covers(ranges, p) <==> Ignored(phrases, text, p) {
      if Covers(ranges, p) {
        var k :| 0 <= k < |ranges| && ranges[k].Has(p);
        assert IsHit(hits[k], phrases, text);
        assert OccursAt(hits[k].word, text, ranges[k].lo);
      }
      if Ignored(phrases, text, p) {
        var phrase, i :| phrase in phrases && OccursAt(phrase, text, i) && i <= p < i + |phrase|;
        var hit := Hit(i + |phrase| - 1, phrase);
        assert IsHit(hit, phrases, text);
        var k :| 0 <= k < |hits| && hits[k] == hit;
        assert ranges[k].Has(p);
      }
    }
  }

  /** _mask_ranges: blanks the covered positions and leaves the others. */
  method MaskRanges(text: string, ranges: seq<Range>) returns (masked: string)
    requires Within(ranges, |text|)
    ensures |masked| == |text|
    ensures forall p :: 0 <= p < |text| ==> masked[p] == if Covers(ranges, p) then ' ' else text[p]
  {
    var merged := MergeRanges(ranges);
    if merged == [] {
      return text;
    }
    CoveredWithin(ranges, |text|);
    CanonicalWithin(merged, |text|);
    masked := text;
    for k := 0 to |merged|
      invariant |masked| == |text|
      invariant forall p :: 0 <= p < |text| ==> masked[p] == if Covers(merged[..k], p) then ' ' else text[p]
    {
      var r := merged[k];
      assert merged[..k + 1] == merged[..k] + [r];
      forall p ensures Covers(merged[..k + 1], p) <==> Covers(merged[..k], p) || r.Has(p) {
        CoversAppend(merged[..k], r, p);
      }
      masked := masked[..r.lo] + seq(r.hi - r.lo, _ => ' ') + masked[r.hi..];
    }
    assert merged[..|merged|] == merged;
  }

  /** mask_exclude_ignore_phrases, on the phrases of a compiled matcher. */
  method MaskIgnored(phrases: seq<string>, text: string) returns (masked: string)
    requires "" !in phrases
    ensures masked == Masked(phrases, text)
  {
    var ranges := PhraseRanges(phrases, text);
    masked := MaskRanges(text, ranges);
  }

  // ---- what an exclude term sees ----

  /** No phrase occurrence meets lo..hi. */
  ghost predicate Clear(lo: int, hi: int, phrases: seq<string>, text: string) {
    forall phrase, j :: phrase in phrases && OccursAt(phrase, text, j) ==> j + |phrase| <= lo || hi <= j
  }

  /** The term occurs in the text disjointly from every phrase occurrence. */
  ghost predicate Untouched(term: string, phrases: seq<string>, text: string) {
    exists i :: OccursAt(term, text, i) && Clear(i, i + |term|, phrases, text)
  }

  lemma ClearIsNotIgnored(lo: int, hi: int, phrases: seq<string>, text: string)
    requires "" !in phrases && lo < hi
    ensures Clear(lo, hi, phrases, text) <==> forall p :: lo <= p < hi ==> !Ignored(phrases, text, p)
  {
    if forall p :: lo <= p < hi ==> !Ignored(phrases, text, p) {
      forall phrase, j | phrase in phrases && OccursAt(phrase, text, j) ensures j + |phrase| <= lo || hi <= j {
        var p := if lo < j then j else lo;
        assert p < j + |phrase| ==> Ignored(phrases, text, p);
      }
    }
  }

  /** An occurrence of a spaceless term in the masked text is an occurrence in the text clear of all phrases. */
  lemma MaskedOccurrence(term: string, phrases: seq<string>, text: string, i: int)
    requires "" !in phrases && term != "" && ' ' !in term
    ensures OccursAt(term, Masked(phrases, text), i) <==>
            OccursAt(term, text, i) && Clear(i, i + |term|, phrases, text)
  {
    var masked := Masked(phrases, text);
    ClearIsNotIgnored(i, i + |term|, phrases, text);
    if OccursAt(term, masked, i) {
      forall p | i <= p < i + |term| ensures !Ignored(phrases, text, p) && text[p] == masked[p] {
        assert masked[p] == masked[i..i + |term|][p - i] == term[p - i];
        assert term[p - i] in term;
      }
      assert text[i..i + |term|] == masked[i..i + |term|];
    }
    if OccursAt(term, text, i) && Clear(i, i + |term|, phrases, text) {
      assert masked[i..i + |term|] == text[i..i + |term|];
    }
  }

  lemma MaskedTerm(term: string, phrases: seq<string>, text: string)
    requires "" !in phrases && term != "" && ' ' !in term
    ensures Occurs(term, Masked(phrases, text)) <==> Untouched(term, phrases, text)
  {
    if Occurs(term, Masked(phrases, text)) {
      var i :| OccursAt(term, Masked(phrases, text), i);
      MaskedOccurrence(term, phrases, text, i);
    }
    if Untouched(term, phrases, text) {
      var i :| OccursAt(term, text, i) && Clear(i, i + |term|, phrases, text);
      MaskedOccurrence(term, phrases, text, i);
    }
  }

  lemma OneCharacterIgnored(c: char, text: string, p: int)
    requires 0 <= p < |text|
    ensures Ignored([[c]], text, p) <==> text[p] == c
  {
    if Ignored([[c]], text, p) {
      var phrase, i :| phrase in [[c]] && OccursAt(phrase, text, i) && i <= p < i + |phrase|;
      assert text[i..i + 1][0] == text[p];
    }
    if text[p] == c {
      assert [c] in [[c]] && OccursAt([c], text, p);
    }
  }

  /** Phrases as a compiled matcher holds them: not empty, single plain spaces only, none at the ends. */
  ghost predicate ProperPhrases(phrases: seq<string>) {
    forall p :: p in phrases ==> p != "" && Tidy(p)
  }

  /** Masking shows the term just where it occurs away from all ignore phrases. */
  ghost predicate ExactOn(term: string, phrases: seq<string>, text: string) {
    Occurs(term, Masked(phrases, text)) <==> Untouched(term, phrases, text)
  }

  /** The term holds a space, and some character is left for an ignore phrase to stand in its place. */
  ghost predicate Leaky(term: string) {
    ' ' in term && exists c :: !IsSpace(c) && c !in term
  }

  /** Main result, with its exact condition: over all normalised texts and all phrases a matcher can hold, masking
      is exact if and only if the term is not leaky; without a space it is exact over all texts and phrases. */
  lemma MaskingIsExactWithoutSpaces(term: string)
    requires term != "" && Tidy(term)
    ensures ' ' !in term ==> forall phrases, text :: "" !in phrases ==> ExactOn(term, phrases, text)
    ensures !Leaky(term) <==>
            forall phrases, text :: ProperPhrases(phrases) && Tidy(text) ==> ExactOn(term, phrases, text)
  {
    if ' ' !in term {
      forall phrases, text | "" !in phrases ensures ExactOn(term, phrases, text) {
        MaskedTerm(term, phrases, text);
      }
    } else if Leaky(term) {
      LeakIsInexact(term);
    } else {
      forall phrases, text | ProperPhrases(phrases) && Tidy(text) ensures ExactOn(term, phrases, text) {
        FullTermIsExact(term, phrases, text);
      }
    }
  }

  lemma LeakIsInexact(term: string)
    requires term != "" && Tidy(term) && Leaky(term)
    ensures exists phrases, text :: ProperPhrases(phrases) && Tidy(text) && !ExactOn(term, phrases, text)
  {
    var c :| !IsSpace(c) && c !in term;
    SpacedTermLeaks(term, c);
    var phrases, text := [[c]], Replace(term, ' ', c);
    assert forall p :: p in phrases ==> p == [c];
    assert ProperPhrases(phrases);
    assert !ExactOn(term, phrases, text);
  }

  /** An occurrence away from all phrases is still there after masking. */
  lemma UntouchedShows(term: string, phrases: seq<string>, text: string)
    requires term != "" && "" !in phrases && Untouched(term, phrases, text)
    ensures Occurs(term, Masked(phrases, text))
  {
    var i :| OccursAt(term, text, i) && Clear(i, i + |term|, phrases, text);
    var masked := Masked(phrases, text);
    ClearIsNotIgnored(i, i + |term|, phrases, text);
    assert masked[i..i + |term|] == text[i..i + |term|];
    assert OccursAt(term, masked, i);
  }

  /** An occurrence in the masked text none of whose characters was masked. */
  lemma UnmaskedIsUntouched(term: string, phrases: seq<string>, text: string, i: int)
    requires term != "" && "" !in phrases && OccursAt(term, Masked(phrases, text), i)
    requires forall p :: i <= p < i + |term| ==> !Ignored(phrases, text, p)
    ensures Untouched(term, phrases, text)
  {
    ClearIsNotIgnored(i, i + |term|, phrases, text);
    assert text[i..i + |term|] == Masked(phrases, text)[i..i + |term|];
    assert OccursAt(term, text, i);
  }

  /** A term that holds every word character leaves no character to stand in for its spaces. */
  lemma FullTermIsExact(term: string, phrases: seq<string>, text: string)
    requires term != "" && Tidy(term) && ProperPhrases(phrases)
    requires forall c :: !IsSpace(c) ==> c in term
    ensures ExactOn(term, phrases, text)
  {
    if Occurs(term, Masked(phrases, text)) {
      var i :| OccursAt(term, Masked(phrases, text), i);
      forall p | i <= p < i + |term| ensures !Ignored(phrases, text, p) {
        NothingStandsIn(term, phrases, text, i, p);
      }
      UnmaskedIsUntouched(term, phrases, text, i);
    }
    if Untouched(term, phrases, text) {
      UntouchedShows(term, phrases, text);
    }
  }

  lemma MaskedAt(term: string, phrases: seq<string>, text: string, i: int, k: int)
    requires OccursAt(term, Masked(phrases, text), i) && 0 <= k < |term|
    ensures term[k] == if Ignored(phrases, text, i + k) then ' ' else text[i + k]
  {
    assert Masked(phrases, text)[i..i + |term|][k] == Masked(phrases, text)[i + k];
  }

  lemma CoversIgnored(phrases: seq<string>, text: string, phrase: string, j: int, p: int)
    requires phrase in phrases && OccursAt(phrase, text, j) && j <= p < j + |phrase|
    ensures Ignored(phrases, text, p)
  {
  }

  /** A phrase that masks a position inside a tidy occurrence is that one character. */
  lemma StandInIsAlone(term: string, phrases: seq<string>, text: string, i: int, p: int, phrase: string, j: int)
    requires Tidy(term) && ProperPhrases(phrases) && OccursAt(term, Masked(phrases, text), i) && i <= p < i + |term|
    requires phrase in phrases && OccursAt(phrase, text, j) && j <= p < j + |phrase|
    ensures |phrase| == 1 && !IsSpace(phrase[0])
  {
    var k := p - i;
    CoversIgnored(phrases, text, phrase, j, p);
    MaskedAt(term, phrases, text, i, k);
    assert 0 < k < |term| - 1 && !IsSpace(term[k - 1]) && !IsSpace(term[k + 1]);
    MaskedAt(term, phrases, text, i, k - 1);
    MaskedAt(term, phrases, text, i, k + 1);
    if j < p {
      CoversIgnored(phrases, text, phrase, j, p - 1);
    }
    if p < j + |phrase| - 1 {
      CoversIgnored(phrases, text, phrase, j, p + 1);
    }
  }

  /** A one-character phrase is masked wherever the character stands. */
  lemma StandInMasks(phrases: seq<string>, text: string, phrase: string, q: int)
    requires phrase in phrases && |phrase| == 1 && 0 <= q < |text| && text[q] == phrase[0]
    ensures Ignored(phrases, text, q)
  {
    assert text[q..q + 1] == phrase;
    CoversIgnored(phrases, text, phrase, q, q);
  }

  /** A character of a tidy occurrence is never such a phrase. */
  lemma StandInIsOutside(term: string, phrases: seq<string>, text: string, i: int, phrase: string)
    requires OccursAt(term, Masked(phrases, text), i)
    requires phrase in phrases && |phrase| == 1 && !IsSpace(phrase[0])
    ensures phrase[0] !in term
  {
    forall k | 0 <= k < |term| ensures term[k] != phrase[0] {
      MaskedAt(term, phrases, text, i, k);
      if text[i + k] == phrase[0] {
        StandInMasks(phrases, text, phrase, i + k);
      }
    }
  }

  lemma NothingStandsIn(term: string, phrases: seq<string>, text: string, i: int, p: int)
    requires Tidy(term) && ProperPhrases(phrases) && OccursAt(term, Masked(phrases, text), i) && i <= p < i + |term|
    requires forall c :: !IsSpace(c) ==> c in term
    ensures !Ignored(phrases, text, p)
  {
    forall phrase, j | phrase in phrases && OccursAt(phrase, text, j) ensures !(j <= p < j + |phrase|) {
      if j <= p < j + |phrase| {
        StandInIsAlone(term, phrases, text, i, p, phrase, j);
        StandInIsOutside(term, phrases, text, i, phrase);
      }
    }
  }

  function Replace(s: string, from: char, to: char): (r: string)
    ensures |r| == |s|
    ensures forall p :: 0 <= p < |s| ==> r[p] == if s[p] == from then to else s[p]
  {
    seq(|s|, p requires 0 <= p < |s| => if s[p] == from then to else s[p])
  }

  /** Ignoring one character turns each of its occurrences into a space. */
  lemma MaskedCharacter(c: char, text: string)
    ensures Masked([[c]], text) == Replace(text, c, ' ')
    ensures Masked([], text) == text
  {
    forall p | 0 <= p < |text| ensures Ignored([[c]], text, p) <==> text[p] == c {
      OneCharacterIgnored(c, text, p);
    }
  }

  /** The failing family in use: for a term with a space and a character outside it, ignoring that character
      makes the term fire on a normalised text in which it does not occur at all. */
  lemma SpacedTermLeaks(term: string, c: char)
    requires ' ' in term && c !in term
    ensures Tidy(term) && !IsSpace(c) ==> Tidy(Replace(term, ' ', c))
    ensures !Occurs(term, Masked([], Replace(term, ' ', c)))
    ensures Occurs(term, Masked([[c]], Replace(term, ' ', c)))
    ensures !Untouched(term, [[c]], Replace(term, ' ', c))
  {
    var text := Replace(term, ' ', c);
    var k :| 0 <= k < |term| && term[k] == ' ';
    assert !OccursAt(term, text, 0) by {
      assert text[0..|term|][k] == c;
    }
    MaskedCharacter(c, text);
    assert Replace(text, c, ' ') == term;
    assert OccursAt(term, Masked([[c]], text), 0);
  }

  // ---- rules on masked text ----

  ghost predicate Spaceless(rules: seq<Rule>) {
    forall rule, t :: rule in rules && t in rule.terms ==> ' ' !in t
  }

  ghost predicate AllParserMade(f: Folding, rules: seq<Rule>) {
    forall rule :: rule in rules ==> ParserMade(f, rule)
  }

  /** An exclude rule without spaced terms fires just when each of its terms occurs away from all ignore phrases. */
  lemma ExcludeRuleFires(rule: Rule, phrases: seq<string>, text: string)
    requires "" !in phrases
    requires forall t :: t in rule.terms ==> t != "" && ' ' !in t
    ensures MatchesRule(rule, Masked(phrases, text)) <==>
            forall t :: t in rule.terms ==> Untouched(t, phrases, text)
  {
    forall t | t in rule.terms ensures Contains(t, Masked(phrases, text)) <==> Untouched(t, phrases, text) {
      MaskedTerm(t, phrases, text);
    }
    if MatchesRule(rule, Masked(phrases, text)) {
      forall t | t in rule.terms ensures Untouched(t, phrases, text) {
        var k :| 0 <= k < |rule.terms| && rule.terms[k] == t;
      }
    }
  }

  /** Some rule of a parsed list is reported just when some rule matches. */
  lemma ReportsMatches(f: Folding, rules: seq<Rule>, text: string)
    requires AllParserMade(f, rules)
    ensures DedupeRules(Accepted(rules, text)) != [] <==> exists rule :: rule in rules && MatchesRule(rule, text)
  {
    var reported := DedupeRules(Accepted(rules, text));
    if reported != [] {
      assert reported[0] in Accepted(rules, text);
    }
    if rule :| rule in rules && MatchesRule(rule, text) {
      MatchIsReported(f, rules, rule, text);
    }
  }

  lemma MatchIsReported(f: Folding, rules: seq<Rule>, rule: Rule, text: string)
    requires rule in rules && ParserMade(f, rule) && MatchesRule(rule, text)
    ensures rule.raw in DedupeRules(Accepted(rules, text))
  {
    ParserMadeAccepts(f, rule, text);
    RawIsNotEmpty(f, rule);
  }

  lemma RawIsNotEmpty(f: Folding, rule: Rule)
    requires ParserMade(f, rule)
    ensures rule.raw != ""
  {
    assert NormalizeText("") == "";
  }

  // ---- the compiled matcher ----

  /** CompiledKeywordMatcher */
  datatype Matcher = Matcher(groups: seq<CompiledGroup>, excludes: seq<Rule>, phrases: seq<string>)

  function NormalizedRaws(f: Folding, rules: seq<Rule>): (r: seq<string>)
    ensures forall p :: p in r <==> exists rule :: rule in rules && p == NormalizeForMatch(f, rule.raw)
  {
    if rules == [] then []
    else
      assert rules == [rules[0]] + rules[1..];
      [NormalizeForMatch(f, rules[0].raw)] + NormalizedRaws(f, rules[1..])
  }

  /** The phrases PhraseRangeMatcher keeps. */
  function IgnorePhrases(f: Folding, values: seq<string>): (r: seq<string>)
    ensures "" !in r
  {
    Dedupe(NonEmpty(NormalizedRaws(f, ParseValues(f, values))))
  }

  function Compile(f: Folding, includes: seq<string>, groups: seq<Group>, excludes: seq<string>, ignores: seq<string>)
    : Matcher
  {
    Matcher(CompileGroups(f, EffectiveGroups(includes, groups)), ParseValues(f, excludes), IgnorePhrases(f, ignores))
  }

  datatype Evaluation = Evaluation(
    eligible: bool, includeRule: string, excludeRule: string, includeRules: seq<string>, excludeRules: seq<string>,
    groupResults: seq<GroupResult>, groupMatches: seq<GroupMatch>)

  /** The exclude rules reported for a normalised text. */
  ghost function ExcludesHit(m: Matcher, text: string): seq<string> {
    DedupeRules(Accepted(m.excludes, Masked(m.phrases, text)))
  }

  ghost predicate Eligible(m: Matcher, text: string) {
    GroupedAccepts(m.groups, text) && ExcludesHit(m, text) == []
  }

  /** The evaluation of a text: every field in terms of the simple definitions on the normalised text. */
  ghost predicate Evaluated(f: Folding, m: Matcher, text: string, e: Evaluation) {
    var normalized := NormalizeForMatch(f, text);
    && (e.eligible <==> Eligible(m, normalized))
    && e.excludeRules == ExcludesHit(m, normalized)
    && e.groupMatches == (if GroupedAccepts(m.groups, normalized)
                          then MatchesUpTo(m.groups, |m.groups|, normalized) else [])
    && e.includeRules == MatchedRules(e.groupMatches)
    && e.includeRule == FormatRules(e.includeRules) && e.excludeRule == FormatRules(e.excludeRules)
    && |e.groupResults| == |m.groups|
    && (forall k :: 0 <= k < |m.groups| ==> e.groupResults[k] == ResultOf(m.groups[k], normalized))
  }

  /** CompiledKeywordMatcher.evaluate */
  method Evaluate(f: Folding, m: Matcher, text: string) returns (e: Evaluation)
    requires "" !in m.phrases
    ensures Evaluated(f, m, text, e)
  {
    var normalized := NormalizeForMatch(f, text);
    var included := MatchGroups(m.groups, normalized);
    var excludeText := MaskIgnored(m.phrases, normalized);
    var excluded := MatchRules(m.excludes, excludeText);
    var includeRules := included.rules;
    var excludeRules := if excluded.matched then excluded.rules else [];
    return Evaluation(included.matched && !excluded.matched, FormatRules(includeRules), FormatRules(excludeRules),
                      includeRules, excludeRules, included.groupResults, included.groupMatches);
  }

  // ---- what evaluation means for a configuration ----

  /** All compiled rules come from the parser. */
  lemma CompiledRulesAreParserMade(
    f: Folding, includes: seq<string>, groups: seq<Group>, excludes: seq<string>, ignores: seq<string>)
    ensures
      var m := Compile(f, includes, groups, excludes, ignores);
      && AllParserMade(f, m.excludes)
      && (forall c :: c in m.groups ==> AllParserMade(f, c.rules))
  {
    ParsedAreParserMade(f, excludes);
    var m := Compile(f, includes, groups, excludes, ignores);
    forall c | c in m.groups ensures AllParserMade(f, c.rules) {
      ParsedAreParserMade(f, c.group.keywords);
    }
  }

  ghost predicate SomeRuleMatches(rules: seq<Rule>, text: string) {
    exists rule :: rule in rules && MatchesRule(rule, text)
  }

  /** Some term of the rule has no occurrence away from the ignore phrases. */
  ghost predicate Held(rule: Rule, phrases: seq<string>, text: string) {
    exists t :: t in rule.terms && !Untouched(t, phrases, text)
  }

  /** Main result: a text is eligible just when there is an include group, every include group has a matching
      rule, and every exclude rule has a term all of whose occurrences meet an ignore phrase. */
  lemma EligibleMeans(f: Folding, includes: seq<string>, groups: seq<Group>, excludes: seq<string>,
                      ignores: seq<string>, text: string)
    requires Spaceless(ParseValues(f, excludes))
    ensures
      var m := Compile(f, includes, groups, excludes, ignores);
      Eligible(m, text) <==>
      && m.groups != []
      && (forall c :: c in m.groups ==> SomeRuleMatches(c.rules, text))
      && (forall rule :: rule in m.excludes ==> Held(rule, m.phrases, text))
  {
    var m := Compile(f, includes, groups, excludes, ignores);
    CompiledRulesAreParserMade(f, includes, groups, excludes, ignores);
    forall c | c in m.groups ensures GroupRules(c, text) != [] <==> SomeRuleMatches(c.rules, text) {
      ReportsMatches(f, c.rules, text);
    }
    ReportsMatches(f, m.excludes, Masked(m.phrases, text));
    forall rule | rule in m.excludes
      ensures MatchesRule(rule, Masked(m.phrases, text)) <==>
              forall t :: t in rule.terms ==> Untouched(t, m.phrases, text)
    {
      assert ParserMade(f, rule);
      ExcludeRuleFires(rule, m.phrases, text);
    }
  }

  /** More ignore values give more ignore phrases. */
  lemma PhrasesGrow(f: Folding, fewer: seq<string>, more: seq<string>)
    requires forall v :: v in fewer ==> v in more
    ensures forall p :: p in IgnorePhrases(f, fewer) ==> p in IgnorePhrases(f, more)
  {
    forall rule | rule in ParseValues(f, fewer) ensures rule in ParseValues(f, more) {
      RuleIsInherited(f, fewer, more, rule);
    }
  }

  /** Main result: adding ignore values never turns an eligible text ineligible. */
  lemma IgnoringMoreKeepsEligible(f: Folding, includes: seq<string>, groups: seq<Group>, excludes: seq<string>,
                                  fewer: seq<string>, more: seq<string>, text: string)
    requires Spaceless(ParseValues(f, excludes))
    requires forall v :: v in fewer ==> v in more
    requires Eligible(Compile(f, includes, groups, excludes, fewer), text)
    ensures Eligible(Compile(f, includes, groups, excludes, more), text)
  {
    EligibleMeans(f, includes, groups, excludes, fewer, text);
    EligibleMeans(f, includes, groups, excludes, more, text);
    PhrasesGrow(f, fewer, more);
    forall rule | rule in ParseValues(f, excludes) ensures Held(rule, IgnorePhrases(f, more), text) {
      HeldStays(rule, IgnorePhrases(f, fewer), IgnorePhrases(f, more), text);
    }
  }

  lemma HeldStays(rule: Rule, fewer: seq<string>, more: seq<string>, text: string)
    requires forall p :: p in fewer ==> p in more
    requires Held(rule, fewer, text)
    ensures Held(rule, more, text)
  {
    var t :| t in rule.terms && !Untouched(t, fewer, text);
    forall i | OccursAt(t, text, i) ensures !Clear(i, i + |t|, more, text) {
      assert !Clear(i, i + |t|, fewer, text);
    }
  }

  // ---- grouped and flat matching ----

  /** Main result: for a config whose two keyword fields are in step, a text the groups accept is one the flat
      keywords accept. */
  lemma GroupedImpliesFlat(f: Folding, config: ConfigMerge.Config, text: string)
    requires ConfigMerge.InStep(config)
    requires GroupedAccepts(CompileGroups(f, EffectiveGroups(config.includeKeywords, config.groups)), text)
    ensures SomeRuleMatches(ParseValues(f, KeywordValues(config.includeKeywords)), text)
  {
    var groups := EffectiveGroups(config.includeKeywords, config.groups);
    var compiled := CompileGroups(f, groups);
    var c := compiled[0];
    assert c in compiled;
    ParsedAreParserMade(f, c.group.keywords);
    ReportsMatches(f, c.rules, text);
    var rule :| rule in c.rules && MatchesRule(rule, text);
    forall v | v in c.group.keywords ensures v in KeywordValues(config.includeKeywords) {
      FlattenHolds(config.groups, v);
    }
    RuleIsInherited(f, c.group.keywords, KeywordValues(config.includeKeywords), rule);
  }

  lemma RuleIsInherited(f: Folding, some: seq<string>, all: seq<string>, rule: Rule)
    requires rule in ParseValues(f, some) && forall v :: v in some ==> v in all
    ensures rule in ParseValues(f, all)
  {
    ParseValuesHolds(f, some, rule);
    ParseValuesHolds(f, all, rule);
  }
}
