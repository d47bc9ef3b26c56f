/** core/keyword_rules.py: rules, their text form, and the shared-scan matchers. */
module KeywordRules {
  import opened Options
  import opened Text
  import opened KeywordText
  import opened KeywordGroups

  datatype Rule = Rule(raw: string, terms: seq<string>)

  // ---- parsing ----

  /** The non-empty normalised parts. */
  function TermsOf(f: Folding, parts: seq<string>): (r: seq<string>)
    ensures forall t :: t in r ==> t != ""
  {
    if parts == [] then []
    else
      var term := NormalizeForMatch(f, parts[0]);
      (if term == "" then [] else [term]) + TermsOf(f, parts[1..])
  }

  function BuildKeywordRule(f: Folding, text: string): Option<Rule> {
    var normalized := NormalizeText(text);
    if normalized == "" then None
    else
      var terms := TermsOf(f, Split(normalized, ' '));
      if terms == [] then None else Some(Rule(normalized, terms))
  }

  /** The rules among the attempts, in order. */
  function Somes(built: seq<Option<Rule>>): (r: seq<Rule>)
    ensures forall rule :: rule in r <==> Some(rule) in built
  {
    if built == [] then []
    else
      var init, last := Somes(built[..|built| - 1]), built[|built| - 1];
      assert built == built[..|built| - 1] + [last];
      if last.Some? then init + [last.value] else init
  }

  function Built(f: Folding, pieces: seq<string>): seq<Option<Rule>> {
    seq(|pieces|, k requires 0 <= k < |pieces| => BuildKeywordRule(f, pieces[k]))
  }

  function RulesOf(f: Folding, pieces: seq<string>): seq<Rule> {
    Somes(Built(f, pieces))
  }

  /** The rules of one input: semicolons separate alternatives. */
  function ParseInput(f: Folding, input: string): seq<Rule> {
    RulesOf(f, Split(input, ';'))
  }

  function ParseValues(f: Folding, values: seq<string>): seq<Rule> {
    if values == [] then []
    else ParseValues(f, values[..|values| - 1]) + ParseInput(f, values[|values| - 1])
  }

  method ParseKeywordInput(f: Folding, input: string) returns (rules: seq<Rule>)
    ensures rules == ParseInput(f, input)
  {
    var pieces := Split(input, ';');
    rules := [];
    for i := 0 to |pieces|
      invariant rules == RulesOf(f, pieces[..i])
    {
      assert Built(f, pieces[..i + 1])[..i] == Built(f, pieces[..i]);
      var rule := BuildKeywordRule(f, pieces[i]);
      if rule.Some? {
        rules := rules + [rule.value];
      }
    }
    assert pieces[..|pieces|] == pieces;
  }

  method ParseKeywordValues(f: Folding, values: seq<string>) returns (rules: seq<Rule>)
    ensures rules == ParseValues(f, values)
  {
    rules := [];
    for i := 0 to |values|
      invariant rules == ParseValues(f, values[..i])
    {
      assert values[..i + 1][..i] == values[..i];
      var more := ParseKeywordInput(f, values[i]);
      rules := rules + more;
    }
    assert values[..|values|] == values;
  }

  /** A rule the parser produces: its raw text parses back to itself and holds no separator. */
  predicate ParserMade(f: Folding, rule: Rule) {
    BuildKeywordRule(f, rule.raw) == Some(rule) && ';' !in rule.raw
  }

  lemma BuiltIsParserMade(f: Folding, piece: string)
    requires ';' !in piece && BuildKeywordRule(f, piece).Some?
    ensures ParserMade(f, BuildKeywordRule(f, piece).value)
  {
    NormalizeTextStable(piece);
    NormalizeTextIsWords(piece);
    RemovalKeepsOut(piece, ';');
    WordsKeepOut(RemoveZeroWidth(piece), Start, ';');
  }

  lemma {:induction false} RemovalKeepsOut(s: string, c: char)
    requires c !in s
    ensures c !in RemoveZeroWidth(s)
  {
    if s != "" {
      RemovalKeepsOut(s[1..], c);
    }
  }

  lemma {:induction false} WordsKeepOut(s: string, m: Mode, c: char)
    requires c !in s && c != ' '
    ensures c !in Words(s, m)
  {
    if s != "" {
      WordsKeepOut(s[1..], if IsSpace(s[0]) then AfterSpace(m) else Word, c);
    }
  }

  lemma RulesAreParserMade(f: Folding, pieces: seq<string>)
    requires forall p :: p in pieces ==> ';' !in p
    ensures forall rule :: rule in RulesOf(f, pieces) ==> ParserMade(f, rule)
  {
    forall rule | rule in RulesOf(f, pieces) ensures ParserMade(f, rule) {
      var k :| 0 <= k < |pieces| && Built(f, pieces)[k] == Some(rule);
      assert pieces[k] in pieces;
      BuiltIsParserMade(f, pieces[k]);
    }
  }

  lemma {:induction false} ParsedAreParserMade(f: Folding, values: seq<string>)
    ensures forall rule :: rule in ParseValues(f, values) ==> ParserMade(f, rule)
  {
    if values != [] {
      ParsedAreParserMade(f, values[..|values| - 1]);
      RulesAreParserMade(f, Split(values[|values| - 1], ';'));
    }
  }

  /** The rules of a list of values are those of its members. */
  lemma {:induction false} ParseValuesHolds(f: Folding, values: seq<string>, rule: Rule)
    ensures rule in ParseValues(f, values) <==> exists v :: v in values && rule in ParseInput(f, v)
  {
    if values != [] {
      var init, last := values[..|values| - 1], values[|values| - 1];
      assert values == init + [last];
      ParseValuesHolds(f, init, rule);
    }
  }

  // ---- printing ----

  function NonEmpty(values: seq<string>): (r: seq<string>)
    ensures forall x :: x in r <==> x in values && x != ""
  {
    if values == [] then []
    else
      assert values == [values[0]] + values[1..];
      (if values[0] == "" then [] else [values[0]]) + NonEmpty(values[1..])
  }

  lemma {:induction false} NonEmptyKeepsAll(values: seq<string>)
    requires "" !in values
    ensures NonEmpty(values) == values
  {
    if values != [] {
      NonEmptyKeepsAll(values[1..]);
      assert values == [values[0]] + values[1..];
    }
  }

  /** dedupe_keyword_rules */
  function DedupeRules(rules: seq<string>): seq<string> {
    NonEmpty(Dedupe(rules))
  }

  /** format_keyword_rules */
  function FormatRules(rules: seq<string>): string {
    Join(DedupeRules(rules), ';')
  }

  function Raws(rules: seq<Rule>): (r: seq<string>)
    ensures |r| == |rules|
    ensures forall i :: 0 <= i < |r| ==> r[i] == rules[i].raw
  {
    seq(|rules|, i requires 0 <= i < |rules| => rules[i].raw)
  }

  /** split_keyword_rule_text */
  function SplitRuleText(f: Folding, value: string): seq<string> {
    DedupeRules(Raws(ParseInput(f, value)))
  }

  lemma {:induction false} AllSome(built: seq<Option<Rule>>, rules: seq<Rule>)
    requires |built| == |rules| && forall i :: 0 <= i < |built| ==> built[i] == Some(rules[i])
    ensures Somes(built) == rules
  {
    if built != [] {
      var n := |built| - 1;
      AllSome(built[..n], rules[..n]);
      assert rules == rules[..n] + [rules[n]];
    }
  }

  lemma RawIsProper(f: Folding, rules: seq<Rule>, raw: string)
    requires forall rule :: rule in rules ==> ParserMade(f, rule)
    requires raw in Raws(rules)
    ensures raw != "" && ';' !in raw
    ensures BuildKeywordRule(f, raw).Some? && BuildKeywordRule(f, raw).value in rules
  {
    var i :| 0 <= i < |rules| && Raws(rules)[i] == raw;
    assert rules[i] in rules;
    assert NormalizeText("") == "";
  }

  /** The rules their raw texts parse to. */
  function RulesFor(f: Folding, raws: seq<string>): (r: seq<Rule>)
    requires forall raw :: raw in raws ==> BuildKeywordRule(f, raw).Some?
    ensures |r| == |raws| && forall i :: 0 <= i < |r| ==> Some(r[i]) == BuildKeywordRule(f, raws[i])
  {
    seq(|raws|, i requires 0 <= i < |raws| => BuildKeywordRule(f, raws[i]).value)
  }

  lemma EmptyInput(f: Folding)
    ensures ParseInput(f, "") == []
  {
    assert NormalizeText("") == "";
    var built := Built(f, [""]);
    assert |built| == 1 && built[0] == None;
    assert built[..|built| - 1] == [];
    assert Somes(built) == Somes(built[..|built| - 1]);
  }

  /** Parsing the printed text of distinct raw texts reads every one of them back, in order. */
  lemma ParseJoined(f: Folding, kept: seq<string>)
    requires forall raw :: raw in kept ==> ';' !in raw && BuildKeywordRule(f, raw).Some?
    ensures ParseInput(f, Join(kept, ';')) == RulesFor(f, kept)
  {
    if kept == [] {
      EmptyInput(f);
    } else {
      SplitJoin(kept, ';');
      AllSome(Built(f, kept), RulesFor(f, kept));
    }
  }

  /** A raw text that is a parser-made rule's parses to a rule with that raw text. */
  lemma RawsOfRulesFor(f: Folding, rules: seq<Rule>, kept: seq<string>)
    requires forall rule :: rule in rules ==> ParserMade(f, rule)
    requires forall raw :: raw in kept <==> raw in Raws(rules)
    ensures forall raw :: raw in kept ==> raw != "" && ';' !in raw && BuildKeywordRule(f, raw).Some?
    ensures Raws(RulesFor(f, kept)) == kept
    ensures forall rule :: rule in RulesFor(f, kept) <==> rule in rules
  {
    forall raw | raw in kept
      ensures raw != "" && ';' !in raw && BuildKeywordRule(f, raw).Some? && BuildKeywordRule(f, raw).value in rules
    {
      RawIsProper(f, rules, raw);
    }
    var back := RulesFor(f, kept);
    forall k | 0 <= k < |kept| ensures back[k] in rules && back[k].raw == kept[k] {
      assert kept[k] in kept;
      assert ParserMade(f, back[k]);
      RawRecovers(f, rules, kept[k]);
    }
    forall rule | rule in rules ensures rule in back {
      var i :| 0 <= i < |rules| && rules[i] == rule;
      assert Raws(rules)[i] in kept;
      var k :| 0 <= k < |kept| && kept[k] == rule.raw;
      assert ParserMade(f, rule);
      assert back[k] == rule;
    }
  }

  lemma RawRecovers(f: Folding, rules: seq<Rule>, raw: string)
    requires forall rule :: rule in rules ==> ParserMade(f, rule)
    requires raw in Raws(rules)
    ensures BuildKeywordRule(f, raw).Some? && BuildKeywordRule(f, raw).value.raw == raw
  {
    var i :| 0 <= i < |rules| && Raws(rules)[i] == raw;
    assert rules[i] in rules;
  }

  /** Main result: printing parser-made rules and splitting the text gives the de-duplicated rules in order,
      and parsing the printed text gives back the very rules. */
  lemma PrintParse(f: Folding, rules: seq<Rule>)
    requires forall rule :: rule in rules ==> ParserMade(f, rule)
    ensures SplitRuleText(f, FormatRules(Raws(rules))) == DedupeRules(Raws(rules)) == Dedupe(Raws(rules))
    ensures forall rule :: rule in ParseInput(f, FormatRules(Raws(rules))) <==> rule in rules
  {
    var kept := Dedupe(Raws(rules));
    RawsOfRulesFor(f, rules, kept);
    NonEmptyKeepsAll(kept);
    ParseJoined(f, kept);
    DedupeDistinct(kept);
  }

  // ---- matching ----

  /** s.find(sub, start) */
  function FindFrom(sub: string, s: string, start: nat): (r: int)
    ensures r == -1 || (start <= r && OccursAt(sub, s, r))
    ensures forall i :: start <= i && (r == -1 || i < r) ==> !OccursAt(sub, s, i)
    decreases |s| - start
  {
    if start + |sub| > |s| then -1
    else if s[start..start + |sub|] == sub then start
    else FindFrom(sub, s, start + 1)
  }

  /** sub in s */
  predicate Contains(sub: string, s: string)
    ensures Contains(sub, s) <==> Occurs(sub, s)
  {
    FindFrom(sub, s, 0) != -1
  }

  /** matches_keyword_rule: every term occurs in the text. */
  predicate MatchesRule(rule: Rule, text: string) {
    forall k :: 0 <= k < |rule.terms| ==> Contains(rule.terms[k], text)
  }

  /** The same for the scanner, which never finds an empty term. */
  predicate Accepts(rule: Rule, text: string) {
    "" !in rule.terms && MatchesRule(rule, text)
  }

  /** The raw texts of the accepted rules, in order. */
  function Accepted(rules: seq<Rule>, text: string): (r: seq<string>)
    ensures forall raw :: raw in r <==> exists rule :: rule in rules && rule.raw == raw && Accepts(rule, text)
  {
    if rules == [] then []
    else
      assert rules == [rules[0]] + rules[1..];
      (if Accepts(rules[0], text) then [rules[0].raw] else []) + Accepted(rules[1..], text)
  }

  /** The non-empty terms of the rules. */
  function TermsOfRules(rules: seq<Rule>): (r: seq<string>)
    ensures forall t :: t in r <==> t != "" && exists rule :: rule in rules && t in rule.terms
  {
    if rules == [] then []
    else
      assert rules == [rules[0]] + rules[1..];
      NonEmpty(rules[0].terms) + TermsOfRules(rules[1..])
  }

  /** A match of the automaton: word ends at position end. */
  datatype Hit = Hit(end: nat, word: string)

  ghost predicate IsHit(hit: Hit, words: seq<string>, text: string) {
    hit.word in words && OccursAt(hit.word, text, hit.end + 1 - |hit.word|)
  }

  /** What Automaton.iter promises, as a plain scan: every (end, word) pair with the word ending there. */
  method IterMatches(words: seq<string>, text: string) returns (hits: seq<Hit>)
    requires "" !in words
    ensures forall hit :: hit in hits <==> IsHit(hit, words, text)
  {
    hits := [];
    for end := 0 to |text|
      invariant forall hit :: hit in hits <==> hit.end < end && IsHit(hit, words, text)
    {
      for k := 0 to |words|
        invariant forall hit :: hit in hits <==>
                                  (hit.end < end && IsHit(hit, words, text))
                                  || (hit.end == end && IsHit(hit, words[..k], text))
      {
        var word := words[k];
        assert words[..k + 1] == words[..k] + [word];
        if |word| <= end + 1 && text[end + 1 - |word|..end + 1] == word {
          hits := hits + [Hit(end, word)];
        }
      }
      assert words[..|words|] == words;
    }
  }

  /** The words found anywhere in the text. */
  method FoundTerms(words: seq<string>, text: string) returns (found: set<string>)
    requires "" !in words
    ensures forall w :: w in found <==> w in words && Occurs(w, text)
  {
    var hits := IterMatches(words, text);
    found := set hit | hit in hits :: hit.word;
    forall w | w in words && Occurs(w, text) ensures w in found {
      var i :| OccursAt(w, text, i);
      assert IsHit(Hit(i + |w| - 1, w), words, text);
      assert Hit(i + |w| - 1, w) in hits;
    }
    forall w | w in found ensures Occurs(w, text) {
      var hit :| hit in hits && hit.word == w;
      assert OccursAt(w, text, hit.end + 1 - |w|);
    }
  }

  /** The raw texts of the rules all of whose terms were found. */
  function FoundRaws(rules: seq<Rule>, found: set<string>): seq<string> {
    if rules == [] then []
    else
      (if forall k :: 0 <= k < |rules[0].terms| ==> rules[0].terms[k] in found then [rules[0].raw] else [])
      + FoundRaws(rules[1..], found)
  }

  /** The scanner's word list and what it found decide every term the way searching the text does. */
  ghost predicate FoundAmong(all: seq<Rule>, found: set<string>, text: string) {
    forall w :: w in found <==> w in TermsOfRules(all) && Occurs(w, text)
  }

  /** Looking terms up among the found ones decides rules the way searching the text does. */
  lemma {:induction false} FoundIsAccepted(rules: seq<Rule>, all: seq<Rule>, found: set<string>, text: string)
    requires forall rule :: rule in rules ==> rule in all
    requires FoundAmong(all, found, text)
    ensures FoundRaws(rules, found) == Accepted(rules, text)
  {
    if rules != [] {
      assert rules[0] in all;
      FoundIsAccepted(rules[1..], all, found, text);
      forall k | 0 <= k < |rules[0].terms|
        ensures rules[0].terms[k] in found <==> rules[0].terms[k] != "" && Contains(rules[0].terms[k], text)
      {
        assert rules[0].terms[k] in rules[0].terms;
      }
    }
  }

  /** A parser-made rule has no empty term, so the scanner decides it as matches_keyword_rule does. */
  lemma ParserMadeAccepts(f: Folding, rule: Rule, text: string)
    requires ParserMade(f, rule)
    ensures rule.terms != [] && (Accepts(rule, text) <==> MatchesRule(rule, text))
  {
  }

  datatype GroupResult = GroupResult(groupId: string, labelText: string, matched: bool, rules: seq<string>)
  datatype GroupMatch = GroupMatch(groupId: string, labelText: string, rule: string)
  datatype MatchResult = MatchResult(
    matched: bool, rule: string, rules: seq<string>, groupResults: seq<GroupResult>, groupMatches: seq<GroupMatch>)

  const NO_MATCH := MatchResult(false, "", [], [], [])

  /** KeywordRuleSetMatcher(rules).match(text): one shared scan, the same answer as rule-by-rule search. */
  method MatchRules(rules: seq<Rule>, text: string) returns (r: MatchResult)
    ensures r.rules == DedupeRules(Accepted(rules, text))
    ensures r.matched <==> r.rules != []
    ensures r.rule == if r.matched then r.rules[0] else ""
    ensures r.groupResults == [] && r.groupMatches == []
  {
    if rules == [] {
      return NO_MATCH;
    }
    var words := Dedupe(TermsOfRules(rules));
    var found := FoundTerms(words, text);
    FoundIsAccepted(rules, rules, found, text);
    var matched := DedupeRules(FoundRaws(rules, found));
    return MatchResult(matched != [], if matched != [] then matched[0] else "", matched, [], []);
  }

  /** One compiled include group. */
  datatype CompiledGroup = CompiledGroup(group: Group, rules: seq<Rule>)

  function CompileGroups(f: Folding, groups: seq<Group>): (r: seq<CompiledGroup>)
    ensures forall c :: c in r ==>
                          && c.group in groups && c.group.keywords != []
                          && c.rules == ParseValues(f, c.group.keywords)
    ensures forall g :: g in groups && g.keywords != [] ==> CompiledGroup(g, ParseValues(f, g.keywords)) in r
  {
    if groups == [] then []
    else
      var init, g := CompileGroups(f, groups[..|groups| - 1]), groups[|groups| - 1];
      assert groups == groups[..|groups| - 1] + [g];
      if g.keywords != [] then init + [CompiledGroup(g, ParseValues(f, g.keywords))] else init
  }

  function AllRules(compiled: seq<CompiledGroup>): (r: seq<Rule>)
    ensures forall rule :: rule in r <==> exists c :: c in compiled && rule in c.rules
  {
    if compiled == [] then []
    else
      assert compiled == [compiled[0]] + compiled[1..];
      compiled[0].rules + AllRules(compiled[1..])
  }

  function GroupRules(c: CompiledGroup, text: string): seq<string> {
    DedupeRules(Accepted(c.rules, text))
  }

  function ResultOf(c: CompiledGroup, text: string): GroupResult {
    GroupResult(c.group.groupId, c.group.labelText, GroupRules(c, text) != [], GroupRules(c, text))
  }

  function MatchesOf(c: CompiledGroup, text: string): seq<GroupMatch> {
    seq(|GroupRules(c, text)|, k requires 0 <= k < |GroupRules(c, text)| =>
        GroupMatch(c.group.groupId, c.group.labelText, GroupRules(c, text)[k]))
  }

  function MatchesUpTo(compiled: seq<CompiledGroup>, n: nat, text: string): seq<GroupMatch>
    requires n <= |compiled|
  {
    if n == 0 then [] else MatchesUpTo(compiled, n - 1, text) + MatchesOf(compiled[n - 1], text)
  }

  function RuleTexts(matches: seq<GroupMatch>): seq<string> {
    seq(|matches|, k requires 0 <= k < |matches| => matches[k].rule)
  }

  /** keyword_group_match_rules */
  function MatchedRules(matches: seq<GroupMatch>): seq<string> {
    DedupeRules(RuleTexts(matches))
  }

  lemma NothingMatched()
    ensures MatchedRules([]) == [] && FormatRules([]) == ""
  {
  }

  /** all(result.matched for result in group_results) */
  predicate AllMatched(results: seq<GroupResult>) {
    forall k :: 0 <= k < |results| ==> results[k].matched
  }

  /** One group's result and matches, read off the found terms. */
  method MatchGroup(compiled: seq<CompiledGroup>, k: nat, found: set<string>, text: string)
    returns (result: GroupResult, matches: seq<GroupMatch>)
    requires k < |compiled| && FoundAmong(AllRules(compiled), found, text)
    ensures result == ResultOf(compiled[k], text) && matches == MatchesOf(compiled[k], text)
  {
    var c := compiled[k];
    assert c in compiled;
    FoundIsAccepted(c.rules, AllRules(compiled), found, text);
    var accepted := DedupeRules(FoundRaws(c.rules, found));
    result := GroupResult(c.group.groupId, c.group.labelText, accepted != [], accepted);
    matches := seq(|accepted|, i requires 0 <= i < |accepted| =>
      GroupMatch(c.group.groupId, c.group.labelText, accepted[i]));
  }

  ghost predicate GroupedAccepts(compiled: seq<CompiledGroup>, text: string) {
    compiled != [] && forall c :: c in compiled ==> GroupRules(c, text) != []
  }

  /** The loop over the groups. */
  method CollectGroups(compiled: seq<CompiledGroup>, found: set<string>, text: string)
    returns (results: seq<GroupResult>, matches: seq<GroupMatch>)
    requires FoundAmong(AllRules(compiled), found, text)
    ensures |results| == |compiled| && forall k :: 0 <= k < |compiled| ==> results[k] == ResultOf(compiled[k], text)
    ensures matches == MatchesUpTo(compiled, |compiled|, text)
  {
    results, matches := [], [];
    for k := 0 to |compiled|
      invariant |results| == k
      invariant forall j :: 0 <= j < k ==> results[j] == ResultOf(compiled[j], text)
      invariant matches == MatchesUpTo(compiled, k, text)
    {
      var result, more := MatchGroup(compiled, k, found, text);
      results := results + [result];
      matches := matches + more;
    }
  }

  lemma AllMatchedMeans(compiled: seq<CompiledGroup>, results: seq<GroupResult>, text: string)
    requires |results| == |compiled| && forall k :: 0 <= k < |compiled| ==> results[k] == ResultOf(compiled[k], text)
    ensures AllMatched(results) <==> forall c :: c in compiled ==> GroupRules(c, text) != []
  {
    forall k | 0 <= k < |compiled| ensures results[k].matched <==> GroupRules(compiled[k], text) != [] {
    }
    if AllMatched(results) {
      forall c | c in compiled ensures GroupRules(c, text) != [] {
        var k :| 0 <= k < |compiled| && compiled[k] == c;
        assert results[k].matched;
      }
    }
  }

  /** GroupedKeywordRuleSetMatcher.match: OR within a group, AND between groups. */
  method MatchGroups(compiled: seq<CompiledGroup>, text: string) returns (r: MatchResult)
    ensures r.matched <==> GroupedAccepts(compiled, text)
    ensures |r.groupResults| == |compiled|
    ensures forall k :: 0 <= k < |compiled| ==> r.groupResults[k] == ResultOf(compiled[k], text)
    ensures r.groupMatches == if r.matched then MatchesUpTo(compiled, |compiled|, text) else []
    ensures r.rules == MatchedRules(r.groupMatches)
    ensures r.rule == FormatRules(r.rules)
  {
    NothingMatched();
    if compiled == [] {
      return NO_MATCH;
    }
    var words := Dedupe(TermsOfRules(AllRules(compiled)));
    var found := FoundTerms(words, text);
    var results, matches := CollectGroups(compiled, found, text);
    AllMatchedMeans(compiled, results, text);
    var matched := AllMatched(results);
    var shown := if matched then matches else [];
    return MatchResult(matched, FormatRules(MatchedRules(shown)), MatchedRules(shown), results, shown);
  }
}
