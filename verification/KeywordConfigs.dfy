/** What a target's keyword settings mean: which groups are matched against, and when a text is eligible. */
module KeywordConfigs {
  import opened Options
  import opened Text
  import opened KeywordText
  import opened KeywordGroups
  import opened KeywordRules
  import opened KeywordTerms
  import opened KeywordExclude

  // ---- keyword values ----

  lemma StripAllOne(v: string)
    ensures StripAll([v]) == if Strip(v) == "" then [] else [Strip(v)]
  {
    assert [v][..0] == [] && StripAll([]) == [];
  }

  /** Blank values are dropped and the others trimmed, one by one and in order. */
  lemma {:induction false} StripAllAppend(a: seq<string>, b: seq<string>)
    ensures StripAll(a + b) == StripAll(a) + StripAll(b)
  {
    if b == [] {
      assert a + b == a;
    } else {
      assert (a + b)[..|a + b| - 1] == a + b[..|b| - 1];
      StripAllAppend(a, b[..|b| - 1]);
    }
  }

  lemma {:induction false} StripAllHolds(values: seq<string>, k: string)
    ensures k in StripAll(values) <==> k != "" && exists v :: v in values && Strip(v) == k
  {
    if values != [] {
      var init, v := values[..|values| - 1], values[|values| - 1];
      assert values == init + [v];
      StripAllHolds(init, k);
      assert k in StripAll(values) <==> k in StripAll(init) || (k != "" && k == Strip(v));
      if w :| w in values && Strip(w) == k {
        assert w in init || w == v;
      }
    }
  }

  /** The keywords of a list of values are their non-blank trimmed texts. */
  lemma KeywordValuesHold(values: seq<string>, k: string)
    ensures k in KeywordValues(values) <==> k != "" && exists v :: v in values && Strip(v) == k
  {
    StripAllHolds(values, k);
  }

  // ---- which group fills a slot ----

  /** The group names slot i. */
  predicate Names(g: Group, i: nat)
    requires i < GROUP_COUNT
  {
    Strip(g.groupId) == SlotId(i)
  }

  /** What a group becomes in slot i. */
  ghost predicate BecomesSlot(g: Group, i: nat, r: Group)
    requires i < GROUP_COUNT
  {
    && r.groupId == SlotId(i) && r.keywords == KeywordValues(g.keywords)
    && r.labelText == if Strip(g.labelText) != "" then Strip(g.labelText) else "\U{95dc}\U{9375}\U{5b57} " + SlotId(i)
  }

  ghost predicate Unnamed(groups: seq<Group>, i: nat) {
    i < GROUP_COUNT && forall g :: g in groups ==> !Names(g, i)
  }

  lemma NormalizedBecomesSlot(g: Group, i: nat)
    requires i < GROUP_COUNT
    ensures BecomesSlot(g, i, NormalizedGroup(g, SlotId(i)))
  {
    assert Trimmed(SlotId(i)) && SlotId(i) != "";
  }

  lemma {:induction false} LastNamed(groups: seq<Group>, i: nat, k: nat)
    requires i < GROUP_COUNT && k < |groups| && Names(groups[k], i)
    requires forall j :: k < j < |groups| ==> !Names(groups[j], i)
    ensures Named(groups, SlotId(i)) == Some(NormalizedGroup(groups[k], SlotId(i)))
  {
    var n := |groups| - 1;
    if k < n {
      assert !Names(groups[n], i);
      LastNamed(groups[..n], i, k);
    }
  }

  /** The last group that names a slot fills it. */
  lemma LastNamedWins(groups: seq<Group>, i: nat, k: nat)
    requires i < GROUP_COUNT && k < |groups| && Names(groups[k], i)
    requires forall j :: k < j < |groups| ==> !Names(groups[j], i)
    ensures Slot(groups, i).Some? && BecomesSlot(groups[k], i, Slot(groups, i).value)
  {
    LastNamed(groups, i, k);
    NormalizedBecomesSlot(groups[k], i);
  }

  lemma {:induction false} UnnamedIsOpen(groups: seq<Group>, i: nat)
    requires i < GROUP_COUNT
    ensures Named(groups, SlotId(i)).None? <==> Unnamed(groups, i)
  {
    if groups != [] {
      var init, g := groups[..|groups| - 1], groups[|groups| - 1];
      assert groups == init + [g];
      UnnamedIsOpen(init, i);
      assert Unnamed(groups, i) <==> Unnamed(init, i) && !Names(g, i);
    }
  }

  ghost function OpenBefore(groups: seq<Group>, i: nat): set<nat> {
    set j: nat | j < i && Unnamed(groups, j)
  }

  lemma OpenStep(groups: seq<Group>, i: nat)
    ensures |OpenBefore(groups, i + 1)| == |OpenBefore(groups, i)| + if Unnamed(groups, i) then 1 else 0
  {
    assert OpenBefore(groups, i + 1) == OpenBefore(groups, i) + if Unnamed(groups, i) then {i} else {};
  }

  lemma {:induction false} MissingAreCounted(groups: seq<Group>, i: nat)
    requires i <= GROUP_COUNT
    ensures MissingBefore(groups, i) == |OpenBefore(groups, i)|
  {
    if i == 0 {
      assert OpenBefore(groups, 0) == {};
    } else {
      MissingAreCounted(groups, i - 1);
      UnnamedIsOpen(groups, i - 1);
      OpenStep(groups, i - 1);
    }
  }

  /** The groups without a slot of their own, one by one and in order. */
  lemma {:induction false} OverflowAppend(a: seq<Group>, b: seq<Group>)
    ensures Overflow(a + b) == Overflow(a) + Overflow(b)
  {
    if b == [] {
      assert a + b == a;
    } else {
      assert (a + b)[..|a + b| - 1] == a + b[..|b| - 1];
      OverflowAppend(a, b[..|b| - 1]);
    }
  }

  lemma OneOverflow(g: Group)
    ensures Overflow([g]) == if exists i: nat :: i < GROUP_COUNT && Names(g, i) then [] else [g]
  {
    assert Overflow([g][..0]) == [];
    if i: nat :| i < GROUP_COUNT && Names(g, i) {
      assert IsSlotId(Strip(g.groupId));
    }
    if IsSlotId(Strip(g.groupId)) {
      var i: nat :| i < GROUP_COUNT && Strip(g.groupId) == SlotId(i);
      assert Names(g, i);
    }
  }

  /** An open slot goes to the next group without a slot, counted by the open slots before it. */
  lemma OverflowFillsOpenSlots(groups: seq<Group>, i: nat)
    requires Unnamed(groups, i)
    ensures
      var rank := |OpenBefore(groups, i)|;
      if rank < |Overflow(groups)|
      then Slot(groups, i).Some? && BecomesSlot(Overflow(groups)[rank], i, Slot(groups, i).value)
      else Slot(groups, i).None?
  {
    UnnamedIsOpen(groups, i);
    MissingAreCounted(groups, i);
    if |OpenBefore(groups, i)| < |Overflow(groups)| {
      NormalizedBecomesSlot(Overflow(groups)[|OpenBefore(groups, i)|], i);
    }
  }

  // ---- the groups that are matched against ----

  /** The config has a group with keywords. */
  ghost predicate HasGroupKeywords(groups: seq<Group>) {
    exists i: nat :: i < GROUP_COUNT && SlotKeywords(groups, i) != []
  }

  lemma {:induction false} NormalizedAreFilledSlots(groups: seq<Group>, n: nat)
    requires n <= GROUP_COUNT
    ensures forall g :: g in EntriesUpTo(groups, n, false) <==>
                        exists i: nat :: i < n && SlotKeywords(groups, i) != [] && Slot(groups, i) == Some(g)
  {
    if n > 0 {
      NormalizedAreFilledSlots(groups, n - 1);
      var last := Entry(groups, n - 1, false);
      assert forall g :: g in last <==> SlotKeywords(groups, n - 1) != [] && Slot(groups, n - 1) == Some(g);
    }
  }

  lemma GroupKeywordsShow(groups: seq<Group>)
    ensures HasGroupKeywords(groups) <==> exists g :: g in Normalized(groups, false) && g.keywords != []
  {
    NormalizedAreFilledSlots(groups, GROUP_COUNT);
    if i: nat :| i < GROUP_COUNT && SlotKeywords(groups, i) != [] {
      assert Slot(groups, i).value in Normalized(groups, false);
    }
  }

  lemma {:induction false} WithKeywordsAll(groups: seq<Group>)
    requires forall g :: g in groups ==> g.keywords != []
    ensures WithKeywords(groups) == groups
  {
    if groups != [] {
      var init, g := groups[..|groups| - 1], groups[|groups| - 1];
      assert groups == init + [g];
      WithKeywordsAll(init);
    }
  }

  /** Main result: a config with a group that has keywords is matched against exactly the filled slots, in slot
      order. */
  lemma EffectiveAreFilledSlots(includes: seq<string>, groups: seq<Group>, g: Group)
    requires HasGroupKeywords(groups)
    ensures g in EffectiveGroups(includes, groups) <==>
            exists i: nat :: i < GROUP_COUNT && SlotKeywords(groups, i) != [] && Slot(groups, i) == Some(g)
    ensures forall j, k :: 0 <= j < k < |EffectiveGroups(includes, groups)| ==>
                             SlotBefore(EffectiveGroups(includes, groups)[j], EffectiveGroups(includes, groups)[k])
  {
    GroupKeywordsShow(groups);
    NormalizedAreFilledSlots(groups, GROUP_COUNT);
    WithKeywordsAll(Normalized(groups, false));
    EntriesAreSlots(groups, GROUP_COUNT, false);
  }

  /** Any other config is matched against its flat keywords as one group, or against nothing when there are none. */
  lemma EffectiveIsFlat(includes: seq<string>, groups: seq<Group>)
    requires !HasGroupKeywords(groups)
    ensures EffectiveGroups(includes, groups) ==
            if KeywordValues(includes) == [] then []
            else [Group("1", "\U{95dc}\U{9375}\U{5b57} " + "1", KeywordValues(includes))]
  {
    GroupKeywordsShow(groups);
    assert Trimmed("1");
  }

  // ---- when a text is eligible ----

  /** The keyword list has an alternative all of whose words occur in the text. */
  ghost predicate AnyOccurs(f: Folding, values: seq<string>, text: string) {
    exists piece :: IsAlternative(f, values, piece) && AllOccur(f, piece, text)
  }

  /** The include side of a config. */
  ghost predicate Included(f: Folding, includes: seq<string>, groups: seq<Group>, text: string) {
    if HasGroupKeywords(groups)
    then forall i: nat ::
           i < GROUP_COUNT && SlotKeywords(groups, i) != [] ==> AnyOccurs(f, SlotKeywords(groups, i), text)
    else AnyOccurs(f, KeywordValues(includes), text)
  }

  /** Some word of the exclude alternative occurs nowhere away from the ignore phrases. */
  ghost predicate Kept(f: Folding, piece: string, phrases: seq<string>, text: string) {
    exists w :: w in WordsOf(piece) && NormalizeForMatch(f, w) != ""
                && !Untouched(NormalizeForMatch(f, w), phrases, text)
  }

  ghost predicate NotExcluded(f: Folding, excludes: seq<string>, phrases: seq<string>, text: string) {
    forall piece :: IsAlternative(f, excludes, piece) ==> Kept(f, piece, phrases, text)
  }

  /** The ignore phrases are the normalised alternatives of the ignore values. */
  lemma IgnorePhrasesHold(f: Folding, values: seq<string>, p: string)
    ensures p in IgnorePhrases(f, values) <==>
            p != "" && exists piece :: IsAlternative(f, values, piece) && NormalizeForMatch(f, piece) == p
  {
    if p in IgnorePhrases(f, values) {
      var rule :| rule in ParseValues(f, values) && p == NormalizeForMatch(f, rule.raw);
      var piece := PieceOfRule(f, values, rule);
    }
    if piece :| p != "" && IsAlternative(f, values, piece) && NormalizeForMatch(f, piece) == p {
      var rule := RuleOfPiece(f, values, piece);
      assert p in NormalizedRaws(f, ParseValues(f, values));
    }
  }

  lemma PieceOfRule(f: Folding, values: seq<string>, rule: Rule) returns (piece: string)
    requires rule in ParseValues(f, values)
    ensures IsAlternative(f, values, piece) && NormalizeForMatch(f, rule.raw) == NormalizeForMatch(f, piece)
  {
    ValuesHold(f, values, rule);
    piece :| IsAlternative(f, values, piece) && BuildKeywordRule(f, piece) == Some(rule);
    NormalizeTextStable(piece);
  }

  lemma RuleOfPiece(f: Folding, values: seq<string>, piece: string) returns (rule: Rule)
    requires IsAlternative(f, values, piece)
    ensures rule in ParseValues(f, values) && NormalizeForMatch(f, rule.raw) == NormalizeForMatch(f, piece)
  {
    TermsHold(f, piece);
    rule := BuildKeywordRule(f, piece).value;
    ValuesHold(f, values, rule);
    NormalizeTextStable(piece);
  }

  /** A group is matched against just when it is effective and has keywords; effective groups all have some. */
  ghost predicate GroupMatches(f: Folding, g: Group, text: string) {
    AnyOccurs(f, g.keywords, text)
  }

  lemma CompiledMean(f: Folding, groups: seq<Group>, text: string)
    requires forall g :: g in groups ==> g.keywords != []
    ensures
      var compiled := CompileGroups(f, groups);
      (compiled != [] && forall c :: c in compiled ==> SomeRuleMatches(c.rules, text)) <==>
      (groups != [] && forall g :: g in groups ==> GroupMatches(f, g, text))
  {
    var compiled := CompileGroups(f, groups);
    forall g | g in groups ensures SomeRuleMatches(ParseValues(f, g.keywords), text) <==> GroupMatches(f, g, text) {
      ValuesMatch(f, g.keywords, text);
    }
    if groups != [] {
      assert groups[0] in groups;
      assert CompiledGroup(groups[0], ParseValues(f, groups[0].keywords)) in compiled;
    }
    if compiled != [] {
      assert compiled[0] in compiled;
    }
    if forall c :: c in compiled ==> SomeRuleMatches(c.rules, text) {
      forall g | g in groups ensures GroupMatches(f, g, text) {
        assert CompiledGroup(g, ParseValues(f, g.keywords)) in compiled;
      }
    }
  }

  lemma FilledSlotsMean(f: Folding, includes: seq<string>, groups: seq<Group>, text: string)
    requires HasGroupKeywords(groups)
    ensures
      var effective := EffectiveGroups(includes, groups);
      && effective != [] && (forall g :: g in effective ==> g.keywords != [])
      && ((forall g :: g in effective ==> GroupMatches(f, g, text)) <==> Included(f, includes, groups, text))
  {
    var effective := EffectiveGroups(includes, groups);
    forall g ensures g in effective <==>
                     exists i: nat :: i < GROUP_COUNT && SlotKeywords(groups, i) != [] && Slot(groups, i) == Some(g)
    {
      EffectiveAreFilledSlots(includes, groups, g);
    }
    forall i: nat | i < GROUP_COUNT && SlotKeywords(groups, i) != []
      ensures Slot(groups, i).Some? && Slot(groups, i).value in effective
      ensures SlotKeywords(groups, i) == Slot(groups, i).value.keywords
    {
    }
  }

  lemma FlatMeans(f: Folding, includes: seq<string>, groups: seq<Group>, text: string)
    requires !HasGroupKeywords(groups)
    ensures
      var effective := EffectiveGroups(includes, groups);
      && (forall g :: g in effective ==> g.keywords != [])
      && ((effective != [] && forall g :: g in effective ==> GroupMatches(f, g, text)) <==>
          Included(f, includes, groups, text))
  {
    EffectiveIsFlat(includes, groups);
    var effective := EffectiveGroups(includes, groups);
    if KeywordValues(includes) == [] {
      assert !AnyOccurs(f, KeywordValues(includes), text);
    } else {
      assert effective == [effective[0]] && effective[0].keywords == KeywordValues(includes);
    }
  }

  lemma ExcludeRuleHeld(f: Folding, piece: string, phrases: seq<string>, text: string)
    requires HasTerm(f, piece)
    ensures BuildKeywordRule(f, piece).Some?
    ensures Held(BuildKeywordRule(f, piece).value, phrases, text) <==> Kept(f, piece, phrases, text)
  {
    TermsHold(f, piece);
    var rule := BuildKeywordRule(f, piece).value;
    if Held(rule, phrases, text) {
      var t :| t in rule.terms && !Untouched(t, phrases, text);
      var w :| w in WordsOf(piece) && NormalizeForMatch(f, w) == t;
    }
    if w :| w in WordsOf(piece) && NormalizeForMatch(f, w) != "" && !Untouched(NormalizeForMatch(f, w), phrases, text) {
      assert NormalizeForMatch(f, w) in rule.terms;
    }
  }

  lemma ExcludesMean(f: Folding, excludes: seq<string>, phrases: seq<string>, text: string)
    ensures (forall rule :: rule in ParseValues(f, excludes) ==> Held(rule, phrases, text)) <==>
            NotExcluded(f, excludes, phrases, text)
  {
    if forall rule :: rule in ParseValues(f, excludes) ==> Held(rule, phrases, text) {
      forall piece | IsAlternative(f, excludes, piece) ensures Kept(f, piece, phrases, text) {
        ExcludeRuleHeld(f, piece, phrases, text);
        ValuesHold(f, excludes, BuildKeywordRule(f, piece).value);
      }
    }
    if NotExcluded(f, excludes, phrases, text) {
      forall rule | rule in ParseValues(f, excludes) ensures Held(rule, phrases, text) {
        ValuesHold(f, excludes, rule);
        var piece :| IsAlternative(f, excludes, piece) && BuildKeywordRule(f, piece) == Some(rule);
        ExcludeRuleHeld(f, piece, phrases, text);
      }
    }
  }

  /** Folding the exclude words puts no space into them. */
  ghost predicate SpacelessExcludes(f: Folding, excludes: seq<string>) {
    forall piece, w :: IsAlternative(f, excludes, piece) && w in WordsOf(piece) ==> ' ' !in NormalizeForMatch(f, w)
  }

  lemma ExcludesAreSpaceless(f: Folding, excludes: seq<string>)
    requires SpacelessExcludes(f, excludes)
    ensures Spaceless(ParseValues(f, excludes))
  {
    forall rule, t | rule in ParseValues(f, excludes) && t in rule.terms ensures ' ' !in t {
      ValuesHold(f, excludes, rule);
      var piece :| IsAlternative(f, excludes, piece) && BuildKeywordRule(f, piece) == Some(rule);
      TermsHold(f, piece);
      var w :| w in WordsOf(piece) && NormalizeForMatch(f, w) == t;
    }
  }

  /** Main result: for any config, a normalised text is eligible just when every filled group slot (or the flat
      keyword list, when no slot is filled) has an alternative all of whose words occur in it, and every exclude
      alternative has a word that occurs nowhere away from the ignore phrases. */
  lemma EligibleByConfig(f: Folding, includes: seq<string>, groups: seq<Group>, excludes: seq<string>,
                         ignores: seq<string>, text: string)
    requires SpacelessExcludes(f, excludes)
    ensures Eligible(Compile(f, includes, groups, excludes, ignores), text) <==>
            Included(f, includes, groups, text) && NotExcluded(f, excludes, IgnorePhrases(f, ignores), text)
  {
    ExcludesAreSpaceless(f, excludes);
    EligibleMeans(f, includes, groups, excludes, ignores, text);
    if HasGroupKeywords(groups) {
      FilledSlotsMean(f, includes, groups, text);
    } else {
      FlatMeans(f, includes, groups, text);
    }
    CompiledMean(f, EffectiveGroups(includes, groups), text);
    ExcludesMean(f, excludes, IgnorePhrases(f, ignores), text);
  }

  // ---- what is reported for a group ----

  /** Each group result names its group and says whether the group's keywords match. */
  lemma ResultsNameTheirGroups(f: Folding, groups: seq<Group>, k: nat, text: string)
    requires k < |CompileGroups(f, groups)|
    ensures
      var c := CompileGroups(f, groups)[k];
      var r := ResultOf(c, text);
      && r.groupId == c.group.groupId && r.labelText == c.group.labelText
      && (r.matched <==> GroupMatches(f, c.group, text))
      && (forall raw :: raw in r.rules <==>
                        exists rule :: rule in c.rules && rule.raw == raw && MatchesRule(rule, text))
  {
    var c := CompileGroups(f, groups)[k];
    assert c in CompileGroups(f, groups);
    ParsedAreParserMade(f, c.group.keywords);
    ReportsMatches(f, c.rules, text);
    ValuesMatch(f, c.group.keywords, text);
    forall rule | rule in c.rules && MatchesRule(rule, text) ensures rule.raw in GroupRules(c, text) {
      MatchIsReported(f, c.rules, rule, text);
    }
  }

  ghost predicate NamesMatch(c: CompiledGroup, text: string, m: GroupMatch) {
    m.groupId == c.group.groupId && m.labelText == c.group.labelText && m.rule in GroupRules(c, text)
  }

  lemma MatchesOfGroup(c: CompiledGroup, text: string, m: GroupMatch)
    ensures m in MatchesOf(c, text) <==> NamesMatch(c, text, m)
  {
    if m.rule in GroupRules(c, text) {
      var j :| 0 <= j < |GroupRules(c, text)| && GroupRules(c, text)[j] == m.rule;
      assert MatchesOf(c, text)[j].rule == m.rule;
    }
  }

  /** Each reported match names a group and one of its matching rules. */
  lemma {:induction false} MatchesNameTheirGroups(compiled: seq<CompiledGroup>, n: nat, text: string, m: GroupMatch)
    requires n <= |compiled|
    ensures m in MatchesUpTo(compiled, n, text) <==> exists k: nat :: k < n && NamesMatch(compiled[k], text, m)
  {
    if n > 0 {
      MatchesNameTheirGroups(compiled, n - 1, text, m);
      MatchesOfGroup(compiled[n - 1], text, m);
    }
  }
}
