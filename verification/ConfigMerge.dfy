/** application/target_config_merge.py: config patches keep the two keyword fields in step. */
module ConfigMerge {
  import opened Options
  import opened Text
  import opened KeywordGroups

  /** The keyword fields and the clamped scan limit of a target config; the other fields are copied as they are. */
  datatype Config = Config(includeKeywords: seq<string>, groups: seq<Group>, maxItems: int)

  /** None is a field the request did not provide. */
  datatype Patch = Patch(includeKeywords: Option<seq<string>>, groups: Option<seq<Group>>, maxItems: Option<int>)

  const DEFAULTS := Config([], [], 5)

  function ClampPostCount(n: int): int {
    if n < 1 then 1 else if n > 10 then 10 else n
  }

  /** r is the number from 1 to 10 nearest to n. */
  ghost predicate IsClamped(r: int, n: int) {
    1 <= r <= 10 && (r < n ==> r == 10) && (n < r ==> r == 1)
  }

  /** The field values the patch and its base supply, before the keyword fields are brought in step. */
  function Overlaid(base: Config, patch: Patch): Config {
    Config(patch.includeKeywords.GetOr(base.includeKeywords), patch.groups.GetOr(base.groups),
           ClampPostCount(patch.maxItems.GetOr(base.maxItems)))
  }

  /** _normalize_include_keyword_values: a group patch decides both fields, else an include patch does. */
  method NormalizeIncludeKeywordValues(values: Config, patch: Patch) returns (r: Config)
    ensures r.maxItems == values.maxItems
    ensures patch.groups.Some? ==>
              r.groups == Normalized(values.groups, true) && r.includeKeywords == Flatten(values.groups)
    ensures patch.groups.None? && patch.includeKeywords.Some? ==>
              r.includeKeywords == values.includeKeywords && r.groups == LegacyGroups(values.includeKeywords, true)
    ensures patch.groups.None? && patch.includeKeywords.None? ==> r == values
  {
    r := values;
    if patch.groups.Some? {
      var groups := NormalizeIncludeKeywordGroups(r.groups, true);
      r := r.(groups := groups);
      FlattenIgnoresNormalizing(values.groups, true);
      r := r.(includeKeywords := Flatten(groups));
      return;
    }
    if patch.includeKeywords.Some? {
      r := r.(groups := LegacyGroups(r.includeKeywords, true));
    }
  }

  /** The trimmed, de-duplicated flat keywords are the flat projection of the groups. */
  ghost predicate InStep(c: Config) {
    KeywordValues(c.includeKeywords) == Flatten(c.groups)
  }

  method BuildTargetConfigFromPatch(patch: Patch) returns (r: Config)
    ensures InStep(r)
    ensures patch.groups.Some? ==> Flatten(r.groups) == Flatten(patch.groups.value)
    ensures patch.groups.None? ==> r.includeKeywords == patch.includeKeywords.GetOr([])
    ensures IsClamped(r.maxItems, patch.maxItems.GetOr(5))
  {
    r := NormalizeIncludeKeywordValues(Overlaid(DEFAULTS, patch), patch);
    EmptyInStep();
    StaysInStep(DEFAULTS, patch, r);
  }

  method MergeTargetConfigPatch(existing: Config, patch: Patch) returns (r: Config)
    ensures InStep(existing) ==> InStep(r)
    ensures patch.groups.Some? || patch.includeKeywords.Some? ==> InStep(r)
    ensures patch.groups.Some? ==> Flatten(r.groups) == Flatten(patch.groups.value)
    ensures patch.groups.None? ==> r.includeKeywords == patch.includeKeywords.GetOr(existing.includeKeywords)
    ensures patch.groups.None? && patch.includeKeywords.None? ==> r.groups == existing.groups
    ensures IsClamped(r.maxItems, patch.maxItems.GetOr(existing.maxItems))
  {
    r := NormalizeIncludeKeywordValues(Overlaid(existing, patch), patch);
    StaysInStep(existing, patch, r);
  }

  /** What the two entry points rest on: a provided keyword field is brought in step, an absent one is kept. */
  lemma StaysInStep(base: Config, patch: Patch, r: Config)
    requires
      var values := Overlaid(base, patch);
      if patch.groups.Some? then
        r.groups == Normalized(values.groups, true) && r.includeKeywords == Flatten(values.groups)
      else if patch.includeKeywords.Some? then
        r.includeKeywords == values.includeKeywords && r.groups == LegacyGroups(values.includeKeywords, true)
      else r == values
    ensures patch.groups.Some? || patch.includeKeywords.Some? || InStep(base) ==> InStep(r)
    ensures patch.groups.Some? ==> Flatten(r.groups) == Flatten(patch.groups.value)
  {
    if patch.groups.Some? {
      FlattenIgnoresNormalizing(patch.groups.value, true);
      FlattenStable(patch.groups.value);
    } else if patch.includeKeywords.Some? {
      LegacyFlatten(patch.includeKeywords.value);
    }
  }

  lemma EmptyInStep()
    ensures InStep(DEFAULTS)
  {
    KeywordsOfEntries([], GROUP_COUNT, true);
    assert forall i: nat :: i < GROUP_COUNT ==> SlotKeywords([], i) == [];
    assert SlotKeywordsUpTo([], 1) == [] && SlotKeywordsUpTo([], 2) == [];
    assert SlotKeywordsUpTo([], GROUP_COUNT) == [];
  }

  /** A flat projection holds no blank, untrimmed or repeated keyword. */
  lemma FlattenStable(groups: seq<Group>)
    ensures KeywordValues(Flatten(groups)) == Flatten(groups)
  {
    forall k | k in Flatten(groups) ensures k != "" && Trimmed(k) {
      FlattenHolds(groups, k);
      var g :| g in Normalized(groups, false) && k in g.keywords;
      EntriesAreSlots(groups, GROUP_COUNT, false);
      assert k in KeywordValues(g.keywords);
    }
    assert StripAll(Flatten(groups)) == Flatten(groups);
    DedupeDistinct(Flatten(groups));
  }

  /** Legacy keywords put into the first slot flatten back to themselves. */
  lemma LegacyFlatten(values: seq<string>)
    ensures Flatten(LegacyGroups(values, true)) == KeywordValues(values)
  {
    var keywords := KeywordValues(values);
    var groups := KeywordSlotsUpTo([keywords], GROUP_COUNT);
    KeywordValuesStable(values);
    var g0 := Group(SlotId(0), DefaultLabel(SlotId(0)), keywords);
    var g1 := Group(SlotId(1), DefaultLabel(SlotId(1)), []);
    var g2 := Group(SlotId(2), DefaultLabel(SlotId(2)), []);
    DefaultLabelTrimmed(0);
    DefaultLabelTrimmed(1);
    DefaultLabelTrimmed(2);
    assert KeywordSlotsUpTo([keywords], 1) == [] + [g0];
    assert KeywordSlotsUpTo([keywords], 2) == [] + [g0] + [g1];
    assert groups == [] + [g0] + [g1] + [g2];
    forall i: nat | i < GROUP_COUNT ensures Slot(groups, i) == Some([g0, g1, g2][i]) {
      InSlotReadsBack([], g0, 0, i);
      InSlotReadsBack([] + [g0], g1, 1, i);
      InSlotReadsBack([] + [g0] + [g1], g2, 2, i);
    }
    KeywordsOfEntries(groups, GROUP_COUNT, true);
    assert SlotKeywordsUpTo(groups, 1) == keywords;
    assert SlotKeywordsUpTo(groups, 2) == keywords;
    assert SlotKeywordsUpTo(groups, 3) == keywords;
    DedupeDistinct(keywords);
  }
}
