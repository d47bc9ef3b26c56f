/** core/keyword_groups.py: include keywords in a fixed number of slots, and their flat projection. */
module KeywordGroups {
  import opened Options
  import opened Text

  datatype Group = Group(groupId: string, labelText: string, keywords: seq<string>)

  const GROUP_COUNT: nat := 3

  /** str(index + 1) */
  function SlotId(i: nat): string
    requires i < GROUP_COUNT
  {
    ["1", "2", "3"][i]
  }

  predicate IsSlotId(id: string) {
    exists i: nat :: i < GROUP_COUNT && id == SlotId(i)
  }

  function DefaultLabel(groupId: string): string {
    var id := Strip(groupId);
    if id == "" then "\U{95dc}\U{9375}\U{5b57}" else "\U{95dc}\U{9375}\U{5b57} " + id
  }

  /** The keywords that survive trimming, first occurrences only. */
  function KeywordValues(values: seq<string>): (r: seq<string>)
    ensures forall k :: k in r ==> k != "" && Trimmed(k)
  {
    Dedupe(StripAll(values))
  }

  function StripAll(values: seq<string>): (r: seq<string>)
    ensures forall k :: k in r ==> k != "" && Trimmed(k)
    ensures (forall k :: k in values ==> k != "" && Trimmed(k)) ==> r == values
  {
    if values == [] then []
    else
      var init, keyword := StripAll(values[..|values| - 1]), Strip(values[|values| - 1]);
      assert values == values[..|values| - 1] + [values[|values| - 1]];
      if keyword == "" then init else init + [keyword]
  }

  /** Normalising keyword values twice is normalising them once. */
  lemma KeywordValuesStable(values: seq<string>)
    ensures KeywordValues(KeywordValues(values)) == KeywordValues(values)
  {
    assert StripAll(KeywordValues(values)) == KeywordValues(values);
    DedupeDistinct(KeywordValues(values));
  }

  method NormalizeKeywordValues(values: seq<string>) returns (keywords: seq<string>)
    ensures keywords == KeywordValues(values)
  {
    var kept: seq<string> := [];
    for i := 0 to |values|
      invariant kept == StripAll(values[..i])
    {
      assert values[..i + 1][..i] == values[..i];
      var keyword := Strip(values[i]);
      if keyword != "" {
        kept := kept + [keyword];
      }
    }
    assert values[..|values|] == values;
    return Dedupe(kept);
  }

  function NormalizedGroup(g: Group, groupId: string): Group {
    var given := Strip(g.labelText);
    Group(groupId, if given == "" then DefaultLabel(groupId) else given, KeywordValues(g.keywords))
  }

  /** The last group that names the slot id. */
  function Named(groups: seq<Group>, id: string): Option<Group> {
    if groups == [] then None
    else
      var g := groups[|groups| - 1];
      if Strip(g.groupId) == id then Some(NormalizedGroup(g, id)) else Named(groups[..|groups| - 1], id)
  }

  /** The groups that name no slot, in order. */
  function Overflow(groups: seq<Group>): seq<Group> {
    if groups == [] then []
    else
      var g := groups[|groups| - 1];
      var init := Overflow(groups[..|groups| - 1]);
      if IsSlotId(Strip(g.groupId)) then init else init + [g]
  }

  /** How many of the first i slots no group names. */
  function MissingBefore(groups: seq<Group>, i: nat): nat
    requires i <= GROUP_COUNT
  {
    if i == 0 then 0
    else MissingBefore(groups, i - 1) + if Named(groups, SlotId(i - 1)).None? then 1 else 0
  }

  /** What slot i holds: the group that names it, or else the next overflow group. */
  function Slot(groups: seq<Group>, i: nat): Option<Group>
    requires i < GROUP_COUNT
  {
    var named, rank, overflow := Named(groups, SlotId(i)), MissingBefore(groups, i), Overflow(groups);
    if named.Some? then named
    else if rank < |overflow| then Some(NormalizedGroup(overflow[rank], SlotId(i)))
    else None
  }

  /** The slot's contribution to the normalised list. */
  function Entry(groups: seq<Group>, i: nat, fill: bool): seq<Group>
    requires i < GROUP_COUNT
  {
    match Slot(groups, i)
    case Some(g) => if g.keywords != [] || fill then [g] else []
    case None => if fill then [Group(SlotId(i), DefaultLabel(SlotId(i)), [])] else []
  }

  function EntriesUpTo(groups: seq<Group>, n: nat, fill: bool): seq<Group>
    requires n <= GROUP_COUNT
  {
    if n == 0 then [] else EntriesUpTo(groups, n - 1, fill) + Entry(groups, n - 1, fill)
  }

  function Normalized(groups: seq<Group>, fill: bool): seq<Group> {
    EntriesUpTo(groups, GROUP_COUNT, fill)
  }

  function SlotKeywords(groups: seq<Group>, i: nat): seq<string>
    requires i < GROUP_COUNT
  {
    match Slot(groups, i)
    case Some(g) => g.keywords
    case None => []
  }

  function AllKeywords(groups: seq<Group>): seq<string> {
    if groups == [] then [] else AllKeywords(groups[..|groups| - 1]) + groups[|groups| - 1].keywords
  }

  /** flatten_include_keyword_groups */
  function Flatten(groups: seq<Group>): seq<string> {
    Dedupe(AllKeywords(Normalized(groups, true)))
  }

  /** keyword_group_slots, up to slot n: the i-th keyword list fills slot i. */
  function KeywordSlotsUpTo(values: seq<seq<string>>, n: nat): seq<Group>
    requires n <= GROUP_COUNT
  {
    if n == 0 then []
    else
      KeywordSlotsUpTo(values, n - 1)
      + [Group(SlotId(n - 1), DefaultLabel(SlotId(n - 1)),
               KeywordValues(if n - 1 < |values| then values[n - 1] else []))]
  }

  /** legacy_include_keyword_groups: the flat keywords become the first group. */
  function LegacyGroups(includeKeywords: seq<string>, fill: bool): seq<Group> {
    var keywords := KeywordValues(includeKeywords);
    if fill then KeywordSlotsUpTo([keywords], GROUP_COUNT)
    else if keywords == [] then []
    else [Group("1", DefaultLabel("1"), keywords)]
  }

  function WithKeywords(groups: seq<Group>): (r: seq<Group>)
    ensures forall g :: g in r <==> g in groups && g.keywords != []
  {
    if groups == [] then []
    else
      var init, g := WithKeywords(groups[..|groups| - 1]), groups[|groups| - 1];
      assert groups == groups[..|groups| - 1] + [g];
      if g.keywords != [] then init + [g] else init
  }

  /** effective_include_keyword_groups */
  function EffectiveGroups(includeKeywords: seq<string>, groups: seq<Group>): seq<Group> {
    var normalized := Normalized(groups, false);
    if exists g :: g in normalized && g.keywords != [] then WithKeywords(normalized)
    else LegacyGroups(includeKeywords, false)
  }

  // ---- the normal form ----

  /** A group as the normaliser writes it into slot i. */
  ghost predicate InSlot(g: Group, i: nat) {
    && i < GROUP_COUNT
    && g.groupId == SlotId(i)
    && g.labelText != "" && Trimmed(g.labelText)
    && KeywordValues(g.keywords) == g.keywords
  }

  lemma DefaultLabelTrimmed(i: nat)
    requires i < GROUP_COUNT
    ensures DefaultLabel(SlotId(i)) != "" && Trimmed(DefaultLabel(SlotId(i)))
  {
  }

  lemma EntryInSlot(groups: seq<Group>, i: nat, fill: bool)
    requires i < GROUP_COUNT
    ensures |Entry(groups, i, fill)| <= 1
    ensures forall g :: g in Entry(groups, i, fill) ==> InSlot(g, i)
  {
    DefaultLabelTrimmed(i);
    var named := Named(groups, SlotId(i));
    if named.Some? {
      NamedIsNormalized(groups, i);
    } else if Slot(groups, i).Some? {
      KeywordValuesStable(Overflow(groups)[MissingBefore(groups, i)].keywords);
    }
  }

  lemma {:induction false} NamedIsNormalized(groups: seq<Group>, i: nat)
    requires i < GROUP_COUNT && Named(groups, SlotId(i)).Some?
    ensures InSlot(Named(groups, SlotId(i)).value, i)
  {
    var g := groups[|groups| - 1];
    if Strip(g.groupId) == SlotId(i) {
      DefaultLabelTrimmed(i);
      KeywordValuesStable(g.keywords);
    } else {
      NamedIsNormalized(groups[..|groups| - 1], i);
    }
  }

  /** Distinct ascending ids within the slots: every entry below n sits in a slot below n, in slot order. */
  lemma {:induction false} EntriesAreSlots(groups: seq<Group>, n: nat, fill: bool)
    requires n <= GROUP_COUNT
    ensures forall g :: g in EntriesUpTo(groups, n, fill) ==> exists i: nat :: i < n && InSlot(g, i)
    ensures forall j, k :: 0 <= j < k < |EntriesUpTo(groups, n, fill)| ==>
                             SlotBefore(EntriesUpTo(groups, n, fill)[j], EntriesUpTo(groups, n, fill)[k])
  {
    if n > 0 {
      EntriesAreSlots(groups, n - 1, fill);
      EntryInSlot(groups, n - 1, fill);
      var init, last := EntriesUpTo(groups, n - 1, fill), Entry(groups, n - 1, fill);
      forall g | g in init + last ensures exists i: nat :: i < n && InSlot(g, i) {
        if g in last {
          assert InSlot(g, n - 1);
        }
      }
      forall j, k | 0 <= j < k < |init + last| ensures SlotBefore((init + last)[j], (init + last)[k]) {
        if k >= |init| {
          assert (init + last)[k] in last;
          assert (init + last)[j] in init;
        }
      }
    }
  }

  ghost predicate SlotBefore(a: Group, b: Group) {
    exists i: nat, j: nat :: i < j && InSlot(a, i) && InSlot(b, j)
  }

  lemma SlotIdsDiffer(i: nat, k: nat)
    requires i < GROUP_COUNT && k < GROUP_COUNT
    ensures SlotId(i) == SlotId(k) <==> i == k
    ensures Strip(SlotId(k)) == SlotId(k)
  {
    assert SlotId(i)[0] == SlotId(k)[0] <==> i == k;
    assert Trimmed(SlotId(k));
  }

  lemma InSlotIsNormalized(g: Group, k: nat)
    requires InSlot(g, k)
    ensures NormalizedGroup(g, SlotId(k)) == g
  {
  }

  lemma NamedSnoc(init: seq<Group>, g: Group, id: string)
    ensures Named(init + [g], id) == if Strip(g.groupId) == id then Some(NormalizedGroup(g, id)) else Named(init, id)
  {
    assert (init + [g])[..|init|] == init;
  }

  /** A normalised group comes back unchanged, under its own id only. */
  lemma InSlotReadsBack(init: seq<Group>, g: Group, k: nat, i: nat)
    requires InSlot(g, k) && i < GROUP_COUNT
    ensures Named(init + [g], SlotId(i)) == if i == k then Some(g) else Named(init, SlotId(i))
  {
    NamedSnoc(init, g, SlotId(i));
    SlotIdsDiffer(i, k);
    InSlotIsNormalized(g, k);
  }

  lemma OverflowSnoc(init: seq<Group>, g: Group)
    ensures Overflow(init + [g]) == Overflow(init) + if IsSlotId(Strip(g.groupId)) then [] else [g]
  {
    assert (init + [g])[..|init|] == init;
  }

  lemma InSlotIsNoOverflow(init: seq<Group>, g: Group, k: nat)
    requires InSlot(g, k)
    ensures Overflow(init + [g]) == Overflow(init)
  {
    OverflowSnoc(init, g);
    SlotIdsDiffer(k, k);
    assert IsSlotId(SlotId(k));
  }

  /** The same for the at most one group a slot contributes. */
  lemma SlotReadsBack(init: seq<Group>, last: seq<Group>, k: nat, i: nat)
    requires |last| <= 1 && (last != [] ==> InSlot(last[0], k)) && i < GROUP_COUNT
    ensures Named(init + last, SlotId(i)) == if i == k && last != [] then Some(last[0]) else Named(init, SlotId(i))
    ensures Overflow(init + last) == Overflow(init)
  {
    if last == [] {
      assert init + last == init;
    } else {
      assert last == [last[0]];
      InSlotReadsBack(init, last[0], k, i);
      InSlotIsNoOverflow(init, last[0], k);
    }
  }

  lemma EntryReadsBack(groups: seq<Group>, init: seq<Group>, k: nat, i: nat, fill: bool)
    requires k < GROUP_COUNT && i < GROUP_COUNT
    ensures Named(init + Entry(groups, k, fill), SlotId(i)) ==
            if i == k && Entry(groups, k, fill) != [] then Some(Entry(groups, k, fill)[0]) else Named(init, SlotId(i))
    ensures Overflow(init + Entry(groups, k, fill)) == Overflow(init)
  {
    EntryInSlot(groups, k, fill);
    SlotReadsBack(init, Entry(groups, k, fill), k, i);
  }

  /** Reading a slot back out of the normalised list. */
  lemma {:induction false} NamedInEntries(groups: seq<Group>, n: nat, i: nat, fill: bool)
    requires n <= GROUP_COUNT && i < GROUP_COUNT
    ensures Named(EntriesUpTo(groups, n, fill), SlotId(i)) ==
            if i < n && Entry(groups, i, fill) != [] then Some(Entry(groups, i, fill)[0]) else None
    ensures Overflow(EntriesUpTo(groups, n, fill)) == []
  {
    if n > 0 {
      NamedInEntries(groups, n - 1, i, fill);
      EntryReadsBack(groups, EntriesUpTo(groups, n - 1, fill), n - 1, i, fill);
    }
  }

  lemma SlotOfNormalized(groups: seq<Group>, i: nat, fill: bool)
    requires i < GROUP_COUNT
    ensures Slot(Normalized(groups, fill), i) ==
            if Entry(groups, i, fill) != [] then Some(Entry(groups, i, fill)[0]) else None
  {
    NamedInEntries(groups, GROUP_COUNT, i, fill);
  }

  /** Main result: normalising is idempotent. */
  lemma NormalizedIsStable(groups: seq<Group>, fill: bool)
    ensures Normalized(Normalized(groups, fill), fill) == Normalized(groups, fill)
  {
    forall i: nat | i < GROUP_COUNT ensures Entry(Normalized(groups, fill), i, fill) == Entry(groups, i, fill) {
      SlotOfNormalized(groups, i, fill);
      EntryInSlot(groups, i, fill);
    }
    EntriesAgree(Normalized(groups, fill), groups, GROUP_COUNT, fill);
  }

  lemma {:induction false} EntriesAgree(a: seq<Group>, b: seq<Group>, n: nat, fill: bool)
    requires n <= GROUP_COUNT
    requires forall i: nat :: i < GROUP_COUNT ==> Entry(a, i, fill) == Entry(b, i, fill)
    ensures EntriesUpTo(a, n, fill) == EntriesUpTo(b, n, fill)
  {
    if n > 0 {
      EntriesAgree(a, b, n - 1, fill);
    }
  }

  function SlotKeywordsUpTo(groups: seq<Group>, n: nat): seq<string>
    requires n <= GROUP_COUNT
  {
    if n == 0 then [] else SlotKeywordsUpTo(groups, n - 1) + SlotKeywords(groups, n - 1)
  }

  lemma AllKeywordsStep(init: seq<Group>, last: seq<Group>)
    requires |last| <= 1
    ensures AllKeywords(init + last) == AllKeywords(init) + if last == [] then [] else last[0].keywords
  {
    if last == [] {
      assert init + last == init;
    } else {
      assert (init + last)[..|init|] == init;
    }
  }

  /** A slot contributes its keywords, whether or not an empty slot is written out. */
  lemma EntryKeywords(groups: seq<Group>, i: nat, fill: bool)
    requires i < GROUP_COUNT
    ensures |Entry(groups, i, fill)| <= 1
    ensures SlotKeywords(groups, i) == if Entry(groups, i, fill) == [] then [] else Entry(groups, i, fill)[0].keywords
  {
  }

  /** The flat keywords are those of the slots in order; empty slots and the fill flag do not matter. */
  lemma {:induction false} KeywordsOfEntries(groups: seq<Group>, n: nat, fill: bool)
    requires n <= GROUP_COUNT
    ensures AllKeywords(EntriesUpTo(groups, n, fill)) == SlotKeywordsUpTo(groups, n)
  {
    if n > 0 {
      KeywordsOfEntries(groups, n - 1, fill);
      EntryKeywords(groups, n - 1, fill);
      AllKeywordsStep(EntriesUpTo(groups, n - 1, fill), Entry(groups, n - 1, fill));
    }
  }

  lemma SlotKeywordsKept(groups: seq<Group>, i: nat, fill: bool)
    requires i < GROUP_COUNT
    ensures SlotKeywords(Normalized(groups, fill), i) == SlotKeywords(groups, i)
  {
    SlotOfNormalized(groups, i, fill);
    EntryKeywords(groups, i, fill);
  }

  lemma {:induction false} SlotKeywordsAgree(groups: seq<Group>, n: nat, fill: bool)
    requires n <= GROUP_COUNT
    ensures SlotKeywordsUpTo(Normalized(groups, fill), n) == SlotKeywordsUpTo(groups, n)
  {
    if n > 0 {
      SlotKeywordsAgree(groups, n - 1, fill);
      SlotKeywordsKept(groups, n - 1, fill);
    }
  }

  /** Main result: normalising leaves the flat projection unchanged, with or without empty slots. */
  lemma FlattenIgnoresNormalizing(groups: seq<Group>, fill: bool)
    ensures Flatten(Normalized(groups, fill)) == Flatten(groups)
  {
    KeywordsOfEntries(groups, GROUP_COUNT, true);
    KeywordsOfEntries(Normalized(groups, fill), GROUP_COUNT, true);
    SlotKeywordsAgree(groups, GROUP_COUNT, fill);
  }

  /** The flat projection holds exactly the keywords of the groups that have any. */
  lemma FlattenHolds(groups: seq<Group>, keyword: string)
    ensures keyword in Flatten(groups) <==> exists g :: g in Normalized(groups, false) && keyword in g.keywords
  {
    KeywordsOfEntries(groups, GROUP_COUNT, true);
    KeywordsOfEntries(groups, GROUP_COUNT, false);
    AllKeywordsHolds(Normalized(groups, false), keyword);
  }

  lemma {:induction false} AllKeywordsHolds(groups: seq<Group>, keyword: string)
    ensures keyword in AllKeywords(groups) <==> exists g :: g in groups && keyword in g.keywords
  {
    if groups != [] {
      var init, g := groups[..|groups| - 1], groups[|groups| - 1];
      assert groups == init + [g];
      AllKeywordsHolds(init, keyword);
    }
  }
  // ---- the loops ----

  method KeywordGroupSlots(values: seq<seq<string>>) returns (slots: seq<Group>)
    ensures slots == KeywordSlotsUpTo(values, GROUP_COUNT)
  {
    slots := [];
    for index := 0 to GROUP_COUNT
      invariant slots == KeywordSlotsUpTo(values, index)
    {
      var raw := if index < |values| then values[index] else [];
      var keywords := NormalizeKeywordValues(raw);
      slots := slots + [Group(SlotId(index), DefaultLabel(SlotId(index)), keywords)];
    }
  }

  /** The table by id after overflow groups 0..k have been placed. */
  ghost predicate Placed(groups: seq<Group>, byId: map<string, Group>, k: nat, fill: bool) {
    forall i: nat :: i < GROUP_COUNT ==>
                       var id, rank := SlotId(i), MissingBefore(groups, i);
                       var entry := if Named(groups, id).Some? || rank < k then Slot(groups, i) else None;
                       if entry.Some? && (Named(groups, id).Some? || entry.value.keywords != [] || fill)
                       then id in byId && byId[id] == entry.value
                       else id !in byId
  }

  /** First loop: the last group that names a slot wins it, the others overflow. */
  method SortIntoSlots(groups: seq<Group>) returns (byId: map<string, Group>, overflow: seq<Group>)
    ensures overflow == Overflow(groups)
    ensures Placed(groups, byId, 0, false)
  {
    byId, overflow := map[], [];
    for n := 0 to |groups|
      invariant overflow == Overflow(groups[..n])
      invariant forall i: nat :: i < GROUP_COUNT ==>
                                   if Named(groups[..n], SlotId(i)).Some?
                                   then SlotId(i) in byId && byId[SlotId(i)] == Named(groups[..n], SlotId(i)).value
                                   else SlotId(i) !in byId
    {
      assert groups[..n + 1][..n] == groups[..n];
      var id := Strip(groups[n].groupId);
      SlotIds();
      if id !in {"1", "2", "3"} {
        overflow := overflow + [groups[n]];
      } else {
        byId := byId[id := NormalizedGroup(groups[n], id)];
      }
    }
    assert groups[..|groups|] == groups;
  }

  lemma SlotIds()
    ensures SlotId(0) == "1" && SlotId(1) == "2" && SlotId(2) == "3"
    ensures forall id :: IsSlotId(id) <==> id in {"1", "2", "3"}
  {
    forall id ensures IsSlotId(id) <==> id in {"1", "2", "3"} {
      if id in {"1", "2", "3"} {
        assert id == SlotId(0) || id == SlotId(1) || id == SlotId(2);
      }
    }
  }

  /** The slots no group names, in order. */
  method MissingSlots(groups: seq<Group>, byId: map<string, Group>) returns (missing: seq<nat>)
    requires Placed(groups, byId, 0, false)
    ensures |missing| == MissingBefore(groups, GROUP_COUNT)
    ensures forall k :: 0 <= k < |missing| ==>
                          missing[k] < GROUP_COUNT && Named(groups, SlotId(missing[k])).None?
                          && MissingBefore(groups, missing[k]) == k
  {
    missing := [];
    for i := 0 to GROUP_COUNT
      invariant |missing| == MissingBefore(groups, i)
      invariant forall k :: 0 <= k < |missing| ==>
                              missing[k] < i && Named(groups, SlotId(missing[k])).None?
                              && MissingBefore(groups, missing[k]) == k
    {
      if SlotId(i) !in byId {
        missing := missing + [i];
      }
    }
  }

  /** The overflow groups fill the missing slots, as far as both go. */
  method FillMissing(groups: seq<Group>, byId0: map<string, Group>, overflow: seq<Group>, missing: seq<nat>, fill: bool)
    returns (byId: map<string, Group>)
    requires Placed(groups, byId0, 0, fill) && overflow == Overflow(groups)
    requires |missing| == MissingBefore(groups, GROUP_COUNT)
    requires forall k :: 0 <= k < |missing| ==>
                           missing[k] < GROUP_COUNT && Named(groups, SlotId(missing[k])).None?
                           && MissingBefore(groups, missing[k]) == k
    ensures Filled(groups, byId, fill)
  {
    byId := byId0;
    var placed := if |overflow| < |missing| then |overflow| else |missing|;
    for k := 0 to placed
      invariant Placed(groups, byId, k, fill)
    {
      var group := NormalizedGroup(overflow[k], SlotId(missing[k]));
      OnlyRank(groups, missing[k]);
      if group.keywords != [] || fill {
        byId := byId[SlotId(missing[k]) := group];
      }
    }
    AllPlaced(groups, byId, placed, fill);
  }

  method NormalizeIncludeKeywordGroups(groups: seq<Group>, fill: bool) returns (ordered: seq<Group>)
    ensures ordered == Normalized(groups, fill)
  {
    var byId, overflow := SortIntoSlots(groups);
    var missing := MissingSlots(groups, byId);
    byId := FillMissing(groups, byId, overflow, missing, fill);
    ordered := [];
    for i := 0 to GROUP_COUNT
      invariant ordered == EntriesUpTo(groups, i, fill)
    {
      if SlotId(i) !in byId {
        if fill {
          ordered := ordered + [Group(SlotId(i), DefaultLabel(SlotId(i)), [])];
        }
      } else if byId[SlotId(i)].keywords != [] || fill {
        ordered := ordered + [byId[SlotId(i)]];
      }
    }
  }

  ghost predicate Filled(groups: seq<Group>, byId: map<string, Group>, fill: bool) {
    forall i: nat :: i < GROUP_COUNT ==>
                       if SlotId(i) in byId then Slot(groups, i) == Some(byId[SlotId(i)])
                       else Slot(groups, i).None? || (Slot(groups, i).value.keywords == [] && !fill)
  }

  lemma AllPlaced(groups: seq<Group>, byId: map<string, Group>, placed: nat, fill: bool)
    requires Placed(groups, byId, placed, fill)
    requires placed == |Overflow(groups)| || placed == MissingBefore(groups, GROUP_COUNT)
    ensures Filled(groups, byId, fill)
  {
    forall i: nat | i < GROUP_COUNT && Named(groups, SlotId(i)).None?
      ensures MissingBefore(groups, i) < MissingBefore(groups, GROUP_COUNT)
    {
      assert MissingBefore(groups, 3) >= MissingBefore(groups, 2);
      assert MissingBefore(groups, 2) >= MissingBefore(groups, 1) >= MissingBefore(groups, 0);
    }
  }

  /** No other unnamed slot has the same rank. */
  lemma OnlyRank(groups: seq<Group>, i: nat)
    requires i < GROUP_COUNT && Named(groups, SlotId(i)).None?
    ensures forall j: nat :: j < GROUP_COUNT && j != i && Named(groups, SlotId(j)).None? ==>
                               MissingBefore(groups, j) != MissingBefore(groups, i)
    ensures forall j: nat :: j < GROUP_COUNT && j != i ==> SlotId(j) != SlotId(i)
  {
    assert forall j: nat :: j < GROUP_COUNT && SlotId(j)[0] == SlotId(i)[0] ==> j == i;
  }
}
