/** application/sidebar_layout_service.py: accepted sidebar layouts are partitions of the targets. */
module SidebarLayout {
  import opened Options
  import opened Text

  type Id = string

  /** One section of a placement payload; no group is the ungrouped section. */
  datatype Section = Section(group: Option<Id>, ids: seq<Id>)

  datatype Placement = Placement(group: Option<Id>, order: nat)

  datatype LayoutError = BlankId | DuplicateGroups | WrongGroups | DuplicateSections | UnknownGroup | WrongTargets
    | DuplicateTargets | PlacementsAreGrouped

  // ---- ids ----

  function Strips(values: seq<string>): (r: seq<string>)
    ensures |r| == |values| && forall i :: 0 <= i < |r| ==> r[i] == Strip(values[i])
  {
    seq(|values|, i requires 0 <= i < |values| => Strip(values[i]))
  }

  /** _unique_ids */
  function UniqueIds(values: seq<string>): Result<seq<Id>, LayoutError> {
    if "" in Strips(values) then Err(BlankId) else Ok(Dedupe(Strips(values)))
  }

  ghost predicate Distinct(values: seq<string>) {
    forall i, j :: 0 <= i < j < |values| ==> values[i] != values[j]
  }

  /** The values are the members of the set, each exactly once. */
  ghost predicate Enumerates(values: seq<string>, all: set<string>) {
    multiset(values) == multiset(all)
  }

  lemma {:induction false} DedupeSize(values: seq<string>)
    ensures |Dedupe(values)| <= |values|
    ensures |Dedupe(values)| == |values| <==> Distinct(values)
  {
    if values != [] {
      var init, last := values[..|values| - 1], values[|values| - 1];
      DedupeSize(init);
      DistinctSnoc(init, last);
      assert values == init + [last];
    }
  }

  lemma DistinctSnoc(init: seq<string>, last: string)
    ensures Distinct(init + [last]) <==> Distinct(init) && last !in init
  {
    var values := init + [last];
    assert forall k :: 0 <= k < |init| ==> init[k] == values[k];
    if last in init {
      var k :| 0 <= k < |init| && init[k] == last;
      assert values[k] == values[|init|];
    }
  }

  lemma {:induction false} DistinctCounts(values: seq<string>)
    requires Distinct(values)
    ensures forall x :: multiset(values)[x] == if x in values then 1 else 0
  {
    if values != [] {
      var init, last := values[..|values| - 1], values[|values| - 1];
      DistinctCounts(init);
      assert values == init + [last];
      assert multiset(values) == multiset(init) + multiset{last};
      assert last !in init;
    }
  }

  /** Listing a set is being distinct and having the same members. */
  lemma EnumeratesMeans(values: seq<string>, all: set<string>)
    ensures Enumerates(values, all) <==> Distinct(values) && forall x :: x in values <==> x in all
  {
    if Distinct(values) && forall x :: x in values <==> x in all {
      DistinctCounts(values);
      assert multiset(values) == multiset(all);
    }
    if Enumerates(values, all) {
      forall x ensures x in values <==> x in all {
        assert x in multiset(values) <==> x in multiset(all);
      }
      forall i, j | 0 <= i < j < |values| ensures values[i] != values[j] {
        assert values == values[..j] + [values[j]] + values[j + 1..];
        assert multiset(values)[values[j]] == 1;
        assert values[i] == values[..j][i];
        assert multiset(values) == multiset(values[..j]) + multiset{values[j]} + multiset(values[j + 1..]);
      }
    }
  }

  // ---- validation ----

  /** _validate_group_order: None accepts. */
  function GroupOrderError(known: set<Id>, ids: seq<Id>): Option<LayoutError> {
    match UniqueIds(ids)
    case Err(e) => Some(e)
    case Ok(unique) =>
      if |unique| != |ids| then Some(DuplicateGroups)
      else if (set x | x in unique) != known then Some(WrongGroups)
      else None
  }

  function SectionNames(sections: seq<Section>): (r: seq<string>)
    ensures |r| == |sections|
    ensures forall k :: 0 <= k < |r| ==> r[k] == sections[k].group.GetOr("__ungrouped__")
  {
    seq(|sections|, k requires 0 <= k < |sections| => sections[k].group.GetOr("__ungrouped__"))
  }

  function Flattened(sections: seq<Section>): seq<Id> {
    if sections == [] then [] else Flattened(sections[..|sections| - 1]) + sections[|sections| - 1].ids
  }

  predicate KnownGroups(groups: set<Id>, sections: seq<Section>) {
    forall k :: 0 <= k < |sections| && sections[k].group.Some? ==> sections[k].group.value in groups
  }

  /** The verdict on a placement payload: the number of targets, or the first error found. */
  function PlacementVerdict(groups: set<Id>, targets: set<Id>, sections: seq<Section>): Result<nat, LayoutError> {
    match UniqueIds(SectionNames(sections))
    case Err(e) => Err(e)
    case Ok(names) =>
      if |names| != |sections| then Err(DuplicateSections)
      else if !KnownGroups(groups, sections) then Err(UnknownGroup)
      else
        match UniqueIds(Flattened(sections))
        case Err(e) => Err(e)
        case Ok(ids) =>
          if (set x | x in ids) != targets then Err(WrongTargets)
          else if |ids| != |Flattened(sections)| then Err(DuplicateTargets)
          else Ok(|ids|)
  }

  /** _validate_placements */
  method ValidatePlacements(groups: set<Id>, targets: set<Id>, sections: seq<Section>)
    returns (r: Result<nat, LayoutError>)
    ensures r == PlacementVerdict(groups, targets, sections)
  {
    var names := UniqueIds(SectionNames(sections));
    if names.Err? {
      return Err(names.error);
    }
    if |sections| != |names.value| {
      return Err(DuplicateSections);
    }
    if !KnownGroups(groups, sections) {
      return Err(UnknownGroup);
    }
    var flattened: seq<Id> := [];
    for k := 0 to |sections|
      invariant flattened == Flattened(sections[..k])
    {
      assert sections[..k + 1][..k] == sections[..k];
      flattened := flattened + sections[k].ids;
    }
    assert sections[..|sections|] == sections;
    var ids := UniqueIds(flattened);
    if ids.Err? {
      return Err(ids.error);
    }
    if (set x | x in ids.value) != targets {
      return Err(WrongTargets);
    }
    if |ids.value| != |flattened| {
      return Err(DuplicateTargets);
    }
    return Ok(|ids.value|);
  }

  /** Main result: a group order is accepted just when, trimmed, it lists every known group exactly once. */
  lemma GroupOrderAccepted(known: set<Id>, ids: seq<Id>)
    ensures GroupOrderError(known, ids) == None <==> "" !in Strips(ids) && Enumerates(Strips(ids), known)
  {
    DedupeSize(Strips(ids));
    EnumeratesMeans(Strips(ids), known);
    if "" !in Strips(ids) {
      var unique := Dedupe(Strips(ids));
      assert (set x | x in unique) == known <==> forall x :: x in Strips(ids) <==> x in known;
    }
  }

  /** Section names that are not blank and differ once trimmed, all of known groups. */
  ghost predicate ProperSections(groups: set<Id>, sections: seq<Section>) {
    "" !in Strips(SectionNames(sections)) && Distinct(Strips(SectionNames(sections))) && KnownGroups(groups, sections)
  }

  /** Main result: a placement payload is accepted just when its sections are proper and its ids, trimmed, list every
      known target exactly once over all sections. */
  lemma PlacementsAccepted(groups: set<Id>, targets: set<Id>, sections: seq<Section>)
    ensures PlacementVerdict(groups, targets, sections).Ok? <==>
            && ProperSections(groups, sections)
            && "" !in Strips(Flattened(sections)) && Enumerates(Strips(Flattened(sections)), targets)
    ensures PlacementVerdict(groups, targets, sections).Ok? ==>
              PlacementVerdict(groups, targets, sections).value == |targets|
  {
    var flat := Strips(Flattened(sections));
    DedupeSize(Strips(SectionNames(sections)));
    DedupeSize(flat);
    EnumeratesMeans(flat, targets);
    var ids := Dedupe(flat);
    assert (set x | x in ids) == targets <==> forall x :: x in flat <==> x in targets;
    if Enumerates(flat, targets) {
      assert |multiset(flat)| == |multiset(targets)|;
    }
  }

  lemma SameMembers(ids: seq<Id>, all: set<Id>)
    ensures (set x | x in Dedupe(ids)) == all <==> forall t :: t in ids <==> t in all
  {
    assert (set x | x in Dedupe(ids)) == all <==> forall t :: t in Dedupe(ids) <==> t in all;
  }

  /** Main result: the error names the first check that fails. */
  lemma ErrorsAreFirst(groups: set<Id>, targets: set<Id>, sections: seq<Section>, e: LayoutError)
    ensures
      var names, ids := Strips(SectionNames(sections)), Strips(Flattened(sections));
      var namesFine := "" !in names && Distinct(names) && KnownGroups(groups, sections);
      PlacementVerdict(groups, targets, sections) == Err(e) <==>
      || (e == BlankId && ("" in names || (namesFine && "" in ids)))
      || (e == DuplicateSections && "" !in names && !Distinct(names))
      || (e == UnknownGroup && "" !in names && Distinct(names) && !KnownGroups(groups, sections))
      || (e == WrongTargets && namesFine && "" !in ids && exists x :: (x in ids) != (x in targets))
      || (e == DuplicateTargets && namesFine && "" !in ids && (forall x :: x in ids <==> x in targets)
          && !Distinct(ids))
  {
    DedupeSize(Strips(SectionNames(sections)));
    var ids := Strips(Flattened(sections));
    DedupeSize(ids);
    SameMembers(ids, targets);
  }

  lemma OrderErrorsAreFirst(known: set<Id>, ids: seq<Id>, e: LayoutError)
    ensures
      GroupOrderError(known, ids) == Some(e) <==>
      || (e == BlankId && "" in Strips(ids))
      || (e == DuplicateGroups && "" !in Strips(ids) && !Distinct(Strips(ids)))
      || (e == WrongGroups && "" !in Strips(ids) && Distinct(Strips(ids))
          && exists x :: (x in Strips(ids)) != (x in known))
  {
    DedupeSize(Strips(ids));
    SameMembers(Strips(ids), known);
  }

  // ---- writing ----

  type Placements = map<Id, Placement>

  /** The first n ids of a section upserted with their positions. */
  function PlaceIds(before: Placements, group: Option<Id>, ids: seq<Id>, n: nat): Placements
    requires n <= |ids|
  {
    if n == 0 then before else PlaceIds(before, group, ids, n - 1)[ids[n - 1] := Placement(group, n - 1)]
  }

  function PlaceSections(before: Placements, sections: seq<Section>): Placements {
    if sections == [] then before
    else
      var last := sections[|sections| - 1];
      PlaceIds(PlaceSections(before, sections[..|sections| - 1]), last.group, last.ids, |last.ids|)
  }

  /** The first n ids updated with their positions; ids of no group are ignored. */
  function OrderGroups(before: map<Id, nat>, ids: seq<Id>, n: nat): map<Id, nat>
    requires n <= |ids|
  {
    if n == 0 then before
    else
      var init := OrderGroups(before, ids, n - 1);
      if ids[n - 1] in init then init[ids[n - 1] := n - 1] else init
  }

  function TrimmedSections(sections: seq<Section>): (r: seq<Section>)
    ensures |r| == |sections|
    ensures forall k :: 0 <= k < |r| ==> r[k] == Section(sections[k].group, Strips(sections[k].ids))
  {
    seq(|sections|, k requires 0 <= k < |sections| => Section(sections[k].group, Strips(sections[k].ids)))
  }

  lemma {:induction false} FlattenedTrimmed(sections: seq<Section>)
    ensures Flattened(TrimmedSections(sections)) == Strips(Flattened(sections))
  {
    if sections != [] {
      var n := |sections| - 1;
      FlattenedTrimmed(sections[..n]);
      assert TrimmedSections(sections)[..n] == TrimmedSections(sections[..n]);
      assert Strips(Flattened(sections[..n]) + sections[n].ids)
          == Strips(Flattened(sections[..n])) + Strips(sections[n].ids);
    }
  }

  lemma {:induction false} FlattenedHolds(sections: seq<Section>, id: Id)
    ensures id in Flattened(sections) <==> exists k :: 0 <= k < |sections| && id in sections[k].ids
  {
    if sections != [] {
      var n := |sections| - 1;
      FlattenedHolds(sections[..n], id);
      if k :| 0 <= k < n && id in sections[..n][k].ids {
        assert id in sections[k].ids;
      }
      if k :| 0 <= k < |sections| && id in sections[k].ids {
        assert k < n ==> id in sections[..n][k].ids;
      }
    }
  }

  lemma {:induction false} PlaceIdsHolds(before: Placements, group: Option<Id>, ids: seq<Id>, n: nat)
    requires n <= |ids| && Distinct(ids)
    ensures forall id :: id in PlaceIds(before, group, ids, n) <==> id in before || id in ids[..n]
    ensures forall j :: 0 <= j < n ==> ids[j] in PlaceIds(before, group, ids, n)
                                       && PlaceIds(before, group, ids, n)[ids[j]] == Placement(group, j)
    ensures forall id :: id in before && id !in ids[..n] ==> PlaceIds(before, group, ids, n)[id] == before[id]
  {
    if n > 0 {
      PlaceIdsHolds(before, group, ids, n - 1);
      assert ids[..n] == ids[..n - 1] + [ids[n - 1]];
      assert forall j :: 0 <= j < n - 1 ==> ids[j] != ids[n - 1];
    }
  }

  /** Writing sections without repeated ids: every id ends where its section puts it, the others stay. */
  lemma {:induction false} PlaceSectionsHolds(before: Placements, sections: seq<Section>)
    requires Distinct(Flattened(sections))
    ensures forall id :: id in PlaceSections(before, sections) <==> id in before || id in Flattened(sections)
    ensures forall k, j :: 0 <= k < |sections| && 0 <= j < |sections[k].ids| ==>
                             && sections[k].ids[j] in PlaceSections(before, sections)
                             && PlaceSections(before, sections)[sections[k].ids[j]] == Placement(sections[k].group, j)
    ensures forall id :: id in before && id !in Flattened(sections) ==>
                           PlaceSections(before, sections)[id] == before[id]
  {
    if sections != [] {
      var n := |sections| - 1;
      var init, last := sections[..n], sections[n];
      var flat := Flattened(init);
      assert Flattened(sections) == flat + last.ids;
      forall i, j | 0 <= i < j < |flat| ensures flat[i] != flat[j] {
        assert Flattened(sections)[i] == flat[i] && Flattened(sections)[j] == flat[j];
      }
      forall i, j | 0 <= i < j < |last.ids| ensures last.ids[i] != last.ids[j] {
        assert Flattened(sections)[|flat| + i] == last.ids[i] && Flattened(sections)[|flat| + j] == last.ids[j];
      }
      forall id | id in flat ensures id !in last.ids {
        var i :| 0 <= i < |flat| && flat[i] == id;
        assert forall j :: 0 <= j < |last.ids| ==> last.ids[j] == Flattened(sections)[|flat| + j];
        assert Flattened(sections)[i] == id;
      }
      PlaceSectionsHolds(before, init);
      PlaceIdsHolds(PlaceSections(before, init), last.group, last.ids, |last.ids|);
      assert last.ids[..|last.ids|] == last.ids;
      forall k, j | 0 <= k < |sections| && 0 <= j < |sections[k].ids|
        ensures sections[k].ids[j] in PlaceSections(before, sections)
        ensures PlaceSections(before, sections)[sections[k].ids[j]] == Placement(sections[k].group, j)
      {
        if k < n {
          assert init[k].ids[j] in init[k].ids;
          FlattenedHolds(init, init[k].ids[j]);
        }
      }
    }
  }

  /** Target t, trimmed, stands at place j of section k. */
  ghost predicate At(sections: seq<Section>, k: int, j: int, t: Id) {
    0 <= k < |sections| && 0 <= j < |sections[k].ids| && Strip(sections[k].ids[j]) == t
  }

  /** The layout the payload asks for: every listed target at its place in its section, the rest as before. */
  ghost predicate LaidOut(before: Placements, after: Placements, targets: set<Id>, sections: seq<Section>) {
    && (forall id :: id in after <==> id in before || id in targets)
    && (forall k, j, t :: At(sections, k, j, t) ==> t in after && after[t] == Placement(sections[k].group, j))
    && (forall id :: id in before && id !in targets ==> after[id] == before[id])
  }

  lemma AcceptedIsLaidOut(before: Placements, groups: set<Id>, targets: set<Id>, sections: seq<Section>)
    requires PlacementVerdict(groups, targets, sections).Ok?
    ensures LaidOut(before, PlaceSections(before, TrimmedSections(sections)), targets, sections)
  {
    PlacementsAccepted(groups, targets, sections);
    EnumeratesMeans(Strips(Flattened(sections)), targets);
    FlattenedTrimmed(sections);
    TrimmedIsLaidOut(before, targets, sections);
  }

  lemma TrimmedIsLaidOut(before: Placements, targets: set<Id>, sections: seq<Section>)
    requires Distinct(Flattened(TrimmedSections(sections)))
    requires forall id :: id in Flattened(TrimmedSections(sections)) <==> id in targets
    ensures LaidOut(before, PlaceSections(before, TrimmedSections(sections)), targets, sections)
  {
    var trimmed := TrimmedSections(sections);
    PlaceSectionsHolds(before, trimmed);
    assert forall k, j, t :: At(sections, k, j, t) ==> trimmed[k].ids[j] == t && trimmed[k].group == sections[k].group;
  }

  /** Main result: an accepted payload is a true partition. Sections differ, every known target stands at exactly one
      place of exactly one section, and nothing else stands anywhere. */
  lemma AcceptedIsPartition(groups: set<Id>, targets: set<Id>, sections: seq<Section>)
    requires PlacementVerdict(groups, targets, sections).Ok?
    ensures forall k, m :: 0 <= k < m < |sections| ==> sections[k].group != sections[m].group
    ensures forall t :: t in targets <==> exists k, j :: At(sections, k, j, t)
    ensures forall t, k, j, m, i :: At(sections, k, j, t) && At(sections, m, i, t) ==> k == m && j == i
  {
    PlacementsAccepted(groups, targets, sections);
    var flat := Strips(Flattened(sections));
    EnumeratesMeans(flat, targets);
    AcceptedIsLaidOut(map[], groups, targets, sections);
    forall k, m | 0 <= k < m < |sections| ensures sections[k].group != sections[m].group {
      assert Strips(SectionNames(sections))[k] != Strips(SectionNames(sections))[m];
    }
    forall t ensures t in targets <==> exists k, j :: At(sections, k, j, t) {
      FlattenedTrimmed(sections);
      FlattenedHolds(TrimmedSections(sections), t);
      if t in targets {
        var k :| 0 <= k < |sections| && t in TrimmedSections(sections)[k].ids;
        var j :| 0 <= j < |sections[k].ids| && TrimmedSections(sections)[k].ids[j] == t;
        assert At(sections, k, j, t);
      }
    }
  }

  /** Main result: an accepted group order numbers the known groups from 0 without gaps or repetition. */
  lemma {:induction false} OrderIsPermutation(before: map<Id, nat>, ids: seq<Id>, n: nat)
    requires n <= |ids| && Distinct(ids) && forall id :: id in ids <==> id in before
    ensures OrderGroups(before, ids, n).Keys == before.Keys
    ensures forall i :: 0 <= i < n ==> ids[i] in before && OrderGroups(before, ids, n)[ids[i]] == i
  {
    if n > 0 {
      OrderIsPermutation(before, ids, n - 1);
      assert ids[n - 1] in ids;
      forall i | 0 <= i < n - 1 ensures ids[i] != ids[n - 1] {
      }
    }
  }

  /** The group order the payload asks for. */
  ghost predicate Reordered(before: map<Id, nat>, after: map<Id, nat>, ids: seq<Id>) {
    && after.Keys == before.Keys
    && (forall i :: 0 <= i < |ids| ==> Strip(ids[i]) in after && after[Strip(ids[i])] == i)
  }

  lemma AcceptedOrder(known: set<Id>, ids: seq<Id>)
    requires GroupOrderError(known, ids) == None
    ensures UniqueIds(ids) == Ok(Strips(ids)) && Distinct(Strips(ids))
    ensures forall id :: id in Strips(ids) <==> id in known
  {
    GroupOrderAccepted(known, ids);
    EnumeratesMeans(Strips(ids), known);
    UniqueIsStripped(ids);
  }

  lemma AcceptedIsReordered(before: map<Id, nat>, ids: seq<Id>)
    requires Distinct(Strips(ids)) && forall id :: id in Strips(ids) <==> id in before
    ensures Reordered(before, OrderGroups(before, Strips(ids), |ids|), ids)
  {
    OrderIsPermutation(before, Strips(ids), |ids|);
    var after, trimmed := OrderGroups(before, Strips(ids), |ids|), Strips(ids);
    forall i | 0 <= i < |ids| ensures Strip(ids[i]) in after && after[Strip(ids[i])] == i {
      assert trimmed[i] == Strip(ids[i]);
    }
  }

  lemma UniqueIsStripped(ids: seq<Id>)
    requires "" !in Strips(ids) && Distinct(Strips(ids))
    ensures UniqueIds(ids) == Ok(Strips(ids))
  {
    DedupeDistinct(Strips(ids));
  }

  /** Within an accepted payload no section repeats an id, so trimming is all that _unique_ids does. */
  lemma SectionIdsAreUnique(groups: set<Id>, targets: set<Id>, sections: seq<Section>)
    requires PlacementVerdict(groups, targets, sections).Ok?
    ensures forall k :: 0 <= k < |sections| ==> UniqueIds(sections[k].ids) == Ok(Strips(sections[k].ids))
  {
    PlacementsAccepted(groups, targets, sections);
    AcceptedIsPartition(groups, targets, sections);
    FlattenedTrimmed(sections);
    forall k | 0 <= k < |sections| ensures UniqueIds(sections[k].ids) == Ok(Strips(sections[k].ids)) {
      OneSectionIsUnique(sections, k);
    }
  }

  lemma OneSectionIsUnique(sections: seq<Section>, k: nat)
    requires k < |sections| && "" !in Flattened(TrimmedSections(sections))
    requires forall t, j, i :: At(sections, k, j, t) && At(sections, k, i, t) ==> j == i
    ensures UniqueIds(sections[k].ids) == Ok(Strips(sections[k].ids))
  {
    var ids := Strips(sections[k].ids);
    assert TrimmedSections(sections)[k].ids == ids;
    FlattenedHolds(TrimmedSections(sections), "");
    forall i, j | 0 <= i < j < |ids| ensures ids[i] != ids[j] {
      assert At(sections, k, i, ids[i]) && At(sections, k, j, ids[j]);
    }
    UniqueIsStripped(sections[k].ids);
  }

  lemma OneSectionHolds(before: Placements, ids: seq<Id>)
    requires Distinct(ids)
    ensures forall id :: id in PlaceSections(before, [Section(None, ids)]) <==> id in before || id in ids
    ensures forall i :: 0 <= i < |ids| ==>
                          && ids[i] in PlaceSections(before, [Section(None, ids)])
                          && PlaceSections(before, [Section(None, ids)])[ids[i]] == Placement(None, i)
  {
    PlaceIdsHolds(before, None, ids, |ids|);
    assert ids[..|ids|] == ids;
    assert [Section(None, ids)][..0] == [];
    assert PlaceSections(before, [Section(None, ids)]) == PlaceIds(before, None, ids, |ids|);
  }

  /** The layout tables and the service over them. */
  class SidebarLayoutService {
    var groups: map<Id, nat>
    var placements: Placements
    var targets: set<Id>

    constructor (groups: map<Id, nat>, placements: Placements, targets: set<Id>)
      ensures this.groups == groups && this.placements == placements && this.targets == targets
    {
      this.groups, this.placements, this.targets := groups, placements, targets;
    }

    /** The repository's save_group_order: one UPDATE per id. */
    method StoreGroupOrder(ids: seq<Id>)
      modifies this`groups
      ensures groups == OrderGroups(old(groups), ids, |ids|)
    {
      for i := 0 to |ids|
        invariant groups == OrderGroups(old(groups), ids, i)
      {
        if ids[i] in groups {
          groups := groups[ids[i] := i];
        }
      }
    }

    /** The repository's save_group_placements: one upsert per target. */
    method StoreGroupPlacements(sections: seq<Section>)
      modifies this`placements
      ensures placements == PlaceSections(old(placements), sections)
    {
      for k := 0 to |sections|
        invariant placements == PlaceSections(old(placements), sections[..k])
      {
        var section := sections[k];
        ghost var before := placements;
        for j := 0 to |section.ids|
          invariant placements == PlaceIds(before, section.group, section.ids, j)
        {
          placements := placements[section.ids[j] := Placement(section.group, j)];
        }
        assert sections[..k + 1][..k] == sections[..k];
      }
      assert sections[..|sections|] == sections;
    }

    /** [(group_id, _unique_ids(target_ids)) for ...] over an accepted payload. */
    method UniqueSections(sections: seq<Section>) returns (r: seq<Section>)
      requires forall k :: 0 <= k < |sections| ==> UniqueIds(sections[k].ids) == Ok(Strips(sections[k].ids))
      ensures r == TrimmedSections(sections)
    {
      r := [];
      for k := 0 to |sections|
        invariant r == TrimmedSections(sections)[..k]
      {
        var unique := UniqueIds(sections[k].ids).value;
        assert TrimmedSections(sections)[k] == Section(sections[k].group, unique);
        r := r + [Section(sections[k].group, unique)];
      }
      assert TrimmedSections(sections)[..|sections|] == TrimmedSections(sections);
    }

    method WriteGroupOrder(groupIds: seq<Id>)
      requires GroupOrderError(groups.Keys, groupIds) == None
      modifies this`groups
      ensures Reordered(old(groups), groups, groupIds)
    {
      AcceptedOrder(groups.Keys, groupIds);
      AcceptedIsReordered(groups, groupIds);
      StoreGroupOrder(UniqueIds(groupIds).value);
    }

    method WritePlacements(ghost known: set<Id>, sections: seq<Section>)
      requires PlacementVerdict(known, targets, sections).Ok?
      modifies this`placements
      ensures LaidOut(old(placements), placements, targets, sections)
    {
      SectionIdsAreUnique(known, targets, sections);
      AcceptedIsLaidOut(placements, known, targets, sections);
      var unique := UniqueSections(sections);
      StoreGroupPlacements(unique);
    }

    method SaveGroupOrder(groupIds: seq<Id>) returns (error: Option<LayoutError>)
      modifies this`groups
      ensures error == GroupOrderError(old(groups).Keys, groupIds)
      ensures if error == None then Reordered(old(groups), groups, groupIds) else groups == old(groups)
    {
      error := GroupOrderError(groups.Keys, groupIds);
      if error == None {
        WriteGroupOrder(groupIds);
      }
    }

    method SavePlacements(sections: seq<Section>) returns (r: Result<nat, LayoutError>)
      modifies this`placements
      ensures r == PlacementVerdict(groups.Keys, targets, sections)
      ensures if r.Ok? then LaidOut(old(placements), placements, targets, sections) else placements == old(placements)
    {
      r := ValidatePlacements(groups.Keys, targets, sections);
      if r.Ok? {
        WritePlacements(groups.Keys, sections);
      }
    }

    /** Both or neither: the payload's order and placements are written only when both are valid. */
    method SaveLayout(groupIds: seq<Id>, sections: seq<Section>) returns (r: Result<nat, LayoutError>)
      modifies this`groups, this`placements
      ensures match GroupOrderError(old(groups).Keys, groupIds)
              case Some(e) => r == Err(e)
              case None => r == PlacementVerdict(old(groups).Keys, targets, sections)
      ensures r.Ok? ==> Reordered(old(groups), groups, groupIds)
      ensures r.Ok? ==> LaidOut(old(placements), placements, targets, sections)
      ensures r.Err? ==> groups == old(groups) && placements == old(placements)
    {
      var error := GroupOrderError(groups.Keys, groupIds);
      if error.Some? {
        return Err(error.value);
      }
      r := ValidatePlacements(groups.Keys, targets, sections);
      if r.Err? {
        return;
      }
      ghost var known := groups.Keys;
      WriteGroupOrder(groupIds);
      WritePlacements(known, sections);
    }

    /** The flat order: only while nothing is grouped; repeated ids are dropped rather than refused. */
    method SaveTargetOrder(targetIds: seq<Id>) returns (r: Result<nat, LayoutError>)
      modifies this`placements
      ensures r.Ok? <==> && (forall id :: id in old(placements) ==> old(placements)[id].group == None)
                         && "" !in Strips(targetIds) && (forall t :: t in Strips(targetIds) <==> t in targets)
      ensures r.Ok? ==> forall id :: id in placements <==> id in old(placements) || id in targets
      ensures r.Ok? ==> forall i :: 0 <= i < |Dedupe(Strips(targetIds))| ==>
                          var t := Dedupe(Strips(targetIds))[i];
                          t in placements && placements[t] == Placement(None, i)
      ensures r.Err? ==> placements == old(placements)
    {
      if exists id :: id in placements && placements[id].group.Some? {
        return Err(PlacementsAreGrouped);
      }
      var ids := UniqueIds(targetIds);
      if ids.Err? {
        return Err(ids.error);
      }
      SameMembers(Strips(targetIds), targets);
      if (set x | x in ids.value) != targets {
        return Err(WrongTargets);
      }
      OneSectionHolds(placements, ids.value);
      StoreGroupPlacements([Section(None, ids.value)]);
      return Ok(|ids.value|);
    }
  }
}
