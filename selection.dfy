/** Which configured group decides a player's flags, and the lists shown in
    chat messages (src/SteamGroupCheckPlugin.cs: `GetPrimaryGroup`,
    `GetFlagsForGroups`, `BuildFlagList`, `BuildGroupList`). The catalog is
    the sorted list `BuildConfiguredGroups` produced. */
module Selection {
  import opened Text
  import opened ConfigModel
  import opened Catalog

  /** The ids of the catalog's groups. */
  function CatalogIds(catalog: seq<ConfiguredGroup>): set<UInt64> {
    set g | g in catalog :: g.groupId
  }

  /** No two flags of a list are equal ignoring case. */
  predicate FlagsDistinct(flags: seq<string>) {
    forall i, j | 0 <= i < j < |flags| :: Fold(flags[i]) != Fold(flags[j])
  }

  /** Every group's flag list is de-duplicated, as `ParseFlags` leaves it. */
  predicate WellFormedCatalog(catalog: seq<ConfiguredGroup>) {
    forall g | g in catalog :: FlagsDistinct(g.grantedFlags)
  }

  /** The catalog `BuildConfiguredGroups` builds is well formed. */
  lemma BuiltCatalogWellFormed(groups: seq<Option<GroupEntry>>, fallback: GroupEntry)
    ensures WellFormedCatalog(SortCatalog(CollectGroups(groups, fallback)))
  {
    var collected := CollectGroups(groups, fallback);
    var catalog := SortCatalog(collected);
    CollectGroupsEntries(groups, fallback);
    forall g | g in catalog
      ensures FlagsDistinct(g.grantedFlags)
    {
      assert g in multiset(catalog);
      assert g in collected;
      assert FromEntry(groups, g, fallback);
      var e := groups[g.configIndex].value;
      ToConfiguredFields(e, g.configIndex, fallback);
      ParsedFlagsDeduplicate(RawFlag(e, fallback));
    }
  }

  // ---------------------------------------------------------------------------
  // GetPrimaryGroup and GetFlagsForGroups

  /** The position of the first catalog entry whose id is in `ids`. */
  function FirstMatch(catalog: seq<ConfiguredGroup>, ids: set<UInt64>): (r: Option<nat>)
    ensures r.Some? ==> r.value < |catalog| && catalog[r.value].groupId in ids
                        && forall j | 0 <= j < r.value :: catalog[j].groupId !in ids
    ensures r.None? ==> forall j | 0 <= j < |catalog| :: catalog[j].groupId !in ids
  {
    if |catalog| == 0 then None
    else if catalog[0].groupId in ids then Some(0)
    else
      match FirstMatch(catalog[1..], ids)
      case None => None
      case Some(k) => Some(k + 1)
  }

  /** `GetPrimaryGroup`: the first catalog entry the player is a member of;
      failing that, the catalog's first entry; None for an empty catalog. */
  function GetPrimaryGroup(catalog: seq<ConfiguredGroup>, ids: set<UInt64>): (r: Option<ConfiguredGroup>)
    ensures r.Some? <==> |catalog| > 0
    ensures (exists k | 0 <= k < |catalog| :: catalog[k].groupId in ids) ==>
              exists k | 0 <= k < |catalog| :: r == Some(catalog[k]) && catalog[k].groupId in ids
                                               && forall j | 0 <= j < k :: catalog[j].groupId !in ids
    ensures (forall k | 0 <= k < |catalog| :: catalog[k].groupId !in ids) ==>
              r == if |catalog| == 0 then None else Some(catalog[0])
  {
    var match_ := if |ids| > 0 then FirstMatch(catalog, ids) else None;
    if match_.Some? then Some(catalog[match_.value])
    else if |catalog| == 0 then None
    else Some(catalog[0])
  }

  /** On a sorted catalog the primary group outranks every group the player
      belongs to: no member group has a higher priority, and among equal
      priorities it was declared first. */
  lemma PrimaryOutranksMemberGroups(catalog: seq<ConfiguredGroup>, ids: set<UInt64>, k: nat)
    requires SortedByRank(catalog)
    requires k < |catalog| && catalog[k].groupId in ids
    ensures GetPrimaryGroup(catalog, ids).Some?
    ensures RankLe(GetPrimaryGroup(catalog, ids).value, catalog[k])
  {
    var m := FirstMatch(catalog, ids);
    assert m.Some? && m.value <= k;
    assert GetPrimaryGroup(catalog, ids) == Some(catalog[m.value]);
  }

  /** Two groups a player belongs to, declared with priorities 5 and 10: the
      priority-10 group sorts first and is primary. */
  lemma HigherPriorityGroupWins(low: ConfiguredGroup, high: ConfiguredGroup)
    requires low.groupId == 1 && low.priority == 5 && low.configIndex == 0
    requires high.groupId == 2 && high.priority == 10 && high.configIndex == 1
    ensures SortCatalog([low, high]) == [high, low]
    ensures GetPrimaryGroup(SortCatalog([low, high]), {1, 2}) == Some(high)
  {
    assert [low, high][..1] == [low];
    assert SortCatalog([low]) == [low];
  }

  /** `GetFlagsForGroups`: no flags without memberships, otherwise exactly
      the flags of the primary group. */
  function GetFlagsForGroups(catalog: seq<ConfiguredGroup>, ids: set<UInt64>): (r: seq<string>)
    ensures |ids| == 0 ==> r == []
    ensures r == [] || exists k | 0 <= k < |catalog| :: r == catalog[k].grantedFlags
  {
    if |ids| == 0 then []
    else
      match GetPrimaryGroup(catalog, ids)
      case None => []
      case Some(primary) => if |primary.grantedFlags| == 0 then [] else primary.grantedFlags
  }

  /** A member of some configured group gets exactly the flags of the first
      such group in catalog order, never a union. */
  lemma MemberGetsPrimaryFlags(catalog: seq<ConfiguredGroup>, ids: set<UInt64>, k: nat)
    requires k < |catalog| && catalog[k].groupId in ids
    requires forall j | 0 <= j < k :: catalog[j].groupId !in ids
    ensures GetFlagsForGroups(catalog, ids) == catalog[k].grantedFlags
  {
    assert |ids| > 0 by {
      assert catalog[k].groupId in ids;
    }
    var m := FirstMatch(catalog, ids);
    assert m == Some(k);
  }

  /** Member ids that match no configured group (stale ids) still select the
      catalog's first entry, so its flags are granted. */
  lemma StaleIdsGetFirstEntryFlags(catalog: seq<ConfiguredGroup>, ids: set<UInt64>)
    requires |ids| > 0 && |catalog| > 0
    requires forall k | 0 <= k < |catalog| :: catalog[k].groupId !in ids
    ensures GetFlagsForGroups(catalog, ids) == catalog[0].grantedFlags
  {
  }

  // ---------------------------------------------------------------------------
  // BuildFlagList and BuildGroupList

  /** Every group's flags, in catalog order. */
  function AllFlags(groups: seq<ConfiguredGroup>): seq<string> {
    if |groups| == 0 then []
    else AllFlags(groups[..|groups| - 1]) + groups[|groups| - 1].grantedFlags
  }

  /** `BuildFlagList`: the groups' flags with case-insensitive duplicates
      removed, first spelling kept, joined with ", ". */
  method BuildFlagList(groups: seq<ConfiguredGroup>) returns (r: string)
    ensures r == JoinComma(KeepFirsts(AllFlags(groups)))
  {
    var flags: seq<string> := [];
    var seen: set<string> := {};
    var i := 0;
    while i < |groups|
      invariant 0 <= i <= |groups|
      invariant flags == KeepFirsts(AllFlags(groups[..i]))
      invariant seen == FoldSet(flags)
    {
      assert groups[..i + 1][..i] == groups[..i];
      flags, seen := AddUnseen(flags, seen, AllFlags(groups[..i]), groups[i].grantedFlags);
      i := i + 1;
    }
    assert groups[..|groups|] == groups;
    r := if |flags| == 0 then "" else JoinComma(flags);
  }

  /** The flag list names every flag of the groups, each once ignoring case. */
  lemma FlagListComplete(groups: seq<ConfiguredGroup>)
    ensures FoldSet(KeepFirsts(AllFlags(groups))) == FoldSet(AllFlags(groups))
    ensures FlagsDistinct(KeepFirsts(AllFlags(groups)))
  {
    KeepFirstsKeys(AllFlags(groups));
    KeepFirstsUnique(AllFlags(groups));
  }

  /** The display names that are not blank, in order. */
  function NonBlankNames(groups: seq<ConfiguredGroup>): seq<string> {
    if |groups| == 0 then []
    else
      var name := groups[|groups| - 1].displayName;
      NonBlankNames(groups[..|groups| - 1]) + (if Blank(name) then [] else [name])
  }

  lemma {:induction false} NonBlankNamesProperties(groups: seq<ConfiguredGroup>)
    ensures forall k | 0 <= k < |NonBlankNames(groups)| :: !Blank(NonBlankNames(groups)[k])
    ensures |NonBlankNames(groups)| == 0 <==> forall k | 0 <= k < |groups| :: Blank(groups[k].displayName)
  {
    if |groups| > 0 {
      var init := groups[..|groups| - 1];
      NonBlankNamesProperties(init);
      assert forall k | 0 <= k < |init| :: init[k] == groups[k];
    }
  }

  /** `BuildGroupList`: the non-blank display names joined with ", ", or
      "N/A" when there are none; the result is never blank. */
  function BuildGroupList(groups: seq<ConfiguredGroup>): (r: string)
    ensures !Blank(r)
    ensures (forall k | 0 <= k < |groups| :: Blank(groups[k].displayName)) ==> r == "N/A"
  {
    var names := NonBlankNames(groups);
    NonBlankNamesProperties(groups);
    if |names| == 0 then
      assert !IsWhiteSpace("N/A"[0]);
      "N/A"
    else
      JoinCommaNonBlank(names);
      JoinComma(names)
  }
}
