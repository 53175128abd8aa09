/** The group catalog of src/SteamGroupCheckPlugin.cs: flag-string parsing,
    the sorted catalog built from the configured groups, the repair of blank
    configuration fields (with the migration of the old single-group
    settings), and the masking of the API key in log lines. */
module Catalog {
  import opened Text
  import opened Json
  import opened ConfigModel

  /** A configured group whose id parsed: the record `ConfiguredGroup`. */
  datatype ConfiguredGroup = ConfiguredGroup(
    groupId: UInt64,
    displayName: string,
    grantedFlags: seq<string>,
    rawGroupId: string,
    priority: Int32,
    configIndex: nat)

  // ---------------------------------------------------------------------------
  // ParseFlags

  /** `Split(new[] { ',', ';' })` without options: the pieces between separators. */
  function SplitOn(s: string): (r: seq<string>)
    ensures |r| >= 1
    ensures forall k | 0 <= k < |r| :: ',' !in r[k] && ';' !in r[k]
    ensures Blank(s) ==> forall k | 0 <= k < |r| :: Blank(r[k])
  {
    if |s| == 0 then [""]
    else
      var init := SplitOn(s[..|s| - 1]);
      var c := s[|s| - 1];
      if c == ',' || c == ';' then init + [""]
      else init[..|init| - 1] + [init[|init| - 1] + [c]]
  }

  /** `TrimEntries | RemoveEmptyEntries`: each piece trimmed, the empty ones dropped. */
  function TrimmedPieces(pieces: seq<string>): seq<string> {
    if |pieces| == 0 then []
    else
      var t := Trim(pieces[|pieces| - 1]);
      TrimmedPieces(pieces[..|pieces| - 1]) + (if t == [] then [] else [t])
  }

  /** A single flag as `ParseFlags` keeps it. */
  predicate IsFlagToken(f: string) {
    f != [] && Trim(f) == f && ',' !in f && ';' !in f
  }

  /** Every piece kept is non-empty, already trimmed and free of separators. */
  lemma {:induction false} TrimmedPiecesAreFlags(pieces: seq<string>)
    requires forall k | 0 <= k < |pieces| :: ',' !in pieces[k] && ';' !in pieces[k]
    ensures forall k | 0 <= k < |TrimmedPieces(pieces)| :: IsFlagToken(TrimmedPieces(pieces)[k])
  {
    if |pieces| > 0 {
      var last := pieces[|pieces| - 1];
      TrimmedPiecesAreFlags(pieces[..|pieces| - 1]);
      TrimIdempotent(last);
      var t := Trim(last);
      assert ',' !in t && ';' !in t by {
        forall i | 0 <= i < |t|
          ensures t[i] != ',' && t[i] != ';'
        {
          assert t[i] in last;
        }
      }
      var init := TrimmedPieces(pieces[..|pieces| - 1]);
      var r := TrimmedPieces(pieces);
      assert r == init + (if t == [] then [] else [t]);
      forall k | 0 <= k < |r|
        ensures IsFlagToken(r[k])
      {
        if k < |init| {
          assert r[k] == init[k];
        } else {
          assert r[k] == t;
        }
      }
    }
  }

  /** Blank pieces leave nothing. */
  lemma {:induction false} TrimmedPiecesOfBlank(pieces: seq<string>)
    requires forall k | 0 <= k < |pieces| :: Blank(pieces[k])
    ensures TrimmedPieces(pieces) == []
  {
    if |pieces| > 0 {
      TrimmedPiecesOfBlank(pieces[..|pieces| - 1]);
      TrimEmptyIffBlank(pieces[|pieces| - 1]);
    }
  }

  /** The flags a raw flag string lists, in order, before de-duplication. */
  function SplitFlags(raw: string): seq<string> {
    TrimmedPieces(SplitOn(raw))
  }

  /** What `ParseFlags` returns: the first spelling of each flag, compared
      case-insensitively, in input order. */
  function ParsedFlags(raw: string): seq<string> {
    if Blank(raw) then [] else KeepFirsts(SplitFlags(raw))
  }

  /** Each parsed flag is non-empty, trimmed and free of separators. */
  lemma ParsedFlagsAreTokens(raw: string)
    ensures forall k | 0 <= k < |ParsedFlags(raw)| :: IsFlagToken(ParsedFlags(raw)[k])
  {
    if !Blank(raw) {
      TrimmedPiecesAreFlags(SplitOn(raw));
      KeepFirstsKeepsTokens(SplitFlags(raw));
    }
  }

  /** De-duplication keeps only items of its input, so only tokens. */
  lemma {:induction false} KeepFirstsKeepsTokens(c: seq<string>)
    requires forall k | 0 <= k < |c| :: IsFlagToken(c[k])
    ensures forall k | 0 <= k < |KeepFirsts(c)| :: IsFlagToken(KeepFirsts(c)[k])
  {
    if |c| > 0 {
      var init := c[..|c| - 1];
      assert forall k | 0 <= k < |init| :: init[k] == c[k];
      KeepFirstsKeepsTokens(init);
    }
  }

  /** No two parsed flags are equal ignoring case, each is the first spelling
      of its flag in the list, and together they name every listed flag. */
  lemma ParsedFlagsDeduplicate(raw: string)
    ensures forall i, j | 0 <= i < j < |ParsedFlags(raw)| :: Fold(ParsedFlags(raw)[i]) != Fold(ParsedFlags(raw)[j])
    ensures forall k | 0 <= k < |ParsedFlags(raw)| :: IsFirstOccurrence(SplitFlags(raw), ParsedFlags(raw)[k])
    ensures FoldSet(ParsedFlags(raw)) == FoldSet(SplitFlags(raw))
  {
    var split := SplitFlags(raw);
    if Blank(raw) {
      TrimmedPiecesOfBlank(SplitOn(raw));
    } else {
      KeepFirstsKeys(split);
      KeepFirstsUnique(split);
      KeepFirstsAreFirst(split);
    }
  }

  /** `ParseFlags`: splits on ',' and ';', trims, drops empty pieces and keeps
      the first spelling of each flag, tracking the keys seen so far. */
  method ParseFlags(rawFlags: string) returns (flags: seq<string>)
    ensures flags == ParsedFlags(rawFlags)
  {
    if Blank(rawFlags) {
      return [];
    }
    var split := SplitFlags(rawFlags);
    var seen: set<string>;
    flags, seen := AddUnseen([], {}, [], split);
    assert [] + split == split;
  }

  // ---------------------------------------------------------------------------
  // BuildConfiguredGroups

  /** `defaults.Groups.FirstOrDefault() ?? new SteamGroupConfig()`. */
  function Fallback(defaults: ConfigData): GroupEntry {
    if |defaults.groups| > 0 && defaults.groups[0].Some? then defaults.groups[0].value else DefaultGroupEntry
  }

  function RawGroupId(e: GroupEntry, fallback: GroupEntry): string {
    if Blank(e.groupId) then fallback.groupId else e.groupId
  }

  function RawFlag(e: GroupEntry, fallback: GroupEntry): string {
    if Blank(e.grantedFlag) then fallback.grantedFlag else e.grantedFlag
  }

  /** The catalog entry for the configuration entry at `index`, or None when
      its id does not parse as an unsigned 64-bit integer. */
  function ToConfigured(e: GroupEntry, index: nat, fallback: GroupEntry): Option<ConfiguredGroup> {
    var rawId := RawGroupId(e, fallback);
    match ParseUInt64(rawId)
    case None => None
    case Some(id) =>
      var displayName := if e.name.None? || Blank(e.name.value) then rawId else Trim(e.name.value);
      Some(ConfiguredGroup(id, displayName, ParsedFlags(RawFlag(e, fallback)), rawId, e.priority, index))
  }

  /** An entry is kept exactly when its id (or the fallback's, when blank)
      parses; it keeps its index and priority and takes its flags from its
      own flag string, or the fallback's when that is blank. */
  lemma ToConfiguredFields(e: GroupEntry, index: nat, fallback: GroupEntry)
    ensures var r := ToConfigured(e, index, fallback);
      && (r.Some? <==> ParseUInt64(RawGroupId(e, fallback)).Some?)
      && (r.Some? ==> r.value.configIndex == index && r.value.priority == e.priority
                      && r.value.rawGroupId == RawGroupId(e, fallback)
                      && r.value.groupId == ParseUInt64(RawGroupId(e, fallback)).value
                      && r.value.grantedFlags == ParsedFlags(RawFlag(e, fallback)))
  {
  }

  /** A kept entry's display name is never blank: a blank name falls back to the id. */
  lemma ToConfiguredDisplayName(e: GroupEntry, index: nat, fallback: GroupEntry)
    requires ToConfigured(e, index, fallback).Some?
    ensures !Blank(ToConfigured(e, index, fallback).value.displayName)
  {
    var rawId := RawGroupId(e, fallback);
    if e.name.None? || Blank(e.name.value) {
      ParsedNotBlank(rawId);
    } else {
      TrimNotBlank(e.name.value);
    }
  }

  /** A blank id or flag behaves exactly as the first default group's would. */
  lemma BlankFieldsFallBack(e: GroupEntry, index: nat, fallback: GroupEntry)
    requires Blank(e.groupId) && Blank(e.grantedFlag)
    ensures ToConfigured(e, index, fallback).Some? <==> ParseUInt64(fallback.groupId).Some?
    ensures ToConfigured(e, index, fallback).Some? ==>
              ToConfigured(e, index, fallback).value.groupId == ParseUInt64(fallback.groupId).value
              && ToConfigured(e, index, fallback).value.grantedFlags == ParsedFlags(fallback.grantedFlag)
  {
  }

  /** What one configuration slot yields: nothing for a null slot. */
  function Slot(slot: Option<GroupEntry>, index: nat, fallback: GroupEntry): Option<ConfiguredGroup> {
    if slot.Some? then ToConfigured(slot.value, index, fallback) else None
  }

  /** `f` applied to each element of `s` together with its position. */
  function MapIndexed<A, B>(s: seq<A>, f: (A, nat) -> B): (r: seq<B>)
    ensures |r| == |s|
  {
    if |s| == 0 then [] else MapIndexed(s[..|s| - 1], f) + [f(s[|s| - 1], |s| - 1)]
  }

  lemma {:induction false} MapIndexedAt<A, B>(s: seq<A>, f: (A, nat) -> B)
    ensures forall i | 0 <= i < |s| :: MapIndexed(s, f)[i] == f(s[i], i)
  {
    if |s| > 0 {
      var n := |s| - 1;
      MapIndexedAt(s[..n], f);
      forall i | 0 <= i < n
        ensures MapIndexed(s, f)[i] == f(s[i], i)
      {
        assert s[..n][i] == s[i];
      }
    }
  }

  /** What each configuration slot yields, by position. */
  function Candidates(groups: seq<Option<GroupEntry>>, fallback: GroupEntry): (r: seq<Option<ConfiguredGroup>>)
    ensures |r| == |groups|
  {
    MapIndexed(groups, (slot: Option<GroupEntry>, i: nat) => Slot(slot, i, fallback))
  }

  lemma CandidatesAt(groups: seq<Option<GroupEntry>>, fallback: GroupEntry)
    ensures forall i | 0 <= i < |groups| :: Candidates(groups, fallback)[i] == Slot(groups[i], i, fallback)
  {
    MapIndexedAt(groups, (slot: Option<GroupEntry>, i: nat) => Slot(slot, i, fallback));
  }

  lemma CandidatesIndexed(groups: seq<Option<GroupEntry>>, fallback: GroupEntry)
    ensures forall i | 0 <= i < |groups| && Candidates(groups, fallback)[i].Some? ::
              Candidates(groups, fallback)[i].value.configIndex == i
  {
    CandidatesAt(groups, fallback);
    forall i | 0 <= i < |groups| && Slot(groups[i], i, fallback).Some?
      ensures Slot(groups[i], i, fallback).value.configIndex == i
    {
    }
  }

  /** The values present in a sequence of options, in order. */
  function Present(c: seq<Option<ConfiguredGroup>>): seq<ConfiguredGroup> {
    if |c| == 0 then []
    else Present(c[..|c| - 1]) + (if c[|c| - 1].Some? then [c[|c| - 1].value] else [])
  }

  lemma {:induction false} PresentMembers(c: seq<Option<ConfiguredGroup>>)
    ensures forall x :: x in Present(c) <==> Some(x) in c
  {
    if |c| > 0 {
      PresentMembers(c[..|c| - 1]);
      assert c == c[..|c| - 1] + [c[|c| - 1]];
    }
  }

  /** When every value sits at the position its index names, the present
      values come out with strictly increasing indices below `|c|`. */
  lemma {:induction false} PresentIncreasing(c: seq<Option<ConfiguredGroup>>)
    requires forall i | 0 <= i < |c| && c[i].Some? :: c[i].value.configIndex == i
    ensures forall k | 0 <= k < |Present(c)| :: Present(c)[k].configIndex < |c|
    ensures forall i, j | 0 <= i < j < |Present(c)| :: Present(c)[i].configIndex < Present(c)[j].configIndex
  {
    if |c| > 0 {
      var init := Present(c[..|c| - 1]);
      PresentIncreasing(c[..|c| - 1]);
      var r := Present(c);
      forall k | 0 <= k < |r|
        ensures r[k].configIndex < |c| && (k < |init| ==> r[k] == init[k])
      {
        if k < |init| {
          assert r[k] == init[k];
        }
      }
    }
  }

  /** The entries that parse, in configuration order, each tagged with its
      position in the configuration list (skipped entries still use one). */
  function CollectGroups(groups: seq<Option<GroupEntry>>, fallback: GroupEntry): seq<ConfiguredGroup> {
    Present(Candidates(groups, fallback))
  }

  /** Collected entries have distinct, increasing configuration indices. */
  lemma CollectGroupsIncreasing(groups: seq<Option<GroupEntry>>, fallback: GroupEntry)
    ensures var r := CollectGroups(groups, fallback);
      && (forall k | 0 <= k < |r| :: r[k].configIndex < |groups|)
      && (forall i, j | 0 <= i < j < |r| :: r[i].configIndex < r[j].configIndex)
  {
    CandidatesIndexed(groups, fallback);
    PresentIncreasing(Candidates(groups, fallback));
  }

  /** `g` is the catalog entry the configuration entry at its index yields. */
  predicate FromEntry(groups: seq<Option<GroupEntry>>, g: ConfiguredGroup, fallback: GroupEntry) {
    g.configIndex < |groups| && groups[g.configIndex].Some?
    && ToConfigured(groups[g.configIndex].value, g.configIndex, fallback) == Some(g)
  }

  /** Every collected entry comes from the configuration entry at its index,
      and every configuration entry whose id parses is collected. */
  lemma CollectGroupsEntries(groups: seq<Option<GroupEntry>>, fallback: GroupEntry)
    ensures forall g | g in CollectGroups(groups, fallback) :: FromEntry(groups, g, fallback)
    ensures forall i | 0 <= i < |groups| && groups[i].Some? && ToConfigured(groups[i].value, i, fallback).Some? ::
              ToConfigured(groups[i].value, i, fallback).value in CollectGroups(groups, fallback)
  {
    var c := Candidates(groups, fallback);
    PresentMembers(c);
    CandidatesIndexed(groups, fallback);
    forall g | g in CollectGroups(groups, fallback)
      ensures FromEntry(groups, g, fallback)
    {
      var i :| 0 <= i < |c| && c[i] == Some(g);
      CandidatesAt(groups, fallback);
    }
    forall i | 0 <= i < |groups| && groups[i].Some? && ToConfigured(groups[i].value, i, fallback).Some?
      ensures ToConfigured(groups[i].value, i, fallback).value in CollectGroups(groups, fallback)
    {
      CandidatesAt(groups, fallback);
      assert c[i] == ToConfigured(groups[i].value, i, fallback);
    }
  }

  /** `OrderByDescending(Priority).ThenBy(ConfigIndex)`: `a` may come before `b`. */
  predicate RankLe(a: ConfiguredGroup, b: ConfiguredGroup) {
    a.priority > b.priority || (a.priority == b.priority && a.configIndex <= b.configIndex)
  }

  predicate SortedByRank(s: seq<ConfiguredGroup>) {
    forall i, j | 0 <= i < j < |s| :: RankLe(s[i], s[j])
  }

  function Insert(x: ConfiguredGroup, s: seq<ConfiguredGroup>): (r: seq<ConfiguredGroup>)
    requires SortedByRank(s)
    ensures SortedByRank(r)
    ensures multiset(r) == multiset(s) + multiset{x}
    ensures |r| == |s| + 1
    ensures r[0] == x || (|s| > 0 && r[0] == s[0])
  {
    if |s| == 0 then [x]
    else if RankLe(x, s[0]) then [x] + s
    else
      var rest := Insert(x, s[1..]);
      assert s == [s[0]] + s[1..];
      assert RankLe(s[0], rest[0]);
      [s[0]] + rest
  }

  /** The catalog order: a stable sort by descending priority, then by
      ascending configuration index. */
  function SortCatalog(s: seq<ConfiguredGroup>): (r: seq<ConfiguredGroup>)
    ensures SortedByRank(r)
    ensures multiset(r) == multiset(s)
    ensures |r| == |s|
  {
    if |s| == 0 then []
    else
      assert s == s[..|s| - 1] + [s[|s| - 1]];
      Insert(s[|s| - 1], SortCatalog(s[..|s| - 1]))
  }

  /** `BuildConfiguredGroups`: walks the configuration list with a running
      index, keeps the entries whose id parses and sorts the result. */
  method BuildConfiguredGroups(config: Config, defaults: ConfigData) returns (catalog: seq<ConfiguredGroup>)
    ensures catalog == SortCatalog(CollectGroups(config.groups, Fallback(defaults)))
  {
    var list: seq<ConfiguredGroup> := [];
    var fallback := Fallback(defaults);
    var groups := config.groups;
    var configIndex := 0;
    while configIndex < |groups|
      invariant 0 <= configIndex <= |groups|
      invariant list == CollectGroups(groups[..configIndex], fallback)
    {
      var currentIndex := configIndex;
      configIndex := configIndex + 1;
      assert groups[..configIndex][..currentIndex] == groups[..currentIndex];
      match groups[currentIndex]
      case None =>
      case Some(group) =>
        var rawId := if Blank(group.groupId) then fallback.groupId else group.groupId;
        var parsedId := ParseUInt64(rawId);
        if parsedId.Some? {
          var flag := if Blank(group.grantedFlag) then fallback.grantedFlag else group.grantedFlag;
          var parsedFlags := ParseFlags(flag);
          var displayName := if group.name.None? || Blank(group.name.value) then rawId else Trim(group.name.value);
          list := list + [ConfiguredGroup(parsedId.value, displayName, parsedFlags, rawId, group.priority, currentIndex)];
        }
    }
    assert groups[..|groups|] == groups;
    catalog := SortCatalog(list);
  }

  // ---------------------------------------------------------------------------
  // NormalizeConfig and AttemptLegacyMigration

  /** `ReadJsonElementAsString`: the text of a scalar, null for anything else. */
  function ReadJsonElementAsString(e: JsonValue): (r: Option<string>)
    ensures r.None? <==> !(e.JString? || e.JNumber? || e.JBool?)
    ensures r.Some? ==> r.value == ReadElementAsString(e)
  {
    match e
    case JString(s) => Some(s)
    case JNumber(raw) => Some(raw)
    case JBool(b) => Some(if b then "true" else "false")
    case _ => None
  }

  function LegacyValue(extra: map<string, JsonValue>, key: string): Option<string> {
    if key in extra then ReadJsonElementAsString(extra[key]) else None
  }

  function OrFallback(v: Option<string>, fallback: string): string {
    if v.None? || Blank(v.value) then fallback else v.value
  }

  /** The one group the old `TargetSteamGroupId`/`GrantedFlag` settings
      describe, or None when neither setting holds a scalar. */
  function AttemptLegacyMigration(config: ConfigData, defaults: ConfigData): (r: Option<seq<Option<GroupEntry>>>)
    ensures r.Some? <==> config.extra.Some?
                         && (LegacyValue(config.extra.value, "TargetSteamGroupId").Some?
                             || LegacyValue(config.extra.value, "GrantedFlag").Some?)
    ensures r.Some? ==> |r.value| == 1 && r.value[0].Some? && r.value[0].value.name.None?
                        && r.value[0].value.priority == 0
  {
    match config.extra
    case None => None
    case Some(extra) =>
      var legacyGroupId := LegacyValue(extra, "TargetSteamGroupId");
      var legacyFlag := LegacyValue(extra, "GrantedFlag");
      if legacyGroupId.None? && legacyFlag.None? then None
      else
        var fallback := Fallback(defaults);
        Some([Some(GroupEntry(OrFallback(legacyGroupId, fallback.groupId), OrFallback(legacyFlag, fallback.grantedFlag), None, 0))])
  }

  /** An old-style file naming both a group and a flag migrates to exactly that group. */
  lemma LegacyMigrationKeepsSettings(extra: map<string, JsonValue>, config: ConfigData, defaults: ConfigData, id: string, flag: string)
    requires config.extra == Some(extra)
    requires "TargetSteamGroupId" in extra && extra["TargetSteamGroupId"] == JString(id) && !Blank(id)
    requires "GrantedFlag" in extra && extra["GrantedFlag"] == JString(flag) && !Blank(flag)
    ensures AttemptLegacyMigration(config, defaults) == Some([Some(GroupEntry(id, flag, None, 0))])
  {
  }

  predicate EntryNeedsNormalization(e: GroupEntry) {
    Blank(e.groupId) || Blank(e.grantedFlag) || (e.name.Some? && Blank(e.name.value))
  }

  function NormalizeEntry(e: GroupEntry, fallback: GroupEntry): GroupEntry {
    GroupEntry(
      if Blank(e.groupId) then fallback.groupId else e.groupId,
      if Blank(e.grantedFlag) then fallback.grantedFlag else e.grantedFlag,
      if e.name.Some? && Blank(e.name.value) then None else e.name,
      e.priority)
  }

  function NormalizeSlot(slot: Option<GroupEntry>, fallback: GroupEntry): Option<GroupEntry> {
    match slot
    case None => None
    case Some(e) => Some(NormalizeEntry(e, fallback))
  }

  function NormalizeGroups(groups: seq<Option<GroupEntry>>, fallback: GroupEntry): (r: seq<Option<GroupEntry>>)
    ensures |r| == |groups|
  {
    seq(|groups|, i requires 0 <= i < |groups| => NormalizeSlot(groups[i], fallback))
  }

  predicate SomeEntryNeedsNormalization(groups: seq<Option<GroupEntry>>) {
    exists i | 0 <= i < |groups| :: groups[i].Some? && EntryNeedsNormalization(groups[i].value)
  }

  /** The configuration after `NormalizeConfig`. */
  function Normalized(c: ConfigData, d: ConfigData): ConfigData {
    ConfigData(
      if Blank(c.steamApiKey) then d.steamApiKey else c.steamApiKey,
      if Blank(c.language) then d.language else c.language,
      if c.requestTimeoutSeconds <= 0 then d.requestTimeoutSeconds else c.requestTimeoutSeconds,
      if c.cacheDurationSeconds <= 0 then d.cacheDurationSeconds else c.cacheDurationSeconds,
      if c.nonMemberAdIntervalMinutes < 0 then d.nonMemberAdIntervalMinutes else c.nonMemberAdIntervalMinutes,
      if |c.groups| == 0 then
        (match AttemptLegacyMigration(c, d) case Some(gs) => gs case None => d.groups)
      else NormalizeGroups(c.groups, Fallback(d)),
      c.enableDebugLogging,
      c.extra)
  }

  /** The value `NormalizeConfig` returns: whether some field had to be repaired. */
  predicate NeedsNormalization(c: ConfigData, d: ConfigData) {
    Blank(c.language) || Blank(c.steamApiKey) || c.requestTimeoutSeconds <= 0
    || c.cacheDurationSeconds <= 0 || c.nonMemberAdIntervalMinutes < 0
    || |c.groups| == 0 || SomeEntryNeedsNormalization(c.groups)
  }

  /** Defaults that are themselves in repaired form, as `new Config()` is. */
  predicate WellFormedDefaults(d: ConfigData) {
    !Blank(d.language) && !Blank(d.steamApiKey) && d.requestTimeoutSeconds > 0
    && d.cacheDurationSeconds > 0 && d.nonMemberAdIntervalMinutes >= 0
    && |d.groups| > 0 && !SomeEntryNeedsNormalization(d.groups)
    && !Blank(Fallback(d).groupId) && !Blank(Fallback(d).grantedFlag)
  }

  lemma DefaultConfigWellFormed()
    ensures WellFormedDefaults(DefaultConfigData)
  {
    assert !IsWhiteSpace("en"[0]);
    assert !IsWhiteSpace("REPLACE_ME"[0]);
    assert !IsWhiteSpace("@abs/membre"[0]);
  }

  /** With well-formed defaults, the repaired configuration needs no further
      repair, so a second `NormalizeConfig` reports false and changes nothing. */
  lemma NormalizeIdempotent(c: ConfigData, d: ConfigData)
    requires WellFormedDefaults(d)
    ensures !NeedsNormalization(Normalized(c, d), d)
    ensures Normalized(Normalized(c, d), d) == Normalized(c, d)
  {
    var n := Normalized(c, d);
    var fb := Fallback(d);
    if |c.groups| > 0 {
      forall i | 0 <= i < |n.groups| && n.groups[i].Some?
        ensures !EntryNeedsNormalization(n.groups[i].value)
      {
        assert n.groups[i] == NormalizeSlot(c.groups[i], fb);
      }
    } else if AttemptLegacyMigration(c, d).Some? {
      var e := n.groups[0].value;
      assert !EntryNeedsNormalization(e);
      assert |n.groups| == 1;
    }
    assert n.groups == NormalizeGroups(n.groups, fb);
  }

  /** With well-formed defaults, `NormalizeConfig` reports a change exactly
      when the configuration changed. */
  lemma NormalizeReportsChange(c: ConfigData, d: ConfigData)
    requires WellFormedDefaults(d)
    ensures Normalized(c, d) == c <==> !NeedsNormalization(c, d)
  {
    var fb := Fallback(d);
    if !NeedsNormalization(c, d) {
      assert NormalizeGroups(c.groups, fb) == c.groups;
    } else if SomeEntryNeedsNormalization(c.groups) && |c.groups| > 0 {
      var i :| 0 <= i < |c.groups| && c.groups[i].Some? && EntryNeedsNormalization(c.groups[i].value);
      var e := c.groups[i].value;
      assert NormalizeGroups(c.groups, fb)[i] == Some(NormalizeEntry(e, fb));
      assert NormalizeEntry(e, fb) != e by {
        if Blank(e.groupId) {
          assert NormalizeEntry(e, fb).groupId == fb.groupId;
        } else if Blank(e.grantedFlag) {
          assert NormalizeEntry(e, fb).grantedFlag == fb.grantedFlag;
        } else {
          assert NormalizeEntry(e, fb).name.None?;
        }
      }
    }
  }

  /** `NormalizeConfig`: repairs blank or out-of-range settings from the
      defaults in place and reports whether anything was repaired. */
  method NormalizeConfig(config: Config, defaults: ConfigData) returns (updated: bool)
    modifies config
    ensures config.Data() == Normalized(old(config.Data()), defaults)
    ensures updated == NeedsNormalization(old(config.Data()), defaults)
  {
    ghost var before := config.Data();
    updated := false;

    if Blank(config.language) {
      config.language := defaults.language;
      updated := true;
    }

    if Blank(config.steamApiKey) {
      config.steamApiKey := defaults.steamApiKey;
      updated := true;
    }

    if config.requestTimeoutSeconds <= 0 {
      config.requestTimeoutSeconds := defaults.requestTimeoutSeconds;
      updated := true;
    }

    if config.cacheDurationSeconds <= 0 {
      config.cacheDurationSeconds := defaults.cacheDurationSeconds;
      updated := true;
    }

    if config.nonMemberAdIntervalMinutes < 0 {
      config.nonMemberAdIntervalMinutes := defaults.nonMemberAdIntervalMinutes;
      updated := true;
    }

    if |config.groups| == 0 {
      var migrated := AttemptLegacyMigration(config.Data(), defaults);
      config.groups := if migrated.Some? then migrated.value else defaults.groups;
      updated := true;
    } else {
      var groupsUpdated := NormalizeGroupEntries(config, Fallback(defaults));
      updated := updated || groupsUpdated;
    }
  }

  lemma SomeEntryNeedsNormalizationStep(groups: seq<Option<GroupEntry>>, i: nat)
    requires i < |groups|
    ensures SomeEntryNeedsNormalization(groups[..i + 1])
            == (SomeEntryNeedsNormalization(groups[..i]) || (groups[i].Some? && EntryNeedsNormalization(groups[i].value)))
  {
    assert groups[..i + 1] == groups[..i] + [groups[i]];
    if SomeEntryNeedsNormalization(groups[..i + 1]) {
      var j :| 0 <= j < i + 1 && groups[..i + 1][j].Some? && EntryNeedsNormalization(groups[..i + 1][j].value);
      if j < i {
        assert groups[..i][j] == groups[..i + 1][j];
      }
    }
    if SomeEntryNeedsNormalization(groups[..i]) {
      var j :| 0 <= j < i && groups[..i][j].Some? && EntryNeedsNormalization(groups[..i][j].value);
      assert groups[..i + 1][j] == groups[..i][j];
    }
  }

  lemma NormalizeGroupsStep(before: seq<Option<GroupEntry>>, fallback: GroupEntry, current: seq<Option<GroupEntry>>, i: nat)
    requires i < |before|
    requires current == NormalizeGroups(before, fallback)[..i] + before[i..]
    ensures current[i := NormalizeSlot(before[i], fallback)] == NormalizeGroups(before, fallback)[..i + 1] + before[i + 1..]
  {
  }

  /** The loop of `NormalizeConfig` over the configured groups: fills a blank
      id or flag from the fallback group and clears a blank name. */
  method NormalizeGroupEntries(config: Config, fallbackGroup: GroupEntry) returns (updated: bool)
    modifies config
    ensures config.groups == NormalizeGroups(old(config.groups), fallbackGroup)
    ensures updated == SomeEntryNeedsNormalization(old(config.groups))
    ensures config.Data() == old(config.Data()).(groups := config.groups)
  {
    ghost var before := config.groups;
    updated := false;
    var i := 0;
    while i < |config.groups|
      invariant 0 <= i <= |config.groups| == |before|
      invariant config.groups == NormalizeGroups(before, fallbackGroup)[..i] + before[i..]
      invariant updated == SomeEntryNeedsNormalization(before[..i])
      invariant config.Data() == old(config.Data()).(groups := config.groups)
      decreases |before| - i
    {
      SomeEntryNeedsNormalizationStep(before, i);
      NormalizeGroupsStep(before, fallbackGroup, config.groups, i);
      var slot := config.groups[i];
      if slot.Some? {
        var group := slot.value;
        if EntryNeedsNormalization(group) {
          updated := true;
        }
        config.groups := config.groups[i := Some(NormalizeEntry(group, fallbackGroup))];
      }
      i := i + 1;
    }
    assert before[..|before|] == before;
    assert NormalizeGroups(before, fallbackGroup)[..|before|] == NormalizeGroups(before, fallbackGroup);
  }

  // ---------------------------------------------------------------------------
  // MaskSecret

  function Stars(n: nat): (r: string)
    ensures |r| == n && forall i | 0 <= i < n :: r[i] == '*'
  {
    seq(n, _ => '*')
  }

  /** The API key as written to the log: "<empty>" when blank, otherwise a
      string of the same length that shows at most the last four characters. */
  function MaskSecret(value: string): (r: string)
    ensures Blank(value) ==> r == "<empty>"
    ensures !Blank(value) ==> |r| == |value|
    ensures !Blank(value) ==> forall i | 0 <= i < |value| ::
              r[i] == (if |value| > 4 && i >= |value| - 4 then value[i] else '*')
  {
    if Blank(value) then "<empty>"
    else if |value| <= 4 then Stars(|value|)
    else Stars(|value| - 4) + value[|value| - 4..]
  }
}
