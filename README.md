# Steam group check — a verified model

The plugin gives players of a Counter-Strike 2 server permission flags
according to the Steam groups they belong to. An operator configures a list
of groups. Each group has a Steam group id, the flags it grants, an optional
display name and a priority. When a player is authorized, the plugin asks the
Steam Web API (`GetUserGroupList`) which groups the player is in. It keeps
only the configured ones and caches a positive answer for a while. It then
reconciles the player's flags: the flags of the highest-ranked group the
player belongs to are granted, with up to three attempts, and flags no
longer required are revoked. On disconnect the flags are revoked. At every
round start they are applied again. Players in no group are periodically sent
an advertisement.

This project models that core in Dafny, in nine modules:

- `Text` (`text.dfy`): white space, `Trim`, ordinal case-insensitive
  comparison, de-duplication that keeps first spellings, and decimal parsing
  and formatting (`ulong.TryParse`, `int.TryParse`).
- `Json` (`json.dfy`): parsed JSON values and the integer accessors of
  `System.Text.Json`.
- `ConfigModel` (`config.dfy`, `src/Config.cs`): the configuration and
  message records, `MessageConfig.ApplyDefaultsFrom`, and the two lenient
  JSON converters.
- `ConfigPaths` (`configs.dfy`, `src/Configs.cs`): where the configuration
  directory is.
- `Catalog` (`catalog.dfy`): `ParseFlags`, `BuildConfiguredGroups` with its
  stable priority sort, `NormalizeConfig`, the legacy-settings migration and
  `MaskSecret`.
- `Selection` (`selection.dfy`): the primary group, the flags it grants, and
  the flag and group lists shown in chat.
- `Membership` (`membership.dfy`): how a Steam answer becomes a
  `MembershipResult`.
- `Reconcile` (`reconcile.dfy`): the plugin's state transitions as functions
  of the old state, and the properties proved about them.
- `Plugin` (`plugin.dfy`): the class `SteamGroupCheck`. Its fields are the
  membership cache, the per-player snapshots, the log of requests made to the
  host, and the running advertisement interval. Each method changes those
  fields in place and is proved equal to the matching `Reconcile` transition;
  round start is proved equal to `Reconcile.RoundStart`, the fold of one
  player's refresh over the connected players.

Host effects (adding or removing a flag, sending a chat message) are modelled
as `Event` values appended to the `events` field. The clock is a
millisecond parameter. The Steam reply is an `ApiReply` parameter. The set
of connected players is a parameter.

Where the code and its documented intent differ, the model follows the code:

- An unparsable string in the `success` field (neither an integer nor a
  boolean) leaves success `true`, although the documented intent is that
  such a field counts as failure. See `Membership.UnparsableSuccessTextIsTrue`.
- `GetFlagsForGroups` with member ids of which none is configured (for
  example ids cached before a reload) falls back to the catalog's first
  group and grants its flags, although the documented intent is that the
  fallback never affects flags. See `Selection.StaleIdsGetFirstEntryFlags`.
- `ApplyMembershipAsync` does not look at `success`. An `Unknown` result
  therefore has no groups and no required flags, and revokes what the
  player held, as for a verified non-member.
- A verified non-member (empty set) is never cached, although the
  documentation once calls it cacheable.
- `RestartNonMemberAdBroadcast` floors the interval at one minute. Because
  it has already rejected intervals below one, that floor never changes the
  value (`Reconcile.AdInterval`).

## Model

| member | source | states |
|---|---|---|
| Text.TrimEmptyIffBlank | src/SteamGroupCheckPlugin.cs:1230-1233 | a string trims to empty exactly when `IsNullOrWhiteSpace` holds of it |
| Text.TrimIdempotent | src/SteamGroupCheckPlugin.cs:1227-1233 | trimming a trimmed string changes nothing |
| Text.TrimNotBlank | src/SteamGroupCheckPlugin.cs:1194 | trimming a non-blank name leaves it non-blank |
| Text.KeepFirstsKeys | src/SteamGroupCheckPlugin.cs:1234-1237 | de-duplication keeps every flag, ignoring case, and adds none |
| Text.KeepFirstsUnique | src/SteamGroupCheckPlugin.cs:1234-1237 | after de-duplication no two flags are equal ignoring case |
| Text.KeepFirstsAreFirst | src/SteamGroupCheckPlugin.cs:1234-1237 | each kept flag is the first spelling of its key in the input |
| Text.AddUnseen | src/SteamGroupCheckPlugin.cs:1228-1238 | adding items through a case-insensitive seen set extends the de-duplicated list exactly as de-duplicating the whole input would, and keeps the seen set equal to the list's keys |
| Text.ParseUInt64RoundTrip | src/SteamGroupCheckPlugin.cs:1186 | `ulong.TryParse` reads back the decimal text of every 64-bit unsigned id |
| Text.ParseIntegerText | src/Config.cs:196 | `int.TryParse` reads back the text `ToString` writes for any integer, negative ones included |
| Json.IntegerLiteralRoundTrip | src/Config.cs:193 | the reader's integer accessors read back the number text a writer produces |
| ConfigModel.Config.constructor | src/Config.cs:7-38 | a new configuration holds the documented defaults: key "REPLACE_ME", language "en", timeout 5, cache 120, ad interval 5, one default group |
| ConfigModel.MessageConfig.constructor | src/Config.cs:58-79 | new message settings hold the default templates |
| ConfigModel.MessageConfig.ApplyDefaultsFrom | src/Config.cs:81-128 | every blank template is replaced by the default's and the others are kept; the result is true exactly when some template was blank |
| ConfigModel.FilledFromNonBlank | src/Config.cs:81-128 | with non-blank defaults no template stays blank; with no blank template nothing changes |
| ConfigModel.ApplyDefaultsIdempotent | src/Config.cs:81-128 | a second pass with the same non-blank defaults finds nothing blank and changes nothing |
| ConfigModel.NonBlankTextsAreNonBlank | src/Config.cs:166-173 | the array's kept renderings are all non-blank, and none are kept exactly when every element renders blank |
| ConfigModel.ArrayTextEmpty | src/Config.cs:176 | an array reads as "" exactly when every element renders blank |
| ConfigModel.ReadArray | src/Config.cs:160-177 | a non-array reads as ""; an array reads as its non-blank element texts joined with ", " |
| ConfigModel.StringConverterRead | src/Config.cs:145-158 | a string token reads as its text, a number that fits Int64 as its decimal text, a boolean as "true"/"false", an array as its joined elements, null and objects as "" |
| ConfigModel.StringConverterWrite | src/Config.cs:179-182 | a setting is written as a JSON string, which the reader renders back as exactly the same text |
| ConfigModel.IntConverterRoundTrip | src/Config.cs:187-213 | an integer written by the converter, or quoted as a string, reads back as the same integer |
| ConfigModel.IntConverterDefaults | src/Config.cs:187-208 | booleans read as 1 and 0; null, arrays, objects, unparsable strings and out-of-range integers read as 0 |
| ConfigPaths.LastIndexOfJoin | src/Configs.cs:97-111 | in `x + sep + y`, where `y` holds no separator, the last separator is the one after `x` |
| ConfigPaths.FileNameWithoutExtensionOf | src/Configs.cs:107 | the module file `<dir>/<stem>.<ext>` yields the name `<stem>` |
| ConfigPaths.DeterminePluginFolderName | src/Configs.cs:97-111 | the folder name is the module directory's name, unless that name is "plugins" ignoring case and the module file's stem is not blank, in which case it is that stem |
| ConfigPaths.ResolveConfigDirectory | src/Configs.cs:74-95 | below the innermost `addons/counterstrikesharp/plugins` ancestor the result is `configs/plugins/<folder>`; without one it is the module directory's `config` |
| Catalog.SplitOn | src/SteamGroupCheckPlugin.cs:1227 | the pieces contain no ',' or ';', and all are blank when the input is |
| Catalog.TrimmedPiecesAreFlags | src/SteamGroupCheckPlugin.cs:1227-1233 | every kept piece is a flag token: non-blank, trimmed, no separator |
| Catalog.ParsedFlagsAreTokens | src/SteamGroupCheckPlugin.cs:1219-1241 | every parsed flag is non-blank, trimmed and free of ',' and ';' |
| Catalog.ParsedFlagsDeduplicate | src/SteamGroupCheckPlugin.cs:1219-1241 | the parsed flags are distinct ignoring case, each is the first spelling in the input, and together they cover every piece's key |
| Catalog.ParseFlags | src/SteamGroupCheckPlugin.cs:1219-1241 | the loop returns the trimmed non-blank pieces, first spellings kept, in input order |
| Catalog.ToConfiguredFields | src/SteamGroupCheckPlugin.cs:1185-1197 | an entry yields a group exactly when its id, or the fallback id when blank, parses; the group keeps that raw id, the parsed flags, the priority and the index |
| Catalog.ToConfiguredDisplayName | src/SteamGroupCheckPlugin.cs:1194 | a configured group's display name is never blank |
| Catalog.BlankFieldsFallBack | src/SteamGroupCheckPlugin.cs:1185-1192 | an entry with blank id and flag takes the fallback group's id and flags |
| Catalog.CollectGroupsIncreasing | src/SteamGroupCheckPlugin.cs:1178-1198 | the collected groups come in increasing configuration index, each index within the list |
| Catalog.CollectGroupsEntries | src/SteamGroupCheckPlugin.cs:1178-1198 | every collected group comes from the entry at its index, and every entry that yields a group is collected |
| Catalog.SortCatalog | src/SteamGroupCheckPlugin.cs:1200-1203 | the catalog is sorted by descending priority, then ascending index, and is a permutation of the collected groups |
| Catalog.BuildConfiguredGroups | src/SteamGroupCheckPlugin.cs:1169-1204 | the loop with its running index collects exactly the entries that yield groups, and the result is their sorted permutation |
| Catalog.ReadJsonElementAsString | src/SteamGroupCheckPlugin.cs:1087-1097 | null exactly for non-scalars; a scalar's text agrees with the string converter's rendering |
| Catalog.AttemptLegacyMigration | src/SteamGroupCheckPlugin.cs:1055-1085 | a group is migrated exactly when a legacy id or flag holds a scalar; it is one unnamed group of priority 0 |
| Catalog.LegacyMigrationKeepsSettings | src/SteamGroupCheckPlugin.cs:1055-1085 | old settings naming both a group and a flag migrate to exactly that group |
| Catalog.DefaultConfigWellFormed | src/Config.cs:7-56 | the built-in defaults need no repair and their group has a non-blank id and flag |
| Catalog.NormalizeIdempotent | src/SteamGroupCheckPlugin.cs:1099-1167 | with well-formed defaults, a repaired configuration needs no further repair and a second pass changes nothing |
| Catalog.NormalizeReportsChange | src/SteamGroupCheckPlugin.cs:1099-1167 | with well-formed defaults, the result is true exactly when the configuration changed |
| Catalog.NormalizeConfig | src/SteamGroupCheckPlugin.cs:1099-1167 | blank or out-of-range settings are replaced from the defaults, an empty group list is migrated or defaulted, and the result says whether any repair was needed |
| Catalog.NormalizeGroupEntries | src/SteamGroupCheckPlugin.cs:1139-1164 | each entry's blank id and flag take the fallback's, a blank name becomes null, other settings are untouched, and the result says whether some entry needed it |
| Catalog.MaskSecret | src/SteamGroupCheckPlugin.cs:134-145 | "<empty>" for a blank key; otherwise a string of the same length showing at most the last four characters, the rest '*' |
| Selection.BuiltCatalogWellFormed | src/SteamGroupCheckPlugin.cs:1169-1204 | every group of a built catalog has flags distinct ignoring case |
| Selection.FirstMatch | src/SteamGroupCheckPlugin.cs:1211 | the position of the first catalog group whose id is a member id, or none |
| Selection.GetPrimaryGroup | src/SteamGroupCheckPlugin.cs:1206-1217 | the first member group in catalog order; failing that the catalog's first group; none only for an empty catalog |
| Selection.PrimaryOutranksMemberGroups | src/SteamGroupCheckPlugin.cs:1206-1217 | on a sorted catalog the primary group ranks at least as high as every group the player belongs to |
| Selection.HigherPriorityGroupWins | src/SteamGroupCheckPlugin.cs:1200-1217 | of two member groups with priorities 5 and 10, the priority-10 group sorts first and is primary |
| Selection.GetFlagsForGroups | src/SteamGroupCheckPlugin.cs:977-987 | no member ids give no flags; otherwise the flags are those of one catalog group, never a union |
| Selection.MemberGetsPrimaryFlags | src/SteamGroupCheckPlugin.cs:977-987 | a member of some configured group gets exactly the flags of the first such group |
| Selection.StaleIdsGetFirstEntryFlags | src/SteamGroupCheckPlugin.cs:977-987 | member ids matching no configured group still get the first catalog group's flags |
| Selection.BuildFlagList | src/SteamGroupCheckPlugin.cs:519-536 | the loop returns all groups' flags, case-insensitive duplicates dropped with first spellings kept, joined with ", " |
| Selection.FlagListComplete | src/SteamGroupCheckPlugin.cs:519-536 | the flag list names every flag of the groups, each once ignoring case |
| Selection.NonBlankNamesProperties | src/SteamGroupCheckPlugin.cs:507-511 | the listed names are all non-blank, and none are listed exactly when every name is blank |
| Selection.BuildGroupList | src/SteamGroupCheckPlugin.cs:507-511 | the group list is never blank, and is "N/A" when every display name is blank |
| Membership.ParseBoolReads | src/SteamGroupCheckPlugin.cs:838 | `bool.TryParse` gives true (false) exactly for "true" ("false") in any case, once white space and NULs are trimmed |
| Membership.BoolTextRoundTrip | src/SteamGroupCheckPlugin.cs:838 | `bool.TryParse` reads back what `bool.ToString` writes |
| Membership.SuccessFromIntegerNumber | src/SteamGroupCheckPlugin.cs:832-834 | a numeric success field means success exactly when it is 1 |
| Membership.SuccessFromIntegerText | src/SteamGroupCheckPlugin.cs:835-837 | a string success field holding an integer means success exactly when it is 1 |
| Membership.NotAnInteger | src/SteamGroupCheckPlugin.cs:837 | text starting with anything but a digit, a sign or white space is not an integer |
| Membership.SuccessFromBoolText | src/SteamGroupCheckPlugin.cs:835-838 | a string success field holding a boolean means that boolean |
| Membership.UnparsableSuccessTextIsTrue | src/SteamGroupCheckPlugin.cs:823-843 | a success field reading "yes" leaves success true |
| Membership.TryParseGroupId | src/SteamGroupCheckPlugin.cs:891-906 | a parsed group id is never 0 |
| Membership.GroupIdTextRoundTrip | src/SteamGroupCheckPlugin.cs:891-906 | a non-zero id written as decimal text is read back; 0 is rejected |
| Membership.GroupIdNumberRoundTrip | src/SteamGroupCheckPlugin.cs:891-906 | a non-zero id written as a JSON number is read back; 0 is rejected |
| Membership.MatchedGroupIds | src/SteamGroupCheckPlugin.cs:865-879 | the matched ids are configured ids |
| Membership.MatchedGroupIdsExact | src/SteamGroupCheckPlugin.cs:865-879 | matching succeeds exactly when every element is an object, and then yields exactly the configured ids some element lists |
| Membership.MatchedGroupIdsFailsAfter | src/SteamGroupCheckPlugin.cs:865-879 | once an element is not an object, the whole listing fails |
| Membership.InterpretDocument | src/SteamGroupCheckPlugin.cs:820-888 | no document, a non-object root or no "response" object give Unknown; a reported failure or a missing "groups" array give a verified non-member; a successful answer holds only configured, non-zero ids; any other answer is Unknown |
| Membership.MatchedIdsNonZero | src/SteamGroupCheckPlugin.cs:865-879 | no matched id is 0 |
| Membership.QueryResult | src/SteamGroupCheckPlugin.cs:776-889 | a blank key, an empty catalog or a transport failure give Unknown; a failure status other than a private-profile 403 gives Unknown; a success status with no document, a non-object root or no "response" gives Unknown; a reported failure or a missing "groups" array gives a verified non-member; a success holds only configured non-zero ids; every failure is Unknown |
| Membership.PrivateProfileIsNotMember | src/SteamGroupCheckPlugin.cs:802-810 | a 403 whose body mentions a private profile is a verified non-member |
| Membership.ReportedFailureIsNotMember | src/SteamGroupCheckPlugin.cs:851-863 | an answer whose success field says failure is a verified non-member |
| Membership.ListingScenario | src/SteamGroupCheckPlugin.cs:865-879 | a listing of group 7 as text, group 42 as a number and an entry without gid, against a catalog of group 7, yields the verified set {7} |
| Membership.QueryGroupMembership | src/SteamGroupCheckPlugin.cs:776-889 | the guards, status checks and loop over the groups array compute exactly `QueryResult` |
| Reconcile.CacheTtl | src/SteamGroupCheckPlugin.cs:770 | an entry lives at least five seconds, and exactly the configured duration when that is five or more |
| Reconcile.Resolve | src/SteamGroupCheckPlugin.cs:731-774 | id 0 is Unknown with the cache untouched; a live entry answers without a query; otherwise the query's answer is returned and stored, with expiry now plus the TTL, exactly when cacheable; every other id keeps its entry unchanged |
| Reconcile.CacheExpiresAfterTtl | src/SteamGroupCheckPlugin.cs:746-774 | once the TTL of a stored answer has run out the entry is no longer live, and the next call returns the fresh query's answer |
| Reconcile.CachedAnswerServedWithinTtl | src/SteamGroupCheckPlugin.cs:731-774 | a stored answer is served again, unchanged and without a query, at any later time within its lifetime |
| Reconcile.FailuresAreNotCached | src/SteamGroupCheckPlugin.cs:764-768 | Unknown and verified non-member answers are not cached, so the next call queries again |
| Reconcile.ResolveStaysWithinCatalog | src/SteamGroupCheckPlugin.cs:731-774 | resolving through the Steam query keeps every cached id a configured id |
| Reconcile.DistinctKeyCount | src/SteamGroupCheckPlugin.cs:1022-1028 | a flag list without case-insensitive duplicates has as many keys as elements |
| Reconcile.SetsEqualFlagsOfDistinct | src/SteamGroupCheckPlugin.cs:1022-1028 | for duplicate-free lists, `SetsEqual` holds exactly when the key sets are equal |
| Reconcile.KeepFirstsOfDistinct | src/SteamGroupCheckPlugin.cs:968-972 | storing a duplicate-free flag list in a case-insensitive set keeps it as it is |
| Reconcile.ContainsFlag | src/SteamGroupCheckPlugin.cs:726-729 | true exactly when the flag's key is among the list's keys |
| Reconcile.WithoutKeys | src/SteamGroupCheckPlugin.cs:927-930 | dropping the elements with given keys leaves exactly the other keys |
| Reconcile.ExceptKeys | src/SteamGroupCheckPlugin.cs:927-930 | the case-insensitive difference holds exactly the keys of the first list not in the second, each once |
| Reconcile.ActionFlagsAppend | src/SteamGroupCheckPlugin.cs:934-966 | the grants (revocations) read from two logs in a row are those of the first followed by those of the second |
| Reconcile.ChangeLogFlags | src/SteamGroupCheckPlugin.cs:927-961 | a changing application schedules grants of exactly the flags to add and, for a connected player, revokes exactly the flags to remove, in order |
| Reconcile.ApplyLogFlags | src/SteamGroupCheckPlugin.cs:908-961 | an application that changes nothing logs nothing; otherwise its scheduled grants are, ignoring case, exactly the required flags not held and its revocations exactly the held flags no longer required (none for a player who left), each key once |
| Reconcile.ApplySnapshot | src/SteamGroupCheckPlugin.cs:908-975 | after applying, the player's snapshot holds the new groups and the de-duplicated required flags; other players are untouched |
| Reconcile.ApplyDifferences | src/SteamGroupCheckPlugin.cs:927-930 | the flags granted are, ignoring case, those required and not held; those revoked are those held and not required |
| Reconcile.MemberDetectedOnFirstMembership | src/SteamGroupCheckPlugin.cs:963-966 | the member-detected notice is sent exactly when the player goes from no groups to some groups |
| Reconcile.ApplyKeepsConsistent | src/SteamGroupCheckPlugin.cs:908-975 | applying keeps every snapshot's flags equal to what its groups require |
| Reconcile.ConsistentSnapshotIsUnchanged | src/SteamGroupCheckPlugin.cs:920-925 | on a well-formed catalog a consistent snapshot hits the early return |
| Reconcile.ApplyTwiceIsNoop | src/SteamGroupCheckPlugin.cs:908-975 | applying the same groups a second time changes no state and logs nothing |
| Reconcile.NextRetry | src/SteamGroupCheckPlugin.cs:709-717 | a retry follows exactly when fewer than three attempts were made |
| Reconcile.GrantAttemptCount | src/SteamGroupCheckPlugin.cs:669-724 | a grant chain makes at most three attempts |
| Reconcile.GrantSchedule | src/SteamGroupCheckPlugin.cs:709-717 | the attempts of a chain happen at 0, 500 and 1500 ms |
| Reconcile.DroppedFlagIsNotGranted | src/SteamGroupCheckPlugin.cs:677-681 | once new groups drop a flag, a pending attempt to grant it does nothing |
| Reconcile.DisconnectLog | src/SteamGroupCheckPlugin.cs:355-386 | nothing without a snapshot; otherwise a revocation for exactly the flags the snapshot recorded |
| Reconcile.NoGrantAfterDisconnect | src/SteamGroupCheckPlugin.cs:363 | after a disconnect no grant attempt for that player does anything |
| Reconcile.RoundStartKeepsConsistentPlayers | src/SteamGroupCheckPlugin.cs:989-1012 | on a well-formed catalog, a round start over consistent snapshots changes no snapshot and logs nothing |
| Reconcile.RoundStartPreservesConsistency | src/SteamGroupCheckPlugin.cs:989-1012 | a round start keeps every snapshot's flags equal to what its groups require |
| Reconcile.AdInterval | src/SteamGroupCheckPlugin.cs:582-603 | a loop runs exactly when the interval is positive and the template non-blank, with that interval |
| Reconcile.AdTargetsExact | src/SteamGroupCheckPlugin.cs:632-667 | the advertisement goes to exactly the connected players with a non-zero id, a snapshot and no groups |
| Reconcile.AdvertisedExactly | src/SteamGroupCheckPlugin.cs:632-667 | the advertisement is logged for a player exactly when they are connected, have an id and a snapshot, and belong to no group |
| Plugin.SteamGroupCheck.constructor | src/SteamGroupCheckPlugin.cs:40-46 | a loaded plugin has an empty cache, no snapshots, no requests and no loop |
| Plugin.SteamGroupCheck.TryGetCachedMembership | src/SteamGroupCheckPlugin.cs:746-762 | a live entry answers with its ids and stays; otherwise the answer is Unknown and the expired entry is removed |
| Plugin.SteamGroupCheck.StoreCachedMembership | src/SteamGroupCheckPlugin.cs:764-774 | the cache becomes `CacheAfterStore` of the old cache |
| Plugin.SteamGroupCheck.GetGroupMembership | src/SteamGroupCheckPlugin.cs:731-744 | the answer and the new cache are those of `Resolve` with the query's answer |
| Plugin.SteamGroupCheck.ApplyMembership | src/SteamGroupCheckPlugin.cs:908-975 | the snapshots become `ApplyState` and the requests logged are `ApplyLog` of the old snapshots |
| Plugin.SteamGroupCheck.RecordChange | src/SteamGroupCheckPlugin.cs:927-972 | grants, revocations for connected players and the notice are logged in that order, then the snapshot is replaced |
| Plugin.SteamGroupCheck.ScheduleGrants | src/SteamGroupCheckPlugin.cs:934-937 | one grant chain is started per flag to add, in order |
| Plugin.SteamGroupCheck.GrantAttempt | src/SteamGroupCheckPlugin.cs:669-724 | the flag is granted only while the snapshot holds it and the player is connected, and the next wait is `NextRetry` |
| Plugin.SteamGroupCheck.OnClientDisconnect | src/SteamGroupCheckPlugin.cs:355-386 | the snapshot is removed and every recorded flag revoked; a slot without an id changes nothing |
| Plugin.SteamGroupCheck.OnRoundStart | src/SteamGroupCheckPlugin.cs:989-1012 | the snapshots and the requests logged are those of `RoundStart`, each connected player with flags getting their stored groups applied again in turn; consistency is kept, and with consistent snapshots on a well-formed catalog nothing changes |
| Plugin.SteamGroupCheck.RefreshConnectedPlayer | src/SteamGroupCheckPlugin.cs:993-1003 | one player's turn changes the snapshots and the log exactly as `RefreshPlayer` does |
| Plugin.SteamGroupCheck.BroadcastNonMemberAdvertisement | src/SteamGroupCheckPlugin.cs:632-667 | one message to each connected player with an id, a snapshot and no groups; nothing for a blank template |
| Plugin.SteamGroupCheck.RestartNonMemberAdBroadcast | src/SteamGroupCheckPlugin.cs:582-603 | the running loop is replaced by one with `AdInterval`, or by none |
| Plugin.RoundStartStep | src/SteamGroupCheckPlugin.cs:999-1003 | re-applying a player's stored groups makes their flags those the groups require, and changes nothing when they already were |
| Plugin.RoundStartRefreshes | src/SteamGroupCheckPlugin.cs:989-1012 | after a round start no player appeared or disappeared, no groups changed, unprocessed players are untouched, and each processed player with flags holds exactly the flags their groups require |
| Plugin.RefreshStep | src/SteamGroupCheckPlugin.cs:993-1004 | processing one more connected player extends what round start has re-applied |

## Left out

- Case-insensitive comparison is ordinal ASCII case folding. `OrdinalIgnoreCase` on non-ASCII letters is not modelled.
- A null string is modelled as "", except a group's `Name`, where the code tells null from blank.
- Parsing JSON text, HTTP, the URL and the request time-out are not modelled. A Steam answer is an `ApiReply` value: a transport failure, or a status, a body and the parsed document.
- Concurrency is not modelled: the concurrent dictionaries, `async` tasks, `Server.NextFrame`, `Task.Delay` and cancellation tokens. Each step runs atomically. Revocations run in the same step as the snapshot change, and the players connected at that moment are a parameter. Each grant attempt is a separate `GrantAttempt` call, and the delay it returns stands for the `Task.Delay`.
- The advertisement loop's timing is left out. The model records the interval the loop runs with, and `BroadcastNonMemberAdvertisement` models one tick.
- Chat formatting is not modelled: `FormatMessage`, colour markup and `EscapeControlChars`. A chat message is an event naming its template.
- Host calls are not modelled, only recorded as events: `AdminManager`, player lookups and the player's `IsValid`/`IsBot` checks.
- `Load`, `Unload`, `LoadConfig`, `LoadLocalization`, `ResolveLanguagePath`, `ReloadConfig`, `HandleClientAuthorizedAsync`, `RespondGroupStatusAsync`, `OnGroupCheckCommand`, `BuildGroupUrlList`, logging and `ResolveModuleDirectory` are not modelled. They are file, console and host glue around the modelled operations.
- `ConfigModel.StringConverterRead`: a number that does not fit Int64 (one with a fraction or an exponent, or an integer beyond the Int64 range) is rendered by `double.ToString` in the source, which is not modelled. The model keeps the number's raw text, and the contract says nothing about that case.
- `Text.ParseSignedDecimal` and `Text.ParseUInt64`: `int.TryParse` and `ulong.TryParse` also accept trailing NUL characters, which the model rejects. The calls without a culture (`int.TryParse` on the `success` text, `ulong.TryParse` on group ids) use the current culture's sign symbols; the model accepts only '+' and '-', as the invariant culture does.
- `Catalog.MaskSecret` and `Text.Trim` count UTF-16 code units in the source. A Dafny `char` is a Unicode scalar value, so a key outside the Basic Multilingual Plane has a different length here.
- `ConfigModel.IntConverterRead`: a number with a fraction or an exponent is converted through a double and rounded in the source. Here it reads as 0. `int.TryParse` with `NumberStyles.Any` also accepts thousands separators, currency symbols, parentheses and exponents. This model accepts only white space, one sign and digits.
- `ConfigPaths.ResolveConfigDirectory`: paths are sequences of directory names, so Windows separators and `Path.GetFullPath` normalisation are not modelled. Creating the directory is left out.
- `Plugin.SteamGroupCheck.ApplyMembership`: the snapshot's case-insensitive `HashSet` is modelled as the de-duplicated list in first-occurrence order. The order of revocations and of the members of a set is therefore fixed, where the source leaves it to `HashSet` enumeration.
- A `SteamID` that the host cannot convert to a 64-bit id is modelled as `None` (disconnect) or 0 (round start, advertisement).
- `Catalog.NormalizeConfig`: configuration entries are values. The source repairs the `SteamGroupConfig` objects in place and, for an empty list, stores the defaults' own list object. That sharing between the configuration and the defaults is not modelled.
- Directories are non-empty sequences of names, from the root down, because `DirectoryInfo` always has a name.
