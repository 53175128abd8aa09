/** The plugin's state transitions as functions of the old state
    (src/SteamGroupCheckPlugin.cs): the membership cache and the resolver in
    front of the Steam query, reconciliation of a player's flags with a
    membership result, the grant retry chain, disconnect clean-up and the
    advertisement rules. Host effects (a flag granted or revoked, a chat
    message) are events in a log; time is a number of milliseconds and the
    connected players are a parameter. */
module Reconcile {
  import opened Text
  import opened Catalog
  import opened Selection
  import opened Membership

  /** A cached membership: the member group ids and when they expire. */
  datatype CacheEntry = CacheEntry(memberGroupIds: set<UInt64>, expiresAt: int)

  /** What the plugin last applied to a player: their groups and the flags
      it granted them. */
  datatype Snapshot = Snapshot(memberGroupIds: set<UInt64>, grantedFlags: seq<string>)

  datatype Event =
    | GrantScheduled(steamId: UInt64, flag: string)
    | Granted(steamId: UInt64, flag: string, attempt: nat)
    | Revoked(steamId: UInt64, flag: string)
    | MemberDetected(steamId: UInt64, memberGroupIds: set<UInt64>)
    | Advertised(steamId: UInt64, template: string)

  function Max(a: int, b: int): int {
    if a >= b then a else b
  }

  // ---------------------------------------------------------------------------
  // Cache and resolver

  /** `TryGetCachedMembership` finds an entry that has not expired. */
  predicate CacheHit(cache: map<UInt64, CacheEntry>, steamId: UInt64, now: int) {
    steamId in cache && cache[steamId].expiresAt > now
  }

  /** How long a stored entry lives, in milliseconds: at least five seconds. */
  function CacheTtl(durationSeconds: int): (r: int)
    ensures r >= 5000 && (durationSeconds >= 5 ==> r == durationSeconds * 1000)
  {
    Max(5, durationSeconds) * 1000
  }

  /** Only a verified, non-empty membership is stored, and only when the
      configured duration is positive. */
  predicate Cacheable(durationSeconds: int, m: MembershipResult) {
    Max(0, durationSeconds) > 0 && m.success && |m.memberGroupIds| > 0
  }

  /** The cache after `StoreCachedMembership`. */
  function CacheAfterStore(cache: map<UInt64, CacheEntry>, durationSeconds: int, steamId: UInt64,
                           m: MembershipResult, now: int): map<UInt64, CacheEntry>
  {
    if Cacheable(durationSeconds, m)
    then cache[steamId := CacheEntry(m.memberGroupIds, now + CacheTtl(durationSeconds))]
    else cache
  }

  /** `GetGroupMembershipAsync`: what it returns and the cache it leaves,
      given what the Steam query would answer. Id 0 is Unknown; a live
      entry answers without a query; otherwise a stale entry is dropped and
      the answer is returned and, when cacheable, stored. */
  function Resolve(cache: map<UInt64, CacheEntry>, durationSeconds: int, steamId: UInt64, now: int,
                   answer: MembershipResult): (r: (MembershipResult, map<UInt64, CacheEntry>))
    ensures steamId == 0 ==> r == (Unknown, cache)
    ensures steamId != 0 && CacheHit(cache, steamId, now) ==>
              r == (MembershipResult(true, cache[steamId].memberGroupIds), cache)
    ensures steamId != 0 && !CacheHit(cache, steamId, now) ==>
              r.0 == answer && (steamId in r.1 <==> Cacheable(durationSeconds, answer))
    ensures steamId != 0 && !CacheHit(cache, steamId, now) && Cacheable(durationSeconds, answer) ==>
              r.1[steamId] == CacheEntry(answer.memberGroupIds, now + CacheTtl(durationSeconds))
    ensures forall k | k != steamId :: k in r.1 <==> k in cache
    ensures forall k | k != steamId && k in cache :: r.1[k] == cache[k]
  {
    if steamId == 0 then (Unknown, cache)
    else if CacheHit(cache, steamId, now) then (MembershipResult(true, cache[steamId].memberGroupIds), cache)
    else (answer, CacheAfterStore(cache - {steamId}, durationSeconds, steamId, answer, now))
  }

  /** A stored answer is served from the cache, without a new query, for at
      least the TTL after it was stored, whatever the query would say then. */
  lemma CachedAnswerServedWithinTtl(cache: map<UInt64, CacheEntry>, durationSeconds: int, steamId: UInt64,
                                    t: int, answer: MembershipResult, later: int, laterAnswer: MembershipResult)
    requires steamId != 0 && !CacheHit(cache, steamId, t) && Cacheable(durationSeconds, answer)
    requires t <= later < t + CacheTtl(durationSeconds)
    ensures var (first, cache') := Resolve(cache, durationSeconds, steamId, t, answer);
            Resolve(cache', durationSeconds, steamId, later, laterAnswer) == (answer, cache')
  {
    var (first, cache') := Resolve(cache, durationSeconds, steamId, t, answer);
    assert cache'[steamId] == CacheEntry(answer.memberGroupIds, t + CacheTtl(durationSeconds));
  }

  /** A stored answer expires: once the TTL has run out, the next
      resolution queries again and returns the fresh answer. */
  lemma CacheExpiresAfterTtl(cache: map<UInt64, CacheEntry>, durationSeconds: int, steamId: UInt64,
                             t: int, answer: MembershipResult, later: int, laterAnswer: MembershipResult)
    requires steamId != 0 && !CacheHit(cache, steamId, t)
    requires later >= t + CacheTtl(durationSeconds)
    ensures var (first, cache') := Resolve(cache, durationSeconds, steamId, t, answer);
            !CacheHit(cache', steamId, later) &&
            Resolve(cache', durationSeconds, steamId, later, laterAnswer).0 == laterAnswer
  {
  }

  /** Unknown and verified non-member answers are never cached: the next
      resolution queries again. */
  lemma FailuresAreNotCached(cache: map<UInt64, CacheEntry>, durationSeconds: int, steamId: UInt64,
                             now: int, answer: MembershipResult, later: int)
    requires steamId != 0 && !CacheHit(cache, steamId, now)
    requires !answer.success || |answer.memberGroupIds| == 0
    ensures !CacheHit(Resolve(cache, durationSeconds, steamId, now, answer).1, steamId, later)
  {
  }

  /** Every cached id belongs to a configured group. */
  predicate CacheWithinCatalog(cache: map<UInt64, CacheEntry>, catalog: seq<ConfiguredGroup>) {
    forall k | k in cache :: cache[k].memberGroupIds <= CatalogIds(catalog)
  }

  /** Resolving through the Steam query keeps the cache within the catalog
      and returns only configured ids. */
  lemma ResolveStaysWithinCatalog(cache: map<UInt64, CacheEntry>, durationSeconds: int, steamId: UInt64,
                                  now: int, apiKey: string, catalog: seq<ConfiguredGroup>, reply: ApiReply)
    requires CacheWithinCatalog(cache, catalog)
    ensures var (r, cache') := Resolve(cache, durationSeconds, steamId, now, QueryResult(apiKey, catalog, reply));
            CacheWithinCatalog(cache', catalog) && r.memberGroupIds <= CatalogIds(catalog)
  {
    var answer := QueryResult(apiKey, catalog, reply);
    var (r, cache') := Resolve(cache, durationSeconds, steamId, now, answer);
    forall k | k in cache'
      ensures cache'[k].memberGroupIds <= CatalogIds(catalog)
    {
      if k != steamId || CacheHit(cache, steamId, now) || steamId == 0 {
        assert cache'[k] == cache[k];
      }
    }
  }

  // ---------------------------------------------------------------------------
  // Case-insensitive flag sets

  /** `SetsEqual` on group ids: equal counts and equal sets. */
  predicate SetsEqualIds(first: set<UInt64>, second: set<UInt64>) {
    |first| == |second| && first == second
  }

  /** `SetsEqual` on flags: equal counts, and the same flags ignoring case. */
  predicate SetsEqualFlags(first: seq<string>, second: seq<string>) {
    |first| == |second| && FoldSet(first) == FoldSet(second)
  }

  /** A list without case-insensitive duplicates has as many keys as
      elements. */
  lemma {:induction false} DistinctKeyCount(flags: seq<string>)
    requires FlagsDistinct(flags)
    ensures |FoldSet(flags)| == |flags|
  {
    if |flags| > 0 {
      var init, x := flags[..|flags| - 1], flags[|flags| - 1];
      assert flags == init + [x];
      assert FlagsDistinct(init) by {
        forall i, j | 0 <= i < j < |init| ensures Fold(init[i]) != Fold(init[j]) {
          assert init[i] == flags[i] && init[j] == flags[j];
        }
      }
      DistinctKeyCount(init);
      FoldSetAppend(init, x);
      assert Fold(x) !in FoldSet(init);
    }
  }

  /** For lists without case-insensitive duplicates, `SetsEqual` is set
      equality ignoring case: the count test decides nothing more. */
  lemma SetsEqualFlagsOfDistinct(first: seq<string>, second: seq<string>)
    requires FlagsDistinct(first) && FlagsDistinct(second)
    ensures SetsEqualFlags(first, second) <==> FoldSet(first) == FoldSet(second)
  {
    DistinctKeyCount(first);
    DistinctKeyCount(second);
  }

  /** De-duplicating a list that has no duplicates changes nothing. */
  lemma {:induction false} KeepFirstsOfDistinct(flags: seq<string>)
    requires FlagsDistinct(flags)
    ensures KeepFirsts(flags) == flags
  {
    if |flags| > 0 {
      var init, x := flags[..|flags| - 1], flags[|flags| - 1];
      assert FlagsDistinct(init) by {
        forall i, j | 0 <= i < j < |init| ensures Fold(init[i]) != Fold(init[j]) {
          assert init[i] == flags[i] && init[j] == flags[j];
        }
      }
      KeepFirstsOfDistinct(init);
      assert Fold(x) !in FoldSet(init);
      assert flags == init + [x];
    }
  }

  /** `ContainsFlag`: some element equals `flag` ignoring case. */
  function ContainsFlag(flags: seq<string>, flag: string): (r: bool)
    ensures r <==> Fold(flag) in FoldSet(flags)
  {
    if exists i | 0 <= i < |flags| :: EqualsIgnoreCase(flags[i], flag) then
      var i :| 0 <= i < |flags| && EqualsIgnoreCase(flags[i], flag);
      assert flags[i] in flags;
      true
    else
      assert forall y | y in flags :: Fold(y) != Fold(flag) by {
        forall y | y in flags ensures Fold(y) != Fold(flag) {
          var i :| 0 <= i < |flags| && flags[i] == y;
        }
      }
      false
  }

  /** The elements whose key is not in `keys`, in order. */
  function Without(xs: seq<string>, keys: set<string>): seq<string> {
    if |xs| == 0 then []
    else Without(xs[..|xs| - 1], keys) + (if Fold(xs[|xs| - 1]) in keys then [] else [xs[|xs| - 1]])
  }

  lemma {:induction false} WithoutKeys(xs: seq<string>, keys: set<string>)
    ensures FoldSet(Without(xs, keys)) == FoldSet(xs) - keys
  {
    if |xs| > 0 {
      var init, x := xs[..|xs| - 1], xs[|xs| - 1];
      assert xs == init + [x];
      WithoutKeys(init, keys);
      FoldSetAppend(init, x);
      if Fold(x) !in keys {
        assert Without(xs, keys) == Without(init, keys) + [x];
        FoldSetAppend(Without(init, keys), x);
      } else {
        assert Without(xs, keys) == Without(init, keys);
      }
    }
  }

  /** `first.Except(second, StringComparer.OrdinalIgnoreCase)`: the flags of
      `first` whose key `second` lacks, each key once, first spelling kept. */
  function ExceptIgnoreCase(first: seq<string>, second: seq<string>): seq<string> {
    KeepFirsts(Without(first, FoldSet(second)))
  }

  /** The difference holds exactly the keys of `first` not in `second`, with
      no case-insensitive duplicates. */
  lemma ExceptKeys(first: seq<string>, second: seq<string>)
    ensures FoldSet(ExceptIgnoreCase(first, second)) == FoldSet(first) - FoldSet(second)
    ensures FlagsDistinct(ExceptIgnoreCase(first, second))
  {
    KeepFirstsKeys(Without(first, FoldSet(second)));
    WithoutKeys(first, FoldSet(second));
    KeepFirstsUnique(Without(first, FoldSet(second)));
  }

  // ---------------------------------------------------------------------------
  // ApplyMembershipAsync

  function CurrentSnapshot(players: map<UInt64, Snapshot>, steamId: UInt64): Option<Snapshot> {
    if steamId in players then Some(players[steamId]) else None
  }

  function CurrentFlags(players: map<UInt64, Snapshot>, steamId: UInt64): seq<string> {
    if steamId in players then players[steamId].grantedFlags else []
  }

  /** The early return: the stored groups and flags already equal the new
      groups and the flags they require. */
  predicate Unchanged(current: Option<Snapshot>, ids: set<UInt64>, required: seq<string>) {
    current.Some? && SetsEqualIds(current.value.memberGroupIds, ids)
    && SetsEqualFlags(current.value.grantedFlags, required)
  }

  /** The player state after applying `ids` to `steamId`. */
  function ApplyState(players: map<UInt64, Snapshot>, catalog: seq<ConfiguredGroup>,
                      steamId: UInt64, ids: set<UInt64>): map<UInt64, Snapshot>
  {
    var required := GetFlagsForGroups(catalog, ids);
    if steamId == 0 || Unchanged(CurrentSnapshot(players, steamId), ids, required) then players
    else players[steamId := Snapshot(ids, KeepFirsts(required))]
  }

  function GrantEvents(steamId: UInt64, flags: seq<string>): (r: seq<Event>)
    ensures |r| == |flags| && forall i | 0 <= i < |flags| :: r[i] == GrantScheduled(steamId, flags[i])
  {
    seq(|flags|, i requires 0 <= i < |flags| => GrantScheduled(steamId, flags[i]))
  }

  function RevokeEvents(steamId: UInt64, flags: seq<string>): (r: seq<Event>)
    ensures |r| == |flags| && forall i | 0 <= i < |flags| :: r[i] == Revoked(steamId, flags[i])
  {
    seq(|flags|, i requires 0 <= i < |flags| => Revoked(steamId, flags[i]))
  }

  /** The member-detected notice is due: the player now has groups and had
      none, or no snapshot, before. */
  predicate FirstMembership(players: map<UInt64, Snapshot>, steamId: UInt64, ids: set<UInt64>) {
    |ids| > 0 && (steamId !in players || |players[steamId].memberGroupIds| == 0)
  }

  /** The events applying `ids` to `steamId` logs: a grant scheduled for
      each flag to add, a revocation of each flag to remove when the player
      is still connected, and the member-detected notice. */
  function ApplyLog(players: map<UInt64, Snapshot>, catalog: seq<ConfiguredGroup>, steamId: UInt64,
                    ids: set<UInt64>, connected: set<UInt64>): seq<Event>
  {
    var required := GetFlagsForGroups(catalog, ids);
    if steamId == 0 || Unchanged(CurrentSnapshot(players, steamId), ids, required) then []
    else ChangeLog(players, steamId, ids, required, connected)
  }

  /** The events of an application that changes the snapshot, given the
      flags the new groups require. */
  function ChangeLog(players: map<UInt64, Snapshot>, steamId: UInt64, ids: set<UInt64>,
                     required: seq<string>, connected: set<UInt64>): seq<Event>
  {
    var current := CurrentFlags(players, steamId);
    GrantEvents(steamId, ExceptIgnoreCase(required, current))
    + (if steamId in connected then RevokeEvents(steamId, ExceptIgnoreCase(current, required)) else [])
    + (if FirstMembership(players, steamId, ids) then [MemberDetected(steamId, ids)] else [])
  }

  /** After applying, the player's snapshot holds the new groups and,
      ignoring case, exactly the flags those groups require. */
  lemma ApplySnapshot(players: map<UInt64, Snapshot>, catalog: seq<ConfiguredGroup>, steamId: UInt64, ids: set<UInt64>)
    requires steamId != 0
    ensures var after := ApplyState(players, catalog, steamId, ids);
            steamId in after && after[steamId].memberGroupIds == ids
            && FoldSet(after[steamId].grantedFlags) == FoldSet(GetFlagsForGroups(catalog, ids))
    ensures forall k | k != steamId :: k in ApplyState(players, catalog, steamId, ids) <==> k in players
    ensures forall k | k != steamId && k in players :: ApplyState(players, catalog, steamId, ids)[k] == players[k]
  {
    KeepFirstsKeys(GetFlagsForGroups(catalog, ids));
  }

  /** The flags scheduled for granting are, ignoring case, exactly those
      required and not yet held; those revoked are exactly those held and
      no longer required. */
  lemma ApplyDifferences(players: map<UInt64, Snapshot>, catalog: seq<ConfiguredGroup>, steamId: UInt64, ids: set<UInt64>)
    ensures var required := GetFlagsForGroups(catalog, ids);
            var current := CurrentFlags(players, steamId);
            FoldSet(ExceptIgnoreCase(required, current)) == FoldSet(required) - FoldSet(current)
            && FoldSet(ExceptIgnoreCase(current, required)) == FoldSet(current) - FoldSet(required)
  {
    var required := GetFlagsForGroups(catalog, ids);
    var current := CurrentFlags(players, steamId);
    ExceptKeys(required, current);
    ExceptKeys(current, required);
  }

  /** Which flag events of a log to read: scheduled grants or revocations. */
  datatype FlagAction = Grant | Revoke

  /** The flags a log schedules for granting to, or revokes from, `steamId`,
      in order. */
  function ActionFlags(log: seq<Event>, steamId: UInt64, action: FlagAction): seq<string> {
    if |log| == 0 then []
    else
      var e := log[|log| - 1];
      var hit := e.steamId == steamId
                 && (if action == Grant then e.GrantScheduled? else e.Revoked?);
      ActionFlags(log[..|log| - 1], steamId, action) + (if hit then [e.flag] else [])
  }

  lemma {:induction false} ActionFlagsAppend(a: seq<Event>, b: seq<Event>, steamId: UInt64, action: FlagAction)
    ensures ActionFlags(a + b, steamId, action) == ActionFlags(a, steamId, action) + ActionFlags(b, steamId, action)
  {
    if |b| == 0 {
      assert a + b == a;
    } else {
      var init := b[..|b| - 1];
      assert (a + b)[..|a + b| - 1] == a + init;
      ActionFlagsAppend(a, init, steamId, action);
    }
  }

  /** Grant events carry exactly their flags as grants for their player. */
  lemma {:induction false} ActionFlagsOfGrants(steamId: UInt64, flags: seq<string>, action: FlagAction)
    ensures ActionFlags(GrantEvents(steamId, flags), steamId, action) == if action == Grant then flags else []
  {
    if |flags| > 0 {
      var init := flags[..|flags| - 1];
      assert GrantEvents(steamId, flags)[..|flags| - 1] == GrantEvents(steamId, init);
      ActionFlagsOfGrants(steamId, init, action);
    }
  }

  /** Revoke events carry exactly their flags as revocations for their player. */
  lemma {:induction false} ActionFlagsOfRevokes(steamId: UInt64, flags: seq<string>, action: FlagAction)
    ensures ActionFlags(RevokeEvents(steamId, flags), steamId, action) == if action == Revoke then flags else []
  {
    if |flags| > 0 {
      var init := flags[..|flags| - 1];
      assert RevokeEvents(steamId, flags)[..|flags| - 1] == RevokeEvents(steamId, init);
      ActionFlagsOfRevokes(steamId, init, action);
    }
  }

  /** The grants and revocations a changing application logs, in order. */
  lemma ChangeLogFlags(players: map<UInt64, Snapshot>, steamId: UInt64, ids: set<UInt64>,
                       required: seq<string>, connected: set<UInt64>, action: FlagAction)
    ensures var current := CurrentFlags(players, steamId);
            ActionFlags(ChangeLog(players, steamId, ids, required, connected), steamId, action)
            == (if action == Grant then ExceptIgnoreCase(required, current)
                else if steamId in connected then ExceptIgnoreCase(current, required)
                else [])
  {
    var current := CurrentFlags(players, steamId);
    var toAdd, toRemove := ExceptIgnoreCase(required, current), ExceptIgnoreCase(current, required);
    var grants := GrantEvents(steamId, toAdd);
    var revokes := if steamId in connected then RevokeEvents(steamId, toRemove) else [];
    var notice := if FirstMembership(players, steamId, ids) then [MemberDetected(steamId, ids)] else [];
    var a := if action == Grant then toAdd else [];
    var b := if action == Revoke && steamId in connected then toRemove else [];
    assert ActionFlags(notice, steamId, action) == [] by {
      if notice != [] {
        assert notice[..0] == [];
      }
    }
    assert ActionFlags(grants, steamId, action) == a by {
      ActionFlagsOfGrants(steamId, toAdd, action);
    }
    assert ActionFlags(revokes, steamId, action) == b by {
      if steamId in connected {
        ActionFlagsOfRevokes(steamId, toRemove, action);
      }
    }
    calc {
      ActionFlags(ChangeLog(players, steamId, ids, required, connected), steamId, action);
      ActionFlags(grants + revokes + notice, steamId, action);
      { ActionFlagsAppend(grants + revokes, notice, steamId, action); }
      ActionFlags(grants + revokes, steamId, action) + [];
      { ActionFlagsAppend(grants, revokes, steamId, action); }
      a + b + [];
    }
    assert a + b + [] == a + b;
  }

  /** An application that changes nothing logs nothing. Otherwise the
      grants it schedules are, ignoring case, exactly the required flags not
      yet held, and the revocations exactly the held flags no longer
      required (none once the player has left), each key once. */
  lemma ApplyLogFlags(players: map<UInt64, Snapshot>, catalog: seq<ConfiguredGroup>, steamId: UInt64,
                      ids: set<UInt64>, connected: set<UInt64>)
    ensures var required := GetFlagsForGroups(catalog, ids);
            steamId == 0 || Unchanged(CurrentSnapshot(players, steamId), ids, required) ==>
              ApplyLog(players, catalog, steamId, ids, connected) == []
    ensures var required := GetFlagsForGroups(catalog, ids);
            var current := CurrentFlags(players, steamId);
            var log := ApplyLog(players, catalog, steamId, ids, connected);
            var granted := ActionFlags(log, steamId, Grant);
            var revoked := ActionFlags(log, steamId, Revoke);
            steamId != 0 && !Unchanged(CurrentSnapshot(players, steamId), ids, required) ==>
              FoldSet(granted) == FoldSet(required) - FoldSet(current) && FlagsDistinct(granted)
              && FoldSet(revoked) == (if steamId in connected then FoldSet(current) - FoldSet(required) else {})
              && FlagsDistinct(revoked)
  {
    var required := GetFlagsForGroups(catalog, ids);
    if steamId != 0 && !Unchanged(CurrentSnapshot(players, steamId), ids, required) {
      var current := CurrentFlags(players, steamId);
      ChangeLogFlags(players, steamId, ids, required, connected, Grant);
      ChangeLogFlags(players, steamId, ids, required, connected, Revoke);
      ExceptKeys(required, current);
      ExceptKeys(current, required);
    }
  }

  /** The member-detected notice is sent exactly when the player goes from no
      groups (or no snapshot) to some groups. */
  lemma MemberDetectedOnFirstMembership(players: map<UInt64, Snapshot>, catalog: seq<ConfiguredGroup>,
                                        steamId: UInt64, ids: set<UInt64>, connected: set<UInt64>)
    ensures MemberDetected(steamId, ids) in ApplyLog(players, catalog, steamId, ids, connected)
            <==> steamId != 0 && FirstMembership(players, steamId, ids)
  {
    var required := GetFlagsForGroups(catalog, ids);
    var log := ApplyLog(players, catalog, steamId, ids, connected);
    if steamId != 0 && !Unchanged(CurrentSnapshot(players, steamId), ids, required) {
      var current := CurrentFlags(players, steamId);
      var grants := GrantEvents(steamId, ExceptIgnoreCase(required, current));
      var revokes := if steamId in connected then RevokeEvents(steamId, ExceptIgnoreCase(current, required)) else [];
      var notice := if FirstMembership(players, steamId, ids) then [MemberDetected(steamId, ids)] else [];
      assert log == grants + revokes + notice;
      assert MemberDetected(steamId, ids) !in grants;
      assert MemberDetected(steamId, ids) !in revokes;
    }
  }

  /** Every player's flags are the de-duplicated flags their groups require. */
  predicate Consistent(players: map<UInt64, Snapshot>, catalog: seq<ConfiguredGroup>) {
    forall k | k in players :: players[k].grantedFlags == KeepFirsts(GetFlagsForGroups(catalog, players[k].memberGroupIds))
  }

  lemma ApplyKeepsConsistent(players: map<UInt64, Snapshot>, catalog: seq<ConfiguredGroup>, steamId: UInt64, ids: set<UInt64>)
    requires Consistent(players, catalog)
    ensures Consistent(ApplyState(players, catalog, steamId, ids), catalog)
  {
  }

  /** On a well-formed catalog, a player whose snapshot is consistent is
      unchanged by applying their own groups again. */
  lemma ConsistentSnapshotIsUnchanged(s: Snapshot, catalog: seq<ConfiguredGroup>)
    requires WellFormedCatalog(catalog)
    requires s.grantedFlags == KeepFirsts(GetFlagsForGroups(catalog, s.memberGroupIds))
    ensures Unchanged(Some(s), s.memberGroupIds, GetFlagsForGroups(catalog, s.memberGroupIds))
  {
    var required := GetFlagsForGroups(catalog, s.memberGroupIds);
    if required != [] {
      var k :| 0 <= k < |catalog| && required == catalog[k].grantedFlags;
      assert catalog[k] in catalog;
    }
    KeepFirstsOfDistinct(required);
  }

  /** Applying the same groups twice: the second application changes
      nothing and logs nothing. */
  lemma ApplyTwiceIsNoop(players: map<UInt64, Snapshot>, catalog: seq<ConfiguredGroup>, steamId: UInt64,
                         ids: set<UInt64>, connected: set<UInt64>)
    requires WellFormedCatalog(catalog)
    ensures var once := ApplyState(players, catalog, steamId, ids);
            ApplyState(once, catalog, steamId, ids) == once
            && ApplyLog(once, catalog, steamId, ids, connected) == []
  {
    var required := GetFlagsForGroups(catalog, ids);
    var once := ApplyState(players, catalog, steamId, ids);
    if steamId != 0 && !Unchanged(CurrentSnapshot(players, steamId), ids, required) {
      ConsistentSnapshotIsUnchanged(Snapshot(ids, KeepFirsts(required)), catalog);
      assert once[steamId] == Snapshot(ids, KeepFirsts(required));
    }
  }

  /** One player's turn at round start: a player with an id whose snapshot
      holds flags gets their stored groups applied again; the players after
      it and the events it logs. */
  function RefreshPlayer(players: map<UInt64, Snapshot>, catalog: seq<ConfiguredGroup>, steamId: UInt64,
                         online: set<UInt64>): (map<UInt64, Snapshot>, seq<Event>)
  {
    if steamId != 0 && steamId in players && |players[steamId].grantedFlags| > 0
    then
      var ids := players[steamId].memberGroupIds;
      (ApplyState(players, catalog, steamId, ids), ApplyLog(players, catalog, steamId, ids, online))
    else (players, [])
  }

  /** `OnRoundStart`: each connected player in turn is refreshed; the
      players after the round and the events it logs. `online` is the set
      of connected players. */
  function RoundStart(players: map<UInt64, Snapshot>, catalog: seq<ConfiguredGroup>,
                      connected: seq<UInt64>, online: set<UInt64>): (map<UInt64, Snapshot>, seq<Event>)
  {
    if |connected| == 0 then (players, [])
    else
      var before := RoundStart(players, catalog, connected[..|connected| - 1], online);
      var step := RefreshPlayer(before.0, catalog, connected[|connected| - 1], online);
      (step.0, before.1 + step.1)
  }

  /** On a well-formed catalog, a round start over consistent snapshots
      changes nothing and logs nothing. */
  lemma {:induction false} RoundStartKeepsConsistentPlayers(players: map<UInt64, Snapshot>, catalog: seq<ConfiguredGroup>,
                                                          connected: seq<UInt64>, online: set<UInt64>)
    requires WellFormedCatalog(catalog) && Consistent(players, catalog)
    ensures RoundStart(players, catalog, connected, online) == (players, [])
  {
    if |connected| > 0 {
      RoundStartKeepsConsistentPlayers(players, catalog, connected[..|connected| - 1], online);
      var id := connected[|connected| - 1];
      if id != 0 && id in players && |players[id].grantedFlags| > 0 {
        var ids := players[id].memberGroupIds;
        ConsistentSnapshotIsUnchanged(players[id], catalog);
        assert CurrentSnapshot(players, id) == Some(players[id]);
      }
      var before := RoundStart(players, catalog, connected[..|connected| - 1], online);
      assert before == (players, []);
      assert RefreshPlayer(players, catalog, id, online) == (players, []);
      assert before.1 + [] == [];
    }
  }

  /** A round start keeps consistent snapshots consistent. */
  lemma {:induction false} RoundStartPreservesConsistency(players: map<UInt64, Snapshot>, catalog: seq<ConfiguredGroup>,
                                                        connected: seq<UInt64>, online: set<UInt64>)
    requires Consistent(players, catalog)
    ensures Consistent(RoundStart(players, catalog, connected, online).0, catalog)
  {
    if |connected| > 0 {
      RoundStartPreservesConsistency(players, catalog, connected[..|connected| - 1], online);
      var p := RoundStart(players, catalog, connected[..|connected| - 1], online).0;
      var id := connected[|connected| - 1];
      if id != 0 && id in p && |p[id].grantedFlags| > 0 {
        ApplyKeepsConsistent(p, catalog, id, p[id].memberGroupIds);
      }
      assert RefreshPlayer(p, catalog, id, online).0 == RoundStart(players, catalog, connected, online).0;
    }
  }

  // ---------------------------------------------------------------------------
  // ScheduleFlagGrant

  const MaxGrantAttempts: nat := 3

  /** An attempt grants the flag only while the player's snapshot still
      holds it (ignoring case) and the player is connected. */
  predicate GrantApplies(players: map<UInt64, Snapshot>, connected: set<UInt64>, steamId: UInt64, flag: string) {
    steamId in players && ContainsFlag(players[steamId].grantedFlags, flag) && steamId in connected
  }

  /** The wait before the attempt after `attempt`, or None when it was the
      last one. */
  function NextRetry(attempt: nat): (r: Option<nat>)
    ensures r.Some? <==> attempt + 1 < MaxGrantAttempts
  {
    if attempt >= MaxGrantAttempts || attempt + 1 >= MaxGrantAttempts then None
    else Some(500 * (attempt + 1))
  }

  /** When the attempts from `attempt` on happen, the first at `start`. */
  function AttemptTimes(attempt: nat, start: int): seq<int>
    decreases MaxGrantAttempts - attempt
  {
    if attempt >= MaxGrantAttempts then []
    else [start] + match NextRetry(attempt)
                   case None => []
                   case Some(wait) => AttemptTimes(attempt + 1, start + wait)
  }

  /** A chain makes at most three attempts, at 0, 500 and 1500 ms. */
  lemma {:induction false} GrantAttemptCount(attempt: nat, start: int)
    ensures |AttemptTimes(attempt, start)| == if attempt >= MaxGrantAttempts then 0 else MaxGrantAttempts - attempt
    decreases MaxGrantAttempts - attempt
  {
    if attempt + 1 < MaxGrantAttempts {
      GrantAttemptCount(attempt + 1, start + 500 * (attempt + 1));
    }
  }

  lemma GrantSchedule()
    ensures AttemptTimes(0, 0) == [0, 500, 1500]
  {
    assert AttemptTimes(2, 1500) == [1500];
    assert AttemptTimes(1, 500) == [500, 1500];
  }

  /** Once applying new groups drops a flag, a pending attempt to grant it
      does nothing. */
  lemma DroppedFlagIsNotGranted(players: map<UInt64, Snapshot>, catalog: seq<ConfiguredGroup>, steamId: UInt64,
                                ids: set<UInt64>, connected: set<UInt64>, flag: string)
    requires steamId != 0 && Fold(flag) !in FoldSet(GetFlagsForGroups(catalog, ids))
    ensures !GrantApplies(ApplyState(players, catalog, steamId, ids), connected, steamId, flag)
  {
    ApplySnapshot(players, catalog, steamId, ids);
  }

  // ---------------------------------------------------------------------------
  // OnClientDisconnect

  /** The revocations of a disconnect: every flag the snapshot recorded. */
  function DisconnectLog(players: map<UInt64, Snapshot>, steamId: UInt64): (r: seq<Event>)
    ensures steamId !in players ==> r == []
    ensures steamId in players ==> forall e :: e in r <==> exists f | f in players[steamId].grantedFlags :: e == Revoked(steamId, f)
  {
    var flags := CurrentFlags(players, steamId);
    RevokeEvents(steamId, flags)
  }

  /** After a disconnect no grant attempt for that player does anything. */
  lemma NoGrantAfterDisconnect(players: map<UInt64, Snapshot>, connected: set<UInt64>, steamId: UInt64, flag: string)
    ensures !GrantApplies(players - {steamId}, connected, steamId, flag)
  {
  }

  // ---------------------------------------------------------------------------
  // Non-member advertisement

  /** `RestartNonMemberAdBroadcast`'s guard: the broadcast interval in
      minutes, or None when it is disabled. */
  function AdInterval(intervalMinutes: int, template: string): (r: Option<int>)
    ensures r.Some? <==> intervalMinutes > 0 && !Blank(template)
    ensures r.Some? ==> r.value >= 1 && r.value == intervalMinutes
  {
    if intervalMinutes <= 0 || Blank(template) then None else Some(Max(1, intervalMinutes))
  }

  /** The player is sent the advertisement: an id, a snapshot, no groups. */
  predicate AdTarget(players: map<UInt64, Snapshot>, steamId: UInt64) {
    steamId != 0 && steamId in players && |players[steamId].memberGroupIds| == 0
  }

  /** The connected players the advertisement goes to, in order. */
  function AdTargets(connected: seq<UInt64>, players: map<UInt64, Snapshot>): seq<UInt64> {
    if |connected| == 0 then []
    else
      var id := connected[|connected| - 1];
      AdTargets(connected[..|connected| - 1], players) + (if AdTarget(players, id) then [id] else [])
  }

  /** The advertisement reaches exactly the connected players with an id, a
      snapshot and no groups: never a member. */
  lemma {:induction false} AdTargetsExact(connected: seq<UInt64>, players: map<UInt64, Snapshot>)
    ensures forall id :: id in AdTargets(connected, players) <==> id in connected && AdTarget(players, id)
  {
    if |connected| > 0 {
      var init := connected[..|connected| - 1];
      AdTargetsExact(init, players);
      assert connected == init + [connected[|connected| - 1]];
    }
  }

  function AdEvents(targets: seq<UInt64>, template: string): (r: seq<Event>)
    ensures |r| == |targets| && forall i | 0 <= i < |targets| :: r[i] == Advertised(targets[i], template)
  {
    seq(|targets|, i requires 0 <= i < |targets| => Advertised(targets[i], template))
  }

  /** The advertisement is logged for exactly the connected players with an
      id, a snapshot and no groups. */
  lemma AdvertisedExactly(connected: seq<UInt64>, players: map<UInt64, Snapshot>, template: string)
    ensures forall id :: Advertised(id, template) in AdEvents(AdTargets(connected, players), template)
                         <==> id in connected && AdTarget(players, id)
  {
    AdTargetsExact(connected, players);
    var targets := AdTargets(connected, players);
    var log := AdEvents(targets, template);
    forall id ensures Advertised(id, template) in log <==> id in targets {
      if id in targets {
        var i :| 0 <= i < |targets| && targets[i] == id;
        assert log[i] == Advertised(id, template);
      }
    }
  }
}
