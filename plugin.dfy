/** The plugin object (src/SteamGroupCheckPlugin.cs `SteamGroupCheckPlugin`):
    the membership cache and the per-player snapshots it updates in place,
    with the host effects it causes appended to an event log. Each method
    is specified by the transition of module Reconcile it performs. */
module Plugin {
  import opened Text
  import opened Catalog
  import opened Selection
  import opened Membership
  import opened Reconcile

  class SteamGroupCheck {
    var catalog: seq<ConfiguredGroup>
    var steamApiKey: string
    var cacheDurationSeconds: int
    var membershipCache: map<UInt64, CacheEntry>
    var playerMembershipState: map<UInt64, Snapshot>
    /** The grants, revocations and chat messages the plugin asked the host for. */
    var events: seq<Event>
    /** The running advertisement loop's interval in minutes, if one runs. */
    var adInterval: Option<int>

    constructor(catalog: seq<ConfiguredGroup>, steamApiKey: string, cacheDurationSeconds: int)
      ensures this.catalog == catalog && this.steamApiKey == steamApiKey
      ensures this.cacheDurationSeconds == cacheDurationSeconds
      ensures membershipCache == map[] && playerMembershipState == map[] && events == [] && adInterval == None
    {
      this.catalog := catalog;
      this.steamApiKey := steamApiKey;
      this.cacheDurationSeconds := cacheDurationSeconds;
      membershipCache := map[];
      playerMembershipState := map[];
      events := [];
      adInterval := None;
    }

    // -------------------------------------------------------------------------
    // Cache and resolver

    /** `TryGetCachedMembership`: a live entry answers; an expired one is
        removed. */
    method TryGetCachedMembership(steamId: UInt64, now: int) returns (hit: bool, membership: MembershipResult)
      modifies this`membershipCache
      ensures hit == CacheHit(old(membershipCache), steamId, now)
      ensures hit ==> membership == MembershipResult(true, old(membershipCache)[steamId].memberGroupIds)
                      && membershipCache == old(membershipCache)
      ensures !hit ==> membership == Unknown && membershipCache == old(membershipCache) - {steamId}
    {
      membership := Unknown;
      if steamId in membershipCache {
        var entry := membershipCache[steamId];
        if entry.expiresAt > now {
          return true, MembershipResult(true, entry.memberGroupIds);
        }
        membershipCache := membershipCache - {steamId};
      }
      hit := false;
    }

    /** `StoreCachedMembership`. */
    method StoreCachedMembership(steamId: UInt64, membership: MembershipResult, now: int)
      modifies this`membershipCache
      ensures membershipCache == CacheAfterStore(old(membershipCache), cacheDurationSeconds, steamId, membership, now)
    {
      var durationSeconds := Max(0, cacheDurationSeconds);
      if durationSeconds <= 0 || !membership.success || |membership.memberGroupIds| == 0 {
        return;
      }
      var ttl := Max(5, durationSeconds) * 1000;
      membershipCache := membershipCache[steamId := CacheEntry(membership.memberGroupIds, now + ttl)];
    }

    /** `GetGroupMembershipAsync`, with `reply` what the Steam request would
        produce if it were made. */
    method GetGroupMembership(steamId: UInt64, now: int, reply: ApiReply) returns (r: MembershipResult)
      modifies this`membershipCache
      ensures (r, membershipCache)
              == Resolve(old(membershipCache), cacheDurationSeconds, steamId, now, QueryResult(steamApiKey, catalog, reply))
    {
      if steamId == 0 {
        return Unknown;
      }
      var hit, cached := TryGetCachedMembership(steamId, now);
      if hit {
        return cached;
      }
      r := QueryGroupMembership(steamApiKey, catalog, reply);
      StoreCachedMembership(steamId, r, now);
    }

    // -------------------------------------------------------------------------
    // Reconciliation

    /** `ApplyMembershipAsync`; `connected` are the players on the server
        when the revocations run. */
    method ApplyMembership(steamId: UInt64, membership: MembershipResult, connected: set<UInt64>)
      modifies this`playerMembershipState, this`events
      ensures playerMembershipState == ApplyState(old(playerMembershipState), catalog, steamId, membership.memberGroupIds)
      ensures events == old(events) + ApplyLog(old(playerMembershipState), catalog, steamId, membership.memberGroupIds, connected)
    {
      if steamId == 0 {
        return;
      }
      var memberGroups := membership.memberGroupIds;
      var requiredFlags := GetFlagsForGroups(catalog, memberGroups);
      var current := CurrentSnapshot(playerMembershipState, steamId);
      if Unchanged(current, memberGroups, requiredFlags) {
        return;
      }
      RecordChange(steamId, memberGroups, requiredFlags, connected);
    }

    /** The part of `ApplyMembershipAsync` after the early return: schedules
        the grants, revokes the flags no longer required from a connected
        player, announces a first membership and stores the new snapshot. */
    method RecordChange(steamId: UInt64, memberGroups: set<UInt64>, requiredFlags: seq<string>, connected: set<UInt64>)
      modifies this`playerMembershipState, this`events
      ensures playerMembershipState == old(playerMembershipState)[steamId := Snapshot(memberGroups, KeepFirsts(requiredFlags))]
      ensures events == old(events) + ChangeLog(old(playerMembershipState), steamId, memberGroups, requiredFlags, connected)
    {
      var currentFlags := CurrentFlags(playerMembershipState, steamId);
      var flagsToAdd := ExceptIgnoreCase(requiredFlags, currentFlags);
      var flagsToRemove := ExceptIgnoreCase(currentFlags, requiredFlags);
      ghost var players := playerMembershipState;
      ghost var revokes := if steamId in connected then RevokeEvents(steamId, flagsToRemove) else [];
      ghost var detected := if FirstMembership(players, steamId, memberGroups) then [MemberDetected(steamId, memberGroups)] else [];
      assert ChangeLog(players, steamId, memberGroups, requiredFlags, connected)
             == GrantEvents(steamId, flagsToAdd) + revokes + detected;
      ScheduleGrants(steamId, flagsToAdd);
      ghost var granted := events;
      if |flagsToRemove| > 0 && steamId in connected {
        events := events + RevokeEvents(steamId, flagsToRemove);
      } else {
        assert |revokes| == 0;
      }
      ghost var revoked := events;
      assert revoked == granted + revokes;
      if FirstMembership(playerMembershipState, steamId, memberGroups) {
        events := events + [MemberDetected(steamId, memberGroups)];
      }
      assert events == revoked + detected;
      EventsAppend(old(events), GrantEvents(steamId, flagsToAdd), revokes, detected);
      playerMembershipState := playerMembershipState[steamId := Snapshot(memberGroups, KeepFirsts(requiredFlags))];
    }

    /** The loop of `ApplyMembershipAsync` that schedules a grant for each
        flag to add, in order. */
    method ScheduleGrants(steamId: UInt64, flags: seq<string>)
      modifies this`events
      ensures events == old(events) + GrantEvents(steamId, flags)
    {
      var i := 0;
      while i < |flags|
        invariant 0 <= i <= |flags|
        invariant events == old(events) + GrantEvents(steamId, flags[..i])
      {
        assert GrantEvents(steamId, flags[..i + 1]) == GrantEvents(steamId, flags[..i]) + [GrantScheduled(steamId, flags[i])];
        events := events + [GrantScheduled(steamId, flags[i])];
        i := i + 1;
      }
      assert flags[..i] == flags;
    }

    /** One attempt of `ScheduleFlagGrant`: grants the flag when the
        snapshot still holds it and the player is connected, and says how
        long to wait before the next attempt, if there is one. */
    method GrantAttempt(steamId: UInt64, flag: string, attempt: nat, connected: set<UInt64>) returns (retryAfter: Option<nat>)
      modifies this`events
      ensures events == old(events)
                        + (if attempt < MaxGrantAttempts && GrantApplies(playerMembershipState, connected, steamId, flag)
                           then [Granted(steamId, flag, attempt)] else [])
      ensures retryAfter == NextRetry(attempt)
    {
      if attempt >= MaxGrantAttempts {
        return None;
      }
      if steamId in playerMembershipState && ContainsFlag(playerMembershipState[steamId].grantedFlags, flag)
         && steamId in connected
      {
        events := events + [Granted(steamId, flag, attempt)];
      }
      if attempt + 1 >= MaxGrantAttempts {
        return None;
      }
      retryAfter := Some(500 * (attempt + 1));
    }

    // -------------------------------------------------------------------------
    // Game events

    /** `OnClientDisconnect` for a player with `steamId` (None when the slot
        has no authorized id): the snapshot is dropped and every flag it
        recorded revoked. */
    method OnClientDisconnect(steamId: Option<UInt64>)
      modifies this`playerMembershipState, this`events
      ensures steamId.None? ==> playerMembershipState == old(playerMembershipState) && events == old(events)
      ensures steamId.Some? ==> playerMembershipState == old(playerMembershipState) - {steamId.value}
                                && events == old(events) + DisconnectLog(old(playerMembershipState), steamId.value)
    {
      if steamId.None? {
        return;
      }
      var id := steamId.value;
      if id !in playerMembershipState {
        assert playerMembershipState - {id} == playerMembershipState;
        return;
      }
      var flags := playerMembershipState[id].grantedFlags;
      playerMembershipState := playerMembershipState - {id};
      var i := 0;
      while i < |flags|
        invariant 0 <= i <= |flags|
        invariant playerMembershipState == old(playerMembershipState) - {id}
        invariant events == old(events) + RevokeEvents(id, flags[..i])
      {
        assert RevokeEvents(id, flags[..i + 1]) == RevokeEvents(id, flags[..i]) + [Revoked(id, flags[i])];
        events := events + [Revoked(id, flags[i])];
        i := i + 1;
      }
      assert flags[..i] == flags;
    }

    /** `OnRoundStart`: every connected player (0 for one without an id)
        whose snapshot holds flags gets their stored groups applied again,
        so that they hold, ignoring case, exactly the flags their groups
        require; when every snapshot was consistent with a well-formed
        catalog, nothing changes and nothing is logged. */
    method OnRoundStart(connected: seq<UInt64>)
      modifies this`playerMembershipState, this`events
      ensures WellFormedCatalog(catalog) && Consistent(old(playerMembershipState), catalog) ==>
                playerMembershipState == old(playerMembershipState) && events == old(events)
      ensures Consistent(old(playerMembershipState), catalog) ==> Consistent(playerMembershipState, catalog)
      ensures RefreshedFrom(old(playerMembershipState), playerMembershipState, catalog, connected)
      ensures var (players, log) := RoundStart(old(playerMembershipState), catalog, connected, set k | k in connected);
              playerMembershipState == players && events == old(events) + log
    {
      var online := set k | k in connected;
      var i := 0;
      while i < |connected|
        invariant 0 <= i <= |connected|
        invariant var (players, log) := RoundStart(old(playerMembershipState), catalog, connected[..i], online);
                  playerMembershipState == players && events == old(events) + log
      {
        ghost var log := RoundStart(old(playerMembershipState), catalog, connected[..i], online).1;
        ghost var players := playerMembershipState;
        RefreshConnectedPlayer(connected[i], online);
        LogAppend(old(events), log, RefreshPlayer(players, catalog, connected[i], online).1);
        assert connected[..i + 1][..i] == connected[..i];
        i := i + 1;
      }
      assert connected[..i] == connected;
      RoundStartRefreshes(old(playerMembershipState), catalog, connected, online);
      if Consistent(old(playerMembershipState), catalog) {
        RoundStartPreservesConsistency(old(playerMembershipState), catalog, connected, online);
        if WellFormedCatalog(catalog) {
          RoundStartKeepsConsistentPlayers(old(playerMembershipState), catalog, connected, online);
        }
      }
    }

    /** The body of `OnRoundStart`'s loop for one connected player. */
    method RefreshConnectedPlayer(steamId: UInt64, online: set<UInt64>)
      modifies this`playerMembershipState, this`events
      ensures var (players, log) := RefreshPlayer(old(playerMembershipState), catalog, steamId, online);
              playerMembershipState == players && events == old(events) + log
    {
      if steamId != 0 && steamId in playerMembershipState && |playerMembershipState[steamId].grantedFlags| > 0 {
        var snapshot := playerMembershipState[steamId];
        ApplyMembership(steamId, MembershipResult(true, snapshot.memberGroupIds), online);
      }
    }

    /** `BroadcastNonMemberAdvertisement`, with the loop's template: one
        message to each connected player with an id, a snapshot and no
        groups; nothing for a blank template. */
    method BroadcastNonMemberAdvertisement(template: string, connected: seq<UInt64>)
      modifies this`events
      ensures events == old(events)
                        + (if Blank(template) then [] else AdEvents(AdTargets(connected, playerMembershipState), template))
    {
      if Blank(template) {
        return;
      }
      var i := 0;
      while i < |connected|
        invariant 0 <= i <= |connected|
        invariant events == old(events) + AdEvents(AdTargets(connected[..i], playerMembershipState), template)
      {
        var steamId := connected[i];
        assert connected[..i + 1][..i] == connected[..i];
        var before := AdTargets(connected[..i], playerMembershipState);
        if steamId != 0 && steamId in playerMembershipState && |playerMembershipState[steamId].memberGroupIds| == 0 {
          assert AdEvents(before + [steamId], template) == AdEvents(before, template) + [Advertised(steamId, template)];
          events := events + [Advertised(steamId, template)];
        }
        i := i + 1;
      }
      assert connected[..i] == connected;
    }

    /** `RestartNonMemberAdBroadcast`: stops the running loop and starts one
        with the configured interval unless that is not positive or the
        template is blank. */
    method RestartNonMemberAdBroadcast(intervalMinutes: int, template: string)
      modifies this`adInterval
      ensures adInterval == AdInterval(intervalMinutes, template)
    {
      adInterval := None;
      if intervalMinutes <= 0 || Blank(template) {
        return;
      }
      adInterval := Some(Max(1, intervalMinutes));
    }
  }

  /** What one round-start application does to the player it concerns. */
  lemma RoundStartStep(players: map<UInt64, Snapshot>, catalog: seq<ConfiguredGroup>, steamId: UInt64)
    requires steamId != 0 && steamId in players
    ensures var ids := players[steamId].memberGroupIds;
            var after := ApplyState(players, catalog, steamId, ids);
            after.Keys == players.Keys
            && after[steamId].memberGroupIds == ids
            && FoldSet(after[steamId].grantedFlags) == FoldSet(GetFlagsForGroups(catalog, ids))
            && (forall k | k in players && k != steamId :: after[k] == players[k])
            && (Consistent(players, catalog) ==> Consistent(after, catalog))
    ensures WellFormedCatalog(catalog) && Consistent(players, catalog) ==>
              var ids := players[steamId].memberGroupIds;
              ApplyState(players, catalog, steamId, ids) == players
              && forall connected: set<UInt64> :: ApplyLog(players, catalog, steamId, ids, connected) == []
  {
    var ids := players[steamId].memberGroupIds;
    ApplySnapshot(players, catalog, steamId, ids);
    if Consistent(players, catalog) {
      ApplyKeepsConsistent(players, catalog, steamId, ids);
      if WellFormedCatalog(catalog) {
        ConsistentSnapshotIsUnchanged(players[steamId], catalog);
      }
    }
  }

  /** Round start has re-applied the stored groups of every player in
      `processed` whose snapshot held flags: no player appeared or
      disappeared, nobody's groups changed, the players not processed are
      untouched, and each processed one holds, ignoring case, exactly the
      flags their groups require. */
  predicate RefreshedFrom(before: map<UInt64, Snapshot>, after: map<UInt64, Snapshot>,
                          catalog: seq<ConfiguredGroup>, processed: seq<UInt64>)
  {
    && after.Keys == before.Keys
    && (forall k | k in after :: after[k].memberGroupIds == before[k].memberGroupIds)
    && (forall k | k in after && k !in processed :: after[k] == before[k])
    && (forall k | k in processed && k != 0 && k in before && |before[k].grantedFlags| > 0 ::
          FoldSet(after[k].grantedFlags) == FoldSet(GetFlagsForGroups(catalog, after[k].memberGroupIds)))
  }

  lemma RefreshStep(before: map<UInt64, Snapshot>, current: map<UInt64, Snapshot>,
                    catalog: seq<ConfiguredGroup>, processed: seq<UInt64>, steamId: UInt64)
    requires RefreshedFrom(before, current, catalog, processed)
    ensures var next := if steamId != 0 && steamId in current && |current[steamId].grantedFlags| > 0
                        then ApplyState(current, catalog, steamId, current[steamId].memberGroupIds)
                        else current;
            RefreshedFrom(before, next, catalog, processed + [steamId])
  {
    if steamId != 0 && steamId in current && |current[steamId].grantedFlags| > 0 {
      RoundStartStep(current, catalog, steamId);
    }
  }

  /** The players a round start leaves have been refreshed, in the sense of
      `RefreshedFrom`, over all the connected players. */
  lemma {:induction false} RoundStartRefreshes(players: map<UInt64, Snapshot>, catalog: seq<ConfiguredGroup>,
                                             connected: seq<UInt64>, online: set<UInt64>)
    ensures RefreshedFrom(players, RoundStart(players, catalog, connected, online).0, catalog, connected)
  {
    if |connected| == 0 {
    } else {
      var init := connected[..|connected| - 1];
      RoundStartRefreshes(players, catalog, init, online);
      RefreshStep(players, RoundStart(players, catalog, init, online).0, catalog, init, connected[|connected| - 1]);
      assert connected == init + [connected[|connected| - 1]];
    }
  }

  lemma LogAppend(log: seq<Event>, a: seq<Event>, b: seq<Event>)
    ensures log + a + b == log + (a + b)
  {
  }

  lemma EventsAppend(log: seq<Event>, a: seq<Event>, b: seq<Event>, c: seq<Event>)
    ensures log + a + b + c == log + (a + b + c)
  {
  }
}
