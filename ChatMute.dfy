/**
 * The mute store of the chat-mute mod: a map from player UID to the instant the mute expires,
 * the operations the chat hook, the three commands and the sweep timer perform on it, and its
 * persistence as a list of (key, ticks) records in the world's save slot.
 *
 * An entry is active while `now < expiry`. The chat gate evicts a stale entry when it meets one,
 * the sweep evicts every stale entry, the list shows only active entries, and loading skips
 * entries that have already expired.
 */
module ChatMute {
  import opened Wrappers
  import opened Time
  import opened Duration
  import opened Format

  /** The host's id for the general chat group (GlobalConstants.GeneralChatGroup). */
  const GeneralChatGroup: int := 0

  /** The error results of the commands. */
  datatype CommandError =
    | InvalidDuration   // the duration tokens do not parse to a positive total
    | PlayerNotFound    // the player name did not resolve to a UID
    | NotMuted          // unmute of a player with no entry
    | ExpiryOutOfRange  // the expiry would pass DateTime.MaxValue, where AddMinutes throws

  datatype Result<T> = Ok(value: T) | Err(error: CommandError)

  /** What the chat hook does with a message: let it through, or consume it and tell the sender. */
  datatype ChatVerdict = Allowed | Blocked(remaining: RemainingView)

  /** One line of the mute list: the muted player and the time left. */
  datatype ListEntry = ListEntry(playerUID: string, remaining: RemainingView)

  /** A value read back from the save slot: an integer, or something whose text is not one. */
  datatype StoredValue = Number(n: int) | NotNumber

  /** One entry of the saved tree: the player UID and the expiry in ticks. */
  datatype Record = Record(key: string, value: StoredValue)

  /** long.TryParse applied to the text of a stored value. */
  function TryParseLong(v: StoredValue): Option<int>
  {
    if v.Number? && Int64Min <= v.n <= Int64Max then Some(v.n) else None
  }

  /** The players a mute list names. */
  function Listed(entries: seq<ListEntry>): set<string>
  {
    set i | 0 <= i < |entries| :: entries[i].playerUID
  }

  lemma ListedSnoc(entries: seq<ListEntry>, e: ListEntry)
    ensures Listed(entries + [e]) == Listed(entries) + {e.playerUID}
  {
    assert (entries + [e])[|entries|] == e;
    forall k | k in Listed(entries) ensures k in Listed(entries + [e]) {
      var i :| 0 <= i < |entries| && entries[i].playerUID == k;
      assert (entries + [e])[i] == entries[i];
    }
  }

  /** The mute list line for an entry of `m`. */
  function EntryFor(m: map<string, Instant>, uid: string, now: Instant): ListEntry
    requires uid in m
  {
    ListEntry(uid, FormatTimeRemaining(m[uid] - now))
  }

  /** The player is muted at `now`: there is an entry and it has not expired. */
  predicate IsMuted(m: map<string, Instant>, uid: string, now: Instant)
  {
    uid in m && now < m[uid]
  }

  /** The entries still active at `now`. */
  function ActiveMutes(m: map<string, Instant>, now: Instant): map<string, Instant>
  {
    map k | k in m && now < m[k] :: m[k]
  }

  predicate DistinctKeys(s: seq<Record>)
  {
    forall i, j :: 0 <= i < j < |s| ==> s[i].key != s[j].key
  }

  function KeysOf(s: seq<Record>): set<string>
  {
    set i | 0 <= i < |s| :: s[i].key
  }

  lemma KeysOfSnoc(s: seq<Record>, r: Record)
    ensures KeysOf(s + [r]) == KeysOf(s) + {r.key}
  {
    assert (s + [r])[|s|] == r;
    forall k | k in KeysOf(s) ensures k in KeysOf(s + [r]) {
      var i :| 0 <= i < |s| && s[i].key == k;
      assert (s + [r])[i] == s[i];
    }
  }

  /** `s` lists every entry of `m` exactly once, each as its key and its expiry ticks. */
  predicate IsSnapshotOf(s: seq<Record>, m: map<string, Instant>)
  {
    && DistinctKeys(s)
    && KeysOf(s) == m.Keys
    && RecordsOf(s, m)
  }

  /** Every record holds the expiry ticks of its key's entry in `m`. */
  predicate RecordsOf(s: seq<Record>, m: map<string, Instant>)
  {
    forall i :: 0 <= i < |s| ==> s[i].key in m && s[i].value == Number(m[s[i].key])
  }

  /** Appending the record of a key not yet saved keeps the tree well formed. */
  lemma AppendRecord(s: seq<Record>, m: map<string, Instant>, uid: string)
    requires DistinctKeys(s) && RecordsOf(s, m)
    requires uid in m && uid !in KeysOf(s)
    ensures DistinctKeys(s + [Record(uid, Number(m[uid]))])
    ensures RecordsOf(s + [Record(uid, Number(m[uid]))], m)
    ensures KeysOf(s + [Record(uid, Number(m[uid]))]) == KeysOf(s) + {uid}
  {
    var r := Record(uid, Number(m[uid]));
    KeysOfSnoc(s, r);
    forall i | 0 <= i < |s| ensures s[i].key != uid {
      assert s[i].key in KeysOf(s);
    }
    var s' := s + [r];
    forall i | 0 <= i < |s'| ensures s'[i].key in m && s'[i].value == Number(m[s'[i].key]) {
      if i < |s| {
        assert s'[i] == s[i];
      }
    }
  }

  /**
   * Loading saved records into `m` in order: a value that is not a 64-bit integer is skipped,
   * an expiry not after `now` is skipped, and an integer outside the DateTime range ends the
   * load (constructing the DateTime throws and the handler gives up on the rest).
   * Loading keeps every key already there (an active record may overwrite its expiry) and adds
   * only active entries.
   */
  function LoadRecords(m: map<string, Instant>, records: seq<Record>, now: Instant): (r: map<string, Instant>)
    ensures m.Keys <= r.Keys
    ensures forall k :: k in r ==> (k in m && r[k] == m[k]) || now < r[k]
    decreases |records|
  {
    if records == [] then m
    else match TryParseLong(records[0].value)
      case None => LoadRecords(m, records[1..], now)
      case Some(ticks) =>
        if ticks < 0 || ticks > MaxTicks then m
        else if now < ticks then LoadRecords(m[records[0].key := ticks], records[1..], now)
        else LoadRecords(m, records[1..], now)
  }

  /** Loading a snapshot of `m` on top of `acc` adds exactly the entries of `m` active at `now`. */
  lemma {:induction false} LoadSnapshot(acc: map<string, Instant>, s: seq<Record>, m: map<string, Instant>, now: Instant)
    requires IsSnapshotOf(s, m)
    ensures LoadRecords(acc, s, now) == acc + ActiveMutes(m, now)
    decreases |s|
  {
    if s == [] {
      assert ActiveMutes(m, now) == map[];
    } else {
      var k, t := s[0].key, m[s[0].key];
      SnapshotTail(s, m);
      var acc' := if now < t then acc[k := t] else acc;
      assert TryParseLong(s[0].value) == Some(t);
      assert LoadRecords(acc, s, now) == LoadRecords(acc', s[1..], now);
      LoadSnapshot(acc', s[1..], m - {k}, now);
      ActiveSplit(acc, m, k, now);
    }
  }

  /** Adding one active entry and then the rest of the active map is adding the whole active map. */
  lemma ActiveSplit(acc: map<string, Instant>, m: map<string, Instant>, k: string, now: Instant)
    requires k in m
    ensures (if now < m[k] then acc[k := m[k]] else acc) + ActiveMutes(m - {k}, now) == acc + ActiveMutes(m, now)
  {
  }

  /** The records after the first are a snapshot of the rest of the map. */
  lemma SnapshotTail(s: seq<Record>, m: map<string, Instant>)
    requires IsSnapshotOf(s, m) && s != []
    ensures IsSnapshotOf(s[1..], m - {s[0].key})
  {
    var m' := m - {s[0].key};
    forall i | 0 <= i < |s| - 1 ensures s[1..][i].key in m' && s[1..][i].value == Number(m'[s[1..][i].key]) {
      assert s[1..][i] == s[i + 1];
      assert s[i + 1].key != s[0].key;
    }
    assert KeysOf(s[1..]) == m'.Keys by {
      forall k | k in m'.Keys ensures k in KeysOf(s[1..]) {
        var i :| 0 <= i < |s| && s[i].key == k;
        assert s[1..][i - 1] == s[i];
      }
    }
  }

  /**
   * Saving then loading: a store rebuilt from a saved snapshot at `now` holds exactly the
   * entries of the saved store that are still active at `now`.
   */
  lemma SaveLoadRoundTrip(s: seq<Record>, m: map<string, Instant>, now: Instant)
    requires IsSnapshotOf(s, m)
    ensures LoadRecords(map[], s, now) == ActiveMutes(m, now)
  {
    LoadSnapshot(map[], s, m, now);
    assert map[] + ActiveMutes(m, now) == ActiveMutes(m, now);
  }

  /**
   * An unmute that saves leaves a snapshot of the store without the player: a reload brings
   * back the other active mutes and not that one.
   */
  lemma PersistedUnmuteSurvivesReload(s: seq<Record>, m: map<string, Instant>, uid: string, now: Instant)
    requires IsSnapshotOf(s, m - {uid})
    ensures LoadRecords(map[], s, now) == ActiveMutes(m - {uid}, now)
    ensures !IsMuted(LoadRecords(map[], s, now), uid, now)
  {
    SaveLoadRoundTrip(s, m - {uid}, now);
  }

  /**
   * The duration arguments of the mute command: the first always, the optional second and
   * third only when given and not blank.
   */
  function MuteDurations(duration1: string, duration2: Option<string>, duration3: Option<string>): (ds: seq<string>)
    ensures 1 <= |ds| <= 3 && ds[0] == duration1
  {
    [duration1]
    + (if duration2.Some? && !IsBlank(duration2.value) then [duration2.value] else [])
    + (if duration3.Some? && !IsBlank(duration3.value) then [duration3.value] else [])
  }

  /** No player is named twice in the list. */
  predicate DistinctPlayers(entries: seq<ListEntry>)
  {
    forall i, j :: 0 <= i < j < |entries| ==> entries[i].playerUID != entries[j].playerUID
  }

  /** Every line of the list is the line of its player's entry in `m`. */
  predicate LinesOf(entries: seq<ListEntry>, m: map<string, Instant>, now: Instant)
  {
    forall i :: 0 <= i < |entries| ==> entries[i].playerUID in m && entries[i] == EntryFor(m, entries[i].playerUID, now)
  }

  /** Appending the line of a player not yet listed keeps the list well formed. */
  lemma AppendLine(entries: seq<ListEntry>, m: map<string, Instant>, uid: string, now: Instant)
    requires DistinctPlayers(entries) && LinesOf(entries, m, now)
    requires uid in m && uid !in Listed(entries)
    ensures DistinctPlayers(entries + [EntryFor(m, uid, now)])
    ensures LinesOf(entries + [EntryFor(m, uid, now)], m, now)
    ensures Listed(entries + [EntryFor(m, uid, now)]) == Listed(entries) + {uid}
  {
    var e := EntryFor(m, uid, now);
    ListedSnoc(entries, e);
    forall i | 0 <= i < |entries| ensures entries[i].playerUID != uid {
      assert entries[i].playerUID in Listed(entries);
    }
    var s := entries + [e];
    forall i | 0 <= i < |s| ensures s[i].playerUID in m && s[i] == EntryFor(m, s[i].playerUID, now) {
      if i < |entries| {
        assert s[i] == entries[i];
      }
    }
  }

  /** The lines of the mute list for the active entries: one per entry, in no particular order. */
  method ListLines(activeMutes: map<string, Instant>, now: Instant) returns (entries: seq<ListEntry>)
    ensures Listed(entries) == activeMutes.Keys
    ensures |entries| == |activeMutes.Keys|
    ensures LinesOf(entries, activeMutes, now)
    ensures DistinctPlayers(entries)
  {
    entries := [];
    var pending := activeMutes.Keys;
    while pending != {}
      invariant pending <= activeMutes.Keys
      invariant |entries| + |pending| == |activeMutes.Keys|
      invariant LinesOf(entries, activeMutes, now)
      invariant Listed(entries) == activeMutes.Keys - pending
      invariant DistinctPlayers(entries)
      decreases pending
    {
      var uid :| uid in pending;
      AppendLine(entries, activeMutes, uid, now);
      entries := entries + [EntryFor(activeMutes, uid, now)];
      pending := pending - {uid};
    }
  }

  class ChatMuteModSystem {
    /** Player UID to the instant the mute ends. */
    var mutedPlayers: map<string, Instant>

    /** The world save slot the mod stores its tree in; None when nothing is stored. */
    var savedData: Option<seq<Record>>

    /** A fresh mod instance on a world whose save slot holds `savedData`. */
    constructor (savedData: Option<seq<Record>>)
      ensures this.mutedPlayers == map[] && this.savedData == savedData
    {
      this.mutedPlayers := map[];
      this.savedData := savedData;
    }

    /**
     * The chat hook. On the general channel a message from a muted player is consumed and the
     * sender told the time left; a stale entry met here is removed and the message goes through.
     * Other channels and unmuted players are left alone. The save slot is not written.
     */
    method OnPlayerChat(playerUID: string, channelId: int, now: Instant) returns (verdict: ChatVerdict)
      modifies this`mutedPlayers
      ensures verdict.Blocked? <==> channelId == GeneralChatGroup && IsMuted(old(mutedPlayers), playerUID, now)
      ensures verdict.Blocked? ==> verdict.remaining == FormatTimeRemaining(old(mutedPlayers)[playerUID] - now)
      ensures mutedPlayers ==
        if channelId == GeneralChatGroup && playerUID in old(mutedPlayers) && old(mutedPlayers)[playerUID] <= now
        then old(mutedPlayers) - {playerUID}
        else old(mutedPlayers)
    {
      verdict := Allowed;
      if channelId == GeneralChatGroup {
        if playerUID in mutedPlayers {
          var muteExpiry := mutedPlayers[playerUID];
          if now < muteExpiry {
            return Blocked(FormatTimeRemaining(muteExpiry - now));
          } else {
            mutedPlayers := mutedPlayers - {playerUID};
          }
        }
      }
    }

    /**
     * The mute command, with the player name already resolved (None when no player matched).
     * The duration is checked first, then the player; on success the expiry is set to
     * `now` plus the duration, replacing any earlier one, and the store is saved.
     * Every error leaves the store and the save slot as they were.
     */
    method OnMuteCommand(duration1: string, duration2: Option<string>, duration3: Option<string>,
                         targetPlayerUID: Option<string>, now: Instant)
      returns (result: Result<Friendly>)
      modifies this
      ensures
        var parsed := ParseTotal(MuteDurations(duration1, duration2, duration3));
        if parsed.None? || parsed.value <= 0 then
          result == Err(InvalidDuration) && mutedPlayers == old(mutedPlayers) && savedData == old(savedData)
        else if targetPlayerUID.None? then
          result == Err(PlayerNotFound) && mutedPlayers == old(mutedPlayers) && savedData == old(savedData)
        else if now + parsed.value * TicksPerMinute > MaxTicks then
          result == Err(ExpiryOutOfRange) && mutedPlayers == old(mutedPlayers) && savedData == old(savedData)
        else
          && result == Ok(FormatDurationFriendly(parsed.value))
          && mutedPlayers == old(mutedPlayers)[targetPlayerUID.value := now + parsed.value * TicksPerMinute]
          && savedData.Some? && IsSnapshotOf(savedData.value, mutedPlayers)
    {
      var durations := MuteDurations(duration1, duration2, duration3);
      var totalMinutes := ParseDurations(durations);
      ParseOutcomeExact(durations);
      if totalMinutes <= 0 {
        return Err(InvalidDuration);
      }
      if targetPlayerUID.None? {
        return Err(PlayerNotFound);
      }
      var muteExpiry := now + totalMinutes * TicksPerMinute;
      if muteExpiry > MaxTicks {
        return Err(ExpiryOutOfRange);
      }
      mutedPlayers := mutedPlayers[targetPlayerUID.value := muteExpiry];
      SaveMuteData();
      result := Ok(FormatDurationFriendly(totalMinutes));
    }

    /**
     * The unmute command, with the player name already resolved. The entry is removed whether
     * it was active or stale; only a missing entry is an error. The save slot is not written.
     */
    method OnUnmuteCommand(targetPlayerUID: Option<string>) returns (result: Result<string>)
      modifies this`mutedPlayers
      ensures targetPlayerUID.None? ==> result == Err(PlayerNotFound) && mutedPlayers == old(mutedPlayers)
      ensures targetPlayerUID.Some? && targetPlayerUID.value in old(mutedPlayers) ==>
        result == Ok(targetPlayerUID.value) && mutedPlayers == old(mutedPlayers) - {targetPlayerUID.value}
      ensures targetPlayerUID.Some? && targetPlayerUID.value !in old(mutedPlayers) ==>
        result == Err(NotMuted) && mutedPlayers == old(mutedPlayers)
    {
      if targetPlayerUID.None? {
        return Err(PlayerNotFound);
      }
      var uid := targetPlayerUID.value;
      if uid in mutedPlayers {
        mutedPlayers := mutedPlayers - {uid};
        return Ok(uid);
      }
      return Err(NotMuted);
    }

    /**
     * Unmute as evidently intended: the same results, and a successful removal is saved like
     * every other change to the store.
     */
    method OnUnmuteCommandPersisted(targetPlayerUID: Option<string>) returns (result: Result<string>)
      modifies this
      ensures targetPlayerUID.None? ==>
        result == Err(PlayerNotFound) && mutedPlayers == old(mutedPlayers) && savedData == old(savedData)
      ensures targetPlayerUID.Some? && targetPlayerUID.value in old(mutedPlayers) ==>
        && result == Ok(targetPlayerUID.value) && mutedPlayers == old(mutedPlayers) - {targetPlayerUID.value}
        && savedData.Some? && IsSnapshotOf(savedData.value, mutedPlayers)
      ensures targetPlayerUID.Some? && targetPlayerUID.value !in old(mutedPlayers) ==>
        result == Err(NotMuted) && mutedPlayers == old(mutedPlayers) && savedData == old(savedData)
    {
      result := OnUnmuteCommand(targetPlayerUID);
      if result.Ok? {
        SaveMuteData();
      }
    }

    /**
     * The mute list: one line per active entry, each once, with the time left; nothing
     * when no entry is active. The store is not changed.
     */
    method OnMuteListCommand(now: Instant) returns (entries: seq<ListEntry>)
      ensures Listed(entries) == ActiveMutes(mutedPlayers, now).Keys
      ensures |entries| == |ActiveMutes(mutedPlayers, now).Keys|
      ensures forall i :: 0 <= i < |entries| ==>
        IsMuted(mutedPlayers, entries[i].playerUID, now) && entries[i] == EntryFor(mutedPlayers, entries[i].playerUID, now)
      ensures DistinctPlayers(entries)
    {
      entries := [];
      if mutedPlayers == map[] {
        assert ActiveMutes(mutedPlayers, now).Keys == {};
        return;
      }
      var activeMutes := ActiveMutes(mutedPlayers, now);
      entries := ListLines(activeMutes, now);
      forall i | 0 <= i < |entries|
        ensures IsMuted(mutedPlayers, entries[i].playerUID, now)
        ensures entries[i] == EntryFor(mutedPlayers, entries[i].playerUID, now)
      {
        assert activeMutes[entries[i].playerUID] == mutedPlayers[entries[i].playerUID];
      }
    }

    /**
     * The sweep timer: removes every entry whose expiry is not after `now` and keeps the others;
     * saves, and reports a change, exactly when something was removed.
     */
    method CleanupExpiredMutes(now: Instant) returns (dataChanged: bool)
      modifies this
      ensures mutedPlayers == ActiveMutes(old(mutedPlayers), now)
      ensures dataChanged <==> exists uid :: uid in old(mutedPlayers) && old(mutedPlayers)[uid] <= now
      ensures dataChanged ==> savedData.Some? && IsSnapshotOf(savedData.value, mutedPlayers)
      ensures !dataChanged ==> savedData == old(savedData)
    {
      var expiredMutes := set uid | uid in mutedPlayers && mutedPlayers[uid] <= now;
      dataChanged := false;
      var pending := expiredMutes;
      while pending != {}
        invariant pending <= expiredMutes
        invariant mutedPlayers == old(mutedPlayers) - (expiredMutes - pending)
        invariant dataChanged <==> expiredMutes - pending != {}
        invariant savedData == old(savedData)
        decreases pending
      {
        var uid :| uid in pending;
        if uid in mutedPlayers {
          mutedPlayers := mutedPlayers - {uid};
          dataChanged := true;
        }
        pending := pending - {uid};
      }
      assert mutedPlayers == ActiveMutes(old(mutedPlayers), now);
      if dataChanged {
        SaveMuteData();
      } else {
        assert expiredMutes == {};
      }
    }

    /**
     * Startup load from the save slot into the store; an empty slot (or one that does not
     * decode) loads nothing.
     */
    method LoadMuteData(now: Instant)
      modifies this`mutedPlayers
      ensures mutedPlayers ==
        if savedData.None? then old(mutedPlayers) else LoadRecords(old(mutedPlayers), savedData.value, now)
    {
      if savedData.None? {
        return;
      }
      var tree := savedData.value;
      var i := 0;
      while i < |tree|
        invariant 0 <= i <= |tree|
        invariant LoadRecords(old(mutedPlayers), tree, now) == LoadRecords(mutedPlayers, tree[i..], now)
      {
        var entry := tree[i];
        assert tree[i..][0] == entry && tree[i..][1..] == tree[i + 1..];
        match TryParseLong(entry.value) {
          case None =>
          case Some(ticks) =>
            if ticks < 0 || ticks > MaxTicks {
              return;
            }
            if now < ticks {
              mutedPlayers := mutedPlayers[entry.key := ticks];
            }
        }
        i := i + 1;
      }
    }

    /** Writes a snapshot of the store to the save slot. */
    method SaveMuteData()
      modifies this`savedData
      ensures savedData.Some? && IsSnapshotOf(savedData.value, mutedPlayers)
    {
      var tree := Snapshot();
      savedData := Some(tree);
    }

    /**
     * Orderly shutdown of a started mod: the store is saved one last time (unhooking the chat
     * handler is not modelled).
     */
    method Dispose()
      modifies this`savedData
      ensures savedData.Some? && IsSnapshotOf(savedData.value, mutedPlayers)
    {
      SaveMuteData();
    }

    /** The tree the save writes: one (UID, expiry ticks) record per entry. */
    method Snapshot() returns (tree: seq<Record>)
      ensures IsSnapshotOf(tree, mutedPlayers)
      ensures |tree| == |mutedPlayers.Keys|
    {
      tree := [];
      var pending := mutedPlayers.Keys;
      while pending != {}
        invariant pending <= mutedPlayers.Keys
        invariant |tree| + |pending| == |mutedPlayers.Keys|
        invariant RecordsOf(tree, mutedPlayers)
        invariant KeysOf(tree) == mutedPlayers.Keys - pending
        invariant DistinctKeys(tree)
        decreases pending
      {
        var uid :| uid in pending;
        AppendRecord(tree, mutedPlayers, uid);
        tree := tree + [Record(uid, Number(mutedPlayers[uid]))];
        pending := pending - {uid};
      }
    }
  }
}

/**
 * Mute, unmute and restart, played through the handlers. An unclean stop skips `Dispose`, so the
 * restarted server loads whatever the last save left in the slot.
 */
module ChatMuteScenarios {
  import opened Wrappers
  import opened Time
  import opened Duration
  import opened ChatMute
  import DurationExamples

  /** A one-day mute lasts 1440 minutes. */
  lemma OneDay()
    ensures ParseTotal(MuteDurations("1d", None, None)) == Some(1440)
  {
    assert MuteDurations("1d", None, None) == ["1d"];
    assert DecimalValue("1") == 1;
    DurationExamples.OneToken("1d", "1", 1, 'd');
  }

  /**
   * As written: after `/mute uid 1d` and `/unmute uid`, an unclean stop and a restart within
   * the day bring the mute back, because the unmute was never saved.
   */
  method UnmuteRevivedAfterCrash(uid: string, now: Instant, later: Instant)
    returns (unmuted: Result<string>, reloaded: map<string, Instant>)
    requires now + 1440 * TicksPerMinute <= MaxTicks
    requires now <= later < now + 1440 * TicksPerMinute
    ensures unmuted == Ok(uid)
    ensures reloaded == map[uid := now + 1440 * TicksPerMinute]
  {
    OneDay();
    var sys := new ChatMuteModSystem(None);
    var muted := sys.OnMuteCommand("1d", None, None, Some(uid), now);
    unmuted := sys.OnUnmuteCommand(Some(uid));
    var restarted := new ChatMuteModSystem(sys.savedData);
    restarted.LoadMuteData(later);
    SaveLoadRoundTrip(sys.savedData.value, map[uid := now + 1440 * TicksPerMinute], later);
    reloaded := restarted.mutedPlayers;
  }

  /** As written, but with an orderly shutdown: `Dispose` saves the store, and the unmute holds. */
  method UnmuteKeptAfterDispose(uid: string, now: Instant, later: Instant)
    returns (unmuted: Result<string>, reloaded: map<string, Instant>)
    requires now + 1440 * TicksPerMinute <= MaxTicks
    requires now <= later
    ensures unmuted == Ok(uid)
    ensures reloaded == map[]
  {
    OneDay();
    var sys := new ChatMuteModSystem(None);
    var muted := sys.OnMuteCommand("1d", None, None, Some(uid), now);
    unmuted := sys.OnUnmuteCommand(Some(uid));
    sys.Dispose();
    var restarted := new ChatMuteModSystem(sys.savedData);
    restarted.LoadMuteData(later);
    SaveLoadRoundTrip(sys.savedData.value, map[], later);
    reloaded := restarted.mutedPlayers;
  }

  /** With an unmute that saves, the unmute holds even across an unclean stop. */
  method PersistedUnmuteKeptAfterCrash(uid: string, now: Instant, later: Instant)
    returns (unmuted: Result<string>, reloaded: map<string, Instant>)
    requires now + 1440 * TicksPerMinute <= MaxTicks
    requires now <= later
    ensures unmuted == Ok(uid)
    ensures reloaded == map[]
  {
    OneDay();
    var sys := new ChatMuteModSystem(None);
    var muted := sys.OnMuteCommand("1d", None, None, Some(uid), now);
    unmuted := sys.OnUnmuteCommandPersisted(Some(uid));
    var restarted := new ChatMuteModSystem(sys.savedData);
    restarted.LoadMuteData(later);
    SaveLoadRoundTrip(sys.savedData.value, map[], later);
    reloaded := restarted.mutedPlayers;
  }
}
