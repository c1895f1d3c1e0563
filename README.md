# Chat mute engine — a Dafny model

This project models the mute-state engine of the Vintage Story server mod *Global Chat Mute*
(`ChatMute.cs`, class `ChatMuteModSystem`). The mod keeps a map from player UID to the moment
a mute expires. Several operations act on that map:

- the chat hook blocks general-channel messages from muted players and removes a stale entry when it meets one;
- `/mute` parses one to three duration tokens (`1d`, `20h`, `45m`) and sets the expiry;
- `/unmute` removes an entry;
- `/mutelist` shows the active entries with the time left;
- a timer sweeps out expired entries;
- the map is saved to and loaded from the world save as (UID, expiry ticks) records.

Files:

- `Time.dfy`: DateTime as a tick count (`Instant`, 0 to `DateTime.MaxValue.Ticks`), C#
  truncating `/` and `%` (`Quot`, `Rem`) and 32-bit `int` wrap-around (`Wrap32`).
- `Duration.dfy`: the duration parser. `ScanToken` and `ParseTotal` form the specification;
  `ParseDurations` is the imperative parser, with its token loop and inner digit loop, proved
  to compute it. `WellFormed` states the token grammar independently. The `DurationExamples`
  module proves worked cases.
- `Format.dfy`: the two renderings of a duration: `FormatDurationFriendly` for minute counts
  and `FormatTimeRemaining` for a remaining `TimeSpan`. A rendering is the message template's
  tier plus the integers shown in it.
- `ChatMute.dfy`: the class `ChatMuteModSystem`. Its field `mutedPlayers` is the store and
  `savedData` is the world save slot. It holds one method per handler, plus the
  save/load specification (`LoadRecords`, `IsSnapshotOf`) and its round-trip lemma. The
  `ChatMuteScenarios` module plays mute, unmute and restart through the handlers.

The clock (`DateTime.UtcNow`) is an explicit `now` parameter. Player-name lookup happens
before a command reaches the model, which receives the resolved UID or `None`.

## Model

| member | source | states |
|---|---|---|
| Duration.LowerCaseKeeps | ChatMute.cs:138 | lower-casing leaves digits alone and makes no new ones, and yields `d`, `h` or `m` exactly from that letter in either case |
| Duration.DigitRun | ChatMute.cs:141-143 | the scan stops at the first non-digit: everything before it is a digit, and the next character is not one |
| Duration.ParseInt32 | ChatMute.cs:155 | `int.TryParse` on a digit run fails on the empty string, succeeds on any run of one to nine digits, and a success is the run's decimal value within `int` range |
| Duration.ScanDuration | ChatMute.cs:135-177 | one iteration of the token loop (blank skip, digit scan, unit and trailing checks, number, unit switch with caps) gives exactly `ScanToken` |
| Duration.ParseDurations | ChatMute.cs:126-181 | the parser returns -1 if any token is rejected, otherwise the token total in wrapping 32-bit arithmetic (`ParseOutcome`) |
| Duration.ScanTokenMatchesGrammar | ChatMute.cs:135-177 | a token is skipped iff blank; adds minutes iff it is digits plus one d/h/m letter in either case with value 1..cap; its minutes are value times the unit's minutes; otherwise the parse fails |
| Duration.ScanTokenBounds | ChatMute.cs:158-174 | an accepted token adds between 1 and 365 days' worth of minutes |
| Duration.ParseTotalConcat | ChatMute.cs:133-178 | the total of a concatenated list is the combination of the two totals |
| Duration.ParseTotalFails | ChatMute.cs:145-176 | the parse fails iff some token in the list is rejected |
| Duration.RejectedFailsAll | ChatMute.cs:145-176 | a rejected token at any position fails the whole list |
| Duration.ParseTotalPermutation | ChatMute.cs:96-97 | durations may come in any order: lists with the same tokens in any arrangement have the same total |
| Duration.ParseTotalSwap | ChatMute.cs:96-97 | two tokens give the same total in either order |
| Duration.ParseTotalZero | ChatMute.cs:128-180 | the total is 0 exactly when every token is blank |
| Duration.ParseTotalBounds | ChatMute.cs:158-174 | an accepted list totals between 0 and 365 days per token |
| Duration.ParseOutcomeExact | ChatMute.cs:90-97 | with at most three tokens the `int` accumulator cannot wrap: -1 on failure, else the exact total, at most 3 × 365 days |
| DurationExamples.OneToken | ChatMute.cs:141-174 | a digit string with value 1..cap followed by a unit letter parses to value times the unit's minutes |
| DurationExamples.Rejected1 | ChatMute.cs:145-176 | a non-blank token outside the grammar fails the parse |
| DurationExamples.MixedUnits | ChatMute.cs:158-174 | `1d 2h` and `2h 1d` both give 1560 minutes; `1d 12h` gives 2160 |
| DurationExamples.Caps | ChatMute.cs:158-174 | `365d`, `24H` and `60m`, at their caps, are accepted |
| DurationExamples.OverCapToken | ChatMute.cs:158-176 | a digit string followed by a unit letter whose value is over that unit's cap fails the parse |
| DurationExamples.OverCap | ChatMute.cs:161-172 | `400d`, `25h` and `61m` are rejected |
| DurationExamples.Malformed | ChatMute.cs:145-176 | an unknown unit (`10x`), no digits (`d`) and no unit (`10`) are rejected |
| Time.QuotRem | ChatMute.cs:185-187 | C# integer `/` and `%`: quotient times divisor plus remainder is the dividend, and the remainder takes the dividend's sign |
| Time.Wrap32 | ChatMute.cs:163-173 | `int` addition wraps: the result is in `int` range, equals the exact value when that fits, and differs from it by a multiple of 2^32 |
| Time.WrapAdd | ChatMute.cs:163-173 | wrapping after each `+=` is the same as wrapping the exact sum once |
| Format.MinuteParts | ChatMute.cs:185-187 | a non-negative minute count is days × 1440 + hours × 60 + minutes, with hours below 24 and minutes below 60 |
| Format.FormatDurationFriendly | ChatMute.cs:183-194 | the days tier is chosen iff the count reaches a day, the hours tier iff it is from one hour up to a day; a non-negative count is recomposed exactly from the shown parts |
| Format.FormatTimeRemainingTruncates | ChatMute.cs:384-395 | the days tier iff at least one day remains, the hours tier iff one hour to one day; the shown components truncate the remaining time to the tier's smallest unit and are in range |
| ChatMute.MuteDurations | ChatMute.cs:89-94 | the first duration is always passed; with the optional ones there are one to three tokens |
| ChatMute.LoadRecords | ChatMute.cs:290-300 | loading keeps every key already present (an active record may overwrite its expiry) and adds only entries that are active at `now` |
| ChatMute.LoadSnapshot | ChatMute.cs:290-299 | loading a saved snapshot of a store on top of a map adds exactly that store's active entries |
| ChatMute.SaveLoadRoundTrip | ChatMute.cs:313-316 | a store rebuilt from its saved snapshot holds exactly the saved store's entries still active at `now` |
| ChatMute.PersistedUnmuteSurvivesReload | ChatMute.cs:207 | after an unmute that saves, a reload restores the other active mutes and not the removed one |
| ChatMute.ListLines | ChatMute.cs:241-248 | the list has one line per active entry, each player once, and each line holds that player's remaining-time view |
| ChatMute.ChatMuteModSystem.constructor | ChatMute.cs:15 | the store starts empty |
| ChatMute.ChatMuteModSystem.OnPlayerChat | ChatMute.cs:57-80 | a message is blocked iff it is on the general channel and the sender is muted, and then it carries the time left; a stale entry met on the general channel is removed; nothing else changes |
| ChatMute.ChatMuteModSystem.OnMuteCommand | ChatMute.cs:82-124 | errors are checked in order (invalid or non-positive duration, unknown player, expiry past `DateTime.MaxValue`) and leave store and save unchanged; otherwise the expiry becomes `now` plus the duration, replacing any earlier one, the store is saved, and the friendly duration is returned |
| ChatMute.ChatMuteModSystem.OnUnmuteCommand | ChatMute.cs:196-223 | unknown player and missing entry are errors that leave the store unchanged; otherwise the entry, active or stale, is removed and the save slot is not written |
| ChatMute.ChatMuteModSystem.OnUnmuteCommandPersisted | ChatMute.cs:196-223 | the same results as unmute; a successful removal also saves a snapshot of the new store |
| ChatMute.ChatMuteModSystem.OnMuteListCommand | ChatMute.cs:225-250 | the list names exactly the players muted at `now`, each once, as many lines as the header count, each with its remaining-time view; an empty store gives an empty list |
| ChatMute.ChatMuteModSystem.CleanupExpiredMutes | ChatMute.cs:252-272 | the store afterwards is exactly its active part; a change is reported iff some entry had expired, and the store is saved exactly then |
| ChatMute.ChatMuteModSystem.LoadMuteData | ChatMute.cs:274-307 | the store becomes `LoadRecords` of the saved records, or stays the same when nothing is saved |
| ChatMute.ChatMuteModSystem.SaveMuteData | ChatMute.cs:309-332 | the save slot then holds a snapshot of the store: every entry once, as its UID and its expiry ticks |
| ChatMute.ChatMuteModSystem.Dispose | ChatMute.cs:397-404 | an orderly shutdown leaves a snapshot of the store in the save slot |
| ChatMuteScenarios.OneDay | ChatMute.cs:89-97 | the mute arguments `1d` alone total 1440 minutes |
| ChatMuteScenarios.UnmuteRevivedAfterCrash | ChatMute.cs:207-219 | through the handlers: mute for a day, unmute (which succeeds), stop without `Dispose`, restart and load within the day, and the store holds the mute again with its original expiry |
| ChatMuteScenarios.UnmuteKeptAfterDispose | ChatMute.cs:397-404 | the same sequence with an orderly shutdown: `Dispose` saves, and the restarted store is empty |
| ChatMuteScenarios.PersistedUnmuteKeptAfterCrash | ChatMute.cs:207-219 | with the saving unmute, the restarted store is empty even after a stop without `Dispose` |
| ChatMute.ChatMuteModSystem.Snapshot | ChatMute.cs:313-317 | the tree has one record per entry, with distinct keys and each entry's ticks |

## Left out

- Host integration is not modelled: `ShouldLoad`, `StartServerSide`, command registration and privileges, and the 30-second timer. The model's methods are the handlers those would call. `Dispose` is modelled by its final save only; unhooking the chat handler is not modelled.
- Messages are not modelled: `Lang.Get` templates, `SendMessage` and the final text of each command. Each result is the tier and integers that go into the template, or an error constructor.
- `FindPlayerUID` and `GetPlayerNameByUID`, with their online, player-data and offline lookups and the unknown-player fallback, are not modelled. Commands receive the resolved UID or `None`, and list lines carry the UID.
- `DateTime.UtcNow` is the parameter `now`. The chat hook and the list read the clock twice in the source (the comparison, then the remaining time); the model uses one instant for both.
- Concurrency is not modelled: `ConcurrentDictionary` is a plain map, and its enumeration order is left unspecified (`ListLines`, `Snapshot` and the sweep work through keys in arbitrary order).
- The binary `TreeAttribute` encoding is not modelled. The save slot holds the record list; an empty or undecodable slot is `None`. A stored value whose text is not a 64-bit integer is `NotNumber` and is skipped.
- In the load, `new DateTime(ticks)` throws for ticks outside the DateTime range, and the catch handler ends the load. `LoadRecords` stops there and keeps the entries already loaded.
- `DateTime.AddMinutes` throws when the expiry would pass `DateTime.MaxValue`. That exception is not caught in the command and is modelled as the error `ExpiryOutOfRange`, which changes nothing.
- Duration.ToLowerInvariant: only ASCII `A`–`Z` are lowered. No other character lowers to a digit or to `d`, `h` or `m`, so any token holding one is rejected either way.
- Duration.IsDigit: only ASCII digits count. `char.IsDigit` accepts other Unicode decimal digits, but `int.TryParse` then rejects the number part, so the token is rejected in both models.
- Format.FormatTimeRemainingTruncates: days come from integer division of ticks rather than from `(int)TimeSpan.TotalDays`, a `double`. The two agree for any remaining time a DateTime can hold, apart from floating-point rounding, which is not modelled.
- In the source the sweep returns nothing. The model returns whether anything was removed, which decides whether the source saves.
- ChatMute.ChatMuteModSystem.OnUnmuteCommand: follows the code, which does not save after a removal, although mute and the sweep both save theirs. See Findings.

## Findings

| source | as written | input that shows it | evidently intended | confidence | as-written member | corrected member |
|---|---|---|---|---|---|---|
| ChatMute.cs:207 | `/unmute` removes the entry but never calls `SaveMuteData`, so the save slot keeps the snapshot from before the unmute until something else saves: a later `/mute` (line 111), a sweep that removes an entry (line 270), or `Dispose` on an orderly shutdown (line 401) | `/mute Alice 1d`, then `/unmute Alice`, then the server stops without `Dispose` (a crash or kill) before any other save, and restarts within the day: the load restores Alice's mute | unmute saves like mute and the sweep, so the unmute survives any restart | medium, not executed | ChatMute.ChatMuteModSystem.OnUnmuteCommand, ChatMuteScenarios.UnmuteRevivedAfterCrash | ChatMute.ChatMuteModSystem.OnUnmuteCommandPersisted, ChatMuteScenarios.PersistedUnmuteKeptAfterCrash |
