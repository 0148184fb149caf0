# cloud_common core, modelled in Dafny

This project models the message-handling core of the OpenAg cloud services library
(`cloud_common`), and proves properties of that model.

- **Device message dispatcher** (`MqttMessaging`). It validates and types every device message:
  `EnvVar`, `CommandReply`, `Image`, `ImageUpload` or `RecipeEvent`.
  - Telemetry becomes a `{timestamp, name, value}` record pushed onto the device entity, and a
    warehouse row whose id is `<Env|Cmd>~<variable>~<timestamp>~<device>`.
  - A recipe event is republished as a notification.
  - Legacy image chunks go to the chunk reassembler.
- **Legacy chunk reassembly** (`ImageChunking`). A chunk cache and an abandoned-image ("turd")
  ledger. An empty chunk abandons the image. Stale abandoned images of the device are purged.
  Once every index is present, the chunks are joined in `chunkNum` order.
- **Notification engine.**
  - The per-device command schedule (`Scheduler`).
  - The recipe run queue (`Runs`).
  - The notification list (`NotificationData`).
  - The recipe lifecycle message handler that drives them (`NotificationMessaging`).
- **Warehouse id layout** (`BigQueryRows`, `Queries`). The row id composer, the query templates'
  device placeholder, and the `REGEXP_EXTRACT` field rule. The last is proved to invert the composer.
- **Pure helpers** (`Datastore`, `Utils`).
  - The latest reading of a device property.
  - The boot message's remote URL and access point.
  - The fold that finds a device's last message time, and its staleness in minutes.
  - The count of devices active in the last hour.
  - The selection and pruning of a user's latest session.
  - `key_in_dict`, `id_generator`, `bytes_to_string` and `is_expired`.

The per-device property store, whose implementation is not part of the repository's core files,
is the class `DeviceStore.PropertyStore`: a map from key to list.
- A push inserts at the front and keeps at most 100 entries.
- A save overwrites the whole list.
- A key never written reads as the empty list.

The chunk cache is the class `ImageChunking.ChunkCache`, and the user sessions are
`Datastore.SessionStore`.

Python values in dicts are `Common.Value`: `str`, `int`, `bytes` (holding the text they encode) or
`None`. An exception is `Result.Raised`, or a `raised` out-parameter of a method. Where the
source swallows an exception, the model shows the state at the point of the raise.

Nothing in the model reads a clock, a random source or the network. These enter as parameters:
- the current time: `now` in seconds, or `stamp`, already formatted;
- the random picks: `draw`;
- the stored image's public URL: `publicUrl`;
- the library evaluators: `ast.literal_eval` as `parseFirst`/`literal`, `json.loads` as
  `jsonLoads`, `strptime` as `parse`, each `None` where the library raises.

`PyStr` gives the Python `str` operations the core uses, with Python's semantics: `find`,
slicing, `replace`, `split`, `startswith`, `lower` and `<`.

## Model

| member | source | states |
|---|---|---|
| Utils.KeyInDictSpec | cc/utils.py:21-24 | `key_in_dict` holds exactly for a present key, which `get` then reads back; an absent key reads as `None` |
| Utils.IsExpiredMonotone | cc/utils.py:6-11 | something expired (now strictly after the expiration) stays expired as the clock moves on |
| Utils.IdGenerator | cc/utils.py:15-16 | the identifier has exactly `size` characters, each one from `chars`; an empty alphabet with `size > 0` raises |
| Utils.DefaultIdIsSixDigits | cc/utils.py:15-16 | with the defaults the identifier is six decimal digits |
| Utils.BytesToString | cc/utils.py:28-31 | `bytes` are decoded to their text, every other value is returned unchanged, and the result is never `bytes` |
| Utils.BytesToStringIdempotent | cc/utils.py:28-31 | decoding twice is decoding once |
| DeviceStore.Pushed | cc/notifications/runs.py:18-26 | a push puts the new entry first, keeps the older entries in order after it, and caps the list at 100 |
| DeviceStore.PushedKeepsAllWhenRoom | cc/notifications/runs.py:18-20 | below the cap no older entry is dropped |
| DeviceStore.PushAllBounded | cc/mqtt/mqtt_messaging.py:48 | any sequence of pushes keeps a list within the cap, and the last pushed entry is first |
| DeviceStore.PushTwiceKeepsBoth | cc/mqtt/mqtt_messaging.py:242-243 | the queue does not deduplicate: pushing one value twice leaves two copies at the front |
| DeviceStore.PropertyStore.Push | cc/notifications/runs.py:87-88 | only the pushed key's list changes, and it becomes the pushed list |
| DeviceStore.PropertyStore.Save | cc/notifications/runs.py:109-110 | only the saved key's list changes, and it becomes the saved list |
| Scheduler.ParseCommand | cc/notifications/scheduler.py:90-93 | a command is valid exactly when it is one of the three keys of the `commands` table |
| Scheduler.ParseCommandName | cc/notifications/scheduler.py:49-59 | every command's name is read back as that command |
| Scheduler.RepeatFor | cc/notifications/scheduler.py:128-131 | the stored repeat is the caller's hours when not negative, else the template default (48, 24 or 0) |
| Scheduler.NewEntry | cc/notifications/scheduler.py:133-145 | the written entry names the command, carries the template message, runs `repeat` hours from now and has count 0 |
| Scheduler.FirstIndexOf | cc/notifications/scheduler.py:151-155 | the index found holds the command and no earlier element does; none is found exactly when no element holds it |
| Scheduler.Upsert | cc/notifications/scheduler.py:151-159 | the first entry with the command is replaced at its index and every other entry, later ones with the same command included, is kept; with no such entry the new one is appended |
| Scheduler.UpsertKeepsOnePerCommand | cc/notifications/scheduler.py:48-59 | `add` keeps at most one entry per command, and the list grows by one exactly when the command was absent |
| Scheduler.GetCommandDict | cc/notifications/scheduler.py:107-116 | the result is `{}` for an invalid or absent command, and otherwise the first stored entry for that command |
| Scheduler.Add | cc/notifications/scheduler.py:122-164 | an invalid command changes nothing; a valid one saves the schedule with the new entry upserted |
| Scheduler.WithoutCommand | cc/notifications/scheduler.py:176-179 | the filtered list holds exactly the elements whose command differs, and is no longer than the list |
| Scheduler.WithoutCommandAppend | cc/notifications/scheduler.py:176-179 | filtering distributes over concatenation, so the kept elements stay in order |
| Scheduler.RemovedSchedule | cc/notifications/scheduler.py:180-182 | the stored schedule is the filtered list when non-empty, and the old list otherwise |
| Scheduler.RemoveCommand | cc/notifications/scheduler.py:169-183 | the filtered list is saved when non-empty; otherwise the store is unchanged |
| Scheduler.RemoveOnlyCommandKeepsIt | cc/notifications/scheduler.py:180-182 | as written, removing a schedule's only command leaves that command stored |
| Scheduler.WithoutCommandRemovesIt | cc/notifications/scheduler.py:169-179 | no element with the command remains, and the list is unchanged exactly when no element held it |
| Scheduler.WithoutCommandKeepsAll | cc/notifications/scheduler.py:176-179 | a list without the command is kept whole |
| Scheduler.RemoveAllCommands | cc/notifications/scheduler.py:188-192 | the device's schedule becomes the empty list and nothing else changes |
| Scheduler.Check | cc/notifications/scheduler.py:204-206 | `check` changes no schedule |
| Runs.GetAll | cc/notifications/runs.py:62-64 | the device's stored runs, or the empty list for a device never written |
| Runs.GetLatest | cc/notifications/runs.py:73-74 | the head of the list, raising exactly on an empty list |
| Runs.Start | cc/notifications/runs.py:81-88 | the new open run is pushed onto the device's queue and nothing else changes |
| Runs.StartPutsOpenRunFirst | cc/notifications/runs.py:78-88 | after `start` the latest run is `{start: now, end: None, recipe_name}` and the queue stays within 100 |
| Runs.StoppedRuns | cc/notifications/runs.py:96-106 | an empty list raises; a placeholder head is left alone; otherwise only the head's `end` becomes `now` and length and the other runs are kept |
| Runs.Stop | cc/notifications/runs.py:95-111 | it raises exactly on an empty list; a placeholder head saves nothing; otherwise the closed list is saved |
| Runs.StopOverwritesEnd | cc/notifications/runs.py:92-100 | `stop` overwrites an `end` that is already set |
| Runs.StartThenStopOrdered | cc/notifications/runs.py:82-100 | with a clock that does not go back, a started then stopped run has `end >= start` |
| NotificationData.Added | cc/notifications/notification_data.py:76-80 | a lone empty dict is overwritten (length stays 1); otherwise the notification is appended at the end |
| NotificationData.Add | cc/notifications/notification_data.py:62-86 | the returned identifier is six digits, and the saved list is `Added` with `{ID, type, message, created: now, acknowledged: None}` |
| NotificationData.Unacked | cc/notifications/notification_data.py:91-97 | exactly the stored entries that are not acknowledged, and no others |
| NotificationData.UnackedAppend | cc/notifications/notification_data.py:94-96 | the filter distributes over concatenation, so stored order is kept |
| NotificationData.GetUnacknowledged | cc/notifications/notification_data.py:91-97 | the loop returns the unacknowledged entries, in order |
| NotificationData.FirstWithId | cc/notifications/notification_data.py:104-105 | the index found holds the identifier and no earlier entry does; none is found exactly when no entry holds it |
| NotificationData.Acked | cc/notifications/notification_data.py:102-112 | none exactly when no entry holds the identifier; otherwise only the first match gets `acknowledged = now`, and the length is unchanged |
| NotificationData.Ack | cc/notifications/notification_data.py:102-112 | a missing identifier leaves the store unchanged; otherwise the acknowledged list is saved |
| NotificationData.AckedChangesOnlyTheMatch | cc/notifications/notification_data.py:104-108 | entries without the identifier are unchanged and every identifier is kept |
| NotificationData.AddThenAckHidesIt | cc/notifications/notification_data.py:62-112 | a notification added under a fresh identifier and then acknowledged is no longer listed as unacknowledged |
| NotificationMessaging.EventOf | cc/notifications/notification_messaging.py:25-27 | a value names an event exactly when it is one of the three recipe message types |
| NotificationMessaging.ValidateMessage | cc/notifications/notification_messaging.py:70-82 | valid exactly when `device_ID`, `message_type` and `message` are present and the type is a recipe type |
| NotificationMessaging.PublishMessage | cc/notifications/notification_messaging.py:45-64 | nothing is sent for an empty device id or an unknown type; otherwise exactly the three keys with the given values |
| NotificationMessaging.PublishedMessagesValidate | cc/notifications/notification_messaging.py:45-82 | every published message passes the receiver's validation and reads back the same event |
| NotificationMessaging.Parse | cc/notifications/notification_messaging.py:87-115 | an invalid message changes nothing; each event leaves the schedule `ScheduleAfter` and pushes or closes a run, raising exactly when `stop` finds no runs |
| NotificationMessaging.StartSchedulesBothCommands | cc/notifications/notification_messaging.py:99-102 | `recipe_start` schedules `check_fluid` every 48 h and `take_measurements` every 168 h, keeps one entry per command and leaves other entries alone |
| NotificationMessaging.StopAndEndSchedules | cc/notifications/notification_messaging.py:104-111 | `recipe_stop` empties the schedule; `recipe_end` leaves only a one-time `harvest_plant` |
| BigQueryRows.ComposeRowIdFields | cc/mqtt/mqtt_messaging.py:185-192 | for a `~`-free key and timestamp the id has exactly three `~`, and its fields are key, stripped variable, timestamp and stripped device |
| BigQueryRows.MakeEnvVarRowList | cc/mqtt/mqtt_messaging.py:174-195 | a missing `var` or `values` leaves the rows; a non-string `var` raises; otherwise exactly one row `(id, values, 0, 0)` is appended |
| BigQueryRows.AppendEnvVarRow | cc/mqtt/mqtt_messaging.py:174-195 | the caller's list is extended in place as `MakeEnvVarRowList` says, and left as it was when it raises |
| BigQueryRows.UrlMessage | cc/mqtt/mqtt_messaging.py:361-369 | the synthesised message has exactly the keys `messageType` (`Image`), `var` and `values` (the URL payload) |
| Queries.FormatQueryWithoutPlaceholder | cc/google/queries/queries.py:11-12 | a template without the placeholder is returned unchanged |
| Queries.FormatQueryReplacesFirst | cc/google/queries/queries.py:11-12 | the first placeholder becomes the device id and the text before it is kept |
| Queries.FormatQueryLeavesNoPlaceholder | cc/google/queries/queries.py:11-12 | a non-empty device id sharing no character with the placeholder leaves no placeholder |
| Queries.FormatQueryCanRebuildPlaceholder | cc/google/queries/queries.py:11-12 | without that condition the replacement can leave a placeholder, even from an id that does not contain one |
| Queries.DropField | cc/google/queries/queries.py:19 | `(?:[^~]*~)` consumes exactly one separator, and fails exactly when there is none |
| Queries.TakeField | cc/google/queries/queries.py:19 | `([^~]*)` captures the longest `~`-free prefix |
| Queries.ExtractField | cc/google/queries/queries.py:38-39 | the pattern with count `n` matches exactly when there are at least `n` separators, and captures no `~` |
| Queries.SplitAsFields | cc/google/queries/queries.py:1-7 | splitting on `~` peels off the first field as the pattern does |
| Queries.ExtractFieldIsSplitField | cc/google/queries/queries.py:1-7 | the pattern with count `n` selects exactly field `n` of `split('~')`, and nothing past the last field |
| Queries.RowIdRoundTrip | cc/google/queries/queries.py:1-7 | fields 0 to 3 of a composed row id give back key, stripped variable, timestamp and stripped device, and there is no field 4 |
| PyStr.Find | cc/mqtt/mqtt_messaging.py:263-264 | `find` gives the first occurrence at or after `start`, or -1 exactly when there is none |
| PyStr.PySlice | cc/mqtt/mqtt_messaging.py:269 | an in-range slice is the subsequence; a negative bound counts from the end; a bound past the end is clamped; a reversed or out-of-range span is empty |
| PyStr.StripSpec | cc/mqtt/mqtt_messaging.py:185-186 | `replace(c, '')` removes every `c`, keeps every other character, and keeps a `c`-free string |
| PyStr.ReplaceWithoutOccurrence | cc/google/queries/queries.py:12 | `replace` leaves a string without the pattern unchanged |
| PyStr.ReplaceLeftmost | cc/google/queries/queries.py:12 | `replace` substitutes the leftmost occurrence and continues after it |
| PyStr.ReplaceLeavesNoOccurrence | cc/google/queries/queries.py:12 | a non-empty replacement with no character of the pattern leaves no occurrence |
| PyStr.SplitFirst | cc/google/datastore.py:307 | `split` yields a separator-free leading field, then the fields of the rest |
| PyStr.SplitCount | cc/google/datastore.py:307-308 | `split` yields one field more than there are separators |
| PyStr.Lower | cc/google/datastore.py:299 | `lower` keeps the length and folds each upper-case ASCII letter |
| PyStr.StrLtTransitive | cc/google/datastore.py:316-317 | Python's string `<` is transitive |
| PyStr.StrLtTotal | cc/google/datastore.py:316-317 | any two strings are equal or ordered one way |
| MqttMessaging.GetMessageType | cc/mqtt/mqtt_messaging.py:145-168 | the type found is the one `messageType` names; none exactly when the key is absent or names no type |
| MqttMessaging.GetMessageTypeRoundTrip | cc/mqtt/mqtt_messaging.py:145-168 | a message carrying a type's name is read back as that type |
| MqttMessaging.ValidateMessage | cc/mqtt/mqtt_messaging.py:112-140 | valid messages are typed; per type, valid exactly when at least one of its keys is present |
| MqttMessaging.RecipeAction | cc/mqtt/mqtt_messaging.py:83-91 | `start`, `stop` and `end` map to `recipe_start`, `recipe_stop` and `recipe_end`, anything else to nothing |
| MqttMessaging.RecipeEventMessage | cc/mqtt/mqtt_messaging.py:82-97 | a notification is published exactly for a known action and a non-empty device id, and it is the publisher's message for it |
| MqttMessaging.RecipeEventReachesNotifications | cc/mqtt/mqtt_messaging.py:82-97 | the notification handler accepts the republished event with the same device, the matching event and the recipe name |
| MqttMessaging.RowKeyFor | cc/mqtt/mqtt_messaging.py:200-216 | `Env` for `EnvVar` and `Image`, `Cmd` for `CommandReply`, no rows for the other types |
| MqttMessaging.MakeBQRowList | cc/mqtt/mqtt_messaging.py:200-216 | types without a key return false and add no row; the others return true with the row builder's rows, or raise |
| MqttMessaging.UrlMessageWrittenAsEnv | cc/mqtt/mqtt_messaging.py:361-375 | the uploaded-image URL message is typed `Image`, is written under `Env` as one row, and both row builders agree on it |
| MqttMessaging.ScanName | cc/mqtt/mqtt_messaging.py:286-296 | the name is the quote-free text between the first `'name':'` and the next `'`; none when either is missing |
| MqttMessaging.ScanNameInverse | cc/mqtt/mqtt_messaging.py:286-296 | scanning `a + 'name':' + name + ' + b` gives back a quote-free name |
| MqttMessaging.UrlPayloadNamesUrl | cc/mqtt/mqtt_messaging.py:365-369 | the synthesised URL payload is read back as naming `URL` |
| MqttMessaging.ScanValue | cc/mqtt/mqtt_messaging.py:261-270 | the input unchanged when `'value':'` or `}]}` is missing, else the evaluation of the text between them, raising when it raises |
| MqttMessaging.ValueText | cc/mqtt/mqtt_messaging.py:263-269 | the text evaluated is the slice from after `'value':'` to before the character ahead of `}]}`, empty when reversed; with `}]}` at the very start the end bound is -1 and the slice stops before the last character |
| MqttMessaging.ScanValueInverse | cc/mqtt/mqtt_messaging.py:261-270 | scanning `a + 'value':' + v + '}]}` + b hands exactly `v` to the evaluator |
| MqttMessaging.UrlPayloadValue | cc/mqtt/mqtt_messaging.py:365-369 | for a URL without `}]}`, the value scanner hands exactly the URL to the evaluator |
| MqttMessaging.StringToValue | cc/mqtt/mqtt_messaging.py:252-271 | the structured parse's `value` when it has one, else the scanner; a non-text payload raises |
| MqttMessaging.StringToName | cc/mqtt/mqtt_messaging.py:277-297 | the structured parse's `name` when it has one, else the scanned name or `None`; a non-text payload raises |
| MqttMessaging.DeviceRecord | cc/mqtt/mqtt_messaging.py:222-246 | a record exists exactly for a telemetry type with `var` and `values` whose scans do not raise, and carries stamp, name and value |
| MqttMessaging.SaveDataToDevice | cc/mqtt/mqtt_messaging.py:222-246 | the record is pushed onto the list of (device, variable), and nothing changes when there is none |
| MqttMessaging.Parse | cc/mqtt/mqtt_messaging.py:62-106 | invalid messages change nothing; each type is routed to its handler, and telemetry is saved and turned into rows or raises |
| ImageChunking.ChunksOf | cc/mqtt/deprecated_image_chunking.py:85-103 | the fetch returns exactly the cached chunks of that device and message |
| ImageChunking.RemoveChunks | cc/mqtt/deprecated_image_chunking.py:107-115 | deletion never grows the cache |
| ImageChunking.RemoveChunksMembers | cc/mqtt/deprecated_image_chunking.py:107-115 | deletion keeps exactly the chunks of other devices or of other message ids |
| ImageChunking.RemoveChunksTwice | cc/mqtt/deprecated_image_chunking.py:196-201 | deleting two id sets one after the other is deleting their union |
| ImageChunking.RemoveNoChunks | cc/mqtt/deprecated_image_chunking.py:107-115 | deleting no message id keeps the cache |
| ImageChunking.TurdsOf | cc/mqtt/deprecated_image_chunking.py:136-150 | the fetch returns exactly the device's turds |
| ImageChunking.RemoveTurds | cc/mqtt/deprecated_image_chunking.py:154-162 | deletion never grows the ledger |
| ImageChunking.RemoveTurdsMembers | cc/mqtt/deprecated_image_chunking.py:154-162 | deletion keeps exactly the turds of other devices or other message ids |
| ImageChunking.RemoveTurdsTwice | cc/mqtt/deprecated_image_chunking.py:196-201 | deleting two id sets one after the other is deleting their union |
| ImageChunking.RemoveNoTurds | cc/mqtt/deprecated_image_chunking.py:154-162 | deleting no message id keeps the ledger |
| ImageChunking.StaleIds | cc/mqtt/deprecated_image_chunking.py:196-199 | the purged ids are exactly the turds' message ids that differ from the incoming one |
| ImageChunking.PyIndex | cc/mqtt/deprecated_image_chunking.py:218 | list assignment accepts exactly an integer in `-len .. len-1`, and a natural index as itself |
| ImageChunking.MarkChunks | cc/mqtt/deprecated_image_chunking.py:217-218 | marking keeps the vector's length |
| ImageChunking.MarkChunksSpec | cc/mqtt/deprecated_image_chunking.py:211-218 | marking succeeds exactly when every chunk number is a valid index, and then marks exactly the named indexes |
| ImageChunking.Falses | cc/mqtt/deprecated_image_chunking.py:211-213 | `range(0, n)` gives `n` falses, none for a negative `n` |
| ImageChunking.PresenceDecides | cc/mqtt/deprecated_image_chunking.py:211-237 | the presence vector is built exactly when every chunk number is a valid index, and assembly proceeds exactly when every index is covered |
| ImageChunking.ChunkBeyondCountRaises | cc/mqtt/deprecated_image_chunking.py:204-218 | a chunk numbered at or beyond `totalChunks` makes the presence update raise |
| ImageChunking.CompleteWithNaturalNumbers | cc/mqtt/deprecated_image_chunking.py:211-231 | with chunk numbers in `0 .. n-1`, covering means every index is some chunk's number |
| ImageChunking.Insert | cc/mqtt/deprecated_image_chunking.py:246 | insertion adds exactly the one chunk |
| ImageChunking.InsertSorted | cc/mqtt/deprecated_image_chunking.py:246 | insertion keeps the list sorted by `chunkNum`, and keys distinct |
| ImageChunking.SortByChunkNum | cc/mqtt/deprecated_image_chunking.py:246 | the sort is a permutation of the chunks |
| ImageChunking.SortByChunkNumSameChunks | cc/mqtt/deprecated_image_chunking.py:246 | the sort holds the same chunks it was given |
| ImageChunking.SortByChunkNumSorts | cc/mqtt/deprecated_image_chunking.py:246 | the sort orders by `chunkNum` and keeps distinct keys distinct |
| ImageChunking.FirstNumbered | cc/mqtt/deprecated_image_chunking.py:249-251 | the chunk picked for index `k` is a cached chunk numbered `k`; none exactly when no chunk has that number |
| ImageChunking.SortedPositions | cc/mqtt/deprecated_image_chunking.py:242-251 | with one chunk per index, sorted position `i` holds chunk `i` |
| ImageChunking.AssemblyInIndexOrder | cc/mqtt/deprecated_image_chunking.py:242-251 | with one chunk per index, the join is the payloads in ascending `chunkNum` order |
| ImageChunking.AssembleByIndexOrderFree | cc/mqtt/deprecated_image_chunking.py:242-251 | for caches holding the same chunks with distinct indexes, the image rebuilt does not depend on the order the cache returns them in |
| ImageChunking.AssembleByIndexIgnoresRedelivery | cc/mqtt/deprecated_image_chunking.py:204-205 | a redelivered chunk, cached again, leaves the intended image unchanged |
| ImageChunking.RedeliveredChunkJoinedTwice | cc/mqtt/deprecated_image_chunking.py:246-251 | as written, a chunk delivered twice is joined twice (`ABABCD` where `ABCD` is meant) |
| ImageChunking.MakeEnvRowList | cc/mqtt/deprecated_image_chunking.py:287-309 | the copy always writes under `Env`: missing keys add nothing, a non-string `var` raises, else one `Env` row is appended |
| ImageChunking.ChunkCache.SaveImageChunk | cc/mqtt/deprecated_image_chunking.py:59-80 | a chunk is added under a new key (duplicates kept) and the ledger is unchanged |
| ImageChunking.ChunkCache.DeleteImageChunks | cc/mqtt/deprecated_image_chunking.py:107-115 | the chunks of (device, message) are deleted and the ledger is unchanged |
| ImageChunking.ChunkCache.SaveTurd | cc/mqtt/deprecated_image_chunking.py:120-131 | one turd is added and the cache is unchanged |
| ImageChunking.ChunkCache.DeleteTurd | cc/mqtt/deprecated_image_chunking.py:154-162 | the turds of (device, message) are deleted and the cache is unchanged |
| ImageChunking.ChunkCache.PurgeStale | cc/mqtt/deprecated_image_chunking.py:196-201 | the chunks and turds of every stale image of the device are deleted, and nothing else |
| ImageChunking.ChunkCache.SaveOldChunkedImage | cc/mqtt/deprecated_image_chunking.py:167-281 | missing keys change nothing; an empty chunk deletes the image's chunks and adds a turd; otherwise purge, cache, presence check, wait, fail or assemble, each with its exact new state |
| ImageChunking.MarkReceived | cc/mqtt/deprecated_image_chunking.py:211-218 | the two presence loops compute `MarkChunks` on `totalChunks` falses |
| ImageChunking.HaveAllChunks | cc/mqtt/deprecated_image_chunking.py:224-231 | the flag is true exactly when every entry is true |
| ImageChunking.JoinPayloads | cc/mqtt/deprecated_image_chunking.py:249-251 | the join loop computes `ConcatPayloads` |
| Datastore.GetLatestVal | cc/google/datastore.py:399-409 | `('', '')` for no entity or key; raises on an empty list; otherwise the decoded value and timestamp of element 0, never `bytes` |
| Datastore.LatestValDecodes | cc/google/datastore.py:381-409 | a reading stored as text or bytes comes back as its text |
| Datastore.RemoteUrl | cc/google/datastore.py:297-300 | `''` when absent or `None`, else the URL lowercased; a value without `lower` raises |
| Datastore.RemoteUrlIsLowerCase | cc/google/datastore.py:296-300 | the listed remote URL has no upper-case letter and lowercasing it again changes nothing |
| Datastore.AccessPoint | cc/google/datastore.py:303-310 | for text starting `BeagleBone-`, its second `-` field; `''` for other text or a missing key; raises otherwise |
| Datastore.PrefixedHasTwoFields | cc/google/datastore.py:306-309 | a `BeagleBone-` name always has a second field, which is the first field of the rest |
| Datastore.FirstField | cc/google/datastore.py:307 | the first field of `split` is the longest separator-free prefix |
| Datastore.AccessPointIsWifiCode | cc/google/datastore.py:303-310 | the access point of `BeagleBone-<code>-...` is `<code>`: it holds no `-`, and is the whole rest when the rest has no `-` |
| Datastore.BootFields | cc/google/datastore.py:285-310 | `('', '')` without data or a boot list; raises on an empty list; otherwise remote URL and access point of the decoded newest boot message |
| Datastore.LaterOf | cc/google/datastore.py:316-317 | one fold step returns one of its two inputs, and neither input is greater than it |
| Datastore.LatestIsMax | cc/google/datastore.py:312-342 | the fold is the string maximum of the start and the stamps |
| Datastore.LastMessageTimeSpec | cc/google/datastore.py:312-346 | `Never` exactly when no stamp exceeds the epoch; otherwise the latest stamp |
| Datastore.Stamps | cc/google/datastore.py:312-342 | one timestamp per property, in the listing's order |
| Datastore.SensorSummary | cc/google/datastore.py:312-346 | it raises exactly when a property is unreadable; otherwise the latest values in order and `last_message_time` as the shown fold |
| Datastore.TruncMinutes | cc/google/datastore.py:421-422 | `int(x / 60.0)` truncates toward zero: the remainder lies in `0 .. 59`, or in `-59 .. 0` for a negative span |
| Datastore.MinutesSince | cc/google/datastore.py:415-422 | `Never` is passed through; an unparsable time raises; otherwise the whole minutes since it, truncated toward zero |
| Datastore.SilentDeviceNeverSeen | cc/google/datastore.py:344-348 | a device with no message after the epoch is reported as never seen, whatever the clock |
| Datastore.StatusCounted | cc/google/datastore.py:64-75 | an entity counts exactly when its newest status has a `bytes` timestamp later than one hour ago; an empty status list raises |
| Datastore.ActiveCount | cc/google/datastore.py:58-79 | the count is at most the number of entities, and raises exactly when one entity raises |
| Datastore.ActiveLastHourCount | cc/google/datastore.py:58-79 | the loop computes `ActiveCount`, raising exactly when it raises |
| Datastore.ActiveCountMonotone | cc/google/datastore.py:62-73 | an earlier threshold counts at least as many devices |
| Datastore.LatestUnique | cc/google/datastore.py:430-433 | the latest session date is unique |
| Datastore.PrunedKeepsLatestOnly | cc/google/datastore.py:435-438 | pruning keeps at least one of the user's sessions, all dated the latest, keeps other users' sessions, and is idempotent |
| Datastore.SessionStore.GetAll | cc/google/datastore.py:101-107 | the user's session keys, each once |
| Datastore.SessionStore.Delete | cc/google/datastore.py:438 | one session is deleted and nothing else |
| Datastore.SessionStore.LatestCreatedDate | cc/google/datastore.py:426-440 | `None` with no sessions; raises, deleting nothing, on a missing date; else the latest date, with exactly the user's other-dated sessions deleted |
| Datastore.SessionStore.LatestOf | cc/google/datastore.py:430-433 | the first loop raises exactly on a missing date, and otherwise finds the latest date |
| Datastore.SessionStore.PruneStale | cc/google/datastore.py:435-438 | the second loop deletes exactly the user's sessions dated other than the latest |

## Left out

- `NotificationMessaging.Parse`: a message whose `device_ID` is present but not a string changes nothing in the model. The source still runs `add`, `start`, `stop` and `check` with that value as the key. The stores here are keyed by strings only.
- `MqttMessaging.Parse`: uses one `stamp` for the pushed record and for the row id. The source reads the clock separately in each, so the two can differ by a second.
- `ImageChunking.ChunksOf`: returns cached chunks in the order they were cached. The store's unsorted query returns them in key order, which need not be arrival order. Only the stable sort's output for duplicate chunk numbers with different payloads depends on this.
- Cloud I/O is not modelled: document store queries, fetches, puts and deletes; the pub/sub publisher; the warehouse insert; the storage bucket; the IoT registry; Firebase. The stores are the classes above. A published message and the warehouse rows are returned instead of sent.
- The property store's transactions and retries are not modelled. Nor is the clash between a telemetry variable named like a property (`runs`, `schedule`, `notifications`) and that property; each property kind is its own store.
- Concurrency and at-least-once delivery are not modelled. Messages are handled one at a time.
- `save_uploaded_image` (cc/mqtt/mqtt_messaging.py:306-386) is not modelled: its polling loop, its sleeps, and its bucket checks and moves. Only the URL message it synthesises is, as `BigQueryRows.UrlMessage`.
- `saveImageURL`, `storage.saveFile` and base64 decoding (section 4 of RFC 4648) are not modelled. The stored image's URL is the parameter `publicUrl`, and the joined base64 text is returned.
- `ast.literal_eval`, `json.loads` and `strptime` are library evaluators. They enter as injected partial functions.
- Logging, the `to_str` and `get_commands` printers, and `traceback` output are not modelled.
- `strftime` is not modelled. Times are integers (`now`) or already-formatted strings (`stamp`, `oneHourAgo`).
- Dict values other than `str`, `int`, `bytes` and `None` (floats, lists, nested dicts) are not modelled.
- `MqttMessaging.DeviceRecord`: keeps the name and value as parsed, without the `str()` conversion the source applies before saving.
- `MqttMessaging.StringToValue`: a `bytes` payload raises in the model. In Python, `literal_eval` refuses `bytes` and `find` with a `str` tag raises; that path is taken as raising without modelling its exception type.
- `MqttMessaging.Parse`: the `Image` branch states only that the chunk handler ran and that telemetry is untouched. The handler's own contract is `ImageChunking.ChunkCache.SaveOldChunkedImage`.
- `BigQueryRows.ComposeRowId`: does not model `str.format` being applied after the device id is appended. A device id holding `{` or `}` would change or break the format; registry device ids cannot hold braces.
- `ImageChunking.IsEmptyChunk`: takes the length of a `bytes` chunk as the length of its text, not its UTF-8 byte count. This only matters for emptiness, where the two agree.
- `ImageChunking.SortByChunkNum`: is a stable insertion sort on integer chunk numbers. A cached chunk number that is not an integer would make Python's sort raise; it sorts as 0 here.
- `NotificationMessaging.PublishMessage`: models `is not` on the message type as string inequality. The source always passes the class's own constants.
- `Runs.RunItem`: a stored run whose `start` is `None` is not represented.
- `Queries.FormatQueryLeavesNoPlaceholder`: proved only for a non-empty device id sharing no character with the placeholder. "The id does not contain the placeholder" is not enough: `Queries.FormatQueryCanRebuildPlaceholder` shows an id that completes the following text into a new placeholder.
- `Datastore.SessionStore.LatestOf`: models the descending sort of the dates by its head, the greatest date, which is all the source uses.
- `Datastore.MinutesSince`: works on whole seconds. The float division of `total_seconds()` and sub-second parts are not modelled.
- `PyStr.Lower`: folds ASCII letters only, not all of Python's Unicode case mapping.
- The remaining functions of cc/google/datastore.py are not modelled, since they are store queries with no logic of their own: counts, user and device listings beyond their boot fields, `get_latest_image_URL`, user and device add/delete, and `get_device_data_from_DS`.
- `Scheduler.check` is not modelled past its immediate `return`: the due-command logic after it is only a docstring. `Scheduler.testing_hours` is not modelled either: the attribute set in `__init__` shadows the method, so it cannot be called on an instance.
- cc/notifications/notifications.py is not modelled. It is a superseded stub whose operations are `pass`, and its module cannot be imported.
- cc/google/database.py is not part of this model.

## Findings

| source | as written | input that shows it | evidently intended | confidence | as-written member | corrected member |
|---|---|---|---|---|---|---|
| cc/notifications/scheduler.py:180-182 | the filtered schedule is saved only when it is non-empty | a schedule holding only a `check_fluid` entry, then `remove_command(device, 'check_fluid')` | the command is removed and the schedule becomes empty | not executed | Scheduler.RemoveOnlyCommandKeepsIt | Scheduler.WithoutCommandRemovesIt |
| cc/mqtt/deprecated_image_chunking.py:246-251 | every cached entry of the image is joined, and a redelivered chunk is cached as a second entry | a two-chunk image whose chunk 0 (`AB`) arrives twice before chunk 1 (`CD`) | each index joined once (`ABCD`), whatever was redelivered | not executed | ImageChunking.RedeliveredChunkJoinedTwice | ImageChunking.AssembleByIndexIgnoresRedelivery |
