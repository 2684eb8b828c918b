# Verified model of the instance gateway

This project models the core of a multi-instance WhatsApp gateway in Dafny 4.11 and proves what its code keeps
over every run. `dafny verify dfyconfig.toml` checks all of it.

## What is modelled

**Instance lifecycle** (`lifecycle.dfy`, `lifecycle_proofs.dfy`, `lifecycle_outcomes.dfy`, `lifecycle_configs.dfy`,
`lifecycle_answers.dfy`, `lifecycle_devices.dfy`, `lifecycle_resources.dfy`, `manager.dfy`).
A manager holds a map of instances beside a table of rows. Every section that runs under the manager's lock is one
function on the map, the instance objects and the rows; a delete is three such sections, so the system state also
holds the deletes in flight. A run is any interleaving of creates, updates, restarts, rebuilds, device updates,
delete sections and process crashes, in which any store call and any service start may fail. A failed store call
leaves the row unchanged. `manager.dfy` holds the manager itself as classes whose methods refine those functions.

**The event handler** (`handler.dfy`, `handler_proofs.dfy`, `handler_log.dfy`, `recovery.dfy`, `dedup.dfy`,
`publisher.dfy`, `filters.dfy`).
The handler registered for one service: the once-per-pairing sync flag, the device state, the escalation after
app-state sync errors, and filter, then dedup, then publish, through the instance's publisher or the wrapper that
lets only system events through. Publishing is counted as attempts.

**History cache** (`history.dfy`, `history_proofs.dfy`, `history_amid.dfy`). The table of cached batches with lazy
expiry, and the flush that publishes each chat in deduplicated chunks of 500.

**Media IDs** (`mediaid.dfy`). The length-prefixed frame, written field by field and read back by position.

**Small concurrent cores** (`qrdrain.dfy`, `download.dfy`). The drain of the QR channel, and the download slots.

**Trees, strings and configuration** (`redact.dfy`, `redact_inplace.dfy`, `identity.dfy`, `recipient.dfy`,
`config.dfy`, `filters.dfy`, `migrate.dfy`). Log redaction as a function and as the in-place walk, identity
resolution over a LID and phone mapping, recipient validation against formatting, configuration across a restart,
and the schema migrations under crashes.

## Where the code does not keep a promise

Each of these is proved with the exact condition under which the promise holds.

- A create that commits while a delete that began with no map entry is in flight can leave a row with no entry, until
  a later delete or create of the id or a restart of the process. `CreateIsSafeIff` gives the guard: no such delete
  whose store call has not failed.
- A create over such a row takes its device over, so after a restart of the process the new instance starts on the old
  device (`CreatedWithoutDeviceIff`, `RestartStartsOnPaired`).
- A restart of the process can change which events an instance delivers, in both directions: a list that stripping has
  emptied delivered everything and is replaced by the defaults, a blank one is replaced too, and a filter with white
  space around it or a comma inside comes back as its trimmed pieces. `RestartKeepsDeliveryIff` gives the condition for
  every configuration and all defaults; `RestartCanNarrowDelivery` and `RestartCanWidenDelivery` are inputs.
- An update whose store call fails reports an error but has changed the instance in memory; every other refused step
  changes nothing, and the table always holds what was last acknowledged (`AnswerIs`, `RefusedChangesNothing`,
  `AcknowledgedIsStored`). A restart of the process
  brings back what the last saved update stored, read under the defaults, which is the configuration in use exactly when
  the last update of all asked for just that (`RestartBringsBackIff`, `SavedUpdateComesBackIff`, `FailedUpdateIsLost`).
- An update does not reach the running event handler: after a service is started its handler stays current exactly
  when the last update asked for the configuration it was started with (`HandlerCurrentIff`,
  `UpdateLeavesHandlerStale`).
- A delete whose store call fails leaves the instance visible with its publisher and dedup set closed. The dedup set
  of a visible instance is closed exactly when such a delete has torn this object down, and its publisher exactly when
  no update has found the instance since (`ClosedIff`). An update opens a publisher again, only a restart of the
  instance or of the process makes a new dedup set.
- A flush leaves a device's rows when it lists no chat, so rows that have all expired stay after a flush without an
  error (`FlushClearsDeviceIff`, `ExpiredRowsStay`).
- When it does list a chat, a flush deletes all rows of the device. It loses the chats whose read failed
  (`FlushLosesChatIff`), and of batches inserted while it runs it loses those that come after their chat's read, or
  whose chat was not listed or not read, except messages whose ID was read (`FlushAmidInserts`,
  `BatchLostBesideFlush`).
- On SQLite a crash between migration 2 and its version write leaves a database on which every later run fails
  (`UnstoppedRunCompletesIff`, `StuckIsReachable`).
- A chat ID differs from the resolved identity for a JID with a raw agent and no device, and for a LID JID without a
  user if the store maps it (`ChatIDIsIdentityIff`).
- After the lifetime bound of the QR drain, an emitter still blocked stays blocked (`BlockedForeverAfterEnd`,
  `ExpiryStrandsEmitter`).

## Model

| member | source | states |
|---|---|---|
| LifecycleProofs.MarkerOwnership | internal/instance/manager.go:226-258 | In every interleaving from any store, an entry marked deleting has exactly one delete in flight that owns it, every owner's object is still marked, and once nothing is in flight no entry is marked. |
| LifecycleProofs.StepKeepsMarkersOwned | internal/instance/manager.go:82-88 | Every step of every operation, crashes included, keeps marker ownership. |
| LifecycleProofs.MapAgreesWithTable | internal/instance/manager.go:185-349 | If creates are guarded against deletes that began without an entry, then after any run, with any store failures and crashes, every row has an entry and every visible entry has a row. |
| LifecycleProofs.StepKeepsCoherent | internal/instance/manager.go:185-349 | The inductive form: an owner's object is still the entry of its id, its row is there until the store call succeeds, and an id with a hazard has no entry. |
| LifecycleProofs.CreateIsSafeIff | internal/instance/manager.go:185-258 | A create keeps the agreement in every guarded continuation if and only if no delete that began without an entry of the id can still remove its row or entry. |
| LifecycleProofs.HazardStrands | internal/instance/manager.go:226-305 | Otherwise one more step breaks it: the row goes from under a visible entry, or the entry from over the row. |
| LifecycleProofs.StrandedRowIsReachable | internal/instance/manager.go:226-258 | A concrete run from an empty store that ends with a row and no entry. |
| LifecycleProofs.AbsentDeleteThenCreate | internal/instance/manager.go:185-258 | From every state in which the id has no entry, a delete overlapping a create strands the row. |
| LifecycleProofs.RebootIsCoherent | internal/instance/manager.go:385-413 | A process restart brings map and table back into agreement from any state, stranded rows included. |
| Lifecycle.RestoreMeaning | internal/instance/manager.go:385-413 | A restored manager has exactly one unmarked entry per row, each field from its column or, where that is empty, from the default. |
| LifecycleOutcomes.OtherIdsUntouched | internal/instance/manager.go:185-475 | A step about one id changes no entry, object, row or delete of another. |
| LifecycleOutcomes.AvoidingRunKeeps | internal/instance/manager.go:226-305 | The same over whole runs that avoid an id. |
| LifecycleOutcomes.DeleteConverges | internal/instance/manager.go:226-305 | With no delete of the id in flight, a delete whose store call works is accepted and leaves neither row nor entry, whatever runs on other ids between its sections; also after failed deletes and for a row without an entry. |
| LifecycleOutcomes.DeleteLeavesOthers | internal/instance/manager.go:226-305 | Run on its own, that delete leaves every other id as it was. |
| LifecycleConfigs.RestartKeepsConfigs | internal/instance/manager.go:385-413 | After any run whose written filter lists survive storage and whose updates reach the store, a crash and restart give every entry with a row the same configuration. |
| LifecycleConfigs.RestartBringsBackIff | internal/instance/manager.go:309-349 | Over any run on an instance and others, a process restart brings back what the last saved update stored, read under the defaults, which is the configuration in use if and only if the last update of all asked for just that. |
| LifecycleConfigs.SavedUpdateComesBackIff | internal/instance/manager.go:309-349 | When the last update of all was saved, that is if and only if its filter list survives storage. |
| LifecycleConfigs.FailedUpdateIsLost | internal/instance/manager.go:309-349 | A concrete create and failed update whose key a restart takes back. |
| LifecycleAnswers.AnswerIs | internal/instance/manager.go:185-447 | The error each operation answers, from what its caller can see and the answer of the store: already exists, being deleted, not found, store failed, or none. |
| LifecycleAnswers.RefusedChangesNothing | internal/instance/manager.go:185-447 | A refused step changes nothing, but for an update whose save failed; no error ever changes a row. |
| LifecycleAnswers.AcknowledgedStores | internal/instance/manager.go:185-349 | An acknowledged create or update leaves the instance visible, and its row holds each value asked for or its default, field by field. |
| LifecycleAnswers.ColumnsKept | internal/instance/manager.go:185-349 | Over any run without an acknowledged create or update the columns of a row stay, and none comes into being. |
| LifecycleAnswers.AcknowledgedIsStored | internal/instance/manager.go:185-413 | Over any run, crashes included, a row holds what the last acknowledged create or update asked for, and a process restart gives the instance that read back. |
| LifecycleDevices.DeviceOverRun | internal/whatsapp/instancestore.go:238-263 | Over any run during which the row stays, crashes included, the row's device id and logout time are those of the last device update that was stored: a login's id and no logout time, or no id and the logout's time. |
| LifecycleDevices.LoginTimeOverRun | internal/whatsapp/instancestore.go:238-263 | The login time is that of the last stored login, whatever was logged out since. |
| LifecycleDevices.RestartStartsOnPaired | internal/instance/manager.go:385-413 | Over any run, a process restart starts the service on a device if and only if it is that of the last stored device update, or with none what the row held at the start; a logout leaves none. |
| LifecycleDevices.DeviceKept | internal/whatsapp/instancestore.go:44-89 | Without a stored device update the device stays, whatever else runs: configuration writes keep it. |
| LifecycleDevices.CreatedWithoutDeviceIff | internal/whatsapp/instancestore.go:57-66 | After a create, for as long as nothing is paired or logged out, the row has no device if and only if there was no row before or one without a device. |
| LifecycleConfigs.HandlerStaysCurrent | internal/instance/manager.go:502-553 | Over any run with no update of its own, an instance's running handler works with its configuration, whatever happens to other instances. |
| LifecycleConfigs.HandlerCurrentIff | internal/instance/manager.go:309-349 | Over any run after its service was started, the handler is current if and only if the last update asked for the configuration the service was started with. |
| LifecycleConfigs.StartedIsCurrent | internal/instance/manager.go:524-553 | After every step that starts a service, the instance has a handler if and only if the start worked, and the handler is current. |
| LifecycleConfigs.UpdateLeavesHandlerStale | internal/instance/manager.go:309-349 | A concrete create and update after which the running handler has the old configuration. |
| LifecycleResources.ClosedIff | internal/instance/manager.go:226-349 | In every run, the dedup set of a visible instance is closed if and only if a delete whose store call failed has torn this object down, and its publisher if and only if no update has found the instance since the last such delete. |
| LifecycleResources.OpenWhileDeletesWork | internal/instance/manager.go:226-305 | While the deletes of an instance's own id find the store working, both are open whenever it is visible. |
| LifecycleResources.FailedDeleteCloses | internal/instance/manager.go:226-349 | A failed delete, whatever runs on other ids between its sections, leaves entry, row and configuration with both resources closed; an update then opens the publisher only, a restart of the instance opens both. |
| InstanceManager.Manager.Lookup | internal/instance/manager.go:82-88 | Finds an instance exactly when it has an entry that is not marked deleting. |
| InstanceManager.Manager.CreateInstance | internal/instance/manager.go:185-223 | Works if and only if there is no entry and the save works, and then a fresh instance is in the map, the configuration in the row, and a service starts on no device; which error for an entry being deleted, an existing one and a failed save, with nothing changed. |
| InstanceManager.Manager.BeginDeleteInstance | internal/instance/manager.go:226-243 | Refines the marking section: marks the object found, refuses one already marked, goes on without one. |
| InstanceManager.Manager.EndSession | internal/instance/manager.go:262-285 | Logs out a logged-in session, and deletes the device when it was not logged in or the logout failed. |
| InstanceManager.Manager.ReleaseResources | internal/instance/manager.go:262-297 | Closes the object's publisher and dedup set, with the effects of a teardown. |
| InstanceManager.TeardownAnnounces | internal/instance/manager.go:262-297 | A teardown publishes logged_out once, only for a session that was logged in, after the logout and right before the publisher and then the dedup set are closed. |
| InstanceManager.Manager.TeardownAndDelete | internal/instance/manager.go:262-305 | Refines the unlocked section with its effects; without an instance there are none, and a row already gone counts as success. |
| InstanceManager.Manager.EndDeleteInstance | internal/instance/manager.go:247-258 | Refines the last section: drops the entry, or unmarks the object after a failure. |
| InstanceManager.Manager.DeleteInstance | internal/instance/manager.go:226-258 | The three sections alone: refused for a marked entry, otherwise the store's answer; on success exactly the id's row and entry are gone, on an error neither map nor table has changed; the effects are the teardown's for a visible instance. |
| InstanceManager.Manager.UpdateInstanceConfig | internal/instance/manager.go:309-349 | Works if and only if the instance is visible and the save works; not found changes nothing; the old publisher is closed, and the configuration and a new publisher are there even when the save fails, the row only when it works. |
| InstanceManager.Manager.RestartInstance | internal/instance/manager.go:417-447 | Works if and only if the instance is visible: a service is disconnected, both resources are closed, and a new object with the same configuration starts on the old service's device. |
| InstanceManager.Manager.RebuildInstanceService | internal/instance/manager.go:774-793 | Refines the rebuild section: the old client is disconnected and a service is tried on a fresh device; a failed start keeps the old one. |
| InstanceManager.Manager.HandleLogout | internal/instance/manager.go:455-475 | Records the logout in the row first, publishes only for a visible instance, and then rebuilds. |
| InstanceManager.Manager.RestoreInstances | internal/instance/manager.go:385-413 | The loop over the listed rows builds exactly the restored manager, and starts each service on the device of its row. |
| InstanceManager.Manager.RestoreStartsOn | internal/instance/manager.go:394-409 | Each listed row gets a publisher and then a service started on the device its row holds. |
| InstanceManager.InstanceStore.DeleteInstance | internal/whatsapp/instancestore.go:222-236 | Removes the row, answers not-found for a missing one, and changes nothing on an error. |
| InstanceManager.InstanceStore.UpdateDeviceState | internal/whatsapp/instancestore.go:238-263 | A login sets the device id and the login time and clears the logout time; a logout clears the id, sets the logout time and keeps the login time; only of an existing row, nothing else, and no row is added. |
| Config.ApplyDefaults | internal/instance/manager.go:110-130 | Each field is the one given, or the default of that field where it is empty. |
| Config.RestartKeepsConfigIff | internal/instance/manager.go:394-407 | A configuration comes back from a restart unchanged if and only if its filter list survives storage under the defaults. |
| Config.RestartKeepsDeliveryIff | internal/instance/manager.go:198-219 | For every configuration and all defaults, a restart delivers the same events of the gateway's types if and only if: for an empty list, the default list is empty or names every type that can be filtered; for a list of commas and white space only, it is not empty and names none; for any other, no filter hides a type the list does not name. |
| Config.RestoredFilters | internal/instance/manager.go:394-407 | The list of a restored row: the default list if every filter is blank, and otherwise each filter split on its own. |
| Config.RestartCanNarrowDelivery | internal/instance/manager.go:198-219 | Concrete defaults under which a restart stops delivering messages. |
| Config.RestartCanWidenDelivery | internal/config/config.go:226-228 | A concrete default setting with a blank after its comma under which contacts are filtered until a restart. |
| Filters.SplitFilters | internal/whatsapp/instancestore.go:266-283 | The loop computes the trimmed non-empty parts, and every one is comma-free and trimmed. |
| Filters.TrimSpaceMeaning | internal/whatsapp/instancestore.go:266-283 | Trimming cuts white space only, on both sides, and leaves none at the ends. |
| Filters.SplitOfJoin | internal/whatsapp/instancestore.go:266-283 | Splitting the join of comma-free parts gives the parts back. |
| Filters.StoredFiltersUnchangedIff | internal/whatsapp/instancestore.go:45 | A filter list comes back from the store as it was if and only if every filter is non-empty, comma-free and trimmed. |
| Filters.StoringIsIdempotent | internal/whatsapp/instancestore.go:266-283 | Joining and splitting twice is the same as once, on every list of strings. |
| Filters.StoredAsSplit | internal/whatsapp/instancestore.go:266-283 | Every list comes back from the store as its filters split on their own, one after the other. |
| Filters.NothingComesBackIff | internal/whatsapp/instancestore.go:266-283 | Nothing comes back if and only if every filter is commas and white space only. |
| Filters.StripSystemEvents | internal/event/constants.go:49-57 | Keeps exactly the filters that are not system events. |
| Filters.StrippedConcat | internal/event/constants.go:49-57 | Stripping keeps order and repetitions: it distributes over concatenation. |
| EventHandler.Handler.Handle | internal/instance/manager.go:646-759 | The handler's new state, its dedup set, everything it launches and publishes, in order, and what of that reaches the target of its publisher. |
| EventHandler.Handler.TrackHistory | internal/instance/manager.go:556-606 | On a paired device a batch is cached, and the end of the initial sync is published the first time. |
| EventHandler.Handler.PassesFilters | internal/instance/manager.go:732-745 | The loop over the filters passes system events, everything under an empty list, and exactly the types named. |
| EventHandlerProofs.InitialSyncOncePerPairing | internal/instance/manager.go:590-603 | Over any run, initial_sync_finished is attempted exactly on the first end of an initial sync since the last pairing, right after the batch is cached. |
| EventHandlerProofs.SyncedIff | internal/instance/manager.go:648-656 | The flag is set exactly when a sync has ended since the last pairing. |
| EventHandlerLog.LoggedOutOnce | internal/instance/manager.go:648-678 | Over any run, a handler publishes logged_out exactly as often as it is logged out, each time after storing it and right before asking for a rebuild, and logged_in right after each device it stores. |
| EventHandlerLog.EventsReachTarget | internal/instance/manager.go:646-759 | Over any run, for every event type but the end of the initial sync, a handler has published as many events of the type, messages aside, as its inputs yield and its filters pass; the wrapper lets the system events through and no other. |
| EventHandlerLog.DevicesRecorded | internal/instance/manager.go:646-678 | Over any run, the device updates and rebuilds of a handler are those of its pairings and logouts, in order, each with its device. |
| EventHandlerLog.BatchesCached | internal/instance/manager.go:556-604 | Over any run, a handler caches exactly the initial, full and recent batches that reach it on a paired device with history on. |
| EventHandlerLog.SystemEventsReachTarget | internal/publisher/systemonly.go:29-38 | Over any run with any filters and any dedup set, logged_in, logged_out and login_error reach the target exactly as often as inputs yield them, through the wrapper or not. |
| Publishers.SystemEventsOnlyPublisher.Publish | internal/publisher/systemonly.go:29-38 | Passes exactly the system events on to the wrapped publisher. |
| Publishers.ForwardedMeaning | internal/publisher/systemonly.go:29-38 | Each event goes through as often as it was published if it is a system event, and not at all otherwise; without the wrapper everything goes through as it was. |
| Publishers.Create | internal/publisher/publisher.go:53-86 | The target is wrapped exactly when publishing is switched off; unset means on. |
| Publishers.WrapperForwards | internal/publisher/systemonly.go:29-38 | Over any sequence of events, the wrapper drops no system event and lets nothing else through. |
| EventHandlerProofs.LaunchesFollowEscalation | internal/instance/manager.go:689-723 | What is launched on a sync error is the escalation's decision on the sync events so far, whatever came in between. |
| EventHandlerProofs.MessagePublishedIff | internal/instance/manager.go:732-758 | A message is published if and only if it passes the filters and is not remembered; one that is filtered leaves no trace in the dedup set. |
| EventHandlerProofs.MessageAttemptedIff | internal/instance/manager.go:732-758 | Over any run, a handler attempts a message if and only if it passes the filters and no earlier arrival of its ID at any handler was let through and is still remembered. |
| EventHandlerProofs.AttemptIsAccepted | internal/instance/manager.go:747-758 | Each attempt to publish a message is an arrival the shared dedup set lets through. |
| EventHandlerProofs.MessageOncePerWindow | internal/instance/manager.go:747-758 | Over any run of any handlers sharing a dedup set, two attempts for one message are strictly more than the TTL apart. |
| AppStateRecovery.Tracker.OnSyncError | internal/instance/manager.go:689-723 | The new times and the action are the escalation step. |
| AppStateRecovery.Tracker.OnSyncComplete | internal/instance/manager.go:679-688 | Both times of the collection are dropped, and nothing else. |
| AppStateRecovery.MapsRemember | internal/instance/manager.go:679-723 | A time is recorded for a collection exactly while a full sync (a recovery) is pending, and it is the time of the last one. |
| AppStateRecovery.DecisionIff | internal/instance/manager.go:689-723 | Every decision from the history alone: a full sync exactly when none is pending and no cooldown runs, a recovery on a full sync's error exactly when no cooldown runs. |
| AppStateRecovery.OneFullSyncPerCycle | internal/instance/manager.go:679-723 | Two full syncs of one collection have a completion between them. |
| AppStateRecovery.RecoveriesApart | internal/instance/manager.go:689-723 | Two recoveries with no completion between are at least 48 hours apart. |
| AppStateRecovery.RecoveryRate | internal/instance/manager.go:689-723 | k recoveries with no completion between take at least (k - 1) times 48 hours. |
| AppStateRecovery.CollectionsIndependent | internal/instance/manager.go:679-723 | Dropping the events of all other collections changes no decision. |
| Dedup.Set.Contains | internal/event/dedup.go:33-42 | Answers whether the ID is there, and records it with the current time if not. |
| Dedup.Set.Cleanup | internal/event/dedup.go:49-68 | A tick of the loop drops exactly the entries older than the TTL. |
| Dedup.EntriesAreRemembered | internal/event/dedup.go:33-68 | Over any run, the entries are exactly the arrivals let through and not purged since, each with its time. |
| Dedup.DuplicateIff | internal/event/dedup.go:33-68 | An arrival is a duplicate if and only if an earlier one was let through and every purge since came within the TTL. |
| Dedup.AcceptancesApart | internal/event/dedup.go:33-68 | With a clock that does not run back, two acceptances of one ID are strictly more than the TTL apart. |
| Dedup.EntriesNeverStale | internal/event/dedup.go:49-68 | With ticks every ten minutes no entry is older than the TTL plus ten minutes. |
| HistoryCache.Store.Insert | internal/whatsapp/historysyncstore.go:26-50 | The lazy purge, which may fail, and then the insert at the end. |
| HistoryCache.Store.ListChats | internal/whatsapp/historysyncstore.go:54-83 | The loop lists the device's chats with a live row, as the query function does. |
| HistoryCache.ChatsAreTheLiveOnes | internal/whatsapp/historysyncstore.go:54-83 | The list is strictly ascending and holds a chat exactly when it has an unexpired row. |
| HistoryCache.LessIff | internal/whatsapp/historysyncstore.go:54-83 | The order of the list: the first code points that differ decide, and a prefix comes first. |
| HistoryCache.Store.GetMessages | internal/whatsapp/historysyncstore.go:87-116 | The payloads of the chat's unexpired rows in insert order. |
| HistoryCache.Store.DeleteAll | internal/whatsapp/historysyncstore.go:119-129 | Keeps the rows of the other devices, or all of them on an error. |
| HistoryCache.Service.FlushHistory | internal/whatsapp/historysync.go:26-90 | What is published and the rows left are the flush function, for every answer of the store. |
| HistoryCache.Service.PublishChat | internal/whatsapp/historysync.go:46-82 | The nested loops publish the chunks of the chat's first occurrences. |
| HistoryCacheProofs.ChunkedMeaning | internal/whatsapp/historysync.go:46-82 | The chunks concatenate to the messages, none is empty, all but the last hold 500, and their number is the ceiling of the count over 500. |
| HistoryCacheProofs.FirstByIDMeaning | internal/whatsapp/historysync.go:57-62 | The deduplicated list is the subsequence of exactly the first occurrences, in order. |
| HistoryCacheProofs.FirstByIDDistinct | internal/whatsapp/historysync.go:57-62 | No ID is published twice in a chat, and every cached ID is. |
| HistoryCacheProofs.BatchInPlace | internal/whatsapp/historysync.go:46-62 | Each batch that decodes contributes its messages where it stands, one that does not decode nothing. |
| HistoryCacheProofs.PurgeUnseen | internal/whatsapp/historysyncstore.go:26-50 | No read at or after the purge can tell that it happened. |
| HistoryCacheProofs.PurgeMeaning | internal/whatsapp/historysyncstore.go:26-50 | A purge removes what has expired of its device and nothing else, as reads of any device, chat and time see it. |
| HistoryCacheProofs.InsertMeaning | internal/whatsapp/historysyncstore.go:26-50 | What one insert does, as reads of any device, chat and time see it, with its purge and its insert working or not. |
| HistoryCacheProofs.ReadFindsInserts | internal/whatsapp/historysyncstore.go:26-116 | After any inserts, with any purges along the way, a read finds what was there and what was inserted and is unexpired. |
| HistoryCacheProofs.FlushPublishesInserts | internal/whatsapp/historysync.go:26-90 | Inserts and then a flush with a working store: the events of each chat carry in order the first occurrences among its unexpired batches, in insert order, 500 in each but the last. |
| HistoryCacheProofs.FlushOfChat | internal/whatsapp/historysync.go:26-90 | Whatever the store answers, a chat's events are those of its own read, and there are none unless it was listed and read. |
| HistoryCacheProofs.FlushAscends | internal/whatsapp/historysync.go:46-82 | For every answer of the store the events come chat by chat, in the order of the list. |
| HistoryCacheProofs.FlushClearsDeviceIff | internal/whatsapp/historysync.go:26-90 | For every table and every answer of the store, the device has no row afterwards if and only if it had none, or the list worked and was not empty and the delete worked; other devices' rows and reads never change. |
| HistoryCacheProofs.ExpiredRowsStay | internal/whatsapp/historysync.go:39-42 | A concrete expired batch that stays after a flush without an error. |
| HistoryCacheProofs.FlushedOnce | internal/whatsapp/historysync.go:26-90 | After a flush that listed and deleted without an error, no later flush publishes anything unless something is inserted. |
| HistoryCacheProofs.FlushLosesChatIff | internal/whatsapp/historysync.go:46-90 | A listed chat's rows go unpublished exactly when its read failed or nothing in it decodes. |
| HistoryFlushAmid.FlushAmidInserts | internal/whatsapp/historysync.go:26-90 | With inserts beside the flush, each query at its own time, for every answer of the store and every chat, listed and read or not: its events carry everything inserted before the delete if and only if each message its read missed has the ID of one that was read; all rows of the device go if anything was listed and the delete works. |
| HistoryFlushAmid.FlushAmidNothing | internal/whatsapp/historysync.go:26-90 | With no insert beside it that is the flush, for every answer of the store. |
| HistoryFlushAmid.BatchLostBesideFlush | internal/whatsapp/historysync.go:46-90 | A concrete batch inserted after its chat's read that is deleted unpublished. |
| MediaID.EncodeFrame | internal/event/media_id.go:29-72 | Which length errors come first, and otherwise the frame, written field by field. |
| MediaID.DecodeFrame | internal/event/media_id.go:110-217 | The reader's result on every byte string: the first field that does not fit names the error. |
| MediaID.DecodeOfFrame | internal/event/media_id.go:29-217 | A frame decodes to its info, whatever follows it. |
| MediaID.AcceptedStartsWithFrame | internal/event/media_id.go:110-217 | Every accepted byte string starts with the frame of its result. |
| MediaID.DecodeIff | internal/event/media_id.go:29-217 | The decoder returns an info if and only if the string starts with its frame and its lengths are in range. |
| MediaID.FramesPrefixFree | internal/event/media_id.go:110-217 | Every proper prefix of a frame is rejected. |
| MediaID.TruncatedFrame | internal/event/media_id.go:110-217 | Which error each proper prefix of a frame gives: that of the length or the data in which it ends. |
| MediaID.OtherVersionNamed | internal/event/media_id.go:112-119 | A first byte other than the version is rejected by name. |
| MediaID.FrameBytes | internal/event/media_id.go:29-72 | The frame byte by byte: version, lengths in order with the long ones low byte first, file length, data in order. |
| MediaID.FromToLE | internal/event/media_id.go:38-62 | Little-endian integers of any width read back as written. |
| MediaID.ToFromLE | internal/event/media_id.go:110-164 | And bytes read as an integer are written back the same. |
| MediaID.EncodeMediaID | internal/event/media_id.go:29-88 | Succeeds exactly within the length limits, with the wrapped frame, and otherwise names the limit; its ID decodes to the info if compression and base64 lose nothing. |
| MediaID.DecodeMediaID | internal/event/media_id.go:91-218 | Accepts exactly the IDs whose unwrapped bytes start with a frame. |
| QRDrain.Drain | internal/whatsapp/session.go:101-132 | Whatever the consumer does every send finds room, only the first item is sent, and the output is closed exactly when an event ends the drain. |
| QRDrain.ForwardNeverBlocks | internal/whatsapp/session.go:101-132 | In every run a drain holding an item can forward it at once, and the caller gets at most one item, the first ever sent. |
| QRDrain.DrainStepsReceive | internal/whatsapp/session.go:101-132 | Every step of the drain but at most one takes an item from the source. |
| QRDrain.EmitterBlockedIff | internal/whatsapp/session.go:101-132 | A living drain can always step, and an emitter blocked in its send is still blocked if and only if the drain has taken no more steps than items stand in its way, not counting the one that forwards. |
| QRDrain.EmitterReleased | internal/whatsapp/session.go:101-132 | So two more steps of the drain release it, whatever the consumer does. |
| QRDrain.BlockedForeverAfterEnd | internal/whatsapp/session.go:101-132 | After the drain ends, an emitter blocked then stays blocked in every continuation. |
| QRDrain.EndsEmptyUnlessExpired | internal/whatsapp/session.go:101-132 | In every run in which the drain does not expire, it ends only when the source is closed and all that was sent has been received. |
| QRDrain.ExpiryStrandsEmitter | internal/whatsapp/session.go:101-132 | A concrete run in which the drain expires with an emitter blocked. |
| MediaDownload.Slots.constructor | internal/instance/manager.go:47-65 | A limit of zero or less makes no slot channel. |
| MediaDownload.DownloadByID | internal/whatsapp/media.go:58-132 | The result on every path, a slot returned exactly once on each, the download only while it is held, and no size over a positive limit. |
| MediaDownload.SupportedIff | internal/whatsapp/media.go:134-190 | The downloadable types are image, video, audio, voice, document and sticker. |
| MediaDownload.StepKeepsAccounted | internal/whatsapp/media.go:72-80 | Each step of concurrent callers keeps occupied slots equal to the callers holding one. |
| MediaDownload.SlotsBoundDownloads | internal/whatsapp/media.go:72-80 | In every reachable state at most the capacity download at once, a waiting caller can proceed exactly when a slot is free, and a holder can always return its slot. |
| Redaction.RedactEqualIff | internal/logging/redact.go:150-165 | Two trees redact to the same tree if and only if they agree outside the values of sensitive keys, at any depth. |
| Redaction.RedactFixedIff | internal/logging/redact.go:150-165 | A tree is left alone if and only if every sensitive key holds the placeholder, and the result always does, changing nothing else. |
| Redaction.RedactIdempotent | internal/logging/redact.go:137-165 | Redacting twice is redacting once. |
| Redaction.RedactAttr | internal/logging/redact.go:89-132 | The loop over a group's members computes the redacted attribute. |
| Redaction.AttrsLoggedAlikeIff | internal/logging/redact.go:89-132 | Two attributes are logged alike if and only if they agree outside what is hidden: under a deep key, sensitive values of documents, all of unreadable values, and the values of groups. |
| Redaction.DeepAttr | internal/logging/redact.go:104-132 | Under a deep key nil stays, a document is redacted, what cannot be read becomes the placeholder whatever it holds, and a group shows its keys only. |
| Redaction.RedactedAttrAgrees | internal/logging/redact.go:89-132 | What is logged agrees with the attribute outside what is hidden. |
| Redaction.RedactAttrIdempotent | internal/logging/redact.go:89-132 | Redacting an attribute twice is redacting it once. |
| RedactionInPlace.Parse | internal/logging/redact.go:137-144 | Every document is parsed into nodes of its own that stand for it. |
| RedactionInPlace.RedactJSON | internal/logging/redact.go:137-148 | Parse, walk and print together give the redacted document; one that cannot be read or written becomes the placeholder. |
| RedactionInPlace.RedactValue | internal/logging/redact.go:150-165 | The walk that overwrites the parsed maps leaves nodes that stand for the redacted tree, on the same nodes. |
| RedactionInPlace.RedactFields | internal/logging/redact.go:150-165 | The loop over a map overwrites sensitive fields and descends into the rest, in any order of the keys. |
| RedactionInPlace.RedactItems | internal/logging/redact.go:150-165 | The loop over a slice descends into each item. |
| Identity.Resolve | internal/identity/identity.go:27-74 | The identity from the two JIDs and the mapping, with the missing side looked up. |
| Identity.Categorize | internal/identity/identity.go:85-99 | The first JID of each kind sets the phone or the LID, once. |
| Identity.PairResolves | internal/identity/identity.go:27-74 | A LID JID and a phone JID, in either order, give the phone ID, that phone and that LID, whatever the store is, with the device of the first. |
| Identity.OneSideResolves | internal/identity/identity.go:27-74 | Every other pair that names a user: the first JID of one kind wins, an alternate counts when the first is no user, and the other side is the store's answer. |
| Identity.NoUserResolves | internal/identity/identity.go:27-74 | Without a user on either side the ID is the first JID without device and agent. |
| Identity.SameUserSameIdentity | internal/identity/identity.go:27-115 | Over a bijective mapping the phone JID and the LID JID of a user give the same ID, LID and phone, with or without the other as alternate and from any device. |
| Identity.SameIDIff | internal/identity/identity.go:27-115 | Two user JIDs get the same ID if and only if they are the same user. |
| Identity.ChatIDIsIdentityIff | internal/event/utils.go:18-34 | For every JID the chat ID is the resolved ID if and only if no raw agent shows and the store maps no LID without a user. |
| Recipients.FormatRecipient | internal/whatsapp/jid.go:34-46 | The address of every string, parse errors included. |
| Recipients.FormattedIs | internal/whatsapp/jid.go:34-46 | On every string one leading plus is dropped, and what has no at-sign or cannot be parsed goes to the default server as it is. |
| Recipients.TrimBeforeOrAfterCut | internal/validate/validate.go:44-62 | On every string, trimming the plus before or after cutting at the at-sign agrees. |
| Recipients.AddressAcceptedIff | internal/validate/validate.go:44-62 | A full address is accepted if and only if it is a routable local part, an at-sign and a server; the formatter returns those halves. |
| Recipients.NumberAcceptedIff | internal/validate/validate.go:18-62 | A bare number is accepted if and only if the formatter's local part is 7 to 15 digits without a leading zero. |
| Recipients.AcceptedIsRoutable | internal/whatsapp/jid.go:34-46 | Everything accepted is formatted to a local part of digits or digits-digits. |
| Recipients.JIDUserIff | internal/validate/validate.go:18-62 | A local part is digits, or digits, a hyphen and digits. |
| Recipients.DoublePlusRejected | internal/validate/validate.go:44-62 | A second plus is never accepted. |
| Migrations.Migrator.Run | internal/whatsapp/migrate.go:32-64 | The database left and the outcome of a run stopped after any number of statements, the creation of the version table included. |
| Migrations.Migrator.MigrateV1 | internal/whatsapp/migrate.go:67-165 | Creates the missing tables and no others, and can stop between any two. |
| Migrations.Migrator.MigrateV2 | internal/whatsapp/migrate.go:170-186 | Adds the column; on SQLite it fails if the column is there. |
| Migrations.AttemptsKeepOrder | internal/whatsapp/migrate.go:32-64 | Over any attempts, each stopped anywhere, migrations run in nondecreasing order with no gap, at most one ahead of the stored version, and the schema is what they built. |
| Migrations.AttemptRuns | internal/whatsapp/migrate.go:32-64 | One attempt runs consecutive migrations right after the stored version and records each before the next, so only one whose version write was lost runs again. |
| Migrations.UnstoppedRunCompletesIff | internal/whatsapp/migrate.go:32-64 | From every reachable state a run nothing stops ends at the last version with the whole schema, if and only if the state is not the stuck one, where every run fails and changes nothing. |
| Migrations.StuckIsReachable | internal/whatsapp/migrate.go:170-186 | A concrete crash that reaches the stuck state. |
| Migrations.OtherDialectStops | internal/whatsapp/migrate.go:67-186 | On any other database no migration runs, and a run with something to do stops. |

## Left out

- EventHandler.Handler.Handle: does not model the upserts into the chat and contact tables at the start of the handler, which copy fields and affect nothing that follows.
- Shutdown, EnsureSingleInstance, ListInstances, GetInstance and the logging of the configuration: one-branch logic beside the sections modelled.
- The projectors: an event carries what its projection yields. Assumed are only that no projector yields the two events the handler publishes itself, and that a message is not a system event.
- How history messages are decoded and cached batch by batch: a cached batch is given by what it decodes to.
- The client library, SQL drivers, Redis, webhooks and their signatures: their answers are choices made by each step or call. The created_at and updated_at columns are not modelled.
- Mutual exclusion itself: each section under the lock is atomic, and each handler's events are sequential.
- Which device a service's client holds while it runs, and whether the client library still has the device a service is started on. A restart of an instance with no service starts on no device although the row may hold one, as the contract of RestartInstance shows; over runs the two devices are not compared.
- What closing a publisher does: the publishers handed to instances do nothing on Close, so the model records only that it was called. A handler keeps the publisher it captured.
- A nil and an empty filter slice are the same list, as the code treats them.
- gzip (RFC 1952), URL-safe base64 (section 5 of RFC 4648) and JSON text: any functions, with a left inverse where decoding is claimed to undo encoding. createMediaID, which turns an encoding error into an empty ID, is not modelled.
- JID parsing: assumed to return the two halves of an address with one at-sign and a local part of digits or digits-digits. ResolveSender only copies fields.
- The LID store answers by user alone, and does not change during a resolution.
- Row ids of the history table: rows are kept in the order of their id, and ordering by chat compares code points.
- The downloaded file: making, writing and rewinding the temp file is one answer, and the context's timeout is an answer of the download.
- A migration statement half done: statements are atomic.
- QR emitters that send after closing their channel, and the close of the dedup set's ticker: not modelled.
- A group under a deep redaction key is marshalled as its key and value objects, the values opaque.
