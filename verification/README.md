# Nacos client protocols, verified

A Dafny model of the stateful parts of the Nacos Rust client, with proofs about whole runs. The
network, the server, the clock, the random draw and the other tasks of the client are inputs that
may behave in any way; the theorems hold for all of them.

- **Connection** (`ConnectionModel.dfy`, `Connection.dfy`). The state machine behind `poll_ready`:
  connecting, initialising, serving, backing off. `ConnectionModel` describes one iteration of its
  loop on values and proves what every run keeps; `Connection` is the object whose fields the loop
  updates, with `call`, the health checker and the two watchers behind the connected and
  disconnected callbacks.
- **Naming cache** (`ServiceInfos.dfy`, `HostDiff.dfy`, `Emitter.dfy`, `Observer.dfy`). Pushed and
  polled snapshots pass an empty-push check, a staleness check and a diff; what passes replaces the
  cache entry and becomes an event, which the observer hands to listeners.
- **Chooser** (`Chooser.dfy`). The weighted random choice of one instance.
- **Redo** (`RedoModel.dfy`, `Redo.dfy`, `Reconnection.dfy`). The map of registrations that is
  replayed after a reconnection, and the register and deregister calls that fill it. `Reconnection`
  runs it together with the connection, its watchers and the tasks their callbacks start.
- **Configuration** (`ConfigModel.dfy`, `ConfigSync.dfy`, `ConfigCalls.dfy`, `Config.dfy`). Cached
  configurations are compared with the server by md5, changed keys go through a channel, and
  listeners are told. `ConfigCalls` is what overlapping registrations do to one key.
- **Updater** (`Updater.dfy`, `Polling.dfy`). The polling loop with its capped back-off, alone and
  beside the emitter.
- **Server list** (`ServerList.dfy`, `Decimal.dfy`). The address parser and the printed form that
  has to parse back; bracketed hosts are those of section 3.2.2 of RFC 3986.

`Wrappers.dfy`, `Arithmetic.dfy` and `Keys.dfy` hold what the others share. `dafny verify dfyconfig.toml` checks
everything. A module with `Model`, `Sync` or `Calls` in its name works on values; the classes update
their fields in place and are proved against it.

## Where the code does less than one might expect

For each there is a lemma that says exactly when the code does what one expects, and one with an
input for which it does not.

- A newer snapshot with the same hosts does not advance the cached timestamp, so an older snapshot
  can replace what a newer one confirmed (`Emitter.NewestWinsIff` and `Emitter.HostsHeldIff`;
  `Emitter.OlderSnapshotCanWin`).
- The first fill of a configuration tells no listener, also when it comes long after the listener
  was added (`ConfigModel.FillReachesIff`; `ConfigModel.FirstFillIsSilent`).
- Calls that register listeners for a new key overlap while they wait for the server, and each
  inserts an entry of its own, so listeners can be lost (`ConfigCalls.RegisteredIff`;
  `ConfigCalls.OverlappingCallsLoseAListener`).
- The callbacks' effects on the redo map run in tasks of their own. The last one to run decides, so
  a late disconnection stops every replay while the client is connected
  (`Reconnection.LastLandingDecides`; `Reconnection.LateDisconnectionForgets`).
- A very large cache time is shifted out of 64 bits after failures, and the poll loop stops sleeping
  (`Updater.SleepIsCappedBackOffIff`; `Updater.HugeCacheTimeStopsSleeping`).
- Callbacks pair up by connection id exactly when every stretch of present values that the watchers
  see ends with the id it begins with. A missed value need not break that, but can
  (`ConnectionModel.ReportsPairIff`; `ConnectionModel.PairingCanFail`). They alternate in any case.
- Keys join names with a separator that the names may hold, so two services can share a redo task and
  two configurations a cache entry (`RedoModel.KeyIff` and `ConfigModel.GroupKeyIff`;
  `RedoModel.KeysCanCollide` and `ConfigModel.GroupKeysCanCollide`).
- An address that begins with a colon is taken whole as a host, is printed with a port appended, and
  then is not parsed back (`ServerList.PrintedListIsStable`; `ServerList.LedByColonLosesItsPort`).
  The comment at src/common/remote/server_list/mod.rs:93 calls this case bare IPv6; an unbracketed
  IPv6 address that begins otherwise is cut at its first colon (`ServerList.HostIsWholeIff`;
  `ServerList.BareIpv6IsCut`).

## Model

| member | source | states |
|---|---|---|
| ConnectionModel.EveryRunKeeps | src/common/remote/grpc/nacos_grpc_connection.rs:466-620 | In every run: initialised exactly when a connection id is stored and some initialisation succeeded, connected implies initialised, health only while connected, retries conserved, back-off matching its failure, watch stream matching the lives of the connections |
| ConnectionModel.InitializedNeverReverts | src/common/remote/grpc/nacos_grpc_connection.rs:557-559 | From any kept state, initialisation and the stored id are never undone |
| ConnectionModel.RetryConservation | src/common/remote/grpc/nacos_grpc_connection.rs:467-481 | Before the first initialisation failures equal the allowed attempts times the exhausted rounds plus the count, which never exceeds the allowed attempts, zero included; afterwards the count is the current streak of failures |
| ConnectionModel.ReadyMeans | src/common/remote/grpc/nacos_grpc_connection.rs:576-593 | Once initialised Ready means a live connection whose health was read true; before, Ready means the attempts ran out, with the failures an exact multiple of them |
| ConnectionModel.OnlyInitRaisesHealth | src/common/remote/grpc/nacos_grpc_connection.rs:555-608 | Health is raised by a successful initialisation only and goes down through other tasks or a failing service |
| ConnectionModel.IterationIs | src/common/remote/grpc/nacos_grpc_connection.rs:467-619 | In every kept state: when each thing an iteration can do happens, and the state, count, id and initialisation it leads to |
| ConnectionModel.HealthStep | src/common/remote/grpc/nacos_grpc_connection.rs:555-608 | What one iteration makes of the health flag, and what it does with a live connection: serves it if the flag is up, gives it up otherwise |
| ConnectionModel.HealthIff | src/common/remote/grpc/nacos_grpc_connection.rs:555-608 | Over every run the flag is up exactly when a connection was initialised and since then nobody lowered the flag and no iteration gave the connection up |
| ConnectionModel.ServedIff | src/common/remote/grpc/nacos_grpc_connection.rs:576-593 | Over every run a live and ready connection is served exactly when the flag stayed up since it was made, and given up otherwise |
| ConnectionModel.GoodTurnsServe | src/common/remote/grpc/nacos_grpc_connection.rs:459-621 | From every kept state, when the futures succeed and nobody lowers the flag, a request is served within seven iterations |
| ConnectionModel.SleepTimeIsCappedDoubling | src/common/remote/grpc/nacos_grpc_connection.rs:51-57 | Back-off doubles with each failure and is capped at 64 seconds |
| ConnectionModel.PollReadyEnds | src/common/remote/grpc/nacos_grpc_connection.rs:466-620 | One call makes at most six iterations for every outcome of the futures and every lowering of health |
| ConnectionModel.CallbacksFollowConnections | src/common/remote/grpc/nacos_grpc_connection.rs:124-164 | Over every run the two callbacks report exactly the connections opened and given up, alternating and paired by id, the last closing at most held back until the machine leaves Idle |
| ConnectionModel.ReportsAlternate | src/common/remote/grpc/nacos_grpc_connection.rs:124-164 | Strict alternation starting with connected, for any stream of values both watchers see, lossy ones included |
| ConnectionModel.ReportsPair | src/common/remote/grpc/nacos_grpc_connection.rs:145-164 | When every id follows an absent value, a disconnection names the connection reported just before |
| ConnectionModel.ReportsPairIff | src/common/remote/grpc/nacos_grpc_connection.rs:145-164 | For any values the watchers see, lossy or not, reports pair up by id exactly when each stretch of present values ends with the id it begins with |
| ConnectionModel.PairingCanFail | src/common/remote/grpc/nacos_grpc_connection.rs:124-164 | Of the values a run sends, watchers that miss two report one connection opened and another closed |
| Connection.NacosGrpcConnection.PollReady | src/common/remote/grpc/nacos_grpc_connection.rs:459-621 | The in-place loop ends within six iterations in the state the iterations lead to, never errs, and answers Pending or Ready as its last iteration says |
| Connection.NacosGrpcConnection.PollState | src/common/remote/grpc/nacos_grpc_connection.rs:467-619 | The exhaustion check and the five states, with what is sent on the watch |
| Connection.NacosGrpcConnection.SendRequest | src/common/remote/grpc/nacos_grpc_connection.rs:623-656 | A request made once the service is ready gets the server's reply when the client is initialised, and the not-connected error after an exhausted round |
| Connection.NacosGrpcConnection.Failover | src/common/remote/grpc/nacos_grpc_connection.rs:731-737 | Leaves the flag down |
| Connection.NacosGrpcConnection.HealthCheckRound | src/common/remote/grpc/nacos_grpc_connection.rs:745-812 | Clears the flag exactly when the connection was idle for the interval and no attempt was healthy; never raises it |
| Connection.Probing | src/common/remote/grpc/nacos_grpc_connection.rs:755-803 | Healthy exactly when one of three attempts is and all before it were the kind that is tried again |
| Connection.ConnectedListener | src/common/remote/grpc/nacos_grpc_connection.rs:124-143 | Fires the openings of the stream's reports, in order |
| Connection.DisconnectedListener | src/common/remote/grpc/nacos_grpc_connection.rs:145-164 | Fires the closings of the stream's reports, in order |
| HostDiff.KeyInjective | src/api/naming.rs:78-80 | The printed key tells ip and port apart, whatever the ip contains |
| HostDiff.HostsLastWins | src/naming/observable/service_info_diff.rs:17-24 | The host map holds, for each key, the last host that has it |
| HostDiff.DiffIsPatch | src/naming/observable/service_info_diff.rs:28-51 | New, modified and removed share no key, patch the old map into the new one, and changed means the maps differ |
| HostDiff.Calculate | src/naming/observable/service_info_diff.rs:16-52 | The diff of any two lists, in any map order, lists exactly the new, modified and removed hosts once each, and is such a patch |
| ServiceInfos.GroupedNameIff | src/naming/dto/service_info.rs:73-79 | When two services share a key: plain names in plain groups only when both are the same; a name that holds the separator is its own key |
| Emitter.EnqueuedIffReplaced | src/naming/observable/service_info_observable.rs:152-164 | An event is enqueued exactly when the cache changes, and concerns that entry only |
| Emitter.PassesIff | src/naming/observable/service_info_observable.rs:166-168 | The push check, field by field: hosts are given, and under protection the snapshot is marked complete or has a healthy host of positive weight |
| Emitter.EmitIff | src/naming/observable/service_info_observable.rs:152-246 | Exactly when an emit changes cache and channel, field by field, and how |
| Emitter.EmittedHostsAreCached | src/naming/observable/service_info_observable.rs:170-195 | After an emit of a snapshot that passes and is not older than the cached one, the cached hosts are the emitted ones |
| Emitter.EventLogIsCache | src/naming/observable/service_info_observable.rs:152-195 | Replaying the events of any run over the cache it began with gives the cache it ended with |
| Emitter.EveryRunKeeps | src/naming/observable/service_info_observable.rs:166-226 | Timestamps never go back; entries always have hosts, and under protection are marked complete or have a healthy host of positive weight |
| Emitter.HostsHeldIff | src/naming/observable/service_info_observable.rs:166-246 | Over any run the cached hosts of a key stay the same exactly when no snapshot overtakes the entry they were stored with: none passes the push check, is at least as new as that entry and has other hosts |
| Emitter.NewestWinsIff | src/naming/observable/service_info_observable.rs:166-246 | For any cache and either setting of the protection, exactly when a newer snapshot still wins after an older one has followed it |
| Emitter.OlderSnapshotCanWin | src/naming/observable/service_info_observable.rs:219-245 | The family of runs in which an older snapshot is stored after a newer one |
| Emitter.ServiceInfoEmitter.Emit | src/naming/observable/service_info_observable.rs:152-164 | One emit in place: cache, channel and log move together |
| Emitter.Changed | src/naming/observable/service_info_observable.rs:197-246 | The decision taken with the computed diff is: no entry, or not outdated and different hosts |
| Observer.RegistryHoldsSubscriptions | src/naming/observable/service_info_observable.rs:97-128 | After any steps the registry holds exactly the subscriptions left standing, each once |
| Observer.ChangeKeepsKey | src/naming/observable/service_info_observable.rs:75-80 | An event carries its snapshot's name, group, clusters and hosts, and belongs to its key |
| Observer.ListenerHearsItsKey | src/naming/observable/service_info_observable.rs:58-128 | However subscriptions and events interleave, a listener is told exactly the events of its key received while it is subscribed, once each and in order |
| Observer.ListenerSeesTheCache | src/naming/observable/service_info_observable.rs:58-195 | Emitter to listener: once a run's events are received, the last change a listener was told since it subscribed is the cached snapshot, whatever others subscribe meanwhile |
| Observer.ServiceInfoObserver.Observe | src/naming/observable/service_info_observable.rs:58-128 | The receiving loop among the calls of its users sends what the registry calls for at each event |
| Observer.ServiceInfoObserver.Subscribe | src/naming/observable/service_info_observable.rs:97-112 | Registers once, moving a known listener to the end; no other subscription changes |
| Observer.ServiceInfoObserver.Unsubscribe | src/naming/observable/service_info_observable.rs:115-128 | Removes that listener from that key; no other subscription changes |
| Chooser.Build | src/naming/chooser/mod.rs:13-79 | Keeps exactly the weighted instances in order; the vector holds the share of every prefix; the tolerance check passes, so only the empty list is an error |
| Chooser.WeightsIncrease | src/naming/chooser/mod.rs:57-64 | The cumulative vector is strictly increasing |
| Chooser.LastWeightIsOne | src/naming/chooser/mod.rs:66-78 | The cumulative vector ends at 1 |
| Chooser.IntervalsPartition | src/naming/chooser/mod.rs:83-112 | Every draw in [0, 1) lies in exactly one item's interval, which is as long as the item's share of the weight |
| Chooser.ChoosesIsLeast | src/naming/chooser/mod.rs:85-111 | That item is the one at the least index whose prefix share reaches the draw |
| Chooser.RandomWeightChooser.Choose | src/naming/chooser/mod.rs:83-112 | The search chooses the item of the draw's interval, and none only when no item has weight |
| RedoModel.ReplaySet | src/naming/mod.rs:189-228 | Over every interleaving the map holds, per key, exactly the latest register request no successful deregister followed |
| RedoModel.KeyTellsFourth | src/naming/redo/automatic_request.rs:40-51 | Requests that agree on three of namespace, group, service and kind share a key exactly when they agree on the fourth |
| RedoModel.KeyIff | src/naming/redo/automatic_request.rs:40-51 | Requests without the separator's character in their names share a key exactly when they are about the same registration, whatever else they carry |
| RedoModel.KeysCanCollide | src/naming/redo/automatic_request.rs:40-51 | Two services of other names share a key |
| RedoModel.ReplaySetOfRegistration | src/naming/mod.rs:189-228 | The replay set by registrations instead of keys, for requests without the separator's character in their names |
| RedoModel.ActiveIff | src/naming/redo/mod.rs:81-171 | Over every run a task waits to be replayed exactly when something raised its flag (it was made, a connection came up with it in the map, a send of it failed) and since then it was not sent, not accepted by its own call, and not in the map at a disconnection |
| RedoModel.FrozenForAReason | src/naming/redo/mod.rs:144-171 | From any state an active task stops being replayed only by its own sent run, its own accepted call, or a disconnect, and the event is named |
| RedoModel.NothingForgottenSinceReconnect | src/naming/redo/mod.rs:81-86 | The same for everything registered at a reconnection, for reasons later than it |
| RedoModel.TickInView | src/naming/redo/mod.rs:46-61 | A tick, in whatever order the map is walked, sends each active task of the map exactly once and nothing else, and leaves active exactly those whose send failed |
| RedoModel.ReconnectReplaysEverything | src/naming/redo/mod.rs:46-86 | After a reconnection the next tick sends the latest standing registration of every key, once |
| RedoModel.ConnectionEventsInView | src/naming/redo/mod.rs:81-94 | Connection events set every flag and leave the key set alone |
| RedoModel.RegisterInView | src/naming/mod.rs:189-209 | A completed register leaves its task under its key, active exactly when it failed |
| RedoModel.DeregisterInView | src/naming/mod.rs:212-228 | A deregister removes its key when accepted and changes nothing when not |
| RedoModel.LateCompletionSparesNewerTask | src/naming/mod.rs:199-207 | Over every run: once a later register took a task's key, the late end of the earlier call, or of a send of its task, changes nothing in the map |
| Redo.RedoTaskExecutor.Tick | src/naming/redo/mod.rs:46-61 | The in-place tick |
| Redo.RedoTaskExecutor.OnGrpcClientReconnect | src/naming/redo/mod.rs:81-86 | Every task becomes active, no key changes |
| Redo.RedoTaskExecutor.OnGrpcClientDisconnect | src/naming/redo/mod.rs:89-94 | Every task is frozen, no key changes |
| Redo.NacosNamingService.ExecuteByRegisterWithRedo | src/naming/mod.rs:189-209 | The call on the shared objects, with any steps of other tasks between adding the task and the reply |
| Redo.NacosNamingService.ExecuteByDeregisterWithRedo | src/naming/mod.rs:212-228 | The call on the shared objects, with any steps of other tasks between the request and the removal |
| Redo.NacosNamingService.HappenAll | src/naming/redo/mod.rs:46-171 | Any interleaving of calls, replays and connection events does to the objects what it does to the values |
| Redo.NacosNamingService.CurrentIsView | src/naming/redo/mod.rs:65-78 | The map of objects is the map of the model |
| Reconnection.EveryRunKeeps | src/naming/mod.rs:142-155 | Connection, watchers, callback tasks and redo map together: after a connection report has landed the map holds only tasks that are active or were since sent or accepted, after a disconnection report only those made or failed since are active |
| Reconnection.SinceIff | src/naming/mod.rs:142-155 | What counts as since the last landing: the calls and sends after every landing |
| Reconnection.LastLandingDecides | src/naming/mod.rs:142-155 | In whatever order reports land, every registration not touched since the last landing waits to be replayed exactly when that one reported a connection |
| Reconnection.InOrderReplaysEverything | src/naming/mod.rs:142-155 | When reports land in order, a connected client replays every registration until it was sent or accepted, also when the watchers miss values |
| Reconnection.LateDisconnectionForgets | src/naming/mod.rs:142-155 | A run in which a disconnection lands late: connected, nothing outstanding, and a registration never sent that no tick will send |
| ConfigSync.ListWatchConverges | src/config/worker.rs:369-509 | One list pass against a fixed server, drained with whatever was waiting: every entry that waited or differed is as the server has it, all fields, with its listeners up to date unless it had never been filled; every other entry is untouched, and has the server's md5 if the server holds it completely |
| ConfigSync.SecondPassIsQuiet | src/config/worker.rs:369-417 | A second pass enqueues no key the server holds completely; when md5s stand for contents every such entry has the server's content |
| ConfigSync.ReportedListsWhatDiffers | src/config/worker.rs:380-412 | Told the md5 of every entry, a server that lists what differs lists exactly the entries that do |
| ConfigSync.DrainedExactly | src/config/worker.rs:450-509 | Draining any queue leaves each entry as that many takings of its key do, of which a third changes nothing any more |
| ConfigSync.DrainEffect | src/config/worker.rs:450-509 | So it fills exactly the queued entries the server holds and brings the listeners of those filled before up to date; an incomplete reply writes the same once or many times |
| ConfigSync.DrainTells | src/config/worker.rs:450-509 | A drain tells a listener of an entry the news of the server's reply exactly once if its recorded md5 is another one and the entry was filled before (be it by the first of two takings), and otherwise nothing |
| ConfigModel.GroupKeyIff | src/config/util.rs:5-7 | When two configurations share a key |
| ConfigModel.GroupKeysCanCollide | src/config/util.rs:5-7 | Two configurations of other names share a key |
| ConfigModel.FillIs | src/config/worker.rs:421-439 | What a fill does, field by field, for complete and incomplete replies, and the response it sets on its way |
| ConfigModel.EveryRunKeeps | src/config/cache.rs:53-115 | Over any run of fills, dispatches and listener changes: no listener twice, no registration told one md5 twice in a row, each record the md5 told last |
| ConfigModel.EveryRunFromTheStart | src/config/cache.rs:34-50 | The same for every run of a new entry and of one loaded from disk |
| ConfigModel.DispatchTellsWhoDiffers | src/config/cache.rs:92-115 | A dispatch tells exactly the registrations whose record differs, once, with the entry's md5, and leaves every record equal to it |
| ConfigModel.LaterFillReachesEveryone | src/config/cache.rs:92-149 | Any later fill and its dispatch leave every registration told the news of the reply, once: its content as the filters leave it, its content type and its md5 |
| ConfigModel.FillReachesIff | src/config/worker.rs:433-438 | Exactly when a fill and its dispatch leave a registration told the entry's md5 |
| ConfigModel.FirstFillIsSilent | src/config/worker.rs:433-438 | The first fill reaches no listener |
| Config.CacheData.FillData | src/config/worker.rs:421-439 | The in-place fill, with the fields already written when a missing one panics |
| Config.CacheData.DispatchNotify | src/config/cache.rs:92-115 | The in-place dispatch |
| Config.CacheData.AddListener | src/config/cache.rs:53-60 | A listener not yet there is appended with an empty record, a known one changes nothing, none is listed twice |
| Config.CacheData.RemoveListener | src/config/cache.rs:63-69 | Exactly that listener's wrapper goes, all others stay with their records |
| Config.ConfigWorker.ListEnsureCacheDataNewest | src/config/worker.rs:375-412 | Reports every cached entry and enqueues the keys the reply lists |
| Config.ConfigWorker.NotifyChangeToCacheData | src/config/worker.rs:456-507 | One key from the channel: who is told what, and when a panic ends the loop |
| Config.ConfigWorker.NotifyLoop | src/config/worker.rs:450-509 | The loop empties the channel and leaves the drained cache and its deliveries, or ends at the first key whose reply lacks a field, with the keys after it still waiting |
| Config.ConfigWorker.ListWatchRound | src/config/worker.rs:369-509 | A pass and the notify loop on the objects: of the entries the server holds exactly those that differ are enqueued, the loop survives exactly when no queued reply is incomplete, and then every entry is synced and every listener was told exactly what it had to be |
| Config.ConfigWorker.AddListener | src/config/worker.rs:291-347 | Uninterrupted: creates and fills a missing entry, then registers |
| Config.ConfigWorker.BeginAddListener | src/config/worker.rs:297-300 | The test for the key, and the registration with a known entry |
| Config.ConfigWorker.EndAddListener | src/config/worker.rs:304-346 | The created entry takes the key, whatever is there, and gets the listener; a panic changes nothing |
| Config.ConfigWorker.HappenAll | src/config/worker.rs:291-509 | Any interleaving of calls, removals and refreshes for a key does to the objects what it does to the values |
| ConfigCalls.RegisteredIff | src/config/worker.rs:291-364 | Over every interleaving a listener is registered exactly when a call of its own is through and it was since neither removed nor lost to another call that inserted its own entry |
| ConfigCalls.CreatedHolds | src/config/worker.rs:301-320 | A created entry holds the server's configuration field by field, or nothing yet when the server does not answer |
| ConfigCalls.ContentAfter | src/config/worker.rs:291-507 | Refreshes and inserts bring the server's configuration into the entry; listeners come and go without touching it |
| ConfigCalls.OnlyRemovalDrops | src/config/worker.rs:300-346 | Once the entry is there and no call waits, only removals end registrations |
| ConfigCalls.OverlappingCallsLoseAListener | src/config/worker.rs:300-346 | Two overlapping calls get through and one listener is lost |
| Updater.SleepIsCappedBackOff | src/naming/updater/mod.rs:178-183 | The failure count is the streak of failed queries capped at 6, and each sleep is the doubled base delay capped at a minute while the 64 bits suffice |
| Updater.SleepIsCappedBackOffIff | src/naming/updater/mod.rs:178-183 | Over every run, for any cache time: the sleep is what 64 bits keep of the back-off, capped, and that is the capped back-off exactly when it fits or what is kept reaches the cap |
| Updater.HugeCacheTimeStopsSleeping | src/naming/updater/mod.rs:178-251 | A run of one answer and six failed queries after which the loop does not sleep |
| Updater.NoSkipBeforeSuccess | src/naming/updater/mod.rs:203-218 | No round is skipped before a query has succeeded |
| Updater.RoundIs | src/naming/updater/mod.rs:192-255 | Over every run: a round is skipped exactly on a newer cached snapshot, refreshes otherwise exactly when the server answers, and what each does to delay, time and failures |
| Updater.SkipsNeedNewerSnapshots | src/naming/updater/mod.rs:205-213 | Two skips without a successful query between them need a strictly newer cached snapshot |
| Polling.SkipsAreAnnounced | src/naming/updater/mod.rs:192-218 | Polling beside pushes: between two such skips the emitter enqueued an event for the key |
| Updater.Run | src/naming/updater/mod.rs:152-257 | The loop's sleeps and decisions over any inputs; what it emits is exactly the answers of the rounds not skipped, in order |
| ServerList.ParseThenParseBack | src/common/remote/server_list/mod.rs:23-72 | For every string: the endpoints parsed back are exactly those of the non-empty segments not led by a colon, and failure means there are none |
| ServerList.SegmentsAre | src/common/remote/server_list/mod.rs:26-30 | For every string: a comma, semicolon or newline splits the segments, and a text without one is a single segment, trimmed, or none if it is blank |
| ServerList.TrimIs | src/common/remote/server_list/mod.rs:26-30 | Trimming takes all whitespace off both ends and nothing else |
| ServerList.WhitespaceIs | src/common/remote/server_list/mod.rs:26-30 | The characters that are trimmed, one by one |
| ServerList.PortIff | src/common/remote/server_list/mod.rs:80-101 | Exactly when a segment has a port: its host, a colon and the port, and not led by a colon |
| ServerList.FailuresAre | src/common/remote/server_list/mod.rs:37-71 | Which error each parser returns, and exactly when |
| ServerList.PrintedHostParsesBack | src/common/remote/server_list/mod.rs:80-101 | A printed host and port parse back, bracketed or not |
| ServerList.ParsedHostIsHost | src/common/remote/server_list/mod.rs:80-101 | Every segment not led by a colon names a host that can stand before a port |
| ServerList.LedByColonLosesItsPort | src/common/remote/server_list/mod.rs:92-95 | A segment led by a colon never gets a port |
| ServerList.HostIsWholeIff | src/common/remote/server_list/mod.rs:80-101 | Exactly when a segment is its own host: bracketed and ending at its first closing bracket, or else led by a colon or without one |
| ServerList.BareIpv6IsCut | src/common/remote/server_list/mod.rs:92-98 | An address that begins with a group and no bracket is cut at its first colon |
| ServerList.PrintedListIsStable | src/common/remote/server_list/mod.rs:23-43 | Joining the printed list and parsing again changes nothing exactly when no segment was led by a colon |
| Decimal.PrintedParses | src/common/remote/server_list/mod.rs:86 | A printed port parses to itself |
| Decimal.ParseU16Iff | src/common/remote/server_list/mod.rs:86 | Exactly what parses as a port: digits after an optional plus sign, of a value that 16 bits hold |

## Left out

- gRPC and HTTP transport, TLS, protobuf and JSON: each is an outcome the environment chooses.
- Disk copies of the caches and the order in which they are written; a cache loaded at start is an arbitrary initial cache.
- Authentication, signing, encryption plugins, environment properties, logging and request building.
- Connection.NacosGrpcConnection.PollReady: requires that a back-off begun inside a call is still pending when the same call polls it; every back-off is at least two seconds, and without this a call need not end.
- ConnectionModel.RetryConservation: counts without bound; the wrap-around of the 32-bit counter is not modelled.
- Connection.NacosGrpcConnection.HealthCheckRound: reads the time of last activity as an input; the tasks that write it are not modelled.
- Connection.ConnectedListener: the values a watcher sees are an input, and both watchers see the same ones; how the channel drops values is not modelled.
- Emitter.ServiceInfoEmitter.Emit: the channel has no bound and the receiver is alive; sends that wait or fail are not modelled, and an emit is one step.
- Observer.ServiceInfoObserver.Observe: the order in which notifications reach their listeners; each runs in a task of its own.
- Chooser.Build: weights are reals; rounding, infinite weights and NaN are not modelled.
- Chooser.RandomWeightChooser.Choose: the fallbacks for an index outside the items are omitted, because the vector and the items have the same length.
- Host comparison assumes weights that are not NaN.
- Redo.NamingRedoTask.Run: success is that the send returned; the code inside the server's response is not looked at, as in the client.
- Redo.NacosNamingService.HappenAll: the read lock that keeps register and deregister from changing the map during a tick or a connection event; interleavings it rules out are proved all the same.
- Subscribing and unsubscribing through the naming service take the same redo steps and add no new ones.
- Lookups with a cluster string, which use another key than the cache is filled under.
- Config.ConfigWorker.EndAddListener: the listen request sent in the background is not modelled; its reply is not read.
- ConfigSync.ListWatchConverges: one server that does not change during the pass; a changing one is a sequence of answers (`Config.ConfigWorker.NotifyChangeToCacheData`).
- ConfigModel.EveryRunKeeps: there is one notify loop, as in the client, so a fill never falls between another fill and its dispatch; an entry replaced by an overlapping call (`ConfigCalls`) begins a history of its own.
- Reading, publishing and removing configurations.
- Updater.Run: the multiplication of the cache time wraps, as in a build without overflow checks.
- The map of running update tasks, which starts and stops loops by key.
- ServerList.ParseThenParseBack: the default port is a parameter; the client reads it from the environment.
