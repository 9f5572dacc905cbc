# Distributed device profile: a verified model

The distributed device profile service keeps what is known about each device of a user: its operating system,
the services it offers, and the characteristics of those services. Callers reach it through a client library that
marshals requests over IPC; profiles live in a key-value store under '#'-separated keys; and the service starts
on demand, in parallel with the callers that already talk to it. This project models the parts of that system
where several pieces must agree, and proves that they do.

| file | what it models |
|---|---|
| `Text.dfy` | splitting, joining, decimal numerals, and the byte order of `std::map` keys |
| `DbKeys.dfy` | writing store keys and taking them apart again: property, owning user, "_OH" service names |
| `Entries.dfy` | profiles as store entries, deletion, and the view one user has of everybody's entries |
| `UserSwitch.dfy` | rewriting the entries of no user when the foreground user changes; puts and deletions for users |
| `Sessions.dfy` | any run of switches, puts, deletions and restarts over one store |
| `Orders.dfy` | the comparison operators of device and service records |
| `Parcels.dfy` | parcels, lists, filter options and query parameters crossing a process boundary |
| `Subscriptions.dfy` | subscription records and the table of them, as sent and as rebuilt |
| `Client.dfy` | the client's mirror of its subscriptions, its resend after a restart, and the retry loop |
| `TempCache.dfy` | the two maps that hold early puts, with each operation run alone |
| `Startup.dfy` | dependency events, putting threads and the initialising thread, interleaved freely |
| `InitCallbacks.dfy` | the registry of callers waiting for the service to be ready, interleaved with its walk |
| `Lifecycle.dfy` | counting requests, idling for lack of memory, the unload timer, and stopping |

Classes (`MessageParcel`, `DeviceProfileFilterOptions`, `DistributedDeviceProfileClient`, `DynamicStore`, `PutCache`)
stand for the objects the service updates in place; each of their methods is tied to a function of the old state, and
the laws are lemmas about those functions. The concurrent protocols are state machines: `Next` is one atomic
action of one thread, `Run` any sequence of them, and every result about a `Run` holds for all interleavings, any
number of threads, and disabled steps at any point (they change nothing). In `Sessions` a step is a relation between
whole stores instead. Fields called history are written but never read by a step that decides anything.

## What the model shows about the code

Where a property one would expect does not hold, the code is modelled as it is and the exact condition is proved.

- A profile is not read back as it was put when its name ends in "_OH", when its keys exceed 4096 characters although
  each part is valid, when its value has 4096 characters or more, or when the reader is not shown its user's entries:
  exactly then, for every writer and reader (`Entries.ServiceSurvives`, `Entries.CharSurvives`). A listed service and
  its "_OH" form share their keys (`DbKeys.OhSuffixCollision`).
- The foreground user is remembered in memory only (services/core/include/multiusermanager/multi_user_manager.h:43), so
  the first switch after a restart starts from no user and removes nothing. What the previous foreground user stored for
  itself stays visible as nobody's, and is shown to the next user (`Sessions.RestartShowsOthers`). The switch puts the
  arriving user in the foreground exactly when that user owns everything the previous one owned
  (`Sessions.RestartForegroundExactly`). Puts for no user, and learning the foreground user without a switch
  (services/core/src/multiusermanager/multi_user_manager.cpp:63-70), have their own exact conditions
  (`Sessions.PlainPutForegroundExactly`, `Sessions.LearnForegroundExactly`), as has every other kind of step
  (`Sessions.StepSafeExactly`).
- The client's size check uses `>`, so a mirror can hold 101 records, and such a mirror is never resent
  (`Client.MirrorCanOutgrowResend`, `Client.DistributedDeviceProfileClient.SendSubscribeInfosToService`). One record
  without a listener stops the resend of the whole table.
- Query parameters arrive changed exactly when a key contains '#' (`Parcels.ParamsRoundTrip`).
- A caller that reads "not ready" and reaches the registry only after the walk has begun is registered but never
  called back (`InitCallbacks.MissedCallback`, `InitCallbacks.NotifiedExactly`); the registry's limit of 1000
  is exceeded by one entry (`InitCallbacks.RegistryOutgrowsLimit`).
- Initialisation is attempted once. If it fails, no later event retries it, the service is never ready
  (`Startup.Lasts`), and nothing is ever stored (`Startup.FailedStoresNothing`), while puts go on being acknowledged
  (`Startup.AcknowledgedAfterFailure`).
- An acknowledged put need not be stored with its own value: every hand-over attempt lays the puts the manager itself
  holds over the batch first (services/core/src/deviceprofilemanager/device_profile_manager.cpp:705-746), which on a
  first start include those of the content sensors. The value survives exactly when nothing else was laid over its key
  (`Startup.AcknowledgedLostExactly`, `Startup.AcknowledgedOverwritten`).
- Twenty failed hand-over attempts, and nothing less, drop every waiting put although each was acknowledged
  (`Startup.AcknowledgedLostExactly`, `Startup.HandOverCanFail`).
- A batch holding one switch item copies all of its items into the switch map, the others too
  (`TempCache.PutCache.AddCharProfilesToCache`, `Startup.CopiedExactly`).
- When a manager fails to shut down, stopping ends early and the waiting unload task stays posted
  (services/core/src/distributed_device_profile_service_new.cpp:240-279): `Lifecycle.FailedStopLeavesTask` is such a run,
  and a stop that is over leaves the latest task if and only if this happened (`Lifecycle.StopLeavesTaskExactly`).

## Model

| member | source | states |
|---|---|---|
| Text.SplitString | common/src/utils/profile_utils.cpp:236-252 | appends to the result exactly the pieces between separators; the empty string is an error and changes nothing |
| Text.SplitEndsExactly | common/src/utils/profile_utils.cpp:244-250 | for every string the splitting loop ends if and only if the separator is not empty |
| Text.JoinString | common/src/utils/profile_utils.cpp:254-267 | the loop builds the parts with one delimiter between neighbours and none at the end |
| Text.SplitJoin | common/src/utils/profile_utils.cpp:236-267 | splitting a join returns the parts, for every non-empty list of parts without the separator; the one list whose join is empty, `[""]`, is answered by `SplitString` with its error instead |
| Text.JoinSplit | common/src/utils/profile_utils.cpp:236-267 | joining a split returns the string, for every string, and no part contains the separator |
| Text.PiecesCons | common/src/utils/profile_utils.cpp:244-250 | text before the first separator is exactly the first piece, whatever follows |
| Text.AtoiToString | common/src/utils/profile_utils.cpp:947-955 | every 32-bit number prints as a numeral the pattern accepts, without '#', that `atoi` reads back |
| Text.MagnitudeOf | common/src/utils/profile_utils.cpp:947-955 | numerals with a plus, a minus or a leading zero are accepted and read as the number they name, wrapped to 32 bits |
| DbKeys.ValidKeyIsClean | common/src/utils/profile_utils.cpp:269-279 | a valid key segment is one of 1 to 4096 characters without '#' |
| DbKeys.KeySegments | common/src/utils/profile_utils.cpp:808-818 | a written key splits into its kind, its path, its property and its user tag, whatever digits the segments hold |
| DbKeys.UserRecovered | common/src/utils/profile_utils.cpp:998-1016 | the user of a written key is read back, for all kinds, all segments and all 32-bit users |
| DbKeys.UserIsTag | common/src/utils/profile_utils.cpp:998-1016 | for any string at all, the user is the numeral right after the property of a known kind of key, and none otherwise |
| DbKeys.PropertyRecovered | common/src/utils/profile_utils.cpp:829-862 | a reader gets the property of its own keys and of keys of no user, nothing from another user's, and nothing from a key over 4096 characters |
| DbKeys.RemoveUserIdFromDbKey | common/src/utils/profile_utils.cpp:1018-1040 | the in-place erasure turns every written key into exactly the key the same profile gets without a user |
| DbKeys.UserRemoved | common/src/utils/profile_utils.cpp:1018-1040 | removing the user tag undoes adding it |
| DbKeys.KeyInjective | common/src/utils/profile_utils.cpp:353-367 | two written keys are equal only if kind, device, service, characteristic, property and user all are |
| DbKeys.OhSuffixKeepsClean | common/src/utils/profile_utils.cpp:203-210 | adding the suffix neither introduces nor hides a '#' |
| DbKeys.OhSuffixRemoved | common/src/utils/profile_utils.cpp:212-219 | removing takes one "_OH" off the end of any name, listed or not, and nothing else |
| DbKeys.OhSuffixRoundTrip | common/src/utils/profile_utils.cpp:203-219 | removing after adding the suffix is the identity exactly on names not ending in "_OH" |
| DbKeys.OhSuffixCollision | common/src/utils/profile_utils.cpp:189-210 | two services share a stored name exactly when equal, or one is listed and the other is its "_OH" form |
| Entries.TwoKeys | common/src/utils/profile_utils.cpp:1042-1071 | two properties of one profile give the keys of that profile, properties and user and of nothing else that can be written |
| Entries.ServiceStoredAs | common/src/utils/profile_utils.cpp:463-477 | the two entries of a put service profile and the keys generated for its deletion, written out as text: kind, device, stored name, property and user segment |
| Entries.CharStoredAs | common/src/utils/profile_utils.cpp:520-536 | the same for a characteristic |
| Entries.DeviceStoredAs | common/src/utils/profile_utils.cpp:441-461 | the five entries of a put device profile, written out |
| Entries.ServiceCarriesUser | common/src/utils/profile_utils.cpp:463-477 | every entry of a service put, and every key generated for its deletion, is read as its user's for a multi-user profile and as nobody's otherwise |
| Entries.CharCarriesUser | common/src/utils/profile_utils.cpp:520-536 | the same for characteristics |
| Entries.DeviceCarriesUser | common/src/utils/profile_utils.cpp:441-461 | the same for devices |
| Entries.ServiceDeleteUndoesPut | common/src/utils/profile_utils.cpp:463-477 | in every store the keys generated for deletion are exactly those the put added, the rest is untouched, and no other profile's key is among them |
| Entries.CharDeleteUndoesPut | common/src/utils/profile_utils.cpp:520-536 | the same for characteristics |
| Entries.GetProfilePropertiesMap | common/src/utils/profile_utils.cpp:864-895 | for every entry map: a positive user sees exactly its own entries if it has any, else exactly those of no user; -1 sees those of no user; every other user sees nothing; two entries naming one property resolve to the later key |
| Entries.SeenProperty | common/src/utils/profile_utils.cpp:829-862 | for every key at all, what a reader is shown depends only on whether the key's user is the reader or none |
| Entries.VisitKey | common/src/utils/profile_utils.cpp:877-890 | visiting the next key in map order extends the declarative view by that key's entry exactly when it belongs to the viewer |
| Entries.ViewOfOneProfile | common/src/utils/profile_utils.cpp:864-895 | every reader sees all properties of a profile of its own or of no user whose keys are within the length limit, and nothing of another user's |
| Entries.PathSegments | common/src/utils/profile_utils.cpp:150-178 | device and service are read back from any key of a profile within the length limit, and are empty beyond it |
| Entries.CharKeyFirst | common/src/utils/profile_utils.cpp:787-794 | the entry a characteristic's path is read from is the one holding its key, for every path and user |
| Entries.ServiceRoundTrip | common/src/utils/profile_utils.cpp:767-785 | what comes back from a put service profile, field by field, for every writer, reader, name and content, the fallback to no user included |
| Entries.CharRoundTrip | common/src/utils/profile_utils.cpp:787-806 | what comes back from a put characteristic, field by field, for every writer and reader, with the service name read from the key |
| Entries.DeviceRoundTrip | common/src/utils/profile_utils.cpp:740-765 | what comes back from a put device profile for every writer and reader: capacity, version and type, with their "_OH" doubles agreeing |
| Entries.OhFormWins | common/src/utils/profile_utils.cpp:750-764 | when the plain and the "_OH" form of version or type differ, the "_OH" one is read unless it is not acceptable |
| Entries.SizeRefused | common/src/utils/profile_utils.cpp:740-745 | no entries, or more than 10000, are refused for all three kinds, leaving the profile as it was |
| Entries.ServiceSurvives | common/src/utils/profile_utils.cpp:463-477 | a valid service profile comes back to a reader unchanged if and only if it is shown to that reader and its keys, name and type meet the stated limits |
| Entries.CharSurvives | common/src/utils/profile_utils.cpp:520-536 | a valid characteristic comes back to a reader unchanged if and only if it is shown to that reader and its keys, service name and value meet the stated limits |
| UserSwitch.DynamicStore.OnUserChange | services/core/src/deviceprofilemanager/device_profile_manager.cpp:1053-1103 | for every success or failure of the query, the save and the deletion: a completed switch mirrors the arriving user's entries at their untagged keys, removes those only the leaving user had and keeps the rest; one whose deletion fails only mirrors; any other changes nothing; no key outside the two batches is touched; and in terms of devices, entries of all three kinds move whose device id begins with the local one, and no others |
| UserSwitch.DynamicStore.PutServiceProfile | services/core/src/deviceprofilemanager/device_profile_manager.cpp:146-181 | a put of a profile whose device is the local one and whose parts have 1 to 4096 characters without '#' writes both entries of its user, and the untagged ones too exactly when that user is in the foreground; no key read as another user's changes, and nothing at all otherwise |
| UserSwitch.DynamicStore.PutCharacteristicProfile | services/core/src/deviceprofilemanager/device_profile_manager.cpp:222-257 | the same for a characteristic |
| UserSwitch.DynamicStore.DeleteServiceProfile | services/core/src/utils/profile_control_utils.cpp:422-453 | a deletion removes the entries of its user, and the untagged ones too exactly when that user is in the foreground; nothing else changes |
| UserSwitch.DynamicStore.DeleteRemovedUserData | services/core/src/deviceprofilemanager/device_profile_manager.cpp:400-439 | for a user id from 0 to 100000, exactly the local entries read as that user's are removed; a refused or failed removal changes nothing |
| UserSwitch.OthersUntouched | services/core/src/deviceprofilemanager/device_profile_manager.cpp:154-159 | a put or a deletion for one user never touches an entry of another, nor one of no user unless the one user is in the foreground |
| UserSwitch.IsLocalExactly | services/core/src/deviceprofilemanager/device_profile_manager.cpp:845-871 | generated keys of all three kinds are found by the prefix queries if and only if their device id begins with the local one |
| UserSwitch.SwitchMovesDevice | services/core/src/deviceprofilemanager/device_profile_manager.cpp:1066-1099 | a completed switch moves the service, characteristic and device entries of this device and leaves those of others |
| UserSwitch.KeepsWellFormed | services/core/src/deviceprofilemanager/device_profile_manager.cpp:146-181 | puts and deletions leave only generated keys among the local ones if there were only such before |
| UserSwitch.SortByUser | services/core/src/deviceprofilemanager/device_profile_manager.cpp:1070-1083 | one pass collects the untagged forms of the leaving user's keys and the arriving user's entries |
| UserSwitch.Promote | services/core/src/deviceprofilemanager/device_profile_manager.cpp:1084-1091 | the second pass moves each arriving entry to its untagged key and takes that key off the deletion list |
| UserSwitch.UntaggedExact | services/core/src/deviceprofilemanager/device_profile_manager.cpp:1072-1079 | an untagged key comes from a user exactly when that user has that very entry, and from no other of its keys |
| UserSwitch.SwitchEffect | services/core/src/deviceprofilemanager/device_profile_manager.cpp:1084-1099 | the saved and deleted key sets together have the promised effect on every property |
| Sessions.SwitchForegroundExactly | services/core/src/deviceprofilemanager/device_profile_manager.cpp:1053-1103 | after a completed switch over any store, the untagged entries are the arriving user's if and only if none belongs to a property owned by others but by neither user of the switch |
| Sessions.SwitchKeepsForeground | services/core/src/deviceprofilemanager/device_profile_manager.cpp:1053-1103 | a switch turns the leaving user's foreground into the arriving user's |
| Sessions.RestartForegroundExactly | services/core/src/multiusermanager/multi_user_manager.cpp:37-49 | after a restart the first switch puts the arriving user in the foreground if and only if that user owns every property the previous foreground user owned |
| Sessions.LearnForegroundExactly | services/core/src/multiusermanager/multi_user_manager.cpp:63-70 | a foreground user learned without a switch is right if and only if that user owns nothing |
| Sessions.PlainPutForegroundExactly | services/core/src/deviceprofilemanager/device_profile_manager.cpp:161-163 | a put for no user keeps the foreground if and only if each property written has no owner, or the foreground user with that value |
| Sessions.ThereAndBack | services/core/src/deviceprofilemanager/device_profile_manager.cpp:1053-1103 | over any store, switching away and back restores every written entry if and only if each property was in order between the two users before |
| Sessions.StepSafeExactly | services/core/src/multiusermanager/multi_user_manager.cpp:56-70 | a switch complete or not, a restart, a learned user, a put, a deletion or a user removal keeps a store in order if and only if a condition on the owners before the step holds, one for each kind of step |
| Sessions.ForegroundThroughout | services/core/src/multiusermanager/multi_user_manager.cpp:56-70 | a run of all these steps that begins in order is in order throughout, the untagged entries being those of the foreground user or after a restart of the last one, if and only if each step meets that condition where it is taken |
| Sessions.UnsuspectThroughout | services/core/src/multiusermanager/multi_user_manager.cpp:56-61 | through every such run from any store, a property is in place at the end unless it was touched for no user or left by a deletion, is owned by a user who came without saving, or by a user never switched away from |
| Sessions.SavedForegroundExactly | services/core/src/deviceprofilemanager/device_profile_manager.cpp:1092-1101 | a switch that saves but fails to delete puts the arriving user in the foreground if and only if no property owned by others alone has an untagged entry |
| Sessions.PlainDeleteForegroundExactly | services/core/src/utils/profile_control_utils.cpp:445-447 | a deletion for no user keeps the foreground if and only if the foreground user owns none of the properties |
| Sessions.RemoveUserForegroundExactly | services/core/src/deviceprofilemanager/device_profile_manager.cpp:400-439 | removing the foreground user's data keeps the foreground if and only if no other user owns a property it owned |
| Sessions.OrderlyForeground | services/core/src/deviceprofilemanager/device_profile_manager.cpp:1053-1103 | within a session begun in order, completed switches and puts and deletions for any users keep every property in place that had no ownerless entry at the start |
| Sessions.SwitchesKeepForeground | services/core/src/deviceprofilemanager/device_profile_manager.cpp:1053-1103 | through every sequence of switches alone, the untagged entries of a store in order stay the current foreground user's, plain ones included |
| Sessions.RestartShowsOthers | services/core/src/multiusermanager/multi_user_manager.cpp:37-49 | a concrete run from an empty store: one user puts a property for itself, the service restarts under another, and that other user's view shows the value |
| Orders.DeviceOrderTotal | common/src/interfaces/trusted_device_info.cpp:103-128 | of two device records exactly one comes first unless they agree on all seven fields, which is the negation of `!=` |
| Orders.DeviceOrderTransitive | common/src/interfaces/trusted_device_info.cpp:111-128 | the device order is transitive |
| Orders.DeviceOrderLexicographic | common/src/interfaces/trusted_device_info.cpp:111-128 | the first of the seven fields that differs decides, in their order, the smaller value coming first |
| Orders.ServiceOrderWeak | common/include/interfaces/service_info.h:82-92 | the service order is a strict weak order whose ties are exactly `==` |
| Orders.ServiceOrderLexicographic | common/include/interfaces/service_info.h:82-87 | the first of udid, user and service id that differs decides, the smaller value coming first |
| Parcels.MarshalList | common/src/utils/ipc_utils.cpp:127-159 | writes the length and, unless over 1000, every item; fails exactly when over 1000 |
| Parcels.UnMarshalList | common/src/utils/ipc_utils.cpp:383-417 | the reading loop computes the decoder on every parcel content, including failures half way |
| Parcels.ItemsRoundTrip | common/src/utils/ipc_utils.cpp:383-417 | reading n faithfully written items anywhere in a parcel appends exactly them and stops right after |
| Parcels.ListRoundTrip | common/src/utils/ipc_utils.cpp:127-159 | a list arrives whole up to 1000 items and as nothing beyond, and in both cases the cursor ends where the writer did |
| Parcels.CodecsFaithful | common/src/utils/ipc_utils.cpp:144-159 | strings and signed 32-bit numbers are read back from the cell they are written to |
| Parcels.AddedFilterArrives | common/src/interfaces/device_profile_filter_options.cpp:33-58 | options built by any number of capped additions of any kind arrive exactly as built |
| Parcels.FilterSurvives | common/src/interfaces/device_profile_filter_options.cpp:105-123 | options set in any way arrive unchanged if and only if no list is over 1000 |
| Parcels.DeviceProfileFilterOptions.Marshalling | common/src/interfaces/device_profile_filter_options.cpp:105-113 | always succeeds and writes all five fields in order, ignoring list failures |
| Parcels.DeviceProfileFilterOptions.UnMarshalling | common/src/interfaces/device_profile_filter_options.cpp:115-123 | updates the fields exactly as the decoder does on every parcel content, appending to lists already there |
| Parcels.FilterRoundTrip | common/src/interfaces/device_profile_filter_options.cpp:105-123 | for all list lengths decoding consumes exactly what was written and returns the same options with every over-long list emptied, although inner failures are ignored |
| Parcels.MarshalParams | common/src/utils/ipc_utils.cpp:181-193 | writes the size and the pairs in key order; fails exactly for none or more than 20 |
| Parcels.UnMarshalParams | common/src/utils/ipc_utils.cpp:444-464 | the reading loop computes the decoder on every parcel content, skipping texts without a separator |
| Parcels.SizesRefused | common/src/utils/ipc_utils.cpp:444-449 | a size of none or over 20 is refused before any pair is read, and a list over 1000 before any item |
| Parcels.ParamItems | common/src/utils/ipc_utils.cpp:450-462 | reading n pairs never loses the frame, and overlays the pairs when no key contains '#' |
| Parcels.DecodedKeys | common/src/utils/ipc_utils.cpp:450-462 | whatever was sent, no decoded key contains '#' |
| Parcels.ParamsRoundTrip | common/src/utils/ipc_utils.cpp:181-193 | for 1 to 20 parameters with any values, decoding gives the same map if and only if no key contains '#', and always ends where encoding did |
| Subscriptions.TagInjective | interfaces/innerkits/core/src/distributed_device_profile_client.cpp:441-443 | a table key determines both the subscription key, '#' and digits included, and the subscriber |
| Subscriptions.AddedTypesValid | common/src/interfaces/dp_subscribe_info.cpp:118-129 | any sequence of additions adds exactly the types from 1 to 20 asked for and keeps key, subscriber and listener, so the size check never turns one away |
| Subscriptions.SendableExactly | common/src/interfaces/dp_subscribe_info.cpp:118-151 | a record can be sent and rebuilt if and only if it has a listener and only types from 1 to 20 |
| Subscriptions.AtMostTwenty | common/src/interfaces/dp_subscribe_info.cpp:118-129 | a set of valid change types has at most 20 elements |
| Subscriptions.MarshalTypes | common/src/utils/ipc_utils.cpp:214-226 | writes every type of an unordered set once, in some order, after its size; fails exactly for none or more than 20 |
| Subscriptions.UnMarshalTypes | common/src/utils/ipc_utils.cpp:486-502 | the reading loop computes the decoder on every parcel content, stopping at the first invalid type |
| Subscriptions.TypeItemsDecoded | common/src/utils/ipc_utils.cpp:486-502 | reading succeeds exactly when all items are valid types, and then yields their set; no invalid type ever gets in |
| Subscriptions.TypesDecoded | common/src/utils/ipc_utils.cpp:214-226 | a written set is read back exactly when all its types are valid, in whatever order it was written |
| Subscriptions.MarshalInfo | common/src/interfaces/dp_subscribe_info.cpp:144-151 | fails exactly for a missing listener, whatever happens to the types |
| Subscriptions.UnMarshalInfo | common/src/interfaces/dp_subscribe_info.cpp:153-164 | the reads compute the record decoder on every parcel content |
| Subscriptions.InfoDecoded | common/src/interfaces/dp_subscribe_info.cpp:144-164 | a record arrives intact exactly when its types are valid; an invalid one fails or arrives with other types, under the same tag |
| Subscriptions.MarshalTable | common/src/utils/ipc_utils.cpp:195-212 | sends the records of a table in key order without their keys; fails exactly for none, more than 100, or a missing listener |
| Subscriptions.UnMarshalTable | common/src/utils/ipc_utils.cpp:466-484 | the reading loop computes the table decoder on every parcel content |
| Subscriptions.TableSizesRefused | common/src/utils/ipc_utils.cpp:466-472 | a table of none or over 100 records, and a set of none or over 20 types, are refused unread |
| Subscriptions.InfosDecoded | common/src/utils/ipc_utils.cpp:466-484 | record by record, valid records are filed under the keys they had, over what was there |
| Subscriptions.TableDecoded | common/src/utils/ipc_utils.cpp:195-212 | a sent table is rebuilt as itself, although its keys do not travel, if and only if every change type is valid |
| Client.DistributedDeviceProfileClient.SubscribeDeviceProfile | interfaces/innerkits/core/src/distributed_device_profile_client.cpp:427-447 | the whole new mirror and the answer, for a service that is away, a full mirror, and otherwise |
| Client.DistributedDeviceProfileClient.UnSubscribeDeviceProfile | interfaces/innerkits/core/src/distributed_device_profile_client.cpp:449-463 | the mirror loses exactly the record's own tag |
| Client.DistributedDeviceProfileClient.SendSubscribeInfosToService | interfaces/innerkits/core/src/distributed_device_profile_client.cpp:124-139 | the restarted service ends up with exactly the mirror if and only if it is reachable, the mirror holds 1 to 100 records, and all have a listener and valid types |
| Client.RunMirrors | interfaces/innerkits/core/src/distributed_device_profile_client.cpp:427-463 | after every run of subscribe and unsubscribe the mirror holds one record per live (key, subscriber) pair under its own tag, and at most 101 |
| Client.CrowdSize | interfaces/innerkits/core/src/distributed_device_profile_client.cpp:436-443 | 101 distinct sendable subscriptions are all admitted |
| Client.MirrorCanOutgrowResend | interfaces/innerkits/core/src/distributed_device_profile_client.cpp:436-443 | some run of sendable subscriptions leaves a mirror that a resend does not carry |
| Client.ProxyGetList | interfaces/innerkits/core/src/distributed_device_profile_proxy.cpp:124-137 | no call that touched the caller's list answers with a retryable code |
| Client.RetryClientRequest | interfaces/innerkits/core/src/distributed_device_profile_client.cpp:1030-1054 | at most seven attempts, stopping at the first code that is not retryable; the list is filled by the last one only |
| Client.GetList | interfaces/innerkits/core/src/distributed_device_profile_client.cpp:1030-1054 | at most eight attempts; a retryable code is answered if and only if all eight met one; the list is filled at most once |
| TempCache.ScanValid | services/core/src/distributed_device_profile_service_new.cpp:1095-1106 | a batch is accepted exactly when every item is valid and none is stored already |
| TempCache.ItemValidExactly | common/src/utils/profile_utils.cpp:281-327 | an item is valid if and only if its device is the local one and all its parts have 1 to 4096 characters without '#' |
| TempCache.VerdictExactly | services/core/src/distributed_device_profile_service_new.cpp:1088-1127 | the answer to every batch, by code: an empty one, one whose first bad item is invalid, one whose first bad item is stored already, and one without a bad item |
| TempCache.SwitchKeyExactly | services/core/src/distributed_device_profile_service_new.cpp:1150-1152 | two waiting characteristics share a key if and only if device, service and characteristic key agree |
| TempCache.KeyedLast | services/core/src/distributed_device_profile_service_new.cpp:1149-1153 | of a batch the last item about a profile is the one that waits under its key, over any map |
| TempCache.BatchOnTop | services/core/src/distributed_device_profile_service_new.cpp:1107-1110 | collecting a batch aside and then copying it equals writing it entry by entry into the map |
| TempCache.BatchFlattens | services/core/src/distributed_device_profile_service_new.cpp:1088-1156 | an accepted batch changes the flat map exactly as it changes a table from profile to last accepted value |
| TempCache.FlattenedKey | services/core/src/distributed_device_profile_service_new.cpp:1105-1105 | every waiting key is a written one of this device's services or characteristics and names no user |
| TempCache.NoSwitchCached | services/core/src/distributed_device_profile_service_new.cpp:1133-1136 | no switch status is ever among the waiting entries, under any property or user |
| TempCache.PutCache.InsertAll | services/core/src/distributed_device_profile_service_new.cpp:1107-1110 | the copying loop merges the batch over the map |
| TempCache.PutCache.AddSvrProfilesToCache | services/core/src/distributed_device_profile_service_new.cpp:1088-1112 | a rejected batch changes nothing; an accepted one updates the map and the table it stands for together |
| TempCache.PutCache.AddCharProfilesToCache | services/core/src/distributed_device_profile_service_new.cpp:1114-1156 | the same; one switch item sends the whole batch to the switch map, where the last item about each profile then stands |
| TempCache.PutCache.InsertSwitches | services/core/src/distributed_device_profile_service_new.cpp:1149-1153 | the loop overlays the switch map with the batch, and the last item about each profile stands under its key |
| TempCache.PutCache.SaveSwitchProfilesFromTempCache | services/core/src/distributed_device_profile_service_new.cpp:1158-1180 | empties the switch map, handing over all it held, whatever the manager answers |
| TempCache.PutCache.SaveDynamicProfilesFromTempCache | services/core/src/distributed_device_profile_service_new.cpp:1196-1224 | offers all waiting entries up to the first success, at most 20 times, resets if and only if all failed, stores the batch under everything the manager laid over it up to the first success, and empties the map in every case |
| Startup.InitialisedOnce | services/core/src/distributed_device_profile_service_new.cpp:1014-1039 | over all interleavings of events, duplicates and unrelated ones included, initialisation starts at most once and only after all five abilities were reported; a ready service was initialised and both its maps are empty |
| Startup.Reachable | services/core/src/distributed_device_profile_service_new.cpp:182-209 | lock ownership, the gate, the cache contents and the answers stay consistent in every reachable state |
| Startup.Lasts | services/core/src/distributed_device_profile_service_new.cpp:198-205 | readiness and failure are final, and nothing is accepted into the cache once a batch was handed over |
| Startup.AcknowledgedPutsHandedOver | services/core/src/distributed_device_profile_service_new.cpp:571-576 | over all interleavings every entry of a put acknowledged before readiness is in the first hand-over attempt, with its own value or that of the last accepted put of the same key |
| Startup.AcknowledgedLostExactly | services/core/src/distributed_device_profile_service_new.cpp:1206-1217 | over all interleavings, once the service is ready an acknowledged entry is lost if and only if all twenty attempts failed; otherwise it is stored, with the value it was handed over with if and only if the manager laid no other value over its key in any attempt |
| Startup.AcknowledgedOverwritten | services/core/src/deviceprofilemanager/device_profile_manager.cpp:705-746 | for every valid item but a switch, a concrete run acknowledges its put, hands it over with its own value, and stores the value the manager held for the same key |
| Startup.FailedStoresNothing | services/core/src/distributed_device_profile_service_new.cpp:182-197 | after a failed initialisation no continuation hands over or stores anything |
| Startup.AcknowledgedAfterFailure | services/core/src/distributed_device_profile_service_new.cpp:571-576 | a concrete run acknowledges a put after initialisation has failed |
| Startup.PutAcknowledged | services/core/src/distributed_device_profile_service_new.cpp:1088-1156 | from every state with the lock free and the service not ready, a valid new batch can be put and is acknowledged, changing nothing but the two maps |
| Startup.PutRejected | services/core/src/distributed_device_profile_service_new.cpp:571-576 | from every such state any other batch is answered with its verdict, changing neither map |
| Startup.ReadyPutForwarded | services/core/src/distributed_device_profile_service_new.cpp:571-579 | from every state with the lock free and the service ready, a put is answered by the manager, changing neither map |
| Startup.ReadyIgnoresEvent | services/core/src/distributed_device_profile_service_new.cpp:1025-1027 | an event that finds the service ready changes nothing but the set of abilities seen |
| Startup.HandOverCanFail | services/core/src/distributed_device_profile_service_new.cpp:1206-1221 | from every reachable beginning of a hand-over some run becomes ready with nothing stored |
| Startup.CopiedExactly | services/core/src/distributed_device_profile_service_new.cpp:1146-1153 | a characteristic of a batch is copied to the switch map if and only if some item of the batch is a switch |
| Startup.OnlyAcceptedPutsHandedOver | services/core/src/distributed_device_profile_service_new.cpp:1196-1213 | nothing else is in that batch: each entry is the last accepted put of its key, from valid items |
| Startup.SnapshotsAgree | services/core/src/distributed_device_profile_service_new.cpp:1198-1204 | in every reachable state of the wait for late puts nothing has been accepted and the put lock is held, so the two snapshots agree |
| Startup.CacheIsTable | services/core/src/distributed_device_profile_service_new.cpp:1088-1145 | whenever no insertion is under way the waiting entries are exactly the table of last accepted profiles, both properties of each together; so is the batch handed over |
| Startup.AcknowledgedSwitchesHandedOver | services/core/src/distributed_device_profile_service_new.cpp:606-611 | for every switch item of an acknowledged put, the switch manager's batch holds the last accepted item about the same device, service and characteristic, from that put or a later one |
| Startup.LoggedEntry | services/core/src/distributed_device_profile_service_new.cpp:1141-1144 | each waiting entry belongs to the last accepted batch that writes its key, and every written key is there |
| InitCallbacks.Reachable | services/core/src/distributed_device_profile_service_new.cpp:1237-1268 | how often each registered callback has been called is known in every reachable state |
| InitCallbacks.SubscribeExactly | services/core/src/distributed_device_profile_service_new.cpp:1237-1268 | from every state outside the walk, the answer of a subscribe call by code, and its whole effect: an accepted one replaces what stood under its id, and a ready service calls it back once |
| InitCallbacks.UnsubscribeExactly | services/core/src/distributed_device_profile_service_new.cpp:1270-1280 | outside the walk a permitted call removes exactly the entry of its id, a refused one none, and nobody is called |
| InitCallbacks.WithdrawnNotCalled | services/core/src/distributed_device_profile_service_new.cpp:1270-1280 | through every continuation, a callback withdrawn before the walk is called once if it had found the service ready and never otherwise |
| InitCallbacks.ReplacedNotCalled | services/core/src/distributed_device_profile_service_new.cpp:1266-1267 | a later subscription takes the place of the first, whose callback is not called again in any continuation |
| InitCallbacks.WalkCanFinish | services/core/src/distributed_device_profile_service_new.cpp:1329-1341 | from every reachable state of the walk some run ends it without changing an entry |
| InitCallbacks.NotifiedExactly | services/core/src/distributed_device_profile_service_new.cpp:1329-1341 | over all interleavings, after the walk a registered callback was called once for having found the service ready and once more for being castable and registered before the walk; it was missed exactly otherwise |
| InitCallbacks.RegistryBound | services/core/src/distributed_device_profile_service_new.cpp:1261-1267 | the registry never exceeds 1001 entries, and all are under ids from 1 to 16777215 |
| InitCallbacks.CrowdRegistered | services/core/src/distributed_device_profile_service_new.cpp:1261-1267 | a run of n subscriptions, for every n up to 1001, leaves n entries |
| InitCallbacks.RegistryOutgrowsLimit | services/core/src/distributed_device_profile_service_new.cpp:1261-1267 | some run leaves 1001 entries, one over the limit, and none leaves more |
| InitCallbacks.SilentBeforeReady | services/core/src/distributed_device_profile_service_new.cpp:1252-1260 | no callback is called before readiness is published |
| InitCallbacks.MissedCallback | services/core/src/distributed_device_profile_service_new.cpp:1252-1267 | a concrete interleaving leaves a castable callback registered and never called |
| Lifecycle.CountExact | services/core/src/distributed_device_profile_stub_new.cpp:242-275 | with any number of requests the count is always the number between addition and subtraction, never negative, and a low-memory query is answered "ready" if and only if that number was zero at its load and no device was online |
| Lifecycle.RequestAdmitted | services/core/src/distributed_device_profile_stub_new.cpp:246-255 | from every state, a new request alone is counted if the service is not stopped and leaves the idle state, and is otherwise answered with the code of the reason and never counted |
| Lifecycle.RequestServed | services/core/src/distributed_device_profile_stub_new.cpp:255-275 | a counted request alone pushes the timer back by 180000, is answered by code for a bad token, an early code, a service not ready and its handler, and leaves the count one lower |
| Lifecycle.CountedWasAdmitted | services/core/src/distributed_device_profile_stub_new.cpp:246-257 | over all interleavings a request is counted or served only if it read the stop flag unset and left the idle state |
| Lifecycle.QueryAnswered | services/core/src/distributed_device_profile_service_new.cpp:216-229 | a query for lack of memory alone is answered "ready" exactly when nothing is counted and no device is online |
| Lifecycle.StoppedTurnsAway | services/core/src/distributed_device_profile_stub_new.cpp:246-249 | a request arriving after a stop is answered so and is never counted, whatever else goes on |
| Lifecycle.OneUnloadWaits | services/core/src/distributed_device_profile_service_new.cpp:943-952 | at every moment at most one unload task waits, due exactly the delay after the latest posting |
| Lifecycle.UnloadRuns | services/core/src/distributed_device_profile_service_new.cpp:926-941 | a waiting task can be run when its time has come, and then no longer waits |
| Lifecycle.CleanStop | services/core/src/distributed_device_profile_service_new.cpp:240-279 | a stop whose managers all shut down removes the waiting task at once and then destroys the handler |
| Lifecycle.DestroyedForGood | services/core/src/distributed_device_profile_service_new.cpp:349-360 | once the handler is destroyed it stays so through every continuation, and no unload task waits or can be run at any later moment |
| Lifecycle.FailedStopLeavesTask | services/core/src/distributed_device_profile_service_new.cpp:240-279 | a concrete run stops with a manager failing to shut down and the unload task still waiting |
| Lifecycle.StopLeavesTaskExactly | services/core/src/distributed_device_profile_service_new.cpp:240-279 | when a stop is over, the latest posted task, not replaced or taken since, still waits if and only if a manager failed to shut down |
| Lifecycle.NoEarlyUnload | services/core/src/distributed_device_profile_service_new.cpp:926-953 | in every run an unload starts no sooner than the delay after any earlier request's call |
| Lifecycle.UnloadDueExactly | services/core/src/distributed_device_profile_service_new.cpp:943-952 | as long as no step posts, removes or takes an unload task, and a failing manager shutdown does not, an unload can start if and only if the delay since the latest call is over |

## Left out

- Logging, radar and event reporting, `dump()` and all JSON printing.
- The ability manager, the IPC transport, death recipients, dropping the proxy on a dead reply, waiting for the service
  to load, memory-manager and thread-priority calls.
- The inside of the managers and adapters: a call is its outcome. In particular the profile cache answers "already
  stored" freely per item, a hand-over attempt succeeds or fails freely, and what the device profile manager lays over
  the batch in an attempt is arbitrary, so how those entries came to be held is not modelled.
- Relational storage (`ValuesBucket`, `ResultSet`), access-control and trust records, raw-data icons and session keys,
  the vectors of profile records on the wire, and the fixed-field accessors.
- Room in a parcel: a write fails only for a missing remote object. Lists of 2^32 items and more, whose length header
  would wrap, are outside `ListRoundTrip` and `FilterRoundTrip`.
- `atoi` outside 32 bits wraps around in the model, where C++ leaves it undefined; no generated key reaches that case.
- Strings are sequences of characters without an encoding; the order of `std::map` is the order of these characters.
- Text.SplitString: covers separators that are not empty; on the empty one the loop of the source has no result to state
  (`Text.SplitEndsExactly`).
- Entries.ServiceRoundTrip: `EntriesTo*` are functions of the view rather than updates of a profile in place, and
  profile and subscription records are values, so aliasing between records is not captured.
- UserSwitch.DynamicStore.OnUserChange: the store's local keys are taken to be written ones, which every modelled operation
  keeps, and saving and deleting a batch to happen wholly or not at all.
- UserSwitch.DynamicStore.PutServiceProfile: puts that the device profile manager holds back until the first hand-over
  (`isFirst_`) are not modelled; device profiles and batches are covered by the `Put` step of `Sessions` only.
- Client.ProxyGetList: the reply's decoding is an outcome together with the items it appended.
- Startup.Reachable: covers the service up to a stop; `UnInit` clearing the maps and the flag, permission checks, the
  other thirty-odd requests and the manager steps before the put lock are not steps of that machine.
- InitCallbacks.NotifiedExactly: counts calls made, not their delivery, and covers the service up to a stop; the
  registries for PIN codes and business events, which have the same shape, are not modelled.
- Lifecycle.CountExact: the count is an unbounded integer (the service has 32 request threads); idling for other reasons
  always answers "ready"; serving a request is its answer.
- Lifecycle.NoEarlyUnload: the event handler runs a task at or after its due time; time is a count of milliseconds.
- Builds with `DEVICE_PROFILE_SWITCH_DISABLE` or `WATCH_SUPPORT`, and the client for devices without the service.
