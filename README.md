# InfoMediaManager route aggregation, in Dafny

This project models the route-aggregation and device-list engine of SettingsLib's
`InfoMediaManager`. That engine serves a target app's media output switcher:

- It collects the candidate media routes for the app's active routing session.
- It orders the routes by selection, system status and the app's route-listing preference.
- It drops routes that share a deduplication id with a route kept earlier.
- It turns each remaining route into a typed media device: info, phone, Bluetooth or complex.
- It tracks which device currently carries playback.

Modules:

- `Wrappers` — `Option`, standing in for nullable references.
- `MediaTypes` — the values the manager works on:
  - routes (`MediaRoute2Info`) and route types;
  - preference items and the preference (`RouteListingPreference`);
  - routing sessions (`RoutingSessionInfo`);
  - devices, and the calls issued to the media router.
- `Seqs` — subsequences and distinctness. It also models the insertion-ordered set `LinkedHashSet` as `Insert`/`InsertAll` on a sequence.
- `Api34Impl` — the static helpers of the nested class of the same name. Each list builder is a specification function plus a method holding the source's loop, and the method is proved equal to the function.
- `InfoMedia` — the manager itself:
  - the session rules and volume predicates;
  - `getAvailableRoutes` as function and method;
  - the device classification of `addMediaDevice`;
  - the class `InfoMediaManager`, whose fields are the device list, the connected device, the preference-item map and a log of router calls. Its methods update those fields in place.

The media router is abstract in the source. Here it is a snapshot value, `RouterView`, holding:

- the package's routing sessions;
- the selected, selectable and transferable routes;
- the routes available from the router;
- the route-listing preference;
- whether the platform is at SDK 34 (UPSIDE_DOWN_CAKE) or later;
- the set of Bluetooth addresses the cached Bluetooth device manager knows.

Calls the manager makes into the router (start scan, select, deselect) are appended to the `calls` log.

Where the code's behaviour is surprising, the model follows the code:

- `composePreferenceRouteListing` inserts each suggested item at index 0, so suggested items come out in reverse input order. The comment there only promises "suggested first".
- `arrangeRouteListByPreference` drops every available route that is not selected, not a system route and not named by a preference item.
- Several devices can be marked selected in one rebuild. Only the first of them becomes the connected device.
- `getAvailableRoutes` arranges the routes by the preference whenever one exists. It does not consult `useSystemOrdering`; only `preferRouteListingOrdering` reads that flag, so it does not affect the rebuilt device list.
- The route list is not always unique by id. Without a preference, a route that is both selected and selectable is added twice, and the deduplication filter keeps both copies when the route has no deduplication ids. Below SDK 34 nothing removes routes that share a deduplication id.
- `removeDeviceFromPlayMedia` checks the session's selected ids, not its deselectable ids, although its log message speaks of a "non-deselectable device".
- `getActiveRoutingSession` reads index 0 of an empty list in its "empty" branch, which would throw. The model requires a non-empty session list, as the source's comment asserts ("List is never empty").

## Model

Source paths are relative to the repository root.

| member | source | states |
|---|---|---|
| Api34Impl.ComposePreferenceRouteListing | packages/SettingsLib/src/com/android/settingslib/media/InfoMediaManager.java:574-587 | the loop that inserts suggested items at the front and appends the others returns exactly `Composed(items)` |
| Api34Impl.ComposedIsReversedSuggestedThenRest | packages/SettingsLib/src/com/android/settingslib/media/InfoMediaManager.java:578-584 | the composed list is the suggested items in reverse input order, followed by the non-suggested items in input order |
| Api34Impl.ComposedIsPermutation | packages/SettingsLib/src/com/android/settingslib/media/InfoMediaManager.java:574-587 | composing neither loses nor duplicates an item (equal multisets) |
| Api34Impl.ComposedSuggestedFirst | packages/SettingsLib/src/com/android/settingslib/media/InfoMediaManager.java:579-581 | no non-suggested item precedes a suggested one |
| Api34Impl.ComposeExample | packages/SettingsLib/src/com/android/settingslib/media/InfoMediaManager.java:580-581 | suggested X, suggested Y, plain Z compose to Y, X, Z |
| Api34Impl.FilterDuplicatedIds | packages/SettingsLib/src/com/android/settingslib/media/InfoMediaManager.java:590-602 | the loop with its found-id set returns exactly `Deduplicated(infos)`; the set is always the union of the kept routes' ids |
| Api34Impl.DedupIdsOfMembers | packages/SettingsLib/src/com/android/settingslib/media/InfoMediaManager.java:592-599 | an id is in the found set iff some kept route carries it |
| Api34Impl.DisjointFromAll | packages/SettingsLib/src/com/android/settingslib/media/InfoMediaManager.java:594-596 | disjointness from the found set is the same as disjointness from each kept route |
| Api34Impl.DeduplicatedIsSubsequence | packages/SettingsLib/src/com/android/settingslib/media/InfoMediaManager.java:590-602 | the filtered list is an order-preserving subsequence of the input |
| Api34Impl.DeduplicatedPairwiseDisjoint | packages/SettingsLib/src/com/android/settingslib/media/InfoMediaManager.java:590-602 | no two kept routes share a deduplication id |
| Api34Impl.DeduplicatedStep | packages/SettingsLib/src/com/android/settingslib/media/InfoMediaManager.java:593-599 | the route at each index is kept iff its ids are disjoint from those of every route kept before it; a dropped route leaves the result unchanged |
| Api34Impl.DroppedRouteClashes | packages/SettingsLib/src/com/android/settingslib/media/InfoMediaManager.java:594-597 | every input route is kept or shares an id with a kept route |
| Api34Impl.EmptyIdsAlwaysKept | packages/SettingsLib/src/com/android/settingslib/media/InfoMediaManager.java:594-598 | a route with no deduplication ids is never dropped |
| Api34Impl.DeduplicatedFixesDisjoint | packages/SettingsLib/src/com/android/settingslib/media/InfoMediaManager.java:590-602 | a list whose routes are already pairwise disjoint passes unchanged |
| Api34Impl.DeduplicatedIdempotent | packages/SettingsLib/src/com/android/settingslib/media/InfoMediaManager.java:590-602 | filtering twice is the same as filtering once |
| Api34Impl.ArrangeRouteListByPreference | packages/SettingsLib/src/com/android/settingslib/media/InfoMediaManager.java:623-660 | the three loops over an insertion-ordered id set, followed by the id-to-route lookup, return exactly `Arranged(selected, available, items)` |
| Seqs.InsertAllExtends | packages/SettingsLib/src/com/android/settingslib/media/InfoMediaManager.java:627-637 | adding to the insertion-ordered set keeps what it held as a prefix; it only appends new elements from the added ones; its members are exactly the old and the added elements |
| Seqs.InsertAllOrder | packages/SettingsLib/src/com/android/settingslib/media/InfoMediaManager.java:627-637 | the elements the set gains come in the order of their first occurrence among the added elements |
| Seqs.InsertAllDistinct | packages/SettingsLib/src/com/android/settingslib/media/InfoMediaManager.java:627-637 | the insertion-ordered set never holds an element twice |
| Api34Impl.SystemIdsMembers | packages/SettingsLib/src/com/android/settingslib/media/InfoMediaManager.java:635-639 | the second pass offers exactly the ids of the system routes among the available routes |
| Api34Impl.ResolvableIdsMembers | packages/SettingsLib/src/com/android/settingslib/media/InfoMediaManager.java:652-657 | the third pass offers exactly the route ids of items that resolve to a selected or available route |
| Api34Impl.IndexByIdKeys | packages/SettingsLib/src/com/android/settingslib/media/InfoMediaManager.java:642-648 | the id-to-route map's keys are exactly the ids of selected followed by available, and each maps to a route with that id |
| Api34Impl.IndexByIdFirst | packages/SettingsLib/src/com/android/settingslib/media/InfoMediaManager.java:642-648 | the merge function keeps the first route: an id maps to its first occurrence in selected followed by available |
| Api34Impl.SortedIdsResolve | packages/SettingsLib/src/com/android/settingslib/media/InfoMediaManager.java:627-659 | every id in the ordered set is a key of the id-to-route map, so the final lookup never yields null |
| Api34Impl.ArrangedIds | packages/SettingsLib/src/com/android/settingslib/media/InfoMediaManager.java:659 | the returned routes carry exactly the ids of the ordered set, in its order |
| Api34Impl.ArrangedDistinctIds | packages/SettingsLib/src/com/android/settingslib/media/InfoMediaManager.java:627-659 | no id occurs twice in the arrangement; later duplicates are ignored |
| Api34Impl.ArrangedMembers | packages/SettingsLib/src/com/android/settingslib/media/InfoMediaManager.java:629-657 | an id is in the arrangement iff it is a selected id, the id of an available system route, or an item's id that resolves; no other route appears |
| Api34Impl.ArrangedOrder | packages/SettingsLib/src/com/android/settingslib/media/InfoMediaManager.java:604-621 | selected routes come first, then system routes, then preference-ranked routes |
| Api34Impl.ArrangedOrderWithinStage | packages/SettingsLib/src/com/android/settingslib/media/InfoMediaManager.java:627-657 | within each group the order is kept: selected routes by their first place among the selected ids, system routes by their first place among the available system routes, preference-ranked routes by the first item that names them |
| Api34Impl.ResolvableIdsOrder | packages/SettingsLib/src/com/android/settingslib/media/InfoMediaManager.java:652-657 | two ids the third pass offers keep the relative order of the first items that name them |
| Api34Impl.ArrangedPicksFirst | packages/SettingsLib/src/com/android/settingslib/media/InfoMediaManager.java:642-659 | each returned route is the first route with its id in selected followed by available; on an id collision the selected route is returned |
| Api34Impl.ArrangedIdempotent | packages/SettingsLib/src/com/android/settingslib/media/InfoMediaManager.java:623-660 | routes with distinct ids, given as both selected and available with no items, come back unchanged |
| Api34Impl.ArrangeExampleIds | packages/SettingsLib/src/com/android/settingslib/media/InfoMediaManager.java:627-657 | for selected A, B, available B, C and system D, and items D, C, the three passes collect the ids A, B, D, C |
| Api34Impl.ArrangeExample | packages/SettingsLib/src/com/android/settingslib/media/InfoMediaManager.java:574-660 | selected A, B; available B, C and system D; items C and suggested D: the result is A, B, D, C |
| Api34Impl.ItemIndexKeys | packages/SettingsLib/src/com/android/settingslib/media/InfoMediaManager.java:677-685 | after an update the map's keys are exactly the items' route ids, and each key maps to one of the items naming it |
| Api34Impl.ItemIndexLastWins | packages/SettingsLib/src/com/android/settingslib/media/InfoMediaManager.java:682-683 | a later item with the same route id overwrites an earlier one |
| Api34Impl.PreferRouteListingOrdering | packages/SettingsLib/src/com/android/settingslib/media/InfoMediaManager.java:662-666 | false for a null preference; otherwise true iff the preference does not ask for system ordering |
| Api34Impl.GetLinkedItemComponentName | packages/SettingsLib/src/com/android/settingslib/media/InfoMediaManager.java:670-674 | a null preference has no linked component; otherwise the result is the preference's linked component, null included |
| InfoMedia.ActiveSession | packages/SettingsLib/src/com/android/settingslib/media/InfoMediaManager.java:266-275 | the active session is one of the package's sessions; which one it is, is stated by ActiveSessionPrecedence |
| InfoMedia.ActiveSessionPrecedence | packages/SettingsLib/src/com/android/settingslib/media/InfoMediaManager.java:266-275 | with the system session first, the active session is a system session iff no remote session exists, and is otherwise the last remote session in the list |
| InfoMedia.ShouldEnableVolumeSeekBar | packages/SettingsLib/src/com/android/settingslib/media/InfoMediaManager.java:433-436 | a system session always gets a seek bar; a remote session gets one iff its volume is not fixed |
| InfoMedia.IsRoutingSessionAvailableForVolumeControl | packages/SettingsLib/src/com/android/settingslib/media/InfoMediaManager.java:277-289 | true iff some non-system session's volume is not fixed; such a session is then one for which the seek bar is enabled |
| InfoMedia.PreferRouteListingOrdering | packages/SettingsLib/src/com/android/settingslib/media/InfoMediaManager.java:291-294 | false below SDK 34; from SDK 34 true iff there is a preference and it does not ask for system ordering |
| InfoMedia.GetAvailableRoutes | packages/SettingsLib/src/com/android/settingslib/media/InfoMediaManager.java:454-489 | the nested `alreadyAdded` loop and the SDK and preference branches return exactly `AvailableRoutes(r)` |
| InfoMedia.MergedTransferableShape | packages/SettingsLib/src/com/android/settingslib/media/InfoMediaManager.java:458-474 | selected followed by selectable stays the prefix; each appended route is transferable and its id is new; every transferable route's id is present |
| InfoMedia.MergedTransferableSubsequence | packages/SettingsLib/src/com/android/settingslib/media/InfoMediaManager.java:463-474 | the appended routes are an order-preserving subsequence of the transferable routes |
| InfoMedia.MergedTransferableFirst | packages/SettingsLib/src/com/android/settingslib/media/InfoMediaManager.java:463-474 | each appended route is the first transferable route with its id |
| InfoMedia.MergedTransferableOrder | packages/SettingsLib/src/com/android/settingslib/media/InfoMediaManager.java:463-474 | the appended routes follow the order of their first occurrence among the transferable routes, also when a route repeats |
| InfoMedia.AvailableRoutesShape | packages/SettingsLib/src/com/android/settingslib/media/InfoMediaManager.java:454-489 | below SDK 34 the result is the unfiltered merge: selected followed by selectable, then transferable routes with new ids in the order of their first occurrence among the transferable routes, each the first transferable route with its id, and every transferable id present; from SDK 34 its routes are pairwise disjoint, a subsequence of the arrangement (with a preference) or of the merge (without one) |
| InfoMedia.MergedDistinctIds | packages/SettingsLib/src/com/android/settingslib/media/InfoMediaManager.java:463-474 | merging transferable routes into a list with distinct ids keeps the ids distinct |
| InfoMedia.AvailableRoutesDistinctIds | packages/SettingsLib/src/com/android/settingslib/media/InfoMediaManager.java:454-489 | from SDK 34 with a preference no route id occurs twice; on every branch this holds when the selected and selectable routes have distinct ids |
| InfoMedia.DuplicateRouteExample | packages/SettingsLib/src/com/android/settingslib/media/InfoMediaManager.java:459-460 | from SDK 34 without a preference, a route both selected and selectable with no deduplication ids appears twice in the route list |
| InfoMedia.OverlappingDedupBelow34Example | packages/SettingsLib/src/com/android/settingslib/media/InfoMediaManager.java:486-488 | below SDK 34, two routes sharing a deduplication id are both kept |
| InfoMedia.PreferredOrderingFollowsPreference | packages/SettingsLib/src/com/android/settingslib/media/InfoMediaManager.java:475-485 | from SDK 34, whenever there is a preference, the route list is the deduplicated arrangement of the composed preference, whatever its system-ordering flag |
| InfoMedia.SystemOrderingFlagIgnored | packages/SettingsLib/src/com/android/settingslib/media/InfoMediaManager.java:475-485 | flipping the preference's useSystemOrdering flag leaves the route list unchanged |
| InfoMedia.ClassificationOutcome | packages/SettingsLib/src/com/android/settingslib/media/InfoMediaManager.java:494-557 | each route type maps to its device category; an unknown Bluetooth peer or any other type gives no device; a device carries its route and preference item, and is selected iff the session selects its route |
| InfoMedia.FirstSelectedSpec | packages/SettingsLib/src/com/android/settingslib/media/InfoMediaManager.java:559-565 | the first selected device is None iff no device is selected; otherwise it is a selected device with no selected device before it |
| InfoMedia.FirstSelectedAppend | packages/SettingsLib/src/com/android/settingslib/media/InfoMediaManager.java:561-563 | appending devices never replaces an existing first selected device |
| InfoMedia.DeviceListSubsequence | packages/SettingsLib/src/com/android/settingslib/media/InfoMediaManager.java:445-453 | the devices come from an order-preserving subsequence of the routes |
| InfoMedia.DeviceListMembers | packages/SettingsLib/src/com/android/settingslib/media/InfoMediaManager.java:494-568 | each device is what its route classifies to, and is selected iff the session selects its route |
| InfoMedia.DeviceListComplete | packages/SettingsLib/src/com/android/settingslib/media/InfoMediaManager.java:445-453 | every route that yields a device contributes that device |
| InfoMedia.DeviceListConcat | packages/SettingsLib/src/com/android/settingslib/media/InfoMediaManager.java:445-453 | the device list of a concatenation of routes is the concatenation of their device lists, and a single route gives its device or nothing; this fixes the list exactly, one device per classifying route position |
| InfoMedia.RepeatedRouteExample | packages/SettingsLib/src/com/android/settingslib/media/InfoMediaManager.java:446-452 | routes a, b, a that all classify give the devices for a, b, a: a repeated route yields a device each time |
| InfoMedia.ConnectedStep | packages/SettingsLib/src/com/android/settingslib/media/InfoMediaManager.java:559-565 | setting the connected device only when none is set and the new device is selected keeps it the first selected device of the extended list |
| InfoMedia.SubsequenceKeepsDisjoint | packages/SettingsLib/src/com/android/settingslib/media/InfoMediaManager.java:445-453 | dropping routes keeps deduplication ids pairwise disjoint |
| InfoMedia.SubsequenceKeepsDistinctIds | packages/SettingsLib/src/com/android/settingslib/media/InfoMediaManager.java:590-602 | dropping routes keeps route ids pairwise distinct |
| InfoMedia.RebuiltDevicesDisjoint | packages/SettingsLib/src/com/android/settingslib/media/InfoMediaManager.java:445-489 | from SDK 34 on, no two rebuilt devices share a deduplication id |
| InfoMedia.SeveralSelectedExample | packages/SettingsLib/src/com/android/settingslib/media/InfoMediaManager.java:559-565 | two selected routes give two selected devices, and the first of them is the connected one |
| InfoMedia.InfoMediaManager.constructor | packages/SettingsLib/src/com/android/settingslib/media/InfoMediaManager.java:101-110 | stores the package name and starts with no devices, no connected device, an empty preference map and no router calls |
| InfoMedia.InfoMediaManager.GetLinkedItemComponentName | packages/SettingsLib/src/com/android/settingslib/media/InfoMediaManager.java:296-303 | below SDK 34 with an empty package name there is no component; otherwise it is the preference's linked component |
| InfoMedia.InfoMediaManager.AddMediaDevice | packages/SettingsLib/src/com/android/settingslib/media/InfoMediaManager.java:494-569 | appends the classified device, or nothing; sets the connected device only if none was set and the new device is selected; keeps the connected device equal to the first selected one |
| InfoMedia.InfoMediaManager.BuildAvailableRoutes | packages/SettingsLib/src/com/android/settingslib/media/InfoMediaManager.java:445-453 | appends the device list of the available routes, and keeps the connected device equal to the first selected one |
| InfoMedia.InfoMediaManager.RebuildDeviceList | packages/SettingsLib/src/com/android/settingslib/media/InfoMediaManager.java:213-217 | the list is rebuilt from empty, and the connected device ends as the first selected device, or None |
| InfoMedia.InfoMediaManager.RefreshDevices | packages/SettingsLib/src/com/android/settingslib/media/InfoMediaManager.java:438-441 | the same state as a rebuild |
| InfoMedia.InfoMediaManager.OnRouteListingPreferenceUpdated | packages/SettingsLib/src/com/android/settingslib/media/InfoMediaManager.java:677-685 | the map is cleared and refilled item by item; it ends as the item index of the preference, or empty for a null preference |
| InfoMedia.InfoMediaManager.NotifyRouteListingPreferenceUpdated | packages/SettingsLib/src/com/android/settingslib/media/InfoMediaManager.java:224-228 | the map ends as the item index of the given preference |
| InfoMedia.InfoMediaManager.UpdateRouteListingPreference | packages/SettingsLib/src/com/android/settingslib/media/InfoMediaManager.java:149-156 | from SDK 34 the map is rebuilt from the router's preference; below SDK 34 it is unchanged |
| InfoMedia.InfoMediaManager.StartScan | packages/SettingsLib/src/com/android/settingslib/media/InfoMediaManager.java:142-147 | logs one start-scan call, updates the preference map, and then rebuilds the device list with the new map, ending consistent |
| InfoMedia.InfoMediaManager.AddDeviceToPlayMedia | packages/SettingsLib/src/com/android/settingslib/media/InfoMediaManager.java:254-264 | returns true iff the route id is among the active session's selectable ids; then it logs exactly one select call, and otherwise none |
| InfoMedia.InfoMediaManager.RemoveDeviceFromPlayMedia | packages/SettingsLib/src/com/android/settingslib/media/InfoMediaManager.java:311-321 | returns true iff the route id is among the active session's selected ids; then it logs exactly one deselect call, and otherwise none |

## Left out

- Locking is not modelled. This covers the `synchronized` methods and the `ConcurrentHashMap` behind the preference-item map. The model is sequential.
- The abstract router operations are not modelled as code. These are `getRoutingSessionsForPackage`, the route getters, `getRouteListingPreference` and `getAvailableRoutesFromRouter`. Their answers are the fields of `RouterView`. `startScanOnRouter`, `selectRoute` and `deselectRoute` are entries in the `calls` log.
- `connectToDevice` (`InfoMediaManager.java` lines 238-246) is not modelled. It returns early when the device has no route. Otherwise it marks the device's connected record and transfers to the route. The connection record belongs to the device classes, which are not part of this model.
- `adjustDeviceVolume` (`InfoMediaManager.java` lines 383-389) and `adjustSessionVolume(info, volume)` (`InfoMediaManager.java` lines 391-398) are not modelled. Each returns early when the route or the session is missing, and otherwise sets the volume through the router. Volume is not part of this model.
- `adjustSessionVolume(volume)`, `getSessionVolume`, `getSessionVolumeMax` and `releaseSession()` are not modelled. Each makes a single call into the router on the active session; `releaseSession()` then returns true. `stopScan` is abstract, with no body in this class.
- `getSelectableMediaDevices`, `getDeselectableMediaDevices` and `getSelectedMediaDevices` (`InfoMediaManager.java` lines 336-381) are not modelled. Each builds a new list with one info device per route that the active session lists as selectable, deselectable or selected. Each device carries the item the preference map holds for its route id. The device classes are not part of this model.
- `getCurrentConnectedDevice` (`InfoMediaManager.java` lines 234-236) returns the connected-device field; here callers read the class field `connected` directly.
- `getSessionName` and `notifyCurrentConnectedDeviceChanged` are not modelled. They forward to the router or to listeners.
- The Bluetooth lookup through `BluetoothAdapter` and `CachedBluetoothDeviceManager` is the set `knownPeers`. `getRemoteDevice` rejecting a malformed address is not modelled.
- The device constructors (`InfoMediaDevice`, `PhoneMediaDevice`, `BluetoothMediaDevice`, `ComplexMediaDevice`) are not modelled beyond a category tag, the route and the preference item. Their classes are not part of this model.
- The device list `mMediaDevices` belongs to the base class `MediaManager`, which is not part of this model. Here it is the field `devices`.
- The listener dispatch (`dispatchDeviceListAdded`, `dispatchConnectedDeviceChanged`), `Log`, `Context` and `Notification` are left out. They do not affect the modelled state.
- `createInstance` is left out. It replaces an empty package name with the context's own package name (`InfoMediaManager.java` lines 122-124), picks a subclass by a feature flag, and falls back when the package is missing. Because of that replacement, a manager built through the factory never has an empty package name, so the empty-package branch of `InfoMedia.InfoMediaManager.GetLinkedItemComponentName` is reachable only through the constructor.
- `Build.VERSION.SDK_INT` is the boolean `sdkAtLeast34`.
- Route types are named constructors. The numeric type codes are not part of this model. `OtherType` stands for any code the switch's default branch receives.
- The item's flag word is a boolean `suggested`, in place of the `FLAG_SUGGESTED` bit test.
- `PixelPropsUtils.java` is left out entirely. It is an unrelated subsystem of reflection, system properties and file reads.
- `addDeviceToPlayMedia` and `removeDeviceFromPlayMedia` read the device's route without a null check (`InfoMediaManager.java` lines 256 and 313) and throw for a device that has no route. A `Device` here always carries its route, so this error path is not modelled.
- InfoMedia.InfoMediaManager.RebuildDeviceList: does not promise that the rebuilt devices have distinct route ids, because the code does not ensure it. Without a preference the list can hold one route twice when the selected and selectable routes overlap (`InfoMediaManager.java` lines 459-460). Below SDK 34 nothing removes routes with overlapping deduplication ids (line 487). Distinct ids are proved with a preference from SDK 34, and on every branch when the selected and selectable routes have distinct ids.
- InfoMedia.ActiveSession: requires a non-empty session list. The source's empty-list branch would throw, not return a session.
- InfoMedia.InfoMediaManager.AddMediaDevice: reads the active session once, from the snapshot. The source queries the router again for each route.
