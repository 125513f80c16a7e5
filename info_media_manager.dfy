/**
  InfoMediaManager: collects the candidate routes of the target app's active routing session,
  turns each into a typed media device, and tracks the device currently carrying playback.

  The media router is a snapshot `RouterView` of what its abstract queries answer; the calls
  the manager issues to it (start scan, select, deselect) are appended to a log.
 */
module InfoMedia {
  import opened Wrappers
  import opened MediaTypes
  import opened Seqs
  import opened Api34Impl

  /**
    What the router reports for the target package: its routing sessions (system session
    first), the selected, selectable and transferable routes of the active session, the routes
    available from the router, the route-listing preference, whether the platform is at SDK 34
    or later, and the addresses the cached Bluetooth device manager knows.
   */
  datatype RouterView = RouterView(
    sessions: seq<Session>,
    selectedRoutes: seq<Route>,
    selectableRoutes: seq<Route>,
    transferableRoutes: seq<Route>,
    routerAvailableRoutes: seq<Route>,
    preference: Option<Preference>,
    sdkAtLeast34: bool,
    knownPeers: set<string>)

  // ---------------------------------------------------------------------------------------
  // Sessions and volume control

  /** The session that governs the target app: the last one of the (never empty) list. */
  function ActiveSession(sessions: seq<Session>): (active: Session)
    requires |sessions| > 0
    ensures active in sessions
  {
    sessions[|sessions| - 1]
  }

  /**
    With the system session first and remote sessions after it, the active session is the
    last remote one in the list, and the system session only when there is no remote session.
   */
  lemma ActiveSessionPrecedence(sessions: seq<Session>)
    requires |sessions| > 0 && sessions[0].isSystem
    requires forall k :: 0 < k < |sessions| ==> !sessions[k].isSystem
    ensures ActiveSession(sessions).isSystem <==> |sessions| == 1
    ensures |sessions| > 1 ==> ActiveSession(sessions) == sessions[|sessions| - 1]
  {
  }

  /** A system session, or any session whose volume is not fixed, gets a volume seek bar. */
  function ShouldEnableVolumeSeekBar(session: Session): (enabled: bool)
    ensures session.isSystem ==> enabled
    ensures !session.isSystem ==> (enabled <==> session.volumeHandling != Fixed)
  {
    session.isSystem || session.volumeHandling != Fixed
  }

  /** Some remote (non-system) session of the package has a volume that is not fixed. */
  method IsRoutingSessionAvailableForVolumeControl(sessions: seq<Session>) returns (available: bool)
    ensures available <==>
      exists k :: 0 <= k < |sessions| && !sessions[k].isSystem && sessions[k].volumeHandling != Fixed
    ensures available ==>
      exists k :: 0 <= k < |sessions| && !sessions[k].isSystem && ShouldEnableVolumeSeekBar(sessions[k])
  {
    for i := 0 to |sessions|
      invariant forall k :: 0 <= k < i ==> sessions[k].isSystem || sessions[k].volumeHandling == Fixed
    {
      if !sessions[i].isSystem && sessions[i].volumeHandling != Fixed {
        return true;
      }
    }
    return false;
  }

  /** The preference's own ordering is preferred only on SDK 34 and later. */
  function PreferRouteListingOrdering(r: RouterView): (prefer: bool)
    ensures !r.sdkAtLeast34 ==> !prefer
    ensures r.sdkAtLeast34 ==> (prefer <==> r.preference.Some? && !r.preference.value.useSystemOrdering)
  {
    r.sdkAtLeast34 && Api34Impl.PreferRouteListingOrdering(r.preference)
  }

  // ---------------------------------------------------------------------------------------
  // getAvailableRoutes

  /** `base` followed by each transferable route whose id is not yet in the list. */
  function MergedTransferable(base: seq<Route>, ts: seq<Route>): seq<Route>
    decreases |ts|
  {
    if ts == [] then base
    else
      var merged := MergedTransferable(base, ts[..|ts| - 1]);
      var t := ts[|ts| - 1];
      if t.id in Ids(merged) then merged else merged + [t]
  }

  /** The route list getAvailableRoutes returns. */
  function AvailableRoutes(r: RouterView): seq<Route>
  {
    var merged := MergedTransferable(r.selectedRoutes + r.selectableRoutes, r.transferableRoutes);
    if !r.sdkAtLeast34 then merged
    else if r.preference.None? then Deduplicated(merged)
    else Deduplicated(Arranged(r.selectedRoutes, r.routerAvailableRoutes, Composed(r.preference.value.items)))
  }

  method GetAvailableRoutes(r: RouterView) returns (routes: seq<Route>)
    requires |r.sessions| > 0
    ensures routes == AvailableRoutes(r)
  {
    var availableRoutes := r.selectedRoutes + r.selectableRoutes;
    ghost var base := availableRoutes;
    var transferableRoutes := r.transferableRoutes;
    for i := 0 to |transferableRoutes|
      invariant availableRoutes == MergedTransferable(base, transferableRoutes[..i])
    {
      var transferableRoute := transferableRoutes[i];
      var alreadyAdded := false;
      var j := 0;
      while j < |availableRoutes|
        invariant 0 <= j <= |availableRoutes|
        invariant forall k :: 0 <= k < j ==> availableRoutes[k].id != transferableRoute.id
        invariant !alreadyAdded
      {
        if transferableRoute.id == availableRoutes[j].id {
          alreadyAdded := true;
          break;
        }
        j := j + 1;
      }
      assert alreadyAdded <==> transferableRoute.id in Ids(availableRoutes) by {
        if alreadyAdded {
          assert Ids(availableRoutes)[j] == transferableRoute.id;
        } else {
          forall k | 0 <= k < |availableRoutes| ensures Ids(availableRoutes)[k] != transferableRoute.id {
          }
        }
      }
      assert transferableRoutes[..i + 1][..i] == transferableRoutes[..i];
      if !alreadyAdded {
        availableRoutes := availableRoutes + [transferableRoute];
      }
    }
    assert transferableRoutes[..|transferableRoutes|] == transferableRoutes;
    if r.sdkAtLeast34 {
      if r.preference.Some? {
        var preferenceRouteListing := ComposePreferenceRouteListing(r.preference.value);
        availableRoutes := ArrangeRouteListByPreference(
          r.selectedRoutes, r.routerAvailableRoutes, preferenceRouteListing);
      }
      routes := FilterDuplicatedIds(availableRoutes);
    } else {
      routes := availableRoutes;
    }
  }

  /**
    The merge keeps `base` as its prefix; each route appended after it is a transferable route
    whose id no earlier route has; every transferable route's id ends up in the list.
   */
  lemma {:induction false} MergedTransferableShape(base: seq<Route>, ts: seq<Route>)
    ensures var m := MergedTransferable(base, ts);
      && |base| <= |m| && m[..|base|] == base
      && (forall k :: |base| <= k < |m| ==> m[k] in ts && forall j :: 0 <= j < k ==> m[j].id != m[k].id)
      && (forall t :: t in ts ==> t.id in Ids(m))
    decreases |ts|
  {
    if ts != [] {
      var ts' := ts[..|ts| - 1];
      var t := ts[|ts| - 1];
      var p := MergedTransferable(base, ts');
      MergedTransferableShape(base, ts');
      assert ts == ts' + [t];
      var m := MergedTransferable(base, ts);
      if t.id !in Ids(p) {
        assert m == p + [t];
        forall j | 0 <= j < |p| ensures m[j].id != t.id {
          assert Ids(p)[j] == p[j].id;
        }
        forall u | u in ts ensures u.id in Ids(m) {
          if u != t {
            var k :| 0 <= k < |p| && Ids(p)[k] == u.id;
            assert Ids(m)[k] == u.id;
          } else {
            assert Ids(m)[|p|] == t.id;
          }
        }
      }
    }
  }

  /** The routes the merge appends keep the order they have among the transferable routes. */
  lemma {:induction false} MergedTransferableSubsequence(base: seq<Route>, ts: seq<Route>)
    ensures var m := MergedTransferable(base, ts);
      |base| <= |m| && IsSubsequence(m[|base|..], ts)
    decreases |ts|
  {
    if ts != [] {
      var ts' := ts[..|ts| - 1];
      var t := ts[|ts| - 1];
      var p := MergedTransferable(base, ts');
      var m := MergedTransferable(base, ts);
      MergedTransferableSubsequence(base, ts');
      if t.id !in Ids(p) {
        assert m == p + [t];
        var tail := m[|base|..];
        assert tail[..|tail| - 1] == p[|base|..] && tail[|tail| - 1] == t;
      } else {
        assert m == p;
      }
    }
  }

  /** The transferable route the merge appended at position `k`, and no earlier one has its id. */
  lemma {:induction false} MergedTransferableFirstAt(base: seq<Route>, ts: seq<Route>, k: nat) returns (j: nat)
    requires |base| <= k < |MergedTransferable(base, ts)|
    ensures j < |ts| && ts[j] == MergedTransferable(base, ts)[k]
    ensures forall i :: 0 <= i < j ==> ts[i].id != ts[j].id
    decreases |ts|
  {
    var ts' := ts[..|ts| - 1];
    var t := ts[|ts| - 1];
    var p := MergedTransferable(base, ts');
    var m := MergedTransferable(base, ts);
    if k < |p| {
      j := MergedTransferableFirstAt(base, ts', k);
      assert ts[j] == ts'[j] && m[k] == p[k];
      assert forall i :: 0 <= i < j ==> ts[i] == ts'[i];
    } else {
      MergedTransferableShape(base, ts');
      assert m == p + [t] && m[k] == t;
      j := |ts| - 1;
      forall i | 0 <= i < j ensures ts[i].id != t.id {
        assert ts[i] == ts'[i] && ts'[i] in ts';
      }
    }
  }

  /** Each route the merge appends is the first transferable route with its id. */
  lemma MergedTransferableFirst(base: seq<Route>, ts: seq<Route>)
    ensures var m := MergedTransferable(base, ts);
      forall k :: |base| <= k < |m| ==>
        exists j :: 0 <= j < |ts| && ts[j] == m[k] && forall i :: 0 <= i < j ==> ts[i].id != m[k].id
  {
    var m := MergedTransferable(base, ts);
    forall k | |base| <= k < |m|
      ensures exists j :: 0 <= j < |ts| && ts[j] == m[k] && forall i :: 0 <= i < j ==> ts[i].id != m[k].id
    {
      var j := MergedTransferableFirstAt(base, ts, k);
    }
  }

  /**
    The routes the merge appends follow the order of their first occurrence among the
    transferable routes.
   */
  lemma {:induction false} MergedTransferableOrder(base: seq<Route>, ts: seq<Route>)
    ensures forall k1, k2 {:trigger MergedTransferable(base, ts)[k1], MergedTransferable(base, ts)[k2]} ::
      |base| <= k1 < k2 < |MergedTransferable(base, ts)| ==>
        && MergedTransferable(base, ts)[k1] in ts && MergedTransferable(base, ts)[k2] in ts
        && IndexOf(ts, MergedTransferable(base, ts)[k1]) < IndexOf(ts, MergedTransferable(base, ts)[k2])
    decreases |ts|
  {
    if ts != [] {
      var ts' := ts[..|ts| - 1];
      var t := ts[|ts| - 1];
      assert ts == ts' + [t];
      var p := MergedTransferable(base, ts');
      var m := MergedTransferable(base, ts);
      MergedTransferableOrder(base, ts');
      MergedTransferableShape(base, ts');
      forall k1, k2 | |base| <= k1 < k2 < |m|
        ensures MergedTransferable(base, ts)[k1] in ts && MergedTransferable(base, ts)[k2] in ts
        ensures IndexOf(ts, MergedTransferable(base, ts)[k1]) < IndexOf(ts, MergedTransferable(base, ts)[k2])
      {
        assert m[k1] == p[k1] && m[k1] in ts';
        IndexOfSnoc(ts', t, m[k1]);
        if k2 < |p| {
          assert m[k2] == p[k2] && m[k2] in ts';
          IndexOfSnoc(ts', t, m[k2]);
        } else {
          assert m == p + [t] && m[k2] == t && t.id !in Ids(p);
          assert t !in ts';
          IndexOfLast(ts', t);
        }
      }
    } else {
      assert MergedTransferable(base, ts) == base;
    }
  }

  /**
    Below SDK 34 the result is selected ++ selectable followed by the transferable routes with
    new ids, in the order of their first occurrence among the transferable routes, each the
    first transferable route with its id; from SDK 34 on it is the deduplicated arrangement
    (with a preference) or the deduplicated merge (without), so no two routes share a
    deduplication id.
   */
  lemma AvailableRoutesShape(r: RouterView)
    ensures var base := r.selectedRoutes + r.selectableRoutes; var routes := AvailableRoutes(r);
      !r.sdkAtLeast34 ==>
        && |base| <= |routes| && routes[..|base|] == base
        && (forall k :: |base| <= k < |routes| ==>
              routes[k] in r.transferableRoutes && forall j :: 0 <= j < k ==> routes[j].id != routes[k].id)
        && (forall t :: t in r.transferableRoutes ==> t.id in Ids(routes))
    ensures var base := r.selectedRoutes + r.selectableRoutes; var routes := AvailableRoutes(r);
      !r.sdkAtLeast34 ==>
        && |base| <= |routes|
        && IsSubsequence(routes[|base|..], r.transferableRoutes)
        && (forall k :: |base| <= k < |routes| ==>
              exists j :: 0 <= j < |r.transferableRoutes| && r.transferableRoutes[j] == routes[k]
                && forall i :: 0 <= i < j ==> r.transferableRoutes[i].id != routes[k].id)
        && (forall k1, k2 :: |base| <= k1 < k2 < |routes| ==>
              && routes[k1] in r.transferableRoutes && routes[k2] in r.transferableRoutes
              && IndexOf(r.transferableRoutes, routes[k1]) < IndexOf(r.transferableRoutes, routes[k2]))
    ensures r.sdkAtLeast34 ==> PairwiseDisjoint(AvailableRoutes(r))
    ensures r.sdkAtLeast34 && r.preference.Some? ==>
      IsSubsequence(AvailableRoutes(r),
        Arranged(r.selectedRoutes, r.routerAvailableRoutes, Composed(r.preference.value.items)))
    ensures r.sdkAtLeast34 && r.preference.None? ==>
      IsSubsequence(AvailableRoutes(r), MergedTransferable(r.selectedRoutes + r.selectableRoutes, r.transferableRoutes))
  {
    var merged := MergedTransferable(r.selectedRoutes + r.selectableRoutes, r.transferableRoutes);
    MergedTransferableShape(r.selectedRoutes + r.selectableRoutes, r.transferableRoutes);
    MergedTransferableSubsequence(r.selectedRoutes + r.selectableRoutes, r.transferableRoutes);
    MergedTransferableFirst(r.selectedRoutes + r.selectableRoutes, r.transferableRoutes);
    MergedTransferableOrder(r.selectedRoutes + r.selectableRoutes, r.transferableRoutes);
    if r.sdkAtLeast34 {
      var arranged := if r.preference.None? then merged
        else Arranged(r.selectedRoutes, r.routerAvailableRoutes, Composed(r.preference.value.items));
      DeduplicatedPairwiseDisjoint(arranged);
      DeduplicatedIsSubsequence(arranged);
    }
  }

  /**
    On SDK 34 and later, any preference decides the route list, whether or not it asks for
    system ordering.
   */
  lemma PreferredOrderingFollowsPreference(r: RouterView)
    requires r.sdkAtLeast34 && r.preference.Some?
    ensures AvailableRoutes(r)
      == Deduplicated(Arranged(r.selectedRoutes, r.routerAvailableRoutes, Composed(r.preference.value.items)))
  {
  }

  /** Flipping the preference's useSystemOrdering flag leaves the route list unchanged. */
  lemma SystemOrderingFlagIgnored(r: RouterView)
    requires r.preference.Some?
    ensures var pref := r.preference.value;
      AvailableRoutes(r.(preference := Some(pref.(useSystemOrdering := !pref.useSystemOrdering))))
        == AvailableRoutes(r)
  {
  }

  // ---------------------------------------------------------------------------------------
  // addMediaDevice

  predicate IsInfoType(t: RouteType)
  {
    t in {Unknown, RemoteTv, RemoteSpeaker, Group, RemoteTablet, RemoteTabletDocked,
          RemoteComputer, RemoteGameConsole, RemoteCar, RemoteSmartwatch, RemoteSmartphone}
  }

  predicate IsPhoneType(t: RouteType)
  {
    t in {BuiltinSpeaker, UsbDevice, UsbHeadset, UsbAccessory, Dock, Hdmi, HdmiArc, HdmiEarc,
          WiredHeadset, WiredHeadphones}
  }

  predicate IsBluetoothType(t: RouteType)
  {
    t in {HearingAid, BluetoothA2dp, BleHeadset}
  }

  /** The device switch: the category a route becomes, or None when it yields no device. */
  function DeviceCategory(route: Route, knownPeers: set<string>): Option<Category>
  {
    match route.routeType
    case Unknown | RemoteTv | RemoteSpeaker | Group | RemoteTablet | RemoteTabletDocked
      | RemoteComputer | RemoteGameConsole | RemoteCar | RemoteSmartwatch | RemoteSmartphone =>
      Some(InfoDevice)
    case BuiltinSpeaker | UsbDevice | UsbHeadset | UsbAccessory | Dock | Hdmi | HdmiArc | HdmiEarc
      | WiredHeadset | WiredHeadphones =>
      Some(PhoneDevice)
    case HearingAid | BluetoothA2dp | BleHeadset =>
      if route.address in knownPeers then Some(BluetoothDevice) else None
    case RemoteAudioVideoReceiver => Some(ComplexDevice)
    case OtherType(_) => None
  }

  /** The device addMediaDevice appends for `route`, if any. */
  function MakeDevice(route: Route, session: Session, prefMap: map<string, Item>, knownPeers: set<string>)
    : Option<Device>
  {
    match DeviceCategory(route, knownPeers)
    case None => None
    case Some(c) => Some(Device(c, route, Get(prefMap, route.id), route.id in session.selectedIds))
  }

  /**
    Remote, group and unknown types give an info device; built-in, USB, dock, HDMI and wired
    types a phone device; hearing-aid, A2DP and BLE types a Bluetooth device when the peer is
    known; an AV receiver a complex device. Any other type, or an unknown peer, gives none.
    A device carries its route and preference item, and is selected iff the session selects it.
   */
  lemma ClassificationOutcome(route: Route, session: Session, prefMap: map<string, Item>, knownPeers: set<string>)
    ensures var d := MakeDevice(route, session, prefMap, knownPeers);
      && (d.None? <==> route.routeType.OtherType? || (IsBluetoothType(route.routeType) && route.address !in knownPeers))
      && (d.Some? ==>
            && d.value.route == route
            && d.value.item == Get(prefMap, route.id)
            && (d.value.selected <==> route.id in session.selectedIds)
            && (d.value.category == InfoDevice <==> IsInfoType(route.routeType))
            && (d.value.category == PhoneDevice <==> IsPhoneType(route.routeType))
            && (d.value.category == BluetoothDevice <==> IsBluetoothType(route.routeType))
            && (d.value.category == ComplexDevice <==> route.routeType == RemoteAudioVideoReceiver))
  {
  }

  // ---------------------------------------------------------------------------------------
  // The rebuilt device list

  /** The devices buildAvailableRoutes appends for `routes`, in order. */
  function DeviceList(routes: seq<Route>, session: Session, prefMap: map<string, Item>, knownPeers: set<string>)
    : seq<Device>
    decreases |routes|
  {
    if routes == [] then []
    else
      DeviceList(routes[..|routes| - 1], session, prefMap, knownPeers)
        + OptionToSeq(MakeDevice(routes[|routes| - 1], session, prefMap, knownPeers))
  }

  /** Handling the route at index `i` appends the device it yields, if any. */
  lemma DeviceListStep(routes: seq<Route>, i: nat, session: Session, prefMap: map<string, Item>, knownPeers: set<string>)
    requires i < |routes|
    ensures DeviceList(routes[..i + 1], session, prefMap, knownPeers)
      == DeviceList(routes[..i], session, prefMap, knownPeers) + OptionToSeq(MakeDevice(routes[i], session, prefMap, knownPeers))
  {
    assert routes[..i + 1][..i] == routes[..i];
  }

  /**
    The connected-device rule of addMediaDevice, applied to a list whose connected device is its
    first selected one, keeps it the first selected one of the extended list.
   */
  lemma ConnectedStep(ds: seq<Device>, d: Option<Device>)
    ensures var c := FirstSelected(ds);
      FirstSelected(ds + OptionToSeq(d)) == if c.None? && d.Some? && d.value.selected then d else c
  {
    FirstSelectedAppend(ds, OptionToSeq(d));
    if d.Some? {
      assert [d.value][1..] == [];
    }
  }

  /** The first selected device in list order, or None when no device is selected. */
  function FirstSelected(ds: seq<Device>): Option<Device>
    decreases |ds|
  {
    if ds == [] then None
    else if ds[0].selected then Some(ds[0])
    else FirstSelected(ds[1..])
  }

  /** None iff no device is selected; otherwise a selected device with no selected device before it. */
  lemma {:induction false} FirstSelectedSpec(ds: seq<Device>)
    ensures FirstSelected(ds).None? <==> forall i :: 0 <= i < |ds| ==> !ds[i].selected
    ensures FirstSelected(ds).Some? ==>
      exists i :: 0 <= i < |ds| && ds[i] == FirstSelected(ds).value && ds[i].selected
        && forall j :: 0 <= j < i ==> !ds[j].selected
    decreases |ds|
  {
    if ds != [] && !ds[0].selected {
      FirstSelectedSpec(ds[1..]);
      assert forall i :: 0 < i < |ds| ==> ds[i] == ds[1..][i - 1];
      if FirstSelected(ds).Some? {
        var i :| 0 <= i < |ds[1..]| && ds[1..][i] == FirstSelected(ds).value && ds[1..][i].selected
          && forall j :: 0 <= j < i ==> !ds[1..][j].selected;
        assert ds[i + 1] == ds[1..][i];
      }
    }
  }

  /** Appending devices leaves an existing first selected device in place. */
  lemma {:induction false} FirstSelectedAppend(ds: seq<Device>, more: seq<Device>)
    ensures FirstSelected(ds + more)
      == if FirstSelected(ds).Some? then FirstSelected(ds) else FirstSelected(more)
    decreases |ds|
  {
    if ds != [] {
      assert (ds + more)[1..] == ds[1..] + more;
      FirstSelectedAppend(ds[1..], more);
    } else {
      assert ds + more == more;
    }
  }

  /** The device list is built from an order-preserving subsequence of the routes. */
  lemma {:induction false} DeviceListSubsequence(routes: seq<Route>, session: Session, prefMap: map<string, Item>, knownPeers: set<string>)
    ensures IsSubsequence(RoutesOf(DeviceList(routes, session, prefMap, knownPeers)), routes)
    decreases |routes|
  {
    if routes != [] {
      var p := routes[..|routes| - 1];
      var prev := DeviceList(p, session, prefMap, knownPeers);
      var ds := DeviceList(routes, session, prefMap, knownPeers);
      DeviceListSubsequence(p, session, prefMap, knownPeers);
      var o := MakeDevice(routes[|routes| - 1], session, prefMap, knownPeers);
      if o.Some? {
        assert ds == prev + [o.value];
        assert RoutesOf(ds)[..|ds| - 1] == RoutesOf(prev);
      } else {
        assert ds == prev;
      }
    }
  }

  /** Every device is the one its route classifies to, so it is selected iff the session selects its route. */
  lemma {:induction false} DeviceListMembers(routes: seq<Route>, session: Session, prefMap: map<string, Item>, knownPeers: set<string>)
    ensures forall d :: d in DeviceList(routes, session, prefMap, knownPeers) ==>
      MakeDevice(d.route, session, prefMap, knownPeers) == Some(d) && (d.selected <==> d.route.id in session.selectedIds)
    decreases |routes|
  {
    if routes != [] {
      DeviceListMembers(routes[..|routes| - 1], session, prefMap, knownPeers);
    }
  }

  /** Every route that classifies to a device contributes that device. */
  lemma {:induction false} DeviceListComplete(routes: seq<Route>, session: Session, prefMap: map<string, Item>, knownPeers: set<string>)
    ensures forall r :: r in routes && MakeDevice(r, session, prefMap, knownPeers).Some? ==>
      MakeDevice(r, session, prefMap, knownPeers).value in DeviceList(routes, session, prefMap, knownPeers)
    decreases |routes|
  {
    if routes != [] {
      var p := routes[..|routes| - 1];
      DeviceListComplete(p, session, prefMap, knownPeers);
      assert routes == p + [routes[|routes| - 1]];
    }
  }

  /**
    The device list of a concatenation is the concatenation of the device lists, and one route
    gives its device or nothing; together these fix the list, one entry per classifying
    route position, repeats included.
   */
  lemma {:induction false} DeviceListConcat(a: seq<Route>, b: seq<Route>, session: Session, prefMap: map<string, Item>, knownPeers: set<string>)
    ensures DeviceList(a + b, session, prefMap, knownPeers)
      == DeviceList(a, session, prefMap, knownPeers) + DeviceList(b, session, prefMap, knownPeers)
    ensures |b| == 1 ==> DeviceList(b, session, prefMap, knownPeers) == OptionToSeq(MakeDevice(b[0], session, prefMap, knownPeers))
    decreases |b|
  {
    if b != [] {
      var b' := b[..|b| - 1];
      var x := b[|b| - 1];
      assert (a + b)[..|a + b| - 1] == a + b';
      assert (a + b)[|a + b| - 1] == x;
      DeviceListConcat(a, b', session, prefMap, knownPeers);
      AppendAssociative(DeviceList(a, session, prefMap, knownPeers), DeviceList(b', session, prefMap, knownPeers),
        OptionToSeq(MakeDevice(x, session, prefMap, knownPeers)));
    } else {
      assert a + b == a;
    }
  }

  /** Classifying routes [a, b, a] gives three devices, the first and last both for route a. */
  lemma RepeatedRouteExample(a: Route, b: Route, session: Session, prefMap: map<string, Item>, knownPeers: set<string>)
    requires MakeDevice(a, session, prefMap, knownPeers).Some? && MakeDevice(b, session, prefMap, knownPeers).Some?
    ensures var da := MakeDevice(a, session, prefMap, knownPeers).value;
      var db := MakeDevice(b, session, prefMap, knownPeers).value;
      DeviceList([a, b, a], session, prefMap, knownPeers) == [da, db, da]
  {
    DeviceListConcat([a], [b], session, prefMap, knownPeers);
    DeviceListConcat([], [a], session, prefMap, knownPeers);
    DeviceListConcat([a, b], [a], session, prefMap, knownPeers);
    assert [a] + [b] == [a, b] && [a, b] + [a] == [a, b, a] && [] + [a] == [a];
  }

  /** A subsequence of routes with pairwise-disjoint deduplication ids keeps that property. */
  lemma {:induction false} SubsequenceKeepsDisjoint(xs: seq<Route>, ys: seq<Route>)
    requires IsSubsequence(xs, ys) && PairwiseDisjoint(ys)
    ensures PairwiseDisjoint(xs)
    decreases |ys|
  {
    if xs != [] {
      var ys' := ys[..|ys| - 1];
      var xs' := xs[..|xs| - 1];
      if xs[|xs| - 1] == ys[|ys| - 1] && IsSubsequence(xs', ys') {
        SubsequenceKeepsDisjoint(xs', ys');
        SubsequenceMembers(xs', ys');
        forall i | 0 <= i < |xs| - 1 ensures xs[i].dedupIds !! xs[|xs| - 1].dedupIds {
          assert xs[i] == xs'[i] && xs'[i] in xs';
          var k :| 0 <= k < |ys'| && ys'[k] == xs[i];
          assert ys[k] == xs[i];
        }
      } else {
        SubsequenceKeepsDisjoint(xs, ys');
      }
    }
  }

  /** From SDK 34 on, no two rebuilt devices share a deduplication id. */
  lemma RebuiltDevicesDisjoint(r: RouterView, prefMap: map<string, Item>)
    requires |r.sessions| > 0 && r.sdkAtLeast34
    ensures PairwiseDisjoint(RoutesOf(DeviceList(AvailableRoutes(r), ActiveSession(r.sessions), prefMap, r.knownPeers)))
  {
    AvailableRoutesShape(r);
    DeviceListSubsequence(AvailableRoutes(r), ActiveSession(r.sessions), prefMap, r.knownPeers);
    SubsequenceKeepsDisjoint(
      RoutesOf(DeviceList(AvailableRoutes(r), ActiveSession(r.sessions), prefMap, r.knownPeers)),
      AvailableRoutes(r));
  }

  /** A subsequence of routes with pairwise-distinct ids keeps its ids distinct. */
  lemma {:induction false} SubsequenceKeepsDistinctIds(xs: seq<Route>, ys: seq<Route>)
    requires IsSubsequence(xs, ys) && Distinct(Ids(ys))
    ensures Distinct(Ids(xs))
    decreases |ys|
  {
    if xs != [] {
      var ys' := ys[..|ys| - 1];
      var xs' := xs[..|xs| - 1];
      assert Distinct(Ids(ys')) by {
        forall i, j | 0 <= i < j < |ys'| ensures Ids(ys')[i] != Ids(ys')[j] {
          assert Ids(ys')[i] == Ids(ys)[i] && Ids(ys')[j] == Ids(ys)[j];
        }
      }
      if xs[|xs| - 1] == ys[|ys| - 1] && IsSubsequence(xs', ys') {
        SubsequenceKeepsDistinctIds(xs', ys');
        SubsequenceMembers(xs', ys');
        forall i, j | 0 <= i < j < |xs| ensures Ids(xs)[i] != Ids(xs)[j] {
          if j < |xs| - 1 {
            assert Ids(xs)[i] == Ids(xs')[i] && Ids(xs)[j] == Ids(xs')[j];
          } else {
            assert xs[i] == xs'[i] && xs'[i] in xs';
            var k :| 0 <= k < |ys'| && ys'[k] == xs[i];
            assert Ids(ys)[k] == xs[i].id && Ids(ys)[|ys| - 1] == xs[j].id;
          }
        }
      } else {
        SubsequenceKeepsDistinctIds(xs, ys');
      }
    }
  }

  /** Merging transferable routes into a list with distinct ids keeps the ids distinct. */
  lemma MergedDistinctIds(base: seq<Route>, ts: seq<Route>)
    requires Distinct(Ids(base))
    ensures Distinct(Ids(MergedTransferable(base, ts)))
  {
    var m := MergedTransferable(base, ts);
    MergedTransferableShape(base, ts);
    forall i, j | 0 <= i < j < |m| ensures Ids(m)[i] != Ids(m)[j] {
      if j < |base| {
        assert m[..|base|][i] == base[i] && m[..|base|][j] == base[j];
        assert Ids(base)[i] == base[i].id && Ids(base)[j] == base[j].id;
      }
    }
  }

  /**
    From SDK 34 on with a preference, no route id occurs twice in the route list; on the other
    branches this holds when the selected and selectable routes already have distinct ids.
   */
  lemma AvailableRoutesDistinctIds(r: RouterView)
    ensures r.sdkAtLeast34 && r.preference.Some? ==> Distinct(Ids(AvailableRoutes(r)))
    ensures Distinct(Ids(r.selectedRoutes + r.selectableRoutes)) ==> Distinct(Ids(AvailableRoutes(r)))
  {
    var base := r.selectedRoutes + r.selectableRoutes;
    var merged := MergedTransferable(base, r.transferableRoutes);
    if Distinct(Ids(base)) {
      MergedDistinctIds(base, r.transferableRoutes);
    }
    if r.sdkAtLeast34 {
      if r.preference.Some? {
        var items := Composed(r.preference.value.items);
        var arranged := Arranged(r.selectedRoutes, r.routerAvailableRoutes, items);
        ArrangedDistinctIds(r.selectedRoutes, r.routerAvailableRoutes, items);
        DeduplicatedIsSubsequence(arranged);
        SubsequenceKeepsDistinctIds(Deduplicated(arranged), arranged);
      } else if Distinct(Ids(base)) {
        DeduplicatedIsSubsequence(merged);
        SubsequenceKeepsDistinctIds(Deduplicated(merged), merged);
      }
    }
  }

  /**
    From SDK 34 on without a preference, a route both selected and selectable whose
    deduplication id set is empty survives the filter twice.
   */
  lemma DuplicateRouteExample(a: Route)
    requires a.dedupIds == {}
    ensures AvailableRoutes(RouterView([], [a], [a], [], [], None, true, {})) == [a, a]
  {
    var r := RouterView([], [a], [a], [], [], None, true, {});
    assert MergedTransferable([a] + [a], []) == [a, a];
    assert DedupIdsOf([a]) == {};
    assert Deduplicated([a]) == [a];
    assert [a, a][..1] == [a];
  }

  /** Below SDK 34, routes with different ids that share a deduplication id are both kept. */
  lemma OverlappingDedupBelow34Example(a: Route, b: Route)
    requires a.id != b.id && a.dedupIds == b.dedupIds == {"x"}
    ensures var routes := AvailableRoutes(RouterView([], [a], [b], [], [], None, false, {}));
      routes == [a, b] && !PairwiseDisjoint(routes)
  {
    assert MergedTransferable([a] + [b], []) == [a, b];
    assert "x" in [a, b][0].dedupIds && "x" in [a, b][1].dedupIds;
  }

  /** Two selected routes give two selected devices; the first one becomes the connected device. */
  lemma SeveralSelectedExample()
    ensures
      var session := Session("remote", false, ["A", "B"], [], [], Variable);
      var a := Route("A", RemoteSpeaker, false, {}, "");
      var b := Route("B", RemoteTv, false, {}, "");
      var ds := DeviceList([a, b], session, map[], {});
      |ds| == 2 && ds[0].selected && ds[1].selected && FirstSelected(ds) == Some(ds[0])
  {
    var a := Route("A", RemoteSpeaker, false, {}, "");
    var b := Route("B", RemoteTv, false, {}, "");
    var session := Session("remote", false, ["A", "B"], [], [], Variable);
    assert [a, b][..1] == [a];
    assert [a][..0] == [];
    var da := Device(InfoDevice, a, None, true);
    var db := Device(InfoDevice, b, None, true);
    assert MakeDevice(a, session, map[], {}) == Some(da);
    assert MakeDevice(b, session, map[], {}) == Some(db);
    assert DeviceList([a], session, map[], {}) == [da];
    assert DeviceList([a, b], session, map[], {}) == [da, db];
  }

  // ---------------------------------------------------------------------------------------
  // The manager's state

  class InfoMediaManager {
    const packageName: string
    /** mMediaDevices */
    var devices: seq<Device>
    /** mCurrentConnectedDevice */
    var connected: Option<Device>
    /** mPreferenceItemMap */
    var prefMap: map<string, Item>
    /** The calls issued to the media router, oldest first. */
    var calls: seq<RouterCall>

    /** The connected device is the first selected device of the list. */
    predicate Consistent()
      reads this
    {
      connected == FirstSelected(devices)
    }

    constructor (packageName: string)
      ensures this.packageName == packageName
      ensures devices == [] && connected == None && prefMap == map[] && calls == []
      ensures Consistent()
    {
      this.packageName := packageName;
      devices := [];
      connected := None;
      prefMap := map[];
      calls := [];
    }

    /**
      The component of the preference's linked item. Below SDK 34 with an empty package name
      there is none; otherwise it is the linked component of the preference, if there is one.
     */
    function GetLinkedItemComponentName(r: RouterView): (name: Option<string>)
      ensures !r.sdkAtLeast34 && packageName == "" ==> name.None?
      ensures name.Some? ==> r.preference.Some? && name == r.preference.value.linkedItemComponent
      ensures (r.sdkAtLeast34 || packageName != "") && r.preference.Some? ==>
        name == r.preference.value.linkedItemComponent
    {
      if !r.sdkAtLeast34 && packageName == "" then None
      else Api34Impl.GetLinkedItemComponentName(r.preference)
    }

    method AddMediaDevice(route: Route, r: RouterView)
      requires |r.sessions| > 0
      modifies this`devices, this`connected
      ensures var d := MakeDevice(route, ActiveSession(r.sessions), prefMap, r.knownPeers);
        && devices == old(devices) + OptionToSeq(d)
        && connected == if old(connected).None? && d.Some? && d.value.selected then d else old(connected)
      ensures old(Consistent()) ==> Consistent()
    {
      var category := DeviceCategory(route, r.knownPeers);
      var mediaDevice: Option<Device> := None;
      if category.Some? {
        mediaDevice := Some(Device(category.value, route, Get(prefMap, route.id), false));
      }
      if mediaDevice.Some? && route.id in ActiveSession(r.sessions).selectedIds {
        mediaDevice := Some(mediaDevice.value.(selected := true));
        if connected.None? {
          connected := mediaDevice;
        }
      }
      if mediaDevice.Some? {
        devices := devices + [mediaDevice.value];
      }
      FirstSelectedAppend(old(devices), OptionToSeq(mediaDevice));
    }

    method BuildAvailableRoutes(r: RouterView)
      requires |r.sessions| > 0
      modifies this`devices, this`connected
      ensures var added := DeviceList(AvailableRoutes(r), ActiveSession(r.sessions), prefMap, r.knownPeers);
        && devices == old(devices) + added
        && connected == if old(connected).Some? then old(connected) else FirstSelected(added)
    {
      var routes := GetAvailableRoutes(r);
      ghost var session, peers, items := ActiveSession(r.sessions), r.knownPeers, prefMap;
      ghost var devices0, connected0 := devices, connected;
      ghost var added: seq<Device> := [];
      for i := 0 to |routes|
        invariant prefMap == items
        invariant added == DeviceList(routes[..i], session, items, peers)
        invariant devices == devices0 + added
        invariant connected0.Some? ==> connected == connected0
        invariant connected0.None? ==> connected == FirstSelected(added)
      {
        ghost var d := MakeDevice(routes[i], session, items, peers);
        DeviceListStep(routes, i, session, items, peers);
        ConnectedStep(added, d);
        AppendAssociative(devices0, added, OptionToSeq(d));
        AddMediaDevice(routes[i], r);
        added := added + OptionToSeq(d);
      }
      assert routes[..|routes|] == routes;
    }

    method RebuildDeviceList(r: RouterView)
      requires |r.sessions| > 0
      modifies this`devices, this`connected
      ensures devices == DeviceList(AvailableRoutes(r), ActiveSession(r.sessions), prefMap, r.knownPeers)
      ensures Consistent()
    {
      devices := [];
      connected := None;
      BuildAvailableRoutes(r);
    }

    method RefreshDevices(r: RouterView)
      requires |r.sessions| > 0
      modifies this`devices, this`connected
      ensures devices == DeviceList(AvailableRoutes(r), ActiveSession(r.sessions), prefMap, r.knownPeers)
      ensures Consistent()
    {
      RebuildDeviceList(r);
    }

    /** Clears the preference-item map and refills it from the preference's items. */
    method OnRouteListingPreferenceUpdated(pref: Option<Preference>)
      modifies this`prefMap
      ensures prefMap == PreferenceItemMap(pref)
    {
      prefMap := map[];
      if pref.Some? {
        var items := pref.value.items;
        for i := 0 to |items|
          invariant prefMap == ItemIndex(items[..i])
        {
          assert items[..i + 1][..i] == items[..i];
          prefMap := prefMap[items[i].routeId := items[i]];
        }
        assert items[..|items|] == items;
      }
    }

    method NotifyRouteListingPreferenceUpdated(pref: Option<Preference>)
      modifies this`prefMap
      ensures prefMap == PreferenceItemMap(pref)
    {
      OnRouteListingPreferenceUpdated(pref);
    }

    method UpdateRouteListingPreference(r: RouterView)
      modifies this`prefMap
      ensures prefMap == if r.sdkAtLeast34 then PreferenceItemMap(r.preference) else old(prefMap)
    {
      if r.sdkAtLeast34 {
        OnRouteListingPreferenceUpdated(r.preference);
      }
    }

    method StartScan(r: RouterView)
      requires |r.sessions| > 0
      modifies this`devices, this`connected, this`prefMap, this`calls
      ensures calls == old(calls) + [StartScanOnRouter]
      ensures prefMap == if r.sdkAtLeast34 then PreferenceItemMap(r.preference) else old(prefMap)
      ensures devices == DeviceList(AvailableRoutes(r), ActiveSession(r.sessions), prefMap, r.knownPeers)
      ensures Consistent()
    {
      devices := [];
      calls := calls + [StartScanOnRouter];
      UpdateRouteListingPreference(r);
      RefreshDevices(r);
    }

    /** Selects the device's route in the active session, unless the session cannot select it. */
    method AddDeviceToPlayMedia(device: Device, r: RouterView) returns (added: bool)
      requires |r.sessions| > 0
      modifies this`calls
      ensures added <==> device.route.id in ActiveSession(r.sessions).selectableIds
      ensures calls == old(calls)
        + if added then [SelectRoute(device.route, ActiveSession(r.sessions).id)] else []
    {
      var info := ActiveSession(r.sessions);
      if device.route.id !in info.selectableIds {
        return false;
      }
      calls := calls + [SelectRoute(device.route, info.id)];
      return true;
    }

    /** Deselects the device's route, unless it is not among the session's SELECTED routes. */
    method RemoveDeviceFromPlayMedia(device: Device, r: RouterView) returns (removed: bool)
      requires |r.sessions| > 0
      modifies this`calls
      ensures removed <==> device.route.id in ActiveSession(r.sessions).selectedIds
      ensures calls == old(calls)
        + if removed then [DeselectRoute(device.route, ActiveSession(r.sessions).id)] else []
    {
      var info := ActiveSession(r.sessions);
      if device.route.id !in info.selectedIds {
        return false;
      }
      calls := calls + [DeselectRoute(device.route, info.id)];
      return true;
    }
  }
}
