/**
  The values InfoMediaManager works on: media routes (MediaRoute2Info), routing sessions
  (RoutingSessionInfo), route-listing preferences (RouteListingPreference and its items)
  and the media devices synthesized from routes.
 */
module MediaTypes {
  import opened Wrappers

  /**
    The route types the device switch of addMediaDevice names. `OtherType` stands for any
    type code outside those constants (the switch's default branch).
   */
  datatype RouteType =
    | Unknown | RemoteTv | RemoteSpeaker | Group | RemoteTablet | RemoteTabletDocked
    | RemoteComputer | RemoteGameConsole | RemoteCar | RemoteSmartwatch | RemoteSmartphone
    | BuiltinSpeaker | UsbDevice | UsbHeadset | UsbAccessory | Dock
    | Hdmi | HdmiArc | HdmiEarc | WiredHeadset | WiredHeadphones
    | HearingAid | BluetoothA2dp | BleHeadset
    | RemoteAudioVideoReceiver
    | OtherType(code: int)

  /** A discovered route; `dedupIds` are shared by descriptors of one physical endpoint. */
  datatype Route = Route(
    id: string,
    routeType: RouteType,
    isSystem: bool,
    dedupIds: set<string>,
    address: string)

  /** A RouteListingPreference.Item; `suggested` is its FLAG_SUGGESTED bit. */
  datatype Item = Item(routeId: string, suggested: bool)

  datatype Preference = Preference(
    items: seq<Item>,
    useSystemOrdering: bool,
    linkedItemComponent: Option<string>)

  datatype VolumeHandling = Fixed | Variable

  datatype Session = Session(
    id: string,
    isSystem: bool,
    selectedIds: seq<string>,
    selectableIds: seq<string>,
    deselectableIds: seq<string>,
    volumeHandling: VolumeHandling)

  /** The MediaDevice subclass a route becomes. */
  datatype Category = InfoDevice | PhoneDevice | BluetoothDevice | ComplexDevice

  /** A media device: its kind, its route, the preference item found for it and whether it is selected. */
  datatype Device = Device(category: Category, route: Route, item: Option<Item>, selected: bool)

  /** A call issued to the media router. */
  datatype RouterCall =
    | StartScanOnRouter
    | SelectRoute(route: Route, sessionId: string)
    | DeselectRoute(route: Route, sessionId: string)

  function Ids(rs: seq<Route>): seq<string>
  {
    seq(|rs|, i requires 0 <= i < |rs| => rs[i].id)
  }

  function RoutesOf(ds: seq<Device>): seq<Route>
  {
    seq(|ds|, i requires 0 <= i < |ds| => ds[i].route)
  }

  /** No two routes share a deduplication id. */
  predicate PairwiseDisjoint(rs: seq<Route>)
  {
    forall i, j :: 0 <= i < j < |rs| ==> rs[i].dedupIds !! rs[j].dedupIds
  }
}
