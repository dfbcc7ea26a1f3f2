/** Entities of one reconciliation run: the device snapshot, the expiration
    store, the "MarkedAsReplaced" device group (CCG) and the remote calls the
    run issues. */
module Types {

  type DeviceId = int

  /** Administrative state of a device as reported by the management cloud.
      `Managed` is the string "MANAGED", the one value the comparison of
      line 131 accepts, and `Unmanaged` is "UNMANAGED"; `OtherState` carries
      any other reported string and never one of those two (see
      `AdminStateOf`). */
  datatype AdminState = Managed | Unmanaged | OtherState(name: string)

  /** The reported string as an admin state. */
  function AdminStateOf(s: string): (a: AdminState)
    ensures a == Managed <==> s == "MANAGED"
    ensures a == Unmanaged <==> s == "UNMANAGED"
    ensures a.OtherState? ==> a.name == s && s != "MANAGED" && s != "UNMANAGED"
  {
    if s == "MANAGED" then Managed
    else if s == "UNMANAGED" then Unmanaged
    else OtherState(s)
  }

  /** One row of the device snapshot. */
  datatype Device = Device(id: DeviceId, hostname: string, connected: bool, adminState: AdminState)

  /** One entry of the expiration store file; times are epoch seconds. */
  datatype Record = Record(deviceId: DeviceId, addedTime: int, expireAt: int)

  /** The cloud config group used to collect quarantined devices. */
  datatype Ccg = Ccg(id: int, name: string, deviceIds: seq<DeviceId>)

  datatype Option<T> = None | Some(value: T)

  /** The kinds of remote call a run can make; each is made at most once. */
  datatype Call = DeleteDevicesCall | UnmanageCall | CreateCcgCall | UpdateCcgCall | DeleteCcgCall

  /** A remote call together with its payload. */
  datatype Action =
    | DeleteDevices(ids: seq<DeviceId>)
    | Unmanage(ids: seq<DeviceId>)
    | CreateCcg(name: string, description: string, ids: seq<DeviceId>)
    | UpdateCcg(ccgId: int, ids: seq<DeviceId>)
    | DeleteCcg(ccgId: int)
  {
    function CallOf(): Call {
      match this
      case DeleteDevices(_) => DeleteDevicesCall
      case Unmanage(_) => UnmanageCall
      case CreateCcg(_, _, _) => CreateCcgCall
      case UpdateCcg(_, _) => UpdateCcgCall
      case DeleteCcg(_) => DeleteCcgCall
    }
  }

  /** How a run ends: it completes, it stops on a remote call that fails, or
      it crashes on the CCG membership update of line 101, which fails when
      devices expired but no CCG was found. */
  datatype Status = Completed | Aborted(call: Call) | Crashed

  /** Everything one run reads: the snapshot, the CCG lookup, the store file,
      the two timestamps and which remote calls would fail. */
  datatype Input = Input(
    devices: seq<Device>,
    ccg: Option<Ccg>,
    store: seq<Record>,
    now: int,
    expireTime: int,
    failing: set<Call>)

  /** What one run does: the remote calls in order, the store file contents
      after the run, whether the file was rewritten, the CCG members reported
      as untracked, and how the run ended. */
  datatype Outcome = Outcome(
    actions: seq<Action>,
    store: seq<Record>,
    written: bool,
    untracked: seq<DeviceId>,
    status: Status)

  const GroupName: string := "MarkedAsReplaced"
  const GroupDescription: string := "CCG for Unmanaged Duplicate APs"
}
