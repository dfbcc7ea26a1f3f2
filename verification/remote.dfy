/** What the calls of a run do to the remote side, as far as the next run can
    see it: the device snapshot and the CCG found by name. The service's own
    behaviour is not part of the script; these definitions state the
    behaviour the script relies on. */
module Remote {
  import opened Types
  import opened Seqs
  import opened Inventory

  datatype State = State(devices: seq<Device>, ccg: Option<Ccg>)

  /** Deleting devices removes every device that carries a listed id. */
  function DropDevices(devices: seq<Device>, ids: seq<DeviceId>): (r: seq<Device>)
    ensures forall d :: d in r <==> d in devices && d.id !in ids
  {
    if |devices| == 0 then []
    else
      assert devices == [devices[0]] + devices[1..];
      (if devices[0].id in ids then [] else [devices[0]]) + DropDevices(devices[1..], ids)
  }

  /** Deleting never adds a device under any hostname. */
  lemma {:induction false} DropDevicesCount(devices: seq<Device>, ids: seq<DeviceId>, h: string)
    ensures Count(DropDevices(devices, ids), h) <= Count(devices, h)
  {
    if |devices| > 0 {
      DropDevicesCount(devices[1..], ids, h);
      var rest := DropDevices(devices[1..], ids);
      if devices[0].id in ids {
        assert DropDevices(devices, ids) == rest;
      } else {
        assert DropDevices(devices, ids) == [devices[0]] + rest;
        assert ([devices[0]] + rest)[1..] == rest;
      }
    }
  }

  /** Unmanaging a device changes its admin state and nothing else. */
  function Mark(d: Device, ids: seq<DeviceId>): Device {
    if d.id in ids then d.(adminState := Unmanaged) else d
  }

  function MarkUnmanaged(devices: seq<Device>, ids: seq<DeviceId>): (r: seq<Device>)
    ensures |r| == |devices|
    ensures forall i :: 0 <= i < |r| ==> r[i] == Mark(devices[i], ids)
  {
    if |devices| == 0 then [] else [Mark(devices[0], ids)] + MarkUnmanaged(devices[1..], ids)
  }

  /** Unmanaging keeps every hostname count. */
  lemma {:induction false} MarkUnmanagedCount(devices: seq<Device>, ids: seq<DeviceId>, h: string)
    ensures Count(MarkUnmanaged(devices, ids), h) == Count(devices, h)
  {
    if |devices| > 0 {
      MarkUnmanagedCount(devices[1..], ids, h);
      var r := MarkUnmanaged(devices, ids);
      assert r[1..] == MarkUnmanaged(devices[1..], ids);
    }
  }

  /** One call. A deleted device also leaves the CCG's membership; the CCG
      calls act on the CCG only when the id matches; a created CCG gets the
      id `newId` the service hands out. */
  function Apply(s: State, a: Action, newId: int): State {
    match a
    case DeleteDevices(ids) =>
      var ccg := match s.ccg
        case None => None
        case Some(g) => Some(g.(deviceIds := Without(g.deviceIds, ids)));
      State(DropDevices(s.devices, ids), ccg)
    case Unmanage(ids) => s.(devices := MarkUnmanaged(s.devices, ids))
    case CreateCcg(name, _, ids) => s.(ccg := Some(Ccg(newId, name, ids)))
    case UpdateCcg(id, ids) =>
      if s.ccg.Some? && s.ccg.value.id == id then s.(ccg := Some(s.ccg.value.(deviceIds := ids))) else s
    case DeleteCcg(id) =>
      if s.ccg.Some? && s.ccg.value.id == id then s.(ccg := None) else s
  }

  /** The calls of a run, in order. */
  function ApplyAll(s: State, actions: seq<Action>, newId: int): State
    decreases |actions|
  {
    if |actions| == 0 then s else ApplyAll(Apply(s, actions[0], newId), actions[1..], newId)
  }

  lemma {:induction false} ApplyAllAppend(s: State, a: seq<Action>, b: seq<Action>, newId: int)
    ensures ApplyAll(s, a + b, newId) == ApplyAll(ApplyAll(s, a, newId), b, newId)
    decreases |a|
  {
    if |a| == 0 {
      assert a + b == b;
    } else {
      assert (a + b)[0] == a[0];
      assert (a + b)[1..] == a[1..] + b;
      ApplyAllAppend(Apply(s, a[0], newId), a[1..], b, newId);
    }
  }

  /** Unmanaging and then creating or updating the CCG changes the devices
      only by the unmanage. */
  lemma QuarantineDevices(s: State, c: seq<DeviceId>, group: Action, newId: int)
    requires group.CreateCcg? || group.UpdateCcg?
    ensures ApplyAll(s, [Unmanage(c), group], newId).devices == MarkUnmanaged(s.devices, c)
  {
    var u := Apply(s, Unmanage(c), newId);
    assert [Unmanage(c), group][1..] == [group];
    assert ApplyAll(s, [Unmanage(c), group], newId) == ApplyAll(u, [group], newId);
    assert ApplyAll(u, [group], newId) == ApplyAll(Apply(u, group, newId), [], newId);
  }

  /** Deleting CCGs leaves the devices alone. */
  lemma {:induction false} GroupCallsKeepDevices(s: State, actions: seq<Action>, newId: int)
    requires forall a :: a in actions ==> a.DeleteCcg?
    ensures ApplyAll(s, actions, newId).devices == s.devices
    decreases |actions|
  {
    if |actions| > 0 {
      assert actions[0] in actions;
      GroupCallsKeepDevices(Apply(s, actions[0], newId), actions[1..], newId);
    }
  }

  lemma ApplyOne(s: State, a: Action, newId: int)
    ensures ApplyAll(s, [a], newId) == Apply(s, a, newId)
  {
    assert ApplyAll(s, [a], newId) == ApplyAll(Apply(s, a, newId), [], newId);
  }

  lemma ApplyTwo(s: State, a: Action, b: Action, newId: int)
    ensures ApplyAll(s, [a, b], newId) == Apply(Apply(s, a, newId), b, newId)
  {
    assert [a, b][1..] == [b];
    ApplyOne(Apply(s, a, newId), b, newId);
  }

  /** The CCG after the calls of the quarantine branch. */
  lemma CreatedGroup(s: State, c: seq<DeviceId>, name: string, description: string, newId: int)
    ensures ApplyAll(s, [Unmanage(c), CreateCcg(name, description, c)], newId).ccg == Some(Ccg(newId, name, c))
  {
    ApplyTwo(s, Unmanage(c), CreateCcg(name, description, c), newId);
  }

  lemma UpdatedGroup(s: State, c: seq<DeviceId>, g: Ccg, ids: seq<DeviceId>, newId: int)
    requires s.ccg == Some(g)
    ensures ApplyAll(s, [Unmanage(c), UpdateCcg(g.id, ids)], newId).ccg == Some(g.(deviceIds := ids))
  {
    ApplyTwo(s, Unmanage(c), UpdateCcg(g.id, ids), newId);
  }

  lemma DeletedGroup(s: State, g: Ccg, newId: int)
    requires s.ccg == Some(g)
    ensures ApplyAll(s, [DeleteCcg(g.id)], newId).ccg == None
  {
    ApplyOne(s, DeleteCcg(g.id), newId);
  }

  /** The devices after the calls that follow the batch delete: either an
      unmanage of `c` and one CCG call, or CCG deletes only. */
  lemma SettleCallsDevices(s: State, actions: seq<Action>, c: seq<DeviceId>, marked: bool, newId: int)
    requires marked ==> |actions| == 2 && actions[0] == Unmanage(c) && (actions[1].CreateCcg? || actions[1].UpdateCcg?)
    requires !marked ==> forall a :: a in actions ==> a.DeleteCcg?
    ensures ApplyAll(s, actions, newId).devices == if marked then MarkUnmanaged(s.devices, c) else s.devices
  {
    if marked {
      assert actions == [Unmanage(c), actions[1]];
      QuarantineDevices(s, c, actions[1], newId);
    } else {
      GroupCallsKeepDevices(s, actions, newId);
    }
  }
}
