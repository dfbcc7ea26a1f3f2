/** One run of the duplicate check as a pure function from what the run reads
    to what it does (XIQ_Duplicate_AP_Check.py lines 54-223). */
module Reconcile {
  import opened Types
  import opened Seqs
  import opened Inventory
  import opened Expiry

  /** One store record per id, stamped with the run's timestamps. */
  function NewRecords(ids: seq<DeviceId>, now: int, expireTime: int): (r: seq<Record>)
    ensures RecordIds(r) == ids
    ensures forall rec :: rec in r ==> rec.addedTime == now && rec.expireAt == expireTime
  {
    if |ids| == 0 then []
    else
      var rest := NewRecords(ids[1..], now, expireTime);
      assert ([Record(ids[0], now, expireTime)] + rest)[1..] == rest;
      [Record(ids[0], now, expireTime)] + rest
  }

  /** CCG members that no store record tracks. */
  function Untracked(members: seq<DeviceId>, store: seq<Record>): (r: seq<DeviceId>)
    ensures forall x :: x in r <==> x in members && !exists rec :: rec in store && rec.deviceId == x
    ensures forall x :: multiset(r)[x] <= multiset(members)[x]
  {
    Without(members, RecordIds(store))
  }

  /** The expiry pass as this run performs it. */
  function PassOf(inp: Input): Pass {
    ExpiryPass(inp.store, Ids(inp.devices), inp.now)
  }

  predicate AnyDue(inp: Input) {
    exists rec :: rec in inp.store && Due(inp.store, Ids(inp.devices), inp.now, rec.deviceId)
  }

  predicate AnyGone(inp: Input) {
    exists rec :: rec in inp.store && Gone(inp.store, Ids(inp.devices), rec.deviceId)
  }

  lemma PassLists(inp: Input)
    ensures |PassOf(inp).expired| > 0 <==> AnyDue(inp)
    ensures |PassOf(inp).vanished| > 0 <==> AnyGone(inp)
  {
    var p := PassOf(inp);
    var present := Ids(inp.devices);
    if |p.expired| > 0 {
      assert Due(inp.store, present, inp.now, p.expired[0]);
    }
    if AnyDue(inp) {
      var rec :| rec in inp.store && Due(inp.store, present, inp.now, rec.deviceId);
      assert rec.deviceId in p.expired;
    }
    if |p.vanished| > 0 {
      assert Gone(inp.store, present, p.vanished[0]);
    }
    if AnyGone(inp) {
      var rec :| rec in inp.store && Gone(inp.store, present, rec.deviceId);
      assert rec.deviceId in p.vanished;
    }
  }

  /** The CCG's `device_ids` once the expired ids are taken out; empty when
      no CCG was found. */
  function GroupMembers(inp: Input): (m: seq<DeviceId>)
    ensures inp.ccg.None? ==> m == []
    ensures inp.ccg.Some? ==>
              forall x :: multiset(m)[x] ==
                            if Due(inp.store, Ids(inp.devices), inp.now, x) then 0
                            else multiset(inp.ccg.value.deviceIds)[x]
    ensures inp.ccg.Some? ==>
              forall x :: x in m <==>
                            x in inp.ccg.value.deviceIds && !Due(inp.store, Ids(inp.devices), inp.now, x)
  {
    var expired := PassOf(inp).expired;
    match inp.ccg
    case None => []
    case Some(g) =>
      if |expired| > 0 then Without(g.deviceIds, expired)
      else
        PassLists(inp);
        g.deviceIds
  }

  /** The run stops: no store write. The branches below return only the calls
      they make themselves; `Run` puts the batch delete in front. */
  function Halt(inp: Input, actions: seq<Action>, status: Status): Outcome {
    Outcome(actions, inp.store, false, [], status)
  }

  /** Lines 108-122: no hostname occurs twice. */
  function NoDuplicates(inp: Input): (o: Outcome)
    ensures forall a :: a in o.actions ==> !a.DeleteDevices?
    ensures !o.written && o.store == inp.store
    ensures o.status == Completed || o.status == Aborted(DeleteCcgCall)
  {
    var members := GroupMembers(inp);
    if inp.ccg.Some? && |members| == 0 then
      var acts := [DeleteCcg(inp.ccg.value.id)];
      if DeleteCcgCall in inp.failing then Halt(inp, acts, Aborted(DeleteCcgCall))
      else Halt(inp, acts, Completed)
    else Halt(inp, [], Completed)
  }

  /** Lines 134-194: unmanage the candidates, then create or extend the CCG
      and record the newly grouped ids in the store. */
  function Quarantine(inp: Input, cands: seq<DeviceId>): (o: Outcome)
    ensures forall a :: a in o.actions ==> !a.DeleteDevices?
    ensures o.written <==> o.status == Completed
    ensures !o.written ==> o.store == inp.store
    ensures !o.status.Crashed?
  {
    var p := PassOf(inp);
    var unmanage := [Unmanage(cands)];
    if UnmanageCall in inp.failing then Halt(inp, unmanage, Aborted(UnmanageCall))
    else
      match inp.ccg
      case None =>
        var acts := unmanage + [CreateCcg(GroupName, GroupDescription, cands)];
        if CreateCcgCall in inp.failing then Halt(inp, acts, Aborted(CreateCcgCall))
        else Outcome(acts, p.store + NewRecords(cands, inp.now, inp.expireTime), true, [], Completed)
      case Some(g) =>
        var members := GroupMembers(inp);
        var ids := Extend(members, cands);
        var acts := unmanage + [UpdateCcg(g.id, ids)];
        if UpdateCcgCall in inp.failing then Halt(inp, acts, Aborted(UpdateCcgCall))
        else Outcome(acts, p.store + NewRecords(ids[|members|..], inp.now, inp.expireTime), true, [], Completed)
  }

  /** Lines 196-217: duplicates exist but none is offline and managed. */
  function NoCandidates(inp: Input): (o: Outcome)
    ensures forall a :: a in o.actions ==> !a.DeleteDevices?
    ensures o.written ==> o.status == Completed
    ensures !o.written ==> o.store == inp.store
    ensures !o.status.Crashed?
  {
    var p := PassOf(inp);
    var members := GroupMembers(inp);
    match inp.ccg
    case Some(g) =>
      if |members| > 0 then Outcome([], p.store, p.changed, Untracked(members, p.store), Completed)
      else
        var acts := [DeleteCcg(g.id)];
        if DeleteCcgCall in inp.failing then Halt(inp, acts, Aborted(DeleteCcgCall))
        else Outcome(acts, p.store, p.changed, [], Completed)
    case None => Outcome([], p.store, p.changed, [], Completed)
  }

  /** Lines 108-217: everything after the expiry pass. */
  function Settle(inp: Input): (o: Outcome)
    ensures o.written ==> o.status == Completed
    ensures !o.written ==> o.store == inp.store
    ensures !o.status.Crashed?
    ensures forall a :: a in o.actions ==> !a.DeleteDevices?
  {
    if |DuplicatedRows(inp.devices)| == 0 then NoDuplicates(inp)
    else
      var cands := Candidates(inp.devices);
      if |cands| > 0 then Quarantine(inp, cands) else NoCandidates(inp)
  }

  /** The batch delete of line 94, when anything expired. */
  function Deletes(inp: Input): seq<Action> {
    var expired := PassOf(inp).expired;
    if |expired| > 0 then [DeleteDevices(expired)] else []
  }

  /** One run of the script. */
  function Run(inp: Input): (o: Outcome)
    ensures o.written ==> o.status == Completed
    ensures !o.written ==> o.store == inp.store
    ensures o.status == Crashed <==> inp.ccg.None? && AnyDue(inp) && DeleteDevicesCall !in inp.failing
  {
    var p := PassOf(inp);
    PassLists(inp);
    var deletes := Deletes(inp);
    if |p.expired| > 0 && DeleteDevicesCall in inp.failing then Halt(inp, deletes, Aborted(DeleteDevicesCall))
    else if |p.expired| > 0 && inp.ccg.None? then Halt(inp, deletes, Crashed)
    else
      var rest := Settle(inp);
      rest.(actions := deletes + rest.actions)
  }
}
