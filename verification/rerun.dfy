/** Running the check a second time, right after a completed run and against
    the remote state that run left behind, does nothing: no call, no store
    write. */
module Rerun {
  import opened Types
  import opened Seqs
  import opened Inventory
  import opened Expiry
  import opened Reconcile
  import opened Properties
  import opened Remote

  function Start(inp: Input): State {
    State(inp.devices, inp.ccg)
  }

  /** The remote state once the run's calls have gone through. */
  function After(inp: Input, newId: int): State {
    ApplyAll(Start(inp), Run(inp).actions, newId)
  }

  /** What the next run reads: the remote state left behind, the store file
      as written, and the same clock. */
  function Next(inp: Input, newId: int): Input {
    var t := After(inp, newId);
    Input(t.devices, t.ccg, Run(inp).store, inp.now, inp.expireTime, inp.failing)
  }

  /** Devices the store tracks are not managed: the state a quarantine leaves
      them in, unless someone managed them again by hand. */
  predicate QuarantineHolds(inp: Input) {
    forall rec, d :: rec in inp.store && d in inp.devices && d.id == rec.deviceId ==> d.adminState != Managed
  }

  /** `d'` is a device of the snapshot, under the same id, hostname and
      connection state, that was not due, and that is managed only if it was
      managed before and is not among `c`. */
  predicate Descends(inp: Input, c: seq<DeviceId>, d': Device) {
    exists d :: d in inp.devices && d.id == d'.id && d.hostname == d'.hostname
      && d.connected == d'.connected && !IsDue(inp, d.id)
      && (d'.adminState == Managed ==> d.adminState == Managed && d.id !in c)
  }

  /** A completed run got past the batch delete. */
  lemma CompletedPasses(inp: Input)
    requires Run(inp).status == Completed
    ensures PassesExpiry(inp)
  {
    PassLists(inp);
  }

  /** The calls a completed run makes after the batch delete. */
  lemma SettleCalls(inp: Input)
    requires Run(inp).status == Completed
    ensures var s := Settle(inp).actions; var c := Candidates(inp.devices); var post := GroupMembers(inp);
      && (HasDuplicates(inp.devices) && HasCandidates(inp.devices) && inp.ccg.None? ==>
            s == [Unmanage(c), CreateCcg(GroupName, GroupDescription, c)])
      && (HasDuplicates(inp.devices) && HasCandidates(inp.devices) && inp.ccg.Some? ==>
            s == [Unmanage(c), UpdateCcg(inp.ccg.value.id, Extend(post, c))])
      && (!(HasDuplicates(inp.devices) && HasCandidates(inp.devices)) && inp.ccg.Some? && |post| == 0 ==>
            s == [DeleteCcg(inp.ccg.value.id)])
      && (!(HasDuplicates(inp.devices) && HasCandidates(inp.devices)) && !(inp.ccg.Some? && |post| == 0) ==>
            s == [])
  {
    CompletedPasses(inp);
    RunShape(inp);
    SettleBranch(inp);
    var c := Candidates(inp.devices);
    assert Settle(inp).status == Completed;
    if !HasDuplicates(inp.devices) {
    } else if HasCandidates(inp.devices) {
      if inp.ccg.None? {
        QuarantineCreate(inp, c);
      } else {
        assert UnmanageCall !in inp.failing && UpdateCcgCall !in inp.failing;
        QuarantineUpdate(inp, c);
      }
    } else {
      NoCandidatesShape(inp);
    }
  }

  lemma AfterSplit(inp: Input, newId: int)
    requires Run(inp).status == Completed
    ensures After(inp, newId) == ApplyAll(ApplyAll(Start(inp), Deletes(inp), newId), Settle(inp).actions, newId)
  {
    CompletedPasses(inp);
    RunShape(inp);
    ApplyAllAppend(Start(inp), Deletes(inp), Settle(inp).actions, newId);
  }

  /** The batch delete removes exactly the due devices, and with them the due
      members of the CCG. */
  lemma DeletesEffect(inp: Input, newId: int)
    requires PassesExpiry(inp)
    ensures var t := ApplyAll(Start(inp), Deletes(inp), newId);
      && t.ccg == (match inp.ccg case None => None case Some(g) => Some(g.(deviceIds := GroupMembers(inp))))
      && (forall d :: d in t.devices <==> d in inp.devices && !IsDue(inp, d.id))
      && (forall h :: Count(t.devices, h) <= Count(inp.devices, h))
  {
    var p := PassOf(inp);
    var t := ApplyAll(Start(inp), Deletes(inp), newId);
    BatchState(inp, newId);
    assert forall x :: x in p.expired <==> IsDue(inp, x);
    forall h | true
      ensures Count(t.devices, h) <= Count(inp.devices, h)
    {
      if |p.expired| > 0 {
        DropDevicesCount(inp.devices, p.expired, h);
      }
    }
  }

  /** The state after the batch delete. */
  lemma BatchState(inp: Input, newId: int)
    requires PassesExpiry(inp)
    ensures var p := PassOf(inp); var t := ApplyAll(Start(inp), Deletes(inp), newId);
      && t.devices == (if |p.expired| > 0 then DropDevices(inp.devices, p.expired) else inp.devices)
      && t.ccg == (match inp.ccg case None => None case Some(g) => Some(g.(deviceIds := GroupMembers(inp))))
  {
    var p := PassOf(inp);
    PassLists(inp);
    if |p.expired| > 0 {
      var t := Apply(Start(inp), DeleteDevices(p.expired), newId);
      assert ApplyAll(Start(inp), Deletes(inp), newId) == ApplyAll(t, [], newId);
    }
  }

  /** After the batch delete, only the candidates' admin state changes. */
  lemma SettleDevices(inp: Input, newId: int)
    requires Run(inp).status == Completed
    ensures var mid := ApplyAll(Start(inp), Deletes(inp), newId);
      After(inp, newId).devices ==
        if HasCandidates(inp.devices) then MarkUnmanaged(mid.devices, Candidates(inp.devices)) else mid.devices
  {
    AfterSplit(inp, newId);
    SettleShape(inp);
    var mid := ApplyAll(Start(inp), Deletes(inp), newId);
    SettleCallsDevices(mid, Settle(inp).actions, Candidates(inp.devices), HasCandidates(inp.devices), newId);
  }

  /** The calls after the batch delete, as far as the devices are concerned. */
  lemma SettleShape(inp: Input)
    requires Run(inp).status == Completed
    ensures var s := Settle(inp).actions;
      && (HasCandidates(inp.devices) ==>
            |s| == 2 && s[0] == Unmanage(Candidates(inp.devices)) && (s[1].CreateCcg? || s[1].UpdateCcg?))
      && (!HasCandidates(inp.devices) ==> forall a :: a in s ==> a.DeleteCcg?)
  {
    CandidatesAreDuplicates(inp.devices);
    SettleCalls(inp);
    CallsShape(Settle(inp).actions, Candidates(inp.devices), HasDuplicates(inp.devices), HasCandidates(inp.devices),
      inp.ccg, GroupMembers(inp));
  }

  lemma CallsShape(s: seq<Action>, c: seq<DeviceId>, dup: bool, cand: bool, ccg: Option<Ccg>, post: seq<DeviceId>)
    requires cand ==> dup
    requires dup && cand && ccg.None? ==> s == [Unmanage(c), CreateCcg(GroupName, GroupDescription, c)]
    requires dup && cand && ccg.Some? ==> s == [Unmanage(c), UpdateCcg(ccg.value.id, Extend(post, c))]
    requires !(dup && cand) && ccg.Some? && |post| == 0 ==> s == [DeleteCcg(ccg.value.id)]
    requires !(dup && cand) && !(ccg.Some? && |post| == 0) ==> s == []
    ensures cand ==> |s| == 2 && s[0] == Unmanage(c) && (s[1].CreateCcg? || s[1].UpdateCcg?)
    ensures !cand ==> forall a :: a in s ==> a.DeleteCcg?
  {
  }

  /** Every device left behind was in the snapshot under the same id,
      hostname and connection state, was not due, and is still managed only
      if it was managed and not a candidate. */
  lemma DevicesAfterRun(inp: Input, newId: int)
    requires Run(inp).status == Completed
    ensures forall d' :: d' in After(inp, newId).devices ==>
              Descends(inp, Candidates(inp.devices), d')
  {
    var mid := ApplyAll(Start(inp), Deletes(inp), newId).devices;
    var t := After(inp, newId).devices;
    var c := Candidates(inp.devices);
    var marked := HasCandidates(inp.devices);
    assert forall d :: d in mid <==> d in inp.devices && !IsDue(inp, d.id) by {
      CompletedPasses(inp);
      DeletesEffect(inp, newId);
    }
    assert forall h :: Count(mid, h) <= Count(inp.devices, h) by {
      CompletedPasses(inp);
      DeletesEffect(inp, newId);
    }
    assert t == if marked then MarkUnmanaged(mid, c) else mid by {
      SettleDevices(inp, newId);
    }
    Survivors(inp, mid, c, marked, t);
  }

  /** Every device that was not due is still there. */
  lemma NotDueRemain(inp: Input, newId: int)
    requires Run(inp).status == Completed
    ensures forall d :: d in inp.devices && !IsDue(inp, d.id) ==> d.id in Ids(After(inp, newId).devices)
  {
    CompletedPasses(inp);
    DeletesEffect(inp, newId);
    SettleDevices(inp, newId);
    var mid := ApplyAll(Start(inp), Deletes(inp), newId);
    Survivors(inp, mid.devices, Candidates(inp.devices), HasCandidates(inp.devices), After(inp, newId).devices);
  }

  /** No hostname gains a device. */
  lemma CountsAfterRun(inp: Input, newId: int)
    requires Run(inp).status == Completed
    ensures forall h :: Count(After(inp, newId).devices, h) <= Count(inp.devices, h)
  {
    CompletedPasses(inp);
    DeletesEffect(inp, newId);
    SettleDevices(inp, newId);
    var mid := ApplyAll(Start(inp), Deletes(inp), newId);
    Survivors(inp, mid.devices, Candidates(inp.devices), HasCandidates(inp.devices), After(inp, newId).devices);
  }

  /** The device facts above, for the devices `mid` the batch delete leaves
      and an optional unmanage of `c` after it. */
  lemma Survivors(inp: Input, mid: seq<Device>, c: seq<DeviceId>, marked: bool, t: seq<Device>)
    requires forall d :: d in mid <==> d in inp.devices && !IsDue(inp, d.id)
    requires forall h :: Count(mid, h) <= Count(inp.devices, h)
    requires t == if marked then MarkUnmanaged(mid, c) else mid
    requires !marked ==> |c| == 0
    ensures forall d' :: d' in t ==> Descends(inp, c, d')
    ensures forall d :: d in inp.devices && !IsDue(inp, d.id) ==> d.id in Ids(t)
    ensures forall h :: Count(t, h) <= Count(inp.devices, h)
  {
    forall d' | d' in t
      ensures Descends(inp, c, d')
    {
      var i :| 0 <= i < |t| && t[i] == d';
      var d := mid[i];
      assert d in mid;
    }
    forall d | d in inp.devices && !IsDue(inp, d.id)
      ensures d.id in Ids(t)
    {
      assert d in mid;
      var i :| 0 <= i < |mid| && mid[i] == d;
      IdsMember(t, t[i]);
    }
    if marked {
      forall h | true
        ensures Count(t, h) <= Count(inp.devices, h)
      {
        MarkUnmanagedCount(mid, c, h);
      }
    }
  }

  /** A completed run never leaves the CCG existing with no member. */
  lemma GroupNeverLeftEmpty(inp: Input, newId: int)
    requires Run(inp).status == Completed
    ensures var g := After(inp, newId).ccg; g.Some? ==> |g.value.deviceIds| > 0
  {
    var mid := ApplyAll(Start(inp), Deletes(inp), newId);
    var s := Settle(inp).actions;
    var c := Candidates(inp.devices);
    var post := GroupMembers(inp);
    assert mid.ccg == (match inp.ccg case None => None case Some(g) => Some(g.(deviceIds := post))) by {
      CompletedPasses(inp);
      DeletesEffect(inp, newId);
    }
    assert After(inp, newId) == ApplyAll(mid, s, newId) by {
      AfterSplit(inp, newId);
    }
    if HasDuplicates(inp.devices) && HasCandidates(inp.devices) {
      assert |c| > 0;
      if inp.ccg.None? {
        assert s == [Unmanage(c), CreateCcg(GroupName, GroupDescription, c)] by {
          SettleCalls(inp);
        }
        CreatedGroup(mid, c, GroupName, GroupDescription, newId);
      } else {
        var g := inp.ccg.value.(deviceIds := post);
        var ids := Extend(post, c);
        assert s == [Unmanage(c), UpdateCcg(g.id, ids)] by {
          SettleCalls(inp);
        }
        UpdatedGroup(mid, c, g, ids, newId);
      }
    } else if inp.ccg.Some? && |post| == 0 {
      var g := inp.ccg.value.(deviceIds := post);
      assert s == [DeleteCcg(g.id)] by {
        SettleCalls(inp);
      }
      DeletedGroup(mid, g, newId);
    } else {
      assert s == [] by {
        SettleCalls(inp);
      }
    }
  }

  /** A record this run stamps: a candidate's id with this run's deadline. */
  predicate Stamped(inp: Input, rec: Record) {
    rec.deviceId in Candidates(inp.devices) && rec.expireAt == inp.expireTime
  }

  /** Every record of the store file after a completed run was already in
      it, or is a new one for a candidate; once there are duplicates, the old
      ones are among the records the expiry pass kept. */
  lemma StoreAfterRun(inp: Input)
    requires Run(inp).status == Completed
    ensures forall rec :: rec in Run(inp).store ==>
              (rec in inp.store && (HasDuplicates(inp.devices) ==> rec in PassOf(inp).store))
              || Stamped(inp, rec)
  {
    CompletedPasses(inp);
    if !HasDuplicates(inp.devices) {
      RunNoDuplicates(inp);
    } else if !HasCandidates(inp.devices) {
      StoreKept(inp);
    } else {
      var ids := StoreStamps(inp);
      StampedAfterPass(inp, Run(inp).store, ids);
    }
  }

  /** With candidates, a completed run writes the records the expiry pass
      kept followed by new records for some of the candidates. */
  lemma StoreStamps(inp: Input) returns (ids: seq<DeviceId>)
    requires Run(inp).status == Completed && HasCandidates(inp.devices)
    ensures Run(inp).store == PassOf(inp).store + NewRecords(ids, inp.now, inp.expireTime)
    ensures forall x :: x in ids ==> x in Candidates(inp.devices)
  {
    if inp.ccg.None? {
      StoreCreated(inp);
      ids := Candidates(inp.devices);
    } else {
      ids := StoreUpdated(inp);
    }
  }

  /** With duplicates and no candidate, a completed run writes back the
      records the expiry pass kept. */
  lemma StoreKept(inp: Input)
    requires Run(inp).status == Completed && HasDuplicates(inp.devices) && !HasCandidates(inp.devices)
    ensures Run(inp).store == PassOf(inp).store
  {
    CompletedPasses(inp);
    RunNoCandidatesShape(inp);
    NoCandidatesKeeps(inp);
  }

  lemma NoCandidatesKeeps(inp: Input)
    ensures NoCandidates(inp).status == Completed ==> NoCandidates(inp).store == PassOf(inp).store
  {
    NoCandidatesShape(inp);
  }

  lemma StoreCreated(inp: Input)
    requires Run(inp).status == Completed && HasCandidates(inp.devices) && inp.ccg.None?
    ensures Run(inp).store == PassOf(inp).store + NewRecords(Candidates(inp.devices), inp.now, inp.expireTime)
  {
    CompletedPasses(inp);
    RunCreatesGroup(inp);
  }

  lemma StoreUpdated(inp: Input) returns (ids: seq<DeviceId>)
    requires Run(inp).status == Completed && HasCandidates(inp.devices) && inp.ccg.Some?
    ensures Run(inp).store == PassOf(inp).store + NewRecords(ids, inp.now, inp.expireTime)
    ensures forall x :: x in ids ==> x in Candidates(inp.devices)
  {
    CompletedPasses(inp);
    assert UnmanageCall !in inp.failing && UpdateCcgCall !in inp.failing by {
      RunShape(inp);
      SettleBranch(inp);
    }
    RunUpdatesGroup(inp);
    var post := GroupMembers(inp);
    ids := Extend(post, Candidates(inp.devices))[|post|..];
  }

  /** Kept records followed by new records for candidates. */
  lemma StampedAfterPass(inp: Input, store: seq<Record>, ids: seq<DeviceId>)
    requires store == PassOf(inp).store + NewRecords(ids, inp.now, inp.expireTime)
    requires forall x :: x in ids ==> x in Candidates(inp.devices)
    ensures forall rec :: rec in store ==> (rec in inp.store && rec in PassOf(inp).store) || Stamped(inp, rec)
  {
    var stamped := NewRecords(ids, inp.now, inp.expireTime);
    forall rec | rec in stamped
      ensures Stamped(inp, rec)
    {
      assert rec.deviceId in RecordIds(stamped);
    }
  }

  /** A run with nothing due, no candidate, a CCG (if any) with members, and
      (when there are duplicates) no vanished record makes no call and does
      not write the store. */
  lemma QuietRun(inp: Input)
    requires !AnyDue(inp) && !HasCandidates(inp.devices)
    requires HasDuplicates(inp.devices) ==> !AnyGone(inp)
    requires inp.ccg.Some? ==> |inp.ccg.value.deviceIds| > 0
    ensures Run(inp).actions == [] && !Run(inp).written
  {
    RunSaveRule(inp);
    PassLists(inp);
    RunShape(inp);
    assert Deletes(inp) == [];
    SettleBranch(inp);
    if inp.ccg.Some? {
      MembersEmpty(inp);
      assert !IsDue(inp, inp.ccg.value.deviceIds[0]);
    }
    if HasDuplicates(inp.devices) {
      NoCandidatesShape(inp);
    }
  }

  /** Nothing is due on the next run: the due devices are gone and every new
      record expires later than now. */
  lemma NextNothingDue(inp: Input, newId: int)
    requires Run(inp).status == Completed && inp.now < inp.expireTime
    ensures !AnyDue(Next(inp, newId))
  {
    var nxt := Next(inp, newId);
    assert forall rec :: rec in nxt.store ==> rec in inp.store || rec.expireAt == inp.expireTime by {
      StoreAfterRun(inp);
    }
    DevicesAfterRun(inp, newId);
    NothingDueAmong(inp, Candidates(inp.devices), nxt.store, nxt.devices);
  }

  /** Records that are old or expire later than now, over devices that were
      not due: none of them is due. */
  lemma NothingDueAmong(inp: Input, c: seq<DeviceId>, store: seq<Record>, t: seq<Device>)
    requires inp.now < inp.expireTime
    requires forall rec :: rec in store ==> rec in inp.store || rec.expireAt == inp.expireTime
    requires forall d' :: d' in t ==> Descends(inp, c, d')
    ensures forall rec :: rec in store ==> !Due(store, Ids(t), inp.now, rec.deviceId)
  {
    forall rec | rec in store
      ensures !Due(store, Ids(t), inp.now, rec.deviceId)
    {
      var x := rec.deviceId;
      if x in Ids(t) {
        IdsIff(t, x);
        var d' :| d' in t && d'.id == x;
        assert Descends(inp, c, d');
        var d :| d in inp.devices && d.id == x && !IsDue(inp, d.id);
        IdsMember(inp.devices, d);
        assert forall r :: r in inp.store && r.deviceId == x ==> r.expireAt > inp.now;
      }
    }
  }

  /** The next run finds no candidate: the devices that were candidates are
      unmanaged now, and no other device became one. */
  lemma NextNoCandidates(inp: Input, newId: int)
    requires Run(inp).status == Completed
    ensures !HasCandidates(Next(inp, newId).devices)
  {
    var c := Candidates(inp.devices);
    DevicesAfterRun(inp, newId);
    CountsAfterRun(inp, newId);
    NoCandidateAmong(inp, c, Next(inp, newId).devices);
  }

  /** Devices descended from a snapshot whose candidates were all in `c`, with
      no hostname more frequent than before, hold no candidate. */
  lemma NoCandidateAmong(inp: Input, c: seq<DeviceId>, t: seq<Device>)
    requires forall d :: d in inp.devices && IsCandidate(inp.devices, d) ==> d.id in c
    requires forall d' :: d' in t ==> Descends(inp, c, d')
    requires forall h :: Count(t, h) <= Count(inp.devices, h)
    ensures !HasCandidates(t)
  {
    forall d' | d' in t
      ensures !IsCandidate(t, d')
    {
      assert Descends(inp, c, d');
      var d :| d in inp.devices && d.id == d'.id && d.hostname == d'.hostname
        && d.connected == d'.connected && !IsDue(inp, d.id)
        && (d'.adminState == Managed ==> d.adminState == Managed && d.id !in c);
      assert Count(t, d'.hostname) <= Count(inp.devices, d.hostname);
    }
  }

  /** Once the next run sees duplicates, every record of the store file is
      for a device still in the snapshot. */
  lemma NextNothingGone(inp: Input, newId: int)
    requires Run(inp).status == Completed && QuarantineHolds(inp)
    ensures HasDuplicates(Next(inp, newId).devices) ==> !AnyGone(Next(inp, newId))
  {
    var nxt := Next(inp, newId);
    var t := nxt.devices;
    if HasDuplicates(t) {
      DevicesAfterRun(inp, newId);
      CountsAfterRun(inp, newId);
      DuplicatesBefore(inp, Candidates(inp.devices), t);
      NotDueRemain(inp, newId);
      StoreAfterRun(inp);
      forall rec | rec in nxt.store
        ensures rec.deviceId in Ids(t)
      {
        RecordRemains(inp, rec, Ids(t));
      }
    }
  }

  /** Duplicates left behind were duplicates before. */
  lemma DuplicatesBefore(inp: Input, c: seq<DeviceId>, t: seq<Device>)
    requires forall d' :: d' in t ==> Descends(inp, c, d')
    requires forall h :: Count(t, h) <= Count(inp.devices, h)
    ensures HasDuplicates(t) ==> HasDuplicates(inp.devices)
  {
    if HasDuplicates(t) {
      var d' :| d' in t && Duplicated(t, d'.hostname);
      assert Descends(inp, c, d');
      var e :| e in inp.devices && e.id == d'.id && e.hostname == d'.hostname
        && e.connected == d'.connected && !IsDue(inp, e.id)
        && (d'.adminState == Managed ==> e.adminState == Managed && e.id !in c);
      assert Duplicated(inp.devices, e.hostname);
    }
  }

  /** A record the expiry pass kept, or one stamped for a candidate, is for a
      device that was not due, so one still in the snapshot. */
  lemma RecordRemains(inp: Input, rec: Record, ids: seq<DeviceId>)
    requires QuarantineHolds(inp)
    requires forall d :: d in inp.devices && !IsDue(inp, d.id) ==> d.id in ids
    requires rec in PassOf(inp).store || Stamped(inp, rec)
    ensures rec.deviceId in ids
  {
    var x := rec.deviceId;
    if rec in PassOf(inp).store {
      assert Classify(rec, Ids(inp.devices), inp.now) == Kept;
      IdsIff(inp.devices, x);
      var d :| d in inp.devices && d.id == x;
      assert !IsDue(inp, x);
    } else {
      var d :| d in inp.devices && d.id == x && IsCandidate(inp.devices, d);
      assert !IsDue(inp, x);
    }
  }

  /** Idempotence: right after a completed run, with the clock unchanged and
      the quarantined devices still unmanaged, running again against the
      remote state the first run left makes no call and does not write the
      store file. */
  lemma RerunIsQuiet(inp: Input, newId: int)
    requires Run(inp).status == Completed && inp.now < inp.expireTime && QuarantineHolds(inp)
    ensures Run(Next(inp, newId)).actions == [] && !Run(Next(inp, newId)).written
  {
    NextNothingDue(inp, newId);
    NextNoCandidates(inp, newId);
    NextNothingGone(inp, newId);
    GroupNeverLeftEmpty(inp, newId);
    QuietRun(Next(inp, newId));
  }
}
