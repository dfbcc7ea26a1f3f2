/** What a run does, branch by branch, stated against the reference
    predicates of the inventory and the expiry pass. */
module Properties {
  import opened Types
  import opened Seqs
  import opened Inventory
  import opened Expiry
  import opened Reconcile

  /** The run gets past the batch delete and the CCG membership update after
      it: either nothing is due, or a CCG was found and the delete call
      succeeds. */
  predicate PassesExpiry(inp: Input) {
    !AnyDue(inp) || (inp.ccg.Some? && DeleteDevicesCall !in inp.failing)
  }

  predicate IsDue(inp: Input, x: DeviceId) {
    Due(inp.store, Ids(inp.devices), inp.now, x)
  }

  /** Past the expiry pass, a run is the batch delete (when something is due)
      followed by what the remaining branches do. */
  lemma RunShape(inp: Input)
    requires PassesExpiry(inp)
    ensures var p := PassOf(inp); var o := Run(inp); var s := Settle(inp);
      o == s.(actions := Deletes(inp) + s.actions)
  {
    PassLists(inp);
  }

  /** The batch delete is the first call of a run, lists exactly the due ids
      (never an id that left the snapshot), and is issued whenever something
      is due. */
  lemma RunDeletesDue(inp: Input)
    ensures var o := Run(inp);
      forall i :: 0 <= i < |o.actions| && o.actions[i].DeleteDevices? ==>
        i == 0 && forall x :: x in o.actions[i].ids <==> IsDue(inp, x)
    ensures var o := Run(inp);
      forall i, x :: 0 <= i < |o.actions| && o.actions[i].DeleteDevices? && x in o.actions[i].ids ==>
        x in Ids(inp.devices) && !Gone(inp.store, Ids(inp.devices), x)
    ensures var o := Run(inp);
      AnyDue(inp) ==> |o.actions| > 0 && o.actions[0].DeleteDevices?
  {
    var rest := AfterDeletes(inp);
    RunSplit(inp);
    DeletesFirst(inp, Run(inp).actions, rest);
  }

  /** The calls a run makes after the batch delete. */
  function AfterDeletes(inp: Input): (rest: seq<Action>)
    ensures forall a :: a in rest ==> !a.DeleteDevices?
  {
    if PassesExpiry(inp) then Settle(inp).actions else []
  }

  lemma RunSplit(inp: Input)
    ensures Run(inp).actions == Deletes(inp) + AfterDeletes(inp)
  {
    if PassesExpiry(inp) {
      RunShape(inp);
    } else {
      RunStopsAtDelete(inp);
    }
  }

  /** A run that does not get past the batch delete makes no other call. */
  lemma RunStopsAtDelete(inp: Input)
    requires !PassesExpiry(inp)
    ensures Run(inp).actions == Deletes(inp)
  {
    PassLists(inp);
  }

  /** The batch delete in front of calls that delete no device. */
  lemma DeletesFirst(inp: Input, actions: seq<Action>, rest: seq<Action>)
    requires actions == Deletes(inp) + rest
    requires forall a :: a in rest ==> !a.DeleteDevices?
    ensures forall i :: 0 <= i < |actions| && actions[i].DeleteDevices? ==>
      i == 0 && forall x :: x in actions[i].ids <==> IsDue(inp, x)
    ensures forall i, x :: 0 <= i < |actions| && actions[i].DeleteDevices? && x in actions[i].ids ==>
      x in Ids(inp.devices) && !Gone(inp.store, Ids(inp.devices), x)
    ensures AnyDue(inp) ==> |actions| > 0 && actions[0].DeleteDevices?
  {
    var p := PassOf(inp);
    PassLists(inp);
    LeadingDelete(Deletes(inp), rest, p.expired);
  }

  /** A batch delete in front of calls that delete no device is the only
      delete of the list. */
  lemma LeadingDelete(deletes: seq<Action>, rest: seq<Action>, ids: seq<DeviceId>)
    requires deletes == [] || deletes == [DeleteDevices(ids)]
    requires forall a :: a in rest ==> !a.DeleteDevices?
    ensures forall i :: 0 <= i < |deletes + rest| && (deletes + rest)[i].DeleteDevices? ==>
              i == 0 && (deletes + rest)[i] == DeleteDevices(ids)
  {
    forall i | |deletes| <= i < |deletes + rest|
      ensures !(deletes + rest)[i].DeleteDevices?
    {
      assert (deletes + rest)[i] == rest[i - |deletes|];
    }
  }

  predicate AllDue(inp: Input, ids: seq<DeviceId>) {
    forall x :: x in ids ==> IsDue(inp, x)
  }

  predicate Tracked(store: seq<Record>, x: DeviceId) {
    exists rec :: rec in store && rec.deviceId == x
  }

  /** The CCG's post-expiry membership is empty exactly when every member was due. */
  lemma MembersEmpty(inp: Input)
    requires inp.ccg.Some?
    ensures |GroupMembers(inp)| == 0 <==> AllDue(inp, inp.ccg.value.deviceIds)
  {
    var m := GroupMembers(inp);
    if |m| > 0 {
      var x := m[0];
      assert x in m;
      assert x in inp.ccg.value.deviceIds && !IsDue(inp, x);
    } else {
      forall x | x in inp.ccg.value.deviceIds
        ensures IsDue(inp, x)
      {
        assert x !in m;
      }
    }
  }

  /** No hostname repeats (lines 108-122): the CCG is deleted exactly when it
      was found and every member was due; no other call follows the batch
      delete, and the store file is not rewritten even when the expiry pass
      removed records. */
  lemma RunNoDuplicates(inp: Input)
    requires PassesExpiry(inp) && !HasDuplicates(inp.devices)
    ensures var o := Run(inp);
      && !o.written && o.store == inp.store
      && (forall a :: a in o.actions ==> a.DeleteDevices? || a.DeleteCcg?)
      && (inp.ccg.Some? ==>
            (DeleteCcg(inp.ccg.value.id) in o.actions <==> AllDue(inp, inp.ccg.value.deviceIds)))
      && (inp.ccg.None? ==> forall a :: a in o.actions ==> a.DeleteDevices?)
      && (o.status == Completed || o.status == Aborted(DeleteCcgCall))
  {
    RunNoDuplicatesShape(inp);
    NoDuplicatesCalls(inp);
    DeletesAreBatch(inp);
    var drop := inp.ccg.Some? && AllDue(inp, inp.ccg.value.deviceIds);
    BatchThenDrop(Run(inp).actions, Deletes(inp), NoDuplicates(inp).actions, inp.ccg, drop);
  }

  /** An empty snapshot has no repeated hostname, so the run takes lines
      108-122: no record is due, every record counts as not found and is
      dropped from the list in memory, yet the file is not rewritten; the CCG
      is deleted exactly when one was found with no member at all. */
  lemma RunEmptyInventory(inp: Input)
    requires |inp.devices| == 0
    ensures var o := Run(inp);
      && !o.written && o.store == inp.store && |PassOf(inp).store| == 0
      && o.actions == (if inp.ccg.Some? && |inp.ccg.value.deviceIds| == 0 then [DeleteCcg(inp.ccg.value.id)] else [])
      && (o.status == Completed || o.status == Aborted(DeleteCcgCall))
  {
    assert !AnyDue(inp);
    assert !HasDuplicates(inp.devices);
    RunNoDuplicates(inp);
    RunNoDuplicatesShape(inp);
    NoDuplicatesCalls(inp);
    PassLists(inp);
    assert Deletes(inp) == [];
    if inp.ccg.Some? {
      NothingDueAllDue(inp, inp.ccg.value.deviceIds);
    }
  }

  /** With nothing due, a list is all due exactly when it is empty. */
  lemma NothingDueAllDue(inp: Input, ids: seq<DeviceId>)
    requires !AnyDue(inp)
    ensures AllDue(inp, ids) <==> |ids| == 0
  {
    if |ids| > 0 {
      var x := ids[0];
      assert x in ids;
      if IsDue(inp, x) {
        assert false;
      }
    }
  }

  /** Without duplicates, a run is the batch delete followed by the
      no-duplicate branch. */
  lemma RunNoDuplicatesShape(inp: Input)
    requires PassesExpiry(inp) && !HasDuplicates(inp.devices)
    ensures Run(inp) == NoDuplicates(inp).(actions := Deletes(inp) + NoDuplicates(inp).actions)
  {
    RunShape(inp);
    SettleBranch(inp);
  }

  /** Without duplicates, the only call after the batch delete is the delete
      of a CCG whose every member was due. */
  lemma NoDuplicatesCalls(inp: Input)
    ensures var drop := inp.ccg.Some? && AllDue(inp, inp.ccg.value.deviceIds);
      NoDuplicates(inp).actions == if drop then [DeleteCcg(inp.ccg.value.id)] else []
  {
    if inp.ccg.Some? {
      MembersEmpty(inp);
    }
  }

  lemma DeletesAreBatch(inp: Input)
    ensures forall a :: a in Deletes(inp) ==> a.DeleteDevices?
  {
  }

  /** Which branch `Settle` takes. */
  lemma SettleBranch(inp: Input)
    ensures !HasDuplicates(inp.devices) ==> Settle(inp) == NoDuplicates(inp)
    ensures HasDuplicates(inp.devices) && HasCandidates(inp.devices) ==>
              Settle(inp) == Quarantine(inp, Candidates(inp.devices))
    ensures HasDuplicates(inp.devices) && !HasCandidates(inp.devices) ==> Settle(inp) == NoCandidates(inp)
  {
  }

  /** The calls and the store of the quarantine branch when no CCG was found. */
  lemma QuarantineCreate(inp: Input, c: seq<DeviceId>)
    requires inp.ccg.None?
    ensures var q := Quarantine(inp, c);
      && (UnmanageCall in inp.failing ==> q == Halt(inp, [Unmanage(c)], Aborted(UnmanageCall)))
      && (UnmanageCall !in inp.failing ==> q.actions == [Unmanage(c), CreateCcg(GroupName, GroupDescription, c)])
      && (UnmanageCall !in inp.failing && CreateCcgCall in inp.failing ==> q.status == Aborted(CreateCcgCall))
      && (UnmanageCall !in inp.failing && CreateCcgCall !in inp.failing ==>
            q == Outcome([Unmanage(c), CreateCcg(GroupName, GroupDescription, c)],
                         PassOf(inp).store + NewRecords(c, inp.now, inp.expireTime), true, [], Completed))
  {
  }

  /** The calls and the store of the quarantine branch when a CCG was found. */
  lemma QuarantineUpdate(inp: Input, c: seq<DeviceId>)
    requires inp.ccg.Some?
    ensures var post := GroupMembers(inp); var ids := Extend(post, c); var q := Quarantine(inp, c);
      && (UnmanageCall in inp.failing ==> q == Halt(inp, [Unmanage(c)], Aborted(UnmanageCall)))
      && (UnmanageCall !in inp.failing ==> q.actions == [Unmanage(c), UpdateCcg(inp.ccg.value.id, ids)])
      && (UnmanageCall !in inp.failing && UpdateCcgCall in inp.failing ==> q.status == Aborted(UpdateCcgCall))
      && (UnmanageCall !in inp.failing && UpdateCcgCall !in inp.failing ==>
            q == Outcome([Unmanage(c), UpdateCcg(inp.ccg.value.id, ids)],
                         PassOf(inp).store + NewRecords(ids[|post|..], inp.now, inp.expireTime), true, [], Completed))
  {
  }

  /** Candidates but no CCG (lines 134-168): unmanage them all, then create the
      CCG with all of them; every candidate gets a store record stamped with
      this run's times, after the records the expiry pass kept. */
  lemma RunCreatesGroup(inp: Input)
    requires PassesExpiry(inp) && inp.ccg.None? && HasCandidates(inp.devices)
    ensures var o := Run(inp); var c := Candidates(inp.devices);
      && |o.actions| >= 1 && o.actions[0] == Unmanage(c)
      && (UnmanageCall !in inp.failing ==> o.actions == [Unmanage(c), CreateCcg(GroupName, GroupDescription, c)])
      && (o.status == Completed <==> UnmanageCall !in inp.failing && CreateCcgCall !in inp.failing)
      && (o.status == Completed ==>
            o.written && o.store == PassOf(inp).store + NewRecords(c, inp.now, inp.expireTime))
  {
    RunShape(inp);
    PassLists(inp);
    SettleBranch(inp);
    QuarantineCreate(inp, Candidates(inp.devices));
  }

  /** Candidates and a CCG (lines 169-194): after the batch delete, unmanage
      them all, then update the CCG with its post-expiry membership followed
      by exactly the candidates not yet in it. The run completes exactly when
      neither call fails, and only then writes the store, adding records for
      the added ids only. */
  lemma RunUpdatesGroup(inp: Input)
    requires PassesExpiry(inp) && inp.ccg.Some? && HasCandidates(inp.devices)
    ensures var o := Run(inp); var g := inp.ccg.value; var c := Candidates(inp.devices);
      var post := GroupMembers(inp); var ids := Extend(post, c);
      && (UnmanageCall in inp.failing ==> o.actions == Deletes(inp) + [Unmanage(c)])
      && (UnmanageCall !in inp.failing ==> o.actions == Deletes(inp) + [Unmanage(c), UpdateCcg(g.id, ids)])
      && (o.status == Completed <==> UnmanageCall !in inp.failing && UpdateCcgCall !in inp.failing)
      && (o.status == Completed ==>
            o.written && o.store == PassOf(inp).store + NewRecords(ids[|post|..], inp.now, inp.expireTime))
    ensures var g := inp.ccg.value; var c := Candidates(inp.devices);
      var post := GroupMembers(inp); var ids := Extend(post, c);
      && |post| <= |ids| && ids[..|post|] == post
      && (forall x :: x in post <==> x in g.deviceIds && !IsDue(inp, x))
      && (forall x :: x in ids[|post|..] <==> x in c && x !in post)
      && (forall x :: x in g.deviceIds && !IsDue(inp, x) ==> x in ids)
      && |ids| > 0
      && (Distinct(g.deviceIds) && Distinct(Ids(inp.devices)) ==> Distinct(ids))
  {
    RunShape(inp);
    SettleBranch(inp);
    QuarantineUpdate(inp, Candidates(inp.devices));
    UpdateList(inp);
  }

  /** The list sent by the CCG update of line 181. */
  lemma UpdateList(inp: Input)
    requires inp.ccg.Some? && HasCandidates(inp.devices)
    ensures var g := inp.ccg.value; var c := Candidates(inp.devices);
      var post := GroupMembers(inp); var ids := Extend(post, c);
      && |post| <= |ids| && ids[..|post|] == post
      && (forall x :: x in post <==> x in g.deviceIds && !IsDue(inp, x))
      && (forall x :: x in ids[|post|..] <==> x in c && x !in post)
      && (forall x :: x in g.deviceIds && !IsDue(inp, x) ==> x in ids)
      && |ids| > 0
      && (Distinct(g.deviceIds) && Distinct(Ids(inp.devices)) ==> Distinct(ids))
  {
  }

  /** The calls and the store of the no-candidate branch. */
  lemma NoCandidatesShape(inp: Input)
    ensures var p := PassOf(inp); var post := GroupMembers(inp); var q := NoCandidates(inp);
      && (inp.ccg.None? ==> q == Outcome([], p.store, p.changed, [], Completed))
      && (inp.ccg.Some? && |post| > 0 ==>
            q == Outcome([], p.store, p.changed, Untracked(post, p.store), Completed))
      && (inp.ccg.Some? && |post| == 0 && DeleteCcgCall in inp.failing ==>
            q == Halt(inp, [DeleteCcg(inp.ccg.value.id)], Aborted(DeleteCcgCall)))
      && (inp.ccg.Some? && |post| == 0 && DeleteCcgCall !in inp.failing ==>
            q == Outcome([DeleteCcg(inp.ccg.value.id)], p.store, p.changed, [], Completed))
  {
  }

  /** Duplicates but no candidate (lines 196-217): the CCG is deleted exactly
      when it was found and every member was due, and nothing else is done
      after the batch delete. */
  lemma RunNoCandidates(inp: Input)
    requires PassesExpiry(inp) && HasDuplicates(inp.devices) && !HasCandidates(inp.devices)
    ensures var o := Run(inp);
      && (forall a :: a in o.actions ==> a.DeleteDevices? || a.DeleteCcg?)
      && (inp.ccg.Some? ==>
            (DeleteCcg(inp.ccg.value.id) in o.actions <==> AllDue(inp, inp.ccg.value.deviceIds)))
      && (inp.ccg.None? ==> forall a :: a in o.actions ==> a.DeleteDevices?)
      && (o.status == Completed || o.status == Aborted(DeleteCcgCall))
  {
    RunNoCandidatesShape(inp);
    NoCandidatesCalls(inp);
    DeletesAreBatch(inp);
    var drop := inp.ccg.Some? && AllDue(inp, inp.ccg.value.deviceIds);
    BatchThenDrop(Run(inp).actions, Deletes(inp), NoCandidates(inp).actions, inp.ccg, drop);
  }

  /** Without candidates, the only call after the batch delete is the delete
      of a CCG whose every member was due. */
  lemma NoCandidatesCalls(inp: Input)
    ensures var drop := inp.ccg.Some? && AllDue(inp, inp.ccg.value.deviceIds);
      NoCandidates(inp).actions == if drop then [DeleteCcg(inp.ccg.value.id)] else []
    ensures NoCandidates(inp).status == Completed || NoCandidates(inp).status == Aborted(DeleteCcgCall)
  {
    NoCandidatesShape(inp);
    if inp.ccg.Some? {
      MembersEmpty(inp);
    }
  }

  /** The batch delete followed by at most a delete of the CCG. */
  lemma BatchThenDrop(actions: seq<Action>, d: seq<Action>, s: seq<Action>, g: Option<Ccg>, drop: bool)
    requires actions == d + s
    requires forall a :: a in d ==> a.DeleteDevices?
    requires drop ==> g.Some?
    requires s == if drop then [DeleteCcg(g.value.id)] else []
    ensures forall a :: a in actions ==> a.DeleteDevices? || a.DeleteCcg?
    ensures g.Some? ==> (DeleteCcg(g.value.id) in actions <==> drop)
    ensures g.None? ==> forall a :: a in actions ==> a.DeleteDevices?
  {
  }

  /** With duplicates and no candidate, a run is the batch delete followed by
      the no-candidate branch. */
  lemma RunNoCandidatesShape(inp: Input)
    requires PassesExpiry(inp) && HasDuplicates(inp.devices) && !HasCandidates(inp.devices)
    ensures var s := NoCandidates(inp); Run(inp) == s.(actions := Deletes(inp) + s.actions)
  {
    RunShape(inp);
    SettleBranch(inp);
  }

  /** The warning of line 201: with duplicates, no candidate and a CCG left
      non-empty by the pass, the reported ids are exactly the members that are
      not due and either left the snapshot (their records were just dropped)
      or never had a record. */
  lemma RunReportsUntracked(inp: Input)
    requires PassesExpiry(inp) && HasDuplicates(inp.devices) && !HasCandidates(inp.devices)
    ensures forall x :: x in Run(inp).untracked <==>
            && inp.ccg.Some? && x in inp.ccg.value.deviceIds && !IsDue(inp, x)
            && (x !in Ids(inp.devices) || !Tracked(inp.store, x))
  {
    RunShape(inp);
    SettleBranch(inp);
    NoCandidatesShape(inp);
    var p := PassOf(inp);
    var post := GroupMembers(inp);
    var u := Run(inp).untracked;
    if inp.ccg.Some? && |post| > 0 {
      assert u == Untracked(post, p.store);
      forall x | x in post
        ensures Tracked(p.store, x) <==> x in Ids(inp.devices) && Tracked(inp.store, x)
      {
        if x in Ids(inp.devices) && Tracked(inp.store, x) {
          var rec :| rec in inp.store && rec.deviceId == x;
          assert !Gone(inp.store, Ids(inp.devices), x);
          assert rec in p.store;
        }
      }
    } else {
      assert u == [];
      if inp.ccg.Some? {
        forall x | x in inp.ccg.value.deviceIds
          ensures IsDue(inp, x)
        {
          assert x !in post;
        }
      }
    }
  }

  /** The save rule (line 220): the store file is rewritten exactly when the
      run completes past the no-duplicates exit and some record was due or
      vanished, or there was a candidate. */
  lemma RunSaveRule(inp: Input)
    ensures var o := Run(inp);
      o.written <==>
        o.status == Completed && HasDuplicates(inp.devices)
        && (AnyDue(inp) || AnyGone(inp) || HasCandidates(inp.devices))
  {
    if PassesExpiry(inp) {
      RunShape(inp);
      PassLists(inp);
      if !HasDuplicates(inp.devices) {
        RunNoDuplicates(inp);
      } else if !HasCandidates(inp.devices) {
        SettleBranch(inp);
        NoCandidatesShape(inp);
      }
    }
  }

  /** New records are checked against the CCG, not against the store: a
      candidate that is still tracked gets a second record when no CCG was
      found. */
  lemma StoreNotDeduplicated(inp: Input, d: Device, rec: Record)
    requires PassesExpiry(inp) && inp.ccg.None? && inp.failing == {}
    requires d in inp.devices && IsCandidate(inp.devices, d)
    requires rec in inp.store && rec.deviceId == d.id && inp.now < rec.expireAt
    ensures var o := Run(inp);
      && rec in o.store && Record(d.id, inp.now, inp.expireTime) in o.store
      && multiset(RecordIds(o.store))[d.id] >= 2
  {
    var p := PassOf(inp);
    var stamped := NewRecords(Candidates(inp.devices), inp.now, inp.expireTime);
    assert Run(inp).store == p.store + stamped by {
      RunCreatesGroup(inp);
    }
    KeptAndStamped(inp, d, rec);
    TwiceAfterAppend(p.store, stamped, d.id);
  }

  /** In that situation the old record survives the pass and the candidate
      gets a new one. */
  lemma KeptAndStamped(inp: Input, d: Device, rec: Record)
    requires !AnyDue(inp)
    requires d in inp.devices && IsCandidate(inp.devices, d)
    requires rec in inp.store && rec.deviceId == d.id
    ensures rec in PassOf(inp).store && d.id in RecordIds(PassOf(inp).store)
    ensures var stamped := NewRecords(Candidates(inp.devices), inp.now, inp.expireTime);
      Record(d.id, inp.now, inp.expireTime) in stamped && d.id in RecordIds(stamped)
  {
    PassLists(inp);
    IdsMember(inp.devices, d);
    var stamped := NewRecords(Candidates(inp.devices), inp.now, inp.expireTime);
    assert d.id in RecordIds(stamped);
    var r :| r in stamped && r.deviceId == d.id;
    assert r == Record(d.id, inp.now, inp.expireTime);
  }

  /** An id listed on both sides of an append is listed twice in the result. */
  lemma TwiceAfterAppend(a: seq<Record>, b: seq<Record>, x: DeviceId)
    requires x in RecordIds(a) && x in RecordIds(b)
    ensures multiset(RecordIds(a + b))[x] >= 2
  {
    RecordIdsAppend(a, b);
  }

  /** Why a call may appear in a run: the batch delete lists exactly the due
      ids; only the candidates are unmanaged; the CCG is created only when
      there are candidates and none was found, updated only when there are
      candidates and it was found, and deleted only when it was found, there
      is no candidate and every member was due. */
  ghost predicate Justified(inp: Input, a: Action) {
    match a
    case DeleteDevices(ids) => forall x :: x in ids <==> IsDue(inp, x)
    case Unmanage(ids) => HasCandidates(inp.devices) && ids == Candidates(inp.devices)
    case CreateCcg(name, _, ids) =>
      inp.ccg.None? && HasCandidates(inp.devices) && name == GroupName && ids == Candidates(inp.devices)
    case UpdateCcg(id, _) => inp.ccg.Some? && id == inp.ccg.value.id && HasCandidates(inp.devices)
    case DeleteCcg(id) =>
      inp.ccg.Some? && id == inp.ccg.value.id && !HasCandidates(inp.devices)
      && AllDue(inp, inp.ccg.value.deviceIds)
  }

  /** Group lifecycle (lines 92-217): every call a run makes is justified. */
  lemma RunCallsJustified(inp: Input)
    ensures forall a :: a in Run(inp).actions ==> Justified(inp, a)
  {
    RunSplit(inp);
    BatchJustified(inp);
    RestJustified(inp);
    JustifiedAppend(inp, Deletes(inp), AfterDeletes(inp));
  }

  lemma BatchJustified(inp: Input)
    ensures forall a :: a in Deletes(inp) ==> Justified(inp, a)
  {
  }

  lemma RestJustified(inp: Input)
    ensures forall a :: a in AfterDeletes(inp) ==> Justified(inp, a)
  {
    if PassesExpiry(inp) {
      SettleBranch(inp);
      if !HasDuplicates(inp.devices) {
        NoDuplicatesJustified(inp);
      } else if !HasCandidates(inp.devices) {
        NoCandidatesJustified(inp);
      } else {
        QuarantineJustified(inp);
      }
    }
  }

  lemma NoDuplicatesJustified(inp: Input)
    requires !HasDuplicates(inp.devices)
    ensures forall a :: a in NoDuplicates(inp).actions ==> Justified(inp, a)
  {
    NoDuplicatesCalls(inp);
    CandidatesAreDuplicates(inp.devices);
    if inp.ccg.Some? && AllDue(inp, inp.ccg.value.deviceIds) {
      assert Justified(inp, DeleteCcg(inp.ccg.value.id));
    }
  }

  lemma NoCandidatesJustified(inp: Input)
    requires !HasCandidates(inp.devices)
    ensures forall a :: a in NoCandidates(inp).actions ==> Justified(inp, a)
  {
    NoCandidatesCalls(inp);
    if inp.ccg.Some? && AllDue(inp, inp.ccg.value.deviceIds) {
      assert Justified(inp, DeleteCcg(inp.ccg.value.id));
    }
  }

  lemma QuarantineJustified(inp: Input)
    requires HasCandidates(inp.devices)
    ensures forall a :: a in Quarantine(inp, Candidates(inp.devices)).actions ==> Justified(inp, a)
  {
    var c := Candidates(inp.devices);
    var group := QuarantineGroupCall(inp, c);
    assert Justified(inp, Unmanage(c)) && Justified(inp, group);
    PairJustified(inp, Quarantine(inp, c).actions, Unmanage(c), group);
  }

  lemma PairJustified(inp: Input, q: seq<Action>, x: Action, y: Action)
    requires q == [x] || q == [x, y]
    requires Justified(inp, x) && Justified(inp, y)
    ensures forall a :: a in q ==> Justified(inp, a)
  {
  }

  /** The quarantine branch unmanages the candidates and then makes at most
      one CCG call, which creates the CCG when none was found and updates the
      one found otherwise. */
  lemma QuarantineGroupCall(inp: Input, c: seq<DeviceId>) returns (group: Action)
    ensures Quarantine(inp, c).actions == [Unmanage(c)] || Quarantine(inp, c).actions == [Unmanage(c), group]
    ensures inp.ccg.None? ==> group == CreateCcg(GroupName, GroupDescription, c)
    ensures inp.ccg.Some? ==> group.UpdateCcg? && group.ccgId == inp.ccg.value.id
  {
    if inp.ccg.None? {
      group := CreateCcg(GroupName, GroupDescription, c);
      QuarantineCreate(inp, c);
    } else {
      group := UpdateCcg(inp.ccg.value.id, Extend(GroupMembers(inp), c));
      QuarantineExtends(inp, c);
    }
  }

  lemma QuarantineExtends(inp: Input, c: seq<DeviceId>)
    requires inp.ccg.Some?
    ensures var q := Quarantine(inp, c).actions;
      q == [Unmanage(c)] || q == [Unmanage(c), UpdateCcg(inp.ccg.value.id, Extend(GroupMembers(inp), c))]
  {
  }

  lemma JustifiedAppend(inp: Input, d: seq<Action>, s: seq<Action>)
    requires forall a :: a in d ==> Justified(inp, a)
    requires forall a :: a in s ==> Justified(inp, a)
    ensures forall a :: a in d + s ==> Justified(inp, a)
  {
  }
}
