/** Duplicate detection and quarantine-candidate selection over one device
    snapshot (XIQ_Duplicate_AP_Check.py lines 74-77 and 124-132). */
module Inventory {
  import opened Types
  import opened Seqs

  /** The device ids of a snapshot, in snapshot order. */
  function Ids(devices: seq<Device>): seq<DeviceId> {
    if |devices| == 0 then [] else [devices[0].id] + Ids(devices[1..])
  }

  lemma {:induction false} IdsMember(devices: seq<Device>, d: Device)
    requires d in devices
    ensures d.id in Ids(devices)
  {
    if devices[0] != d {
      IdsMember(devices[1..], d);
    }
  }

  /** An id is in the snapshot exactly when some device carries it. */
  lemma {:induction false} IdsIff(devices: seq<Device>, x: DeviceId)
    ensures x in Ids(devices) <==> exists d :: d in devices && d.id == x
  {
    if |devices| > 0 {
      IdsIff(devices[1..], x);
      assert Ids(devices) == [devices[0].id] + Ids(devices[1..]);
      if x in Ids(devices[1..]) {
        var d :| d in devices[1..] && d.id == x;
        assert d in devices;
      }
      if exists d :: d in devices && d.id == x {
        var d :| d in devices && d.id == x;
        if d != devices[0] {
          assert d in devices[1..];
        }
      }
    }
  }

  /** How many devices of the snapshot carry hostname `h`. */
  function Count(devices: seq<Device>, h: string): nat {
    if |devices| == 0 then 0
    else (if devices[0].hostname == h then 1 else 0) + Count(devices[1..], h)
  }

  /** A hostname is duplicated when at least two devices share it. */
  predicate Duplicated(devices: seq<Device>, h: string) {
    Count(devices, h) >= 2
  }

  /** Offline and still managed: the only devices the script touches. */
  predicate Eligible(d: Device) {
    !d.connected && d.adminState == Managed
  }

  /** The filter of line 131 on the reported strings: offline and
      `device_admin_state == 'MANAGED'`. */
  lemma EligibleAsReported(d: Device, state: string)
    requires d.adminState == AdminStateOf(state)
    ensures Eligible(d) <==> !d.connected && state == "MANAGED"
  {
  }

  predicate IsCandidate(devices: seq<Device>, d: Device) {
    Duplicated(devices, d.hostname) && Eligible(d)
  }

  predicate HasDuplicates(devices: seq<Device>) {
    exists d :: d in devices && Duplicated(devices, d.hostname)
  }

  predicate HasCandidates(devices: seq<Device>) {
    exists d :: d in devices && IsCandidate(devices, d)
  }

  /** A candidate's hostname is duplicated. */
  lemma CandidatesAreDuplicates(devices: seq<Device>)
    ensures HasCandidates(devices) ==> HasDuplicates(devices)
  {
    if HasCandidates(devices) {
      var d :| d in devices && IsCandidate(devices, d);
    }
  }

  /** The rows of `rows` whose hostname is duplicated in `all`. */
  function KeepDuplicated(rows: seq<Device>, all: seq<Device>): (r: seq<Device>)
    ensures forall d :: multiset(r)[d] == if Duplicated(all, d.hostname) then multiset(rows)[d] else 0
    ensures forall d :: d in r <==> d in rows && Duplicated(all, d.hostname)
  {
    if |rows| == 0 then []
    else
      assert rows == [rows[0]] + rows[1..];
      if Duplicated(all, rows[0].hostname) then [rows[0]] + KeepDuplicated(rows[1..], all)
      else KeepDuplicated(rows[1..], all)
  }

  /** Per hostname, the filter keeps all copies or none. */
  lemma {:induction false} KeepDuplicatedCount(rows: seq<Device>, all: seq<Device>, h: string)
    ensures Count(KeepDuplicated(rows, all), h) == if Duplicated(all, h) then Count(rows, h) else 0
  {
    if |rows| > 0 {
      KeepDuplicatedCount(rows[1..], all, h);
      var rest := KeepDuplicated(rows[1..], all);
      if Duplicated(all, rows[0].hostname) {
        assert ([rows[0]] + rest)[1..] == rest;
      }
    }
  }

  /** pandas `df.duplicated(subset='hostname', keep=False)`: every copy of a
      repeated hostname is kept, not only the later ones. */
  function DuplicatedRows(devices: seq<Device>): (rows: seq<Device>)
    ensures forall d :: multiset(rows)[d] == if Duplicated(devices, d.hostname) then multiset(devices)[d] else 0
    ensures forall h :: Count(rows, h) == if Duplicated(devices, h) then Count(devices, h) else 0
    ensures |rows| == 0 <==> !HasDuplicates(devices)
  {
    var rows := KeepDuplicated(devices, devices);
    assert forall h :: Count(rows, h) == if Duplicated(devices, h) then Count(devices, h) else 0 by {
      forall h
        ensures Count(rows, h) == if Duplicated(devices, h) then Count(devices, h) else 0
      {
        KeepDuplicatedCount(devices, devices, h);
      }
    }
    assert |rows| == 0 <==> !HasDuplicates(devices) by {
      if |rows| > 0 {
        assert rows[0] in rows;
      }
    }
    rows
  }

  /** The hostnames of `rows` not yet in `seen`, appended to `seen` in order
      of first appearance. */
  function FirstAppearance(rows: seq<Device>, seen: seq<string>): (hs: seq<string>)
    requires Distinct(seen)
    ensures Distinct(hs)
    ensures forall h :: h in hs <==> h in seen || exists d :: d in rows && d.hostname == h
    ensures |seen| <= |hs| && hs[..|seen|] == seen
  {
    if |rows| == 0 then seen
    else
      assert rows == [rows[0]] + rows[1..];
      if rows[0].hostname in seen then FirstAppearance(rows[1..], seen)
      else
        var seen' := seen + [rows[0].hostname];
        assert seen'[..|seen|] == seen;
        FirstAppearance(rows[1..], seen')
  }

  /** pandas `unique()` on the hostname column: each hostname once, in order
      of first appearance. */
  function Hostnames(rows: seq<Device>): (hs: seq<string>)
    ensures Distinct(hs)
    ensures forall h :: h in hs <==> exists d :: d in rows && d.hostname == h
  {
    FirstAppearance(rows, [])
  }

  /** Ids of the eligible rows with hostname `h`, in row order. */
  function PickHost(rows: seq<Device>, h: string): seq<DeviceId> {
    if |rows| == 0 then []
    else (if rows[0].hostname == h && Eligible(rows[0]) then [rows[0].id] else []) + PickHost(rows[1..], h)
  }

  /** The loop over unique hostnames: the picks of each hostname, concatenated. */
  function PickHosts(rows: seq<Device>, hs: seq<string>): seq<DeviceId> {
    if |hs| == 0 then [] else PickHost(rows, hs[0]) + PickHosts(rows, hs[1..])
  }

  /** Ids of the eligible rows whose hostname lies in `hosts`, in row order. */
  function PickIn(rows: seq<Device>, hosts: set<string>): seq<DeviceId> {
    if |rows| == 0 then []
    else (if rows[0].hostname in hosts && Eligible(rows[0]) then [rows[0].id] else []) + PickIn(rows[1..], hosts)
  }

  /** Reference definition: ids of the snapshot's candidates in snapshot order. */
  function CandidateIds(rows: seq<Device>, all: seq<Device>): (r: seq<DeviceId>)
    ensures forall x :: x in r <==> exists d :: d in rows && d.id == x && IsCandidate(all, d)
    ensures forall x :: multiset(r)[x] <= multiset(Ids(rows))[x]
  {
    if |rows| == 0 then []
    else
      assert rows == [rows[0]] + rows[1..];
      (if IsCandidate(all, rows[0]) then [rows[0].id] else []) + CandidateIds(rows[1..], all)
  }

  function SnapshotCandidates(devices: seq<Device>): (r: seq<DeviceId>)
    ensures forall x :: x in r <==> exists d :: d in devices && d.id == x && IsCandidate(devices, d)
    ensures Distinct(Ids(devices)) ==> Distinct(r)
  {
    CandidateIds(devices, devices)
  }

  lemma {:induction false} PickInSplit(rows: seq<Device>, h: string, hosts: set<string>)
    requires h !in hosts
    ensures multiset(PickIn(rows, hosts + {h})) == multiset(PickHost(rows, h)) + multiset(PickIn(rows, hosts))
  {
    if |rows| > 0 {
      var r := rows[0];
      var both := if r.hostname in hosts + {h} && Eligible(r) then [r.id] else [];
      var one := if r.hostname == h && Eligible(r) then [r.id] else [];
      var other := if r.hostname in hosts && Eligible(r) then [r.id] else [];
      assert multiset(both) == multiset(one) + multiset(other);
      PickInSplit(rows[1..], h, hosts);
    }
  }

  lemma {:induction false} PickInNone(rows: seq<Device>)
    ensures PickIn(rows, {}) == []
  {
    if |rows| > 0 {
      PickInNone(rows[1..]);
    }
  }

  /** Looping over distinct hostnames picks the same ids, in some order, as
      one pass over the rows restricted to those hostnames. */
  lemma {:induction false} PickHostsPerm(rows: seq<Device>, hs: seq<string>)
    requires Distinct(hs)
    ensures multiset(PickHosts(rows, hs)) == multiset(PickIn(rows, set h | h in hs))
  {
    if |hs| == 0 {
      PickInNone(rows);
      assert (set h | h in hs) == {};
    } else {
      var tail := hs[1..];
      DistinctTail(hs);
      PickHostsPerm(rows, tail);
      PickInSplit(rows, hs[0], set h | h in tail);
      assert (set h | h in hs) == (set h | h in tail) + {hs[0]};
    }
  }

  /** Keeping the duplicated rows first and then the eligible ones selects the
      same ids as selecting candidates directly. */
  lemma {:induction false} CandidatesOfDuplicated(rows: seq<Device>, all: seq<Device>, hosts: set<string>)
    requires forall d :: d in rows && Duplicated(all, d.hostname) ==> d.hostname in hosts
    ensures PickIn(KeepDuplicated(rows, all), hosts) == CandidateIds(rows, all)
  {
    if |rows| > 0 {
      assert rows == [rows[0]] + rows[1..];
      CandidatesOfDuplicated(rows[1..], all, hosts);
      var rest := KeepDuplicated(rows[1..], all);
      if Duplicated(all, rows[0].hostname) {
        assert ([rows[0]] + rest)[1..] == rest;
      }
    }
  }

  /** The candidate list is a permutation of the reference list. */
  lemma CandidatesPerm(devices: seq<Device>)
    ensures multiset(PickHosts(DuplicatedRows(devices), Hostnames(DuplicatedRows(devices))))
         == multiset(SnapshotCandidates(devices))
  {
    var rows := DuplicatedRows(devices);
    assert rows == KeepDuplicated(devices, devices);
    var hs := Hostnames(rows);
    var hosts := set h | h in hs;
    PickHostsPerm(rows, hs);
    forall d | d in devices && Duplicated(devices, d.hostname)
      ensures d.hostname in hosts
    {
      assert d in rows;
      assert d.hostname in hs;
    }
    CandidatesOfDuplicated(devices, devices, hosts);
  }

  /** Two sequences with the same multiset have the same elements. */
  lemma SameElements(a: seq<DeviceId>, b: seq<DeviceId>)
    requires multiset(a) == multiset(b)
    ensures forall x :: x in a <==> x in b
    ensures |a| == |b|
  {
    assert |a| == |multiset(a)|;
    forall x
      ensures x in a <==> x in b
    {
      assert x in a <==> x in multiset(a);
      assert x in b <==> x in multiset(b);
    }
  }

  /** The candidate list `device_ids`: for each duplicated hostname in order of
      first appearance, the ids of its offline, managed devices. */
  function Candidates(devices: seq<Device>): (ids: seq<DeviceId>)
    ensures multiset(ids) == multiset(SnapshotCandidates(devices))
    ensures forall x :: x in ids <==> exists d :: d in devices && d.id == x && IsCandidate(devices, d)
    ensures Distinct(Ids(devices)) ==> Distinct(ids)
    ensures |ids| > 0 <==> HasCandidates(devices)
  {
    var rows := DuplicatedRows(devices);
    var ids := PickHosts(rows, Hostnames(rows));
    var reference := SnapshotCandidates(devices);
    CandidatesPerm(devices);
    SameElements(ids, reference);
    assert |reference| > 0 <==> HasCandidates(devices) by {
      if |reference| > 0 {
        assert reference[0] in reference;
      }
      if HasCandidates(devices) {
        var d :| d in devices && IsCandidate(devices, d);
        assert d.id in reference;
      }
    }
    ids
  }
}
