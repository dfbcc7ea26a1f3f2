/** The expiry pass over the expiration store
    (XIQ_Duplicate_AP_Check.py lines 83-106). */
module Expiry {
  import opened Types
  import opened Seqs

  /** The three fates of a store record. */
  datatype Class = Expired | Vanished | Kept

  /** A record whose device is still in the snapshot is expired once its
      deadline has passed; one whose device is gone has vanished. */
  function Classify(rec: Record, present: seq<DeviceId>, now: int): Class {
    if rec.deviceId in present then
      if rec.expireAt <= now then Expired else Kept
    else Vanished
  }

  /** Some record for `x` is due while `x` is still in the snapshot. */
  predicate Due(store: seq<Record>, present: seq<DeviceId>, now: int, x: DeviceId) {
    x in present && exists rec :: rec in store && rec.deviceId == x && rec.expireAt <= now
  }

  /** Some record tracks `x` although `x` has left the snapshot. */
  predicate Gone(store: seq<Record>, present: seq<DeviceId>, x: DeviceId) {
    x !in present && exists rec :: rec in store && rec.deviceId == x
  }

  /** The device ids of the store, in store order. */
  function RecordIds(store: seq<Record>): (r: seq<DeviceId>)
    ensures |r| == |store|
    ensures forall x :: x in r <==> exists rec :: rec in store && rec.deviceId == x
  {
    if |store| == 0 then []
    else
      assert store == [store[0]] + store[1..];
      [store[0].deviceId] + RecordIds(store[1..])
  }

  lemma {:induction false} RecordIdsAppend(a: seq<Record>, b: seq<Record>)
    ensures RecordIds(a + b) == RecordIds(a) + RecordIds(b)
  {
    if |a| == 0 {
      assert a + b == b;
    } else {
      assert (a + b)[1..] == a[1..] + b;
      RecordIdsAppend(a[1..], b);
    }
  }

  /** `expired_devices`: one entry per expired record, in store order. */
  function ExpiredIds(store: seq<Record>, present: seq<DeviceId>, now: int): (r: seq<DeviceId>)
    ensures forall x :: x in r <==> Due(store, present, now, x)
  {
    if |store| == 0 then []
    else
      assert store == [store[0]] + store[1..];
      (if Classify(store[0], present, now) == Expired then [store[0].deviceId] else [])
        + ExpiredIds(store[1..], present, now)
  }

  /** `not_found_devices`: one entry per vanished record, in store order. */
  function VanishedIds(store: seq<Record>, present: seq<DeviceId>, now: int): (r: seq<DeviceId>)
    ensures forall x :: x in r <==> Gone(store, present, x)
  {
    if |store| == 0 then []
    else
      assert store == [store[0]] + store[1..];
      (if Classify(store[0], present, now) == Vanished then [store[0].deviceId] else [])
        + VanishedIds(store[1..], present, now)
  }

  /** The records the pass leaves alone. */
  function KeptRecords(store: seq<Record>, present: seq<DeviceId>, now: int): seq<Record> {
    if |store| == 0 then []
    else
      (if Classify(store[0], present, now) == Kept then [store[0]] else [])
        + KeptRecords(store[1..], present, now)
  }

  /** Every record lands in exactly one of the three classes. */
  lemma {:induction false} ClassesPartition(store: seq<Record>, present: seq<DeviceId>, now: int)
    ensures multiset(ExpiredIds(store, present, now)) + multiset(VanishedIds(store, present, now))
            + multiset(RecordIds(KeptRecords(store, present, now)))
         == multiset(RecordIds(store))
  {
    if |store| > 0 {
      var rest := store[1..];
      ClassesPartition(rest, present, now);
      var id := store[0].deviceId;
      assert RecordIds(store) == [id] + RecordIds(rest);
      var e, v := ExpiredIds(rest, present, now), VanishedIds(rest, present, now);
      var kept := KeptRecords(rest, present, now);
      match Classify(store[0], present, now)
      case Expired =>
        assert ExpiredIds(store, present, now) == [id] + e;
        assert VanishedIds(store, present, now) == v;
        assert KeptRecords(store, present, now) == kept;
      case Vanished =>
        assert ExpiredIds(store, present, now) == e;
        assert VanishedIds(store, present, now) == [id] + v;
        assert KeptRecords(store, present, now) == kept;
      case Kept =>
        assert ExpiredIds(store, present, now) == e;
        assert VanishedIds(store, present, now) == v;
        assert KeptRecords(store, present, now) == [store[0]] + kept;
        assert ([store[0]] + kept)[1..] == kept;
        assert RecordIds([store[0]] + kept) == [id] + RecordIds(kept);
    }
  }

  /** The records of `store` whose device id is not in `xs`, in store order. */
  function DropIds(store: seq<Record>, xs: seq<DeviceId>): (r: seq<Record>)
    ensures forall rec :: multiset(r)[rec] == if rec.deviceId in xs then 0 else multiset(store)[rec]
    ensures forall rec :: rec in r <==> rec in store && rec.deviceId !in xs
  {
    if |store| == 0 then []
    else
      assert store == [store[0]] + store[1..];
      if store[0].deviceId in xs then DropIds(store[1..], xs)
      else [store[0]] + DropIds(store[1..], xs)
  }

  /** Dropping only deletes records. */
  lemma {:induction false} DropIdsKeepsOrder(store: seq<Record>, xs: seq<DeviceId>)
    ensures Subsequence(DropIds(store, xs), store)
  {
    if |store| > 0 {
      DropIdsKeepsOrder(store[1..], xs);
      var rest := DropIds(store[1..], xs);
      if store[0].deviceId in xs {
        assert |rest| > 0 ==> rest[0] in rest;
      } else {
        assert ([store[0]] + rest)[1..] == rest;
      }
    }
  }

  /** Dropping two id lists one after the other drops both at once. */
  lemma {:induction false} DropIdsTwice(store: seq<Record>, a: seq<DeviceId>, b: seq<DeviceId>)
    ensures DropIds(DropIds(store, a), b) == DropIds(store, a + b)
  {
    if |store| > 0 {
      DropIdsTwice(store[1..], a, b);
      var rest := DropIds(store[1..], a);
      if store[0].deviceId !in a {
        assert DropIds(store, a) == [store[0]] + rest;
        assert ([store[0]] + rest)[1..] == rest;
      }
    }
  }

  /** The result of the pass: the two id lists, the store that survives it,
      and the `json_file_change` flag as the pass leaves it. */
  datatype Pass = Pass(expired: seq<DeviceId>, vanished: seq<DeviceId>, store: seq<Record>, changed: bool)

  function ExpiryPass(store: seq<Record>, present: seq<DeviceId>, now: int): (p: Pass)
    ensures forall x :: x in p.expired <==> Due(store, present, now, x)
    ensures forall x :: x in p.vanished <==> Gone(store, present, x)
    ensures forall x :: !(x in p.expired && x in p.vanished)
    ensures forall rec :: rec in p.store <==> rec in store && rec.deviceId !in p.expired && rec.deviceId !in p.vanished
    ensures forall rec :: multiset(p.store)[rec] ==
              if rec.deviceId in p.expired || rec.deviceId in p.vanished then 0 else multiset(store)[rec]
    ensures forall rec :: rec in p.store ==> Classify(rec, present, now) == Kept
    ensures p.changed <==> |p.expired| > 0 || |p.vanished| > 0
    ensures !p.changed ==> p.store == store
  {
    var expired := ExpiredIds(store, present, now);
    var vanished := VanishedIds(store, present, now);
    var afterExpired := if |expired| > 0 then DropIds(store, expired) else store;
    var afterVanished := if |vanished| > 0 then DropIds(afterExpired, vanished) else afterExpired;
    assert forall rec :: rec in afterVanished ==> Classify(rec, present, now) == Kept by {
      forall rec | rec in afterVanished
        ensures Classify(rec, present, now) == Kept
      {
        assert rec in store;
        if rec.deviceId in present && rec.expireAt <= now {
          assert Due(store, present, now, rec.deviceId);
        }
        if rec.deviceId !in present {
          assert Gone(store, present, rec.deviceId);
        }
      }
    }
    Pass(expired, vanished, afterVanished, |expired| > 0 || |vanished| > 0)
  }

  /** The pass only deletes records: the survivors keep their relative order
      (lines 100 and 105 filter the list in place). */
  lemma PassKeepsOrder(store: seq<Record>, present: seq<DeviceId>, now: int)
    ensures Subsequence(ExpiryPass(store, present, now).store, store)
  {
    var p := ExpiryPass(store, present, now);
    var e, v := ExpiredIds(store, present, now), VanishedIds(store, present, now);
    if |e| > 0 && |v| > 0 {
      DropIdsTwice(store, e, v);
      DropIdsKeepsOrder(store, e + v);
    } else if |e| > 0 {
      DropIdsKeepsOrder(store, e);
    } else if |v| > 0 {
      DropIdsKeepsOrder(store, v);
    } else {
      SubsequenceOfItself(store);
    }
  }
}
