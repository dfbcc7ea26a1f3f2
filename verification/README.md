# Duplicate AP check: one reconciliation run

`XIQ_Duplicate_AP_Check.py` is a batch job run against ExtremeCloud IQ. It
looks for access points that share a hostname. Each offline, still-managed
copy of a duplicated hostname is quarantined: it is unmanaged, added to the
cloud config group (CCG) "MarkedAsReplaced", and recorded in a JSON
expiration store with a deadline 30 days out. On later runs, devices whose
deadline has passed are deleted. Records of devices that have left the
inventory are dropped. The CCG is deleted once it has no members.

This project models one run of that script as a pure function,
`Reconcile.Run(Input): Outcome`.

- **Input**: the device snapshot, the CCG lookup result, the store file
  contents, the two timestamps, and the set of remote calls that would fail.
- **Outcome**: the remote calls in the order issued, the store file contents
  after the run, whether the file was rewritten, the CCG members reported as
  untracked, and how the run ended (completed, aborted by a failing call, or
  crashed).

## Modules

| file | module | contents |
|---|---|---|
| `types.dfy` | `Types` | devices, store records, the CCG, calls, inputs and outcomes |
| `seqs.dfy` | `Seqs` | `Without` (the `not in` list comprehensions), `Extend` (membership extended without repeats), `Distinct`, `Subsequence` |
| `inventory.dfy` | `Inventory` | the duplicate filter of line 77; the candidate loop of lines 124-132, with a snapshot-order reference definition |
| `expiry.dfy` | `Expiry` | the classification loop of lines 83-91 and the store filtering of lines 100-106 |
| `reconcile.dfy` | `Reconcile` | the branches of lines 108-217 and `Run` |
| `properties.dfy` | `Properties` | what each branch does, stated against the reference predicates |
| `remote.dfy` | `Remote` | the effect of each call on the remote side, as the script relies on it |
| `rerun.dfy` | `Rerun` | a second run, right after a completed one, makes no call and no write |

## Behaviour as written

Where the script's behaviour is easy to misread, the model follows the code:

- **Save rule.** The store file is written when the run gets past the
  no-duplicates exit and a record was due or vanished, or a candidate exists.
  - Line 194 sets the flag even when every candidate was already a CCG
    member, so no record is added.
  - The no-duplicates branch leaves through line 122, before the write at
    line 220. Records the expiry pass removed are therefore not saved
    (`Properties.RunSaveRule`).
- **New records are checked against the CCG, not the store.** A candidate
  that still has a record gets a second one when no CCG was found
  (`Properties.StoreNotDeduplicated`).
- **Due devices and no CCG.** Line 101 fails when devices are due and no CCG
  was found. The model ends the run with `Crashed` after the batch delete
  was issued.
- **Empty inventory.** On an empty data frame, pandas' `duplicated` returns
  an empty mask without looking at the `hostname` column. So line 77 gives
  no rows, and the run takes the no-duplicates branch of lines 108-122.
  There, every record counts as not found, but the file is not rewritten.
  A CCG found with no member is deleted (`Properties.RunEmptyInventory`).
- **Failing calls.** Lines 33-41, 112-118, 136-148, 158-163, 180-185 and 209-215 end
  the run when a call raises or does not report success. The model states
  this as `Aborted(call)`: the failing call is the last one issued and the
  store file is not written.

## Model

| member | source | states |
|---|---|---|
| `Inventory.DuplicatedRows` | XIQ_Duplicate_AP_Check.py:77 | a snapshot row is kept, with all its copies, exactly when its hostname occurs at least twice; the result is empty exactly when no hostname repeats |
| `Inventory.Hostnames` | XIQ_Duplicate_AP_Check.py:124 | each hostname of the duplicated rows exactly once |
| `Inventory.PickHostsPerm` | XIQ_Duplicate_AP_Check.py:129-132 | looping over distinct hostnames picks the same ids, as a multiset, as one pass over the rows restricted to those hostnames |
| `Inventory.CandidatesPerm` | XIQ_Duplicate_AP_Check.py:124-132 | the candidate list is a permutation of the reference list of candidate devices in snapshot order |
| `Inventory.Candidates` | XIQ_Duplicate_AP_Check.py:124-132 | an id is a candidate exactly when its device's hostname is duplicated, it is offline and it is MANAGED; each snapshot device contributes at most once; the list is non-empty exactly when some candidate exists |
| `Inventory.EligibleAsReported` | XIQ_Duplicate_AP_Check.py:131 | a device is eligible exactly when it is offline and its reported admin state is the string "MANAGED" |
| `Expiry.ExpiredIds` | XIQ_Duplicate_AP_Check.py:85-88 | an id is listed as expired exactly when it is in the snapshot and one of its records has `expire_at <= current_time` |
| `Expiry.VanishedIds` | XIQ_Duplicate_AP_Check.py:85-91 | an id is listed as not found exactly when a record tracks it and it is absent from the snapshot |
| `Expiry.ClassesPartition` | XIQ_Duplicate_AP_Check.py:85-91 | every record falls into exactly one of expired, not found and kept |
| `Expiry.DropIds` | XIQ_Duplicate_AP_Check.py:100 | the filter keeps a record exactly when its id is not listed, with its multiplicity |
| `Expiry.ExpiryPass` | XIQ_Duplicate_AP_Check.py:83-106 | the two lists are disjoint; the surviving store holds exactly the records whose id is in neither list, with their multiplicities, and each of them is neither due nor vanished; the file-change flag is set exactly when a list is non-empty |
| `Expiry.PassKeepsOrder` | XIQ_Duplicate_AP_Check.py:100-105 | the surviving records keep their relative order |
| `Seqs.Without` | XIQ_Duplicate_AP_Check.py:101 | the comprehension keeps each element not in the drop list with its multiplicity and nothing else |
| `Seqs.Extend` | XIQ_Duplicate_AP_Check.py:178-179 | the old membership is kept as a prefix, followed by exactly the new ids not already in it; nothing repeats when neither input repeats |
| `Reconcile.NewRecords` | XIQ_Duplicate_AP_Check.py:193 | one record per id, in order, each with `added_time = current_time` and `expire_at = expire_time` |
| `Reconcile.Untracked` | XIQ_Duplicate_AP_Check.py:200 | a member is reported exactly when no record of the store carries its id |
| `Reconcile.GroupMembers` | XIQ_Duplicate_AP_Check.py:101 | the CCG membership loses exactly the due ids, with every other id's multiplicity unchanged |
| `Reconcile.PassLists` | XIQ_Duplicate_AP_Check.py:92-106 | the expired list is non-empty exactly when some record is due, and the not-found list exactly when some record has vanished |
| `Reconcile.NoDuplicates` | XIQ_Duplicate_AP_Check.py:108-122 | the branch never deletes devices and never writes the store; it only completes or aborts on the CCG delete |
| `Reconcile.Quarantine` | XIQ_Duplicate_AP_Check.py:134-194 | the branch writes the store exactly when it completes, and never crashes |
| `Reconcile.NoCandidates` | XIQ_Duplicate_AP_Check.py:196-217 | the branch deletes no device; it writes only when it completes |
| `Reconcile.Settle` | XIQ_Duplicate_AP_Check.py:108-217 | after the expiry pass no device is deleted, and the store is written only on completion |
| `Reconcile.Run` | XIQ_Duplicate_AP_Check.py:54-223 | the run crashes exactly when devices are due, no CCG was found and the batch delete succeeds; the store is written only by a completed run |
| `Properties.RunDeletesDue` | XIQ_Duplicate_AP_Check.py:85-99 | the only device delete is the first call; it lists exactly the due ids, never a not-found id, and is issued whenever something is due |
| `Properties.RunEmptyInventory` | XIQ_Duplicate_AP_Check.py:77-122 | an empty snapshot takes the no-duplicates branch: no record is due, every record is dropped as not found but the file is not rewritten, and the only possible call deletes a CCG found with no member |
| `Properties.RunNoDuplicates` | XIQ_Duplicate_AP_Check.py:108-122 | with no duplicates, the CCG is deleted exactly when it was found and every member was due; no other call follows the batch delete, and the store file is not written |
| `Properties.RunCreatesGroup` | XIQ_Duplicate_AP_Check.py:134-168 | with candidates and no CCG, the candidates are unmanaged first and then the CCG is created with all of them; a completed run appends one record per candidate after the surviving records |
| `Properties.RunUpdatesGroup` | XIQ_Duplicate_AP_Check.py:134-194 | with candidates and a CCG, the batch delete is followed by the unmanage of the candidates and, unless that fails, by the CCG update to its post-expiry membership followed by exactly the candidates not in it; the run completes exactly when neither call fails and only then writes, adding records for the added ids only; no surviving member is dropped, nothing is added twice, and the list is never empty |
| `Properties.RunNoCandidates` | XIQ_Duplicate_AP_Check.py:196-217 | with duplicates but no candidate, the CCG is deleted exactly when it was found and every member was due, and nothing else follows the batch delete |
| `Properties.RunReportsUntracked` | XIQ_Duplicate_AP_Check.py:198-204 | the warning lists exactly the CCG members that were not due and either left the snapshot or never had a record |
| `Properties.RunSaveRule` | XIQ_Duplicate_AP_Check.py:102-221 | the store file is written exactly when the run completes, there are duplicates, and a record was due or vanished or a candidate exists |
| `Properties.RunCallsJustified` | XIQ_Duplicate_AP_Check.py:92-217 | every call is justified: only candidates are unmanaged; the CCG is created only with candidates and no CCG, updated only with candidates and a CCG, and deleted only when it was found, there is no candidate and every member was due |
| `Properties.StoreNotDeduplicated` | XIQ_Duplicate_AP_Check.py:151-194 | a tracked, not yet due candidate gets a second record when no CCG was found |
| `Rerun.DevicesAfterRun` | XIQ_Duplicate_AP_Check.py:92-148 | every device left behind was in the snapshot under the same id, hostname and connection state, was not due, and is managed only if it was managed and not a candidate |
| `Rerun.NotDueRemain` | XIQ_Duplicate_AP_Check.py:92-99 | every device that was not due is still there after the run |
| `Rerun.CountsAfterRun` | XIQ_Duplicate_AP_Check.py:92-148 | no hostname gains a device |
| `Rerun.GroupNeverLeftEmpty` | XIQ_Duplicate_AP_Check.py:101-217 | a completed run never leaves the CCG existing with no member |
| `Rerun.StoreAfterRun` | XIQ_Duplicate_AP_Check.py:100-221 | every record written was already in the store (and survived the pass, once there are duplicates) or is a new record for a candidate with this run's deadline |
| `Rerun.QuietRun` | XIQ_Duplicate_AP_Check.py:92-220 | with nothing due, no candidate, no vanished record when there are duplicates, and no empty CCG, a run makes no call and does not write |
| `Rerun.NextNothingDue` | XIQ_Duplicate_AP_Check.py:85-88 | after a completed run whose new deadline is later than its clock, nothing is due on the next run with the same clock |
| `Rerun.NextNoCandidates` | XIQ_Duplicate_AP_Check.py:129-137 | on the next run there is no candidate |
| `Rerun.NextNothingGone` | XIQ_Duplicate_AP_Check.py:85-91 | after a completed run in which every tracked device was unmanaged, once the next run sees duplicates, every record tracks a device still in the snapshot |
| `Rerun.RerunIsQuiet` | XIQ_Duplicate_AP_Check.py:54-223 | running again right after a completed run, against the state it left behind with the clock unchanged, makes no call and does not write the store |

## Left out

- JSON loading and saving (lines 59-65 and 222-223): the store is a sequence
  and the write is the `written` flag. A missing file is an empty store.
- The clock (lines 54-57): `now` and `expireTime` are integer parameters. The
  30-day offset, `mktime` rounding and daylight-saving effects are not
  modelled.
- The service client in `app/xiq_api.py` (HTTP, login, pagination, status
  codes). `app/xiq_api.py` is not part of this model. Each call becomes an
  `Action`. Whether it fails is the `failing` input. The device list and the
  CCG lookup are inputs.
- The token check at lines 15-19: configuration, not logic.
- Logging and printing, including the "already in the CCG" message at
  lines 173-177, which changes nothing.
- The service's reaction to the calls: `Remote.Apply` is an assumption. It
  presumes that deleting a device also removes it from the CCG membership,
  that unmanaging changes only the admin state, and that a created CCG gets
  a fresh id. The idempotence lemmas rest on it.
- Inventory.Candidates: the contract states the candidate list as a
  permutation of the snapshot-order reference list. It does not state the
  hostname-grouped order the body computes.
- Rerun.RerunIsQuiet: idempotence is proved under two hypotheses. The clock
  is still before the new deadline. Every device the store tracks is not
  managed, since a device someone managed again by hand would be a candidate
  again.
- Rerun.NextNothingDue: proved only when the first run's new deadline is
  later than its clock and the next run reads the same clock. A record
  stamped with a deadline already passed would be due at once.
- Rerun.NextNothingGone: proved only after a completed run in which every
  tracked device was unmanaged. Suppose a due device was managed again by
  hand and is an offline duplicate. It is deleted at line 94, but it is
  still a candidate in the rows filtered at line 77. So it is stamped
  again at line 193, and its new record tracks a device that is gone.
- Admin states are an enumeration of the reported strings, mapped by
  `Types.AdminStateOf`; pandas' handling of the data frame (column types,
  missing columns) is not part of this model.
- Concurrent runs: the script takes no lock, and the model covers one run at
  a time.
