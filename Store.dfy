/**
 * The local record store and its sync rules (App.tsx): capture appends a
 * pending record and may try one upload; "sync all" uploads every pending
 * record in turn and marks those whose dispatch did not throw; clear
 * empties the store after confirmation.
 *
 * The network is an oracle: `outcomes[k]` is `true` when the k-th upload of
 * a sync pass throws (an index past its end means the dispatch went out).
 */
module Store {
  import opened Text
  import opened Json
  import opened Types
  import opened RecordId

  // ---------------------------------------------------------------------
  // Pending records
  // ---------------------------------------------------------------------

  /** The positions in `entries` of the pending records, in store order. */
  function PendingPositions(entries: seq<Entry>): (ps: seq<nat>)
    ensures forall j :: 0 <= j < |ps| ==> ps[j] < |entries| && !entries[ps[j]].uploaded
    ensures forall j, k :: 0 <= j < k < |ps| ==> ps[j] < ps[k]
  {
    if entries == [] then []
    else
      var n := |entries| - 1;
      PendingPositions(entries[..n]) + (if !entries[n].uploaded then [n] else [])
  }

  /** Every pending record has a pending position. */
  lemma {:induction false} PendingPositionsCover(entries: seq<Entry>, i: nat)
    requires i < |entries| && !entries[i].uploaded
    ensures i in PendingPositions(entries)
  {
    var n := |entries| - 1;
    if i < n {
      PendingPositionsCover(entries[..n], i);
    }
  }

  /** `entries.filter(e => !e.uploaded)` */
  function Pending(entries: seq<Entry>): (r: seq<Entry>)
    ensures |r| == |PendingPositions(entries)|
    ensures forall j :: 0 <= j < |r| ==> r[j] == entries[PendingPositions(entries)[j]]
  {
    if entries == [] then []
    else
      var n := |entries| - 1;
      Pending(entries[..n]) + (if !entries[n].uploaded then [entries[n]] else [])
  }

  /** Whether the k-th upload of a pass throws. */
  predicate Throws(outcomes: seq<bool>, k: nat) {
    k < |outcomes| && outcomes[k]
  }

  /** The number of the first `k` uploads that do not throw. */
  function Dispatched(outcomes: seq<bool>, k: nat): (r: nat)
    ensures r <= k
  {
    if k == 0 then 0 else Dispatched(outcomes, k - 1) + (if Throws(outcomes, k - 1) then 0 else 1)
  }

  /** `findIndex(e => e.id === id)`, `None` for -1. */
  function FirstIndexOf(entries: seq<Entry>, id: string): (r: Option<nat>)
    ensures r.None? ==> forall i :: 0 <= i < |entries| ==> entries[i].id != id
    ensures r.Some? ==> r.value < |entries| && entries[r.value].id == id &&
                        forall i :: 0 <= i < r.value ==> entries[i].id != id
  {
    if entries == [] then None
    else if entries[0].id == id then Some(0)
    else
      match FirstIndexOf(entries[1..], id)
      case None => None
      case Some(k) => Some(k + 1)
  }

  // ---------------------------------------------------------------------
  // syncPendingEntries
  // ---------------------------------------------------------------------

  /** The working copy and the success counter of a sync pass. */
  datatype Progress = Progress(updated: seq<Entry>, successCount: nat)

  /** The state of a sync pass over `pending` after its first `k` uploads:
      a dispatch that did not throw marks the first record with the same id
      and counts one success. */
  function SyncAfter(entries: seq<Entry>, pending: seq<Entry>, outcomes: seq<bool>, k: nat): Progress
    requires k <= |pending|
  {
    if k == 0 then Progress(entries, 0)
    else
      var p := SyncAfter(entries, pending, outcomes, k - 1);
      if Throws(outcomes, k - 1) then p
      else
        match FirstIndexOf(p.updated, pending[k - 1].id)
        case None => p
        case Some(i) => Progress(p.updated[i := p.updated[i].(uploaded := true)], p.successCount + 1)
  }

  /** The toast a sync shows. */
  datatype SyncReport = AlreadySynced | NoConnection | Uploaded(count: nat) | SyncFailed

  /** The store afterwards, the toast, and the records whose upload was tried. */
  datatype SyncResult = SyncResult(entries: seq<Entry>, report: SyncReport, attempted: seq<Entry>)

  function Sync(entries: seq<Entry>, online: bool, outcomes: seq<bool>): SyncResult {
    var pending := Pending(entries);
    if |pending| == 0 then SyncResult(entries, AlreadySynced, [])
    else if !online then SyncResult(entries, NoConnection, [])
    else
      var p := SyncAfter(entries, pending, outcomes, |pending|);
      SyncResult(p.updated, if p.successCount > 0 then Uploaded(p.successCount) else SyncFailed, pending)
  }

  /** Same records in the same order; at most the `uploaded` flags differ. */
  predicate SameRecords(before: seq<Entry>, after: seq<Entry>) {
    |after| == |before| &&
    forall i :: 0 <= i < |before| ==> after[i] == before[i].(uploaded := after[i].uploaded)
  }

  /** No record goes back from uploaded to pending. */
  predicate FlagsMonotone(before: seq<Entry>, after: seq<Entry>)
    requires |after| == |before|
  {
    forall i :: 0 <= i < |before| && before[i].uploaded ==> after[i].uploaded
  }

  /** The number of records that went from pending to uploaded. */
  function Flips(before: seq<Entry>, after: seq<Entry>): (r: nat)
    requires |after| == |before|
    ensures r <= |before|
  {
    if before == [] then 0
    else
      var n := |before| - 1;
      Flips(before[..n], after[..n]) + (if !before[n].uploaded && after[n].uploaded then 1 else 0)
  }

  lemma {:induction false} FlipsOne(before: seq<Entry>, after: seq<Entry>, i: nat)
    requires |after| == |before| && i < |before|
    requires !before[i].uploaded && !after[i].uploaded
    ensures Flips(before, after[i := after[i].(uploaded := true)]) == Flips(before, after) + 1
  {
    var after' := after[i := after[i].(uploaded := true)];
    var n := |before| - 1;
    assert after'[..n] == if i < n then after[..n][i := after[i].(uploaded := true)] else after[..n];
    if i < n {
      FlipsOne(before[..n], after[..n], i);
    }
  }

  /** However ids repeat, a sync pass keeps every record, its position and
      every field but `uploaded`, never turns a flag back to pending, and
      counts at most one success per upload. */
  lemma {:induction false} SyncAfterKeepsRecords(entries: seq<Entry>, pending: seq<Entry>, outcomes: seq<bool>, k: nat)
    requires k <= |pending|
    ensures var p := SyncAfter(entries, pending, outcomes, k);
      SameRecords(entries, p.updated) && FlagsMonotone(entries, p.updated) &&
      p.successCount <= Dispatched(outcomes, k)
  {
    if k > 0 {
      SyncAfterKeepsRecords(entries, pending, outcomes, k - 1);
    }
  }

  /** With distinct ids, the first record carrying a record's id is that
      record itself, in any copy that kept the ids. */
  lemma FirstIndexOfDistinct(entries: seq<Entry>, copy: seq<Entry>, at: nat)
    requires DistinctIds(entries) && SameRecords(entries, copy) && at < |entries|
    ensures FirstIndexOf(copy, entries[at].id) == Some(at)
  {
    assert forall i :: 0 <= i < |entries| ==> copy[i].id == entries[i].id;
  }

  /** One upload of a pass over distinct ids: a throw changes nothing,
      otherwise the record at the k-th pending position is marked. */
  lemma SyncStepDistinct(entries: seq<Entry>, outcomes: seq<bool>, k: nat)
    requires DistinctIds(entries)
    requires 0 < k <= |Pending(entries)|
    requires SameRecords(entries, SyncAfter(entries, Pending(entries), outcomes, k - 1).updated)
    ensures var q := SyncAfter(entries, Pending(entries), outcomes, k - 1);
      var at := PendingPositions(entries)[k - 1];
      SyncAfter(entries, Pending(entries), outcomes, k) ==
        if Throws(outcomes, k - 1) then q
        else Progress(q.updated[at := q.updated[at].(uploaded := true)], q.successCount + 1)
  {
    var q := SyncAfter(entries, Pending(entries), outcomes, k - 1);
    FirstIndexOfDistinct(entries, q.updated, PendingPositions(entries)[k - 1]);
  }

  /** With distinct ids, after the first `k` uploads of a pass, the copy
      `u` and the counter `c` are right: exactly the pending records among
      the first `k` whose upload did not throw are marked, already-uploaded
      records are untouched, and the counter equals both the number of
      marked records and the number of uploads that did not throw. */
  predicate MarkedAfter(entries: seq<Entry>, outcomes: seq<bool>, k: nat, u: seq<Entry>, c: nat) {
    var ps := PendingPositions(entries);
    && SameRecords(entries, u)
    && (forall j :: 0 <= j < |ps| ==> (u[ps[j]].uploaded <==> j < k && !Throws(outcomes, j)))
    && (forall i :: 0 <= i < |entries| && entries[i].uploaded ==> u[i] == entries[i])
    && c == Flips(entries, u) == Dispatched(outcomes, k)
  }

  /** A dispatched upload marks the next pending record and keeps `MarkedAfter`. */
  lemma MarkStep(entries: seq<Entry>, outcomes: seq<bool>, k: nat, u: seq<Entry>, c: nat)
    requires 0 < k <= |PendingPositions(entries)| && !Throws(outcomes, k - 1)
    requires MarkedAfter(entries, outcomes, k - 1, u, c)
    ensures var at := PendingPositions(entries)[k - 1];
      MarkedAfter(entries, outcomes, k, u[at := u[at].(uploaded := true)], c + 1)
  {
    var ps := PendingPositions(entries);
    var at := ps[k - 1];
    FlipsOne(entries, u, at);
    forall j | 0 <= j < |ps| && j != k - 1
      ensures ps[j] != at
    {
    }
  }

  /** With distinct ids a sync pass keeps `MarkedAfter` at every step. */
  lemma {:induction false} SyncAfterDistinct(entries: seq<Entry>, outcomes: seq<bool>, k: nat)
    requires DistinctIds(entries)
    requires k <= |Pending(entries)|
    ensures var p := SyncAfter(entries, Pending(entries), outcomes, k);
      MarkedAfter(entries, outcomes, k, p.updated, p.successCount)
  {
    if k == 0 {
      FlipsNone(entries);
    } else {
      var q := SyncAfter(entries, Pending(entries), outcomes, k - 1);
      SyncAfterDistinct(entries, outcomes, k - 1);
      SyncStepDistinct(entries, outcomes, k);
      if Throws(outcomes, k - 1) {
        ThrowStep(entries, outcomes, k, q.updated, q.successCount);
      } else {
        MarkStep(entries, outcomes, k, q.updated, q.successCount);
      }
    }
  }

  /** An upload that throws marks nothing and keeps `MarkedAfter`. */
  lemma ThrowStep(entries: seq<Entry>, outcomes: seq<bool>, k: nat, u: seq<Entry>, c: nat)
    requires 0 < k <= |PendingPositions(entries)| && Throws(outcomes, k - 1)
    requires MarkedAfter(entries, outcomes, k - 1, u, c)
    ensures MarkedAfter(entries, outcomes, k, u, c)
  {
  }

  lemma {:induction false} FlipsNone(entries: seq<Entry>)
    ensures Flips(entries, entries) == 0
  {
    if entries != [] {
      FlipsNone(entries[..|entries| - 1]);
    }
  }

  /**
   * The sync contract:
   * - with nothing pending or while offline nothing is uploaded and the
   *   store is unchanged;
   * - otherwise every pending record is tried once, in store order, and
   *   records, order, ids and every field but `uploaded` are kept;
   * - with distinct ids a record is uploaded afterwards iff it was already,
   *   or it was pending and its upload did not throw; the success count is
   *   the number of records flipped, at most the number pending; the
   *   success toast is shown iff that count is positive.
   */
  lemma SyncContract(entries: seq<Entry>, online: bool, outcomes: seq<bool>)
    ensures var r := Sync(entries, online, outcomes);
      && (|Pending(entries)| == 0 || !online ==> r.entries == entries && r.attempted == [])
      && (|Pending(entries)| > 0 && online ==> r.attempted == Pending(entries))
      && SameRecords(entries, r.entries) && FlagsMonotone(entries, r.entries)
    ensures var r := Sync(entries, online, outcomes);
      var ps := PendingPositions(entries);
      DistinctIds(entries) && |ps| > 0 && online ==>
        && (forall i :: 0 <= i < |entries| && entries[i].uploaded ==> r.entries[i] == entries[i])
        && (forall j :: 0 <= j < |ps| ==> (r.entries[ps[j]].uploaded <==> !Throws(outcomes, j)))
        && (r.report.Uploaded? <==> Flips(entries, r.entries) > 0)
        && (r.report.Uploaded? ==> r.report.count == Flips(entries, r.entries) == Dispatched(outcomes, |ps|))
        && Flips(entries, r.entries) <= |ps|
  {
    var pending := Pending(entries);
    SyncAfterKeepsRecords(entries, pending, outcomes, |pending|);
    if DistinctIds(entries) {
      SyncAfterDistinct(entries, outcomes, |pending|);
    }
  }

  /** Why the count needs distinct ids: a pending record whose id an earlier
      uploaded record already carries is dispatched and counted, but
      `findIndex` marks the earlier record, so the pending one stays
      pending while the toast reports one upload. */
  lemma SyncCountsDuplicateIdWithoutFlipping(a: Entry)
    ensures var entries := [a.(uploaded := true), a.(uploaded := false)];
      var r := Sync(entries, true, []);
      r.report == Uploaded(1) && r.entries == entries && Flips(entries, r.entries) == 0
  {
    var entries := [a.(uploaded := true), a.(uploaded := false)];
    assert entries[..1] == [a.(uploaded := true)];
    assert Pending(entries) == [a.(uploaded := false)] by {
      assert Pending(entries[..1]) == [] by {
        assert entries[..1][..0] == [];
      }
    }
    var pending := Pending(entries);
    assert FirstIndexOf(entries, a.id) == Some(0);
    assert entries[0 := entries[0].(uploaded := true)] == entries;
    assert SyncAfter(entries, pending, [], 1) == Progress(entries, 1) by {
      assert SyncAfter(entries, pending, [], 0) == Progress(entries, 0);
    }
    FlipsNone(entries);
  }

  // ---------------------------------------------------------------------
  // handleCapture
  // ---------------------------------------------------------------------

  /** What the clock says at capture time: the local-time fields, the ISO
      string and the locale display string. */
  datatype Clock = Clock(parts: DateParts, iso: string, locale: string)

  /** The toast a capture ends with. */
  datatype CaptureReport = Sent | UploadFailedSavedLocally | SavedOffline

  /** The record a capture creates. `fixed6` is `toFixed(6)`; the photo is
      the one with metadata embedded (or the original when embedding
      failed). */
  function NewEntry(clock: Clock, gps: Option<GpsLocation>, form: FormState, foto: string,
                    storeLength: nat, fixed6: Num -> string): (e: Entry)
    requires ValidParts(clock.parts)
    ensures e.id == FormatId(clock.parts) && e.foto == foto && e.gps == gps
    ensures !e.uploaded && e.noPohon == storeLength + 1 && e.statusDuplikat == Some("UNIK")
    ensures gps.None? ==> e.x == Zero && e.y == Zero
    ensures gps.Some? ==> e.x == gps.value.lat && e.y == gps.value.lon
  {
    var lat := if gps.Some? then gps.value.lat else Zero;
    var lon := if gps.Some? then gps.value.lon else Zero;
    Entry(
      id := FormatId(clock.parts),
      tanggal := clock.locale,
      timestamp := clock.iso,
      gps := gps,
      lokasi := fixed6(lat) + "," + fixed6(lon),
      pekerjaan := form.pekerjaan,
      tinggi := form.tinggi,
      koordinat := fixed6(lat) + "," + fixed6(lon),
      y := lon,
      x := lat,
      tanaman := form.jenis,
      tahunTanam := form.tahunTanam,
      pengawas := form.pengawas,
      vendor := form.vendor,
      tim := form.tim,
      kesehatan := form.kesehatan,
      foto := foto,
      uploaded := false,
      noPohon := storeLength + 1,
      description := None,
      linkDrive := None,
      statusDuplikat := Some("UNIK"),
      statusVerifikasi := None)
  }

  /** `prev.map(e => e.id === id ? { ...e, uploaded: true } : e)` */
  function MarkUploaded(entries: seq<Entry>, id: string): (r: seq<Entry>)
    ensures SameRecords(entries, r)
    ensures forall i :: 0 <= i < |r| ==> r[i].uploaded == (entries[i].uploaded || entries[i].id == id)
  {
    seq(|entries|, i requires 0 <= i < |entries| =>
      if entries[i].id == id then entries[i].(uploaded := true) else entries[i])
  }

  /** Whether a capture tries an upload: a URL is set and the device is online. */
  predicate TriesUpload(url: string, online: bool) {
    url != "" && online
  }

  datatype CaptureResult = CaptureResult(entries: seq<Entry>, report: CaptureReport, attempted: bool)

  function Capture(entries: seq<Entry>, clock: Clock, gps: Option<GpsLocation>, form: FormState,
                   foto: string, url: string, online: bool, uploadThrows: bool,
                   fixed6: Num -> string): CaptureResult
    requires ValidParts(clock.parts)
  {
    var e := NewEntry(clock, gps, form, foto, |entries|, fixed6);
    var saved := entries + [e];
    if !TriesUpload(url, online) then CaptureResult(saved, SavedOffline, false)
    else if uploadThrows then CaptureResult(saved, UploadFailedSavedLocally, true)
    else CaptureResult(MarkUploaded(saved, e.id), Sent, true)
  }

  /**
   * The capture contract: exactly one record is appended at the end, with
   * the identity of the capture instant, `noPohon` one past the old length
   * and duplicate status "UNIK". An upload is tried only when a URL is set
   * and the device is online; the new record is uploaded iff that upload
   * did not throw. Earlier records keep their order and fields; only one
   * sharing the new id can be marked as well, and with a fresh id none is.
   */
  lemma CaptureContract(entries: seq<Entry>, clock: Clock, gps: Option<GpsLocation>, form: FormState,
                        foto: string, url: string, online: bool, uploadThrows: bool,
                        fixed6: Num -> string)
    requires ValidParts(clock.parts)
    ensures var r := Capture(entries, clock, gps, form, foto, url, online, uploadThrows, fixed6);
      var id := FormatId(clock.parts);
      && |r.entries| == |entries| + 1
      && r.attempted == TriesUpload(url, online)
      && r.entries[|entries|] == NewEntry(clock, gps, form, foto, |entries|, fixed6).(uploaded := r.entries[|entries|].uploaded)
      && (r.entries[|entries|].uploaded <==> TriesUpload(url, online) && !uploadThrows)
      && r.entries[|entries|].noPohon == |entries| + 1
      && SameRecords(entries, r.entries[..|entries|])
      && (forall i :: 0 <= i < |entries| && entries[i].id != id ==> r.entries[i] == entries[i])
      && (r.report == Sent <==> r.entries[|entries|].uploaded)
  {
    var e := NewEntry(clock, gps, form, foto, |entries|, fixed6);
    var r := Capture(entries, clock, gps, form, foto, url, online, uploadThrows, fixed6);
    assert (entries + [e])[..|entries|] == entries;
    assert (entries + [e])[|entries|] == e;
  }

  // ---------------------------------------------------------------------
  // The store
  // ---------------------------------------------------------------------

  /** The records kept in local storage, in insertion order. */
  class RecordStore {
    var entries: seq<Entry>

    /** Loads the saved records. */
    constructor (saved: seq<Entry>)
      ensures entries == saved
    {
      entries := saved;
    }

    /** `syncPendingEntries`: uploads the pending records one at a time and
        writes the marked copy back. */
    method SyncPendingEntries(online: bool, outcomes: seq<bool>) returns (report: SyncReport, attempted: seq<Entry>)
      modifies this
      ensures SyncResult(entries, report, attempted) == Sync(old(entries), online, outcomes)
    {
      var pending := Pending(entries);
      if |pending| == 0 {
        return AlreadySynced, [];
      }
      if !online {
        return NoConnection, [];
      }
      var successCount := 0;
      var updatedEntries := entries;
      for k := 0 to |pending|
        invariant Progress(updatedEntries, successCount) == SyncAfter(entries, pending, outcomes, k)
      {
        if !Throws(outcomes, k) {
          var index := FirstIndexOf(updatedEntries, pending[k].id);
          if index.Some? {
            updatedEntries := updatedEntries[index.value := updatedEntries[index.value].(uploaded := true)];
            successCount := successCount + 1;
          }
        }
      }
      entries := updatedEntries;
      report := if successCount > 0 then Uploaded(successCount) else SyncFailed;
      attempted := pending;
    }

    /** `handleCapture`: saves the new record first, then, when a URL is set
        and the device is online, tries one upload and marks the record on
        success. */
    method HandleCapture(clock: Clock, gps: Option<GpsLocation>, form: FormState, foto: string,
                         url: string, online: bool, uploadThrows: bool, fixed6: Num -> string)
      returns (report: CaptureReport, attempted: bool)
      requires ValidParts(clock.parts)
      modifies this
      ensures CaptureResult(entries, report, attempted) ==
              Capture(old(entries), clock, gps, form, foto, url, online, uploadThrows, fixed6)
    {
      var finalEntry := NewEntry(clock, gps, form, foto, |entries|, fixed6);
      entries := entries + [finalEntry];
      if url != "" && online {
        attempted := true;
        if uploadThrows {
          report := UploadFailedSavedLocally;
        } else {
          entries := MarkUploaded(entries, finalEntry.id);
          report := Sent;
        }
      } else {
        attempted := false;
        report := SavedOffline;
      }
    }

    /** `handleClearData`: empties the store only when the operator confirms. */
    method HandleClearData(confirmed: bool)
      modifies this
      ensures confirmed ==> entries == []
      ensures !confirmed ==> entries == old(entries)
    {
      if confirmed {
        entries := [];
      }
    }
  }
}
