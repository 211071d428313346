/**
 * The storage tab (components/DataTab.tsx): the pending count, the records
 * newest first, the newest record, five records per page with clamped
 * page moves, and the "sync all" button.
 *
 * `new Date(timestamp).getTime()` is a parameter `time`.
 */
module DataView {
  import opened Text
  import opened Types
  import opened Sorting
  import opened Store

  const ItemsPerPage: nat := 5

  /** The indices of the records not yet uploaded. */
  function PendingIndices(entries: seq<Entry>): set<nat> {
    set i: nat | i < |entries| && !entries[i].uploaded
  }

  /** `entries.filter(e => !e.uploaded).length` */
  function PendingCount(entries: seq<Entry>): nat {
    |Pending(entries)|
  }

  /** The pending count is the number of records whose flag is unset. */
  lemma {:induction false} PendingCountCounts(entries: seq<Entry>)
    ensures PendingCount(entries) == |PendingIndices(entries)|
  {
    if entries != [] {
      var n := |entries| - 1;
      PendingCountCounts(entries[..n]);
      if entries[n].uploaded {
        assert PendingIndices(entries) == PendingIndices(entries[..n]);
      } else {
        assert PendingIndices(entries) == PendingIndices(entries[..n]) + {n};
      }
    }
  }

  /** The button is shown exactly when "sync all" would have work to do:
      a zero count is the store's "already synced" case. */
  lemma PendingCountMatchesSync(entries: seq<Entry>, online: bool, outcomes: seq<bool>)
    ensures PendingCount(entries) == 0 <==> Sync(entries, online, outcomes).report == AlreadySynced
  {
  }

  /** `[...entries].sort((a, b) => time(b.timestamp) - time(a.timestamp))` */
  function SortedEntries(entries: seq<Entry>, time: string -> int): seq<Entry> {
    SortDescending(entries, (e: Entry) => time(e.timestamp))
  }

  /** The view holds the same records, newest first, records with equal
      times in store order. The store itself is a value and is untouched. */
  lemma SortedView(entries: seq<Entry>, time: string -> int, t: int)
    ensures var sorted := SortedEntries(entries, time);
      && multiset(sorted) == multiset(entries)
      && (forall i, j :: 0 <= i < j < |sorted| ==> time(sorted[i].timestamp) >= time(sorted[j].timestamp))
      && WithKey(sorted, (e: Entry) => time(e.timestamp), t) == WithKey(entries, (e: Entry) => time(e.timestamp), t)
  {
    var key := (e: Entry) => time(e.timestamp);
    SortPermutes(entries, key);
    SortDescends(entries, key);
    SortStable(entries, key, t);
  }

  /** `sortedEntries[0]`; `None` is `undefined` for an empty store. */
  function LatestEntry(sorted: seq<Entry>): Option<Entry> {
    if sorted == [] then None else Some(sorted[0])
  }

  /** The newest record is one of the store's records and no record is
      newer; there is one exactly when the store is not empty. */
  lemma LatestIsNewest(entries: seq<Entry>, time: string -> int)
    ensures var latest := LatestEntry(SortedEntries(entries, time));
      && (latest.Some? <==> entries != [])
      && (latest.Some? ==> latest.value in entries &&
                           forall e :: e in entries ==> time(e.timestamp) <= time(latest.value.timestamp))
  {
    var key := (e: Entry) => time(e.timestamp);
    var sorted := SortedEntries(entries, time);
    SortPermutes(entries, key);
    SortDescends(entries, key);
    if sorted != [] {
      assert sorted[0] in multiset(entries);
      forall e | e in entries
        ensures time(e.timestamp) <= time(sorted[0].timestamp)
      {
        assert e in multiset(sorted);
        var j :| 0 <= j < |sorted| && sorted[j] == e;
        if j > 0 {
          assert key(sorted[0]) >= key(sorted[j]);
        }
      }
    } else {
      assert |entries| == |multiset(entries)| == |multiset(sorted)| == 0;
    }
  }

  /** `sortedEntries.slice((page - 1) * 5, page * 5)` */
  function Page(sorted: seq<Entry>, page: int): seq<Entry> {
    JsSlice(sorted, (page - 1) * ItemsPerPage, page * ItemsPerPage)
  }

  /** `Math.ceil(entries.length / 5)` */
  function TotalPages(n: nat): (t: nat)
    ensures t * ItemsPerPage >= n
    ensures t > 0 ==> (t - 1) * ItemsPerPage < n
  {
    (n + ItemsPerPage - 1) / ItemsPerPage
  }

  /** A page within range holds the next (at most) five sorted records. */
  lemma PageContents(sorted: seq<Entry>, page: int)
    requires 1 <= page
    ensures var lo := (page - 1) * ItemsPerPage;
            var hi := if page * ItemsPerPage <= |sorted| then page * ItemsPerPage else |sorted|;
      && |Page(sorted, page)| <= ItemsPerPage
      && (lo <= |sorted| ==> Page(sorted, page) == sorted[lo..hi])
      && (lo >= |sorted| ==> Page(sorted, page) == [])
  {
  }

  /** Pages `1..count` laid end to end. */
  function PagesUpTo(sorted: seq<Entry>, count: nat): seq<Entry> {
    if count == 0 then [] else PagesUpTo(sorted, count - 1) + Page(sorted, count)
  }

  lemma {:induction false} PagesUpToPrefix(sorted: seq<Entry>, count: nat)
    ensures count * ItemsPerPage <= |sorted| ==> PagesUpTo(sorted, count) == sorted[..count * ItemsPerPage]
    ensures count * ItemsPerPage > |sorted| && (count - 1) * ItemsPerPage < |sorted| ==>
              PagesUpTo(sorted, count) == sorted
  {
    if count > 0 {
      PagesUpToPrefix(sorted, count - 1);
      PageContents(sorted, count);
      var lo := (count - 1) * ItemsPerPage;
      if lo <= |sorted| {
        assert sorted[..lo] + sorted[lo..if count * ItemsPerPage <= |sorted| then count * ItemsPerPage else |sorted|] ==
               sorted[..if count * ItemsPerPage <= |sorted| then count * ItemsPerPage else |sorted|];
      }
    }
  }

  /** The pages `1..totalPages` hold every sorted record once, in order. */
  lemma PagesCoverAll(sorted: seq<Entry>)
    ensures PagesUpTo(sorted, TotalPages(|sorted|)) == sorted
  {
    var t := TotalPages(|sorted|);
    PagesUpToPrefix(sorted, t);
    if t * ItemsPerPage == |sorted| {
      assert sorted[..t * ItemsPerPage] == sorted;
    }
  }

  /** `p => Math.max(1, p - 1)` */
  function PrevPage(page: int): int {
    if page - 1 < 1 then 1 else page - 1
  }

  /** `p => Math.min(totalPages, p + 1)` */
  function NextPage(page: int, totalPages: nat): int {
    if page + 1 < totalPages then page + 1 else totalPages
  }

  /** The arrows render only when there is more than one page. */
  predicate PaginationShown(totalPages: nat) {
    totalPages > 1
  }

  /** From a page in range, both moves stay in range, each moves by at most
      one page, and a move is a no-op exactly when its arrow is disabled
      (`currentPage === 1`, `currentPage === totalPages`). */
  lemma PageMovesStayInRange(page: int, totalPages: nat)
    requires 1 <= page <= totalPages
    ensures 1 <= PrevPage(page) <= totalPages && 1 <= NextPage(page, totalPages) <= totalPages
    ensures PrevPage(page) == page <==> page == 1
    ensures NextPage(page, totalPages) == page <==> page == totalPages
    ensures page != 1 ==> PrevPage(page) == page - 1
    ensures page != totalPages ==> NextPage(page, totalPages) == page + 1
  {
  }

  /** The arrows show exactly when the store holds more than one page. */
  lemma PaginationShownIff(n: nat)
    ensures PaginationShown(TotalPages(n)) <==> n > ItemsPerPage
  {
  }

  /** The "sync all" button. */
  datatype SyncButton = Hidden | Enabled | Disabled

  function SyncButtonState(pendingCount: nat, isSyncing: bool, isOnline: bool): (b: SyncButton)
    ensures b == Hidden <==> pendingCount == 0
    ensures b == Enabled <==> pendingCount > 0 && !isSyncing && isOnline
  {
    if pendingCount == 0 then Hidden
    else if isSyncing || !isOnline then Disabled
    else Enabled
  }
}
