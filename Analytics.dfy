/**
 * The analytics panel over the merged records
 * (components/AnalyticsPanel.tsx): Drive links rewritten to thumbnails,
 * records per supervisor, the last 25 heights and the map centre.
 */
module Analytics {
  import opened Text
  import opened Json
  import opened Types
  import opened Sorting
  import opened Reconcile

  // ---------------------------------------------------------------------
  // getHighResImageUrl
  // ---------------------------------------------------------------------

  /** `/\/d\/([^/]+)/` matches at `i`: "/d/" and at least one character
      other than '/'. */
  predicate DrivePathAt(url: string, i: nat) {
    OccursAt(url, "/d/", i) && i + 3 < |url| && url[i + 3] != '/'
  }

  /** `/[?&]id=([^&]+)/` matches at `i`. */
  predicate IdParamAt(url: string, i: nat) {
    i + 4 < |url| && (url[i] == '?' || url[i] == '&') && OccursAt(url, "id=", i + 1) && url[i + 4] != '&'
  }

  /** The first position from `from` on where `/\/d\/([^/]+)/` matches: a
      pattern without anchors tries each start position in turn. */
  function FirstDrivePath(url: string, from: nat): (r: Option<nat>)
    requires from <= |url|
    ensures r.Some? ==> from <= r.value < |url| && DrivePathAt(url, r.value) &&
                        forall j: nat :: from <= j < r.value ==> !DrivePathAt(url, j)
    ensures r.None? ==> forall j: nat :: from <= j < |url| ==> !DrivePathAt(url, j)
    decreases |url| - from
  {
    if from == |url| then None
    else if DrivePathAt(url, from) then Some(from)
    else FirstDrivePath(url, from + 1)
  }

  /** The first position from `from` on where `/[?&]id=([^&]+)/` matches. */
  function FirstIdParam(url: string, from: nat): (r: Option<nat>)
    requires from <= |url|
    ensures r.Some? ==> from <= r.value < |url| && IdParamAt(url, r.value) &&
                        forall j: nat :: from <= j < r.value ==> !IdParamAt(url, j)
    ensures r.None? ==> forall j: nat :: from <= j < |url| ==> !IdParamAt(url, j)
    decreases |url| - from
  {
    if from == |url| then None
    else if IdParamAt(url, from) then Some(from)
    else FirstIdParam(url, from + 1)
  }

  /** The file id the two patterns capture, the `/d/` form first; the
      capture is the longest run that the pattern's class allows. */
  function DriveFileId(url: string): (id: Option<string>)
    ensures id.Some? ==> id.value != []
  {
    match FirstDrivePath(url, 0)
    case Some(i) => Some(TakeUntil(url[i + 3..], '/'))
    case None =>
      match FirstIdParam(url, 0)
      case Some(i) => Some(TakeUntil(url[i + 4..], '&'))
      case None => None
  }

  const ThumbnailPrefix: string := "https://drive.google.com/thumbnail?id="
  const ThumbnailSuffix: string := "&sz=w800"

  function GetHighResImageUrl(url: string): (r: string)
    ensures url == "" ==> r == ""
    ensures StartsWith(url, "data:") ==> r == url
    ensures url != "" && !StartsWith(url, "data:") && DriveFileId(url).Some? ==>
              r == ThumbnailPrefix + DriveFileId(url).value + ThumbnailSuffix
    ensures DriveFileId(url).None? ==> r == url
  {
    if url == "" then ""
    else if StartsWith(url, "data:") then url
    else
      match DriveFileId(url)
      case Some(id) => ThumbnailPrefix + id + ThumbnailSuffix
      case None => url
  }

  /** The run up to the next '/' after "/d/" is exactly `id` when `id` has
      no '/' and is followed by '/' or the end. */
  lemma CaptureIsId(id: string, after: string)
    requires '/' !in id
    requires after == [] || after[0] == '/'
    ensures TakeUntil(id + after, '/') == id
  {
    var s := id + after;
    if after == [] {
      assert s == id;
    } else {
      assert s[|id|] == '/';
      assert s[..|id|] == id;
    }
  }

  /** A link whose first "/d/" is followed by `<id>` and then by '/' or
      the end becomes the thumbnail of `<id>`, whatever follows. */
  lemma DriveLinkRewritten(before: string, id: string, after: string)
    requires id != [] && '/' !in id
    requires forall j: nat :: j < |before| ==> !OccursAt(before + "/d/", "/d/", j)
    requires !StartsWith(before + "/d/" + id + after, "data:")
    requires after == [] || after[0] == '/'
    ensures GetHighResImageUrl(before + "/d/" + id + after) == ThumbnailPrefix + id + ThumbnailSuffix
  {
    var url := before + "/d/" + id + after;
    FirstDrivePathIsAfterBefore(before, id, after);
    assert url[|before| + 3..] == id + after;
    CaptureIsId(id, after);
  }

  lemma FirstDrivePathIsAfterBefore(before: string, id: string, after: string)
    requires id != [] && '/' !in id
    requires forall j: nat :: j < |before| ==> !OccursAt(before + "/d/", "/d/", j)
    ensures FirstDrivePath(before + "/d/" + id + after, 0) == Some(|before|)
  {
    var url := before + "/d/" + id + after;
    var b := |before|;
    DrivePathAfterBefore(before, id, after);
    NoDrivePathInBefore(before, id + after);
    assert url == before + "/d/" + (id + after);
  }

  lemma DrivePathAfterBefore(before: string, id: string, after: string)
    requires id != [] && '/' !in id
    ensures DrivePathAt(before + "/d/" + id + after, |before|)
  {
    var url := before + "/d/" + id + after;
    var b := |before|;
    assert url[b..b + 3] == "/d/";
    assert url[b + 3] == id[0] && id[0] in id;
  }

  lemma NoDrivePathInBefore(before: string, rest: string)
    requires forall j: nat :: j < |before| ==> !OccursAt(before + "/d/", "/d/", j)
    ensures forall j: nat :: j < |before| ==> !DrivePathAt(before + "/d/" + rest, j)
  {
    var url := before + "/d/" + rest;
    var b := |before|;
    forall j: nat | j < b
      ensures !OccursAt(url, "/d/", j)
    {
      assert !OccursAt(before + "/d/", "/d/", j);
      assert url[..b + 3] == before + "/d/";
      assert url[j..j + 3] == url[..b + 3][j..j + 3];
    }
  }

  /** A link with no "/d/<id>" but with "?id=<id>" or "&id=<id>" becomes the
      thumbnail of that id. */
  lemma IdParamRewritten(url: string, i: nat)
    requires url != "" && !StartsWith(url, "data:")
    requires forall j: nat :: j < |url| ==> !DrivePathAt(url, j)
    requires IdParamAt(url, i) && forall j: nat :: j < i ==> !IdParamAt(url, j)
    ensures GetHighResImageUrl(url) == ThumbnailPrefix + TakeUntil(url[i + 4..], '&') + ThumbnailSuffix
  {
    var m := FirstIdParam(url, 0);
    assert m == Some(i);
  }

  // ---------------------------------------------------------------------
  // supervisorData
  // ---------------------------------------------------------------------

  /** `e.pengawas || 'Tanpa Nama'` */
  function SupervisorName(e: Merged): (name: string)
    ensures name != ""
  {
    if e.Pengawas() == "" then "Tanpa Nama" else e.Pengawas()
  }

  function Names(entries: seq<Merged>): (r: seq<string>)
    ensures |r| == |entries| && forall i :: 0 <= i < |entries| ==> r[i] == SupervisorName(entries[i])
  {
    seq(|entries|, i requires 0 <= i < |entries| => SupervisorName(entries[i]))
  }

  /** A `Record<string, number>` as its entries in insertion order. */
  type Counts = seq<(string, int)>

  function IndexOfName(counts: Counts, name: string): (r: Option<nat>)
    ensures r.Some? ==> r.value < |counts| && counts[r.value].0 == name
    ensures r.None? ==> forall i :: 0 <= i < |counts| ==> counts[i].0 != name
  {
    if counts == [] then None
    else if counts[|counts| - 1].0 == name then Some(|counts| - 1)
    else IndexOfName(counts[..|counts| - 1], name)
  }

  /** `counts[name] = (counts[name] || 0) + 1` */
  function Bump(counts: Counts, name: string): Counts {
    match IndexOfName(counts, name)
    case None => counts + [(name, 1)]
    case Some(i) => counts[i := (name, counts[i].1 + 1)]
  }

  /** The tally after the `forEach` has seen `names`. */
  function Tally(names: seq<string>): Counts {
    if names == [] then []
    else Bump(Tally(names[..|names| - 1]), names[|names| - 1])
  }

  /** How often `name` occurs in `names`. */
  function Occurrences(names: seq<string>, name: string): nat {
    if names == [] then 0
    else Occurrences(names[..|names| - 1], name) + if names[|names| - 1] == name then 1 else 0
  }

  predicate DistinctNames(counts: Counts) {
    forall i, j :: 0 <= i < j < |counts| ==> counts[i].0 != counts[j].0
  }

  function Total(counts: Counts): int {
    if counts == [] then 0 else Total(counts[..|counts| - 1]) + counts[|counts| - 1].1
  }

  /** The key the chart rows are sorted by. */
  function ByCount(r: (string, int)): int {
    r.1
  }

  /** The count rows after `.sort((a, b) => b.count - a.count)`. */
  function SupervisorRows(entries: seq<Merged>): seq<(string, int)> {
    SortDescending(Tally(Names(entries)), ByCount)
  }

  lemma TallyStep(names: seq<string>, i: nat)
    requires i < |names|
    ensures Tally(names[..i + 1]) == Bump(Tally(names[..i]), names[i])
  {
    assert names[..i + 1][..i] == names[..i];
  }

  /** `supervisorData`: the `forEach` over the records fills the tally, and
      its entries are sorted by count. */
  method SupervisorData(entries: seq<Merged>) returns (rows: Counts)
    ensures rows == SupervisorRows(entries)
  {
    ghost var names := Names(entries);
    var counts: Counts := [];
    for i := 0 to |entries|
      invariant counts == Tally(names[..i])
    {
      var name := if entries[i].Pengawas() != "" then entries[i].Pengawas() else "Tanpa Nama";
      TallyStep(names, i);
      counts := Bump(counts, name);
    }
    assert names[..|entries|] == names;
    rows := SortDescending(counts, ByCount);
  }

  /** The tally has one row per distinct name. */
  lemma {:induction false} TallyDistinct(names: seq<string>)
    ensures DistinctNames(Tally(names))
  {
    if names != [] {
      var n := |names| - 1;
      TallyDistinct(names[..n]);
      var prev := Tally(names[..n]);
      if IndexOfName(prev, names[n]).Some? {
        var k := IndexOfName(prev, names[n]).value;
        var r := prev[k := (names[n], prev[k].1 + 1)];
        assert forall i :: 0 <= i < |r| ==> r[i].0 == prev[i].0;
      }
    }
  }

  /** The row of a name holds its number of occurrences, and every name that
      occurs has a row. */
  lemma {:induction false} TallyCounts(names: seq<string>)
    ensures forall i :: 0 <= i < |Tally(names)| ==>
              Tally(names)[i].1 == Occurrences(names, Tally(names)[i].0) > 0
  {
    if names != [] {
      var n := |names| - 1;
      var prev := Tally(names[..n]);
      TallyCounts(names[..n]);
      TallyDistinct(names[..n]);
      var name := names[n];
      var r := Tally(names);
      match IndexOfName(prev, name)
      case None =>
        assert r == prev + [(name, 1)];
        forall i | 0 <= i < |r|
          ensures r[i].1 == Occurrences(names, r[i].0) > 0
        {
          if i < |prev| {
            assert r[i] == prev[i];
          } else {
            TallyCovers(names[..n], name);
          }
        }
      case Some(k) =>
        assert r == prev[k := (name, prev[k].1 + 1)];
        forall i | 0 <= i < |r|
          ensures r[i].1 == Occurrences(names, r[i].0) > 0
        {
          if i != k {
            assert r[i] == prev[i];
          }
        }

    }
  }

  /** Every name that occurs has a row. */
  lemma {:induction false} TallyCovers(names: seq<string>, name: string)
    ensures Occurrences(names, name) > 0 ==> IndexOfName(Tally(names), name).Some?
  {
    if names != [] {
      var n := |names| - 1;
      var prev := Tally(names[..n]);
      var r := Tally(names);
      TallyCovers(names[..n], name);
      assert r == Bump(prev, names[n]);
      assert |r| >= |prev| && forall i :: 0 <= i < |prev| ==> r[i].0 == prev[i].0;
      if name == names[n] {
        var i := if IndexOfName(prev, name).Some? then IndexOfName(prev, name).value else |prev|;
        assert r[i].0 == name;
      } else if Occurrences(names, name) > 0 {
        var j := IndexOfName(prev, name).value;
        assert r[j].0 == name;
      }
    }
  }

  /** The counts add up to the number of names. */
  lemma {:induction false} TallyTotal(names: seq<string>)
    ensures Total(Tally(names)) == |names|
  {
    if names != [] {
      var n := |names| - 1;
      var prev := Tally(names[..n]);
      TallyTotal(names[..n]);
      match IndexOfName(prev, names[n])
      case None =>
        assert (prev + [(names[n], 1)])[..|prev|] == prev;
      case Some(k) =>
        TotalUpdate(prev, k, (names[n], prev[k].1 + 1));
    }
  }

  lemma {:induction false} TotalUpdate(counts: Counts, k: nat, x: (string, int))
    requires k < |counts|
    ensures Total(counts[k := x]) == Total(counts) - counts[k].1 + x.1
  {
    var n := |counts| - 1;
    if k < n {
      assert counts[k := x][..n] == counts[..n][k := x];
      TotalUpdate(counts[..n], k, x);
    } else {
      assert counts[k := x][..n] == counts[..n];
    }
  }

  lemma {:induction false} TotalAppend(a: Counts, b: Counts)
    ensures Total(a + b) == Total(a) + Total(b)
  {
    if b == [] {
      assert a + b == a;
    } else {
      var n := |b| - 1;
      TotalAppend(a, b[..n]);
      assert (a + b)[..|a + b| - 1] == a + b[..n];
    }
  }

  /** Reordering rows keeps their total. */
  lemma {:induction false} TotalPermutation(a: Counts, b: Counts)
    requires multiset(a) == multiset(b)
    ensures Total(a) == Total(b)
    decreases |a|
  {
    if a == [] {
      assert |b| == |multiset(b)| == 0;
    } else {
      var n := |a| - 1;
      var x := a[n];
      assert x in multiset(b) by {
        assert a == a[..n] + [x];
      }
      var k :| 0 <= k < |b| && b[k] == x;
      var b' := b[..k] + b[k + 1..];
      assert b == b[..k] + [x] + b[k + 1..];
      assert a == a[..n] + [x];
      assert multiset(b) == multiset(b[..k]) + multiset{x} + multiset(b[k + 1..]);
      assert multiset(b') == multiset(b[..k]) + multiset(b[k + 1..]);
      assert multiset(a) == multiset(a[..n]) + multiset{x};
      MultisetCancel(multiset(a[..n]), multiset(b'), x);
      TotalPermutation(a[..n], b');
      TotalAppend(b[..k] + [x], b[k + 1..]);
      TotalAppend(b[..k], [x]);
      TotalAppend(b[..k], b[k + 1..]);
      assert [x][..0] == [];
    }
  }

  lemma MultisetCancel<T>(p: multiset<T>, q: multiset<T>, x: T)
    requires p + multiset{x} == q + multiset{x}
    ensures p == q
  {
    assert forall y :: p[y] == (p + multiset{x})[y] - (if y == x then 1 else 0);
    assert forall y :: q[y] == (q + multiset{x})[y] - (if y == x then 1 else 0);
  }

  lemma {:induction false} DistinctMultiplicity<T>(s: seq<T>, x: T)
    requires forall i, j :: 0 <= i < j < |s| ==> s[i] != s[j]
    ensures multiset(s)[x] <= 1
  {
    if s != [] {
      var n := |s| - 1;
      DistinctMultiplicity(s[..n], x);
      assert s == s[..n] + [s[n]];
      if s[n] == x {
        assert x !in s[..n];
      }
    }
  }

  lemma RepeatMultiplicity<T>(s: seq<T>, i: nat, j: nat)
    requires i < j < |s| && s[i] == s[j]
    ensures multiset(s)[s[i]] >= 2
  {
    assert s == s[..j] + [s[j]] + s[j + 1..];
    assert s[..j][i] == s[i];
    assert s[i] in multiset(s[..j]);
  }

  /** Each chart row is a row of the tally. */
  lemma RowsFromTally(entries: seq<Merged>)
    ensures var rows := SupervisorRows(entries);
      && multiset(rows) == multiset(Tally(Names(entries)))
      && (forall i :: 0 <= i < |rows| ==> rows[i] in Tally(Names(entries)))
      && (forall i, j :: 0 <= i < j < |rows| ==> rows[i].1 >= rows[j].1)
  {
    var tally := Tally(Names(entries));
    var key := ByCount;
    var rows := SupervisorRows(entries);
    SortPermutes(tally, key);
    SortDescends(tally, key);
    forall i | 0 <= i < |rows|
      ensures rows[i] in tally
    {
      assert rows[i] in multiset(rows);
    }
  }

  /** No two chart rows share a name. */
  lemma RowsDistinct(entries: seq<Merged>)
    ensures DistinctNames(SupervisorRows(entries))
  {
    var names := Names(entries);
    var tally := Tally(names);
    var rows := SupervisorRows(entries);
    RowsFromTally(entries);
    TallyDistinct(names);
    TallyCounts(names);
    forall i, j | 0 <= i < j < |rows|
      ensures rows[i].0 != rows[j].0
    {
      if rows[i].0 == rows[j].0 {
        assert rows[i].1 == Occurrences(names, rows[i].0) by {
          var a :| 0 <= a < |tally| && tally[a] == rows[i];
        }
        assert rows[j].1 == Occurrences(names, rows[j].0) by {
          var a :| 0 <= a < |tally| && tally[a] == rows[j];
        }
        RepeatMultiplicity(rows, i, j);
        DistinctMultiplicity(tally, rows[i]);
        assert false;
      }
    }
  }

  /** Each chart row counts its name's records. */
  lemma RowsCountOccurrences(entries: seq<Merged>)
    ensures var rows := SupervisorRows(entries);
      forall i :: 0 <= i < |rows| ==> rows[i].1 == Occurrences(Names(entries), rows[i].0) > 0
  {
    var names := Names(entries);
    var tally := Tally(names);
    var rows := SupervisorRows(entries);
    RowsFromTally(entries);
    TallyCounts(names);
    forall i | 0 <= i < |rows|
      ensures rows[i].1 == Occurrences(names, rows[i].0) > 0
    {
      assert rows[i] in tally;
      var a :| 0 <= a < |tally| && tally[a] == rows[i];
    }
  }

  /** Every record's name has a chart row. */
  lemma RowsCoverNames(entries: seq<Merged>)
    ensures var rows := SupervisorRows(entries);
      forall i :: 0 <= i < |entries| ==> exists j :: 0 <= j < |rows| && rows[j].0 == SupervisorName(entries[i])
  {
    var names := Names(entries);
    var tally := Tally(names);
    var rows := SupervisorRows(entries);
    RowsFromTally(entries);
    forall i | 0 <= i < |entries|
      ensures exists j :: 0 <= j < |rows| && rows[j].0 == SupervisorName(entries[i])
    {
      OccursPositive(names, i);
      TallyCovers(names, names[i]);
      var k := IndexOfName(tally, names[i]).value;
      assert tally[k] in multiset(rows);
      var j :| 0 <= j < |rows| && rows[j] == tally[k];
      assert rows[j].0 == names[i];
    }
  }

  /**
   * The supervisor chart: one row per distinct supervisor name (an empty
   * name counts as 'Tanpa Nama'), each row's count is that name's number
   * of records, every record's name has a row, the counts add up to the
   * number of records, and the rows run from the largest count down.
   */
  lemma SupervisorRowsSpec(entries: seq<Merged>)
    ensures var rows := SupervisorRows(entries);
      && DistinctNames(rows)
      && (forall i :: 0 <= i < |rows| ==> rows[i].1 == Occurrences(Names(entries), rows[i].0) > 0)
      && (forall i :: 0 <= i < |entries| ==> exists j :: 0 <= j < |rows| && rows[j].0 == SupervisorName(entries[i]))
      && Total(rows) == |entries|
      && (forall i, j :: 0 <= i < j < |rows| ==> rows[i].1 >= rows[j].1)
  {
    RowsFromTally(entries);
    RowsDistinct(entries);
    RowsCountOccurrences(entries);
    RowsCoverNames(entries);
    TallyTotal(Names(entries));
    TotalPermutation(SupervisorRows(entries), Tally(Names(entries)));
  }

  lemma {:induction false} OccursPositive(names: seq<string>, i: nat)
    requires i < |names|
    ensures Occurrences(names, names[i]) > 0
  {
    var n := |names| - 1;
    if i < n {
      OccursPositive(names[..n], i);
      assert names[..n][i] == names[i];
    }
  }

  // ---------------------------------------------------------------------
  // heightData
  // ---------------------------------------------------------------------

  const HeightWindow: nat := 25

  datatype HeightPoint = HeightPoint(no: string, tinggi: Num, kesehatan: string)

  function Point(e: Merged): HeightPoint {
    HeightPoint("P#" + e.NoPohonText(), e.Tinggi(), e.Kesehatan())
  }

  /** `entries.slice(-25).map(...)` */
  function HeightData(entries: seq<Merged>): seq<HeightPoint> {
    var window := JsSlice(entries, -(HeightWindow as int), |entries|);
    seq(|window|, i requires 0 <= i < |window| => Point(window[i]))
  }

  /** The chart shows the last `min(25, n)` records, oldest first. */
  lemma HeightDataWindow(entries: seq<Merged>)
    ensures var r := HeightData(entries);
      && |r| == (if |entries| < HeightWindow then |entries| else HeightWindow)
      && forall i :: 0 <= i < |r| ==> r[i] == Point(entries[|entries| - |r| + i])
  {
  }

  // ---------------------------------------------------------------------
  // mapCenter
  // ---------------------------------------------------------------------

  /** `e.gps && e.gps.lat !== 0`: the record gets a marker. */
  predicate OnMap(e: Merged) {
    e.Gps().Some? && e.Gps().value.lat != Zero
  }

  const DefaultCenter: (Num, Num) := (Num("-2.979129"), Num("115.199507"))

  /** The last record with a marker. */
  function LastOnMap(entries: seq<Merged>): (r: Option<nat>)
    ensures r.Some? ==> r.value < |entries| && OnMap(entries[r.value]) &&
                        forall j :: r.value < j < |entries| ==> !OnMap(entries[j])
    ensures r.None? ==> forall j :: 0 <= j < |entries| ==> !OnMap(entries[j])
  {
    if entries == [] then None
    else if OnMap(entries[|entries| - 1]) then Some(|entries| - 1)
    else LastOnMap(entries[..|entries| - 1])
  }

  /** The map centres on the last record with a marker, or on the fixed
      default when no record has one. */
  function MapCenter(entries: seq<Merged>): (c: (Num, Num))
    ensures (forall j :: 0 <= j < |entries| ==> !OnMap(entries[j])) ==> c == DefaultCenter
    ensures forall i :: 0 <= i < |entries| && OnMap(entries[i]) &&
                        (forall j :: i < j < |entries| ==> !OnMap(entries[j])) ==>
                          c == (entries[i].Gps().value.lat, entries[i].Gps().value.lon)
  {
    match LastOnMap(entries)
    case None => DefaultCenter
    case Some(i) => (entries[i].Gps().value.lat, entries[i].Gps().value.lon)
  }
}
