/**
 * The analytics tab's view of all records (components/AnalyticsTab.tsx):
 * rows fetched from the collector are coerced into record-like entries and
 * put into an id-keyed `Map`, then the device's own records are put over
 * them. The result is the map's values in insertion order.
 */
module Reconcile {
  import opened Text
  import opened Json
  import opened Types
  import opened CloudFetch

  /** A record rebuilt from a collector row. Only the fields the analytics
      views read are rebuilt; the text fields hold `String(v)` of the value
      chosen. */
  datatype CloudEntry = CloudEntry(
    id: string,
    noPohon: Num,
    tanaman: string,
    tinggi: Num,
    kesehatan: string,
    pengawas: string,
    tanggal: string,
    foto: string,
    gps: Option<GpsLocation>)

  /** An element of the merged list: a rebuilt collector row or one of the
      device's records, kept as it is. */
  datatype Merged = FromCloud(cloud: CloudEntry) | FromLocal(local: Entry) {
    function Id(): string {
      match this
      case FromCloud(c) => c.id
      case FromLocal(e) => e.id
    }
    function Pengawas(): string {
      match this
      case FromCloud(c) => c.pengawas
      case FromLocal(e) => e.pengawas
    }
    function Gps(): Option<GpsLocation> {
      match this
      case FromCloud(c) => c.gps
      case FromLocal(e) => e.gps
    }
    function Foto(): string {
      match this
      case FromCloud(c) => c.foto
      case FromLocal(e) => e.foto
    }
    /** `String(noPohon)` */
    function NoPohonText(): string {
      match this
      case FromCloud(c) => c.noPohon.text
      case FromLocal(e) => IntText(e.noPohon)
    }
    function Tinggi(): Num {
      match this
      case FromCloud(c) => c.tinggi
      case FromLocal(e) => e.tinggi
    }
    function Kesehatan(): string {
      match this
      case FromCloud(c) => c.kesehatan
      case FromLocal(e) => e.kesehatan.Text()
    }
  }

  /** `n || 0` for a number. */
  function NumOrZero(n: Num): (r: Num)
    ensures Truthy(Number(n)) ==> r == n
    ensures !Truthy(Number(n)) ==> r == Zero
  {
    if Truthy(Number(n)) then n else Zero
  }

  /** A row the merge keeps: the row and its `ID` are truthy. */
  predicate HasId(item: Json) {
    Truthy(item) && TruthyOpt(Field(item, "ID"))
  }

  /** `String(v).replace(',', '.')`: the first decimal comma becomes a point. */
  function Dotted(v: Json): string {
    ReplaceFirst(ToText(v), ',', '.')
  }

  /** The fix rebuilt from the row's `X` (latitude) and `Y` (longitude). */
  function CloudGps(item: Json, parseFloat: string -> Num): (r: Option<GpsLocation>)
    ensures r.Some? <==>
              && Present(Field(item, "X")) && Present(Field(item, "Y"))
              && !IsNaN(parseFloat(Dotted(Field(item, "X").value)))
              && !IsNaN(parseFloat(Dotted(Field(item, "Y").value)))
    ensures r.Some? ==> r.value == GpsLocation(parseFloat(Dotted(Field(item, "X").value)),
                                               parseFloat(Dotted(Field(item, "Y").value)), Zero)
  {
    var x, y := Field(item, "X"), Field(item, "Y");
    if Present(x) && Present(y) then
      var lat, lon := parseFloat(Dotted(x.value)), parseFloat(Dotted(y.value));
      if !IsNaN(lat) && !IsNaN(lon) then Some(GpsLocation(lat, lon, Zero)) else None
    else None
  }

  /** The entry rebuilt from a row that has an `ID`. */
  function FromRow(item: Json, parseFloat: string -> Num, parseInt: string -> Num): (c: CloudEntry)
    requires HasId(item)
    ensures c.id == ToText(Field(item, "ID").value)
    ensures c.noPohon == NumOrZero(parseInt(OptText(Field(item, "No Pohon"))))
    ensures c.tinggi == NumOrZero(parseFloat(ReplaceFirst(OptText(Field(item, "Tinggi")), ',', '.')))
    // Missing or falsy fields take their defaults.
    ensures !TruthyOpt(Field(item, "Tanaman")) ==> c.tanaman == "Unknown"
    ensures !TruthyOpt(Field(item, "Kesehatan")) ==> c.kesehatan == "Sehat"
    ensures !TruthyOpt(Field(item, "Pengawas")) ==> c.pengawas == "N/A"
    ensures !TruthyOpt(Field(item, "Tanggal")) ==> c.tanggal == "-"
    ensures !TruthyOpt(Field(item, "Link Drive")) ==> c.foto == ""
    ensures c.gps == CloudGps(item, parseFloat)
  {
    CloudEntry(
      id := ToText(Field(item, "ID").value),
      noPohon := NumOrZero(parseInt(OptText(Field(item, "No Pohon")))),
      tanaman := TextOr(Field(item, "Tanaman"), "Unknown"),
      tinggi := NumOrZero(parseFloat(ReplaceFirst(OptText(Field(item, "Tinggi")), ',', '.'))),
      kesehatan := TextOr(Field(item, "Kesehatan"), "Sehat"),
      pengawas := TextOr(Field(item, "Pengawas"), "N/A"),
      tanggal := TextOr(Field(item, "Tanggal"), "-"),
      foto := TextOr(Field(item, "Link Drive"), ""),
      gps := CloudGps(item, parseFloat))
  }

  // ---------------------------------------------------------------------
  // A JavaScript `Map` from string keys: its entries in insertion order.

  type Table = seq<(string, Merged)>

  function KeysOf(t: Table): (r: seq<string>)
    ensures |r| == |t| && forall i :: 0 <= i < |t| ==> r[i] == t[i].0
  {
    seq(|t|, i requires 0 <= i < |t| => t[i].0)
  }

  /** `Array.from(map.values())` */
  function Values(t: Table): (r: seq<Merged>)
    ensures |r| == |t| && forall i :: 0 <= i < |t| ==> r[i] == t[i].1
  {
    seq(|t|, i requires 0 <= i < |t| => t[i].1)
  }

  /** The position of the first entry with key `k`. */
  function Find(t: Table, k: string): (r: Option<nat>)
    ensures r.Some? ==> r.value < |t| && t[r.value].0 == k && forall i :: 0 <= i < r.value ==> t[i].0 != k
    ensures r.None? ==> forall i :: 0 <= i < |t| ==> t[i].0 != k
  {
    if t == [] then None
    else if t[0].0 == k then Some(0)
    else match Find(t[1..], k)
      case None => None
      case Some(i) => Some(i + 1)
  }

  /** `map.get(k)` */
  function Lookup(t: Table, k: string): Option<Merged> {
    match Find(t, k)
    case None => None
    case Some(i) => Some(t[i].1)
  }

  /** `map.set(k, v)`: a known key keeps its place and takes the new value;
      a new key goes at the end. */
  function Put(t: Table, k: string, v: Merged): (r: Table)
    ensures Find(t, k).Some? ==> r == t[Find(t, k).value := (k, v)]
    ensures Find(t, k).None? ==> r == t + [(k, v)]
  {
    match Find(t, k)
    case None => t + [(k, v)]
    case Some(i) => t[i := (k, v)]
  }

  /** The `map.set` calls `assignments`, one after the other. */
  function PutAll(t: Table, assignments: Table): Table {
    if assignments == [] then t
    else
      var last := assignments[|assignments| - 1];
      Put(PutAll(t, assignments[..|assignments| - 1]), last.0, last.1)
  }

  /** The keys of `ks` not already in `d`, added after `d` in order of first
      appearance. */
  function AddNew(d: seq<string>, ks: seq<string>): seq<string> {
    if ks == [] then d
    else
      var a := AddNew(d, ks[..|ks| - 1]);
      if ks[|ks| - 1] in a then a else a + [ks[|ks| - 1]]
  }

  /** The value last assigned to `k`. */
  function LastFor(assignments: Table, k: string): Option<Merged> {
    if assignments == [] then None
    else if assignments[|assignments| - 1].0 == k then Some(assignments[|assignments| - 1].1)
    else LastFor(assignments[..|assignments| - 1], k)
  }

  predicate Distinct(ks: seq<string>) {
    forall i, j :: 0 <= i < j < |ks| ==> ks[i] != ks[j]
  }

  lemma PutKeys(t: Table, k: string, v: Merged)
    ensures KeysOf(Put(t, k, v)) == if k in KeysOf(t) then KeysOf(t) else KeysOf(t) + [k]
  {
    if k in KeysOf(t) {
      var i :| 0 <= i < |t| && KeysOf(t)[i] == k;
      assert Find(t, k).Some?;
    }
  }

  lemma FindIs(t: Table, k: string, i: nat)
    requires i < |t| && t[i].0 == k && forall m :: 0 <= m < i ==> t[m].0 != k
    ensures Find(t, k) == Some(i)
  {
  }

  lemma PutLookup(t: Table, k: string, v: Merged, k': string)
    ensures Lookup(Put(t, k, v), k') == if k' == k then Some(v) else Lookup(t, k')
  {
    var r := Put(t, k, v);
    match Find(t, k)
    case None =>
      if k' == k {
        FindIs(r, k, |t|);
      } else if Find(t, k').Some? {
        FindIs(r, k', Find(t, k').value);
      } else {
        assert forall m :: 0 <= m < |r| ==> r[m].0 != k';
      }
    case Some(p) =>
      if k' == k {
        FindIs(r, k, p);
      } else if Find(t, k').Some? {
        var i := Find(t, k').value;
        assert r[i] == t[i];
        FindIs(r, k', i);
      } else {
        assert forall m :: 0 <= m < |r| ==> r[m].0 != k';
      }
  }

  /** Keys enter the map in order of first assignment and never leave it. */
  lemma {:induction false} PutAllKeys(t: Table, assignments: Table)
    ensures KeysOf(PutAll(t, assignments)) == AddNew(KeysOf(t), KeysOf(assignments))
  {
    if assignments != [] {
      var n := |assignments| - 1;
      PutAllKeys(t, assignments[..n]);
      PutKeys(PutAll(t, assignments[..n]), assignments[n].0, assignments[n].1);
      assert KeysOf(assignments)[..n] == KeysOf(assignments[..n]);
    }
  }

  /** Each key holds the value last assigned to it. */
  lemma {:induction false} PutAllLookup(t: Table, assignments: Table, k: string)
    ensures Lookup(PutAll(t, assignments), k) ==
            if LastFor(assignments, k).Some? then LastFor(assignments, k) else Lookup(t, k)
  {
    if assignments != [] {
      var n := |assignments| - 1;
      PutAllLookup(t, assignments[..n], k);
      PutLookup(PutAll(t, assignments[..n]), assignments[n].0, assignments[n].1, k);
    }
  }

  lemma {:induction false} AddNewSpec(d: seq<string>, ks: seq<string>)
    ensures |AddNew(d, ks)| >= |d| && AddNew(d, ks)[..|d|] == d
    ensures forall x :: x in AddNew(d, ks) <==> x in d || x in ks
    ensures Distinct(d) ==> Distinct(AddNew(d, ks))
  {
    if ks != [] {
      var n := |ks| - 1;
      AddNewSpec(d, ks[..n]);
      assert ks == ks[..n] + [ks[n]];
      var a := AddNew(d, ks[..n]);
      if ks[n] !in a {
        assert (a + [ks[n]])[..|d|] == a[..|d|];
      }
    }
  }

  lemma {:induction false} AddNewAppend(d: seq<string>, a: seq<string>, b: seq<string>)
    ensures AddNew(AddNew(d, a), b) == AddNew(d, a + b)
  {
    if b == [] {
      assert a + b == a;
    } else {
      var n := |b| - 1;
      AddNewAppend(d, a, b[..n]);
      assert (a + b)[..|a + b| - 1] == a + b[..n];
      assert (a + b)[|a + b| - 1] == b[n];
    }
  }

  /** A list without repeats is as long as the set of its elements is
      large. */
  lemma {:induction false} DistinctCard(ks: seq<string>)
    requires Distinct(ks)
    ensures |set x | x in ks| == |ks|
  {
    if ks != [] {
      var n := |ks| - 1;
      assert Distinct(ks[..n]);
      DistinctCard(ks[..n]);
      assert (set x | x in ks) == (set x | x in ks[..n]) + {ks[n]};
      assert ks[n] !in ks[..n];
    }
  }

  // ---------------------------------------------------------------------
  // The merge.

  /** The `map.set` calls of the first `forEach`: one per row with an `ID`,
      keyed by `String(item.ID)`. */
  function CloudAssignments(cloud: seq<Json>, parseFloat: string -> Num, parseInt: string -> Num): Table {
    if cloud == [] then []
    else
      var item := cloud[|cloud| - 1];
      CloudAssignments(cloud[..|cloud| - 1], parseFloat, parseInt) +
        if HasId(item) then [(ToText(Field(item, "ID").value), FromCloud(FromRow(item, parseFloat, parseInt)))]
        else []
  }

  /** The `map.set` calls of the second `forEach`: one per record, keyed by
      its id. */
  function LocalAssignments(local: seq<Entry>): (r: Table)
    ensures |r| == |local| && forall i :: 0 <= i < |local| ==> r[i] == (local[i].id, FromLocal(local[i]))
  {
    seq(|local|, i requires 0 <= i < |local| => (local[i].id, FromLocal(local[i])))
  }

  /** The map once both loops have run. */
  function MergeTable(cloud: seq<Json>, local: seq<Entry>, parseFloat: string -> Num, parseInt: string -> Num): Table {
    PutAll(PutAll([], CloudAssignments(cloud, parseFloat, parseInt)), LocalAssignments(local))
  }

  /** `mergedData`: the two `forEach` loops over a `Map`, then its values. */
  method MergedData(cloud: seq<Json>, local: seq<Entry>, parseFloat: string -> Num, parseInt: string -> Num)
    returns (merged: seq<Merged>)
    ensures merged == Values(MergeTable(cloud, local, parseFloat, parseInt))
  {
    var table: Table := [];
    for i := 0 to |cloud|
      invariant table == PutAll([], CloudAssignments(cloud[..i], parseFloat, parseInt))
    {
      assert cloud[..i + 1][..i] == cloud[..i];
      var item := cloud[i];
      ghost var before := CloudAssignments(cloud[..i], parseFloat, parseInt);
      if Truthy(item) && TruthyOpt(Field(item, "ID")) {
        var lat, lon, hasGps := Zero, Zero, false;
        var x, y := Field(item, "X"), Field(item, "Y");
        if x.Some? && !x.value.Null? && y.Some? && !y.value.Null? {
          lat := parseFloat(ReplaceFirst(ToText(x.value), ',', '.'));
          lon := parseFloat(ReplaceFirst(ToText(y.value), ',', '.'));
          if !IsNaN(lat) && !IsNaN(lon) {
            hasGps := true;
          }
        }
        var entry := CloudEntry(
          id := ToText(Field(item, "ID").value),
          noPohon := NumOrZero(parseInt(OptText(Field(item, "No Pohon")))),
          tanaman := TextOr(Field(item, "Tanaman"), "Unknown"),
          tinggi := NumOrZero(parseFloat(ReplaceFirst(OptText(Field(item, "Tinggi")), ',', '.'))),
          kesehatan := TextOr(Field(item, "Kesehatan"), "Sehat"),
          pengawas := TextOr(Field(item, "Pengawas"), "N/A"),
          tanggal := TextOr(Field(item, "Tanggal"), "-"),
          foto := TextOr(Field(item, "Link Drive"), ""),
          gps := if hasGps then Some(GpsLocation(lat, lon, Zero)) else None);
        assert entry == FromRow(item, parseFloat, parseInt);
        ghost var a := (ToText(Field(item, "ID").value), FromCloud(entry));
        assert CloudAssignments(cloud[..i + 1], parseFloat, parseInt) == before + [a];
        assert (before + [a])[..|before|] == before;
        table := Put(table, ToText(Field(item, "ID").value), FromCloud(entry));
      } else {
        assert CloudAssignments(cloud[..i + 1], parseFloat, parseInt) == before + [];
        assert before + [] == before;
      }
    }
    assert cloud[..|cloud|] == cloud;
    ghost var cloudTable := table;
    for j := 0 to |local|
      invariant table == PutAll(cloudTable, LocalAssignments(local[..j]))
    {
      assert LocalAssignments(local[..j + 1])[..j] == LocalAssignments(local[..j]);
      table := Put(table, local[j].id, FromLocal(local[j]));
    }
    assert local[..|local|] == local;
    merged := Values(table);
  }

  /** The merged ids are the ids of the rows with an `ID` and of the records,
      each once, in order of first appearance: collector ids first, then the
      ids only the device has. A record that replaces a row keeps the row's
      place. */
  lemma MergeOrder(cloud: seq<Json>, local: seq<Entry>, parseFloat: string -> Num, parseInt: string -> Num)
    ensures var c := KeysOf(CloudAssignments(cloud, parseFloat, parseInt));
            var ks := KeysOf(MergeTable(cloud, local, parseFloat, parseInt));
            && ks == AddNew([], c + Ids(local))
            && Distinct(ks)
            && |ks| >= |AddNew([], c)| && ks[..|AddNew([], c)|] == AddNew([], c)
            && (forall k :: k in ks <==> k in c || k in Ids(local))
  {
    var c := KeysOf(CloudAssignments(cloud, parseFloat, parseInt));
    var l := LocalAssignments(local);
    PutAllKeys([], CloudAssignments(cloud, parseFloat, parseInt));
    PutAllKeys(PutAll([], CloudAssignments(cloud, parseFloat, parseInt)), l);
    assert KeysOf([]) == [];
    assert KeysOf(l) == Ids(local);
    AddNewAppend([], c, Ids(local));
    AddNewSpec([], c + Ids(local));
    AddNewSpec(AddNew([], c), Ids(local));
  }

  /** The merged list has one element per distinct id. */
  lemma MergeSize(cloud: seq<Json>, local: seq<Entry>, parseFloat: string -> Num, parseInt: string -> Num)
    ensures var c := KeysOf(CloudAssignments(cloud, parseFloat, parseInt));
            |Values(MergeTable(cloud, local, parseFloat, parseInt))| == |set k | k in c + Ids(local)|
  {
    var c := KeysOf(CloudAssignments(cloud, parseFloat, parseInt));
    var ks := KeysOf(MergeTable(cloud, local, parseFloat, parseInt));
    MergeOrder(cloud, local, parseFloat, parseInt);
    DistinctCard(ks);
    assert (set k | k in ks) == (set k | k in c + Ids(local));
  }

  lemma {:induction false} LastForLocal(local: seq<Entry>, j: nat)
    requires j < |local|
    requires forall i :: j < i < |local| ==> local[i].id != local[j].id
    ensures LastFor(LocalAssignments(local), local[j].id) == Some(FromLocal(local[j]))
  {
    var n := |local| - 1;
    if j < n {
      assert LocalAssignments(local)[..n] == LocalAssignments(local[..n]);
      LastForLocal(local[..n], j);
    }
  }

  lemma {:induction false} LastForNoLocal(local: seq<Entry>, k: string)
    requires k !in Ids(local)
    ensures LastFor(LocalAssignments(local), k) == None
  {
    if local != [] {
      var n := |local| - 1;
      assert LocalAssignments(local)[..n] == LocalAssignments(local[..n]);
      assert Ids(local)[..n] == Ids(local[..n]);
      LastForNoLocal(local[..n], k);
    }
  }

  /** A record of the device is in the merged map exactly as given, over any
      collector row with its id (the last of several records with one id
      wins). */
  lemma LocalWins(cloud: seq<Json>, local: seq<Entry>, parseFloat: string -> Num, parseInt: string -> Num, j: nat)
    requires j < |local|
    requires forall i :: j < i < |local| ==> local[i].id != local[j].id
    ensures Lookup(MergeTable(cloud, local, parseFloat, parseInt), local[j].id) == Some(FromLocal(local[j]))
  {
    PutAllLookup(PutAll([], CloudAssignments(cloud, parseFloat, parseInt)), LocalAssignments(local), local[j].id);
    LastForLocal(local, j);
  }

  /** An id only the collector has holds its last row. */
  lemma CloudOnly(cloud: seq<Json>, local: seq<Entry>, parseFloat: string -> Num, parseInt: string -> Num, k: string)
    requires k !in Ids(local)
    ensures Lookup(MergeTable(cloud, local, parseFloat, parseInt), k) ==
            LastFor(CloudAssignments(cloud, parseFloat, parseInt), k)
  {
    var ca := CloudAssignments(cloud, parseFloat, parseInt);
    PutAllLookup(PutAll([], ca), LocalAssignments(local), k);
    LastForNoLocal(local, k);
    PutAllLookup([], ca, k);
  }

  /** The rows are merged one after the other: the assignments of two runs
      of rows are those of each run, in order. */
  lemma {:induction false} CloudAssignmentsAppend(a: seq<Json>, b: seq<Json>, parseFloat: string -> Num, parseInt: string -> Num)
    ensures CloudAssignments(a + b, parseFloat, parseInt) ==
            CloudAssignments(a, parseFloat, parseInt) + CloudAssignments(b, parseFloat, parseInt)
  {
    if b == [] {
      assert a + b == a;
    } else {
      var n := |b| - 1;
      CloudAssignmentsAppend(a, b[..n], parseFloat, parseInt);
      assert (a + b)[..|a + b| - 1] == a + b[..n];
      assert (a + b)[|a + b| - 1] == b[n];
    }
  }

  /** A row that is falsy or has a falsy `ID` is skipped: removing it
      changes nothing. A row with an `ID` adds exactly its own entry. */
  lemma CloudRowEffect(before: seq<Json>, item: Json, after: seq<Json>, parseFloat: string -> Num, parseInt: string -> Num)
    ensures var whole := CloudAssignments(before + [item] + after, parseFloat, parseInt);
            var rest := CloudAssignments(before, parseFloat, parseInt);
            var tail := CloudAssignments(after, parseFloat, parseInt);
            && (!HasId(item) ==> whole == CloudAssignments(before + after, parseFloat, parseInt))
            && (HasId(item) ==>
                  whole == rest + [(ToText(Field(item, "ID").value), FromCloud(FromRow(item, parseFloat, parseInt)))] + tail)
  {
    CloudAssignmentsAppend(before + [item], after, parseFloat, parseInt);
    CloudAssignmentsAppend(before, [item], parseFloat, parseInt);
    CloudAssignmentsAppend(before, after, parseFloat, parseInt);
    assert [item][..0] == [];
  }

  // ---------------------------------------------------------------------
  // Loading the collector's rows.

  /** `loadCloudData` runs only online with a configured URL. */
  predicate ShouldLoad(online: bool, url: string) {
    online && url != "" && !Contains(url, PlaceholderFragment)
  }

  /** The rows held after `loadCloudData`: what the fetch returned, or the
      previous rows when it did not run or it threw. */
  function LoadCloudData(previous: seq<Json>, online: bool, url: string, reply: Reply): (rows: seq<Json>)
    ensures !ShouldLoad(online, url) ==> rows == previous
    ensures ShouldLoad(online, url) && FetchCloudData(url, reply).Failed? ==> rows == previous
    ensures ShouldLoad(online, url) && FetchCloudData(url, reply).Rows? ==> rows == FetchCloudData(url, reply).rows
  {
    if !online || url == "" || Contains(url, PlaceholderFragment) then previous
    else
      match FetchCloudData(url, reply)
      case Rows(r) => r
      case Failed(_) => previous
  }

  /** New rows replace the held ones only when the collector answered with a
      nonempty array, or with a non-error shape that empties them. */
  lemma LoadOutcome(previous: seq<Json>, online: bool, url: string, reply: Reply)
    ensures var rows := LoadCloudData(previous, online, url, reply);
      rows != previous ==>
        && online && Configured(url) && reply.Response? && reply.ok && reply.body.Parsed?
        && (rows != [] ==> reply.body.json == Arr(rows))
        && (rows == [] ==> !IsErrorDocument(reply.body.json) || reply.body.json.Arr?)
  {
    FetchOutcomes(url, reply);
  }
}
