/**
 * The document one record is flattened into for the collector
 * (services/uploadService.ts, `uploadToAppsScript`). The POST itself is not
 * modelled; whether its dispatch throws is an oracle of the store.
 *
 * The document is the map of its keys to their values, with the order
 * `JSON.stringify` writes the keys in beside it; a key whose value is
 * `undefined` is left out, as `JSON.stringify` does.
 */
module Upload {
  import opened Text
  import opened Json
  import opened Types

  /** `num.toString().replace('.', ',')`: the collector's decimal comma. */
  function FormatCoord(n: Num): (r: string)
    ensures |r| == |n.text|
    ensures '.' !in n.text ==> r == n.text
    ensures '.' in n.text ==> exists k :: 0 <= k < |n.text| && n.text[k] == '.' && '.' !in n.text[..k] &&
                                         r == n.text[..k] + "," + n.text[k + 1..]
  {
    ReplaceFirst(n.text, '.', ',')
  }

  /** The Drive path label of a record's photo. */
  function PathName(id: string): string {
    "Montana V2_Images/Gambar Montana (" + id + ").jpg"
  }

  /** `o || d` for an optional string. */
  function OrElse(o: Option<string>, d: string): (r: string)
    ensures o.Some? && o.value != "" ==> r == o.value
    ensures o.None? || o.value == "" ==> r == d
  {
    if o.Some? && o.value != "" then o.value else d
  }

  /** A number as `JSON.stringify` writes it: non-finite numbers become `null`. */
  function NumberValue(n: Num): Json {
    if n.text in {"NaN", "Infinity", "-Infinity"} then Null else Number(n)
  }

  /** The fields of the document. */
  datatype Key =
    | ID | Tanggal | Lokasi | Pekerjaan | Tinggi | Koordinat | Y | X | Tanaman | TahunTanam
    | Pengawas | Vendor | Gambar | GambarNamaFile | Description | LinkDrive | StatusDuplikat
    | StatusVerifikasi | NoPohon | Base64 | RawBase64
  {
    /** The key as it is written in the document. */
    function Name(): string {
      match this
      case ID => "ID"
      case Tanggal => "Tanggal"
      case Lokasi => "Lokasi"
      case Pekerjaan => "Pekerjaan"
      case Tinggi => "Tinggi"
      case Koordinat => "Koordinat"
      case Y => "Y"
      case X => "X"
      case Tanaman => "Tanaman"
      case TahunTanam => "Tahun Tanam"
      case Pengawas => "Pengawas"
      case Vendor => "Vendor"
      case Gambar => "Gambar"
      case GambarNamaFile => "Gambar_Nama_File"
      case Description => "Description"
      case LinkDrive => "Link Drive"
      case StatusDuplikat => "Status_Duplikat"
      case StatusVerifikasi => "Status_Verifikasi"
      case NoPohon => "No Pohon"
      case Base64 => "Base64"
      case RawBase64 => "RawBase64"
    }
  }

  /** The keys in the order `JSON.stringify` writes them; `Base64` and
      `RawBase64` are `undefined`, hence absent, when the photo has no comma. */
  function PayloadKeys(e: Entry): seq<Key> {
    FixedKeys + if SecondPiece(e.foto, ',').Some? then [Base64, RawBase64] else []
  }

  /** The keys every document has, in order. */
  const FixedKeys: seq<Key> :=
    [ID, Tanggal, Lokasi, Pekerjaan, Tinggi, Koordinat, Y, X, Tanaman, TahunTanam, Pengawas,
     Vendor, Gambar, GambarNamaFile, Description, LinkDrive, StatusDuplikat, StatusVerifikasi,
     NoPohon]

  /** The value `uploadToAppsScript` puts under `k` for `e`; `None` is
      `undefined`. */
  function Value(e: Entry, k: Key): Option<Json> {
    match k
    case ID => Some(Str(e.id))
    case Tanggal => Some(Str(e.tanggal))
    case Lokasi => Some(Str(e.lokasi))
    case Pekerjaan => Some(Str(e.pekerjaan))
    case Tinggi => Some(NumberValue(e.tinggi))
    case Koordinat => Some(Str(e.koordinat))
    case Y => Some(Str(FormatCoord(e.y)))
    case X => Some(Str(FormatCoord(e.x)))
    case Tanaman => Some(Str(e.tanaman))
    case TahunTanam => Some(NumberValue(e.tahunTanam))
    case Pengawas => Some(Str(e.pengawas))
    case Vendor => Some(Str(e.vendor))
    case Gambar => Some(Str(e.foto))
    case GambarNamaFile => Some(Str(PathName(e.id)))
    case Description => Some(Str(OrElse(e.description, "")))
    case LinkDrive => Some(Str(OrElse(e.linkDrive, "")))
    case StatusDuplikat => Some(Str(OrElse(e.statusDuplikat, "UNIK")))
    case StatusVerifikasi => Some(Str(OrElse(e.statusVerifikasi, "")))
    case NoPohon => Some(NumberValue(IntNum(e.noPohon)))
    case Base64 => ImageData(e.foto)
    case RawBase64 => ImageData(e.foto)
  }

  /** `foto.split(',')[1]` as a JSON string. */
  function ImageData(foto: string): Option<Json> {
    match SecondPiece(foto, ',')
    case None => None
    case Some(p) => Some(Str(p))
  }

  /** The document sent for `e`: every key whose value is defined. */
  function Payload(e: Entry): map<Key, Json> {
    map k | Value(e, k).Some? :: Value(e, k).value
  }

  /** `d[key]`; `None` is `undefined`. */
  function Get(d: map<Key, Json>, key: Key): Option<Json> {
    if key in d then Some(d[key]) else None
  }

  /** A key of the document holds the value `uploadToAppsScript` puts
      under it. */
  lemma PayloadGet(e: Entry, k: Key)
    ensures Get(Payload(e), k) == Value(e, k)
  {
  }

  /** Distinct keys are written differently. */
  lemma NamesDistinct(k: Key, l: Key)
    ensures k.Name() == l.Name() <==> k == l
  {
    if k != l {
      assert k.Name() != l.Name() by {
        if |k.Name()| == |l.Name()| {
          assert k.Name()[0] != l.Name()[0] || k.Name()[|k.Name()| - 1] != l.Name()[|l.Name()| - 1];
        }
      }
    }
  }

  /** A key's place in the order `JSON.stringify` writes the document in. */
  function Position(k: Key): nat {
    match k
    case ID => 0 case Tanggal => 1 case Lokasi => 2 case Pekerjaan => 3 case Tinggi => 4
    case Koordinat => 5 case Y => 6 case X => 7 case Tanaman => 8 case TahunTanam => 9
    case Pengawas => 10 case Vendor => 11 case Gambar => 12 case GambarNamaFile => 13
    case Description => 14 case LinkDrive => 15 case StatusDuplikat => 16
    case StatusVerifikasi => 17 case NoPohon => 18 case Base64 => 19 case RawBase64 => 20
  }

  /** Each key sits at its own position, so the key order lists no key twice. */
  lemma PayloadKeysOrdered(e: Entry)
    ensures forall i :: 0 <= i < |PayloadKeys(e)| ==> Position(PayloadKeys(e)[i]) == i
    ensures forall i, j :: 0 <= i < j < |PayloadKeys(e)| ==> PayloadKeys(e)[i] != PayloadKeys(e)[j]
  {
    var ks := PayloadKeys(e);
    assert |FixedKeys| == 19;
    forall i | 0 <= i < |ks|
      ensures Position(ks[i]) == i
    {
      if i < 19 {
        assert ks[i] == FixedKeys[i];
      } else {
        assert ks[i] == [Base64, RawBase64][i - 19];
      }
    }
    forall i, j | 0 <= i < j < |ks|
      ensures ks[i] != ks[j]
    {
      assert Position(ks[i]) != Position(ks[j]);
    }
  }

  /** The key order lists exactly the keys the document defines. */
  lemma PayloadKeysExact(e: Entry)
    ensures forall k :: k in PayloadKeys(e) <==> k in Payload(e)
  {
    var ks := PayloadKeys(e);
    var image := SecondPiece(e.foto, ',').Some?;
    assert |ks| == if image then 21 else 19;
    PayloadKeysOrdered(e);
    forall k
      ensures k in ks <==> k in Payload(e)
    {
      PayloadGet(e, k);
      if k == Base64 || k == RawBase64 {
        assert Value(e, k).Some? <==> image;
        if k in ks {
          var i :| 0 <= i < |ks| && ks[i] == k;
          assert Position(k) == i;
        }
        if image {
          assert ks[Position(k)] == k;
        }
      } else {
        assert Value(e, k).Some?;
        assert Position(k) < 19;
        assert ks[Position(k)] == k;
      }
    }
  }

  /** The document identifies the record: its id, capture date, photo, the
      photo's path label (built from the id) and the tree number. */
  lemma PayloadIdentity(e: Entry)
    ensures var d := Payload(e);
      && Get(d, ID) == Some(Str(e.id))
      && Get(d, Tanggal) == Some(Str(e.tanggal))
      && Get(d, Gambar) == Some(Str(e.foto))
      && Get(d, GambarNamaFile) == Some(Str("Montana V2_Images/Gambar Montana (" + e.id + ").jpg"))
      && Get(d, NoPohon) == Some(NumberValue(IntNum(e.noPohon)))
  {
    PayloadGet(e, ID);
    PayloadGet(e, Tanggal);
    PayloadGet(e, Gambar);
    PayloadGet(e, GambarNamaFile);
    PayloadGet(e, NoPohon);
  }

  /** The place: `Y` is the longitude and `X` the latitude, each with its
      first `.` turned into `,`; the location and coordinate text are copied. */
  lemma PayloadPlace(e: Entry)
    ensures var d := Payload(e);
      && Get(d, Lokasi) == Some(Str(e.lokasi))
      && Get(d, Koordinat) == Some(Str(e.koordinat))
      && Get(d, Y) == Some(Str(FormatCoord(e.y)))
      && Get(d, X) == Some(Str(FormatCoord(e.x)))
  {
    PayloadGet(e, Lokasi);
    PayloadGet(e, Koordinat);
    PayloadGet(e, Y);
    PayloadGet(e, X);
  }

  /** The observation is copied from the record; non-finite numbers are sent
      as `null`. */
  lemma PayloadObservation(e: Entry)
    ensures var d := Payload(e);
      && Get(d, Pekerjaan) == Some(Str(e.pekerjaan))
      && Get(d, Tinggi) == Some(NumberValue(e.tinggi))
      && Get(d, Tanaman) == Some(Str(e.tanaman))
      && Get(d, TahunTanam) == Some(NumberValue(e.tahunTanam))
      && Get(d, Pengawas) == Some(Str(e.pengawas))
      && Get(d, Vendor) == Some(Str(e.vendor))
  {
    PayloadGet(e, Pekerjaan);
    PayloadGet(e, Tinggi);
    PayloadGet(e, Tanaman);
    PayloadGet(e, TahunTanam);
    PayloadGet(e, Pengawas);
    PayloadGet(e, Vendor);
  }

  /** Missing optional fields are sent as "", and a missing or empty
      duplicate status as "UNIK". */
  lemma PayloadDefaults(e: Entry)
    ensures var d := Payload(e);
      && Get(d, Description) == Some(Str(if e.description.Some? then e.description.value else ""))
      && Get(d, LinkDrive) == Some(Str(if e.linkDrive.Some? then e.linkDrive.value else ""))
      && Get(d, StatusVerifikasi) == Some(Str(if e.statusVerifikasi.Some? then e.statusVerifikasi.value else ""))
      && Get(d, StatusDuplikat) ==
           Some(Str(if e.statusDuplikat.Some? && e.statusDuplikat.value != "" then e.statusDuplikat.value else "UNIK"))
  {
    PayloadGet(e, Description);
    PayloadGet(e, LinkDrive);
    PayloadGet(e, StatusVerifikasi);
    PayloadGet(e, StatusDuplikat);
  }

  /** `Base64` and `RawBase64` are both the piece of the photo between its
      first and second comma, and both are absent when the photo has no
      comma. */
  lemma PayloadImageData(e: Entry)
    ensures var d := Payload(e);
      && Get(d, Base64) == Get(d, RawBase64)
      && (',' in e.foto <==> Get(d, Base64).Some?)
      && (',' in e.foto ==> Get(d, Base64) == Some(Str(SecondPiece(e.foto, ',').value)))
  {
    PayloadGet(e, Base64);
    PayloadGet(e, RawBase64);
    var piece := SecondPiece(e.foto, ',');
    assert ImageData(e.foto) == if piece.Some? then Some(Str(piece.value)) else None;
  }
}
