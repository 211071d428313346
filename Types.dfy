/**
 * The record shapes of types.ts: a captured plant observation
 * (`PlantEntry`), its optional GPS fix and the capture form.
 */
module Types {
  import opened Text
  import opened Json

  datatype GpsLocation = GpsLocation(lat: Num, lon: Num, accuracy: Num)

  /** The three health states an operator can pick. */
  datatype Health = Sehat | Merana | Mati {
    function Text(): string {
      match this
      case Sehat => "Sehat"
      case Merana => "Merana"
      case Mati => "Mati"
    }
  }

  /**
   * One observation. `y` is the longitude and `x` the latitude. `uploaded`
   * is `false` when the source leaves it undefined: every reader only tests
   * its truthiness. The four optional strings are `None` when undefined.
   */
  datatype Entry = Entry(
    id: string,
    tanggal: string,
    timestamp: string,
    gps: Option<GpsLocation>,
    lokasi: string,
    pekerjaan: string,
    tinggi: Num,
    koordinat: string,
    y: Num,
    x: Num,
    tanaman: string,
    tahunTanam: Num,
    pengawas: string,
    vendor: string,
    tim: string,
    kesehatan: Health,
    foto: string,
    uploaded: bool,
    noPohon: int,
    description: Option<string>,
    linkDrive: Option<string>,
    statusDuplikat: Option<string>,
    statusVerifikasi: Option<string>)

  /** The capture form, kept across reloads. */
  datatype FormState = FormState(
    tinggi: Num,
    tahunTanam: Num,
    jenis: string,
    pekerjaan: string,
    pengawas: string,
    vendor: string,
    tim: string,
    kesehatan: Health)

  function Ids(entries: seq<Entry>): (r: seq<string>)
    ensures |r| == |entries| && forall i :: 0 <= i < |entries| ==> r[i] == entries[i].id
  {
    seq(|entries|, i requires 0 <= i < |entries| => entries[i].id)
  }

  /** No two records share an identity. */
  predicate DistinctIds(entries: seq<Entry>) {
    forall i, j :: 0 <= i < j < |entries| ==> entries[i].id != entries[j].id
  }
}
