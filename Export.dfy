/**
 * The export service (services/exportService.ts): CSV field quoting after
 * section 2 of RFC 4180, XML escaping with the five predefined entities of
 * XML 1.0 (section 4.6), the CSV documents of the CSV and ZIP exports, the
 * placemarks of the KMZ export and the byte buffer of `dataURLtoBlob`.
 *
 * The archive library, `saveAs`, `encodeURI`, the download link and `atob`
 * are not modelled; `new Date(t).toLocaleString('id-ID')` is a parameter.
 */
module Export {
  import opened Text
  import opened Json
  import opened Types
  import Upload

  // ---------------------------------------------------------------------
  // CSV fields
  // ---------------------------------------------------------------------

  /** A field must be quoted when it holds a comma, a quote or a line feed. */
  predicate NeedsQuotes(s: string) {
    ',' in s || '"' in s || '\n' in s
  }

  /** `s.replace(/"/g, '""')` */
  function DoubleQuotes(s: string): (r: string)
    ensures '"' !in s ==> r == s
  {
    if s == [] then []
    else (if s[0] == '"' then "\"\"" else [s[0]]) + DoubleQuotes(s[1..])
  }

  /** `escapeCSV`; `None` is `null` or `undefined`. */
  function EscapeCsv(v: Option<string>): (r: string)
    ensures v.None? ==> r == ""
    ensures v.Some? && !NeedsQuotes(v.value) ==> r == v.value
    ensures v.Some? && NeedsQuotes(v.value) ==> |r| >= 2 && r[0] == '"' && r[|r| - 1] == '"'
  {
    match v
    case None => ""
    case Some(s) => if NeedsQuotes(s) then "\"" + DoubleQuotes(s) + "\"" else s
  }

  // A reader for the CSV the exports write: records end at a line feed,
  // fields at a comma, and a field that opens with a quote runs to the
  // next quote that is not doubled.

  /** An unquoted field: everything up to the next comma or line feed. */
  function ReadPlain(t: string): (r: (string, string))
    ensures |r.1| <= |t|
    ensures r.1 == [] || r.1[0] == ',' || r.1[0] == '\n'
    ensures t != [] && t[0] != ',' && t[0] != '\n' ==> |r.1| < |t|
  {
    if t == [] || t[0] == ',' || t[0] == '\n' then ("", t)
    else
      var (v, rest) := ReadPlain(t[1..]);
      ([t[0]] + v, rest)
  }

  /** The body of a quoted field, after its opening quote: a doubled quote
      stands for one quote and a single quote closes the field. */
  function ReadQuoted(t: string): (r: (string, string))
    ensures |r.1| <= |t|
  {
    if t == [] then ("", "")
    else if t[0] == '"' && |t| >= 2 && t[1] == '"' then
      var (v, rest) := ReadQuoted(t[2..]);
      ("\"" + v, rest)
    else if t[0] == '"' then ("", t[1..])
    else
      var (v, rest) := ReadQuoted(t[1..]);
      ([t[0]] + v, rest)
  }

  function ReadField(t: string): (r: (string, string))
    ensures |r.1| <= |t|
    ensures t != [] && t[0] != ',' && t[0] != '\n' ==> |r.1| < |t|
  {
    if t != [] && t[0] == '"' then ReadQuoted(t[1..]) else ReadPlain(t)
  }

  /** The fields of one record, and the text after its line feed. */
  function ReadRecord(t: string): (r: (seq<string>, string))
    ensures |r.1| <= |t|
    ensures t != [] ==> |r.1| < |t|
    decreases |t|
  {
    var (f, rest) := ReadField(t);
    if rest != [] && rest[0] == ',' then
      var (fs, after) := ReadRecord(rest[1..]);
      ([f] + fs, after)
    else if rest != [] && rest[0] == '\n' then ([f], rest[1..])
    else ([f], rest)
  }

  /** The records of a CSV text. */
  function ReadDocument(t: string): seq<seq<string>>
    decreases |t|
  {
    if t == [] then []
    else
      var (fields, rest) := ReadRecord(t);
      [fields] + ReadDocument(rest)
  }

  predicate EndsField(rest: string) {
    rest == [] || rest[0] == ',' || rest[0] == '\n'
  }

  lemma {:induction false} PlainReadsBack(s: string, rest: string)
    requires ',' !in s && '\n' !in s && EndsField(rest)
    ensures ReadPlain(s + rest) == (s, rest)
  {
    if s != [] {
      var t := s + rest;
      assert t[0] == s[0] && t[1..] == s[1..] + rest;
      assert s[0] in s;
      assert forall c :: c in s[1..] ==> c in s;
      PlainReadsBack(s[1..], rest);
      assert ReadPlain(t[1..]) == (s[1..], rest);
      assert t != [] && t[0] != ',' && t[0] != '\n';
      assert ReadPlain(t) == ([t[0]] + ReadPlain(t[1..]).0, ReadPlain(t[1..]).1);
      assert [s[0]] + s[1..] == s;
    } else {
      assert s + rest == rest;
    }
  }

  lemma {:induction false} QuotedReadsBack(s: string, rest: string)
    requires rest == [] || rest[0] != '"'
    ensures ReadQuoted(DoubleQuotes(s) + "\"" + rest) == (s, rest)
  {
    var t := DoubleQuotes(s) + "\"" + rest;
    if s == [] {
      assert t == "\"" + rest;
    } else if s[0] == '"' {
      var u := DoubleQuotes(s[1..]) + "\"" + rest;
      assert t == "\"\"" + u;
      assert t[2..] == u;
      QuotedReadsBack(s[1..], rest);
      assert ReadQuoted(t) == ("\"" + s[1..], rest);
      assert "\"" + s[1..] == s;
    } else {
      var u := DoubleQuotes(s[1..]) + "\"" + rest;
      assert t == [s[0]] + u;
      assert t[0] == s[0] && t[1..] == u;
      QuotedReadsBack(s[1..], rest);
      assert ReadQuoted(t) == ([s[0]] + s[1..], rest);
      assert [s[0]] + s[1..] == s;
    }
  }

  /** Reading a quoted or unquoted field gives back the value it quotes. */
  lemma FieldReadsBack(s: string, rest: string)
    requires EndsField(rest)
    ensures ReadField(EscapeCsv(Some(s)) + rest) == (s, rest)
  {
    if NeedsQuotes(s) {
      QuotedFieldReadsBack(s, rest);
    } else {
      PlainFieldReadsBack(s, rest);
    }
  }

  lemma QuotedFieldReadsBack(s: string, rest: string)
    requires NeedsQuotes(s) && EndsField(rest)
    ensures ReadField(EscapeCsv(Some(s)) + rest) == (s, rest)
  {
    var u := DoubleQuotes(s) + "\"" + rest;
    var t := EscapeCsv(Some(s)) + rest;
    assert t == "\"" + u;
    assert t[0] == '"' && t[1..] == u;
    QuotedReadsBack(s, rest);
  }

  lemma PlainFieldReadsBack(s: string, rest: string)
    requires !NeedsQuotes(s) && EndsField(rest)
    ensures ReadField(EscapeCsv(Some(s)) + rest) == (s, rest)
  {
    var t := s + rest;
    PlainReadsBack(s, rest);
    if s != [] {
      assert t[0] == s[0] && s[0] in s;
    }
  }

  /** The fields quoted as `escapeCSV` does. */
  function Escaped(values: seq<string>): (r: seq<string>)
    ensures |r| == |values|
  {
    if values == [] then [] else [EscapeCsv(Some(values[0]))] + Escaped(values[1..])
  }

  /** `row.map(escapeCSV).join(',')` */
  function CsvLine(values: seq<string>): string {
    Join(Escaped(values), ",")
  }

  /** A line of quoted fields reads back as its values. */
  lemma {:induction false} LineReadsBack(values: seq<string>, rest: string)
    requires values != []
    requires rest == [] || rest[0] == '\n'
    ensures ReadRecord(CsvLine(values) + rest) == (values, if rest == [] then [] else rest[1..])
  {
    var e := Escaped(values);
    if |values| == 1 {
      assert CsvLine(values) == EscapeCsv(Some(values[0]));
      FieldReadsBack(values[0], rest);
      assert [values[0]] == values;
    } else {
      var tail := CsvLine(values[1..]);
      assert Escaped(values)[1..] == Escaped(values[1..]);
      assert CsvLine(values) == e[0] + "," + tail;
      var t := CsvLine(values) + rest;
      assert t == e[0] + ("," + tail + rest);
      FieldReadsBack(values[0], "," + tail + rest);
      assert ("," + tail + rest)[1..] == tail + rest;
      LineReadsBack(values[1..], rest);
      assert [values[0]] + values[1..] == values;
    }
  }

  /** The lines of a CSV document, one per record. */
  function Lines(rows: seq<seq<string>>): (r: seq<string>)
    ensures |r| == |rows|
  {
    if rows == [] then [] else [CsvLine(rows[0])] + Lines(rows[1..])
  }

  /** A line of two or more fields holds a comma. */
  lemma LineNotEmpty(values: seq<string>)
    requires |values| >= 2
    ensures CsvLine(values) != []
  {
    assert Escaped(values)[1..] == Escaped(values[1..]);
  }

  /** Records of two or more fields, joined by line feeds, read back. */
  lemma {:induction false} LinesReadBack(rows: seq<seq<string>>)
    requires forall i :: 0 <= i < |rows| ==> |rows[i]| >= 2
    ensures ReadDocument(Join(Lines(rows), "\n")) == rows
  {
    if |rows| == 1 {
      LineNotEmpty(rows[0]);
      LastLineReadsBack(rows[0]);
      assert Join(Lines(rows), "\n") == CsvLine(rows[0]);
    } else if |rows| > 1 {
      var tail := Join(Lines(rows[1..]), "\n");
      assert Lines(rows)[1..] == Lines(rows[1..]);
      assert Join(Lines(rows), "\n") == CsvLine(rows[0]) + ("\n" + tail);
      LineNotEmpty(rows[0]);
      LineReadsBack(rows[0], "\n" + tail);
      assert ("\n" + tail)[1..] == tail;
      LinesReadBack(rows[1..]);
      assert [rows[0]] + rows[1..] == rows;
    }
  }

  lemma LastLineReadsBack(values: seq<string>)
    requires |values| >= 2
    ensures ReadDocument(CsvLine(values)) == [values]
  {
    LineNotEmpty(values);
    LineReadsBack(values, "");
    assert CsvLine(values) + "" == CsvLine(values);
  }

  /** Header names that need no quoting are joined as they are. */
  lemma {:induction false} PlainHeaderLine(headers: seq<string>)
    requires AllPlain(headers)
    ensures Join(headers, ",") == CsvLine(headers)
  {
    if |headers| > 1 {
      assert Escaped(headers)[1..] == Escaped(headers[1..]);
      PlainHeaderLine(headers[1..]);
    }
  }

  /** `[headers.join(','), ...rows.map(row => row.map(escapeCSV).join(','))].join('\n')` */
  function CsvDocument(headers: seq<string>, rows: seq<seq<string>>): string {
    Join([Join(headers, ",")] + Lines(rows), "\n")
  }

  /** A document whose headers need no quoting and whose records have two
      or more fields reads back as the header record and then the rows. */
  lemma DocumentReadsBack(headers: seq<string>, rows: seq<seq<string>>)
    requires |headers| >= 2 && AllPlain(headers)
    requires forall i :: 0 <= i < |rows| ==> |rows[i]| >= 2
    ensures ReadDocument(CsvDocument(headers, rows)) == [headers] + rows
  {
    PlainHeaderLine(headers);
    assert [CsvLine(headers)] + Lines(rows) == Lines([headers] + rows);
    LinesReadBack([headers] + rows);
  }

  // ---------------------------------------------------------------------
  // The CSV export and the ZIP export
  // ---------------------------------------------------------------------

  /** The columns both exports begin with. */
  const RecordHeaders: seq<string> :=
    ["ID", "Timestamp", "Tinggi (cm)", "Jenis", "Kesehatan", "Lokasi", "Tahun Tanam"]

  const GpsHeaders: seq<string> := ["GPS Latitude", "GPS Longitude", "GPS Accuracy"]

  const CsvHeaders: seq<string> := RecordHeaders + GpsHeaders

  const ZipHeaders: seq<string> := RecordHeaders + ["Image File"]

  const CsvUriPrefix: string := "data:text/csv;charset=utf-8,"

  /** `e.gps?.lat ?? ''`, `e.gps?.lon ?? ''`, `e.gps?.accuracy ?? ''` */
  function GpsColumns(gps: Option<GpsLocation>): seq<string> {
    match gps
    case None => ["", "", ""]
    case Some(g) => [g.lat.text, g.lon.text, g.accuracy.text]
  }

  /** The values of one record in the CSV export, as `String` renders them. */
  function CsvRow(e: Entry): seq<string> {
    [e.id, e.timestamp, e.tinggi.text, e.tanaman, e.kesehatan.Text(), e.lokasi, e.tahunTanam.text] +
    GpsColumns(e.gps)
  }

  function CsvRows(entries: seq<Entry>): (r: seq<seq<string>>)
    ensures |r| == |entries| && forall i :: 0 <= i < |entries| ==> r[i] == CsvRow(entries[i])
  {
    seq(|entries|, i requires 0 <= i < |entries| => CsvRow(entries[i]))
  }

  /** The name of a record's photo in the archives. */
  function ImageName(id: string): string {
    "foto_" + id + ".jpg"
  }

  /** The values of one record in the ZIP export's CSV. */
  function ZipRow(e: Entry): seq<string> {
    [e.id, e.timestamp, e.tinggi.text, e.tanaman, e.kesehatan.Text(), e.lokasi, e.tahunTanam.text,
     "images/" + ImageName(e.id)]
  }

  function ZipRows(entries: seq<Entry>): (r: seq<seq<string>>)
    ensures |r| == |entries| && forall i :: 0 <= i < |entries| ==> r[i] == ZipRow(entries[i])
  {
    seq(|entries|, i requires 0 <= i < |entries| => ZipRow(entries[i]))
  }

  /** The link target of `exportToCSV`, before `encodeURI`. */
  function CsvExport(entries: seq<Entry>): string {
    CsvUriPrefix + CsvDocument(CsvHeaders, CsvRows(entries))
  }

  /** `data_monitoring.csv` in the ZIP export. */
  function ZipCsv(entries: seq<Entry>): string {
    CsvDocument(ZipHeaders, ZipRows(entries))
  }

  /** The files of the `images` folder: each record's photo under its image
      name, with the piece of the photo between its first and second comma
      as base64 content (`None` is `undefined`). */
  function ZipImages(entries: seq<Entry>): (r: seq<(string, Option<string>)>)
    ensures |r| == |entries|
  {
    seq(|entries|, i requires 0 <= i < |entries| => (ImageName(entries[i].id), SecondPiece(entries[i].foto, ',')))
  }

  /** No header name needs quoting. */
  predicate AllPlain(headers: seq<string>) {
    forall i :: 0 <= i < |headers| ==> !NeedsQuotes(headers[i])
  }

  lemma RecordHeadersPlain()
    ensures AllPlain(RecordHeaders)
  {
    assert !NeedsQuotes("ID") && !NeedsQuotes("Timestamp") && !NeedsQuotes("Tinggi (cm)");
    assert !NeedsQuotes("Jenis") && !NeedsQuotes("Kesehatan") && !NeedsQuotes("Lokasi");
    assert !NeedsQuotes("Tahun Tanam");
  }

  lemma HeadersPlain()
    ensures AllPlain(CsvHeaders) && AllPlain(ZipHeaders)
  {
    RecordHeadersPlain();
    assert !NeedsQuotes("GPS Latitude") && !NeedsQuotes("GPS Longitude") && !NeedsQuotes("GPS Accuracy");
    assert !NeedsQuotes("Image File");
    assert |RecordHeaders| == 7;
    assert forall i :: 7 <= i < 10 ==> CsvHeaders[i] == GpsHeaders[i - 7];
  }

  lemma CsvDocumentReadsBack(entries: seq<Entry>)
    ensures ReadDocument(CsvDocument(CsvHeaders, CsvRows(entries))) == [CsvHeaders] + CsvRows(entries)
  {
    HeadersPlain();
    DocumentReadsBack(CsvHeaders, CsvRows(entries));
  }

  lemma CsvRowShape(e: Entry)
    ensures |CsvRow(e)| == |CsvHeaders|
    ensures CsvRow(e)[0] == e.id && CsvRow(e)[1] == e.timestamp
    ensures CsvRow(e)[7..] == GpsColumns(e.gps)
  {
  }

  /** The CSV export is the data-URI prefix and then a document that reads
      back as the header record and one ten-field record per store record,
      in store order; the GPS columns are empty for a record without a fix. */
  lemma CsvExportReadsBack(entries: seq<Entry>)
    ensures StartsWith(CsvExport(entries), CsvUriPrefix)
    ensures var records := ReadDocument(CsvExport(entries)[|CsvUriPrefix|..]);
      && |records| == |entries| + 1
      && records[0] == CsvHeaders
      && forall i :: 0 <= i < |entries| ==>
           && |records[i + 1]| == |CsvHeaders|
           && records[i + 1][0] == entries[i].id
           && records[i + 1][1] == entries[i].timestamp
           && (entries[i].gps.None? ==> records[i + 1][7..] == ["", "", ""])
           && (entries[i].gps.Some? ==>
                 records[i + 1][7..] == [entries[i].gps.value.lat.text, entries[i].gps.value.lon.text,
                                          entries[i].gps.value.accuracy.text])
  {
    var doc := CsvDocument(CsvHeaders, CsvRows(entries));
    PrefixSplit(CsvUriPrefix, doc);
    CsvDocumentReadsBack(entries);
    var records := [CsvHeaders] + CsvRows(entries);
    forall i | 0 <= i < |entries|
      ensures records[i + 1] == CsvRow(entries[i])
      ensures |records[i + 1]| == |CsvHeaders|
      ensures records[i + 1][0] == entries[i].id && records[i + 1][1] == entries[i].timestamp
      ensures records[i + 1][7..] == GpsColumns(entries[i].gps)
    {
      CsvRowShape(entries[i]);
    }
  }

  lemma PrefixSplit(p: string, d: string)
    ensures StartsWith(p + d, p) && (p + d)[|p|..] == d
  {
    assert (p + d)[..|p|] == p;
  }

  /** The ZIP export's CSV reads back as its header record and one record
      per store record, whose "Image File" column names the image file
      written for the same record. */
  lemma ZipCsvReadsBack(entries: seq<Entry>)
    ensures var records := ReadDocument(ZipCsv(entries));
      && |records| == |entries| + 1
      && records[0] == ZipHeaders
      && forall i :: 0 <= i < |entries| ==>
           && |records[i + 1]| == |ZipHeaders|
           && records[i + 1][0] == entries[i].id
           && ZipImages(entries)[i].0 == "foto_" + entries[i].id + ".jpg"
           && records[i + 1][7] == "images/" + ZipImages(entries)[i].0
  {
    HeadersPlain();
    DocumentReadsBack(ZipHeaders, ZipRows(entries));
    var records := [ZipHeaders] + ZipRows(entries);
    forall i | 0 <= i < |entries|
      ensures records[i + 1] == ZipRow(entries[i])
      ensures |records[i + 1]| == |ZipHeaders|
    {
    }
  }


  // ---------------------------------------------------------------------
  // XML escaping
  // ---------------------------------------------------------------------

  function EscapeXmlChar(c: char): string {
    match c
    case '<' => "&lt;"
    case '>' => "&gt;"
    case '&' => "&amp;"
    case '"' => "&quot;"
    case '\'' => "&apos;"
    case _ => [c]
  }

  predicate Special(c: char) {
    c == '<' || c == '>' || c == '&' || c == '"' || c == '\''
  }

  /** `String(s).replace(/[<>&"']/g, ...)` */
  function EscapeText(s: string): (r: string)
    ensures (forall i :: 0 <= i < |s| ==> !Special(s[i])) ==> r == s
  {
    if s == [] then [] else EscapeXmlChar(s[0]) + EscapeText(s[1..])
  }

  /** `escapeXml`; `None` is `null` or `undefined`. */
  function EscapeXml(v: Option<string>): (r: string)
    ensures v.None? ==> r == ""
  {
    match v
    case None => ""
    case Some(s) => EscapeText(s)
  }

  /** Replaces each of the five entities by its character. */
  function DecodeXml(t: string): string
    decreases |t|
  {
    if t == [] then []
    else if t[0] != '&' then [t[0]] + DecodeXml(t[1..])
    else if StartsWith(t, "&lt;") then "<" + DecodeXml(t[4..])
    else if StartsWith(t, "&gt;") then ">" + DecodeXml(t[4..])
    else if StartsWith(t, "&amp;") then "&" + DecodeXml(t[5..])
    else if StartsWith(t, "&quot;") then "\"" + DecodeXml(t[6..])
    else if StartsWith(t, "&apos;") then "'" + DecodeXml(t[6..])
    else [t[0]] + DecodeXml(t[1..])
  }

  predicate EntityAt(t: string, i: nat) {
    OccursAt(t, "&lt;", i) || OccursAt(t, "&gt;", i) || OccursAt(t, "&amp;", i) ||
    OccursAt(t, "&quot;", i) || OccursAt(t, "&apos;", i)
  }

  lemma EscapeTextAppend(a: string, b: string)
    ensures EscapeText(a + b) == EscapeText(a) + EscapeText(b)
  {
    if a != [] {
      assert (a + b)[1..] == a[1..] + b;
      EscapeTextAppend(a[1..], b);
    } else {
      assert a + b == b;
    }
  }

  lemma DecodeChar(c: char, u: string)
    ensures DecodeXml(EscapeXmlChar(c) + u) == [c] + DecodeXml(u)
  {
    match c
    case '<' => DecodeLt(u);
    case '>' => DecodeGt(u);
    case '&' => DecodeAmp(u);
    case '"' => DecodeQuot(u);
    case '\'' => DecodeApos(u);
    case _ => DecodePlain(c, u);
  }

  lemma DecodeLt(u: string)
    ensures DecodeXml("&lt;" + u) == "<" + DecodeXml(u)
  {
    var t := "&lt;" + u;
    assert StartsWith(t, "&lt;") && t[4..] == u;
  }

  lemma DecodeGt(u: string)
    ensures DecodeXml("&gt;" + u) == ">" + DecodeXml(u)
  {
    var t := "&gt;" + u;
    assert t[1] == 'g';
    assert StartsWith(t, "&gt;") && t[4..] == u;
  }

  lemma DecodeAmp(u: string)
    ensures DecodeXml("&amp;" + u) == "&" + DecodeXml(u)
  {
    var t := "&amp;" + u;
    assert t[1] == 'a';
    assert StartsWith(t, "&amp;") && t[5..] == u;
  }

  lemma DecodeQuot(u: string)
    ensures DecodeXml("&quot;" + u) == "\"" + DecodeXml(u)
  {
    var t := "&quot;" + u;
    assert t[1] == 'q';
    assert StartsWith(t, "&quot;") && t[6..] == u;
  }

  lemma DecodeApos(u: string)
    ensures DecodeXml("&apos;" + u) == "'" + DecodeXml(u)
  {
    var t := "&apos;" + u;
    assert t[1] == 'a' && t[2] == 'p';
    assert StartsWith(t, "&apos;") && t[6..] == u;
  }

  lemma DecodePlain(c: char, u: string)
    requires c != '&'
    ensures DecodeXml([c] + u) == [c] + DecodeXml(u)
  {
    var t := [c] + u;
    assert t[0] == c && t[1..] == u;
  }

  /** Decoding the escaped text gives back the text. */
  lemma {:induction false} EscapeXmlReadsBack(s: string)
    ensures DecodeXml(EscapeText(s)) == s
  {
    if s != [] {
      DecodeChar(s[0], EscapeText(s[1..]));
      EscapeXmlReadsBack(s[1..]);
      assert [s[0]] + s[1..] == s;
    }
  }

  lemma OccursAfter(a: string, u: string, sub: string, j: nat)
    requires OccursAt(u, sub, j)
    ensures OccursAt(a + u, sub, |a| + j)
  {
    assert (a + u)[|a| + j..|a| + j + |sub|] == u[j..j + |sub|];
  }

  /** The escape of one character holds no markup character, and an
      ampersand in it can only be the first character of an entity. */
  lemma CharSafe(c: char, u: string)
    ensures var a := EscapeXmlChar(c);
      && '<' !in a && '>' !in a && '"' !in a && '\'' !in a
      && forall i :: 0 <= i < |a| && a[i] == '&' ==> i == 0 && EntityAt(a + u, 0)
  {
    var a := EscapeXmlChar(c);
    assert (a + u)[..|a|] == a;
  }

  /** The escaped text holds no markup character. */
  lemma {:induction false} EscapeXmlNoMarkup(s: string)
    ensures var t := EscapeText(s);
      '<' !in t && '>' !in t && '"' !in t && '\'' !in t
  {
    if s != [] {
      EscapeXmlNoMarkup(s[1..]);
      CharSafe(s[0], EscapeText(s[1..]));
    }
  }

  /** Each ampersand opens one of the five entities. */
  predicate AmpersandsOpenEntities(t: string) {
    forall i: nat :: i < |t| && t[i] == '&' ==> EntityAt(t, i)
  }

  /** Each ampersand of the escaped text opens one of the five entities. */
  lemma {:induction false} EscapeXmlEntities(s: string)
    ensures AmpersandsOpenEntities(EscapeText(s))
  {
    if s != [] {
      EscapeXmlEntities(s[1..]);
      var a := EscapeXmlChar(s[0]);
      var u := EscapeText(s[1..]);
      var t := a + u;
      CharSafe(s[0], u);
      assert AmpersandsOpenEntities(u);
      forall i: nat | i < |t| && t[i] == '&'
        ensures EntityAt(t, i)
      {
        if i >= |a| {
          var j: nat := i - |a|;
          assert j < |u| && u[j] == '&';
          assert EntityAt(u, j);
          if OccursAt(u, "&lt;", j) { OccursAfter(a, u, "&lt;", j); }
          else if OccursAt(u, "&gt;", j) { OccursAfter(a, u, "&gt;", j); }
          else if OccursAt(u, "&amp;", j) { OccursAfter(a, u, "&amp;", j); }
          else if OccursAt(u, "&quot;", j) { OccursAfter(a, u, "&quot;", j); }
          else { OccursAfter(a, u, "&apos;", j); }
        }
      }
    }
  }

  // ---------------------------------------------------------------------
  // The KMZ export
  // ---------------------------------------------------------------------

  /** The text of a placemark's `name` element. */
  function PlacemarkName(e: Entry): string {
    EscapeXml(Some(e.tanaman)) + " - " + EscapeXml(Some(e.id))
  }

  /** The `coordinates` element: longitude, latitude, zero altitude. */
  function Coordinates(g: GpsLocation): string {
    "<coordinates>" + g.lon.text + "," + g.lat.text + ",0</coordinates>"
  }

  const PlacemarkHead: string := "\n    <Placemark>\n      <name>"
  const PlacemarkTail: string := "\n      </Point>\n    </Placemark>"

  /** The `description` element: the photo, then the record's fields. */
  function Description(e: Entry, localeTime: string -> string): string {
    DescriptionHead + ImageRef(e.id) + DescriptionFields(e, localeTime)
  }

  const DescriptionHead: string := "      <description><![CDATA[\n        <img src=\""

  /** The photo's path inside the archive, with its closing quote. */
  function ImageRef(id: string): string {
    "files/" + ImageName(id) + "\""
  }

  function DescriptionFields(e: Entry, localeTime: string -> string): string {
    " width=\"300\" />\n" +
    "        <br><b>ID:</b> " + EscapeXml(Some(e.id)) + "\n" +
    "        <br><b>Tinggi:</b> " + EscapeXml(Some(e.tinggi.text)) + " cm\n" +
    "        <br><b>Jenis:</b> " + EscapeXml(Some(e.tanaman)) + "\n" +
    "        <br><b>Kesehatan:</b> " + EscapeXml(Some(e.kesehatan.Text())) + "\n" +
    "        <br><b>Lokasi:</b> " + EscapeXml(Some(e.lokasi)) + "\n" +
    "        <br><b>Timestamp:</b> " + EscapeXml(Some(localeTime(e.timestamp))) + "\n" +
    "      ]]></description>\n"
  }

  /** The placemark written for a record with fix `g`; `localeTime` is
      `new Date(t).toLocaleString('id-ID')`. */
  function Placemark(e: Entry, g: GpsLocation, localeTime: string -> string): string {
    PlacemarkHead + NameLine(e) + (Description(e, localeTime) + PointLine(g))
  }

  function NameLine(e: Entry): string {
    PlacemarkName(e) + "</name>\n"
  }

  const PointHead: string := "      <Point>\n        "

  /** The `coordinates` element and the end of the placemark. */
  function CoordinatesLine(g: GpsLocation): string {
    Coordinates(g) + PlacemarkTail
  }

  function PointLine(g: GpsLocation): string {
    PointHead + CoordinatesLine(g)
  }

  /** What one record adds to the placemarks: nothing without a fix. */
  function PlacemarkOf(e: Entry, localeTime: string -> string): string {
    match e.gps
    case None => ""
    case Some(g) => Placemark(e, g, localeTime)
  }

  /** What one record adds to the `files` folder: nothing without a fix. */
  function FilesOf(e: Entry): seq<(string, Option<string>)> {
    if e.gps.Some? then [(ImageName(e.id), SecondPiece(e.foto, ','))] else []
  }

  /** The placemarks of the records in store order. */
  function Placemarks(entries: seq<Entry>, localeTime: string -> string): string {
    if entries == [] then ""
    else Placemarks(entries[..|entries| - 1], localeTime) + PlacemarkOf(entries[|entries| - 1], localeTime)
  }

  /** The image files of the records in store order. */
  function KmzFiles(entries: seq<Entry>): seq<(string, Option<string>)> {
    if entries == [] then []
    else KmzFiles(entries[..|entries| - 1]) + FilesOf(entries[|entries| - 1])
  }

  /** The records that have a fix, in store order. */
  function WithGps(entries: seq<Entry>): seq<Entry> {
    if entries == [] then []
    else WithGps(entries[..|entries| - 1]) +
         (if entries[|entries| - 1].gps.Some? then [entries[|entries| - 1]] else [])
  }

  /** The `forEach` of `exportToKMZ`: appends a placemark and writes an
      image file for each record that has a fix. */
  method CollectPlacemarks(entries: seq<Entry>, localeTime: string -> string)
    returns (placemarks: string, files: seq<(string, Option<string>)>)
    ensures placemarks == Placemarks(entries, localeTime)
    ensures files == KmzFiles(entries)
  {
    placemarks := "";
    files := [];
    for i := 0 to |entries|
      invariant placemarks == Placemarks(entries[..i], localeTime)
      invariant files == KmzFiles(entries[..i])
    {
      var entry := entries[i];
      assert entries[..i + 1][..i] == entries[..i];
      if entry.gps.Some? {
        var imageName := ImageName(entry.id);
        files := files + [(imageName, SecondPiece(entry.foto, ','))];
        placemarks := placemarks + Placemark(entry, entry.gps.value, localeTime);
      }
    }
    assert entries[..|entries|] == entries;
  }

  /** The records with a fix are exactly the store's records that have
      one. */
  lemma {:induction false} WithGpsMembers(entries: seq<Entry>)
    ensures forall e :: e in WithGps(entries) <==> e in entries && e.gps.Some?
  {
    if entries != [] {
      var n := |entries| - 1;
      WithGpsMembers(entries[..n]);
      assert entries == entries[..n] + [entries[n]];
    }
  }

  lemma PlacemarksSnoc(s: seq<Entry>, x: Entry, localeTime: string -> string)
    ensures Placemarks(s + [x], localeTime) == Placemarks(s, localeTime) + PlacemarkOf(x, localeTime)
    ensures KmzFiles(s + [x]) == KmzFiles(s) + FilesOf(x)
  {
    assert (s + [x])[..|s|] == s;
  }

  /** Records without a fix add neither a placemark nor a file: the export
      is that of the records with a fix, with one file per such record. */
  lemma {:induction false} KmzSelection(entries: seq<Entry>, localeTime: string -> string)
    ensures Placemarks(entries, localeTime) == Placemarks(WithGps(entries), localeTime)
    ensures KmzFiles(entries) == KmzFiles(WithGps(entries))
    ensures |KmzFiles(entries)| == |WithGps(entries)|
  {
    if entries != [] {
      var n := |entries| - 1;
      var g := WithGps(entries[..n]);
      KmzSelection(entries[..n], localeTime);
      if entries[n].gps.Some? {
        assert WithGps(entries) == g + [entries[n]];
        PlacemarksSnoc(g, entries[n], localeTime);
      } else {
        assert WithGps(entries) == g;
      }
    }
  }

  /** The KMZ image files are, in order, one per record with a fix: its
      image name and the piece of its photo between the first and second
      comma. */
  lemma {:induction false} KmzFilesOfSelected(entries: seq<Entry>)
    ensures var w := WithGps(entries);
      && |KmzFiles(entries)| == |w|
      && forall j :: 0 <= j < |w| ==> KmzFiles(entries)[j] == (ImageName(w[j].id), SecondPiece(w[j].foto, ','))
  {
    if entries != [] {
      var n := |entries| - 1;
      KmzFilesOfSelected(entries[..n]);
      var g := WithGps(entries[..n]);
      if entries[n].gps.Some? {
        assert WithGps(entries) == g + [entries[n]];
        assert KmzFiles(entries) == KmzFiles(entries[..n]) + [(ImageName(entries[n].id), SecondPiece(entries[n].foto, ','))];
      } else {
        assert WithGps(entries) == g;
        assert KmzFiles(entries) == KmzFiles(entries[..n]) + [];
      }
    }
  }

  /** The base64 content the archives store for a record is what the upload
      document sends as `Base64`: both are absent together, and otherwise
      equal. */
  lemma ArchiveDataIsUploadData(e: Entry)
    ensures SecondPiece(e.foto, ',').None? <==> Upload.Get(Upload.Payload(e), Upload.Base64).None?
    ensures SecondPiece(e.foto, ',').Some? ==>
              Upload.Get(Upload.Payload(e), Upload.Base64) == Some(Str(SecondPiece(e.foto, ',').value))
  {
    Upload.PayloadImageData(e);
  }

  /** The ZIP's image of record `i` is named `foto_<id>.jpg` and holds the
      data the upload document sends as `Base64`. */
  lemma ZipImageIsUploadData(entries: seq<Entry>, i: nat)
    requires i < |entries|
    ensures ZipImages(entries)[i].0 == "foto_" + entries[i].id + ".jpg"
    ensures ZipImages(entries)[i].1.None? <==> Upload.Get(Upload.Payload(entries[i]), Upload.Base64).None?
    ensures ZipImages(entries)[i].1.Some? ==>
              Upload.Get(Upload.Payload(entries[i]), Upload.Base64) == Some(Str(ZipImages(entries)[i].1.value))
  {
    ArchiveDataIsUploadData(entries[i]);
  }

  /** The KMZ's `j`-th image belongs to the `j`-th record with a fix, is named
      `foto_<id>.jpg` and holds the data the upload document sends as
      `Base64`. */
  lemma KmzImageIsUploadData(entries: seq<Entry>, j: nat)
    requires j < |WithGps(entries)|
    ensures var e := WithGps(entries)[j];
      && j < |KmzFiles(entries)|
      && e in entries && e.gps.Some?
      && KmzFiles(entries)[j].0 == "foto_" + e.id + ".jpg"
      && (KmzFiles(entries)[j].1.None? <==> Upload.Get(Upload.Payload(e), Upload.Base64).None?)
      && (KmzFiles(entries)[j].1.Some? ==>
            Upload.Get(Upload.Payload(e), Upload.Base64) == Some(Str(KmzFiles(entries)[j].1.value)))
  {
    var e := WithGps(entries)[j];
    KmzFilesOfSelected(entries);
    WithGpsMembers(entries);
    ArchiveDataIsUploadData(e);
  }

  /** The name of a placemark holds no markup and decodes to the record's
      species and id. */
  lemma PlacemarkNameDecodes(e: Entry)
    ensures '<' !in PlacemarkName(e)
    ensures DecodeXml(PlacemarkName(e)) == e.tanaman + " - " + e.id
  {
    EscapeTextAppend(e.tanaman, " - ");
    EscapeTextAppend(e.tanaman + " - ", e.id);
    assert EscapeText(" - ") == " - ";
    assert PlacemarkName(e) == EscapeText(e.tanaman + " - " + e.id);
    EscapeXmlNoMarkup(e.tanaman + " - " + e.id);
    EscapeXmlReadsBack(e.tanaman + " - " + e.id);
  }

  lemma OccursBefore(x: string, c: string, sub: string, j: nat)
    requires OccursAt(x, sub, j)
    ensures OccursAt(x + c, sub, j)
  {
    assert (x + c)[j..j + |sub|] == x[j..j + |sub|];
  }

  lemma Suffix(a: string, b: string)
    ensures OccursAt(a + b, b, |a|)
  {
    assert (a + b)[|a|..|a| + |b|] == b;
  }

  /** A placemark opens with the record's name. */
  lemma PlacemarkOpensWithName(e: Entry, g: GpsLocation, localeTime: string -> string)
    ensures OccursAt(Placemark(e, g, localeTime), NameLine(e), |PlacemarkHead|)
  {
    var name := NameLine(e);
    assert OccursAt(name, name, 0);
    OccursAfter(PlacemarkHead, name, name, 0);
    OccursBefore(PlacemarkHead + name, Description(e, localeTime) + PointLine(g), name, |PlacemarkHead|);
  }

  /** `x` ends with `y`. */
  predicate EndsWith(x: string, y: string) {
    |y| <= |x| && x[|x| - |y|..] == y
  }

  lemma EndsWithAppend(a: string, b: string, c: string)
    requires EndsWith(b, c)
    ensures EndsWith(a + b, c)
  {
    assert (a + b)[|a + b| - |c|..] == b[|b| - |c|..];
  }

  /** A placemark ends by placing the record at longitude, latitude. */
  lemma PlacemarkEndsWithPoint(e: Entry, g: GpsLocation, localeTime: string -> string)
    ensures EndsWith(Placemark(e, g, localeTime), CoordinatesLine(g))
  {
    var line := CoordinatesLine(g);
    var d := Description(e, localeTime);
    assert EndsWith(line, line);
    EndsWithAppend(PointHead, line, line);
    EndsWithAppend(d, PointLine(g), line);
    EndsWithAppend(PlacemarkHead + NameLine(e), d + PointLine(g), line);
  }

  /** A placemark's picture is the image file written for the record. */
  lemma PlacemarkShowsImage(e: Entry, g: GpsLocation, localeTime: string -> string)
    ensures OccursAt(Placemark(e, g, localeTime), ImageRef(e.id),
                     |PlacemarkHead| + |NameLine(e)| + |DescriptionHead|)
  {
    var r := ImageRef(e.id);
    var d := Description(e, localeTime);
    assert OccursAt(r, r, 0);
    OccursAfter(DescriptionHead, r, r, 0);
    OccursBefore(DescriptionHead + r, DescriptionFields(e, localeTime), r, |DescriptionHead|);
    OccursBefore(d, PointLine(g), r, |DescriptionHead|);
    OccursAfter(PlacemarkHead + NameLine(e), d + PointLine(g), r, |DescriptionHead|);
  }

  const KmlHead: string :=
    "<?xml version=\"1.0\" encoding=\"UTF-8\"?>\n<kml xmlns=\"http://www.opengis.net/kml/2.2\">\n" +
    "  <Document>\n    <name>Data Monitoring Tanaman</name>\n    "

  /** `doc.kml`: the placemarks inside the document element. */
  function KmlDocument(placemarks: string): (r: string)
    ensures OccursAt(r, placemarks, |KmlHead|)
  {
    KmlHead + placemarks + "\n  </Document>\n</kml>"
  }

  // ---------------------------------------------------------------------
  // `dataURLtoBlob`
  // ---------------------------------------------------------------------

  datatype Blob = Blob(bytes: seq<bv8>, mime: string)

  /** A character the regular-expression `.` does not match. */
  predicate LineTerminator(c: char) {
    c == '\n' || c == '\r' || c == '\U{2028}' || c == '\U{2029}'
  }

  /** The capture of `:(.*?);` for a match whose colon is at `i - 1`: the
      text up to the first `;`, if one comes before a line terminator. */
  function CaptureFrom(s: string, i: nat): (r: Option<string>)
    requires i <= |s|
    ensures r.Some? ==> i + |r.value| < |s| && s[i + |r.value|] == ';' && s[i..i + |r.value|] == r.value &&
                        forall k :: i <= k < i + |r.value| ==> s[k] != ';' && !LineTerminator(s[k])
    decreases |s| - i
  {
    if i == |s| || LineTerminator(s[i]) then None
    else if s[i] == ';' then Some("")
    else
      match CaptureFrom(s, i + 1)
      case None => None
      case Some(c) => Some([s[i]] + c)
  }

  /** `s.match(/:(.*?);/)[1]`: the leftmost colon that starts a match. */
  function MatchFrom(s: string, i: nat): (r: Option<string>)
    requires i <= |s|
    decreases |s| - i
  {
    if i == |s| then None
    else if s[i] == ':' && CaptureFrom(s, i + 1).Some? then CaptureFrom(s, i + 1)
    else MatchFrom(s, i + 1)
  }

  /** `(head.match(/:(.*?);/) || [])[1] || 'image/jpeg'` */
  function MimeType(head: string): string {
    match MatchFrom(head, 0)
    case Some(m) => if m != "" then m else "image/jpeg"
    case None => "image/jpeg"
  }

  /** `Uint8Array` stores the low eight bits of `charCodeAt`. */
  function Low8(c: char): bv8 {
    (c as int % 256) as bv8
  }

  /** The bytes of a binary string, one per character. */
  function Bytes(s: string): (r: seq<bv8>)
    ensures |r| == |s| && forall i :: 0 <= i < |s| ==> r[i] == Low8(s[i])
  {
    seq(|s|, i requires 0 <= i < |s| => Low8(s[i]))
  }

  /** `dataURLtoBlob`; `atob` is a parameter, `None` when it throws. The
      piece between the first and second comma is passed to it, or `"undefined"` when
      there is no comma. The bytes are filled from the end, as
      `while (n--) u8arr[n] = bstr.charCodeAt(n)` does. */
  method DataUrlToBlob(dataurl: string, atob: string -> Option<string>) returns (blob: Option<Blob>)
    ensures blob.None? <==> atob(OrUndefined(SecondPiece(dataurl, ','))).None?
    ensures blob.Some? ==>
              var bstr := atob(OrUndefined(SecondPiece(dataurl, ','))).value;
              blob.value == Blob(Bytes(bstr), MimeType(TakeUntil(dataurl, ',')))
  {
    var head := TakeUntil(dataurl, ',');
    var mime := MimeType(head);
    var decoded := atob(OrUndefined(SecondPiece(dataurl, ',')));
    if decoded.None? {
      return None;
    }
    var bstr := decoded.value;
    var n := |bstr|;
    var u8arr := new bv8[n];
    while n > 0
      invariant 0 <= n <= |bstr| && u8arr.Length == |bstr|
      invariant forall i :: n <= i < |bstr| ==> u8arr[i] == Low8(bstr[i])
      decreases n
    {
      n := n - 1;
      u8arr[n] := Low8(bstr[n]);
    }
    blob := Some(Blob(u8arr[..], mime));
  }

  /** `String(piece)` for a piece that may be `undefined`. */
  function OrUndefined(piece: Option<string>): string {
    match piece
    case Some(p) => p
    case None => "undefined"
  }

  /** A binary string, whose characters are all below 256, is kept byte for
      byte. */
  lemma BinaryBytes(s: string)
    requires forall i :: 0 <= i < |s| ==> s[i] as int < 256
    ensures forall i :: 0 <= i < |s| ==> Bytes(s)[i] as int == s[i] as int
  {
  }

  /** The type of a data URL with a media type and a parameter is that
      media type; a URL without one is treated as JPEG. */
  lemma MimeOfDataUrl(m: string, rest: string)
    requires m != [] && ':' !in m && ';' !in m
    requires forall k :: 0 <= k < |m| ==> !LineTerminator(m[k])
    ensures MimeType("data:" + m + ";" + rest) == m
    ensures MimeType("data") == "image/jpeg"
  {
    var s := "data:" + m + ";" + rest;
    CaptureReads(s, 5, m);
    assert s[4] == ':';
    assert MatchFrom(s, 4) == Some(m);
    assert s[0] == 'd' && s[1] == 'a' && s[2] == 't' && s[3] == 'a';
    assert MatchFrom(s, 3) == MatchFrom(s, 4);
    assert MatchFrom(s, 2) == MatchFrom(s, 4);
    assert MatchFrom(s, 1) == MatchFrom(s, 4);
  }

  lemma {:induction false} CaptureReads(s: string, i: nat, m: string)
    requires i + |m| < |s| && s[i..i + |m|] == m && s[i + |m|] == ';'
    requires ';' !in m && forall k :: 0 <= k < |m| ==> !LineTerminator(m[k])
    ensures CaptureFrom(s, i) == Some(m)
    decreases |m|
  {
    if m != [] {
      assert s[i] == m[0] && m[0] != ';';
      assert s[i + 1..i + 1 + |m[1..]|] == m[1..];
      CaptureReads(s, i + 1, m[1..]);
      assert [m[0]] + m[1..] == m;
    }
  }
}
