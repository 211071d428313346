# Plant field-data collector: verified model of the record store, sync and data views

This project models the core of an offline-first field app for tree-planting crews. An operator captures a photo of a tree together with a form (species, height, health, supervisor, vendor, team). The app stores the result as a record on the device, keyed by an identity built from the capture instant (`YYYYMMDD-HHMMSSmmm`). It sends records to a spreadsheet collector (a web-app URL) when it can. Records that could not be sent stay *pending* until a "sync all" pass uploads them.

The analytics tab fetches the collector's whole dataset. It rebuilds record-like entries from the collector rows and overlays the device's own records by id. It then draws a per-supervisor chart, a height chart of the last 25 records and a map centred on the last record with a fix. The data tab lists the records newest first, five to a page. The exports write CSV, a ZIP (CSV plus images) and a KMZ (KML placemarks plus images).

The modules follow the source files:

| module | file | what it holds |
|---|---|---|
| `Text`, `Json`, `Types` | (shared) | strings, JavaScript values and truthiness, the record type |
| `RecordId` | App.tsx | the capture identity and its reader |
| `Store` | App.tsx | the record store: sync pass, capture, clear |
| `CloudFetch` | services/fetchService.ts | classification of the collector's reply |
| `Reconcile` | components/AnalyticsTab.tsx | the cloud/local merge and the load guard |
| `Upload` | services/uploadService.ts | the document one record is sent as |
| `DataView` | components/DataTab.tsx | pending count, sorted view, pagination, sync button |
| `Sorting` | (shared) | the stable descending sort both views use |
| `Analytics` | components/AnalyticsPanel.tsx | Drive thumbnail links, supervisor chart, height chart, map centre |
| `Export` | services/exportService.ts | CSV/XML escaping, CSV, ZIP and KMZ assembly, data-URL decoding |

Modelling conventions:

- A JavaScript number is `Num(text)`, the text `Number#toString` gives. `parseFloat`, `parseInt`, `toFixed`, `Date#getTime` and `toLocaleString` are function parameters.
- Whether an upload throws comes from an oracle: a `seq<bool>` for a sync pass and a `bool` for a capture.
- `atob` is a parameter that may fail.
- The store is a class whose `entries: seq<Entry>` its methods reassign.
- The loops of the source are `for`/`while` loops proved against specification functions: the sync pass, the merge, the supervisor tally, the KMZ placemark accumulation and the byte copy.

## Model

| member | source | states |
|---|---|---|
| Store.PendingPositions | App.tsx:78 | the positions of the records not yet uploaded, strictly increasing |
| Store.PendingPositionsCover | App.tsx:78 | every record not yet uploaded has a pending position |
| Store.Pending | App.tsx:78 | the pending records are exactly the records at the pending positions, in store order |
| Store.Dispatched | App.tsx:94-104 | the number of uploads that did not throw is at most the number tried |
| Store.FirstIndexOf | App.tsx:97 | `findIndex` by id: the first record with that id, or none when no record has it |
| Store.Flips | App.tsx:100 | the number of records that went from pending to uploaded is at most the store size |
| Store.FlipsOne | App.tsx:99-100 | marking one more pending record raises the flip count by exactly one |
| Store.FlipsNone | App.tsx:92 | an unchanged copy has flipped nothing |
| Store.SyncAfterKeepsRecords | App.tsx:92-101 | whatever the ids, every step of a pass keeps all records, their order and all fields but `uploaded`; flags never go back; the counter is at most the number of steps |
| Store.FirstIndexOfDistinct | App.tsx:97 | with distinct ids, the copy's `findIndex` of a record's id is that record's own position |
| Store.SyncStepDistinct | App.tsx:95-104 | with distinct ids, a thrown upload leaves the copy and counter alone; a dispatched one marks exactly the pending record and adds one |
| Store.MarkStep | App.tsx:96-101 | a dispatched upload keeps the pass invariant: marked iff already uploaded or dispatched earlier, and counter = dispatched = flips |
| Store.ThrowStep | App.tsx:102-104 | a thrown upload keeps the same pass invariant |
| Store.SyncAfterDistinct | App.tsx:94-105 | with distinct ids, after k steps a record is uploaded iff it was before or it is one of the first k pending records and its upload did not throw; the counter equals the flips |
| Store.SyncContract | App.tsx:77-113 | no pending records or offline: no upload and the store is unchanged. Otherwise every pending record is tried once, records/order/ids are kept and flags only rise. With distinct ids: a pending record ends uploaded iff its upload did not throw; the count equals the records flipped, at most the pending count; the success toast iff count > 0 |
| Store.SyncCountsDuplicateIdWithoutFlipping | App.tsx:97-100 | with two records sharing an id, one uploaded and one pending, the pass reports one upload but flips nothing |
| Store.NewEntry | App.tsx:122-145 | the new record carries the capture identity, the photo and the fix; it is pending, numbered old length + 1 and marked "UNIK"; x is the latitude and y the longitude, both 0 without a fix |
| Store.MarkUploaded | App.tsx:168 | every record is kept; a record ends uploaded iff it was, or it has the given id |
| Store.CaptureContract | App.tsx:115-175 | exactly one record is appended at the end, with the capture identity and `noPohon` = old length + 1. An upload is tried iff a URL is set and the device is online. The new record is uploaded iff that upload did not throw, and "sent" is reported exactly then. Earlier records are kept, and those with another id are unchanged |
| Store.RecordStore.constructor | App.tsx:13 | the store starts with the saved records |
| Store.RecordStore.SyncPendingEntries | App.tsx:77-113 | the loop over the pending records leaves exactly the store, toast and attempts of `Sync` (and so everything `SyncContract` states) |
| Store.RecordStore.HandleCapture | App.tsx:115-175 | appending, then marking on a dispatched upload, leaves exactly the store and toast of `Capture` (and so everything `CaptureContract` states) |
| Store.RecordStore.HandleClearData | App.tsx:182-186 | the store is emptied when confirmed and untouched otherwise |
| RecordId.ParseId | App.tsx:120 | the reader accepts only 18 characters with a dash at position 8 |
| RecordId.DigitsValueBound | App.tsx:119 | a k-digit string denotes a number below 10^k |
| RecordId.PadLength | App.tsx:119 | `pad(n, len)` of a number below 10^len is exactly len digits denoting n |
| RecordId.YearLength | App.tsx:120 | a four-digit year renders as four digits denoting it |
| RecordId.DateTextShape | App.tsx:120 | the date half is eight digits that read back as year, month and day |
| RecordId.TimeTextShape | App.tsx:120 | the time half is nine digits that read back as hours, minutes, seconds and milliseconds |
| RecordId.FormatIdShape | App.tsx:119-120 | the identity is 8 digits, '-', 9 digits, and it reads back to the instant it was built from |
| RecordId.FormatIdInjective | App.tsx:118-120 | two instants (four-digit years) share an identity iff they are equal |
| CloudFetch.ScriptErrorMessage | services/fetchService.ts:25 | the error document's message when truthy, else "Script mengembalikan error" |
| CloudFetch.FetchCloudData | services/fetchService.ts:2-33 | an empty or placeholder URL gives [] without using the reply; a thrown request or unreadable body is rethrown; a non-OK status throws "HTTP Error! Status: <code>"; an array is returned; an error document throws its message; any other shape gives [] |
| CloudFetch.FetchOutcomes | services/fetchService.ts:4-32 | a nonempty result is exactly the array the collector sent; the fetch fails iff the URL is configured and the request threw, the status was not OK, the body was unreadable or it was an error document |
| CloudFetch.ErrorDocumentMessage | services/fetchService.ts:24-26 | `{status: "error", message: X}` with nonempty X surfaces exactly X |
| Reconcile.NumOrZero | components/AnalyticsTab.tsx:60-62 | `n \|\| 0`: a truthy number is kept, anything else is 0 |
| Reconcile.CloudGps | components/AnalyticsTab.tsx:44-56 | a fix exists iff X and Y are present and both parse after their first ',' becomes '.'; it is (X, Y, 0) |
| Reconcile.FromRow | components/AnalyticsTab.tsx:58-68 | id is `String(ID)`; `noPohon`/`tinggi` are parsed or 0; falsy species/health/supervisor/date/link take 'Unknown'/'Sehat'/'N/A'/'-'/''; the fix is `CloudGps` |
| Reconcile.KeysOf | components/AnalyticsTab.tsx:37 | the keys of the map in insertion order |
| Reconcile.Values | components/AnalyticsTab.tsx:77 | `Array.from(map.values())`: the values in insertion order |
| Reconcile.Find | components/AnalyticsTab.tsx:69 | the first entry with the key, or none when no entry has it |
| Reconcile.Put | components/AnalyticsTab.tsx:69 | `map.set`: a known key keeps its place and takes the value; a new key goes last |
| Reconcile.PutKeys | components/AnalyticsTab.tsx:69 | `map.set` adds the key at the end iff it was absent, and leaves the keys alone otherwise |
| Reconcile.PutLookup | components/AnalyticsTab.tsx:69 | after `map.set(k, v)`, `get(k)` is v and every other key's value is unchanged |
| Reconcile.PutAllKeys | components/AnalyticsTab.tsx:37-75 | keys enter in order of first assignment and never leave |
| Reconcile.PutAllLookup | components/AnalyticsTab.tsx:37-75 | each key holds the value last assigned to it |
| Reconcile.AddNewSpec | components/AnalyticsTab.tsx:69-74 | the first-appearance list extends its start, holds exactly the keys seen, and has no repeats |
| Reconcile.AddNewAppend | components/AnalyticsTab.tsx:69-74 | adding two runs of keys one after the other equals adding their concatenation |
| Reconcile.DistinctCard | components/AnalyticsTab.tsx:77 | a list without repeats is as long as its set of elements |
| Reconcile.LocalAssignments | components/AnalyticsTab.tsx:73-75 | one assignment per device record, keyed by its id |
| Reconcile.MergedData | components/AnalyticsTab.tsx:36-78 | the two `forEach` loops over the map yield exactly the values of `MergeTable` |
| Reconcile.MergeOrder | components/AnalyticsTab.tsx:69-77 | merged ids are distinct and are the ids of rows with an ID and of records. The collector ids come first in first-seen order, then the device-only ids. A record that replaces a row keeps the row's place |
| Reconcile.MergeSize | components/AnalyticsTab.tsx:37-77 | the merged list has one element per distinct id over rows with an ID and records |
| Reconcile.LastForLocal | components/AnalyticsTab.tsx:73-75 | the last record with an id is the last assignment to it |
| Reconcile.LastForNoLocal | components/AnalyticsTab.tsx:73-75 | an id no record has receives no device assignment |
| Reconcile.LocalWins | components/AnalyticsTab.tsx:73-75 | a device record is in the merge exactly as given, over any row with its id; of several records with one id the last wins |
| Reconcile.CloudOnly | components/AnalyticsTab.tsx:69 | an id only the collector has holds its last row: a later duplicate row replaces an earlier one |
| Reconcile.CloudAssignmentsAppend | components/AnalyticsTab.tsx:40 | the rows' assignments of two runs are those of each run in order |
| Reconcile.CloudRowEffect | components/AnalyticsTab.tsx:41 | a falsy row or a row with a falsy ID is skipped; a row with an ID adds exactly its rebuilt entry at its place |
| Reconcile.LoadCloudData | components/AnalyticsTab.tsx:17-29 | offline, with an empty URL or with the placeholder, nothing changes; a failed fetch keeps the held rows; otherwise the fetched rows replace them |
| Reconcile.LoadOutcome | components/AnalyticsTab.tsx:18-23 | the held rows change only online, with a configured URL and an OK, readable reply; nonempty new rows are the array sent |
| Upload.FormatCoord | services/uploadService.ts:6 | only the first '.' becomes ','; the length is kept; text without '.' is unchanged |
| Upload.OrElse | services/uploadService.ts:20 | `o \|\| d`: a nonempty value is kept, a missing or empty one becomes d |
| Upload.PayloadGet | services/uploadService.ts:16-38 | each key of the document holds the value the object literal puts under it, or is absent when that is `undefined` |
| Upload.NamesDistinct | services/uploadService.ts:17-37 | two keys are written the same iff they are the same key |
| Upload.PayloadKeysOrdered | services/uploadService.ts:16-38 | keys are written in the literal's order and none twice |
| Upload.PayloadKeysExact | services/uploadService.ts:16-38 | the written keys are exactly the keys the document defines (19, or 21 with image data) |
| Upload.PayloadIdentity | services/uploadService.ts:9-35 | ID, date, the full photo and the tree number are copied; the path label is "Montana V2_Images/Gambar Montana (<id>).jpg" |
| Upload.PayloadPlace | services/uploadService.ts:19-24 | Y is built from the longitude and X from the latitude, each through `formatCoord`; location and coordinate text are copied |
| Upload.PayloadObservation | services/uploadService.ts:20-28 | work, height, species, planting year, supervisor and vendor are copied |
| Upload.PayloadDefaults | services/uploadService.ts:31-34 | missing description, Drive link and verification status are sent as ""; a missing or empty duplicate status as "UNIK" |
| Upload.PayloadImageData | services/uploadService.ts:36-37 | Base64 and RawBase64 are equal: the piece of the photo between its first and second ','. Both are absent iff the photo has no ',' |
| DataView.PendingCountCounts | components/DataTab.tsx:17 | the pending count is the number of records whose flag is unset |
| DataView.PendingCountMatchesSync | components/DataTab.tsx:17-52 | the pending count is zero iff a sync pass would report "already synced" |
| DataView.SortedView | components/DataTab.tsx:19-21 | the view is a permutation of the records, non-increasing by time, with records of equal time kept in store order |
| DataView.LatestIsNewest | components/DataTab.tsx:23 | the latest entry exists iff the store is nonempty; it is a record, and no record is newer |
| DataView.TotalPages | components/DataTab.tsx:35 | `ceil(n / 5)`: the smallest page count whose pages hold n records |
| DataView.PageContents | components/DataTab.tsx:31-33 | page p holds sorted records [(p-1)*5, p*5) cut at the end, at most five |
| DataView.PagesUpToPrefix | components/DataTab.tsx:31-33 | pages 1..c laid end to end are the first 5c sorted records |
| DataView.PagesCoverAll | components/DataTab.tsx:31-35 | pages 1..totalPages hold every sorted record once, in order |
| DataView.PageMovesStayInRange | components/DataTab.tsx:164-170 | from a page in [1, totalPages] both moves stay in range, and each moves by one unless at its end |
| DataView.PaginationShownIff | components/DataTab.tsx:35-162 | the page arrows show iff there are more than five records |
| DataView.SyncButtonState | components/DataTab.tsx:52-56 | the button is hidden iff nothing is pending, and enabled iff something is pending, no sync runs and the device is online |
| Sorting.InsertPermutes | components/DataTab.tsx:20 | insertion adds exactly the element |
| Sorting.InsertDescending | components/DataTab.tsx:20 | insertion keeps a list non-increasing by key |
| Sorting.SortPermutes | components/DataTab.tsx:20 | the sort is a permutation |
| Sorting.SortDescends | components/DataTab.tsx:20 | the sort is non-increasing by key |
| Sorting.SortStable | components/DataTab.tsx:20 | elements with equal keys keep their relative order |
| Sorting.SortUnique | components/AnalyticsPanel.tsx:61 | any non-increasing list with the same elements of each key, in the same order, is the sort |
| Sorting.DescendingDeterminedByKeys | components/AnalyticsPanel.tsx:61 | two non-increasing lists with equal per-key sublists are equal |
| Sorting.WithKeyEmpty | components/AnalyticsPanel.tsx:61 | the sublist of a key is empty iff no element has that key |
| Sorting.TopKey | components/AnalyticsPanel.tsx:61 | two such lists start with the same key |
| Analytics.DriveFileId | components/AnalyticsPanel.tsx:22-24 | the id captured by `/d/` or, failing that, by `?id=`/`&id=` is nonempty |
| Analytics.GetHighResImageUrl | components/AnalyticsPanel.tsx:17-30 | "" gives ""; a `data:` URL is kept; a captured Drive id becomes the w800 thumbnail URL; anything else is kept |
| Analytics.CaptureIsId | components/AnalyticsPanel.tsx:22 | the run up to the next '/' is the whole id when '/' or the end follows it |
| Analytics.DriveLinkRewritten | components/AnalyticsPanel.tsx:22-26 | a link whose first "/d/" is followed by an id and then '/' or the end becomes that id's thumbnail, whatever follows |
| Analytics.FirstDrivePathIsAfterBefore | components/AnalyticsPanel.tsx:22 | the first "/d/" match lies right after the prefix that has none |
| Analytics.IdParamRewritten | components/AnalyticsPanel.tsx:22-26 | a link with no "/d/" but with "?id=" or "&id=" becomes the thumbnail of the run up to the next '&' |
| Analytics.SupervisorName | components/AnalyticsPanel.tsx:55 | an empty supervisor counts as 'Tanpa Nama', so no name is empty |
| Analytics.SupervisorData | components/AnalyticsPanel.tsx:52-62 | the `forEach` tally followed by the sort yields exactly `SupervisorRows` |
| Analytics.TallyStep | components/AnalyticsPanel.tsx:54-56 | one more record bumps the tally by its name |
| Analytics.TallyDistinct | components/AnalyticsPanel.tsx:53-57 | the tally has one row per distinct name |
| Analytics.TallyCounts | components/AnalyticsPanel.tsx:56 | each row's count is its name's number of occurrences, which is positive |
| Analytics.TallyCovers | components/AnalyticsPanel.tsx:54-56 | every name that occurs has a row |
| Analytics.TallyTotal | components/AnalyticsPanel.tsx:53-57 | the counts add up to the number of records |
| Analytics.TotalPermutation | components/AnalyticsPanel.tsx:61 | reordering rows keeps their total |
| Analytics.RowsFromTally | components/AnalyticsPanel.tsx:58-61 | the chart rows are the tally's rows, reordered |
| Analytics.RowsDistinct | components/AnalyticsPanel.tsx:58-61 | no two chart rows share a name |
| Analytics.RowsCountOccurrences | components/AnalyticsPanel.tsx:56-60 | each chart row counts its name's records |
| Analytics.RowsCoverNames | components/AnalyticsPanel.tsx:54-60 | every record's name has a chart row |
| Analytics.SupervisorRowsSpec | components/AnalyticsPanel.tsx:52-62 | one row per distinct name ('Tanpa Nama' for empty); each count is that name's records; every name has a row; counts sum to the record count; rows are non-increasing by count |
| Analytics.OccursPositive | components/AnalyticsPanel.tsx:56 | a name at some position occurs at least once |
| Analytics.HeightDataWindow | components/AnalyticsPanel.tsx:43-49 | the chart shows the last min(25, n) records, oldest first |
| Analytics.LastOnMap | components/AnalyticsPanel.tsx:65-67 | the last record with a fix and a nonzero latitude, or none when no record has one |
| Analytics.MapCenter | components/AnalyticsPanel.tsx:64-69 | the centre is the last such record's (lat, lon), else (-2.979129, 115.199507) |
| Export.DoubleQuotes | services/exportService.ts:21 | text without '"' is unchanged |
| Export.EscapeCsv | services/exportService.ts:17-24 | null/undefined gives ""; text without ',', '"' or '\n' is unchanged; otherwise the field is wrapped in quotes |
| Export.ReadPlain | services/exportService.ts:20-23 | an unquoted field ends at ',', '\n' or the end |
| Export.ReadField | services/exportService.ts:17-24 | reading a field consumes input |
| Export.ReadRecord | services/exportService.ts:35 | reading a record consumes input |
| Export.PlainReadsBack | services/exportService.ts:23 | an unquoted field reads back as itself |
| Export.QuotedReadsBack | services/exportService.ts:21 | a field with doubled quotes and a closing quote reads back as the original |
| Export.FieldReadsBack | services/exportService.ts:17-24 | any escaped field reads back as the original text (section 2 of RFC 4180, rules 6 and 7) |
| Export.QuotedFieldReadsBack | services/exportService.ts:20-21 | a quoted field reads back as the original text |
| Export.PlainFieldReadsBack | services/exportService.ts:20-23 | a field left plain reads back as the original text |
| Export.LineReadsBack | services/exportService.ts:32-35 | a comma-joined escaped line reads back as its values |
| Export.LinesReadBack | services/exportService.ts:35 | newline-joined lines of two or more fields read back as their rows |
| Export.LastLineReadsBack | services/exportService.ts:35 | a single line reads back as one record |
| Export.PlainHeaderLine | services/exportService.ts:27-35 | headers needing no quotes are joined as an escaped line |
| Export.DocumentReadsBack | services/exportService.ts:35 | header line plus data lines read back as the header record then the rows |
| Export.CsvRows | services/exportService.ts:29-32 | one row per record, in store order |
| Export.ZipRows | services/exportService.ts:60 | one row per record, in store order |
| Export.ZipImages | services/exportService.ts:52-55 | one image per record |
| Export.RecordHeadersPlain | services/exportService.ts:27 | the record headers need no quoting |
| Export.HeadersPlain | services/exportService.ts:27-58 | neither header line needs quoting |
| Export.CsvDocumentReadsBack | services/exportService.ts:27-35 | the CSV body reads back as header and rows |
| Export.CsvRowShape | services/exportService.ts:29-31 | a row has 10 fields: id, timestamp, ..., then the GPS columns |
| Export.CsvExportReadsBack | services/exportService.ts:26-35 | the data URI starts with the CSV prefix, and its body reads back as the header and one 10-field record per record, in order. Id and timestamp come first; the GPS columns are empty without a fix and lat, lon, accuracy with one |
| Export.ZipCsvReadsBack | services/exportService.ts:52-61 | the ZIP CSV reads back as the header and one 8-field record per record; its image is "foto_<id>.jpg" and its "Image File" column is "images/" + that name |
| Export.EscapeText | services/exportService.ts:70-79 | text without any of < > & " ' is unchanged |
| Export.EscapeXml | services/exportService.ts:68-69 | null/undefined gives "" |
| Export.EscapeTextAppend | services/exportService.ts:70 | escaping works character by character |
| Export.DecodeChar | services/exportService.ts:71-78 | each escaped character decodes back to itself |
| Export.EscapeXmlReadsBack | services/exportService.ts:68-80 | decoding the five entities of section 4.6 of XML 1.0 recovers the input |
| Export.CharSafe | services/exportService.ts:71-78 | no escaped character produces < > " ' |
| Export.EscapeXmlNoMarkup | services/exportService.ts:68-80 | the output has no <, >, " or ' |
| Export.EscapeXmlEntities | services/exportService.ts:68-80 | every & of the output opens one of the five predefined entities |
| Export.CollectPlacemarks | services/exportService.ts:88-114 | the `forEach` with `+=` yields exactly `Placemarks` and the image files `KmzFiles` |
| Export.WithGpsMembers | services/exportService.ts:91 | the selected records are exactly the records with a fix |
| Export.PlacemarksSnoc | services/exportService.ts:89-113 | one more record appends its placemark and its file |
| Export.KmzSelection | services/exportService.ts:89-113 | placemarks and image files are those of the records with a fix; there is one image per such record |
| Export.KmzFilesOfSelected | services/exportService.ts:91-94 | the j-th KMZ image belongs to the j-th record with a fix: its image name and the piece of its photo between the first and second ',' |
| Export.ArchiveDataIsUploadData | services/exportService.ts:53 | the base64 content an archive stores for a record is exactly what the upload document sends as Base64, and both are absent together |
| Export.ZipImageIsUploadData | services/exportService.ts:52-55 | the ZIP's image of record i is named "foto_<id>.jpg" and holds that record's upload Base64 data |
| Export.KmzImageIsUploadData | services/exportService.ts:91-94 | the KMZ's j-th image belongs to a record of the store with a fix, is named "foto_<id>.jpg" and holds that record's upload Base64 data |
| Export.PlacemarkNameDecodes | services/exportService.ts:99 | the placemark name has no '<' and decodes to "<species> - <id>" |
| Export.PlacemarkOpensWithName | services/exportService.ts:98-99 | a placemark opens with its name line |
| Export.PlacemarkEndsWithPoint | services/exportService.ts:109-112 | a placemark ends with the point written "lon,lat,0" |
| Export.PlacemarkShowsImage | services/exportService.ts:101 | the description references "files/foto_<id>.jpg" |
| Export.KmlDocument | services/exportService.ts:116-122 | the placemarks sit inside the document element |
| Export.CaptureFrom | services/exportService.ts:9 | the lazy capture of `:(.*?);` is the run up to the first ';' and holds no line terminator |
| Export.CaptureReads | services/exportService.ts:9 | a run free of ';' and line terminators followed by ';' is captured |
| Export.MimeOfDataUrl | services/exportService.ts:9 | "data:<m>;..." gives m; a head without a match gives "image/jpeg" |
| Export.Bytes | services/exportService.ts:13 | one byte per character: the low eight bits of its code |
| Export.BinaryBytes | services/exportService.ts:13 | characters below 256 are kept exactly |
| Export.DataUrlToBlob | services/exportService.ts:7-15 | fails iff `atob` of the piece between the first and second comma (or "undefined") throws; otherwise the blob holds `Bytes` of the decoded text, filled from the end, with the MIME type of the head |

## Left out

- Store.SyncContract: the count and flag properties are stated for records with distinct ids only. `findIndex` marks the first record carrying an id, so with a repeated id a dispatched pending record can be counted while an earlier record is "marked" instead. `Store.SyncCountsDuplicateIdWithoutFlipping` shows this concrete case. Capture never checks id uniqueness, and identities are built from the capture instant down to the millisecond.
- Store.RecordStore.SyncPendingEntries: the pass is atomic. App.tsx writes back a copy taken before its awaits (App.tsx:92,107), so a record captured during a pass would be lost; interleaving is not modelled.
- Store.RecordStore.HandleCapture: EXIF embedding is a parameter (the photo passed in); `writeExifData` handles its own failures. The outer `catch` (App.tsx:176-179) is not modelled. The only steps after `writeExifData` that can throw are the download-link DOM calls (App.tsx:156-161), and they run after the append at App.tsx:153. Such a failure keeps the new record but skips the upload attempt and its marking; the model assumes those DOM calls succeed. The photo download link and the toasts other than the final one are left out.
- The in-flight flags (`isSyncing`, `loading`) are inputs or left out. `currentPage` is not reset when the store shrinks; `DataView.PageContents` covers a page beyond the end, which is empty.
- Analytics.SupervisorRowsSpec: supervisor names that are properties of `Object.prototype` are not modelled; the model counts them like any other name. The tally is a plain object literal (components/AnalyticsPanel.tsx:53-56). For a name such as "constructor", "toString" or "valueOf", `counts[name]` starts as the inherited function, so the count becomes a string and the sort compares NaN. For "__proto__" the assignment goes to the prototype setter, so that name gets no row.
- Analytics.SupervisorData: the same `Object.prototype` names are not modelled, for the same reason.
- Analytics.SupervisorRowsSpec: the rows are in first-appearance order before the sort. `Object.entries` lists integer-like keys first, so a supervisor named with digits only would start the pre-sort order. That order shows only among rows with equal counts.
- DataView.SortedView: `getTime` is an integer-valued parameter. An unparsable timestamp gives NaN, which makes the comparator inconsistent, and this is not modelled.
- Reconcile.FromRow: text fields hold `String(v)` of the collector value, while the source keeps the raw value. The two differ only for a truthy value that renders as "", such as an empty array. The source then counts that supervisor under the key "", and the model counts it as 'Tanpa Nama'.
- Network and browser I/O: `fetch`, toasts, `window.confirm` (a `bool`), `navigator.onLine` (a `bool`), local storage persistence, `encodeURI`, the download link, JSZip, `saveAs` and `Blob` construction are left out. The collector's reply and `atob` are parameters.
- Export.ZipImages: a record whose photo has no comma passes `undefined` to JSZip; its behaviour then is not modelled (the entry holds `None`).
- Export.Bytes: `charCodeAt` returns UTF-16 code units, while Dafny characters are Unicode scalar values. A character above U+FFFF yields its low eight bits here instead of those of its first surrogate (`atob` output never holds one).
- Export.DataUrlToBlob: `dataURLtoBlob` is never called in services/exportService.ts; it is modelled because it is part of that file.
- Export.PlacemarkShowsImage: the description's CDATA section contains already-escaped text, which a KML reader shows with entities unexpanded; only the layout is stated.
- `toFixed`, `Number#toString`, `parseFloat`, `parseInt`, `Date` and `toLocaleString` are parameters or given text. Floating-point arithmetic is not modelled.
- services/exifService.ts, the camera, compass and GPS services, the form, settings and online-dashboard tabs are not part of this model.
