/**
 * Fetching the collector's whole dataset (services/fetchService.ts). The
 * request itself is not modelled: its outcome is a parameter, and a URL
 * that is empty or still the placeholder never uses it.
 */
module CloudFetch {
  import opened Text
  import opened Json

  /** The fragment of the unconfigured placeholder URL. */
  const PlaceholderFragment: string := "/s/.../exec"

  /** The URL is set and is not the placeholder. */
  predicate Configured(url: string) {
    url != "" && !Contains(url, PlaceholderFragment)
  }

  /** What `response.json()` produced. */
  datatype Body = Parsed(json: Json) | Unparsable(message: string)

  /** The outcome of `fetch(url)`: it threw, or a response came back. */
  datatype Reply = Thrown(message: string) | Response(ok: bool, status: int, body: Body)

  /** `fetchCloudData` either returns an array or throws an `Error`
      carrying `message`. */
  datatype Fetched = Rows(rows: seq<Json>) | Failed(message: string)

  /** The collector's alternate failure shape `{status: 'error', message}`. */
  predicate IsErrorDocument(v: Json) {
    Field(v, "status") == Some(Str("error"))
  }

  const ScriptErrorDefault: string := "Script mengembalikan error"

  /** The message thrown for an error document: its `message` when that is
      truthy, a fixed text otherwise. */
  function ScriptErrorMessage(v: Json): (m: string)
    ensures TruthyOpt(Field(v, "message")) ==> m == ToText(Field(v, "message").value)
    ensures !TruthyOpt(Field(v, "message")) ==> m == ScriptErrorDefault
  {
    TextOr(Field(v, "message"), ScriptErrorDefault)
  }

  function HttpErrorMessage(status: int): string {
    "HTTP Error! Status: " + IntText(status)
  }

  function FetchCloudData(url: string, reply: Reply): (r: Fetched)
    // An unconfigured URL gives [] whatever the network would have said.
    ensures !Configured(url) ==> r == Rows([])
    // A thrown request and an unreadable body are re-thrown unchanged.
    ensures Configured(url) && reply.Thrown? ==> r == Failed(reply.message)
    ensures Configured(url) && reply.Response? && !reply.ok ==> r == Failed(HttpErrorMessage(reply.status))
    ensures Configured(url) && reply.Response? && reply.ok && reply.body.Unparsable? ==>
              r == Failed(reply.body.message)
    // An array is returned as it is.
    ensures Configured(url) && reply.Response? && reply.ok && reply.body.Parsed? && reply.body.json.Arr? ==>
              r == Rows(reply.body.json.items)
    // Any other payload is an error document (its message) or yields [].
    ensures Configured(url) && reply.Response? && reply.ok && reply.body.Parsed? && !reply.body.json.Arr? ==>
              r == if IsErrorDocument(reply.body.json) then Failed(ScriptErrorMessage(reply.body.json)) else Rows([])
  {
    if url == "" || Contains(url, PlaceholderFragment) then Rows([])
    else
      match reply
      case Thrown(m) => Failed(m)
      case Response(ok, status, body) =>
        if !ok then Failed(HttpErrorMessage(status))
        else
          match body
          case Unparsable(m) => Failed(m)
          case Parsed(result) =>
            if result.Arr? then Rows(result.items)
            else if Truthy(result) && IsErrorDocument(result) then Failed(ScriptErrorMessage(result))
            else Rows([])
  }

  /** Every value the fetch returns is an array that is either empty or the
      payload the collector sent; it throws only for a thrown request, a
      non-OK status, an unreadable body or an error document. */
  lemma FetchOutcomes(url: string, reply: Reply)
    ensures var r := FetchCloudData(url, reply);
      r.Rows? && r.rows != [] ==>
        Configured(url) && reply.Response? && reply.ok && reply.body == Parsed(Arr(r.rows))
    ensures var r := FetchCloudData(url, reply);
      r.Failed? <==>
        Configured(url) &&
        (reply.Thrown? || !reply.ok || reply.body.Unparsable? ||
         (!reply.body.json.Arr? && IsErrorDocument(reply.body.json)))
  {
  }

  /** The collector's `{status: "error", message: "X"}` surfaces exactly "X". */
  lemma ErrorDocumentMessage(url: string, x: string)
    requires Configured(url) && x != ""
    ensures FetchCloudData(url, Response(true, 200, Parsed(Obj(map["status" := Str("error"), "message" := Str(x)]))))
            == Failed(x)
  {
  }
}
