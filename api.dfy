/** The frontend's API helpers: the backend base URL, absolute image URLs,
    and unwrapping the reply envelopes. */
module Api {
  import opened Wrappers
  import opened Text
  import opened Files

  const DefaultBase := "http://localhost:8080"

  /** getBaseUrl: NEXT_PUBLIC_API_BASE when it is set and non-empty, else the
      default, with one trailing '/' removed. `env` is the variable's value. */
  function BaseUrl(env: Option<string>): (base: string)
    ensures var raw := if env.Some? && env.value != "" then env.value else DefaultBase;
      if raw != [] && raw[|raw| - 1] == '/' then raw == base + "/" else base == raw
  {
    var raw := if env.Some? && env.value != "" then env.value else DefaultBase;
    if raw != [] && raw[|raw| - 1] == '/' then raw[..|raw| - 1] else raw
  }

  /** Only one '/' goes: a base ending in "//" keeps one of them. */
  lemma BaseUrlStripsOneSlash(s: string)
    requires s != ""
    ensures BaseUrl(Some(s + "//")) == s + "/"
  {
    var raw := s + "//";
    assert raw[..|raw| - 1] == s + "/";
  }

  /** An unset or empty variable gives the default, which has no trailing '/'. */
  lemma BaseUrlDefault(env: Option<string>)
    requires env.None? || env.value == ""
    ensures BaseUrl(env) == DefaultBase
  {
  }

  /** toImageUrl: absolute http(s) URLs pass through; anything else is put
      under the base, with a '/' between them unless the path starts with one. */
  function ToImageUrl(env: Option<string>, imagePath: string): (url: string)
    ensures HasPrefix(imagePath, "http://") || HasPrefix(imagePath, "https://") ==> url == imagePath
    ensures !(HasPrefix(imagePath, "http://") || HasPrefix(imagePath, "https://")) ==>
      && HasPrefix(url, BaseUrl(env))
      && (HasPrefix(imagePath, "/") ==> url == BaseUrl(env) + imagePath)
      && (!HasPrefix(imagePath, "/") ==> url == BaseUrl(env) + "/" + imagePath)
  {
    var base := BaseUrl(env);
    if HasPrefix(imagePath, "http://") || HasPrefix(imagePath, "https://") then imagePath
    else if !HasPrefix(imagePath, "/") then base + "/" + imagePath
    else base + imagePath
  }

  /** A path starting with '/' is not an absolute http(s) URL. */
  lemma RootedPathIsRelative(path: string)
    requires path != [] && path[0] == '/'
    ensures HasPrefix(path, "/")
    ensures !HasPrefix(path, "http://") && !HasPrefix(path, "https://")
  {
    assert path[..1] == "/";
    assert "http://"[0] == 'h' && "https://"[0] == 'h';
  }

  /** The references the upload returns become the base followed by the reference. */
  lemma StoredImageUrl(env: Option<string>, stored: string)
    ensures ToImageUrl(env, PublicPrefix + stored) == BaseUrl(env) + PublicPrefix + stored
  {
    var path := PublicPrefix + stored;
    assert path[0] == '/';
    RootedPathIsRelative(path);
  }

  /** A parsed JSON value; an object keeps the last value of each key. */
  datatype Json =
    | JNull
    | JBool(b: bool)
    | JNumber(n: int)
    | JString(s: string)
    | JArray(items: seq<Json>)
    | JObject(fields: map<string, Json>)

  /** A fetch response: whether it was ok, its status, and its parsed body. */
  datatype Response = Response(ok: bool, status: nat, body: Json)

  /** The body is an object with a "data" member. */
  predicate IsEnvelope(raw: Json)
  {
    raw.JObject? && "data" in raw.fields
  }

  /** getPacks: a failed response is an error; a bare array is the list; an
      envelope whose data is an array gives that array; anything else gives
      the empty list. */
  function GetPacks(res: Response): (r: Result<seq<Json>, string>)
    ensures !res.ok <==> r.Failure?
    ensures r.Failure? ==> r.error == "Failed to fetch packs: " + NatToString(res.status)
    ensures res.ok && res.body.JArray? ==> r == Success(res.body.items)
    ensures res.ok && r.Success? && r.value != [] ==>
      res.body.JArray? || (IsEnvelope(res.body) && res.body.fields["data"] == JArray(r.value))
  {
    if !res.ok then Failure("Failed to fetch packs: " + NatToString(res.status))
    else match res.body
      case JArray(items) => Success(items)
      case JObject(fields) =>
        if "data" in fields && fields["data"].JArray? then Success(fields["data"].items) else Success([])
      case _ => Success([])
  }

  /** The two accepted shapes carry the same list: an envelope, with or
      without other members, unwraps to what the bare array would give. */
  lemma EnvelopeMatchesBareArray(status: nat, items: seq<Json>, fields: map<string, Json>)
    ensures GetPacks(Response(true, status, JObject(fields["data" := JArray(items)])))
         == GetPacks(Response(true, status, JArray(items)))
  {
  }

  /** A successful body that is neither shape gives no packs. */
  lemma OtherShapesGiveNoPacks(status: nat, raw: Json)
    requires !raw.JArray? && !(IsEnvelope(raw) && raw.fields["data"].JArray?)
    ensures GetPacks(Response(true, status, raw)) == Success([])
  {
  }

  /** getPackDetail: an envelope gives its data, any other body is taken as
      the detail itself. */
  function GetPackDetail(id: string, res: Response): (r: Result<Json, string>)
    ensures !res.ok <==> r.Failure?
    ensures r.Failure? ==> r.error == "Failed to fetch pack " + id + ": " + NatToString(res.status)
    ensures r.Success? && IsEnvelope(res.body) ==> r.value == res.body.fields["data"]
    ensures r.Success? && !IsEnvelope(res.body) ==> r.value == res.body
  {
    if !res.ok then Failure("Failed to fetch pack " + id + ": " + NatToString(res.status))
    else if IsEnvelope(res.body) then Success(res.body.fields["data"])
    else Success(res.body)
  }

  /** Wrapping a detail in an envelope does not change what is read. */
  lemma PackDetailEnvelopeTransparent(id: string, status: nat, detail: Json)
    requires !IsEnvelope(detail)
    ensures GetPackDetail(id, Response(true, status, JObject(map["data" := detail])))
         == GetPackDetail(id, Response(true, status, detail))
  {
  }
}
