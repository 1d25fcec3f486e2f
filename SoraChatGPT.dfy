/**
  The client for one public Sora generation: it takes the identifier from the
  URL it was built with, asks the public generations endpoint for that
  identifier's JSON document, and projects the document into a download path
  for one quality or a flattened metadata record.

  The client's state is the base of its requests and the URL given to its
  constructor; neither changes after construction, so the client is a value
  here. The network is the `server` parameter: the response the transport
  would deliver for an endpoint.
 */
module SoraChatGPT {

  import opened Wrappers
  import opened PhpStrings
  import opened PhpJson

  /** The fixed base of every request. */
  const ApiUrl: string := "https://sora.chatgpt.com/backend/public/generations/"

  /** The quality `getVideoUrl` reads when called without one. */
  const DefaultQuality: string := "source"

  // ---------------------------------------------------------------------------
  // Identifier extraction
  // ---------------------------------------------------------------------------

  /** `getSoraIdFromUrl`: the last piece of `explode('/', url)`. The identifier
      has no `/`, ends the URL, and either is the whole URL or follows a `/`. */
  function SoraIdFromUrl(url: string): (id: string)
    ensures '/' !in id
    ensures |id| <= |url| && url[|url| - |id|..] == id
    ensures |id| == |url| || url[|url| - |id| - 1] == '/'
  {
    LastPiece('/', url)
  }

  /** The identifier is the text strictly after the last `/` of the URL. */
  lemma SoraIdAfterLastSlash(url: string)
    ensures SoraIdFromUrl(url) == url[LastIndexOf('/', url) + 1..]
  {
  }

  /** The three properties of `SoraIdFromUrl`'s contract single out its result:
      any string with them is the identifier. */
  lemma SoraIdUnique(url: string, id': string)
    requires '/' !in id'
    requires |id'| <= |url| && url[|url| - |id'|..] == id'
    requires |id'| == |url| || url[|url| - |id'| - 1] == '/'
    ensures id' == SoraIdFromUrl(url)
  {
  }

  /** Degenerate URLs: without a `/` the whole URL is the identifier (so the empty
      URL gives `""`), and a URL ending in `/` gives `""`. */
  lemma SoraIdDegenerate(url: string)
    ensures '/' !in url ==> SoraIdFromUrl(url) == url
    ensures |url| > 0 && url[|url| - 1] == '/' ==> SoraIdFromUrl(url) == ""
    ensures SoraIdFromUrl("") == ""
  {
  }

  // ---------------------------------------------------------------------------
  // Endpoint and fetch
  // ---------------------------------------------------------------------------

  /** A client: the base of its requests and the URL it was constructed with. */
  datatype Client = Client(apiUrl: string, url: string)

  /** `new SoraChatGPTClass($url)`: the fixed base and the given URL, so the
      client requests the fixed base followed by the identifier of `url`. */
  function NewClient(url: string): (c: Client)
    ensures c.url == url
    ensures Endpoint(c) == ApiUrl + SoraIdFromUrl(url)
  {
    Client(ApiUrl, url)
  }

  /** The fixed base ends in `/`. */
  lemma ApiUrlEndsInSlash()
    ensures |ApiUrl| > 0 && ApiUrl[|ApiUrl| - 1] == '/'
  {
  }

  /** The request target of `getData`: the base followed by the identifier,
      verbatim. When the base ends in `/`, as the fixed one does, the
      identifier (which has no `/`) takes the place of the empty last path
      piece of the base, and reading the identifier back from the endpoint
      gives the same identifier. */
  function Endpoint(client: Client): (e: string)
    ensures |e| == |client.apiUrl| + |SoraIdFromUrl(client.url)|
    ensures e[..|client.apiUrl|] == client.apiUrl && e[|client.apiUrl|..] == SoraIdFromUrl(client.url)
    ensures |client.apiUrl| > 0 && client.apiUrl[|client.apiUrl| - 1] == '/' ==>
      var base := Explode('/', client.apiUrl);
      && Explode('/', e) == base[..|base| - 1] + [SoraIdFromUrl(client.url)]
      && SoraIdFromUrl(e) == SoraIdFromUrl(client.url)
  {
    var id := SoraIdFromUrl(client.url);
    JoinedId(client.apiUrl, id);
    client.apiUrl + id
  }

  /** Appending an identifier to a base that ends in `/` makes it the last path
      piece. */
  lemma JoinedId(base: string, id: string)
    requires '/' !in id
    ensures var e := base + id;
      && e[..|base|] == base && e[|base|..] == id
      && (|base| > 0 && base[|base| - 1] == '/' ==>
        var b := Explode('/', base);
        Explode('/', e) == b[..|b| - 1] + [id] && SoraIdFromUrl(e) == id)
  {
    var e := base + id;
    assert e[..|base|] == base && e[|base|..] == id;
    if |base| > 0 && base[|base| - 1] == '/' {
      ExplodeAfterSep('/', base, id);
      SoraIdUnique(e, id);
    }
  }

  /** What the transport delivers for one request: whether it failed, the HTTP
      status, and what `json_decode($body, true)` made of the body (`JNull`
      when the body is not JSON, or is the JSON literal `null`). */
  datatype Response = Response(transportFailed: bool, status: int, decoded: Json)

  /** The decision `getData` takes on a response: the decoded document, or
      `None` (PHP `false`) on a transport error, a status other than 200, or a
      body that decodes to null. */
  function GetData(r: Response): (d: Option<Json>)
    ensures d.Some? <==> !r.transportFailed && r.status == 200 && r.decoded != JNull
    ensures d.Some? ==> d.value == r.decoded
  {
    if r.transportFailed || r.status != 200 then None
    else if r.decoded != JNull then Some(r.decoded)
    else None
  }

  /** `getData`: fetch the client's endpoint and decide on the response. */
  function Fetch(client: Client, server: string -> Response): (d: Option<Json>)
    ensures d.Some? ==> d.value != JNull
  {
    GetData(server(Endpoint(client)))
  }

  /** Two clients whose URLs carry the same identifier fetch the same document,
      so every projection agrees on them. */
  lemma FetchDependsOnlyOnId(url1: string, url2: string, server: string -> Response)
    requires SoraIdFromUrl(url1) == SoraIdFromUrl(url2)
    ensures Fetch(NewClient(url1), server) == Fetch(NewClient(url2), server)
  {
    var e1 := Endpoint(NewClient(url1));
    var e2 := Endpoint(NewClient(url2));
    assert e1 == e2;
  }

  // ---------------------------------------------------------------------------
  // getVideoUrl
  // ---------------------------------------------------------------------------

  /** The path `getVideoUrl` returns for `quality` from the fetched document:
      `None` (PHP `false`) when nothing was fetched, when the document is falsy,
      or when `encodings[quality].path` is missing or null; that path otherwise.
      Any quality string is looked up as it is. */
  function VideoUrlOf(data: Option<Json>, quality: string := DefaultQuality): (r: Option<Json>)
    ensures r.None? <==> data.None? || !Truthy(data.value) || Get(data.value, ["encodings", quality, "path"]).None?
    ensures r.Some? ==> r == Get(data.value, ["encodings", quality, "path"]) && r.value != JNull
  {
    if data.None? || !Truthy(data.value) then None
    else Get(data.value, ["encodings", quality, "path"])
  }

  /** `getVideoUrl($quality = 'source')`: `false` when the fetch fails, the
      document is falsy or it has no `encodings[quality].path`; that path
      otherwise. */
  function GetVideoUrl(client: Client, server: string -> Response, quality: string := DefaultQuality): (r: Option<Json>)
    ensures var d := Fetch(client, server);
      r.None? <==> d.None? || !Truthy(d.value) || Get(d.value, ["encodings", quality, "path"]).None?
    ensures r.Some? ==> r == Get(Fetch(client, server).value, ["encodings", quality, "path"])
  {
    VideoUrlOf(Fetch(client, server), quality)
  }

  /** Calling `getVideoUrl` without an argument is calling it with `"source"`. */
  lemma VideoUrlDefaultIsSource(client: Client, server: string -> Response)
    ensures GetVideoUrl(client, server) == GetVideoUrl(client, server, "source")
  {
  }

  // ---------------------------------------------------------------------------
  // getVideoInfo
  // ---------------------------------------------------------------------------

  /** How a PHP call ends: it returns `false`, returns a value, or raises a
      `TypeError`. */
  datatype Outcome<+T> = False | Value(value: T) | TypeError

  /** The keys of the record `getVideoInfo` returns. */
  datatype InfoKey = Id | Url | Title | Width | Height | Duration | CreatedAt | AvailableQualities
  {
    /** The key as it appears in the returned PHP array. */
    function Name(): string
    {
      match this
      case Id => "id"
      case Url => "url"
      case Title => "title"
      case Width => "width"
      case Height => "height"
      case Duration => "duration"
      case CreatedAt => "created_at"
      case AvailableQualities => "available_qualities"
    }

    /** Where in the document the field is read from: a top-level member of
        the same name, except `duration`, which reads the `source` encoding, and
        `available_qualities`, which lists the keys of `encodings`. */
    function SourcePath(): (p: seq<string>)
      ensures |p| > 0
      ensures p[0] == "encodings" <==> this == Duration || this == AvailableQualities
      ensures p[0] != "encodings" ==> p == [Name()]
    {
      match this
      case Duration => ["encodings", "source", "duration_secs"]
      case AvailableQualities => ["encodings"]
      case _ => [Name()]
    }

    /** The key's position in the returned PHP array. */
    function Index(): (i: nat)
      ensures i < 8 && InfoKeys[i] == Name()
    {
      match this
      case Id => 0
      case Url => 1
      case Title => 2
      case Width => 3
      case Height => 4
      case Duration => 5
      case CreatedAt => 6
      case AvailableQualities => 7
    }
  }

  /** The keys of the returned PHP array, in order. */
  const InfoKeys: seq<string> :=
    ["id", "url", "title", "width", "height", "duration", "created_at", "available_qualities"]

  /** The record `getVideoInfo` returns, one field per key. */
  datatype VideoInfo = VideoInfo(
    id: Json, url: Json, title: Json, width: Json, height: Json,
    duration: Json, createdAt: Json, availableQualities: seq<Json>)
  {
    /** The value stored under `key`. */
    function Field(key: InfoKey): Json
    {
      match key
      case Id => id
      case Url => url
      case Title => title
      case Width => width
      case Height => height
      case Duration => duration
      case CreatedAt => createdAt
      case AvailableQualities => JArr(availableQualities)
    }

    /** The PHP array holding the fields under their keys, in the order of `InfoKeys`. */
    function ToArray(): (a: Json)
      ensures a.JObj? && Names(a.fields) == InfoKeys && UniqueKeys(a.fields)
      ensures forall key: InfoKey :: a.fields[key.Index()] == (key.Name(), Field(key))
    {
      var a := JObj([
        ("id", id), ("url", url), ("title", title), ("width", width), ("height", height),
        ("duration", duration), ("created_at", createdAt), ("available_qualities", JArr(availableQualities))
      ]);
      assert Names(a.fields) == InfoKeys;
      a
    }
  }

  /** Reading a key of the returned PHP array reads the matching field; no other
      key is present. */
  lemma ToArrayAt(info: VideoInfo, key: InfoKey, other: string)
    ensures Offset(info.ToArray(), key.Name()) == Some(info.Field(key))
    ensures other !in InfoKeys ==> Offset(info.ToArray(), other) == None
  {
    FindFieldAt(info.ToArray().fields, key.Index());
  }

  /** `array_keys($data['encodings'] ?? [])`: no keys when `encodings` is missing
      or null, the keys of `encodings` when it is an array, and a TypeError
      (`None`) when it is any other value. */
  function Qualities(doc: Json): (r: Option<seq<Json>>)
    ensures Get(doc, ["encodings"]).None? ==> r == Some([])
    ensures Get(doc, ["encodings"]).Some? ==> r == ArrayKeys(Get(doc, ["encodings"]).value)
    ensures r.None? <==> Get(doc, ["encodings"]).Some? && !(Get(doc, ["encodings"]).value.JArr? || Get(doc, ["encodings"]).value.JObj?)
  {
    match Get(doc, ["encodings"])
    case None => Some([])
    case Some(e) => ArrayKeys(e)
  }

  /** The default of a record field whose source is missing or null: a
      non-empty string for `url` and `title`, null for every other field. */
  function Default(key: InfoKey): (d: Json)
    ensures d != JNull <==> key == Url || key == Title
    ensures d != JNull ==> d.JStr? && Truthy(d)
  {
    match key
    case Url => JStr("not found")
    case Title => JStr("Untitled")
    case _ => JNull
  }

  /** What `getVideoInfo` does with the fetched document: `false` when nothing
      was fetched or the document is falsy, a TypeError when `encodings` holds
      a value that is neither null nor an array, and otherwise the record. */
  function VideoInfoOf(data: Option<Json>): (r: Outcome<VideoInfo>)
    ensures r.False? <==> data.None? || !Truthy(data.value)
    ensures r.TypeError? <==> data.Some? && Truthy(data.value) && Qualities(data.value).None?
    ensures r.Value? ==>
      var doc := data.value;
      && r.value.id == Get(doc, ["id"]).GetOr(JNull)
      && r.value.url == Get(doc, ["url"]).GetOr(JStr("not found"))
      && r.value.title == Get(doc, ["title"]).GetOr(JStr("Untitled"))
      && r.value.width == Get(doc, ["width"]).GetOr(JNull)
      && r.value.height == Get(doc, ["height"]).GetOr(JNull)
      && r.value.duration == Get(doc, ["encodings", "source", "duration_secs"]).GetOr(JNull)
      && r.value.createdAt == Get(doc, ["created_at"]).GetOr(JNull)
      && r.value.availableQualities == Qualities(doc).value
  {
    if data.None? || !Truthy(data.value) then False
    else
      var doc := data.value;
      match Qualities(doc)
      case None => TypeError
      case Some(qs) =>
        Value(Record(doc, qs))
  }

  /** The record of `doc`: each field stored under its own key is that key's
      `Pick`, and the qualities are `qs`. */
  function Record(doc: Json, qs: seq<Json>): (r: VideoInfo)
    ensures r.availableQualities == qs && r.Field(AvailableQualities) == JArr(qs)
    ensures forall key: InfoKey :: key != AvailableQualities ==> r.Field(key) == Pick(doc, key)
  {
    var r := VideoInfo(
      Pick(doc, Id), Pick(doc, Url), Pick(doc, Title), Pick(doc, Width),
      Pick(doc, Height), Pick(doc, Duration), Pick(doc, CreatedAt), qs);
    FieldsOf(Pick(doc, Id), Pick(doc, Url), Pick(doc, Title), Pick(doc, Width),
      Pick(doc, Height), Pick(doc, Duration), Pick(doc, CreatedAt), qs);
    r
  }

  /** Each field of a record is the value it was built with. */
  lemma FieldsOf(id: Json, url: Json, title: Json, width: Json, height: Json,
                 duration: Json, createdAt: Json, qs: seq<Json>)
    ensures var r := VideoInfo(id, url, title, width, height, duration, createdAt, qs);
      && r.Field(Id) == id && r.Field(Url) == url && r.Field(Title) == title
      && r.Field(Width) == width && r.Field(Height) == height && r.Field(Duration) == duration
      && r.Field(CreatedAt) == createdAt && r.Field(AvailableQualities) == JArr(qs)
  {
  }

  /** `$data[...] ?? default` for one field of the record: the value found at
      the field's source, or its default; null only when the field defaults to
      null. */
  function Pick(doc: Json, key: InfoKey): (v: Json)
    ensures Get(doc, key.SourcePath()).None? ==> v == Default(key)
    ensures Get(doc, key.SourcePath()).Some? ==> v == Get(doc, key.SourcePath()).value
    ensures v == JNull ==> Default(key) == JNull
  {
    Coalesce(doc, key.SourcePath(), Default(key))
  }

  /** `getVideoInfo()`, with the record as the PHP array it returns. */
  function GetVideoInfo(client: Client, server: string -> Response): (r: Outcome<Json>)
    ensures r.False? <==> VideoInfoOf(Fetch(client, server)).False?
    ensures r.TypeError? <==> VideoInfoOf(Fetch(client, server)).TypeError?
    ensures r.Value? ==> r.value.JObj? && Names(r.value.fields) == InfoKeys
    ensures r.Value? ==>
      && VideoInfoOf(Fetch(client, server)).Value?
      && forall key: InfoKey :: Offset(r.value, key.Name()) == Some(VideoInfoOf(Fetch(client, server)).value.Field(key))
  {
    match VideoInfoOf(Fetch(client, server))
    case False => False
    case TypeError => TypeError
    case Value(info) =>
      assert forall key: InfoKey :: Offset(info.ToArray(), key.Name()) == Some(info.Field(key)) by {
        forall key: InfoKey ensures Offset(info.ToArray(), key.Name()) == Some(info.Field(key)) {
          ToArrayAt(info, key, "");
        }
      }
      Value(info.ToArray())
  }

  // ---------------------------------------------------------------------------
  // Properties of the two projections
  // ---------------------------------------------------------------------------

  /** Each field of the record reads its own source: it holds the value found
      there when that value exists and is not null, and its default otherwise
      (`"not found"` for `url`, `"Untitled"` for `title`, null for the rest);
      `available_qualities` lists the keys of `encodings` in order, none when
      `encodings` is missing or null. */
  lemma VideoInfoFields(doc: Json, key: InfoKey)
    requires Truthy(doc) && Qualities(doc).Some?
    ensures VideoInfoOf(Some(doc)).Value?
    ensures key != AvailableQualities ==>
      VideoInfoOf(Some(doc)).value.Field(key) == Get(doc, key.SourcePath()).GetOr(Default(key))
    ensures VideoInfoOf(Some(doc)).value.Field(AvailableQualities) == JArr(Qualities(doc).value)
  {
    var info := Record(doc, Qualities(doc).value);
    assert VideoInfoOf(Some(doc)) == Value(info);
  }

  /** A quality for which `getVideoUrl` finds a path is listed among the record's
      `available_qualities` (as PHP stores that key). */
  lemma VideoUrlQualityListed(data: Option<Json>, quality: string)
    requires data.Some? && Truthy(data.value) && Qualities(data.value).Some?
    requires Get(data.value, ["encodings", quality, "path"]).Some?
    ensures VideoUrlOf(data, quality).Some? && VideoInfoOf(data).Value?
    ensures KeyValue(quality) in VideoInfoOf(data).value.availableQualities
  {
    var doc := data.value;
    GetStep(doc, "encodings", [quality, "path"]);
    var e := Offset(doc, "encodings").value;
    GetStep(e, quality, ["path"]);
    GetOne(doc, "encodings");
    OffsetKeyListed(e, quality);
  }

  /** Conversely, every member of an `encodings` object that has a path yields
      that path from `getVideoUrl` for its name. */
  lemma ListedQualityHasVideoUrl(data: Option<Json>, i: nat)
    requires data.Some? && Truthy(data.value)
    requires Get(data.value, ["encodings"]).Some? && Get(data.value, ["encodings"]).value.JObj?
    requires var fs := Get(data.value, ["encodings"]).value.fields;
      UniqueKeys(fs) && i < |fs| && Get(fs[i].1, ["path"]).Some?
    ensures var fs := Get(data.value, ["encodings"]).value.fields;
      VideoUrlOf(data, fs[i].0) == Get(fs[i].1, ["path"])
  {
    var doc := data.value;
    var e := Get(doc, ["encodings"]).value;
    var fs := e.fields;
    GetOne(doc, "encodings");
    GetStep(doc, "encodings", [fs[i].0, "path"]);
    FindFieldAt(fs, i);
    GetStep(e, fs[i].0, ["path"]);
  }

  /** Reading a path that starts at a member other than `k` does not see an
      assignment to `k`. */
  lemma GetAfterAssign(fields: seq<(string, Json)>, k: string, x: Json, n: string, path: seq<string>)
    requires n != k
    ensures Get(JObj(Assign(fields, k, x)), [n] + path) == Get(JObj(fields), [n] + path)
  {
    FindFieldAssign(fields, k, x, n);
    GetStep(JObj(Assign(fields, k, x)), n, path);
    GetStep(JObj(fields), n, path);
  }

  /** The keys copied from a top-level member of the same name. */
  predicate CopiedKey(key: InfoKey)
  {
    key in {Id, Url, Title, Width, Height, CreatedAt}
  }

  /** No field other than `k` reads from the member an assignment to the
      copied key `k` changes. */
  lemma OtherSourcesUnchanged(fields: seq<(string, Json)>, k: InfoKey, x: Json, n: InfoKey)
    requires CopiedKey(k) && n != k
    ensures Get(JObj(Assign(fields, k.Name(), x)), n.SourcePath()) == Get(JObj(fields), n.SourcePath())
  {
    var p := n.SourcePath();
    assert p[0] != k.Name();
    GetAfterAssign(fields, k.Name(), x, p[0], p[1..]);
    assert [p[0]] + p[1..] == p;
  }

  /** Setting the top-level member a copied field reads to `x` sets that field
      to `x`, or to its default when `x` is null. */
  lemma AssignedFieldChanges(fields: seq<(string, Json)>, k: InfoKey, x: Json)
    requires CopiedKey(k)
    requires Qualities(JObj(fields)).Some?
    ensures var after := VideoInfoOf(Some(JObj(Assign(fields, k.Name(), x))));
      after.Value? && after.value.Field(k) == (if x == JNull then Default(k) else x)
  {
    var doc' := JObj(Assign(fields, k.Name(), x));
    assert Truthy(doc') && Qualities(doc').Some? by {
      OtherSourcesUnchanged(fields, k, x, AvailableQualities);
    }
    VideoInfoFields(doc', k);
    assert Get(doc', k.SourcePath()) == (if x == JNull then None else Some(x)) by {
      assert k.SourcePath() == [k.Name()];
      FindFieldAssign(fields, k.Name(), x, k.Name());
      GetOne(doc', k.Name());
    }
  }

  /** Setting the top-level member a copied field `k` reads leaves the field
      `n` of every other key as it was. */
  lemma OtherFieldUnchanged(fields: seq<(string, Json)>, k: InfoKey, x: Json, n: InfoKey)
    requires CopiedKey(k) && n != k
    requires |fields| > 0 && Qualities(JObj(fields)).Some?
    ensures var before := VideoInfoOf(Some(JObj(fields)));
      var after := VideoInfoOf(Some(JObj(Assign(fields, k.Name(), x))));
      && before.Value? && after.Value? && after.value.Field(n) == before.value.Field(n)
  {
    var doc := JObj(fields);
    var doc' := JObj(Assign(fields, k.Name(), x));
    assert Truthy(doc') && Qualities(doc') == Qualities(doc) by {
      OtherSourcesUnchanged(fields, k, x, AvailableQualities);
    }
    var before := VideoInfoOf(Some(doc));
    var after := VideoInfoOf(Some(doc'));
    var src := Get(doc, n.SourcePath());
    var qs := JArr(Qualities(doc).value);
    assert Get(doc', n.SourcePath()) == src by {
      OtherSourcesUnchanged(fields, k, x, n);
    }
    assert before.Value? && before.value.Field(n) == if n == AvailableQualities then qs else src.GetOr(Default(n)) by {
      VideoInfoFields(doc, n);
    }
    assert after.Value? && after.value.Field(n) == if n == AvailableQualities then qs else src.GetOr(Default(n)) by {
      VideoInfoFields(doc', n);
    }
  }

  /** Each field defaults independently: setting the top-level member a copied
      field reads to `x` changes that field, to `x` or to its default when `x`
      is null, and leaves every other field as it was. */
  lemma FieldsIndependent(fields: seq<(string, Json)>, k: InfoKey, x: Json)
    requires CopiedKey(k)
    requires |fields| > 0 && Qualities(JObj(fields)).Some?
    ensures var before := VideoInfoOf(Some(JObj(fields)));
      var after := VideoInfoOf(Some(JObj(Assign(fields, k.Name(), x))));
      && before.Value? && after.Value?
      && after.value.Field(k) == (if x == JNull then Default(k) else x)
      && forall n: InfoKey :: n != k ==> after.value.Field(n) == before.value.Field(n)
  {
    AssignedFieldChanges(fields, k, x);
    VideoInfoFields(JObj(fields), k);
    var before := VideoInfoOf(Some(JObj(fields)));
    var after := VideoInfoOf(Some(JObj(Assign(fields, k.Name(), x))));
    forall n: InfoKey | n != k
      ensures after.value.Field(n) == before.value.Field(n)
    {
      OtherFieldUnchanged(fields, k, x, n);
    }
  }

  /** Replacing the `encodings` member leaves the document an array whose
      `encodings` is the replacement. */
  lemma EncodingsReplaced(fields: seq<(string, Json)>, enc': Json)
    requires enc' != JNull
    ensures Offset(JObj(Assign(fields, "encodings", enc')), "encodings") == Some(enc')
    ensures Get(JObj(Assign(fields, "encodings", enc')), ["encodings"]) == Some(enc')
  {
    FindFieldAssign(fields, "encodings", enc', "encodings");
    GetOne(JObj(Assign(fields, "encodings", enc')), "encodings");
  }

  /** `duration` reads only the `source` quality: replacing the encoding of any
      other quality leaves it unchanged. */
  lemma DurationReadsSourceOnly(fields: seq<(string, Json)>, enc: seq<(string, Json)>, q: string, x: Json)
    requires |fields| > 0 && Offset(JObj(fields), "encodings") == Some(JObj(enc))
    requires q != "source"
    ensures var doc' := JObj(Assign(fields, "encodings", JObj(Assign(enc, q, x))));
      && VideoInfoOf(Some(JObj(fields))).Value? && VideoInfoOf(Some(doc')).Value?
      && VideoInfoOf(Some(doc')).value.duration == VideoInfoOf(Some(JObj(fields))).value.duration
  {
    var doc := JObj(fields);
    var enc' := JObj(Assign(enc, q, x));
    var doc' := JObj(Assign(fields, "encodings", enc'));
    EncodingsReplaced(fields, enc');
    GetOne(doc, "encodings");
    GetStep(doc, "encodings", ["source", "duration_secs"]);
    GetStep(doc', "encodings", ["source", "duration_secs"]);
    FindFieldAssign(enc, q, x, "source");
    GetStep(JObj(enc), "source", ["duration_secs"]);
    GetStep(enc', "source", ["duration_secs"]);
    VideoInfoFields(doc, Duration);
    VideoInfoFields(doc', Duration);
  }

  /** After replacing the encoding of quality `q`, `getVideoUrl` for `q` reads
      the path of the replacement. */
  lemma ReplacedQualityUrl(fields: seq<(string, Json)>, enc: seq<(string, Json)>, q: string, x: Json)
    ensures VideoUrlOf(Some(JObj(Assign(fields, "encodings", JObj(Assign(enc, q, x))))), q) == Get(x, ["path"])
  {
    var enc' := JObj(Assign(enc, q, x));
    var doc' := JObj(Assign(fields, "encodings", enc'));
    EncodingsReplaced(fields, enc');
    GetStep(doc', "encodings", [q, "path"]);
    FindFieldAssign(enc, q, x, q);
    GetStep(enc', q, ["path"]);
  }

  /** Every failure of the fetch, whatever its kind, yields `false` from both
      projections. */
  lemma FailureIsFalse(client: Client, server: string -> Response, quality: string)
    requires var r := server(Endpoint(client)); r.transportFailed || r.status != 200 || r.decoded == JNull
    ensures GetVideoUrl(client, server, quality) == None
    ensures GetVideoInfo(client, server) == False
  {
  }

  /** A falsy document (`false`, `0`, `""`, `"0"`, an empty array or object)
      yields `false` from both projections. */
  lemma FalsyDocumentIsFalse(doc: Json, quality: string)
    requires !Truthy(doc)
    ensures VideoUrlOf(Some(doc), quality) == None
    ensures VideoInfoOf(Some(doc)) == False
  {
  }

  /** The `source` encoding of the worked example: a path and a duration. */
  const ExampleSource: Json := JObj([("path", JStr("http://x/video.mp4")), ("duration_secs", JNum(12))])

  /** The `encodings` member of the worked example: only the `source` quality. */
  const ExampleEncodings: Json := JObj([("source", ExampleSource)])

  /** The document of the worked example: an identifier and one `source`
      encoding with a path and a duration. */
  const ExampleDoc: Json := JObj([("id", JStr("abc")), ("encodings", ExampleEncodings)])

  /** The members of the worked example sit where they are written. */
  lemma ExampleOffsets()
    ensures Offset(ExampleDoc, "id") == Some(JStr("abc"))
    ensures Offset(ExampleDoc, "encodings") == Some(ExampleEncodings)
    ensures Offset(ExampleEncodings, "source") == Some(ExampleSource)
    ensures Offset(ExampleSource, "path") == Some(JStr("http://x/video.mp4"))
    ensures Offset(ExampleSource, "duration_secs") == Some(JNum(12))
  {
    assert Offset(ExampleDoc, "id") == Some(JStr("abc")) by { FindFieldAt(ExampleDoc.fields, 0); }
    assert Offset(ExampleDoc, "encodings") == Some(ExampleEncodings) by { FindFieldAt(ExampleDoc.fields, 1); }
    assert Offset(ExampleEncodings, "source") == Some(ExampleSource) by { FindFieldAt(ExampleEncodings.fields, 0); }
    assert Offset(ExampleSource, "path") == Some(JStr("http://x/video.mp4")) by { FindFieldAt(ExampleSource.fields, 0); }
    assert Offset(ExampleSource, "duration_secs") == Some(JNum(12)) by { FindFieldAt(ExampleSource.fields, 1); }
  }

  /** On the worked example the `source` path is found and the `md` one is not. */
  lemma ExampleVideoUrl()
    ensures VideoUrlOf(Some(ExampleDoc)) == Some(JStr("http://x/video.mp4"))
    ensures VideoUrlOf(Some(ExampleDoc), "md") == None
  {
    ExampleOffsets();
    assert Get(ExampleDoc, ["encodings", "source", "path"]) == Some(JStr("http://x/video.mp4")) by {
      GetStep(ExampleDoc, "encodings", ["source", "path"]);
      GetStep(ExampleEncodings, "source", ["path"]);
      GetOne(ExampleSource, "path");
    }
    assert Get(ExampleDoc, ["encodings", "md", "path"]) == None by {
      GetStep(ExampleDoc, "encodings", ["md", "path"]);
      assert Names(ExampleEncodings.fields) == ["source"];
    }
  }

  /** The worked example lists the one quality it has. */
  lemma ExampleQualities()
    ensures Qualities(ExampleDoc) == Some([JStr("source")])
  {
    ExampleOffsets();
    GetOne(ExampleDoc, "encodings");
    assert IntKey("source") == None;
    var ks := ArrayKeys(ExampleEncodings).value;
    assert KeyValue("source") == JStr("source");
    assert |ks| == 1 && ks[0] == JStr("source");
    assert ks == [JStr("source")];
  }

  /** The worked example's duration is read from its `source` encoding. */
  lemma ExampleDuration()
    ensures Get(ExampleDoc, Duration.SourcePath()) == Some(JNum(12))
  {
    ExampleOffsets();
    GetStep(ExampleDoc, "encodings", ["source", "duration_secs"]);
    GetStep(ExampleEncodings, "source", ["duration_secs"]);
    GetOne(ExampleSource, "duration_secs");
  }

  /** Of the copied fields, the worked example has only `id`. */
  lemma ExampleTopLevel(key: InfoKey)
    requires CopiedKey(key)
    ensures Get(ExampleDoc, key.SourcePath()) == if key == Id then Some(JStr("abc")) else None
  {
    ExampleOffsets();
    GetOne(ExampleDoc, key.Name());
    assert Names(ExampleDoc.fields) == ["id", "encodings"];
  }

  /** The record of the worked example: the identifier, the two string
      defaults, the duration, null for the other fields and the one quality. */
  const ExampleInfo: VideoInfo :=
    VideoInfo(JStr("abc"), JStr("not found"), JStr("Untitled"), JNull, JNull, JNum(12), JNull, [JStr("source")])

  /** Each field of the worked example's record, one at a time. */
  lemma ExampleField(key: InfoKey)
    ensures VideoInfoOf(Some(ExampleDoc)).Value?
    ensures VideoInfoOf(Some(ExampleDoc)).value.Field(key) == ExampleInfo.Field(key)
  {
    ExampleQualities();
    VideoInfoFields(ExampleDoc, key);
    if key == Duration {
      ExampleDuration();
    } else if key != AvailableQualities {
      ExampleTopLevel(key);
    }
  }

  /** A record is determined by what it stores under its eight keys. */
  lemma FieldsDetermineRecord(a: VideoInfo, b: VideoInfo)
    requires forall key: InfoKey :: a.Field(key) == b.Field(key)
    ensures a == b
  {
    assert a.Field(Id) == b.Field(Id) && a.Field(Url) == b.Field(Url);
    assert a.Field(Title) == b.Field(Title) && a.Field(Width) == b.Field(Width);
    assert a.Field(Height) == b.Field(Height) && a.Field(Duration) == b.Field(Duration);
    assert a.Field(CreatedAt) == b.Field(CreatedAt);
    assert a.Field(AvailableQualities) == b.Field(AvailableQualities);
  }

  /** On the worked example `getVideoInfo` builds exactly that record. */
  lemma ExampleVideoInfo()
    ensures VideoInfoOf(Some(ExampleDoc)) == Value(ExampleInfo)
  {
    var r := VideoInfoOf(Some(ExampleDoc));
    ExampleField(Id);
    forall key: InfoKey
      ensures r.value.Field(key) == ExampleInfo.Field(key)
    {
      ExampleField(key);
    }
    FieldsDetermineRecord(r.value, ExampleInfo);
  }
}
