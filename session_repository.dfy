/**
 * `RealtimeSessionRepository.fetchSession`: the JSON payload posted to the
 * session endpoint, and the decoding of its answer into a client secret,
 * a model, a voice and the ICE servers. The HTTP exchange itself is an
 * input: the status code and the outcome of parsing the body as a JSON
 * object.
 */
module SessionRepository {
  import opened Common
  import opened Json
  import opened Text

  /** `RealtimeSessionRequest`; the defaults are build-configuration constants. */
  datatype SessionRequest = SessionRequest(model: string, voice: string, enableVideo: bool)

  /** `RealtimeIceServer`. */
  datatype IceServer = IceServer(urls: seq<string>, username: Option<string>, credential: Option<string>)

  /** `RealtimeSessionInfo`. */
  datatype SessionInfo = SessionInfo(clientSecret: string, model: string, voice: string, iceServers: seq<IceServer>)

  /** What the endpoint answered: the status code, and the body parsed as a JSON object (`None` when it is not one). */
  datatype Reply = Reply(code: int, body: Option<seq<Member>>)

  // ---------------------------------------------------------------------
  // The request

  /** The `modalities` array. */
  function Modalities(enableVideo: bool): seq<Json> {
    [JString("text"), JString("audio")] + (if enableVideo then [JString("video")] else [])
  }

  /** The posted object: `model`, `voice` and `modalities`, in that order. */
  function Payload(request: SessionRequest): seq<Member> {
    var p := Put([], "model", JString(request.model));
    var p := Put(p, "voice", JString(request.voice));
    Put(p, "modalities", JArray(Modalities(request.enableVideo)))
  }

  /**
   * The payload carries the request's model and voice, and the modalities
   * "text" and "audio", followed by "video" exactly when video is enabled.
   */
  lemma PayloadContents(request: SessionRequest)
    ensures Keys(Payload(request)) == ["model", "voice", "modalities"]
    ensures OptString(Payload(request), "model") == request.model
    ensures OptString(Payload(request), "voice") == request.voice
    ensures var m := OptArray(Payload(request), "modalities");
            && m.Some? && m.value[..2] == [JString("text"), JString("audio")]
            && (|m.value| == 3 <==> request.enableVideo)
            && (|m.value| == 2 <==> !request.enableVideo)
            && (request.enableVideo ==> m.value[2] == JString("video"))
  {
    PayloadMembers(request);
    var model := Member("model", JString(request.model));
    var voice := Member("voice", JString(request.voice));
    var modalities := Member("modalities", JArray(Modalities(request.enableVideo)));
    var ms := [model, voice, modalities];
    assert Payload(request) == ms;
    assert "model"[0] != "voice"[0] && |"modalities"| != |"model"| && |"modalities"| != |"voice"|;
    OptOfThree(model, voice, modalities);
    assert Keys(ms) == ["model", "voice", "modalities"];
    assert OptString(ms, "model") == request.model;
    assert OptString(ms, "voice") == request.voice;
    assert OptArray(ms, "modalities") == Some(Modalities(request.enableVideo));
  }

  /** Each `put` adds a new key, so the members are the three puts in order. */
  lemma PayloadMembers(request: SessionRequest)
    ensures Payload(request) == [Member("model", JString(request.model)), Member("voice", JString(request.voice)),
                                 Member("modalities", JArray(Modalities(request.enableVideo)))]
  {
    var model := Member("model", JString(request.model));
    var voice := Member("voice", JString(request.voice));
    var modalities := Member("modalities", JArray(Modalities(request.enableVideo)));
    assert "model"[0] != "voice"[0] && |"modalities"| != |"model"| && |"modalities"| != |"voice"|;
    PutThree(model, voice, modalities);
  }

  // ---------------------------------------------------------------------
  // Decoding the answer, as specification functions

  /** OkHttp's `isSuccessful`: a 2xx status. */
  predicate Successful(code: int) { 200 <= code <= 299 }

  /** The non-empty entries of a `urls` array, read with `optString(j)`, in order. */
  function NonEmptyStrings(items: seq<Json>): (r: seq<string>)
    ensures forall k | 0 <= k < |r| :: r[k] != ""
    ensures |r| <= |items|
  {
    if items == [] then []
    else
      var text := ToText(items[|items| - 1]);
      NonEmptyStrings(items[..|items| - 1]) + (if text != "" then [text] else [])
  }

  /** `urls` of a server entry: an array gives its non-empty entries, a string itself, anything else nothing. */
  function UrlsOf(value: Option<Json>): seq<string> {
    match value
    case Some(JArray(items)) => NonEmptyStrings(items)
    case Some(JString(s)) => [s]
    case _ => []
  }

  /** One `ice_servers` entry; `username` and `credential` are null when absent. */
  function ServerOf(item: seq<Member>): IceServer {
    IceServer(UrlsOf(Opt(item, "urls")), OptStringOr(item, "username", None), OptStringOr(item, "credential", None))
  }

  /** The servers of an `ice_servers` array: one per object entry, in order; other entries are skipped. */
  function ServersOf(items: seq<Json>): (r: seq<IceServer>)
    ensures |r| <= |items|
  {
    if items == [] then []
    else
      var last := items[|items| - 1];
      ServersOf(items[..|items| - 1]) + (if last.JObject? then [ServerOf(last.members)] else [])
  }

  /** The ICE servers of an answer: none when `ice_servers` is absent or not an array. */
  function IceServersOf(json: seq<Member>): seq<IceServer> {
    match OptArray(json, "ice_servers")
    case Some(items) => ServersOf(items)
    case None => []
  }

  /** The outcome of `fetchSession` for an answer, with the message of the exception it throws. */
  function Session(request: SessionRequest, reply: Reply): Result<SessionInfo, string> {
    if !Successful(reply.code) then Err("Unable to create realtime session: " + IntToString(reply.code))
    else match reply.body
      case None => Err("Realtime session response is not JSON")
      case Some(json) =>
        var secret := OptString(json, "client_secret");
        if secret == "" then Err("Realtime session missing client_secret")
        else Ok(SessionInfo(secret, OptStringOr(json, "model", Some(request.model)).value,
                            OptStringOr(json, "voice", Some(request.voice)).value, IceServersOf(json)))
  }

  // ---------------------------------------------------------------------
  // Properties of the decoding

  /**
   * The session fails exactly on a non-2xx status, a body that is not a
   * JSON object, or a missing or empty `client_secret`; each has its own
   * message.
   */
  lemma SessionErrors(request: SessionRequest, reply: Reply)
    ensures Session(request, reply).Err? <==>
              !Successful(reply.code) || reply.body.None? || OptString(reply.body.value, "client_secret") == ""
    ensures !Successful(reply.code) ==>
              Session(request, reply) == Err("Unable to create realtime session: " + IntToString(reply.code))
    ensures Successful(reply.code) && reply.body.None? ==> Session(request, reply) == Err("Realtime session response is not JSON")
    ensures Successful(reply.code) && reply.body.Some? && !Has(reply.body.value, "client_secret") ==>
              Session(request, reply) == Err("Realtime session missing client_secret")
  {
  }

  /** `model` and `voice` fall back to the request's values when the answer lacks them. */
  lemma SessionDefaults(request: SessionRequest, reply: Reply)
    requires Session(request, reply).Ok?
    ensures var s := Session(request, reply).value; var json := reply.body.value;
            && s.clientSecret != "" && s.clientSecret == OptString(json, "client_secret")
            && (!Has(json, "model") ==> s.model == request.model)
            && (Has(json, "model") ==> s.model == ToText(Opt(json, "model").value))
            && (!Has(json, "voice") ==> s.voice == request.voice)
            && (Has(json, "voice") ==> s.voice == ToText(Opt(json, "voice").value))
  {
  }

  /** Without an `ice_servers` array there are no servers. */
  lemma NoIceServers(json: seq<Member>)
    requires OptArray(json, "ice_servers").None?
    ensures IceServersOf(json) == []
  {
  }

  /** The server list of a concatenation is the concatenation of the lists: entries keep their order. */
  lemma {:induction false} ServersOfAppend(a: seq<Json>, b: seq<Json>)
    ensures ServersOf(a + b) == ServersOf(a) + ServersOf(b)
    decreases |b|
  {
    if b == [] {
      assert a + b == a;
    } else {
      var b' := b[..|b| - 1];
      assert (a + b)[..|a + b| - 1] == a + b';
      ServersOfAppend(a, b');
    }
  }

  /** An object entry gives its server; any other entry is skipped. */
  lemma ServersOfOne(item: Json)
    ensures item.JObject? ==> ServersOf([item]) == [ServerOf(item.members)]
    ensures !item.JObject? ==> ServersOf([item]) == []
  {
    assert [item][..0] == [];
  }

  /** The same for the `urls` array: the non-empty entries, in order. */
  lemma {:induction false} NonEmptyStringsAppend(a: seq<Json>, b: seq<Json>)
    ensures NonEmptyStrings(a + b) == NonEmptyStrings(a) + NonEmptyStrings(b)
    decreases |b|
  {
    if b == [] {
      assert a + b == a;
    } else {
      var b' := b[..|b| - 1];
      assert (a + b)[..|a + b| - 1] == a + b';
      NonEmptyStringsAppend(a, b');
    }
  }

  /** A `urls` string is kept whole, even when empty; an array entry is kept only when non-empty. */
  lemma UrlsCases(s: string, item: Json)
    ensures UrlsOf(Some(JString(s))) == [s]
    ensures NonEmptyStrings([item]) == if ToText(item) != "" then [ToText(item)] else []
    ensures UrlsOf(None) == [] && UrlsOf(Some(JNull)) == [] && UrlsOf(Some(JNumber(0))) == []
  {
    assert [item][..0] == [];
  }

  // ---------------------------------------------------------------------
  // The decoding as written: loops that append

  /** `fetchSession` once the exchange is done. */
  method FetchSession(request: SessionRequest, reply: Reply) returns (r: Result<SessionInfo, string>)
    ensures r == Session(request, reply)
  {
    if !Successful(reply.code) {
      return Err("Unable to create realtime session: " + IntToString(reply.code));
    }
    if reply.body.None? {
      return Err("Realtime session response is not JSON");
    }
    var json := reply.body.value;
    var clientSecret := OptString(json, "client_secret");
    if clientSecret == "" {
      return Err("Realtime session missing client_secret");
    }
    var model := OptStringOr(json, "model", Some(request.model)).value;
    var voice := OptStringOr(json, "voice", Some(request.voice)).value;
    var iceServers: seq<IceServer> := [];
    var iceArray := OptArray(json, "ice_servers");
    if iceArray.Some? {
      var items := iceArray.value;
      for i := 0 to |items|
        invariant iceServers == ServersOf(items[..i])
      {
        assert items[..i + 1][..i] == items[..i];
        var item := ItemObject(items, i);
        if item.None? {
          continue;
        }
        var urls := ReadUrls(Opt(item.value, "urls"));
        iceServers := iceServers + [IceServer(urls, OptStringOr(item.value, "username", None),
                                              OptStringOr(item.value, "credential", None))];
      }
      assert items[..|items|] == items;
    }
    return Ok(SessionInfo(clientSecret, model, voice, iceServers));
  }

  /** The `when` over `urls`, with its `buildList` loop for an array. */
  method ReadUrls(value: Option<Json>) returns (urls: seq<string>)
    ensures urls == UrlsOf(value)
  {
    match value {
      case Some(JArray(items)) =>
        urls := [];
        for j := 0 to |items|
          invariant urls == NonEmptyStrings(items[..j])
        {
          assert items[..j + 1][..j] == items[..j];
          var url := ItemString(items, j);
          if url != "" {
            urls := urls + [url];
          }
        }
        assert items[..|items|] == items;
      case Some(JString(s)) =>
        urls := [s];
      case _ =>
        urls := [];
    }
  }
}
