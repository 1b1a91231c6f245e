/**
 * The decisions of `WakeWordService`: which snapshot to fetch when the wake
 * word fires, and how the server's reply text is reduced to the sentence
 * that is logged. Downloading, uploading and the notification are left to
 * the platform.
 */
module WakeWordService {
  import opened Common
  import opened Json
  import opened Text

  const PHOTO_PREFIX: string := "http://"
  const PHOTO_SUFFIX: string := ":8080/photo.jpg"

  /**
   * `onWakeTriggered`: the stored `wireless_ip` (missing reads as "") gives
   * the IP Webcam photo URL to download, or nothing to download when empty.
   */
  function PhotoUrl(storedIp: Option<string>): (r: Option<string>)
    ensures r.None? <==> storedIp.GetOr("") == ""
  {
    var ip := storedIp.GetOr("");
    if ip != "" then Some(PHOTO_PREFIX + ip + PHOTO_SUFFIX) else None
  }

  /** The address can be read back from the URL: the URL names exactly the stored camera. */
  lemma PhotoUrlNamesCamera(storedIp: Option<string>)
    requires PhotoUrl(storedIp).Some?
    ensures var u := PhotoUrl(storedIp).value;
            && StartsWith(u, PHOTO_PREFIX) && EndsWith(u, PHOTO_SUFFIX)
            && |u| == |PHOTO_PREFIX| + |storedIp.value| + |PHOTO_SUFFIX|
            && u[|PHOTO_PREFIX|..|u| - |PHOTO_SUFFIX|] == storedIp.value
  {
    var u := PhotoUrl(storedIp).value;
    assert u == PHOTO_PREFIX + storedIp.value + PHOTO_SUFFIX;
    assert u[..|PHOTO_PREFIX|] == PHOTO_PREFIX;
    assert u[|u| - |PHOTO_SUFFIX|..] == PHOTO_SUFFIX;
  }

  /** Different cameras are fetched from different URLs. */
  lemma PhotoUrlInjective(a: Option<string>, b: Option<string>)
    requires PhotoUrl(a).Some? && PhotoUrl(a) == PhotoUrl(b)
    ensures a.value == b.value
  {
    PhotoUrlNamesCamera(a);
    PhotoUrlNamesCamera(b);
  }

  /** The characters `trim('"', '\'')` strips. */
  const Quotes: set<char> := {'"', '\''}

  /**
   * `parseReplyPayloadForService`, given the payload (`None` for no body)
   * and the outcome of `JSONObject(payload)` (`None` when it throws).
   */
  function ParseReplyPayload(payload: Option<string>, parsed: Option<seq<Member>>): Option<string> {
    if payload.None? || IsBlank(payload.value) then None
    else match parsed
      case None => Some(Trim(payload.value, Quotes))
      case Some(obj) =>
        if Has(obj, "reply") then OptStringOr(obj, "reply", None)
        else if Has(obj, "message") then OptStringOr(obj, "message", None)
        else if Has(obj, "text") then OptStringOr(obj, "text", None)
        else payload
  }

  /** Exactly no body, or a blank one, gives no reply. */
  lemma BlankReply(payload: Option<string>, parsed: Option<seq<Member>>)
    ensures ParseReplyPayload(payload, parsed).None? <==> payload.None? || IsBlank(payload.value)
  {
  }

  /**
   * For a JSON object, the first of `reply`, `message` and `text` that is
   * present decides, and its value's text is the reply; with none of them
   * the payload is returned unchanged.
   */
  lemma FirstKeyDecides(payload: string, obj: seq<Member>)
    requires !IsBlank(payload)
    ensures Has(obj, "reply") ==> ParseReplyPayload(Some(payload), Some(obj)) == Some(ToText(Opt(obj, "reply").value))
    ensures !Has(obj, "reply") && Has(obj, "message") ==>
              ParseReplyPayload(Some(payload), Some(obj)) == Some(ToText(Opt(obj, "message").value))
    ensures !Has(obj, "reply") && !Has(obj, "message") && Has(obj, "text") ==>
              ParseReplyPayload(Some(payload), Some(obj)) == Some(ToText(Opt(obj, "text").value))
    ensures !Has(obj, "reply") && !Has(obj, "message") && !Has(obj, "text") ==>
              ParseReplyPayload(Some(payload), Some(obj)) == Some(payload)
  {
  }

  /**
   * A `reply` that is JSON null still decides: the reply is the text
   * "null", whatever `message` holds.
   */
  lemma NullReplyWins(payload: string, message: string)
    requires !IsBlank(payload)
    ensures ParseReplyPayload(Some(payload), Some([Member("reply", JNull), Member("message", JString(message))])) == Some("null")
  {
    var obj := [Member("reply", JNull), Member("message", JString(message))];
    assert Keys(obj) == ["reply", "message"];
    assert Opt(obj, "reply") == Some(JNull);
  }

  /**
   * Text that is not a JSON object is returned without its surrounding
   * quotes: a piece of the payload that neither starts nor ends with a
   * quote, all of whose stripped characters are quotes.
   */
  lemma UnparsedReply(payload: string)
    requires !IsBlank(payload)
    ensures var r := ParseReplyPayload(Some(payload), None).value;
            && (r == [] || (r[0] !in Quotes && r[|r| - 1] !in Quotes))
            && exists i, j | 0 <= i <= j <= |payload| ::
                 r == payload[i..j] && (forall k | 0 <= k < i :: payload[k] in Quotes)
                 && (forall k | j <= k < |payload| :: payload[k] in Quotes)
  {
    var t := TrimStart(payload, Quotes);
    var r := TrimEnd(t, Quotes);
    var i := |payload| - |t|;
    var j := i + |r|;
    assert r == payload[i..j];
    forall k | j <= k < |payload|
      ensures payload[k] in Quotes
    {
      assert payload[k] == t[k - i];
    }
  }

  /** Stripping quotes twice strips nothing more. */
  lemma UnparsedReplyStable(payload: string)
    ensures Trim(Trim(payload, Quotes), Quotes) == Trim(payload, Quotes)
  {
    var r := Trim(payload, Quotes);
    if r != [] {
      assert TrimStart(r, Quotes) == r;
      assert TrimEnd(r, Quotes) == r;
    }
  }
}
