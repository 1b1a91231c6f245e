/**
 * The realtime call's connection state machine (`RealtimeSessionManager`):
 * the state the UI observes, moved by `connect()`, the connection job's
 * failure, ICE connection changes, WebSocket events and the queued
 * `disconnect()`; the microphone and camera mute toggles; the choice of the
 * local camera capturer; and the signalling messages exchanged over the
 * WebSocket.
 */
module CallSession {
  import opened Common
  import opened Json

  /** `CallConnectionState`. */
  datatype ConnState = Idle | Connecting | Connected | Failed(reason: string)

  /** `PeerConnection.IceConnectionState`. */
  datatype IceState = New | Checking | IceConnected | Completed | Failed_ | Disconnected | Closed

  /** The enum constant's name, as string interpolation prints it. */
  function IceName(s: IceState): string {
    match s
    case New => "NEW"
    case Checking => "CHECKING"
    case IceConnected => "CONNECTED"
    case Completed => "COMPLETED"
    case Failed_ => "FAILED"
    case Disconnected => "DISCONNECTED"
    case Closed => "CLOSED"
  }

  predicate IceUp(s: IceState) { s == IceConnected || s == Completed }
  predicate IceDown(s: IceState) { s == Disconnected || s == Closed || s == Failed_ }

  /**
   * What moves the state: a `connect()` call, the connection job's
   * exception (with its message), an ICE change, a WebSocket failure or
   * close, a `disconnect()` call and the run of a queued disconnect.
   */
  datatype Event =
    | ConnectCalled
    | ConnectFailed(message: Option<string>)
    | IceChange(ice: IceState)
    | SocketFailure(message: Option<string>)
    | SocketClosed
    | DisconnectCalled
    | DisconnectRan

  /** The state after one event. */
  function Next(s: ConnState, e: Event): ConnState {
    match e
    case ConnectCalled => if s == Connecting || s == Connected then s else Connecting
    case ConnectFailed(m) => Failed(m.GetOr("Connection failed"))
    case IceChange(i) =>
      if IceUp(i) then Connected
      else if IceDown(i) then (if s != Idle then Failed("ICE state " + IceName(i)) else s)
      else s
    case SocketFailure(m) => Failed(m.GetOr("WebSocket failure"))
    case SocketClosed => if s == Connected then Idle else s
    case DisconnectCalled => s
    case DisconnectRan => Idle
  }

  /** How many `disconnect()` tasks an event posts to the main thread. */
  function Posts(e: Event): nat {
    match e
    case ConnectFailed(_) => 1
    case SocketFailure(_) => 1
    case DisconnectCalled => 1
    case _ => 0
  }

  /** `connect()` starts a connection only from `Idle` or `Failed`; repeating it changes nothing. */
  lemma ConnectGuard(s: ConnState)
    ensures (s == Connecting || s == Connected) ==> Next(s, ConnectCalled) == s
    ensures !(s == Connecting || s == Connected) ==> Next(s, ConnectCalled) == Connecting
    ensures Next(Next(s, ConnectCalled), ConnectCalled) == Next(s, ConnectCalled)
  {
  }

  /**
   * ICE: connected or completed means `Connected` from any state;
   * disconnected, closed or failed means `Failed("ICE state …")` except in
   * `Idle`; the other states leave the state alone.
   */
  lemma IceTransitions(s: ConnState, i: IceState)
    ensures IceUp(i) ==> Next(s, IceChange(i)) == Connected
    ensures IceDown(i) && s != Idle ==> Next(s, IceChange(i)) == Failed("ICE state " + IceName(i))
    ensures IceDown(i) && s == Idle ==> Next(s, IceChange(i)) == Idle
    ensures !IceUp(i) && !IceDown(i) ==> Next(s, IceChange(i)) == s
  {
  }

  /** The states after a sequence of events, and the disconnects it posted. */
  function Run(s: ConnState, es: seq<Event>): ConnState {
    if es == [] then s else Next(Run(s, es[..|es| - 1]), es[|es| - 1])
  }

  /** Only ICE reports the call connected: reaching `Connected` needs an ICE connected or completed event. */
  lemma {:induction false} ConnectedOnlyByIce(s: ConnState, es: seq<Event>)
    requires s != Connected
    requires Run(s, es) == Connected
    ensures exists k | 0 <= k < |es| :: es[k].IceChange? && IceUp(es[k].ice)
  {
    var init := es[..|es| - 1];
    var last := es[|es| - 1];
    if last.IceChange? && IceUp(last.ice) {
      assert es[|es| - 1].IceChange? && IceUp(es[|es| - 1].ice);
    } else {
      assert Run(s, init) == Connected;
      ConnectedOnlyByIce(s, init);
      var k :| 0 <= k < |init| && init[k].IceChange? && IceUp(init[k].ice);
      assert es[k] == init[k];
    }
  }

  /** After a queued disconnect has run, late ICE failures and a WebSocket close keep the call `Idle`. */
  lemma {:induction false} IdleAfterDisconnect(s: ConnState, es: seq<Event>)
    requires forall k | 0 <= k < |es| :: es[k] == SocketClosed || (es[k].IceChange? && !IceUp(es[k].ice))
    ensures Run(Next(s, DisconnectRan), es) == Idle
  {
    if es != [] {
      IdleAfterDisconnect(s, es[..|es| - 1]);
    }
  }

  // ---------------------------------------------------------------------
  // Mute toggles

  /**
   * A toggle on a mute flag and the track it governs (`None` when there is
   * no track): the flag flips and the track is enabled exactly when not muted.
   */
  function Toggle(muted: bool, trackEnabled: Option<bool>): (r: (bool, Option<bool>))
    ensures r.0 == !muted
    ensures r.1.Some? <==> trackEnabled.Some?
  {
    (!muted, if trackEnabled.Some? then Some(muted) else None)
  }

  /** A track's enabled state agrees with its mute flag. */
  predicate Agrees(muted: bool, trackEnabled: Option<bool>) {
    trackEnabled.Some? ==> trackEnabled.value == !muted
  }

  /** Every toggle leaves the track agreeing with the flag, whatever it was before. */
  lemma ToggleAgrees(muted: bool, trackEnabled: Option<bool>)
    ensures var (m, t) := Toggle(muted, trackEnabled); Agrees(m, t)
  {
  }

  /** Toggling twice restores flag and track, once they agree. */
  lemma ToggleTwice(muted: bool, trackEnabled: Option<bool>)
    requires Agrees(muted, trackEnabled)
    ensures var (m, t) := Toggle(muted, trackEnabled); Toggle(m, t) == (muted, trackEnabled)
  {
  }

  // ---------------------------------------------------------------------
  // Signalling

  /** `org.webrtc.IceCandidate`: `sdpMid` and `sdp` may be null. */
  datatype IceCandidate = IceCandidate(sdpMid: Option<string>, sdpMLineIndex: int, sdp: Option<string>)

  /** What a signalling message asks of the peer connection; anything else is only logged. */
  datatype Signal = RemoteAnswer(sdp: string) | AddCandidate(candidate: IceCandidate) | Logged

  /**
   * `handleSignalingMessage`, given the outcome of `JSONObject(message)`
   * (`None` when the text is not a JSON object).
   */
  function HandleSignalingMessage(parsed: Option<seq<Member>>): Signal {
    match parsed
    case None => Logged
    case Some(json) =>
      var kind := OptString(json, "type");
      if kind == "webrtc/answer" then
        var sdp := OptString(json, "sdp");
        if sdp != "" then RemoteAnswer(sdp) else Logged
      else if kind == "webrtc/ice-candidate" then
        match OptObject(json, "candidate")
        case None => Logged
        case Some(c) =>
          AddCandidate(IceCandidate(Some(OptString(c, "sdpMid")), OptInt(c, "sdpMLineIndex"), Some(OptString(c, "candidate"))))
      else Logged
  }

  /** A string field as `put` stores it: a null value leaves the key out. */
  function StringField(s: Option<string>): Option<Json> {
    match s
    case Some(x) => Some(JString(x))
    case None => None
  }

  /** The inner `candidate` object of `sendIceCandidate`'s message. */
  function CandidateObject(c: IceCandidate): seq<Member> {
    var inner := PutOrRemove([], "candidate", StringField(c.sdp));
    var inner := PutOrRemove(inner, "sdpMid", StringField(c.sdpMid));
    Put(inner, "sdpMLineIndex", JNumber(c.sdpMLineIndex))
  }

  /** A string field stored with `put` reads back with `optString`; a null one as the empty string. */
  lemma StringFieldRead(ms: seq<Member>, k: string, s: Option<string>)
    requires Opt(ms, k) == StringField(s)
    ensures OptString(ms, k) == s.GetOr("")
  {
    if s.None? {
      assert !Has(ms, k);
    }
  }

  /** The object `sendIceCandidate` sends, before `toString()`. */
  function IceCandidateMessage(c: IceCandidate): seq<Member> {
    Put(Put([], "type", JString("webrtc/ice-candidate")), "candidate", JObject(CandidateObject(c)))
  }

  /**
   * The round trip on objects: the candidate message object this side
   * builds, given to `handleSignalingMessage`, yields the same `sdpMid`, line
   * index and candidate text; a null `sdpMid` or `sdp` comes back as the
   * empty string. Serialising the object to text and parsing it again is not
   * part of this lemma.
   */
  lemma IceCandidateRoundTrip(c: IceCandidate)
    requires IsInt32(c.sdpMLineIndex)
    ensures HandleSignalingMessage(Some(IceCandidateMessage(c))) ==
              AddCandidate(IceCandidate(Some(c.sdpMid.GetOr("")), c.sdpMLineIndex, Some(c.sdp.GetOr(""))))
    ensures c.sdpMid.Some? && c.sdp.Some? ==> HandleSignalingMessage(Some(IceCandidateMessage(c))) == AddCandidate(c)
  {
    CandidateFields(c);
    MessageFields(c);
  }

  /** The inner object holds the candidate's three fields. */
  lemma CandidateFields(c: IceCandidate)
    requires IsInt32(c.sdpMLineIndex)
    ensures OptInt(CandidateObject(c), "sdpMLineIndex") == c.sdpMLineIndex
    ensures OptString(CandidateObject(c), "sdpMid") == c.sdpMid.GetOr("")
    ensures OptString(CandidateObject(c), "candidate") == c.sdp.GetOr("")
  {
    var first := PutOrRemove([], "candidate", StringField(c.sdp));
    var second := PutOrRemove(first, "sdpMid", StringField(c.sdpMid));
    var inner := CandidateObject(c);
    assert "candidate" != "sdpMid" && "candidate" != "sdpMLineIndex" && "sdpMid" != "sdpMLineIndex" by {
      assert "candidate"[0] != "sdpMid"[0] && "candidate"[0] != "sdpMLineIndex"[0];
      assert |"sdpMid"| != |"sdpMLineIndex"|;
    }
    PutRead(second, "sdpMLineIndex", JNumber(c.sdpMLineIndex), "sdpMLineIndex");
    PutRead(second, "sdpMLineIndex", JNumber(c.sdpMLineIndex), "sdpMid");
    PutOrRemoveRead(first, "sdpMid", StringField(c.sdpMid), "sdpMid");
    StringFieldRead(inner, "sdpMid", c.sdpMid);
    PutRead(second, "sdpMLineIndex", JNumber(c.sdpMLineIndex), "candidate");
    PutOrRemoveRead(first, "sdpMid", StringField(c.sdpMid), "candidate");
    PutOrRemoveRead([], "candidate", StringField(c.sdp), "candidate");
    StringFieldRead(inner, "candidate", c.sdp);
  }

  /** The outer object has the candidate type and the inner object. */
  lemma MessageFields(c: IceCandidate)
    ensures OptString(IceCandidateMessage(c), "type") == "webrtc/ice-candidate"
    ensures OptObject(IceCandidateMessage(c), "candidate") == Some(CandidateObject(c))
  {
    EnvelopeFields("webrtc/ice-candidate", CandidateObject(c));
  }

  /** An object built by putting a `type` string and then a `candidate` object reads back both. */
  lemma EnvelopeFields(kind: string, body: seq<Member>)
    ensures var msg := Put(Put([], "type", JString(kind)), "candidate", JObject(body));
            OptString(msg, "type") == kind && OptObject(msg, "candidate") == Some(body)
  {
    var head := Put([], "type", JString(kind));
    assert "type" != "candidate" by {
      assert |"type"| != |"candidate"|;
    }
    PutRead(head, "candidate", JObject(body), "candidate");
    PutRead(head, "candidate", JObject(body), "type");
    PutRead([], "type", JString(kind), "type");
  }

  /** An answer with a non-empty SDP is applied; an empty or missing one is only logged. */
  lemma AnswerNeedsSdp(json: seq<Member>)
    requires OptString(json, "type") == "webrtc/answer"
    ensures HandleSignalingMessage(Some(json)).RemoteAnswer? <==> OptString(json, "sdp") != ""
    ensures HandleSignalingMessage(Some(json)).RemoteAnswer? ==> HandleSignalingMessage(Some(json)).sdp == OptString(json, "sdp")
  {
  }

  /** A candidate message without a `candidate` object, an unknown type or unparsable text changes nothing. */
  lemma OnlyTwoKindsAct(parsed: Option<seq<Member>>)
    ensures parsed.None? ==> HandleSignalingMessage(parsed) == Logged
    ensures (parsed.Some? && OptString(parsed.value, "type") != "webrtc/answer" &&
             OptString(parsed.value, "type") != "webrtc/ice-candidate") ==> HandleSignalingMessage(parsed) == Logged
    ensures parsed.Some? && OptString(parsed.value, "type") == "webrtc/ice-candidate" ==>
              (HandleSignalingMessage(parsed).AddCandidate? <==> OptObject(parsed.value, "candidate").Some?)
  {
  }

  // ---------------------------------------------------------------------
  // Camera capturer

  /** A camera as `createCameraCapturer` sees it: its facing and whether `createCapturer` gives a capturer. */
  datatype CameraDevice = CameraDevice(frontFacing: bool, opens: bool)

  /** The first camera matching `frontOnly` that gives a capturer. */
  function FirstOpening(devices: seq<CameraDevice>, frontOnly: bool): (r: Option<nat>)
    ensures r.Some? ==> r.value < |devices| && devices[r.value].opens && (frontOnly ==> devices[r.value].frontFacing)
    ensures r.Some? ==> forall j | 0 <= j < r.value :: !(devices[j].opens && (frontOnly ==> devices[j].frontFacing))
    ensures r.None? ==> forall j | 0 <= j < |devices| :: !(devices[j].opens && (frontOnly ==> devices[j].frontFacing))
  {
    if devices == [] then None
    else if devices[0].opens && (frontOnly ==> devices[0].frontFacing) then Some(0)
    else match FirstOpening(devices[1..], frontOnly)
      case Some(i) => Some(i + 1)
      case None => None
  }

  /** The capturer choice: the first front camera that opens, else the first camera that opens. */
  function CapturerChoice(devices: seq<CameraDevice>): Option<nat> {
    match FirstOpening(devices, true)
    case Some(i) => Some(i)
    case None => FirstOpening(devices, false)
  }

  /** `createCameraCapturer(enumerator)`: two passes over the device names with early return. */
  method CreateCameraCapturer(devices: seq<CameraDevice>) returns (r: Option<nat>)
    ensures r == CapturerChoice(devices)
  {
    for i := 0 to |devices|
      invariant forall j | 0 <= j < i :: !(devices[j].frontFacing && devices[j].opens)
    {
      if devices[i].frontFacing {
        if devices[i].opens {
          return Some(i);
        }
      }
    }
    for i := 0 to |devices|
      invariant forall j | 0 <= j < i :: !devices[j].opens
    {
      if devices[i].opens {
        return Some(i);
      }
    }
    return None;
  }

  /** The chosen camera gives a capturer; it is a front camera whenever some front camera gives one. */
  lemma CapturerChoiceSpec(devices: seq<CameraDevice>)
    ensures CapturerChoice(devices).Some? <==> exists j | 0 <= j < |devices| :: devices[j].opens
    ensures CapturerChoice(devices).Some? ==> devices[CapturerChoice(devices).value].opens
    ensures (exists j | 0 <= j < |devices| :: devices[j].opens && devices[j].frontFacing) ==>
              devices[CapturerChoice(devices).value].frontFacing
  {
  }

  // ---------------------------------------------------------------------
  // The manager

  class SessionManager {
    var state: ConnState
    var isMicMuted: bool
    var isCameraMuted: bool
    /** `localAudioTrack`'s enabled flag, `None` while there is no track. */
    var audioEnabled: Option<bool>
    /** `localVideoTrackInternal`'s enabled flag, `None` while there is no track. */
    var videoEnabled: Option<bool>
    var hasRemoteVideo: bool
    var isAssistantSpeaking: bool
    /** `disconnect()` calls posted to the main thread and not yet run. */
    var pendingDisconnects: nat
    var hasSignalingJob: bool
    var socketOpen: bool
    var peerConnectionOpen: bool
    /** What was handed to the peer connection: remote answers and ICE candidates, in order. */
    var applied: seq<Signal>
    /** Text sent on the WebSocket. */
    var sent: seq<string>

    /** The tracks follow their mute flags. */
    predicate Valid()
      reads this
    {
      Agrees(isMicMuted, audioEnabled) && Agrees(isCameraMuted, videoEnabled)
    }

    constructor()
      ensures Valid() && state == Idle && !isMicMuted && !isCameraMuted
      ensures audioEnabled.None? && videoEnabled.None? && pendingDisconnects == 0
      ensures !socketOpen && !peerConnectionOpen && applied == [] && sent == []
    {
      state := Idle;
      isMicMuted := false;
      isCameraMuted := false;
      audioEnabled := None;
      videoEnabled := None;
      hasRemoteVideo := false;
      isAssistantSpeaking := false;
      pendingDisconnects := 0;
      hasSignalingJob := false;
      socketOpen := false;
      peerConnectionOpen := false;
      applied := [];
      sent := [];
    }

    /** `toggleMute()`. */
    method ToggleMute()
      requires Valid()
      modifies this`isMicMuted, this`audioEnabled
      ensures Valid()
      ensures (isMicMuted, audioEnabled) == Toggle(old(isMicMuted), old(audioEnabled))
    {
      var newValue := !isMicMuted;
      isMicMuted := newValue;
      if audioEnabled.Some? {
        audioEnabled := Some(!newValue);
      }
    }

    /** `toggleCamera()`. */
    method ToggleCamera()
      requires Valid()
      modifies this`isCameraMuted, this`videoEnabled
      ensures Valid()
      ensures (isCameraMuted, videoEnabled) == Toggle(old(isCameraMuted), old(videoEnabled))
    {
      var newValue := !isCameraMuted;
      isCameraMuted := newValue;
      if videoEnabled.Some? {
        videoEnabled := Some(!newValue);
      }
    }

    /** `connect()`: a no-op while connecting or connected; otherwise `Connecting` and the job launched. */
    method Connect()
      modifies this`state, this`hasSignalingJob
      ensures state == Next(old(state), ConnectCalled)
      ensures hasSignalingJob == (old(hasSignalingJob) || !(old(state) == Connecting || old(state) == Connected))
    {
      if state == Connecting || state == Connected {
        return;
      }
      state := Connecting;
      hasSignalingJob := true;
    }

    /**
     * The connection job when the session arrives: the missing local tracks
     * are created with their mute flags (video only when a capturer was
     * found), then the peer connection and the WebSocket are opened.
     */
    method ConnectJobSucceeded(hasCapturer: bool)
      requires Valid()
      modifies this`audioEnabled, this`videoEnabled, this`peerConnectionOpen, this`socketOpen
      ensures Valid() && peerConnectionOpen && socketOpen
      ensures audioEnabled.Some?
      ensures videoEnabled.Some? <==> old(videoEnabled).Some? || hasCapturer
    {
      if audioEnabled.None? {
        audioEnabled := Some(!isMicMuted);
      }
      if videoEnabled.None? && hasCapturer {
        videoEnabled := Some(!isCameraMuted);
      }
      peerConnectionOpen := true;
      socketOpen := true;
    }

    /** The connection job's `catch`: the failure is shown and a disconnect posted. */
    method ConnectJobFailed(message: Option<string>)
      modifies this`state, this`pendingDisconnects
      ensures state == Next(old(state), ConnectFailed(message)) && state == Failed(message.GetOr("Connection failed"))
      ensures pendingDisconnects == old(pendingDisconnects) + 1
    {
      state := Failed(message.GetOr("Connection failed"));
      Disconnect();
    }

    /** `disconnect()`: posts the teardown to the main thread. */
    method Disconnect()
      modifies this`pendingDisconnects
      ensures pendingDisconnects == old(pendingDisconnects) + 1
    {
      pendingDisconnects := pendingDisconnects + 1;
    }

    /** A posted disconnect runs: everything is closed and the state is `Idle`. */
    method RunDisconnect()
      requires pendingDisconnects > 0
      modifies this`pendingDisconnects, this`hasSignalingJob, this`socketOpen, this`peerConnectionOpen,
               this`hasRemoteVideo, this`isAssistantSpeaking, this`state
      ensures pendingDisconnects == old(pendingDisconnects) - 1
      ensures state == Next(old(state), DisconnectRan) && state == Idle
      ensures !hasSignalingJob && !socketOpen && !peerConnectionOpen && !hasRemoteVideo && !isAssistantSpeaking
    {
      pendingDisconnects := pendingDisconnects - 1;
      hasSignalingJob := false;
      socketOpen := false;
      peerConnectionOpen := false;
      hasRemoteVideo := false;
      isAssistantSpeaking := false;
      state := Idle;
    }

    /** `onIceConnectionChange(newState)`. */
    method OnIceConnectionChange(newState: IceState)
      modifies this`state
      ensures state == Next(old(state), IceChange(newState))
    {
      match newState {
        case IceConnected => state := Connected;
        case Completed => state := Connected;
        case Disconnected =>
          if state != Idle { state := Failed("ICE state " + IceName(newState)); }
        case Closed =>
          if state != Idle { state := Failed("ICE state " + IceName(newState)); }
        case Failed_ =>
          if state != Idle { state := Failed("ICE state " + IceName(newState)); }
        case _ =>
      }
    }

    /** The WebSocket's `onFailure`. */
    method OnSocketFailure(message: Option<string>)
      modifies this`state, this`pendingDisconnects
      ensures state == Next(old(state), SocketFailure(message))
      ensures pendingDisconnects == old(pendingDisconnects) + 1
    {
      state := Failed(message.GetOr("WebSocket failure"));
      Disconnect();
    }

    /** The WebSocket's `onClosed`. */
    method OnSocketClosed()
      modifies this`state
      ensures state == Next(old(state), SocketClosed)
    {
      if state == Connected {
        state := Idle;
      }
    }

    /** A signalling message arrives; what it asks is applied if the peer connection exists. */
    method OnSignalingMessage(parsed: Option<seq<Member>>)
      modifies this`applied
      ensures var sig := HandleSignalingMessage(parsed);
              applied == if peerConnectionOpen && !sig.Logged? then old(applied) + [sig] else old(applied)
    {
      var sig := HandleSignalingMessage(parsed);
      if peerConnectionOpen && !sig.Logged? {
        applied := applied + [sig];
      }
    }

    /** `sendIceCandidate(candidate)`: the message text, sent if the WebSocket is open. */
    method SendIceCandidate(c: IceCandidate)
      modifies this`sent
      ensures sent == if socketOpen then old(sent) + [Serialize(JObject(IceCandidateMessage(c)))] else old(sent)
    {
      if socketOpen {
        sent := sent + [Serialize(JObject(IceCandidateMessage(c)))];
      }
    }
  }
}
