/**
 * Where the call's outgoing video comes from (`RealtimePeer`): the
 * device's own camera facing front or back, or a wireless IP camera polled
 * for snapshots. Switching source launches a capture coroutine; the model
 * records each launch, and each direct restart of a running capturer, in
 * order, and runs the launched bodies as separate methods.
 */
module CaptureSource {
  import opened Common
  import opened Text
  import opened FrameUrls

  /** `CaptureMode`. */
  datatype CaptureMode = DeviceCamera(back: bool) | Wireless(ip: string)

  /** What a call hands to the capture thread: a launched coroutine, or `ensureVideoCaptureRunning()`. */
  datatype Action = StartDevice(back: bool) | StartWireless(ip: string) | EnsureCapture

  /** The lens direction `Camera2Enumerator` reports for a device. */
  datatype Facing = Front | Back | External

  datatype Camera = Camera(name: string, facing: Facing)

  /** The snapshot polling coroutine: the address it was started for and the URL it fetches. */
  datatype WirelessJob = WirelessJob(ip: string, frameUrl: string)

  /** The facing `back` asks for: back-facing when true, front-facing when false. */
  function Wanted(back: bool): Facing { if back then Back else Front }

  // ---------------------------------------------------------------------
  // Camera choice

  /** `deviceNames.firstOrNull { … }` for a facing: the index of the first such camera. */
  function FirstFacing(devices: seq<Camera>, facing: Facing): (r: Option<nat>)
    ensures r.Some? ==> r.value < |devices| && devices[r.value].facing == facing
    ensures r.Some? ==> forall j | 0 <= j < r.value :: devices[j].facing != facing
    ensures r.None? ==> forall j | 0 <= j < |devices| :: devices[j].facing != facing
  {
    if devices == [] then None
    else if devices[0].facing == facing then Some(0)
    else match FirstFacing(devices[1..], facing)
      case Some(i) => Some(i + 1)
      case None => None
  }

  /** The camera `startDeviceCameraCapture` opens: preferred facing, else the opposite, else the first. */
  function PickCamera(devices: seq<Camera>, preferBack: bool): (r: Option<nat>)
    ensures r.Some? ==> r.value < |devices|
  {
    match FirstFacing(devices, Wanted(preferBack))
    case Some(i) => Some(i)
    case None =>
      match FirstFacing(devices, Wanted(!preferBack))
      case Some(i) => Some(i)
      case None => if devices == [] then None else Some(0)
  }

  /**
   * The camera choice in full: the first camera of the preferred facing if
   * there is one; otherwise the first of the opposite facing; otherwise the
   * first camera; and none only when there are no cameras.
   */
  lemma PickCameraChoice(devices: seq<Camera>, preferBack: bool)
    ensures PickCamera(devices, preferBack).None? <==> devices == []
    ensures (exists j | 0 <= j < |devices| :: devices[j].facing == Wanted(preferBack)) ==>
              PickCamera(devices, preferBack) == FirstFacing(devices, Wanted(preferBack))
    ensures (forall j | 0 <= j < |devices| :: devices[j].facing != Wanted(preferBack)) &&
            (exists j | 0 <= j < |devices| :: devices[j].facing == Wanted(!preferBack)) ==>
              PickCamera(devices, preferBack) == FirstFacing(devices, Wanted(!preferBack))
    ensures (forall j | 0 <= j < |devices| :: devices[j].facing == External) && devices != [] ==>
              PickCamera(devices, preferBack) == Some(0)
  {
    if devices != [] && devices[0].facing == External {
      assert devices[0].facing != Wanted(preferBack) && devices[0].facing != Wanted(!preferBack);
    }
  }

  /** The facing the opened camera reports as `isBackFacing`: the requested one whenever such a camera exists. */
  lemma PickedFacing(devices: seq<Camera>, back: bool, j: nat)
    requires j < |devices| && devices[j].facing == Wanted(back)
    ensures PickCamera(devices, back).Some?
    ensures (devices[PickCamera(devices, back).value].facing == Back) == back
  {
  }

  // ---------------------------------------------------------------------
  // Switching decisions as values

  /** `ip?.trim()?.takeIf { it.isNotEmpty() }`. */
  function Normalize(ip: Option<string>): (r: Option<string>)
    ensures r.Some? ==> r.value != [] && ip.Some? && r.value == Trim(ip.value, Whitespace)
    ensures r.None? ==> ip.None? || Trim(ip.value, Whitespace) == []
  {
    match ip
    case None => None
    case Some(s) => if Trim(s, Whitespace) == [] then None else Some(Trim(s, Whitespace))
  }

  /** `useWirelessCamera(ip)` on the mode: the new mode and what it launches. */
  function UseWireless(mode: CaptureMode, preferredBack: bool, ip: Option<string>): (r: (CaptureMode, seq<Action>))
    ensures |r.1| <= 1
  {
    match Normalize(ip)
    case None =>
      (DeviceCamera(preferredBack), if mode.DeviceCamera? then [] else [StartDevice(preferredBack)])
    case Some(n) =>
      if mode == Wireless(n) then (mode, []) else (Wireless(n), [StartWireless(n)])
  }

  /**
   * What `useWirelessCamera` promises: no address turns the device camera
   * on with the preferred facing, launching capture only when leaving
   * wireless mode; an address switches to it and launches polling unless
   * it is the address already polled.
   */
  lemma UseWirelessOutcome(mode: CaptureMode, preferredBack: bool, ip: Option<string>)
    ensures var (m, acts) := UseWireless(mode, preferredBack, ip);
            && (Normalize(ip).None? ==>
                  m == DeviceCamera(preferredBack) && (acts == [] <==> mode.DeviceCamera?) &&
                  (acts != [] ==> acts == [StartDevice(preferredBack)]))
            && (Normalize(ip).Some? ==>
                  m == Wireless(Normalize(ip).value) && (acts == [] <==> mode == m) &&
                  (acts != [] ==> acts == [StartWireless(Normalize(ip).value)]))
  {
  }

  /** Asking twice for the same source launches nothing the second time and keeps the mode. */
  lemma UseWirelessIdempotent(mode: CaptureMode, preferredBack: bool, ip: Option<string>)
    ensures var (m, _) := UseWireless(mode, preferredBack, ip);
            UseWireless(m, preferredBack, ip) == (m, [])
  {
  }

  /** A surrounding-whitespace variant of the address being polled changes nothing. */
  lemma UseWirelessTrims(ip: string, preferredBack: bool)
    requires Trim(ip, Whitespace) != []
    ensures UseWireless(Wireless(Trim(ip, Whitespace)), preferredBack, Some(ip)) ==
              (Wireless(Trim(ip, Whitespace)), [])
  {
  }

  /** `setPreferredCameraFacing(back)`: restart the running capturer when it already faces that way, else launch. */
  function PreferFacing(current: Option<bool>, hasCapturer: bool, back: bool): (acts: seq<Action>)
    ensures |acts| == 1
  {
    if current == Some(back) && hasCapturer then [EnsureCapture] else [StartDevice(back)]
  }

  /**
   * The capturer is relaunched exactly when the open camera faces the other
   * way, when no camera is open, or when wireless capture cleared the facing.
   */
  lemma PreferFacingRelaunches(current: Option<bool>, hasCapturer: bool, back: bool)
    ensures PreferFacing(current, hasCapturer, back) == [StartDevice(back)] <==>
              !hasCapturer || current.None? || current.value != back
    ensures PreferFacing(current, hasCapturer, back) == [EnsureCapture] <==>
              hasCapturer && current == Some(back)
  {
  }

  // ---------------------------------------------------------------------
  // The peer's capture state

  class Peer {
    var captureMode: CaptureMode
    var preferredCameraFacingBack: bool
    /** `currentCameraFacingBack`: `None` while no device camera is open or while polling. */
    var currentCameraFacingBack: Option<bool>
    /** `cameraCapturer != null`. */
    var hasCapturer: bool
    /** `wirelessJob`, with the address and frame URL it polls. */
    var wirelessJob: Option<WirelessJob>
    /** Coroutines launched on `captureScope` and direct capture restarts, oldest first. */
    var actions: seq<Action>

    constructor()
      ensures captureMode == DeviceCamera(true) && preferredCameraFacingBack
      ensures currentCameraFacingBack.None? && !hasCapturer && wirelessJob.None? && actions == []
    {
      captureMode := DeviceCamera(true);
      preferredCameraFacingBack := true;
      currentCameraFacingBack := None;
      hasCapturer := false;
      wirelessJob := None;
      actions := [];
    }

    /** The condition of the polling loop: it keeps fetching while the mode still names its address. */
    predicate Polling()
      reads this
    {
      wirelessJob.Some? && captureMode == Wireless(wirelessJob.value.ip)
    }

    /** `useWirelessCamera(ip)`. */
    method UseWirelessCamera(ip: Option<string>)
      modifies this`captureMode, this`actions
      ensures captureMode == UseWireless(old(captureMode), preferredCameraFacingBack, ip).0
      ensures actions == old(actions) + UseWireless(old(captureMode), preferredCameraFacingBack, ip).1
      ensures Normalize(ip).None? ==> !Polling()
    {
      var normalized := Normalize(ip);
      var current := captureMode;
      if normalized.None? {
        captureMode := DeviceCamera(preferredCameraFacingBack);
        if current.DeviceCamera? {
          assert actions == old(actions) + [];
          return;
        }
        actions := actions + [StartDevice(preferredCameraFacingBack)];
      } else {
        if current.Wireless? && current.ip == normalized.value {
          assert actions == old(actions) + [];
          return;
        }
        captureMode := Wireless(normalized.value);
        actions := actions + [StartWireless(normalized.value)];
      }
    }

    /** `setPreferredCameraFacing(back)`. */
    method SetPreferredCameraFacing(back: bool)
      modifies this`preferredCameraFacingBack, this`captureMode, this`actions
      ensures preferredCameraFacingBack == back && captureMode == DeviceCamera(back)
      ensures actions == old(actions) + PreferFacing(currentCameraFacingBack, hasCapturer, back)
      ensures !Polling()
    {
      preferredCameraFacingBack := back;
      captureMode := DeviceCamera(back);
      if currentCameraFacingBack == Some(back) && hasCapturer {
        actions := actions + [EnsureCapture];
        return;
      }
      actions := actions + [StartDevice(back)];
    }

    /**
     * The body of a launched `startDeviceCameraCapture(back)`. `ready` says
     * whether the video source and the EGL context exist; `devices` are the
     * enumerator's cameras. Polling stops; with a camera the capturer is
     * replaced and the facing recorded.
     */
    method StartDeviceCameraCapture(back: bool, ready: bool, devices: seq<Camera>)
      modifies this`wirelessJob, this`hasCapturer, this`currentCameraFacingBack
      ensures !ready ==> wirelessJob == old(wirelessJob) && hasCapturer == old(hasCapturer) &&
                         currentCameraFacingBack == old(currentCameraFacingBack)
      ensures ready ==> wirelessJob.None?
      ensures ready && devices == [] ==>
                hasCapturer == old(hasCapturer) && currentCameraFacingBack == old(currentCameraFacingBack)
      ensures ready && devices != [] ==>
                hasCapturer && PickCamera(devices, back).Some? &&
                currentCameraFacingBack == Some(devices[PickCamera(devices, back).value].facing == Back)
    {
      if !ready {
        return;
      }
      wirelessJob := None;
      var target := PickCamera(devices, back);
      if target.None? {
        return;
      }
      hasCapturer := true;
      currentCameraFacingBack := Some(devices[target.value].facing == Back);
    }

    /** The body of a launched `startWirelessCapture(ip)`: a new polling job for the frame URL. */
    method StartWirelessCapture(ip: string, ready: bool)
      modifies this`wirelessJob, this`currentCameraFacingBack
      ensures !ready ==> wirelessJob == old(wirelessJob) && currentCameraFacingBack == old(currentCameraFacingBack)
      ensures ready ==> wirelessJob == Some(WirelessJob(ip, FrameUrl(ip))) && currentCameraFacingBack.None?
    {
      if !ready {
        return;
      }
      wirelessJob := None;
      currentCameraFacingBack := None;
      wirelessJob := Some(WirelessJob(ip, FrameUrl(ip)));
    }
  }

  /**
   * Once a launched capture has opened a camera for facing `back`, and a
   * camera facing that way exists, asking for the same facing again only
   * restarts capture instead of launching a new capturer.
   */
  lemma SameFacingRestarts(devices: seq<Camera>, back: bool, j: nat)
    requires j < |devices| && devices[j].facing == Wanted(back)
    ensures PickCamera(devices, back).Some?
    ensures PreferFacing(Some(devices[PickCamera(devices, back).value].facing == Back), true, back) == [EnsureCapture]
  {
    PickedFacing(devices, back, j);
  }
}
