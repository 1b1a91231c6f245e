/**
 * The camera-connect wizard (`ConnectCameraWizard`): its steps and the
 * state its buttons and its scan change, the derivation of the local
 * subnet from the device's IPv4 addresses, and the scan of that subnet for
 * IP Webcam servers. Each host's HTTP probe is an input.
 */
module CameraWizard {
  import opened Common
  import opened Text

  // ---------------------------------------------------------------------
  // The local subnet

  /** An address of a network interface, as `localSubnetBase` inspects it. */
  datatype InetAddress = InetAddress(isIpv4: bool, isLoopback: bool, hostAddress: string)

  /** A non-loopback IPv4 address whose dotted form has four parts. */
  predicate Usable(a: InetAddress) {
    a.isIpv4 && !a.isLoopback && |Split(a.hostAddress, '.')| == 4
  }

  /** `"${parts[0]}.${parts[1]}.${parts[2]}"`. */
  function BaseOf(a: InetAddress): string
    requires Usable(a)
  {
    var parts := Split(a.hostAddress, '.');
    parts[0] + "." + parts[1] + "." + parts[2]
  }

  /** No address of the first `n` interfaces is usable; a missing address list has none. */
  ghost predicate NoneUsable(ifaces: seq<Option<seq<InetAddress>>>, n: int) {
    forall i, j | 0 <= i < n && i < |ifaces| && ifaces[i].Some? && 0 <= j < |ifaces[i].value| :: !Usable(ifaces[i].value[j])
  }

  /** The first usable address of a list. */
  function FirstUsableIn(addrs: seq<InetAddress>): (r: Option<InetAddress>)
    ensures r.Some? ==> Usable(r.value)
  {
    if addrs == [] then None
    else if Usable(addrs[0]) then Some(addrs[0])
    else FirstUsableIn(addrs[1..])
  }

  /** The first usable address, interface by interface. */
  function FirstUsable(ifaces: seq<Option<seq<InetAddress>>>): (r: Option<InetAddress>)
    ensures r.Some? ==> Usable(r.value)
  {
    if ifaces == [] then None
    else
      var here := if ifaces[0].Some? then FirstUsableIn(ifaces[0].value) else None;
      if here.Some? then here else FirstUsable(ifaces[1..])
  }

  /** The subnet base the scan uses; `None` when the interfaces cannot be listed or none is usable. */
  function SubnetBase(ifaces: Option<seq<Option<seq<InetAddress>>>>): Option<string> {
    if ifaces.None? then None
    else match FirstUsable(ifaces.value)
      case Some(a) => Some(BaseOf(a))
      case None => None
  }

  /** `localSubnetBase()`: the nested loops with early return. */
  method LocalSubnetBase(ifaces: Option<seq<Option<seq<InetAddress>>>>) returns (r: Option<string>)
    ensures r == SubnetBase(ifaces)
  {
    if ifaces.None? {
      return None;
    }
    var list := ifaces.value;
    for i := 0 to |list|
      invariant NoneUsable(list, i)
    {
      if list[i].None? {
        continue;
      }
      var addrs := list[i].value;
      for j := 0 to |addrs|
        invariant forall j' | 0 <= j' < j :: !Usable(addrs[j'])
      {
        var addr := addrs[j];
        if addr.isIpv4 && !addr.isLoopback {
          var parts := Split(addr.hostAddress, '.');
          if |parts| == 4 {
            FirstUsableAt(list, i, j);
            return Some(parts[0] + "." + parts[1] + "." + parts[2]);
          }
        }
      }
    }
    NoneUsableGivesNone(list);
    return None;
  }

  /** The first usable address of a list is its first address that is usable. */
  lemma {:induction false} FirstUsableInAt(addrs: seq<InetAddress>, j: nat)
    requires j < |addrs| && Usable(addrs[j])
    requires forall j' | 0 <= j' < j :: !Usable(addrs[j'])
    ensures FirstUsableIn(addrs) == Some(addrs[j])
  {
    if j > 0 {
      FirstUsableInAt(addrs[1..], j - 1);
    }
  }

  /** A list without usable addresses has no first usable address. */
  lemma {:induction false} NoUsableIn(addrs: seq<InetAddress>)
    requires forall j | 0 <= j < |addrs| :: !Usable(addrs[j])
    ensures FirstUsableIn(addrs) == None
  {
    if addrs != [] {
      NoUsableIn(addrs[1..]);
    }
  }

  /** Address `j` of interface `i`, with nothing usable before it, is the first usable address. */
  lemma {:induction false} FirstUsableAt(ifaces: seq<Option<seq<InetAddress>>>, i: nat, j: nat)
    requires i < |ifaces| && ifaces[i].Some? && j < |ifaces[i].value| && Usable(ifaces[i].value[j])
    requires NoneUsable(ifaces, i)
    requires forall j' | 0 <= j' < j :: !Usable(ifaces[i].value[j'])
    ensures FirstUsable(ifaces) == Some(ifaces[i].value[j])
  {
    if i == 0 {
      FirstUsableInAt(ifaces[0].value, j);
    } else {
      if ifaces[0].Some? {
        NoUsableIn(ifaces[0].value);
      }
      assert NoneUsable(ifaces[1..], i - 1) by {
        forall i', j' | 0 <= i' < i - 1 && ifaces[1..][i'].Some? && 0 <= j' < |ifaces[1..][i'].value|
          ensures !Usable(ifaces[1..][i'].value[j'])
        {
          assert ifaces[1..][i'] == ifaces[i' + 1];
        }
      }
      FirstUsableAt(ifaces[1..], i - 1, j);
    }
  }

  /** Interfaces without usable addresses give no subnet. */
  lemma {:induction false} NoneUsableGivesNone(ifaces: seq<Option<seq<InetAddress>>>)
    requires NoneUsable(ifaces, |ifaces|)
    ensures FirstUsable(ifaces) == None
  {
    if ifaces != [] {
      if ifaces[0].Some? {
        NoUsableIn(ifaces[0].value);
      }
      assert NoneUsable(ifaces[1..], |ifaces| - 1) by {
        forall i', j' | 0 <= i' < |ifaces| - 1 && ifaces[1..][i'].Some? && 0 <= j' < |ifaces[1..][i'].value|
          ensures !Usable(ifaces[1..][i'].value[j'])
        {
          assert ifaces[1..][i'] == ifaces[i' + 1];
        }
      }
      NoneUsableGivesNone(ifaces[1..]);
    }
  }

  /**
   * The base is the address without its last part: the address is the
   * base, a dot and that part, and the base splits into the first three
   * parts.
   */
  lemma BaseIsPrefix(a: InetAddress)
    requires Usable(a)
    ensures var parts := Split(a.hostAddress, '.');
            && a.hostAddress == BaseOf(a) + "." + parts[3]
            && Split(BaseOf(a), '.') == parts[..3]
  {
    var parts := Split(a.hostAddress, '.');
    JoinSplit(a.hostAddress, '.');
    assert Join(parts[2..], '.') == parts[2] + "." + parts[3] by {
      assert parts[2..][1..] == [parts[3]];
    }
    assert Join(parts[1..], '.') == parts[1] + "." + Join(parts[2..], '.') by {
      assert parts[1..][1..] == parts[2..];
    }
    assert parts[0] + "." + parts[1] + "." + parts[2] + "." + parts[3]
        == parts[0] + "." + (parts[1] + "." + (parts[2] + "." + parts[3]));
    var first := parts[..3];
    assert Join(first, '.') == BaseOf(a) by {
      assert first[1..][1..] == [parts[2]];
      assert Join(first[1..], '.') == parts[1] + "." + parts[2];
      assert parts[0] + "." + (parts[1] + "." + parts[2]) == parts[0] + "." + parts[1] + "." + parts[2];
    }
    assert forall k | 0 <= k < 3 :: '.' !in first[k];
    SplitJoin(first, '.');
  }

  // ---------------------------------------------------------------------
  // The scan

  const FIRST_HOST: nat := 1
  const LAST_HOST: nat := 254

  /** `"$base.$host"`. */
  function HostIp(base: string, host: nat): string {
    base + "." + IntToString(host)
  }

  /** The URL a host is probed at. */
  function ProbeUrl(ip: string): string {
    "http://" + ip + ":8080/shot.jpg"
  }

  /** The URLs probed, host 1 first: `(1..254).map`. */
  function ScanTargets(base: string): seq<string> {
    seq(LAST_HOST, k requires 0 <= k < LAST_HOST => ProbeUrl(HostIp(base, k + 1)))
  }

  /** Different hosts have different addresses. */
  lemma HostIpInjective(base: string, h1: nat, h2: nat)
    requires HostIp(base, h1) == HostIp(base, h2)
    ensures h1 == h2
  {
    var p := base + ".";
    assert HostIp(base, h1)[|p|..] == IntToString(h1);
    assert HostIp(base, h2)[|p|..] == IntToString(h2);
    IntToStringInjective(h1, h2);
  }

  /** Exactly hosts 1..254 are probed, each once, in ascending order. */
  lemma ScanTargetsCover(base: string)
    ensures |ScanTargets(base)| == LAST_HOST - FIRST_HOST + 1
    ensures forall h | FIRST_HOST <= h <= LAST_HOST :: ScanTargets(base)[h - 1] == ProbeUrl(HostIp(base, h))
    ensures forall k, l | 0 <= k < l < |ScanTargets(base)| :: ScanTargets(base)[k] != ScanTargets(base)[l]
  {
    var t := ScanTargets(base);
    forall k, l | 0 <= k < l < |t|
      ensures t[k] != t[l]
    {
      if t[k] == t[l] {
        var u := HostIp(base, k + 1);
        var w := HostIp(base, l + 1);
        assert t[k] == "http://" + u + ":8080/shot.jpg";
        assert t[l] == "http://" + w + ":8080/shot.jpg";
        assert t[k][7..|t[k]| - 14] == u;
        assert t[l][7..|t[l]| - 14] == w;
        HostIpInjective(base, k + 1, l + 1);
      }
    }
  }

  /** What a probe came to: a response with its status and `Content-Type`, or an exception. */
  datatype Probe = Answered(successful: bool, contentType: Option<string>) | Threw

  /** A host is a camera when the response is successful and its `Content-Type` contains "image". */
  predicate Accepts(p: Probe) {
    p.Answered? && p.successful && p.contentType.Some? && Contains(p.contentType.value, "image")
  }

  /** `CameraCandidate`. */
  datatype Candidate = Candidate(ip: string)

  /** The accepted hosts among 1..n, ascending; `probes[h - 1]` is host `h`'s probe. */
  function AcceptedHosts(probes: seq<Probe>, n: nat): (hosts: seq<nat>)
    requires n <= |probes|
    ensures forall k | 0 <= k < |hosts| :: 1 <= hosts[k] <= n && Accepts(probes[hosts[k] - 1])
    ensures forall k, l | 0 <= k < l < |hosts| :: hosts[k] < hosts[l]
    ensures forall h | 1 <= h <= n && Accepts(probes[h - 1]) :: h in hosts
  {
    if n == 0 then []
    else AcceptedHosts(probes, n - 1) + (if Accepts(probes[n - 1]) then [n] else [])
  }

  /** `scanLocalSubnetForIpWebcam()`, given the subnet base and every host's probe. */
  function Scan(base: Option<string>, probes: seq<Probe>): seq<Candidate>
    requires |probes| == LAST_HOST
  {
    match base
    case None => []
    case Some(b) =>
      var hosts := AcceptedHosts(probes, LAST_HOST);
      seq(|hosts|, k requires 0 <= k < |hosts| => Candidate(HostIp(b, hosts[k])))
  }

  /**
   * Without a subnet there are no candidates; otherwise an address is a
   * candidate exactly when its host, in 1..254, answered with an image,
   * and the candidates follow ascending host order.
   */
  lemma ScanCandidates(base: Option<string>, probes: seq<Probe>)
    requires |probes| == LAST_HOST
    ensures base.None? ==> Scan(base, probes) == []
    ensures base.Some? ==> forall h | FIRST_HOST <= h <= LAST_HOST ::
              (Candidate(HostIp(base.value, h)) in Scan(base, probes) <==> Accepts(probes[h - 1]))
    ensures base.Some? ==> forall c | c in Scan(base, probes) ::
              exists h | FIRST_HOST <= h <= LAST_HOST :: c == Candidate(HostIp(base.value, h)) && Accepts(probes[h - 1])
    ensures base.Some? ==> var hosts := AcceptedHosts(probes, LAST_HOST);
              && |Scan(base, probes)| == |hosts|
              && forall k | 0 <= k < |hosts| :: Scan(base, probes)[k] == Candidate(HostIp(base.value, hosts[k]))
  {
    if base.Some? {
      var b := base.value;
      forall h | FIRST_HOST <= h <= LAST_HOST
        ensures Candidate(HostIp(b, h)) in Scan(base, probes) <==> Accepts(probes[h - 1])
      {
        ScanHasHost(b, probes, h);
      }
      forall c | c in Scan(base, probes)
        ensures exists h | FIRST_HOST <= h <= LAST_HOST :: c == Candidate(HostIp(b, h)) && Accepts(probes[h - 1])
      {
        ScanOnlyAccepted(b, probes, c);
      }
    }
  }

  /** Host `h`'s address is a candidate exactly when its probe answered with an image. */
  lemma ScanHasHost(b: string, probes: seq<Probe>, h: nat)
    requires |probes| == LAST_HOST && FIRST_HOST <= h <= LAST_HOST
    ensures Candidate(HostIp(b, h)) in Scan(Some(b), probes) <==> Accepts(probes[h - 1])
  {
    var hosts := AcceptedHosts(probes, LAST_HOST);
    var r := Scan(Some(b), probes);
    if Candidate(HostIp(b, h)) in r {
      var k :| 0 <= k < |r| && r[k] == Candidate(HostIp(b, h));
      HostIpInjective(b, hosts[k], h);
    }
    if Accepts(probes[h - 1]) {
      assert h in hosts;
      var k :| 0 <= k < |hosts| && hosts[k] == h;
      assert r[k] == Candidate(HostIp(b, h));
    }
  }

  /** Every candidate is the address of a host whose probe answered with an image. */
  lemma ScanOnlyAccepted(b: string, probes: seq<Probe>, c: Candidate)
    requires |probes| == LAST_HOST && c in Scan(Some(b), probes)
    ensures exists h | FIRST_HOST <= h <= LAST_HOST :: c == Candidate(HostIp(b, h)) && Accepts(probes[h - 1])
  {
    var hosts := AcceptedHosts(probes, LAST_HOST);
    var r := Scan(Some(b), probes);
    var k :| 0 <= k < |r| && r[k] == c;
    assert c == Candidate(HostIp(b, hosts[k]));
  }

  // ---------------------------------------------------------------------
  // The steps

  /** `WizardStep`. */
  datatype Step = Intro | OpenWifiSettings | Scanning | PickResult | Preview | Done

  /** What moves the wizard: its buttons, and the end of a scan. */
  datatype Event =
    | StartTapped
    | ConnectedTapped
    | SkipTapped
    | ScanEnded
    | CardTapped
    | RescanTapped
    | BackTapped
    | ConfirmTapped(ip: string)

  /** The step after an event; an event whose button the step does not show changes nothing. */
  function Next(s: Step, e: Event): Step {
    match e
    case StartTapped => if s == Intro then OpenWifiSettings else s
    case ConnectedTapped => if s == OpenWifiSettings then Scanning else s
    case SkipTapped => if s == Scanning then PickResult else s
    case ScanEnded => if s == Scanning then PickResult else s
    case CardTapped => if s == PickResult then Preview else s
    case RescanTapped => if s == PickResult then Scanning else s
    case BackTapped => if s == Preview then PickResult else s
    case ConfirmTapped(ip) => if s == Preview && ip != "" then Done else s
  }

  function Run(s: Step, es: seq<Event>): Step {
    if es == [] then s else Next(Run(s, es[..|es| - 1]), es[|es| - 1])
  }

  /** `Done` is final: no button leads away from it. */
  lemma DoneIsFinal(es: seq<Event>)
    ensures Run(Done, es) == Done
  {
  }

  /** The wizard finishes only through a confirmation of a non-empty address in `Preview`. */
  lemma {:induction false} DoneNeedsConfirm(s: Step, es: seq<Event>)
    requires s != Done && Run(s, es) == Done
    ensures exists k | 0 <= k < |es| ::
              es[k].ConfirmTapped? && es[k].ip != "" && Run(s, es[..k]) == Preview
  {
    var init := es[..|es| - 1];
    var last := es[|es| - 1];
    assert Run(s, es) == Next(Run(s, init), last);
    if Run(s, init) == Done {
      DoneNeedsConfirm(s, init);
      var k :| 0 <= k < |init| && init[k].ConfirmTapped? && init[k].ip != "" && Run(s, init[..k]) == Preview;
      assert es[..k] == init[..k];
      assert es[k] == init[k];
    } else {
      assert init == es[..|es| - 1];
    }
  }

  /** A scan always ends on `PickResult`, whether it finished, failed or was skipped. */
  lemma ScanEndsOnPick(e: Event)
    requires e == SkipTapped || e == ScanEnded
    ensures Next(Scanning, e) == PickResult
  {
  }

  /** The wizard's state. */
  class Wizard {
    var step: Step
    var candidates: seq<Candidate>
    var selected: Option<Candidate>
    var error: Option<string>
    /** The addresses handed to `onIpChosen`, in order. */
    var chosen: seq<string>

    /** In `Preview` a candidate is selected; every address handed on is non-empty. */
    predicate Valid()
      reads this
    {
      && (step == Preview ==> selected.Some?)
      && (step == Done ==> |chosen| > 0)
      && forall k | 0 <= k < |chosen| :: chosen[k] != ""
    }

    constructor()
      ensures Valid() && step == Intro && candidates == [] && selected.None? && error.None? && chosen == []
    {
      step := Intro;
      candidates := [];
      selected := None;
      error := None;
      chosen := [];
    }

    /** "Start". */
    method Start()
      requires Valid() && step == Intro
      modifies this`step
      ensures Valid() && step == Next(old(step), StartTapped) && step == OpenWifiSettings
    {
      step := OpenWifiSettings;
    }

    /** "I'm connected": the scan starts, and its first act clears the error. */
    method ImConnected()
      requires Valid() && step == OpenWifiSettings
      modifies this`step, this`error
      ensures Valid() && step == Next(old(step), ConnectedTapped) && step == Scanning
      ensures error.None?
    {
      step := Scanning;
      error := None;
    }

    /**
     * The scan ends: its result becomes the candidates, or, when it threw,
     * the error is its message (or "Scan failed") and there are no
     * candidates; the step is `PickResult` either way.
     */
    method ScanFinished(outcome: Result<seq<Candidate>, Option<string>>)
      requires Valid() && step == Scanning
      modifies this`step, this`candidates, this`error
      ensures Valid() && step == Next(old(step), ScanEnded) && step == PickResult
      ensures outcome.Ok? ==> candidates == outcome.value && error == old(error)
      ensures outcome.Err? ==> candidates == [] && error == Some(outcome.error.GetOr("Scan failed"))
    {
      match outcome {
        case Ok(result) =>
          candidates := result;
        case Err(message) =>
          error := Some(message.GetOr("Scan failed"));
          candidates := [];
      }
      step := PickResult;
    }

    /**
     * "Skip": the step becomes `PickResult`, which cancels the running
     * scan; its `catch` sees the cancellation, so the candidates are
     * emptied and the error is the cancellation's message.
     */
    method Skip(cancellation: Option<string>)
      requires Valid() && step == Scanning
      modifies this`step, this`candidates, this`error
      ensures Valid() && step == Next(old(step), SkipTapped) && step == PickResult
      ensures candidates == [] && error == Some(cancellation.GetOr("Scan failed"))
    {
      step := PickResult;
      error := Some(cancellation.GetOr("Scan failed"));
      candidates := [];
    }

    /** Tapping a candidate's card selects it and shows the preview. */
    method Pick(c: Candidate)
      requires Valid() && step == PickResult && c in candidates
      modifies this`step, this`selected
      ensures Valid() && step == Next(old(step), CardTapped) && step == Preview && selected == Some(c)
    {
      selected := Some(c);
      step := Preview;
    }

    /** "Rescan": a new scan starts and clears the error. */
    method Rescan()
      requires Valid() && step == PickResult
      modifies this`step, this`error
      ensures Valid() && step == Next(old(step), RescanTapped) && step == Scanning && error.None?
    {
      step := Scanning;
      error := None;
    }

    /** "Back" from the preview. */
    method Back()
      requires Valid() && step == Preview
      modifies this`step
      ensures Valid() && step == Next(old(step), BackTapped) && step == PickResult
    {
      step := PickResult;
    }

    /** "This is my camera!": hands on the selected address and finishes, unless it is empty. */
    method Confirm()
      requires Valid() && step == Preview
      modifies this`step, this`chosen
      ensures Valid()
      ensures var ip := if old(selected).Some? then old(selected).value.ip else "";
              && step == Next(old(step), ConfirmTapped(ip))
              && chosen == (if ip != "" then old(chosen) + [ip] else old(chosen))
    {
      var ip := if selected.Some? then selected.value.ip else "";
      if ip != "" {
        chosen := chosen + [ip];
        step := Done;
      }
    }
  }
}
