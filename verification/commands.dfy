/**
  The client-action handlers of the driver: cover movement, light on/off, brightness,
  presets, option switches and the heater switch.

  The client's new switch or number value is applied before a handler runs; the
  handlers then read it. Handlers other than the brightness-adjust and preset ones do
  nothing further unless the driver is connected.
 */
module Commands {
  import opened Optional
  import opened Wire
  import opened Transport
  import Cover
  import Calibrator
  import Heater
  import opened Session

  datatype Move = Open | Close | Halt

  datatype Band = Broadband | Narrowband

  /** The cover command a move sends. */
  function MoveCode(m: Move): (c: string)
    ensures KnownCode(c)
  {
    match m
    case Open => "O"
    case Close => "C"
    case Halt => "H"
  }

  /** Whether a move is sent at all, given what the cover shows: Open unless open or
      moving, Close unless closed or moving, Halt only while moving. */
  predicate MoveAllowed(m: Move, shown: Display<Cover.State>) {
    match m
    case Open => shown != Shows(Cover.Open) && shown != Shows(Cover.Moving)
    case Close => shown != Shows(Cover.Closed) && shown != Shows(Cover.Moving)
    case Halt => shown == Shows(Cover.Moving)
  }

  /** The refresh after an acknowledged Open: when the panel shows neither Not Present
      nor Off, its state and brightness are read again. */
  function AfterOpen(dev: Device, port: seq<Attempt>): (s: Step)
    ensures Framed(s)
    ensures dev.calibrator == Shows(Calibrator.NotPresent) || dev.calibrator == Shows(Calibrator.Off)
            ==> s == Idle(dev, port)
    ensures dev.calibrator != Shows(Calibrator.NotPresent) && dev.calibrator != Shows(Calibrator.Off)
            ==> s.sent == ["L", "B"] && s == QueryPanel(dev, port)
    ensures PanelOnly(dev, s.dev)
  {
    if dev.calibrator != Shows(Calibrator.NotPresent) && dev.calibrator != Shows(Calibrator.Off) then
      QueryPanel(dev, port)
    else Idle(dev, port)
  }

  /** The Open button once allowed: an acknowledged `O` marks the cover as moving and
      refreshes the panel. */
  function OpenCover(dev: Device, port: seq<Attempt>): (s: Step)
    ensures Framed(s) && |s.sent| >= 1 && s.sent[0] == "O"
    ensures var t := Exchange(dev, "O", port);
      && (t.reply.Failed? ==> s == Exchanged(t, "O", dev))
      && (t.reply.Acked? ==>
            var d := dev.(flags := dev.flags.(coverIsMoving := true));
            && s == Then(Exchanged(t, "O", d), AfterOpen(d, t.rest))
            && s.sent == ["O"] + (if dev.calibrator != Shows(Calibrator.NotPresent) && dev.calibrator != Shows(Calibrator.Off)
                                  then ["L", "B"] else [])
            && s.dev.flags.coverIsMoving
            && s.dev.cover == dev.cover && s.dev.heater == dev.heater
            && s.dev.flags.autoHeatOn == dev.flags.autoHeatOn && s.dev.flags.heatOnClose == dev.flags.heatOnClose)
    ensures s.dev.max == dev.max && (dev.current <= dev.max ==> s.dev.current <= s.dev.max)
  {
    var t := Exchange(dev, "O", port);
    if t.reply.Failed? then Exchanged(t, "O", dev)
    else
      var d := dev.(flags := dev.flags.(coverIsMoving := true));
      Then(Exchanged(t, "O", d), AfterOpen(d, t.rest))
  }

  /** The Close button once allowed: an acknowledged `C` marks the cover as moving and,
      with auto-on, the light as not ready. */
  function CloseCover(dev: Device, port: seq<Attempt>): (s: Step)
    ensures Framed(s) && s.sent == ["C"] && Carries(s, Exchange(dev, "C", port))
    ensures s.dev == dev.(flags := s.dev.flags)
    ensures s.dev.flags == (if Exchange(dev, "C", port).reply.Acked?
                            then dev.flags.(coverIsMoving := true, lightIsReady := dev.flags.lightIsReady && !dev.flags.autoOn)
                            else dev.flags)
  {
    var t := Exchange(dev, "C", port);
    if t.reply.Failed? then Exchanged(t, "C", dev)
    else
      var f := dev.flags.(coverIsMoving := true);
      Exchanged(t, "C", dev.(flags := if dev.flags.autoOn then f.(lightIsReady := false) else f))
  }

  /** The Halt button once allowed: an acknowledged `H` marks the cover as moving, so
      that polling continues until the device reports where it stopped. */
  function HaltCover(dev: Device, port: seq<Attempt>): (s: Step)
    ensures Framed(s) && s.sent == ["H"] && Carries(s, Exchange(dev, "H", port))
    ensures s.dev == (if Exchange(dev, "H", port).reply.Acked? then dev.(flags := dev.flags.(coverIsMoving := true)) else dev)
  {
    var t := Exchange(dev, "H", port);
    Exchanged(t, "H", if t.reply.Acked? then dev.(flags := dev.flags.(coverIsMoving := true)) else dev)
  }

  /** The Open / Close / Halt buttons: nothing is sent unless connected and the move is
      allowed for what the cover shows. */
  function MoveTo(dev: Device, m: Move, port: seq<Attempt>): (s: Step)
    ensures Framed(s)
    ensures !dev.connected || !MoveAllowed(m, dev.cover) ==> s == Idle(dev, port)
    ensures dev.connected && MoveAllowed(m, dev.cover) ==>
      && |s.sent| >= 1 && s.sent[0] == MoveCode(m)
      && s == match m
              case Open => OpenCover(dev, port)
              case Close => CloseCover(dev, port)
              case Halt => HaltCover(dev, port)
    ensures s.dev.max == dev.max && (dev.current <= dev.max ==> s.dev.current <= s.dev.max)
    ensures s.dev.flags.autoHeatOn == dev.flags.autoHeatOn && s.dev.flags.heatOnClose == dev.flags.heatOnClose
  {
    if !dev.connected || !MoveAllowed(m, dev.cover) then Idle(dev, port)
    else
      match m
      case Open => OpenCover(dev, port)
      case Close => CloseCover(dev, port)
      case Halt => HaltCover(dev, port)
  }

  /** Whether the light may be switched on: the disable-light option is off, or the
      cover is closed. */
  predicate LightPermitted(dev: Device) {
    !dev.flags.lightDisabled || dev.cover == Shows(Cover.Closed)
  }

  /** The light On / Off switch. On, when permitted and the panel shows Off, sets the
      maximum brightness; when not permitted the switch is put back to Off and nothing
      is sent. Off, unless the panel already shows Off, sends `F` and on acknowledgement
      shows the panel Off at brightness 0. */
  function TurnLight(dev: Device, which: LightSwitch, port: seq<Attempt>): (s: Step)
    ensures Framed(s)
    ensures !dev.connected ==> s == Idle(dev.(lightSwitch := which), port)
    ensures dev.connected && which == LightOn && !LightPermitted(dev) ==>
      s == Idle(dev.(lightSwitch := LightOff), port)
    ensures dev.connected && which == LightOn && LightPermitted(dev) ==>
      if dev.calibrator == Shows(Calibrator.Off)
      then s == SetBrightness(dev.(lightSwitch := LightOn), 0, port)
      else s == Idle(dev.(lightSwitch := LightOn), port)
    ensures dev.connected && which == LightOn && LightPermitted(dev) && dev.calibrator == Shows(Calibrator.Off) ==>
      var t := Exchange(dev, "T" + Decimal(dev.max), port);
      && s.sent == ["T" + Decimal(dev.max)] && Carries(s, t)
      && s.dev == dev.(lightSwitch := LightOn, flags := dev.flags.(lightIsReady := dev.flags.lightIsReady && !t.reply.Acked?))
    ensures dev.connected && which == LightOff ==>
      if dev.calibrator == Shows(Calibrator.Off) then s == Idle(dev.(lightSwitch := LightOff), port)
      else
        var t := Exchange(dev, "F", port);
        && s.sent == ["F"] && Carries(s, t)
        && s.dev == (if t.reply.Acked?
                     then dev.(lightSwitch := LightOff, calibrator := Shows(Calibrator.Off), current := 0)
                     else dev.(lightSwitch := LightOff))
  {
    var d := dev.(lightSwitch := which);
    if !d.connected then Idle(d, port)
    else
      match which
      case LightOn =>
        if LightPermitted(d) then
          if d.calibrator == Shows(Calibrator.Off) then SetBrightness(d, 0, port) else Idle(d, port)
        else Idle(d.(lightSwitch := LightOff), port)
      case LightOff =>
        if d.calibrator != Shows(Calibrator.Off) then
          var t := Exchange(d, "F", port);
          Exchanged(t, "F", if t.reply.Acked? then d.(calibrator := Shows(Calibrator.Off), current := 0) else d)
        else Idle(d, port)
  }

  /** With the light disabled, a light-on request is refused without a byte on the
      wire while the cover is open, and sends the maximum brightness once it is closed
      (and the panel shows Off). */
  lemma DisabledLightFollowsCover(dev: Device, port: seq<Attempt>)
    requires dev.connected && dev.flags.lightDisabled
    ensures dev.cover == Shows(Cover.Open) ==>
      TurnLight(dev, LightOn, port).wire == [] && TurnLight(dev, LightOn, port).dev.lightSwitch == LightOff
    ensures dev.cover == Shows(Cover.Closed) && dev.calibrator == Shows(Calibrator.Off) ==>
      TurnLight(dev, LightOn, port).sent == [BrightnessCode(dev.max)]
  {
  }

  /** The go-to-brightness field: when permitted, sets the brightness (0 meaning the
      maximum) and shows the light switch On whatever the outcome. */
  function GoToValue(dev: Device, value: nat, port: seq<Attempt>): (s: Step)
    ensures Framed(s)
    ensures !dev.connected || !LightPermitted(dev) ==> s == Idle(dev, port)
    ensures dev.connected && LightPermitted(dev) ==>
      var b := SetBrightness(dev, value, port);
      s.sent == b.sent && s.wire == b.wire && s.port == b.port && s.dev == b.dev.(lightSwitch := LightOn)
  {
    if !dev.connected || !LightPermitted(dev) then Idle(dev, port)
    else
      var b := SetBrightness(dev, value, port);
      WithDevice(b, b.dev.(lightSwitch := LightOn))
  }

  /** The - / + buttons: while the switch shows On, step the brightness by one when the
      result stays within [1, max]. */
  function AdjustValue(dev: Device, up: bool, port: seq<Attempt>): (s: Step)
    ensures Framed(s)
    ensures s.sent != [] ==>
      && dev.lightSwitch == LightOn
      && (up ==> dev.current + 1 <= dev.max && s == SetBrightness(dev, dev.current + 1, port))
      && (!up ==> dev.current - 1 >= 1 && s == SetBrightness(dev, dev.current - 1, port))
    ensures s.sent == [] ==> s == Idle(dev, port)
    ensures dev.lightSwitch == LightOn && (if up then dev.current + 1 <= dev.max else dev.current - 1 >= 1)
            ==> |s.sent| == 1
  {
    if dev.lightSwitch != LightOn then Idle(dev, port)
    else if up then
      if dev.current + 1 <= dev.max then SetBrightness(dev, dev.current + 1, port) else Idle(dev, port)
    else
      if dev.current - 1 >= 1 then SetBrightness(dev, dev.current - 1, port) else Idle(dev, port)
  }

  /** A preset command: `G` (recall) or `D` (save), then the band letter. */
  function PresetCode(save: bool, b: Band): (c: string)
    ensures KnownCode(c) && |c| == 2
    ensures c[0] == (if save then 'D' else 'G') && c[1] == (if b == Broadband then 'B' else 'N')
  {
    [if save then 'D' else 'G', if b == Broadband then 'B' else 'N']
  }

  function RecallCode(b: Band): string {
    PresetCode(false, b)
  }

  function SaveCode(b: Band): string {
    PresetCode(true, b)
  }

  /** The go-to-preset buttons: while the switch shows On, ask for the stored value and
      set the brightness to it. */
  function GoToSaved(dev: Device, band: Band, port: seq<Attempt>): (s: Step)
    ensures Framed(s)
    ensures dev.lightSwitch != LightOn ==> s == Idle(dev, port)
    ensures dev.lightSwitch == LightOn ==>
      var t := Exchange(dev, RecallCode(band), port);
      && |s.sent| >= 1 && s.sent[0] == RecallCode(band)
      && (t.reply.Acked? && ParseNat(t.reply.payload).Some? ==>
            s == Then(Exchanged(t, RecallCode(band), dev), SetBrightness(dev, ParseNat(t.reply.payload).value, t.rest)))
      && (t.reply.Failed? || ParseNat(t.reply.payload).None? ==>
            s.sent == [RecallCode(band)] && s.dev == dev && Carries(s, t))
  {
    if dev.lightSwitch != LightOn then Idle(dev, port)
    else
      var code := RecallCode(band);
      var t := Exchange(dev, code, port);
      var asked := Exchanged(t, code, dev);
      if t.reply.Acked? && ParseNat(t.reply.payload).Some? then
        Then(asked, SetBrightness(dev, ParseNat(t.reply.payload).value, t.rest))
      else asked
  }

  /** The save-as-preset buttons: while the switch shows On, tell the device to store
      its current brightness; the session state is untouched. */
  function SetToSaved(dev: Device, band: Band, port: seq<Attempt>): (s: Step)
    ensures Framed(s) && s.dev == dev
    ensures dev.lightSwitch != LightOn ==> s == Idle(dev, port)
    ensures dev.lightSwitch == LightOn ==> s.sent == [SaveCode(band)] && Carries(s, Exchange(dev, SaveCode(band), port))
  {
    if dev.lightSwitch != LightOn then Idle(dev, port)
    else
      var code := SaveCode(band);
      Exchanged(Exchange(dev, code, port), code, dev)
  }

  /** The stabilize-time field: the new value is kept and, when connected, sent. */
  function StabilizeTimeUpdate(dev: Device, ms: nat, port: seq<Attempt>): (s: Step)
    ensures Framed(s) && s.dev == dev.(options := dev.options.(stabilizeMs := ms))
    ensures !dev.connected ==> s.sent == [] && s.wire == []
    ensures !dev.connected ==> s.port == port
    ensures dev.connected ==> |s.sent| == 1 && |s.sent[0]| >= 1 && s.sent[0][0] == 'S' && ParseNat(s.sent[0][1..]) == Some(ms)
    ensures dev.connected ==>
      && s.sent == ["S" + Decimal(ms)]
      && Carries(s, Exchange(dev, "S" + Decimal(ms), port))
      && s == SetStabilizeTime(dev.(options := dev.options.(stabilizeMs := ms)), port)
  {
    var d := dev.(options := dev.options.(stabilizeMs := ms));
    if d.connected then SetStabilizeTime(d, port) else Idle(d, port)
  }

  /** The auto-on option switch. */
  function AutoOnUpdate(dev: Device, enable: bool, port: seq<Attempt>): (s: Step)
    ensures Framed(s) && s.dev.options == dev.options.(autoOn := enable)
    ensures !dev.connected ==> s == Idle(dev.(options := dev.options.(autoOn := enable)), port)
    ensures dev.connected ==>
      var t := Exchange(dev, if enable then "A" else "a", port);
      && s.sent == [if enable then "A" else "a"] && Carries(s, t)
      && s.dev.flags == dev.flags.(autoOn := if t.reply.Acked? then enable else dev.flags.autoOn)
      && s.dev == dev.(options := dev.options.(autoOn := enable), flags := s.dev.flags)
  {
    var d := dev.(options := dev.options.(autoOn := enable));
    if d.connected then SetAutoOn(d, port) else Idle(d, port)
  }

  /** The disable-light option switch: never touches the wire. */
  function DisableLightUpdate(dev: Device, enable: bool): (d: Device)
    ensures d.options == dev.options.(disableLight := enable)
    ensures d.flags.lightDisabled == (if dev.connected then enable else dev.flags.lightDisabled)
    ensures d == dev.(options := d.options, flags := dev.flags.(lightDisabled := d.flags.lightDisabled))
  {
    var d := dev.(options := dev.options.(disableLight := enable));
    if d.connected then SetLightDisabled(d) else d
  }

  /** The auto-heat option switch: when connected, the setter runs and the heat mode is
      marked as changing whatever its outcome. */
  function AutoHeatOnUpdate(dev: Device, enable: bool, port: seq<Attempt>): (s: Step)
    ensures Framed(s)
    ensures !dev.connected ==> s == Idle(dev.(options := dev.options.(autoHeatOn := enable)), port)
    ensures dev.connected ==>
      var t := Exchange(dev, if enable then "Q" else "q", port);
      && s.sent == [if enable then "Q" else "q"] && Carries(s, t)
      && s.dev.flags.heatModeIsChanging
      && s.dev.flags.autoHeatOn == (if t.reply.Acked? then enable else dev.flags.autoHeatOn)
      && (enable ==> !s.dev.flags.heatOnClose)
      && (!enable ==> s.dev.flags.heatOnClose == dev.flags.heatOnClose)
      && s.dev.flags == dev.flags.(autoHeatOn := s.dev.flags.autoHeatOn, heatOnClose := s.dev.flags.heatOnClose,
                                   heatModeIsChanging := true)
      && s.dev.options == dev.options.(autoHeatOn := enable,
                                       heatOnClose := dev.options.heatOnClose && !(enable && dev.flags.heatOnClose))
      && s.dev == dev.(options := s.dev.options, flags := s.dev.flags)
    ensures ModesExclusive(dev.flags) ==> ModesExclusive(s.dev.flags)
  {
    var d := dev.(options := dev.options.(autoHeatOn := enable));
    if d.connected then
      var a := SetAutoHeatOn(d, port);
      WithDevice(a, a.dev.(flags := a.dev.flags.(heatModeIsChanging := true)))
    else Idle(d, port)
  }

  /** The heat-on-close option switch. */
  function HeatOnCloseUpdate(dev: Device, enable: bool, port: seq<Attempt>): (s: Step)
    ensures Framed(s)
    ensures !dev.connected ==> s == Idle(dev.(options := dev.options.(heatOnClose := enable)), port)
    ensures dev.connected ==>
      var t := Exchange(dev, if enable then "E" else "e", port);
      && s.sent == [if enable then "E" else "e"] && Carries(s, t)
      && s.dev.flags.heatModeIsChanging
      && s.dev.flags.heatOnClose == (if t.reply.Acked? then enable else dev.flags.heatOnClose)
      && (enable ==> !s.dev.flags.autoHeatOn)
      && (!enable ==> s.dev.flags.autoHeatOn == dev.flags.autoHeatOn)
      && s.dev.flags == dev.flags.(autoHeatOn := s.dev.flags.autoHeatOn, heatOnClose := s.dev.flags.heatOnClose,
                                   heatModeIsChanging := true)
      && s.dev.options == dev.options.(heatOnClose := enable,
                                       autoHeatOn := dev.options.autoHeatOn && !(enable && dev.flags.autoHeatOn))
      && s.dev == dev.(options := s.dev.options, flags := s.dev.flags)
    ensures ModesExclusive(dev.flags) ==> ModesExclusive(s.dev.flags)
  {
    var d := dev.(options := dev.options.(heatOnClose := enable));
    if d.connected then
      var a := SetHeatOnClose(d, port);
      WithDevice(a, a.dev.(flags := a.dev.flags.(heatModeIsChanging := true)))
    else Idle(d, port)
  }

  /** The heater command a heater-switch selection sends, if any. */
  function HeaterCode(dev: Device, which: HeaterSwitch): (c: Option<string>)
    ensures c.Some? ==> KnownCode(c.value)
  {
    match which
    case HeatOn =>
      if dev.heater != Shows(Heater.On) && dev.heater != Shows(Heater.Error) then Some("W") else None
    case HeatOff => if dev.heater != Shows(Heater.Off) then Some("w") else None
    case HeatAuto => Some(if dev.flags.autoHeatOn then "q" else "Q")
    case HeatAtClose => Some(if dev.flags.heatOnClose then "e" else "E")
  }

  /** The mode flags after a heater command was acknowledged: enabling one mode turns
      the other off in the same step; disabling clears only its own flag. */
  function AckedModes(f: Flags, code: string): (g: Flags)
    ensures ModesExclusive(g) || (ModesExclusive(f) == false && code !in {"Q", "E"})
    ensures code == "Q" ==> g.autoHeatOn && !g.heatOnClose
    ensures code == "E" ==> g.heatOnClose && !g.autoHeatOn
    ensures code == "q" ==> !g.autoHeatOn && g.heatOnClose == f.heatOnClose
    ensures code == "e" ==> !g.heatOnClose && g.autoHeatOn == f.autoHeatOn
    ensures code !in {"Q", "E", "q", "e"} ==> g == f
    ensures g == f.(autoHeatOn := g.autoHeatOn, heatOnClose := g.heatOnClose)
  {
    if code == "Q" then f.(autoHeatOn := true, heatOnClose := false)
    else if code == "q" then f.(autoHeatOn := false)
    else if code == "E" then f.(heatOnClose := true, autoHeatOn := false)
    else if code == "e" then f.(heatOnClose := false)
    else f
  }

  /** The command part of the heater switch, before the refresh. */
  function HeaterCommand(dev: Device, port: seq<Attempt>): (s: Step)
    ensures Framed(s)
    ensures HeaterCode(dev, dev.heaterSwitch).None? ==> s == Idle(dev, port)
    ensures HeaterCode(dev, dev.heaterSwitch).Some? ==>
      var code := HeaterCode(dev, dev.heaterSwitch).value;
      var t := Exchange(dev, code, port);
      && s.sent == [code] && Carries(s, t)
      && s.dev == (if t.reply.Acked? then dev.(flags := AckedModes(dev.flags, code)) else dev)
    ensures ModesExclusive(dev.flags) ==> ModesExclusive(s.dev.flags)
    ensures s.dev.flags.autoHeatOn && !dev.flags.autoHeatOn ==>
      dev.heaterSwitch == HeatAuto && Exchange(dev, "Q", port).reply.Acked?
    ensures s.dev.flags.heatOnClose && !dev.flags.heatOnClose ==>
      dev.heaterSwitch == HeatAtClose && Exchange(dev, "E", port).reply.Acked?
    ensures s.dev == dev.(flags := s.dev.flags)
  {
    match HeaterCode(dev, dev.heaterSwitch)
    case None => Idle(dev, port)
    case Some(code) =>
      var t := Exchange(dev, code, port);
      Exchanged(t, code, if t.reply.Acked? then dev.(flags := AckedModes(dev.flags, code)) else dev)
  }

  /** The heater command for the selected switch, then the heater refresh. */
  function CommandAndRefresh(dev: Device, port: seq<Attempt>): (s: Step)
    ensures Framed(s)
    ensures HeaterCode(dev, dev.heaterSwitch).None? ==> s.sent == ["R"]
    ensures HeaterCode(dev, dev.heaterSwitch).Some? ==> s.sent == [HeaterCode(dev, dev.heaterSwitch).value, "R"]
    ensures var c := HeaterCommand(dev, port);
            var r := QueryHeater(c.dev, c.port);
            s.dev == r.dev && s.port == r.port && s.wire == c.wire + r.wire
    ensures ModesExclusive(dev.flags) ==> ModesExclusive(s.dev.flags)
    ensures s.dev.flags.autoHeatOn && !dev.flags.autoHeatOn ==>
      dev.heaterSwitch == HeatAuto && Exchange(dev, "Q", port).reply.Acked?
    ensures s.dev.flags.heatOnClose && !dev.flags.heatOnClose ==>
      dev.heaterSwitch == HeatAtClose && Exchange(dev, "E", port).reply.Acked?
  {
    var first := HeaterCommand(dev, port);
    var refresh := QueryHeater(first.dev, first.port);
    Then(first, refresh)
  }

  /** The heater On / Off / Auto / Heat-on-close switch, followed by a heater refresh.
      On is not sent while the heater shows On or Error; Off not while it shows Off. */
  function TurnHeater(dev: Device, which: HeaterSwitch, port: seq<Attempt>): (s: Step)
    ensures Framed(s)
    ensures !dev.connected ==> s == Idle(dev.(heaterSwitch := which), port)
    ensures dev.connected ==>
      && |s.sent| >= 1 && s.sent[|s.sent| - 1] == "R"
      && (HeaterCode(dev, which).None? ==> s.sent == ["R"])
      && (HeaterCode(dev, which).Some? ==> s.sent == [HeaterCode(dev, which).value, "R"])
    ensures dev.connected ==>
      var c := HeaterCommand(dev.(heaterSwitch := which), port);
      var r := QueryHeater(c.dev, c.port);
      s.dev == r.dev && s.port == r.port && s.wire == c.wire + r.wire
    ensures which == HeatOn && (dev.heater == Shows(Heater.On) || dev.heater == Shows(Heater.Error)) ==> "W" !in s.sent
    ensures ModesExclusive(dev.flags) ==> ModesExclusive(s.dev.flags)
    ensures s.dev.flags.autoHeatOn && !dev.flags.autoHeatOn ==>
      dev.connected && which == HeatAuto && Exchange(dev, "Q", port).reply.Acked?
    ensures s.dev.flags.heatOnClose && !dev.flags.heatOnClose ==>
      dev.connected && which == HeatAtClose && Exchange(dev, "E", port).reply.Acked?
  {
    var d := dev.(heaterSwitch := which);
    if !d.connected then Idle(d, port)
    else
      assert HeaterCode(d, d.heaterSwitch) == HeaterCode(dev, which);
      assert Exchange(d, "Q", port) == Exchange(dev, "Q", port);
      assert Exchange(d, "E", port) == Exchange(dev, "E", port);
      CommandAndRefresh(d, port)
  }
  /** An acknowledged Auto or Heat-on-close selection toggles its mode, and enabling
      one mode clears the other; the `R` refresh that follows leaves the modes alone. */
  lemma HeaterModeToggles(dev: Device, which: HeaterSwitch, port: seq<Attempt>)
    requires dev.connected
    ensures which == HeatAuto && Exchange(dev, if dev.flags.autoHeatOn then "q" else "Q", port).reply.Acked? ==>
      var s := TurnHeater(dev, which, port);
      s.dev.flags.autoHeatOn == !dev.flags.autoHeatOn && (!dev.flags.autoHeatOn ==> !s.dev.flags.heatOnClose)
    ensures which == HeatAtClose && Exchange(dev, if dev.flags.heatOnClose then "e" else "E", port).reply.Acked? ==>
      var s := TurnHeater(dev, which, port);
      s.dev.flags.heatOnClose == !dev.flags.heatOnClose && (!dev.flags.heatOnClose ==> !s.dev.flags.autoHeatOn)
  {
    var d := dev.(heaterSwitch := which);
    var c := HeaterCommand(d, port);
    assert Exchange(d, "Q", port) == Exchange(dev, "Q", port) && Exchange(d, "q", port) == Exchange(dev, "q", port);
    assert Exchange(d, "E", port) == Exchange(dev, "E", port) && Exchange(d, "e", port) == Exchange(dev, "e", port);
    assert HeaterOnly(c.dev, QueryHeater(c.dev, c.port).dev);
  }
}
