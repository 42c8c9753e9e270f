/**
  The driver's session state and the member functions that talk to the device:
  the four status queries, the setters, and the handshake.

  Every operation is a pure function of the session state and the outcomes of the
  port's attempts, returning a `Step`: the new state, the command codes it issued (one
  per call of `sendCommand`), the frames that reached the wire, and the attempt
  outcomes it left for whatever runs next.
 */
module Session {
  import opened Optional
  import opened Wire
  import opened Transport
  import Cover
  import Calibrator
  import Heater
  import Brightness

  /** What a state text field shows: its initial placeholder, a decoded state, or
      "Invalid Response". */
  datatype Display<T> = Unset | Shows(state: T) | Invalid

  function Show<T>(r: Option<T>): (d: Display<T>)
    ensures d.Shows? <==> r.Some?
    ensures r.Some? ==> d.state == r.value
  {
    if r.Some? then Shows(r.value) else Invalid
  }

  /** The session flags. */
  datatype Flags = Flags(
    lightDisabled: bool,
    coverIsMoving: bool,
    lightIsReady: bool,
    autoOn: bool,
    autoHeatOn: bool,
    heatOnClose: bool,
    heatModeIsChanging: bool)

  /** The flags as the driver object is constructed. */
  const InitialFlags: Flags := Flags(false, false, true, false, false, false, false)

  datatype LightSwitch = LightOn | LightOff

  datatype HeaterSwitch = HeatOn | HeatOff | HeatAuto | HeatAtClose

  /** The option switches and the stabilize time, as the client last set them. */
  datatype Options = Options(
    autoOn: bool,
    disableLight: bool,
    autoHeatOn: bool,
    heatOnClose: bool,
    stabilizeMs: nat)

  datatype Device = Device(
    connected: bool,
    portOpen: bool,
    flags: Flags,
    cover: Display<Cover.State>,
    calibrator: Display<Calibrator.State>,
    heater: Display<Heater.State>,
    current: nat,
    max: nat,
    lightSwitch: LightSwitch,
    heaterSwitch: HeaterSwitch,
    options: Options)

  /** A fresh session; `max` is the maximum brightness the device reported. */
  function Initial(options: Options, max: nat): (d: Device)
    ensures !d.connected && !d.portOpen && d.flags == InitialFlags
    ensures d.cover == Unset && d.calibrator == Unset && d.heater == Unset
    ensures d.current == 0 && d.max == max
    ensures d.lightSwitch == LightOff && d.heaterSwitch == HeatOff
  {
    Device(false, false, InitialFlags, Unset, Unset, Unset, 0, max, LightOff, HeatOff, options)
  }

  datatype Step = Step(dev: Device, sent: seq<string>, wire: seq<string>, port: seq<Attempt>)

  /** Every issued code belongs to the command set, and every frame on the wire frames
      one of the issued codes. */
  predicate Framed(s: Step) {
    && (forall c | c in s.sent :: KnownCode(c))
    && (forall f | f in s.wire :: exists c | c in s.sent :: f == Frame(c))
  }

  /** The step's wire traffic and leftover outcomes are those of transaction `t`. */
  predicate Carries(s: Step, t: Transaction) {
    s.wire == t.frames && s.port == t.rest
  }

  /** Nothing issued, nothing written, no outcome consumed. */
  function Idle(dev: Device, port: seq<Attempt>): (s: Step)
    ensures s.sent == [] && s.wire == [] && s.port == port && s.dev == dev && Framed(s)
  {
    Step(dev, [], [], port)
  }

  /** One call of `sendCommand` on the session's port. */
  function Exchange(dev: Device, code: string, port: seq<Attempt>): (t: Transaction)
    ensures forall f | f in t.frames :: f == Frame(code)
    ensures !dev.portOpen ==> t.frames == [] && t.reply == Failed(PortClosed) && t.rest == port
  {
    Send(dev.portOpen, code, port)
  }

  function Exchanged(t: Transaction, code: string, dev: Device): (s: Step)
    requires KnownCode(code)
    requires forall f | f in t.frames :: f == Frame(code)
    ensures s.sent == [code] && Carries(s, t) && s.dev == dev && Framed(s)
  {
    Step(dev, [code], t.frames, t.rest)
  }

  /** `b` run after `a`. */
  function Then(a: Step, b: Step): (r: Step)
    ensures r.dev == b.dev && r.port == b.port
    ensures r.sent == a.sent + b.sent && r.wire == a.wire + b.wire
    ensures Framed(a) && Framed(b) ==> Framed(r)
  {
    Step(b.dev, a.sent + b.sent, a.wire + b.wire, b.port)
  }

  /** The same traffic, ending in state `d`. */
  function WithDevice(s: Step, d: Device): (r: Step)
    ensures r.dev == d && r.sent == s.sent && r.wire == s.wire && r.port == s.port
    ensures Framed(s) ==> Framed(r)
  {
    Step(d, s.sent, s.wire, s.port)
  }

  // ----- decoding of status replies -----

  /** The effect of a successful `P` reply. */
  function ReadCover(dev: Device, payload: string): (d: Device)
    ensures d == dev.(cover := d.cover, flags := d.flags)
    ensures d.flags == dev.flags.(coverIsMoving := d.flags.coverIsMoving)
    ensures d.cover == Show(Cover.Decode(payload))
    ensures d.flags.coverIsMoving
        <==> dev.flags.coverIsMoving && !(exists s :: payload == Cover.Reply(s) && Cover.StopsMotion(s))
  {
    var r := Cover.Decode(payload);
    var flags := if r.Some? && Cover.StopsMotion(r.value) then dev.flags.(coverIsMoving := false) else dev.flags;
    dev.(cover := Show(r), flags := flags)
  }

  /** The effect of a successful `L` reply. */
  function ReadCalibrator(dev: Device, payload: string): (d: Device)
    ensures d == dev.(calibrator := d.calibrator, flags := d.flags, lightSwitch := d.lightSwitch)
    ensures d.flags == dev.flags.(lightIsReady := d.flags.lightIsReady)
    ensures d.calibrator == Show(Calibrator.Decode(payload))
    ensures d.flags.lightIsReady <==> dev.flags.lightIsReady || payload == Calibrator.Reply(Calibrator.Ready)
    ensures |payload| > 1 ==> d.lightSwitch == dev.lightSwitch
    ensures |payload| <= 1 ==>
      (d.lightSwitch == LightOn <==>
        payload != Calibrator.Reply(Calibrator.NotPresent) && payload != Calibrator.Reply(Calibrator.Off))
  {
    if |payload| > 1 then dev.(calibrator := Invalid)
    else
      var r := Calibrator.Decode(payload);
      var flags := if r == Some(Calibrator.Ready) then dev.flags.(lightIsReady := true) else dev.flags;
      var switch := if Calibrator.ShowsLit(payload) then LightOn else LightOff;
      dev.(calibrator := Show(r), flags := flags, lightSwitch := switch)
  }

  /** The heater switch a decoded heater state selects (`Not Present` leaves it). */
  function HeaterSwitchFor(s: Heater.State, flags: Flags, current: HeaterSwitch): (w: HeaterSwitch)
    ensures s == Heater.NotPresent ==> w == current
    ensures s == Heater.Unknown ==> w != HeatOff
    ensures s == Heater.Unknown && flags.autoHeatOn ==> w == HeatAuto
    ensures s == Heater.Unknown && !flags.autoHeatOn && flags.heatOnClose ==> w == HeatAtClose
    ensures s == Heater.Unknown && !flags.autoHeatOn && !flags.heatOnClose ==> w == HeatOn
    ensures w == HeatOff && s != Heater.NotPresent ==> s == Heater.Off || s == Heater.Error
    ensures s == Heater.Off || s == Heater.Error ==> w == HeatOff
    ensures s == Heater.Auto ==> w == HeatAuto
    ensures s == Heater.On ==> w == HeatOn
    ensures s == Heater.Set ==> w == HeatAtClose
  {
    match s
    case NotPresent => current
    case Off => HeatOff
    case Auto => HeatAuto
    case On => HeatOn
    case Unknown => if flags.autoHeatOn then HeatAuto else if flags.heatOnClose then HeatAtClose else HeatOn
    case Error => HeatOff
    case Set => HeatAtClose
  }

  /** The effect of a successful `R` reply. */
  function ReadHeater(dev: Device, payload: string): (d: Device)
    ensures d == dev.(heater := d.heater, flags := d.flags, heaterSwitch := d.heaterSwitch)
    ensures d.flags == dev.flags.(heatModeIsChanging := d.flags.heatModeIsChanging)
    ensures d.heater == Show(Heater.Decode(payload))
    ensures d.flags.heatModeIsChanging <==> dev.flags.heatModeIsChanging && payload != Heater.Reply(Heater.Off)
    ensures Heater.Decode(payload).None? ==> d.heaterSwitch == dev.heaterSwitch
    ensures Heater.Decode(payload).Some? ==>
      d.heaterSwitch == HeaterSwitchFor(Heater.Decode(payload).value, dev.flags, dev.heaterSwitch)
  {
    // A reply longer than one character decodes to None: it shows Invalid and, not
    // being the Off code, changes nothing else.
    var r := Heater.Decode(payload);
    var switch := if r.Some? then HeaterSwitchFor(r.value, dev.flags, dev.heaterSwitch) else dev.heaterSwitch;
    var flags := if payload == Heater.Reply(Heater.Off) then dev.flags.(heatModeIsChanging := false) else dev.flags;
    dev.(heater := Show(r), heaterSwitch := switch, flags := flags)
  }

  /** The effect of a successful `B` reply. */
  function ReadBrightness(dev: Device, payload: string): (d: Device)
    ensures d == dev.(current := d.current)
    ensures d.current != dev.current ==> Brightness.Decode(payload, dev.max) == Some(d.current)
    ensures Brightness.Decode(payload, dev.max).Some? ==> d.current == Brightness.Decode(payload, dev.max).value
    ensures dev.current <= dev.max ==> d.current <= d.max
  {
    match Brightness.Decode(payload, dev.max)
    case Some(v) => dev.(current := v)
    case None => dev
  }

  // ----- status queries -----

  /** `d'` differs from `d` at most in the light panel's fields, and a brightness within
      [0, max] stays within it. */
  predicate PanelOnly(d: Device, d': Device) {
    && d' == d.(calibrator := d'.calibrator, lightSwitch := d'.lightSwitch, current := d'.current,
                flags := d.flags.(lightIsReady := d'.flags.lightIsReady))
    && (d.current <= d.max ==> d'.current <= d'.max)
  }

  lemma PanelOnlyChain(d1: Device, d2: Device, d3: Device)
    requires PanelOnly(d1, d2) && PanelOnly(d2, d3)
    ensures PanelOnly(d1, d3)
  {
  }

  /** `d'` differs from `d` at most in the heater's fields. */
  predicate HeaterOnly(d: Device, d': Device) {
    d' == d.(heater := d'.heater, heaterSwitch := d'.heaterSwitch,
             flags := d.flags.(heatModeIsChanging := d'.flags.heatModeIsChanging))
  }

  /** `getCoverState`. */
  function QueryCover(dev: Device, port: seq<Attempt>): (s: Step)
    ensures s.sent == ["P"] && Framed(s)
    ensures s.dev == dev.(cover := s.dev.cover, flags := dev.flags.(coverIsMoving := s.dev.flags.coverIsMoving))
    ensures var t := Exchange(dev, "P", port);
            && Carries(s, t)
            && (t.reply.Failed? ==> s.dev == dev)
            && (t.reply.Acked? ==> s.dev == ReadCover(dev, t.reply.payload))
  {
    var t := Exchange(dev, "P", port);
    Exchanged(t, "P", if t.reply.Acked? then ReadCover(dev, t.reply.payload) else dev)
  }

  /** `getCalibratorState`. */
  function QueryCalibrator(dev: Device, port: seq<Attempt>): (s: Step)
    ensures s.sent == ["L"] && Framed(s)
    ensures PanelOnly(dev, s.dev)
    ensures var t := Exchange(dev, "L", port);
            && Carries(s, t)
            && (t.reply.Failed? ==> s.dev == dev)
            && (t.reply.Acked? ==> s.dev == ReadCalibrator(dev, t.reply.payload))
  {
    var t := Exchange(dev, "L", port);
    Exchanged(t, "L", if t.reply.Acked? then ReadCalibrator(dev, t.reply.payload) else dev)
  }

  /** `getHeaterState`. */
  function QueryHeater(dev: Device, port: seq<Attempt>): (s: Step)
    ensures s.sent == ["R"] && Framed(s)
    ensures HeaterOnly(dev, s.dev)
    ensures var t := Exchange(dev, "R", port);
            && Carries(s, t)
            && (t.reply.Failed? ==> s.dev == dev)
            && (t.reply.Acked? ==> s.dev == ReadHeater(dev, t.reply.payload))
  {
    var t := Exchange(dev, "R", port);
    Exchanged(t, "R", if t.reply.Acked? then ReadHeater(dev, t.reply.payload) else dev)
  }

  /** `getBrightness`. */
  function QueryBrightness(dev: Device, port: seq<Attempt>): (s: Step)
    ensures s.sent == ["B"] && Framed(s)
    ensures PanelOnly(dev, s.dev)
    ensures var t := Exchange(dev, "B", port);
            && Carries(s, t)
            && (t.reply.Failed? ==> s.dev == dev)
            && (t.reply.Acked? ==> s.dev == ReadBrightness(dev, t.reply.payload))
  {
    var t := Exchange(dev, "B", port);
    Exchanged(t, "B", if t.reply.Acked? then ReadBrightness(dev, t.reply.payload) else dev)
  }

  /** `getCalibratorState` followed by `getBrightness`. */
  function QueryPanel(dev: Device, port: seq<Attempt>): (s: Step)
    ensures s.sent == ["L", "B"] && Framed(s)
    ensures PanelOnly(dev, s.dev)
    ensures var a := QueryCalibrator(dev, port);
            var b := QueryBrightness(a.dev, a.port);
            s.dev == b.dev && s.port == b.port && s.wire == a.wire + b.wire
  {
    var a := QueryCalibrator(dev, port);
    var b := QueryBrightness(a.dev, a.port);
    PanelOnlyChain(dev, a.dev, b.dev);
    Then(a, b)
  }

  // ----- setters -----

  /** The brightness `setBrightness(value)` asks for: 0 stands for the maximum. */
  function Target(dev: Device, value: nat): nat {
    if value == 0 then dev.max else value
  }

  function BrightnessCode(v: nat): (c: string)
    ensures KnownCode(c)
  {
    assert ("T" + Decimal(v))[1..] == Decimal(v);
    "T" + Decimal(v)
  }

  /** `setBrightness`: `T` followed by the target in decimal; an acknowledgement makes
      the light not ready (it must stabilise again). */
  function SetBrightness(dev: Device, value: nat, port: seq<Attempt>): (s: Step)
    ensures |s.sent| == 1 && |s.sent[0]| >= 1 && s.sent[0][0] == 'T' && Framed(s)
    ensures s.sent == ["T" + Decimal(if value == 0 then dev.max else value)]
    ensures ParseNat(s.sent[0][1..]) == Some(if value == 0 then dev.max else value)
    ensures var t := Exchange(dev, s.sent[0], port);
            && Carries(s, t)
            && s.dev == dev.(flags := dev.flags.(lightIsReady := dev.flags.lightIsReady && !t.reply.Acked?))
  {
    var code := BrightnessCode(Target(dev, value));
    assert code[1..] == Decimal(Target(dev, value));
    ParseDecimal(Target(dev, value));
    var t := Exchange(dev, code, port);
    Exchanged(t, code, if t.reply.Acked? then dev.(flags := dev.flags.(lightIsReady := false)) else dev)
  }

  /** Brightness 0 is the same request as the maximum brightness. */
  lemma ZeroMeansMax(dev: Device, port: seq<Attempt>)
    ensures SetBrightness(dev, 0, port) == SetBrightness(dev, dev.max, port)
  {
  }

  /** Against a device that acknowledges `T` and then reports the value it was sent, a
      brightness in [1, max] set and read back is the brightness shown. */
  lemma BrightnessEcho(dev: Device, v: nat, ack: string, rest: seq<Attempt>)
    requires dev.portOpen && 1 <= v <= dev.max && v < 1000
    ensures var a := SetBrightness(dev, v, [Ok(ack)] + [Ok(Frame(Decimal(v)))] + rest);
            var b := QueryBrightness(a.dev, a.port);
            && a.sent == [BrightnessCode(v)] && b.sent == ["B"]
            && b.dev.current == v && !b.dev.flags.lightIsReady && b.port == rest
  {
    var echo := [Ok(Frame(Decimal(v)))] + rest;
    assert [Ok(ack)] + [Ok(Frame(Decimal(v)))] + rest == [Ok(ack)] + echo;
    AnsweredAtOnce(BrightnessCode(v), ack, echo);
    AnsweredAtOnce("B", Frame(Decimal(v)), rest);
    PayloadOfFrame(Decimal(v));
    Brightness.EchoedValueAccepted(v, dev.max);
  }

  /** `setStabilizeTime`: `S` followed by the stabilize time; the state is untouched. */
  function SetStabilizeTime(dev: Device, port: seq<Attempt>): (s: Step)
    ensures s.sent == ["S" + Decimal(dev.options.stabilizeMs)]
    ensures |s.sent| == 1 && |s.sent[0]| >= 1 && s.sent[0][0] == 'S' && ParseNat(s.sent[0][1..]) == Some(dev.options.stabilizeMs)
    ensures Carries(s, Exchange(dev, s.sent[0], port)) && Framed(s)
    ensures s.dev == dev
  {
    var code := "S" + Decimal(dev.options.stabilizeMs);
    assert code[1..] == Decimal(dev.options.stabilizeMs);
    ParseDecimal(dev.options.stabilizeMs);
    Exchanged(Exchange(dev, code, port), code, dev)
  }

  /** `setAutoOn`: `A` to enable, `a` to disable; the flag follows only on acknowledgement. */
  function SetAutoOn(dev: Device, port: seq<Attempt>): (s: Step)
    ensures s.sent == [if dev.options.autoOn then "A" else "a"] && Framed(s)
    ensures var t := Exchange(dev, s.sent[0], port);
            && Carries(s, t)
            && s.dev == dev.(flags := s.dev.flags)
            && s.dev.flags == dev.flags.(autoOn := s.dev.flags.autoOn)
            && s.dev.flags.autoOn == (if t.reply.Acked? then dev.options.autoOn else dev.flags.autoOn)
  {
    var code := if dev.options.autoOn then "A" else "a";
    var t := Exchange(dev, code, port);
    Exchanged(t, code, if t.reply.Acked? then dev.(flags := dev.flags.(autoOn := dev.options.autoOn)) else dev)
  }

  /** `setLightDisabled`: the flag follows the option switch; no wire traffic. */
  function SetLightDisabled(dev: Device): (d: Device)
    ensures d.flags.lightDisabled <==> dev.options.disableLight
    ensures d == dev.(flags := dev.flags.(lightDisabled := d.flags.lightDisabled))
  {
    dev.(flags := dev.flags.(lightDisabled := dev.options.disableLight))
  }

  /** The two heater modes are never both on. */
  predicate ModesExclusive(f: Flags) {
    !(f.autoHeatOn && f.heatOnClose)
  }

  /** `setAutoHeatOn`. Enabling first switches heat-on-close off locally (before `Q` is
      sent, whatever its outcome); the auto flag itself follows only an acknowledgement. */
  function SetAutoHeatOn(dev: Device, port: seq<Attempt>): (s: Step)
    ensures s.sent == [if dev.options.autoHeatOn then "Q" else "q"] && Framed(s)
    ensures var t := Exchange(dev, s.sent[0], port);
            && Carries(s, t)
            && s.dev.flags.autoHeatOn == (if t.reply.Acked? then dev.options.autoHeatOn else dev.flags.autoHeatOn)
            && s.dev.flags.heatOnClose == (dev.flags.heatOnClose && !dev.options.autoHeatOn)
    ensures s.dev == dev.(flags := s.dev.flags, options := s.dev.options)
    ensures s.dev.flags == dev.flags.(autoHeatOn := s.dev.flags.autoHeatOn, heatOnClose := s.dev.flags.heatOnClose)
    ensures s.dev.options == dev.options.(heatOnClose := s.dev.options.heatOnClose)
    ensures s.dev.options.heatOnClose == (dev.options.heatOnClose && !(dev.options.autoHeatOn && dev.flags.heatOnClose))
    ensures dev.options.autoHeatOn || ModesExclusive(dev.flags) ==> ModesExclusive(s.dev.flags)
  {
    var code := if dev.options.autoHeatOn then "Q" else "q";
    var t := Exchange(dev, code, port);
    var cleared := dev.options.autoHeatOn && dev.flags.heatOnClose;
    var flags := dev.flags.(
      heatOnClose := dev.flags.heatOnClose && !dev.options.autoHeatOn,
      autoHeatOn := if t.reply.Acked? then dev.options.autoHeatOn else dev.flags.autoHeatOn);
    var options := if cleared then dev.options.(heatOnClose := false) else dev.options;
    Exchanged(t, code, dev.(flags := flags, options := options))
  }

  /** `setHeatOnClose`: the mirror image of `setAutoHeatOn` with `E` / `e`. */
  function SetHeatOnClose(dev: Device, port: seq<Attempt>): (s: Step)
    ensures s.sent == [if dev.options.heatOnClose then "E" else "e"] && Framed(s)
    ensures var t := Exchange(dev, s.sent[0], port);
            && Carries(s, t)
            && s.dev.flags.heatOnClose == (if t.reply.Acked? then dev.options.heatOnClose else dev.flags.heatOnClose)
            && s.dev.flags.autoHeatOn == (dev.flags.autoHeatOn && !dev.options.heatOnClose)
    ensures s.dev == dev.(flags := s.dev.flags, options := s.dev.options)
    ensures s.dev.flags == dev.flags.(autoHeatOn := s.dev.flags.autoHeatOn, heatOnClose := s.dev.flags.heatOnClose)
    ensures s.dev.options == dev.options.(autoHeatOn := s.dev.options.autoHeatOn)
    ensures s.dev.options.autoHeatOn == (dev.options.autoHeatOn && !(dev.options.heatOnClose && dev.flags.autoHeatOn))
    ensures dev.options.heatOnClose || ModesExclusive(dev.flags) ==> ModesExclusive(s.dev.flags)
  {
    var code := if dev.options.heatOnClose then "E" else "e";
    var t := Exchange(dev, code, port);
    var cleared := dev.options.heatOnClose && dev.flags.autoHeatOn;
    var flags := dev.flags.(
      autoHeatOn := dev.flags.autoHeatOn && !dev.options.heatOnClose,
      heatOnClose := if t.reply.Acked? then dev.options.heatOnClose else dev.flags.heatOnClose);
    var options := if cleared then dev.options.(autoHeatOn := false) else dev.options;
    Exchanged(t, code, dev.(flags := flags, options := options))
  }

  // ----- handshake -----

  datatype Greeting = Greeting(accepted: bool, step: Step)

  /** `Handshake`: take the port from the connection, send `Z`, and accept the link
      when the reply's first character is `?`. */
  function Handshake(dev: Device, portOpen: bool, port: seq<Attempt>): (g: Greeting)
    ensures g.step.dev == dev.(portOpen := portOpen) && Framed(g.step)
    ensures !portOpen ==> g.step.sent == [] && g.step.wire == [] && !g.accepted
    ensures portOpen ==> g.step.sent == ["Z"] && Carries(g.step, Send(true, "Z", port))
    ensures g.accepted <==> portOpen && Send(true, "Z", port).reply.Acked?
                            && |Send(true, "Z", port).reply.payload| > 0
                            && Send(true, "Z", port).reply.payload[0] == '?'
  {
    var d := dev.(portOpen := portOpen);
    if !portOpen then Greeting(false, Idle(d, port))
    else
      var t := Exchange(d, "Z", port);
      Greeting(t.reply.Acked? && |t.reply.payload| > 0 && t.reply.payload[0] == '?', Exchanged(t, "Z", d))
  }

  /** A device that answers `?` at once is accepted after a single write. */
  lemma HandshakeWithAnsweringDevice(dev: Device, rest: seq<Attempt>)
    ensures var g := Handshake(dev, true, [Ok("<?>")] + rest);
            g.accepted && g.step.wire == [Frame("Z")] && g.step.port == rest
  {
    DecidedBy(Frame("Z"), [], Ok("<?>"), rest, 0);
    assert [] + [Ok("<?>")] + rest == [Ok("<?>")] + rest;
  }

  /** A silent device is refused after three writes. */
  lemma HandshakeWithSilentDevice(dev: Device)
    ensures var g := Handshake(dev, true, []);
            !g.accepted && |g.step.wire| == MaxRetries
  {
    SilentDevice("Z");
  }
}
