/**
  The driver as a whole: every client request the model covers, dispatched to its
  handler, and the session invariants that hold across any sequence of requests.
 */
module Driver {
  import opened Wire
  import opened Transport
  import opened Session
  import Commands
  import Poller

  /** A client action on one of the driver's properties, or a poll-timer tick. */
  datatype Request =
    | Move(move: Commands.Move)
    | Light(light: LightSwitch)
    | GoTo(value: nat)
    | Adjust(up: bool)
    | Recall(band: Commands.Band)
    | Store(band: Commands.Band)
    | Stabilize(ms: nat)
    | AutoOn(enable: bool)
    | DisableLight(enable: bool)
    | AutoHeatOn(enable: bool)
    | HeatOnClose(enable: bool)
    | HeaterSwitch(heat: Session.HeaterSwitch)
    | Tick

  function Handle(dev: Device, r: Request, port: seq<Attempt>): (s: Step)
    ensures Framed(s)
    ensures s.dev.max == dev.max
  {
    match r
    case Move(m) => Commands.MoveTo(dev, m, port)
    case Light(w) => Commands.TurnLight(dev, w, port)
    case GoTo(v) => Commands.GoToValue(dev, v, port)
    case Adjust(up) => Commands.AdjustValue(dev, up, port)
    case Recall(b) => Commands.GoToSaved(dev, b, port)
    case Store(b) => Commands.SetToSaved(dev, b, port)
    case Stabilize(ms) => Commands.StabilizeTimeUpdate(dev, ms, port)
    case AutoOn(e) => Commands.AutoOnUpdate(dev, e, port)
    case DisableLight(e) => Idle(Commands.DisableLightUpdate(dev, e), port)
    case AutoHeatOn(e) => Commands.AutoHeatOnUpdate(dev, e, port)
    case HeatOnClose(e) => Commands.HeatOnCloseUpdate(dev, e, port)
    case HeaterSwitch(w) => Commands.TurnHeater(dev, w, port)
    case Tick => Poller.TimerHit(dev, port)
  }

  /** The session invariant: the two heater modes are never both on, and the shown
      brightness lies in [0, max]. */
  predicate Consistent(dev: Device) {
    ModesExclusive(dev.flags) && dev.current <= dev.max
  }

  /** A fresh session is consistent, so `ServeKeepsConsistent` applies from the start. */
  lemma InitialConsistent(options: Options, max: nat)
    ensures Consistent(Initial(options, max))
  {
  }

  lemma HandleKeepsConsistent(dev: Device, r: Request, port: seq<Attempt>)
    requires Consistent(dev)
    ensures Consistent(Handle(dev, r, port).dev)
  {
    if r.Move? || r.Light? {
      CoverAndLightKeep(dev, r, port);
    } else if r.GoTo? || r.Adjust? || r.Recall? {
      BrightnessKeeps(dev, r, port);
    } else {
      OthersKeep(dev, r, port);
    }
  }

  lemma CoverAndLightKeep(dev: Device, r: Request, port: seq<Attempt>)
    requires Consistent(dev) && (r.Move? || r.Light?)
    ensures Consistent(Handle(dev, r, port).dev)
  {
    if r.Move? {
      assert Handle(dev, r, port) == Commands.MoveTo(dev, r.move, port);
    } else {
      assert Handle(dev, r, port) == Commands.TurnLight(dev, r.light, port);
    }
  }

  lemma BrightnessKeeps(dev: Device, r: Request, port: seq<Attempt>)
    requires Consistent(dev) && (r.GoTo? || r.Adjust? || r.Recall?)
    ensures Consistent(Handle(dev, r, port).dev)
  {
    if r.GoTo? {
      assert Handle(dev, r, port) == Commands.GoToValue(dev, r.value, port);
    } else if r.Adjust? {
      assert Handle(dev, r, port) == Commands.AdjustValue(dev, r.up, port);
    } else {
      assert Handle(dev, r, port) == Commands.GoToSaved(dev, r.band, port);
    }
  }

  lemma OthersKeep(dev: Device, r: Request, port: seq<Attempt>)
    requires Consistent(dev) && !(r.Move? || r.Light? || r.GoTo? || r.Adjust? || r.Recall?)
    ensures Consistent(Handle(dev, r, port).dev)
  {
    if r.HeaterSwitch? {
      assert Handle(dev, r, port) == Commands.TurnHeater(dev, r.heat, port);
    } else if r.Tick? {
      assert Handle(dev, r, port) == Poller.TimerHit(dev, port);
    }
  }

  /** A run of requests, each served on the outcomes the previous one left. */
  function Serve(dev: Device, rs: seq<Request>, port: seq<Attempt>): (s: Step)
    ensures Framed(s)
    ensures |rs| == 0 ==> s == Idle(dev, port)
    decreases |rs|
  {
    if |rs| == 0 then Idle(dev, port)
    else
      var first := Handle(dev, rs[0], port);
      Then(first, Serve(first.dev, rs[1..], first.port))
  }

  lemma {:induction false} ServeKeepsConsistent(dev: Device, rs: seq<Request>, port: seq<Attempt>)
    requires Consistent(dev)
    ensures Consistent(Serve(dev, rs, port).dev)
    decreases |rs|
  {
    if |rs| > 0 {
      var first := Handle(dev, rs[0], port);
      HandleKeepsConsistent(dev, rs[0], port);
      ServeKeepsConsistent(first.dev, rs[1..], first.port);
    }
  }
}
