/**
  The periodic refresh (`mainValues`, run from `TimerHit` while connected). Each
  subsystem is queried only while it is not settled, so a settled device sees no
  traffic at all.

  The calibrator test looks at the COVER's text, and at the cover text as it was
  before this cycle's cover refresh: the source copies that text once at the start.
 */
module Poller {
  import opened Wire
  import opened Transport
  import Cover
  import Calibrator
  import Heater
  import opened Session

  /** The cover is refreshed while it is present and believed to be moving. */
  predicate CoverDue(dev: Device) {
    dev.cover != Shows(Cover.NotPresent) && dev.flags.coverIsMoving
  }

  /** The panel is refreshed while the cover (sic) is present and the light is not ready. */
  predicate PanelDue(dev: Device) {
    dev.cover != Shows(Cover.NotPresent) && !dev.flags.lightIsReady
  }

  /** The heater is refreshed while it is present and its switch is not Off, or while
      a heat-mode change is pending. */
  predicate HeaterDue(dev: Device) {
    (dev.heater != Shows(Heater.NotPresent) && dev.heaterSwitch != HeatOff) || dev.flags.heatModeIsChanging
  }

  predicate Settled(dev: Device) {
    !CoverDue(dev) && !PanelDue(dev) && !HeaterDue(dev)
  }

  /** The panel part of a cycle: read its state and, unless it reports Ready, read the
      brightness and show the light switch On. */
  function RefreshPanel(dev: Device, port: seq<Attempt>): (s: Step)
    ensures Framed(s) && PanelOnly(dev, s.dev)
    ensures s.sent == ["L"] || s.sent == ["L", "B"]
    ensures s.sent == ["L", "B"] <==> QueryCalibrator(dev, port).dev.calibrator != Shows(Calibrator.Ready)
    ensures s.sent == ["L", "B"] ==> s.dev.lightSwitch == LightOn
    ensures var a := QueryCalibrator(dev, port);
      if a.dev.calibrator != Shows(Calibrator.Ready) then
        var b := QueryBrightness(a.dev, a.port);
        s.dev == b.dev.(lightSwitch := LightOn) && s.port == b.port && s.wire == a.wire + b.wire
      else s == a
  {
    var a := QueryCalibrator(dev, port);
    if a.dev.calibrator != Shows(Calibrator.Ready) then
      var r := QueryPanel(dev, port);
      WithDevice(r, r.dev.(lightSwitch := LightOn))
    else a
  }

  /** First part of a cycle: the cover query, when due. */
  function CoverStage(dev: Device, port: seq<Attempt>): (s: Step)
    ensures Framed(s)
    ensures s.sent == (if CoverDue(dev) then ["P"] else [])
    ensures !CoverDue(dev) ==> s == Idle(dev, port)
    ensures CoverDue(dev) ==> s == QueryCover(dev, port)
    ensures s.dev == dev.(cover := s.dev.cover, flags := dev.flags.(coverIsMoving := s.dev.flags.coverIsMoving))
  {
    if CoverDue(dev) then QueryCover(dev, port) else Idle(dev, port)
  }

  /** Second part: the panel refresh, when the cover text seen at the start of the
      cycle is not Not Present and the light is not ready. */
  function PanelStage(dev: Device, coverAtStart: Display<Cover.State>, port: seq<Attempt>): (s: Step)
    ensures Framed(s) && PanelOnly(dev, s.dev)
    ensures var due := coverAtStart != Shows(Cover.NotPresent) && !dev.flags.lightIsReady;
      && (due ==> (s.sent == ["L"] || s.sent == ["L", "B"]) && s == RefreshPanel(dev, port))
      && (!due ==> s == Idle(dev, port))
  {
    if coverAtStart != Shows(Cover.NotPresent) && !dev.flags.lightIsReady
    then RefreshPanel(dev, port) else Idle(dev, port)
  }

  /** Last part: the heater query, when due. */
  function HeaterStage(dev: Device, port: seq<Attempt>): (s: Step)
    ensures Framed(s) && HeaterOnly(dev, s.dev)
    ensures s.sent == (if HeaterDue(dev) then ["R"] else [])
    ensures !HeaterDue(dev) ==> s == Idle(dev, port)
    ensures HeaterDue(dev) ==> s == QueryHeater(dev, port)
  {
    if HeaterDue(dev) then QueryHeater(dev, port) else Idle(dev, port)
  }

  /** `mainValues`. */
  function MainValues(dev: Device, port: seq<Attempt>): (s: Step)
    ensures Framed(s)
    ensures Settled(dev) ==> s == Idle(dev, port)
    ensures s.dev.flags.autoHeatOn == dev.flags.autoHeatOn && s.dev.flags.heatOnClose == dev.flags.heatOnClose
    ensures s.dev.max == dev.max && s.dev.options == dev.options && s.dev.connected == dev.connected
    ensures var s1 := CoverStage(dev, port);
      var s2 := PanelStage(s1.dev, dev.cover, s1.port);
      var s3 := HeaterStage(s2.dev, s2.port);
      && s.dev == s3.dev && s.port == s3.port
      && s.sent == s1.sent + s2.sent + s3.sent && s.wire == s1.wire + s2.wire + s3.wire
    ensures CoverDue(dev) ==>
      var q := QueryCover(dev, port);
      s.dev.cover == q.dev.cover && s.dev.flags.coverIsMoving == q.dev.flags.coverIsMoving
  {
    var s1 := CoverStage(dev, port);
    var s2 := PanelStage(s1.dev, dev.cover, s1.port);
    var s3 := HeaterStage(s2.dev, s2.port);
    Then(Then(s1, s2), s3)
  }

  /** Which queries a cycle issues, in terms of the state before it: the cover query
      iff the cover is due, the panel query iff the panel is due, the brightness query
      only then, and the heater query iff the heater is due. */
  lemma RefreshConditions(dev: Device, port: seq<Attempt>)
    ensures var s := MainValues(dev, port);
      && ("P" in s.sent <==> CoverDue(dev))
      && ("L" in s.sent <==> PanelDue(dev))
      && ("B" in s.sent ==> PanelDue(dev))
      && ("R" in s.sent <==> HeaterDue(dev))
      && |s.sent| <= 4
  {
    var s1 := CoverStage(dev, port);
    var s2 := PanelStage(s1.dev, dev.cover, s1.port);
    assert s1.dev.flags.lightIsReady == dev.flags.lightIsReady;
    var s3 := HeaterStage(s2.dev, s2.port);
    assert HeaterDue(s2.dev) == HeaterDue(dev);
    assert MainValues(dev, port).sent == s1.sent + s2.sent + s3.sent;
    CodesIn(s1.sent, s2.sent, s3.sent);
  }

  lemma CodesIn(x: seq<string>, y: seq<string>, z: seq<string>)
    requires x == [] || x == ["P"]
    requires y == [] || y == ["L"] || y == ["L", "B"]
    requires z == [] || z == ["R"]
    ensures "P" in x + y + z <==> x == ["P"]
    ensures "L" in x + y + z <==> y != []
    ensures "B" in x + y + z <==> y == ["L", "B"]
    ensures "R" in x + y + z <==> z == ["R"]
    ensures |x + y + z| <= 4
  {
  }

  /** A cycle that finds the cover Closed, the panel Ready and the heater Off leaves
      the session settled, so the cycle after it issues no command at all. */
  lemma QuietRepliesSettle(dev: Device, rest: seq<Attempt>)
    requires dev.portOpen && CoverDue(dev) && PanelDue(dev) && HeaterDue(dev)
    ensures var s := MainValues(dev, [Ok("<1>"), Ok("<3>"), Ok("<1>")] + rest);
      && s.sent == ["P", "L", "R"]
      && Settled(s.dev)
      && MainValues(s.dev, s.port) == Idle(s.dev, s.port)
  {
    QuietCycle(dev, rest);
  }

  /** The cycle of `QuietRepliesSettle`, stage by stage. */
  lemma QuietCycle(dev: Device, rest: seq<Attempt>)
    requires dev.portOpen && CoverDue(dev) && PanelDue(dev) && HeaterDue(dev)
    ensures var s := MainValues(dev, [Ok("<1>"), Ok("<3>"), Ok("<1>")] + rest);
      && s.sent == ["P", "L", "R"] && s.port == rest
      && s.dev.cover == Shows(Cover.Closed) && !s.dev.flags.coverIsMoving
      && s.dev.flags.lightIsReady
      && s.dev.heaterSwitch == HeatOff && !s.dev.flags.heatModeIsChanging
  {
    var p3 := [Ok("<1>")] + rest;
    var p2 := [Ok("<3>")] + p3;
    var port := [Ok("<1>")] + p2;
    assert port == [Ok("<1>"), Ok("<3>"), Ok("<1>")] + rest;
    var s1 := CoverStage(dev, port);
    assert s1.port == p2 && s1.sent == ["P"] && s1.dev.portOpen && !s1.dev.flags.lightIsReady
        && s1.dev.cover == Shows(Cover.Closed) && !s1.dev.flags.coverIsMoving && HeaterDue(s1.dev) by {
      ClosedReply(dev, p2);
    }
    var s2 := PanelStage(s1.dev, dev.cover, s1.port);
    assert s2.port == p3 && s2.sent == ["L"] && s2.dev.portOpen && s2.dev.flags.lightIsReady
        && s2.dev.cover == Shows(Cover.Closed) && !s2.dev.flags.coverIsMoving && HeaterDue(s2.dev) by {
      assert s2 == RefreshPanel(s1.dev, p2);
      ReadyReply(s1.dev, p3);
    }
    var s3 := HeaterStage(s2.dev, s2.port);
    assert s3.port == rest && s3.sent == ["R"] && s3.dev.flags.lightIsReady
        && s3.dev.cover == Shows(Cover.Closed) && !s3.dev.flags.coverIsMoving
        && s3.dev.heaterSwitch == HeatOff && !s3.dev.flags.heatModeIsChanging by {
      OffReply(s2.dev, rest);
    }
    assert MainValues(dev, port) == Then(Then(s1, s2), s3);
    Singletons(s1.sent, s2.sent, s3.sent);
  }

  lemma Singletons<T>(x: seq<T>, y: seq<T>, z: seq<T>)
    requires |x| == 1 && |y| == 1 && |z| == 1
    ensures x + y + z == [x[0], y[0], z[0]]
  {
  }

  lemma ClosedReply(dev: Device, rest: seq<Attempt>)
    requires dev.portOpen
    ensures var s := QueryCover(dev, [Ok("<1>")] + rest);
      s.port == rest && s.dev.cover == Shows(Cover.Closed) && !s.dev.flags.coverIsMoving
  {
    AnsweredAtOnce("P", "<1>", rest);
    assert Payload("<1>") == Cover.Reply(Cover.Closed);
  }

  lemma ReadyReply(dev: Device, rest: seq<Attempt>)
    requires dev.portOpen
    ensures var s := RefreshPanel(dev, [Ok("<3>")] + rest);
      s.port == rest && s.dev.flags.lightIsReady && s.sent == ["L"]
  {
    AnsweredAtOnce("L", "<3>", rest);
    assert Payload("<3>") == Calibrator.Reply(Calibrator.Ready);
  }

  lemma OffReply(dev: Device, rest: seq<Attempt>)
    requires dev.portOpen
    ensures var s := QueryHeater(dev, [Ok("<1>")] + rest);
      s.port == rest && s.dev.heater == Shows(Heater.Off) && s.dev.heaterSwitch == HeatOff
      && !s.dev.flags.heatModeIsChanging
  {
    AnsweredAtOnce("R", "<1>", rest);
    assert Payload("<1>") == Heater.Reply(Heater.Off);
  }

  /** `TimerHit`: one cycle while connected, nothing otherwise. */
  function TimerHit(dev: Device, port: seq<Attempt>): (s: Step)
    ensures Framed(s)
    ensures !dev.connected ==> s == Idle(dev, port)
    ensures dev.connected ==> s == MainValues(dev, port)
  {
    if dev.connected then MainValues(dev, port) else Idle(dev, port)
  }
}
