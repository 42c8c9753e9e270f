# DarkLight cover calibrator driver — a Dafny model

This project models the INDI driver for the DarkLight Cover Calibrator
(`indi/indi-dlc-src/darklight_covercalibrator.cpp`). The device is a dust cover with an
optional flat-field light panel and an optional dew heater, and it sits on a serial line.
The driver frames each command code as `<code>`: a letter such as `O`, two letters such
as `GB`, or a letter and a number such as `T255`. A command gets at most three attempts
that end in a timeout, so it is re-sent at most twice after timeouts; a read error
re-sends it without using up an attempt. It decodes the one-digit status replies into the text fields a client sees, and it keeps
seven session flags: `lightDisabled`, `coverIsMoving`, `lightIsReady`, `autoOn`,
`autoHeatOn`, `heatOnClose` and `heatModeIsChanging`. Those flags decide what the client's
buttons are allowed to send and what the periodic refresh queries.

The model is purely functional. The serial port is replaced by a sequence of per-attempt
outcomes: write failure, select error, timeout, read error, or a read section. Every
driver operation is a function from the session state and those outcomes to a `Step`,
which carries:

- the new state;
- the command codes issued;
- the frames that reached the wire;
- the outcomes left for whatever runs next.

Modules:

- `Optional`: the `Option` type the decoders return.
- `Wire`: command framing, the reply payload, the device's command set, and decimal text.
- `Transport`: `sendCommand`'s bounded retry loop, with its outcome lemmas.
- `Cover`, `Calibrator`, `Heater`, `Brightness`: the status reply decoders.
- `Session`: the session state, the four status queries, the setters and the handshake.
- `Commands`: the client-action handlers (cover, light, brightness, presets, options,
  heater).
- `Poller`: `mainValues` and `TimerHit`.
- `Driver`: dispatch of any client request and the session invariants over any run of
  requests.

## Model

| member | source | states |
|---|---|---|
| `Wire.Frame` | indi/indi-dlc-src/darklight_covercalibrator.cpp:940-942 | the outbound frame is the code between a leading `<` and a trailing `>`, and nothing else |
| `Wire.Payload` | indi/indi-dlc-src/darklight_covercalibrator.cpp:985-993 | the payload handed back is the read section without its first byte and its `>` terminator |
| `Wire.PayloadOfFrame` | indi/indi-dlc-src/darklight_covercalibrator.cpp:985-993 | a reply framed like a command yields exactly its interior |
| `Wire.Decimal` | indi/indi-dlc-src/darklight_covercalibrator.cpp:1309-1311 | a number is written as a non-empty digit string with a leading `0` only for zero |
| `Wire.ParseNat` | indi/indi-dlc-src/darklight_covercalibrator.cpp:1285 | a reply reads as a number exactly when it is a non-empty string of digits |
| `Wire.ParseDecimal` | indi/indi-dlc-src/darklight_covercalibrator.cpp:1309-1311 | reading back a number written into a command gives that number |
| `Wire.DecimalInjective` | indi/indi-dlc-src/darklight_covercalibrator.cpp:1309-1311 | distinct brightness values produce distinct `T` commands |
| `Wire.DecimalWidth` | indi/indi-dlc-src/darklight_covercalibrator.cpp:1280-1285 | a number fits the three-character brightness reply exactly when it is below 1000 |
| `Transport.Run` | indi/indi-dlc-src/darklight_covercalibrator.cpp:946-1008 | every write is the same frame; the unconsumed outcomes are a suffix of the input; exhaustion comes only after the remaining attempts were all written; an acknowledgement follows at least one write |
| `Transport.Send` | indi/indi-dlc-src/darklight_covercalibrator.cpp:923-1009 | on a closed port nothing is written and the call fails; otherwise every write is `<code>` and exhaustion comes after at least three writes |
| `Transport.DecidedBy` | indi/indi-dlc-src/darklight_covercalibrator.cpp:946-1008 | after any retrying prefix within the budget, the first write error, select error or read section decides the outcome, with one write per attempt that reached the port |
| `Transport.ExhaustedBy` | indi/indi-dlc-src/darklight_covercalibrator.cpp:1002-1008 | the third timeout ends the call with a failure, consuming exactly the attempts up to it |
| `Transport.SilentAfter` | indi/indi-dlc-src/darklight_covercalibrator.cpp:977-1008 | when only retries are left, the device is silent afterwards: the remaining attempts time out, the call fails, and all outcomes are consumed |
| `Transport.Silent` | indi/indi-dlc-src/darklight_covercalibrator.cpp:977-1008 | with no outcomes left, every remaining attempt times out: one write each, then the call fails |
| `Transport.AckedReachesOk` | indi/indi-dlc-src/darklight_covercalibrator.cpp:946-1008 | an acknowledged call saw a read section before any write or select error and before the third timeout |
| `Transport.OkReachedIsAcked` | indi/indi-dlc-src/darklight_covercalibrator.cpp:985-993 | a read section reached within the budget is acknowledged with its payload |
| `Transport.AckedIff` | indi/indi-dlc-src/darklight_covercalibrator.cpp:946-1008 | a call is acknowledged if and only if a read section is reached within the budget |
| `Transport.ThreeTimeouts` | indi/indi-dlc-src/darklight_covercalibrator.cpp:946-1008 | three timeouts give a failure after exactly three writes |
| `Transport.SilentDevice` | indi/indi-dlc-src/darklight_covercalibrator.cpp:946-1008 | a device that never answers costs exactly three writes and fails |
| `Transport.AnsweredAtOnce` | indi/indi-dlc-src/darklight_covercalibrator.cpp:985-993 | an answer to the first write ends the call after that one write |
| `Transport.SuccessOnAttempt` | indi/indi-dlc-src/darklight_covercalibrator.cpp:946-1005 | an answer after k < 3 timeouts succeeds after exactly k + 1 writes |
| `Transport.FailsAtOnce` | indi/indi-dlc-src/darklight_covercalibrator.cpp:955-976 | a write error or a select error fails the call at once, with no further write |
| `Transport.ReadErrorsNotCounted` | indi/indi-dlc-src/darklight_covercalibrator.cpp:995-999 | read errors re-send without using up an attempt, so n read errors before three timeouts cost n + 3 writes |
| `Cover.Decode` | indi/indi-dlc-src/darklight_covercalibrator.cpp:1149-1193 | a payload decodes to a cover state exactly when it is that state's one-digit code |
| `Cover.InvalidReplies` | indi/indi-dlc-src/darklight_covercalibrator.cpp:1149-1193 | digits 6..9, the empty reply and replies longer than one character are invalid |
| `Calibrator.Decode` | indi/indi-dlc-src/darklight_covercalibrator.cpp:1213-1245 | a payload decodes to a panel state exactly when it is that state's one-digit code |
| `Calibrator.LitIffNotOffOrAbsent` | indi/indi-dlc-src/darklight_covercalibrator.cpp:1247-1256 | the light switch is shown On for a panel state exactly when it is neither Not Present nor Off |
| `Heater.Decode` | indi/indi-dlc-src/darklight_covercalibrator.cpp:1439-1514 | a payload decodes to a heater state exactly when it is that state's one-digit code |
| `Brightness.Decode` | indi/indi-dlc-src/darklight_covercalibrator.cpp:1280-1297 | a brightness reply is accepted exactly when it has at most three characters, reads as a number, and lies in [0, max] |
| `Brightness.EchoedValueAccepted` | indi/indi-dlc-src/darklight_covercalibrator.cpp:1280-1297 | a reply repeating a value in [0, max] below 1000 is accepted as that value |
| `Session.Initial` | indi/indi-dlc-src/darklight_covercalibrator.cpp:51-52 | a new session starts with only `lightIsReady` set, and every state text at its `UNKNOWN` placeholder (lines 92, 105 and 150) |
| `Session.ReadCover` | indi/indi-dlc-src/darklight_covercalibrator.cpp:1149-1193 | the cover text shows the decoded state; the moving flag is cleared exactly when the reply reports Closed, Open, Unknown or Error; nothing else changes |
| `Session.ReadCalibrator` | indi/indi-dlc-src/darklight_covercalibrator.cpp:1213-1256 | over-long replies only show Invalid; `lightIsReady` becomes set exactly by the Ready code; the light switch is On unless the reply is the Not Present or Off code |
| `Session.HeaterSwitchFor` | indi/indi-dlc-src/darklight_covercalibrator.cpp:1450-1510 | Off and Error select Off; Unknown selects Auto, Heat-on-close or On as the mode flags say; Not Present leaves the switch |
| `Session.ReadHeater` | indi/indi-dlc-src/darklight_covercalibrator.cpp:1439-1518 | the heater text shows the decoded state; `heatModeIsChanging` is cleared exactly by the Off code; an invalid reply leaves the switch |
| `Session.ReadBrightness` | indi/indi-dlc-src/darklight_covercalibrator.cpp:1280-1297 | the brightness changes only to an accepted reply value, so it stays in [0, max] |
| `Session.QueryCover` | indi/indi-dlc-src/darklight_covercalibrator.cpp:1136-1198 | sends `P`; a failed send changes nothing; an acknowledgement applies the cover reply and touches only the cover fields |
| `Session.QueryCalibrator` | indi/indi-dlc-src/darklight_covercalibrator.cpp:1200-1265 | sends `L`; a failed send changes nothing; an acknowledgement applies the panel reply and touches only the panel fields |
| `Session.QueryHeater` | indi/indi-dlc-src/darklight_covercalibrator.cpp:1426-1523 | sends `R`; a failed send changes nothing; an acknowledgement applies the heater reply and touches only the heater fields |
| `Session.QueryBrightness` | indi/indi-dlc-src/darklight_covercalibrator.cpp:1267-1300 | sends `B`; a failed send changes nothing; an acknowledgement applies the brightness reply |
| `Session.QueryPanel` | indi/indi-dlc-src/darklight_covercalibrator.cpp:233-234 | sends `L` then `B`; the brightness query runs on the outcomes the panel query left, and the frames of both are on the wire in order; only panel fields change |
| `Session.SetBrightness` | indi/indi-dlc-src/darklight_covercalibrator.cpp:1302-1324 | sends exactly the decimal text of the value after `T`, or of max for 0, so it reads back as that value; `lightIsReady` is cleared only by an acknowledgement; nothing else changes |
| `Session.ZeroMeansMax` | indi/indi-dlc-src/darklight_covercalibrator.cpp:1305-1308 | brightness 0 is the same request as the maximum brightness |
| `Session.BrightnessEcho` | indi/indi-dlc-src/darklight_covercalibrator.cpp:1267-1324 | against a device echoing the value, setting a brightness in [1, max] below 1000 and reading it back shows that brightness |
| `Session.SetStabilizeTime` | indi/indi-dlc-src/darklight_covercalibrator.cpp:1060-1079 | sends exactly `S` and the decimal text of the stabilize time, which reads back as that time; the state is untouched |
| `Session.SetAutoOn` | indi/indi-dlc-src/darklight_covercalibrator.cpp:1081-1118 | sends `A` or `a` as the option says; the `autoOn` flag follows the option only on acknowledgement |
| `Session.SetLightDisabled` | indi/indi-dlc-src/darklight_covercalibrator.cpp:1120-1134 | `lightDisabled` follows the option; nothing else changes |
| `Session.SetAutoHeatOn` | indi/indi-dlc-src/darklight_covercalibrator.cpp:1326-1374 | enabling clears heat-on-close before sending, whatever the outcome; the auto flag follows only an acknowledgement; the modes stay exclusive |
| `Session.SetHeatOnClose` | indi/indi-dlc-src/darklight_covercalibrator.cpp:1376-1424 | enabling clears auto-heat before sending, whatever the outcome; the heat-on-close flag follows only an acknowledgement; the modes stay exclusive |
| `Session.Handshake` | indi/indi-dlc-src/darklight_covercalibrator.cpp:770-805 | a closed port is refused without traffic; otherwise `Z` is sent, and the link is accepted exactly when the reply is acknowledged and starts with `?` |
| `Session.HandshakeWithAnsweringDevice` | indi/indi-dlc-src/darklight_covercalibrator.cpp:786-804 | a device answering `?` at once is accepted after one frame |
| `Session.HandshakeWithSilentDevice` | indi/indi-dlc-src/darklight_covercalibrator.cpp:792-796 | a silent device is refused after three frames |
| `Commands.AfterOpen` | indi/indi-dlc-src/darklight_covercalibrator.cpp:230-235 | unless the panel shows Not Present or Off, the step is the panel and brightness queries with their replies applied; otherwise nothing happens; only panel fields change |
| `Commands.OpenCover` | indi/indi-dlc-src/darklight_covercalibrator.cpp:221-242 | `O` is sent first; a failure changes nothing; an acknowledgement marks the cover moving and keeps the cover text and heater modes |
| `Commands.CloseCover` | indi/indi-dlc-src/darklight_covercalibrator.cpp:243-262 | `C` is sent; an acknowledgement marks the cover moving and, with auto-on, the light not ready; a failure changes nothing |
| `Commands.HaltCover` | indi/indi-dlc-src/darklight_covercalibrator.cpp:263-277 | `H` is sent; an acknowledgement marks the cover moving; a failure changes nothing |
| `Commands.MoveTo` | indi/indi-dlc-src/darklight_covercalibrator.cpp:213-291 | nothing is sent unless connected and the move is allowed: Open unless Open or Moving, Close unless Closed or Moving, Halt only while Moving; an allowed move is exactly the Open, Close or Halt handler's step |
| `Commands.TurnLight` | indi/indi-dlc-src/darklight_covercalibrator.cpp:294-364 | On, when permitted and the panel shows Off, sends `T` with the maximum brightness, carries that exchange's frames and outcomes, and clears `lightIsReady` only on acknowledgement; when not permitted, the switch reverts to Off with no traffic; Off sends `F` unless the panel shows Off, and an acknowledgement shows Off at brightness 0 |
| `Commands.DisabledLightFollowsCover` | indi/indi-dlc-src/darklight_covercalibrator.cpp:303-328 | with the light disabled, light-on puts no byte on the wire while the cover is open, and sends `T<max>` once it is closed with the panel Off |
| `Commands.GoToValue` | indi/indi-dlc-src/darklight_covercalibrator.cpp:367-412 | when connected and permitted, sets the brightness and shows the switch On; otherwise nothing happens |
| `Commands.AdjustValue` | indi/indi-dlc-src/darklight_covercalibrator.cpp:415-458 | a step is sent only while the switch is On and only when the result stays within [1, max], and then it is sent |
| `Commands.GoToSaved` | indi/indi-dlc-src/darklight_covercalibrator.cpp:461-510 | while the switch is On, asks for the preset with `GB` or `GN` and sets the brightness to a numeric reply; a failure or an unreadable reply does nothing further |
| `Commands.SetToSaved` | indi/indi-dlc-src/darklight_covercalibrator.cpp:513-556 | while the switch is On, sends `DB` or `DN`; the session state never changes |
| `Commands.StabilizeTimeUpdate` | indi/indi-dlc-src/darklight_covercalibrator.cpp:559-576 | the new time is kept; when connected it is sent as `S` and its decimal text, with that exchange's frames and outcomes; when not connected no outcome is consumed |
| `Commands.AutoOnUpdate` | indi/indi-dlc-src/darklight_covercalibrator.cpp:579-596 | the option is kept; when connected `A` or `a` is sent and the flag follows an acknowledgement; nothing else changes |
| `Commands.DisableLightUpdate` | indi/indi-dlc-src/darklight_covercalibrator.cpp:598-611 | the option is kept; the flag follows it only when connected |
| `Commands.AutoHeatOnUpdate` | indi/indi-dlc-src/darklight_covercalibrator.cpp:718-736 | when connected, `Q` or `q` is sent and the heat mode is marked changing whatever the outcome; enabling clears heat-on-close, as flag and as option; only the options and the heat-mode flags change; exclusivity is kept |
| `Commands.HeatOnCloseUpdate` | indi/indi-dlc-src/darklight_covercalibrator.cpp:739-757 | when connected, `E` or `e` is sent and the heat mode is marked changing whatever the outcome; enabling clears auto-heat, as flag and as option; only the options and the heat-mode flags change; exclusivity is kept |
| `Commands.AckedModes` | indi/indi-dlc-src/darklight_covercalibrator.cpp:650-707 | an acknowledged `Q` or `E` turns its mode on and the other off; `q` or `e` clears only its own mode |
| `Commands.HeaterCommand` | indi/indi-dlc-src/darklight_covercalibrator.cpp:620-708 | a mode flag is raised only by an acknowledged `Q` or `E` under the matching switch; exclusivity is kept; only the flags change |
| `Commands.TurnHeater` | indi/indi-dlc-src/darklight_covercalibrator.cpp:614-715 | when connected, the command for the switch (if any) is followed by `R`, and the result is the heater reply applied after the command's effect, with both exchanges' frames on the wire in order; On is never sent while the heater shows On or Error; exclusivity is kept, and a flag rises only on acknowledgement |
| `Commands.HeaterModeToggles` | indi/indi-dlc-src/darklight_covercalibrator.cpp:650-709 | an acknowledged Auto or Heat-on-close selection toggles its mode, enabling one mode clears the other, and the heater refresh after it keeps the modes |
| `Poller.RefreshPanel` | indi/indi-dlc-src/darklight_covercalibrator.cpp:1022-1036 | applies the `L` reply; exactly when the panel then is not Ready, also applies the `B` reply and shows the switch On, with both exchanges' frames on the wire in order; only panel fields change |
| `Poller.CoverStage` | indi/indi-dlc-src/darklight_covercalibrator.cpp:1014-1018 | exactly when the cover is due, `P` is sent and its reply applied; otherwise nothing happens; only the cover fields change |
| `Poller.PanelStage` | indi/indi-dlc-src/darklight_covercalibrator.cpp:1020-1036 | exactly when the cover text from the start of the cycle is not Not Present and the light is not ready, the panel is refreshed with its replies applied; otherwise nothing happens |
| `Poller.HeaterStage` | indi/indi-dlc-src/darklight_covercalibrator.cpp:1038-1044 | exactly when the heater is due, `R` is sent and its reply applied; otherwise nothing happens; only heater fields change |
| `Poller.MainValues` | indi/indi-dlc-src/darklight_covercalibrator.cpp:1011-1047 | the cover, panel and heater stages run in order, each on the outcomes the previous left, with their codes and frames concatenated and the last stage's state as the result; a due cover query's reply is what the cover shows afterwards; a settled session sees no traffic; the heater modes, options and max are untouched |
| `Poller.RefreshConditions` | indi/indi-dlc-src/darklight_covercalibrator.cpp:1015-1044 | `P` iff the cover is due, `L` iff the panel is due, `B` only then, `R` iff the heater is due, at most four commands |
| `Poller.QuietRepliesSettle` | indi/indi-dlc-src/darklight_covercalibrator.cpp:1011-1047 | a cycle reading Closed, Ready and Off leaves the session settled, and the next cycle issues nothing |
| `Poller.TimerHit` | indi/indi-dlc-src/darklight_covercalibrator.cpp:1049-1058 | a refresh cycle runs exactly when connected |
| `Driver.Handle` | indi/indi-dlc-src/darklight_covercalibrator.cpp:213-757 | every code a handler issues is in the device's command set and every frame is one of them; max never changes |
| `Driver.HandleKeepsConsistent` | indi/indi-dlc-src/darklight_covercalibrator.cpp:213-757 | no request leaves both heater modes on or the brightness outside [0, max] |
| `Driver.InitialConsistent` | indi/indi-dlc-src/darklight_covercalibrator.cpp:51-52 | a new session starts with the heater modes exclusive and the brightness within [0, max] |
| `Driver.Serve` | indi/indi-dlc-src/darklight_covercalibrator.cpp:213-757 | over any run of requests, every frame on the wire frames a known command |
| `Driver.ServeKeepsConsistent` | indi/indi-dlc-src/darklight_covercalibrator.cpp:213-757 | over any run of requests, the heater modes stay exclusive and the brightness stays in [0, max] |

## Quirks of the driver kept in the model

All line numbers refer to `indi/indi-dlc-src/darklight_covercalibrator.cpp`.

- `sendCommand` (lines 995-999): a read error re-sends the command without counting an
  attempt. A device that keeps producing read errors therefore keeps the loop running, and
  `serialMutex` (line 925) stays locked all the while. The model's outcome list is finite
  and ends in silence, so every modelled call terminates and such a run has no model.
- The handshake (line 798) compares only the first character of the reply with `?`.
- `setBrightness` (lines 1305-1311) sends any value as `T<n>` without comparing it with
  the maximum; only 0 is replaced, by the maximum.
- `setAutoHeatOn` and `setHeatOnClose` (lines 1335-1342 and 1385-1392): enabling one heat
  mode clears the other before `Q` or `E` is sent, and the clearing stands even when the
  send fails.
- `mainValues` (line 1015) queries the cover only while `coverIsMoving` is set and the
  cover text is not Not Present.
- `mainValues` (lines 1014 and 1022) decides the panel refresh from the cover text, not
  the panel text. That text is the copy taken at line 1014, before this cycle's cover
  query.
- Heat-On (line 623) sends nothing while the heater text shows On or Error.
- `getCoverState` (lines 1167-1170): a Closed reply with `autoOn` set only logs; no
  brightness command follows.
- Halt (line 270): an acknowledged `H` sets `coverIsMoving`, so polling continues until
  the device reports where the cover stopped.
- `getBrightness` (line 1280) ignores replies longer than three characters, so a
  brightness of 1000 or more is never read back.

## Left out

- Byte-level serial I/O is abstracted into the sequence of attempt outcomes. This covers
  `tcflush`, `tty_write_string`, `select` with its 5 s timeout, and `tty_read_section`.
  When the outcomes run out, the device counts as silent, so every further attempt is a
  timeout.
- A run of read errors that never ends is not modelled: the outcome list is finite, so
  every modelled `sendCommand` returns.
- The `serialMutex` lock, and the re-arming of the poll timer in `TimerHit`, are left out:
  both are about concurrency and scheduling.
- INDI property plumbing is left out: definitions, `apply`, property states, the reset of
  the momentary switches, snooping, `saveConfig`, loading of saved options, and logging.
- `updateProperties` is left out, including the `M` query for the maximum brightness. The
  maximum is a parameter of `Session.Initial`.
- The connection lifecycle is left out: `connected` and `portOpen` are fields of the
  session.
- Brightness.Decode: only digit strings are read. `std::stoi` also reads a numeric prefix,
  a sign or leading blanks, and it throws on a reply with no number at all. Such replies
  leave the brightness unchanged in the model.
- Commands.GoToSaved: only digit strings are read. Fractions read by `std::stod` and the
  truncation to `int` in `setBrightness` are not modelled. Any other reply does nothing
  further, whereas the source would throw or truncate.
- Session.SetBrightness: the value is a natural number. Fractional values and the
  `static_cast<int>` truncation are not modelled.
- Session.SetStabilizeTime: the value is a natural number. Fractional values and the
  `static_cast<int>` truncation are not modelled.
- The fixed 8-byte response buffers and `strcpy` overflow are not modelled; the payload
  is as long as the read section. The same goes for `strlen` stopping at an embedded NUL.
- A read section shorter than two bytes yields the empty payload here. The source's copy
  then depends on the buffer's earlier contents.
