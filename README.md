# HoyControl price-block controller, modelled in Dafny

HoyControl switches Hoymiles solar micro-inverters on and off according to
day-ahead electricity prices. In each pass of its main loop it waits for
daylight, takes today's hourly prices and finds the current "price block":
the run of hours, starting at the current hour, whose price plus a margin
keeps one sign. It then sends every registered inverter whose login succeeds
the matching command (6 = enable on a positive block, 7 = disable on a
negative one), and polls the inverter cloud up to 60 times for each command's
acknowledgement. Finally it sleeps: until the hour after the block ends,
which may be several hours away, when every inverter succeeded; 15 minutes
when one failed; 5 minutes when prices or the current hour's sample were
missing; and until sunrise at night.

This project models that decision logic of `hoycontrol.py` and proves what it
promises. Prices are whole EUR/MWh and the margin is 10 EUR/MWh (the code's
0.01 EUR/kWh). Hours are whole hours since the epoch; clock readings are
whole seconds since the epoch, and the hour of a reading is the reading
divided by 3600, rounded down. The price feed, the inverter cloud, the
daylight test and the credentials file are inputs.

Modules, one per component of the program:

- `PriceFeed` (`price_feed.dfy`): samples, the sign rule with margin, and the
  price document after XML parsing, with the rule that point `position` of a
  period starting at hour `start` applies to hour `start + position - 1`.
- `BlockDetector` (`block_detector.dfy`): `FindCurrentPriceBlock`, a loop
  that builds the block's list of hours as the code does, proved equal to the
  reference function `CurrentBlock`, whose contract states the block's
  properties (uniform sign, maximal, at least one hour, inside the series).
- `InverterRegistry` (`inverter_registry.dfy`): the row filter of the
  credentials file.
- `DeviceController` (`device_controller.dfy`): login, command and the
  bounded status poll as outcomes of the cloud's replies; the device loop
  records every request it makes as a `Call`. The cloud's replies are given
  per registry position; positions past the given replies find the cloud
  unreachable.
- `ControlLoop` (`control_loop.dfy`): one pass of the main loop, from the
  daylight test to the choice of the pause.
- `Wrappers` (`wrappers.dfy`): the `Option` type.

Two behaviours of the code worth stating, both proved:

- A price of exactly -10 EUR/MWh is positive (`price + margin >= 0`). So for
  the hours -20, -10, +30 EUR/MWh at hour 1, the block is positive, two hours
  long and ends at hour 2 (`BlockDetector.BoundaryScenario`); it is not a
  negative block of one hour.
- The main loop retries when the block has no sign or a length of zero; the
  second case cannot occur, because the detector returns a length of zero
  only when no sample has the current hour (`ControlLoop.Iterate`).

## Model

| member | source | states |
|---|---|---|
| `PriceFeed.SignWithMargin` | hoycontrol.py:117-118 | a price is positive exactly when price plus margin is at least zero (so a price equal to minus the margin is positive), and that is the sign of the same sum converted from EUR/MWh to EUR/kWh |
| `PriceFeed.Classify` | hoycontrol.py:104-118 | an integer price in EUR/MWh is positive exactly when, over exact reals, `price / 1000 + 0.01 >= 0`: the code's EUR/kWh test with its 0.01 margin |
| `PriceFeed.MarginMonotone` | hoycontrol.py:117-122 | raising the margin never adds an hour to the set of hours classified negative |
| `PriceFeed.DocumentSamples` | hoycontrol.py:95-104 | the parsed series has exactly one sample per point of the document |
| `PriceFeed.SingleSeriesDocument` | hoycontrol.py:100-104 | a document of one time series yields that series' samples, one per point in point order |
| `PriceFeed.ParsedPointHour` | hoycontrol.py:100-104 | point `m` of time series `j` is the sample at index (points of earlier series) + `m`, with hour `start + position - 1` and the point's price |
| `PriceFeed.DocumentSamplesAppend` | hoycontrol.py:95-106 | the samples keep document order: a document split in two yields the first part's samples followed by the second's |
| `PriceFeed.DocumentSampleOrigin` | hoycontrol.py:95-104 | every parsed sample is the sample of some point of some time series, with that point's hour rule and price |
| `PriceFeed.NumberedSeriesIsConsecutive` | hoycontrol.py:100-103 | a period whose points are numbered 1, 2, 3, ... yields consecutive hours starting at the period start |
| `PriceFeed.ParsePrices` | hoycontrol.py:85-109 | a failed fetch or parse yields the empty series; otherwise the samples of all points of all time series, in document order |
| `BlockDetector.FindIndex` | hoycontrol.py:113 | returns the FIRST index whose hour equals `now` exactly, and `None` exactly when no sample has that hour |
| `BlockDetector.RunLength` | hoycontrol.py:121-125 | counts the samples from an index on that keep one sign: they stay inside the series, all have that sign, and the next sample (if any) has the other sign |
| `BlockDetector.CurrentBlock` | hoycontrol.py:111-127 | without a sample for `now`: `(None, 0, now)`; otherwise the sign of the current sample, a length of at least one inside the series, uniform sign across the block, a differing sign right after it, and `lastHour` the hour of the block's last sample |
| `BlockDetector.BlockIsUnique` | hoycontrol.py:117-127 | those block properties admit only one block, so they determine the detector's answer |
| `BlockDetector.UndeterminedIsDistinct` | hoycontrol.py:114-115 | the result is `(None, 0, now)` exactly when no sample has the current hour, and a result has a sign exactly when its length is at least one |
| `BlockDetector.BlockEndsAfterItsLength` | hoycontrol.py:127 | on consecutive hours the block's last hour is `now + length - 1`, never before `now` |
| `BlockDetector.FindCurrentPriceBlock` | hoycontrol.py:111-127 | the loop that appends the block's hours until the sign changes returns exactly `CurrentBlock` |
| `BlockDetector.BoundaryScenario` | hoycontrol.py:117-125 | hours -20, -10, +30 at hour 1: positive block, two hours, last hour 2 |
| `BlockDetector.NegativeScenario` | hoycontrol.py:117-125 | hours -11, -10 at hour 5: negative block of one hour ending at hour 5 |
| `InverterRegistry.DataRows` | hoycontrol.py:186 | the rows after the first (none for an empty file), in order |
| `InverterRegistry.InvertersOf` | hoycontrol.py:187-197 | the inverters of the rows of five fields, in row order; never more inverters than rows |
| `InverterRegistry.InverterOfRow` | hoycontrol.py:191-197 | fields 0-4 of a row become e-mail, user name, password, DTU serial and inverter serial |
| `InverterRegistry.InvertersOfAppend` | hoycontrol.py:187-197 | the filter keeps row order: two stretches of rows give the first's inverters followed by the second's |
| `InverterRegistry.InvertersOfExactlyWellFormedRows` | hoycontrol.py:188-197 | every inverter comes from a row of exactly five fields, and every such row yields its inverter |
| `InverterRegistry.AllRowsWellFormed` | hoycontrol.py:191-197 | when all rows have five fields, inverter k is row k with fields 0-4 as e-mail, user name, password, DTU serial, inverter serial |
| `InverterRegistry.LoadInverters` | hoycontrol.py:182-198 | the loop skips the first row and returns the inverters of the remaining rows, never more than there are rows |
| `DeviceController.LoginToken` | hoycontrol.py:129-142 | interprets a login reply: a token exactly when the cloud answered with status "0", and then the token it sent (which `DeviceCallsUseOwnReplies` shows is the one later requests carry) |
| `DeviceController.IssuedCommandId` | hoycontrol.py:144-161 | interprets a command reply: an id exactly when the cloud answered with status "0", and then the id it sent (which `DeviceCallsUseOwnReplies` shows is the one the polls carry) |
| `DeviceController.Present` | hoycontrol.py:246-250 | Python's truth test on a token or id: present unless `None` or empty |
| `DeviceController.Acknowledges` | hoycontrol.py:173 | a status reply acknowledges when its status is "0" and its code is 0; an unreachable cloud or a missing code does not |
| `DeviceController.AckFrom` | hoycontrol.py:168-175 | the first attempt within the 60-attempt budget whose reply has status "0" and code 0, or `None` when no attempt in the budget has one |
| `DeviceController.CheckStatus` | hoycontrol.py:163-180 | between 1 and 60 attempts; success exactly when some attempt within 60 acknowledges; it stops at the first acknowledgement; a failure has spent all 60 |
| `DeviceController.DeviceOutcome` | hoycontrol.py:245-255 | an acknowledged inverter was acknowledged at its last attempt, within 60, and by none before; an exhausted one had no acknowledgement in all 60 |
| `DeviceController.DeviceFailed` | hoycontrol.py:245-255 | an inverter fails exactly when its login gave no token, its command gave no id, or none of its 60 polls acknowledged |
| `DeviceController.DeviceCalls` | hoycontrol.py:245-255 | an inverter's requests start with its login and number at most 62 |
| `DeviceController.AllCalls` | hoycontrol.py:243-256 | the requests for all inverters, one inverter after the other: at least one per inverter |
| `DeviceController.LoginGatesCommand` | hoycontrol.py:245-249 | the command is sent exactly when the login gave a token; a failed login makes the login request alone |
| `DeviceController.CommandGatesPolling` | hoycontrol.py:249-255 | the status is polled exactly when both a token and a command id were obtained; at most 62 requests per inverter |
| `DeviceController.DeviceCallsUseOwnReplies` | hoycontrol.py:245-251 | an inverter's command carries the token of its own login, its own serials and the pass's action; its polls carry that token and its own command's id |
| `DeviceController.AllCallsCarryAction` | hoycontrol.py:243-249 | every command sent in a pass, to any inverter, carries that pass's action |
| `DeviceController.EveryInverterLogsIn` | hoycontrol.py:243-256 | every inverter gets exactly one login, in registry order, whatever happened to the ones before it |
| `DeviceController.DriveInverter` | hoycontrol.py:245-255 | one inverter's protocol fails exactly as `DeviceFailed` says and makes exactly the requests of `DeviceCalls` |
| `DeviceController.DriveInverters` | hoycontrol.py:241-256 | `any_failure` holds exactly when some inverter failed login, got no command id, or exhausted polling; the requests made are those of each inverter in turn |
| `ControlLoop.HourOf` | hoycontrol.py:112 | the current hour is the clock reading with minutes and seconds dropped |
| `ControlLoop.ActionFor` | hoycontrol.py:238 | the sign-to-action mapping: 6 exactly for a positive block and 7 exactly for a negative one (its use on every command is `CommandsCarryBlockSign`) |
| `ControlLoop.CommandsCarryBlockSign` | hoycontrol.py:238-249 | in a pass every command sent enables (6) exactly when the block is positive and disables (7) exactly when it is negative |
| `ControlLoop.Determined` | hoycontrol.py:233 | the loop acts on a block only when it has a sign and a non-zero length |
| `ControlLoop.SleepSeconds` | hoycontrol.py:258-266 | 900 s after a failure, whatever the block; otherwise a pause that is never negative and wakes at the hour after the block's last hour, or no pause once that moment has passed |
| `ControlLoop.Iterate` | hoycontrol.py:219-266 | at night: wait for sunrise; empty prices: retry in 300 s; no sample for the hour: retry in 300 s with no inverter contacted (and only then); otherwise the block's action through the device loop to the registered inverters (a command only to those whose login gave a token), and the pause of `SleepSeconds` |
| `ControlLoop.SuccessWakesAfterBlock` | hoycontrol.py:262-266 | after an all-success pass on consecutive hours, still inside the block, the loop wakes exactly when the first hour after the block begins, after a positive pause |

## Left out

- HTTP: the session, its retry adapter and headers (hoycontrol.py:51-65), and the requests themselves; the model takes the replies as values.
- XML parsing, `strptime` and the UTC-to-local conversion of the period start (hoycontrol.py:92-99): the model takes the parsed document, one period per time series (the code reads only the first `Period` of each), with `None` for any fetch or parse failure.
- Float prices and the division by 1000 (hoycontrol.py:104): prices are whole EUR/MWh, so fractional prices and float rounding are not modelled.
- Sunrise and sunset (`is_daylight`, `wait_until_sunrise`, hoycontrol.py:200-217): daylight is a boolean input, and the length of the wait for sunrise is not modelled.
- Time zones and `datetime.now`: clock readings are inputs; whole-hour UTC offsets are assumed, so the local hour boundary is a multiple of 3600 s, and sub-second parts of the pause are dropped.
- `time.sleep` calls (the 1 s between polls, the 1.5 s between inverters, the pauses themselves): the pauses are returned as values, not performed.
- Logging and its rotation.
- Reading and CSV-parsing the credentials file: the rows are given as sequences of fields.
- The endless `while True` loop: one pass is modelled; a run is a sequence of passes with fresh inputs.
- Interrupt and uncaught-exception handling (hoycontrol.py:268-279), including the crash when a successful login reply has no token field: only the documented reply shapes are modelled.
- Command ids are strings; a numeric id of 0, which the code would also treat as absent, is not represented.
- Replies the model is not given (poll attempts past the given status replies, inverters past the given cloud replies) count as an unreachable cloud.
