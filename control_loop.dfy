/**
 * One pass of the controller's main loop: wait for daylight, take the day's
 * prices, find the current price block, drive every inverter with the
 * block's action, and choose how long to sleep before the next pass.
 *
 * The clock is read twice in a pass, once when the block is detected and
 * once before sleeping, after the inverters have been driven; both readings
 * are inputs, in seconds since the epoch.
 */
module ControlLoop {
  import opened Wrappers
  import opened PriceFeed
  import opened BlockDetector
  import opened InverterRegistry
  import opened DeviceController

  /** Pause before retrying after missing prices or an undetermined block (5 minutes). */
  const RetrySeconds: nat := 300

  /** Pause after a pass in which some inverter failed (15 minutes). */
  const DegradedBackoffSeconds: nat := 900

  const SecondsPerHour: nat := 3600

  /** The hour a clock reading falls in: the reading with minutes and seconds dropped. */
  function HourOf(clock: int): (h: int)
    ensures h * SecondsPerHour <= clock < (h + 1) * SecondsPerHour
  {
    clock / SecondsPerHour
  }

  /** The command that goes with a block's sign: enable on a positive block, disable on a negative one. */
  function ActionFor(s: Sign): (code: int)
    ensures code == EnableCode <==> s.Positive?
    ensures code == DisableCode <==> s.Negative?
  {
    match s
    case Positive => EnableCode
    case Negative => DisableCode
  }

  /**
   * The pause at the end of a pass that drove the inverters: the fixed
   * backoff when one failed; otherwise until the hour after the block's last
   * hour begins, or no pause at all when that moment has already passed.
   */
  function SleepSeconds(anyFailure: bool, lastHour: int, clock: int): (r: nat)
    ensures anyFailure ==> r == DegradedBackoffSeconds
    ensures !anyFailure ==> clock + r >= (lastHour + 1) * SecondsPerHour
    ensures !anyFailure && r > 0 ==> clock + r == (lastHour + 1) * SecondsPerHour
  {
    if anyFailure then DegradedBackoffSeconds
    else
      var wait := (lastHour + 1) * SecondsPerHour - clock;
      if wait > 0 then wait else 0
  }

  /** The main loop acts on a block only when it has a sign and a length. */
  predicate Determined(b: PriceBlock)
  {
    b.sign.Some? && b.length != 0
  }

  datatype RetryReason = NoPrices | NoBlock

  /** What a pass decided. */
  datatype Decision =
    | AwaitSunrise
    | Retry(reason: RetryReason, seconds: nat)
    | Commanded(block: PriceBlock, action: int, calls: seq<Call>, anyFailure: bool, seconds: nat)

  /**
   * One pass of the main loop. At night it only waits for sunrise. Without
   * prices, or without a sample for the current hour, it retries after the
   * retry pause and contacts no inverter. Otherwise it drives every
   * registered inverter with the block's action and sleeps as
   * `SleepSeconds` says.
   */
  method Iterate(daylight: bool, prices: seq<Sample>, clockAtDetect: int, rows: seq<seq<string>>,
                 cloud: seq<CloudReplies>, clockAtSleep: int)
    returns (d: Decision)
    ensures !daylight ==> d == AwaitSunrise
    ensures daylight && prices == [] ==> d == Retry(NoPrices, RetrySeconds)
    ensures daylight && prices != [] && !Determined(CurrentBlock(prices, HourOf(clockAtDetect)))
      ==> d == Retry(NoBlock, RetrySeconds)
    ensures d == Retry(NoBlock, RetrySeconds)
      <==> daylight && prices != [] && forall k :: 0 <= k < |prices| ==> prices[k].hour != HourOf(clockAtDetect)
    ensures daylight && Determined(CurrentBlock(prices, HourOf(clockAtDetect))) ==>
      var block := CurrentBlock(prices, HourOf(clockAtDetect));
      var inverters := InvertersOf(DataRows(rows));
      var action := ActionFor(block.sign.value);
      var anyFailure := exists k :: 0 <= k < |inverters| && DeviceFailed(RepliesFor(cloud, k));
      d == Commanded(block, action, AllCalls(inverters, cloud, action), anyFailure,
                     SleepSeconds(anyFailure, block.lastHour, clockAtSleep))
  {
    if !daylight {
      return AwaitSunrise;
    }
    if prices == [] {
      return Retry(NoPrices, RetrySeconds);
    }
    var block := FindCurrentPriceBlock(prices, HourOf(clockAtDetect));
    if block.sign.None? || block.length == 0 {
      return Retry(NoBlock, RetrySeconds);
    }
    var action := ActionFor(block.sign.value);
    var inverters := LoadInverters(rows);
    var anyFailure, calls := DriveInverters(inverters, cloud, action);
    var seconds := SleepSeconds(anyFailure, block.lastHour, clockAtSleep);
    return Commanded(block, action, calls, anyFailure, seconds);
  }

  /**
   * When every inverter succeeded on a series of consecutive hours and the
   * pass is still inside the block, the loop wakes exactly when the first
   * hour after the block begins, after a pause that is never zero.
   */
  lemma SuccessWakesAfterBlock(prices: seq<Sample>, clockAtDetect: int, clockAtSleep: int)
    requires Consecutive(prices)
    requires Determined(CurrentBlock(prices, HourOf(clockAtDetect)))
    requires HourOf(clockAtSleep) <= CurrentBlock(prices, HourOf(clockAtDetect)).lastHour
    ensures var block := CurrentBlock(prices, HourOf(clockAtDetect));
      && clockAtSleep + SleepSeconds(false, block.lastHour, clockAtSleep)
         == (HourOf(clockAtDetect) + block.length) * SecondsPerHour
      && SleepSeconds(false, block.lastHour, clockAtSleep) > 0
  {
    var now := HourOf(clockAtDetect);
    UndeterminedIsDistinct(prices, now);
    BlockEndsAfterItsLength(prices, now);
  }

  /**
   * The commands of a pass follow the block's sign: on a positive block every
   * command sent enables (6), on a negative block every command disables (7).
   */
  lemma CommandsCarryBlockSign(s: Sign, inverters: seq<Inverter>, cloud: seq<CloudReplies>)
    ensures forall c :: c in AllCalls(inverters, cloud, ActionFor(s)) && c.ToggleCall? ==>
      (c.action == EnableCode <==> s == Positive) && (c.action == DisableCode <==> s == Negative)
  {
    AllCallsCarryAction(inverters, cloud, ActionFor(s));
  }
}
