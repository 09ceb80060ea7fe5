/**
 * The block detector: locate the sample of the current hour, classify its
 * price with the margin, and extend forward in series order while the
 * classification stays the same.
 */
module BlockDetector {
  import opened Wrappers
  import opened PriceFeed

  /**
   * What the detector returns: the block's sign (`None` when no sample has
   * the current hour), its length in hours and the hour of its last sample.
   */
  datatype PriceBlock = PriceBlock(sign: Option<Sign>, length: nat, lastHour: int)

  /** The undetermined result: no sign, no length, and `now` as the last hour. */
  function Undetermined(now: int): PriceBlock
  {
    PriceBlock(None, 0, now)
  }

  /** The index of the first sample whose hour is exactly `now`. */
  function FindIndex(prices: seq<Sample>, now: int): (r: Option<nat>)
    ensures r.None? <==> forall k :: 0 <= k < |prices| ==> prices[k].hour != now
    ensures r.Some? ==> r.value < |prices| && prices[r.value].hour == now
    ensures r.Some? ==> forall k :: 0 <= k < r.value ==> prices[k].hour != now
  {
    if prices == [] then None
    else if prices[0].hour == now then Some(0)
    else
      match FindIndex(prices[1..], now)
      case None => None
      case Some(i) => Some(i + 1)
  }

  /** How many samples from index `i` on, in series order, classify as `s`. */
  function RunLength(prices: seq<Sample>, i: nat, s: Sign): (n: nat)
    requires i <= |prices|
    ensures i + n <= |prices|
    ensures forall k :: i <= k < i + n ==> Classify(prices[k].price) == s
    ensures i + n < |prices| ==> Classify(prices[i + n].price) != s
    decreases |prices| - i
  {
    if i < |prices| && Classify(prices[i].price) == s then 1 + RunLength(prices, i + 1, s) else 0
  }

  /**
   * `b` is the block that starts at index `i`: it carries the sign of
   * `prices[i]`, it is at least one sample long and stays inside the series,
   * every sample in it has that sign, the sample after it (if any) has the
   * other sign, and `lastHour` is the hour of its last sample.
   */
  ghost predicate IsBlockAt(prices: seq<Sample>, i: nat, b: PriceBlock)
    requires i < |prices|
  {
    && b.sign == Some(Classify(prices[i].price))
    && 1 <= b.length && i + b.length <= |prices|
    && b.lastHour == prices[i + b.length - 1].hour
    && (forall k :: i <= k < i + b.length ==> Classify(prices[k].price) == b.sign.value)
    && (i + b.length < |prices| ==> Classify(prices[i + b.length].price) != b.sign.value)
  }

  /** The result the detector must produce for `prices` at hour `now`. */
  function CurrentBlock(prices: seq<Sample>, now: int): (b: PriceBlock)
    ensures FindIndex(prices, now).None? ==> b == Undetermined(now)
    ensures FindIndex(prices, now).Some? ==> IsBlockAt(prices, FindIndex(prices, now).value, b)
  {
    match FindIndex(prices, now)
    case None => Undetermined(now)
    case Some(i) =>
      var s := Classify(prices[i].price);
      var n := RunLength(prices, i, s);
      PriceBlock(Some(s), n, prices[i + n - 1].hour)
  }

  /** The conditions of `IsBlockAt` leave only one block: they determine the detector's answer. */
  lemma BlockIsUnique(prices: seq<Sample>, i: nat, b1: PriceBlock, b2: PriceBlock)
    requires i < |prices|
    requires IsBlockAt(prices, i, b1) && IsBlockAt(prices, i, b2)
    ensures b1 == b2
  {
  }

  /** Determined and undetermined results never coincide: a determined block has a sign and a length of at least one. */
  lemma UndeterminedIsDistinct(prices: seq<Sample>, now: int)
    ensures CurrentBlock(prices, now) == Undetermined(now) <==> FindIndex(prices, now).None?
    ensures CurrentBlock(prices, now).sign.Some? <==> CurrentBlock(prices, now).length >= 1
  {
  }

  /** In a series of consecutive hours the block covers the hours `now` to `now + length - 1`. */
  lemma BlockEndsAfterItsLength(prices: seq<Sample>, now: int)
    requires Consecutive(prices)
    requires FindIndex(prices, now).Some?
    ensures CurrentBlock(prices, now).lastHour == now + CurrentBlock(prices, now).length - 1
    ensures CurrentBlock(prices, now).lastHour >= now
  {
    var i := FindIndex(prices, now).value;
    var b := CurrentBlock(prices, now);
    ConsecutiveHours(prices, i, i + b.length - 1);
  }

  /**
   * The detector. It locates the current hour, then extends the block while
   * each later sample, in series order, keeps the sign of the first.
   */
  method FindCurrentPriceBlock(prices: seq<Sample>, now: int) returns (block: PriceBlock)
    ensures block == CurrentBlock(prices, now)
  {
    var found := FindIndex(prices, now);
    if found.None? {
      return Undetermined(now);
    }
    var i := found.value;
    var sign := Classify(prices[i].price);
    var blockHours := [prices[i].hour];
    var j := i + 1;
    while j < |prices|
      invariant i + 1 <= j <= |prices|
      invariant |blockHours| == j - i
      invariant RunLength(prices, i, sign) == (j - i) + RunLength(prices, j, sign)
    {
      if Classify(prices[j].price) == sign {
        blockHours := blockHours + [prices[j].hour];
        j := j + 1;
      } else {
        break;
      }
    }
    block := PriceBlock(Some(sign), |blockHours|, prices[i + |blockHours| - 1].hour);
  }

  /**
   * The boundary case of the margin: a price of exactly -10 EUR/MWh is
   * positive. At hour 1 of the series -20, -10, +30 the block is positive,
   * two hours long, and ends at hour 2.
   */
  lemma BoundaryScenario(prices: seq<Sample>)
    requires prices == [Sample(0, -20), Sample(1, -10), Sample(2, 30)]
    ensures CurrentBlock(prices, 1) == PriceBlock(Some(Positive), 2, 2)
  {
    assert FindIndex(prices[1..], 1) == Some(0);
    assert FindIndex(prices, 1) == Some(1);
    assert RunLength(prices, 1, Positive) == 2 by {
      assert Classify(prices[1].price) == Positive;
      assert Classify(prices[2].price) == Positive;
      assert RunLength(prices, 3, Positive) == 0;
      assert RunLength(prices, 2, Positive) == 1;
    }
  }

  /** Just below the boundary the sign flips: -11 is negative, and a block of one hour ends before the next sample. */
  lemma NegativeScenario(prices: seq<Sample>)
    requires prices == [Sample(5, -11), Sample(6, -10)]
    ensures CurrentBlock(prices, 5) == PriceBlock(Some(Negative), 1, 5)
  {
  }
}
