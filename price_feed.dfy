/**
 * The day-ahead price series of the controller: hourly samples, the sign rule
 * with margin that decides whether an hour is worth producing in, and the
 * rule that gives each point of the price document its hour.
 *
 * Hours are whole hours since the epoch; prices are EUR/MWh as integers.
 * The controller's margin of 0.01 EUR/kWh is 10 EUR/MWh.
 */
module PriceFeed {
  import opened Wrappers

  /** One hourly price: the hour it applies to and its price in EUR/MWh. */
  datatype Sample = Sample(hour: int, price: int)

  /** The margin added to every price before it is classified (0.01 EUR/kWh). */
  const Margin: int := 10

  datatype Sign = Positive | Negative

  /**
   * Sign of `price + margin`, where zero counts as positive. Both are in
   * EUR/MWh; the sign is the same as that of the sum converted to EUR/kWh.
   */
  function SignWithMargin(price: int, margin: int): (s: Sign)
    ensures s == Positive <==> price >= -margin
    ensures s == Positive <==> (price as real) / 1000.0 + (margin as real) / 1000.0 >= 0.0
  {
    if price + margin >= 0 then Positive else Negative
  }

  /**
   * The classification the controller uses: a price in EUR/MWh is positive
   * exactly when the price in EUR/kWh plus 0.01 EUR/kWh is at least zero.
   */
  function Classify(price: int): (s: Sign)
    ensures s == Positive <==> (price as real) / 1000.0 + 0.01 >= 0.0
  {
    SignWithMargin(price, Margin)
  }

  /** The hours of `prices` that `margin` classifies as negative. */
  ghost function NegativeHours(prices: seq<Sample>, margin: int): set<int>
  {
    set k | 0 <= k < |prices| && SignWithMargin(prices[k].price, margin) == Negative :: prices[k].hour
  }

  /** A larger margin never classifies more hours as negative. */
  lemma MarginMonotone(prices: seq<Sample>, m1: int, m2: int)
    requires m1 <= m2
    ensures NegativeHours(prices, m2) <= NegativeHours(prices, m1)
  {
  }

  /** Consecutive samples are exactly one hour apart. */
  ghost predicate Consecutive(prices: seq<Sample>)
  {
    forall k :: 0 <= k < |prices| - 1 ==> prices[k + 1].hour == prices[k].hour + 1
  }

  /** In a consecutive series the hour grows by the distance in the series. */
  lemma {:induction false} ConsecutiveHours(prices: seq<Sample>, i: nat, j: nat)
    requires Consecutive(prices)
    requires i <= j < |prices|
    ensures prices[j].hour == prices[i].hour + (j - i)
    decreases j - i
  {
    if i < j {
      ConsecutiveHours(prices, i, j - 1);
      assert prices[j].hour == prices[j - 1].hour + 1;
    }
  }

  // ---------------------------------------------------------------------
  // The price document, after the XML has been read
  // ---------------------------------------------------------------------

  /** A `Point` of the document: its 1-based position and its price. */
  datatype Point = Point(position: int, price: int)

  /** A `TimeSeries` of the document: the start hour of its period and its points. */
  datatype TimeSeries = TimeSeries(start: int, points: seq<Point>)

  /** The hour a point applies to: the period start plus `position - 1` hours. */
  function PointHour(start: int, position: int): (h: int)
    ensures h - start == position - 1
  {
    start + (position - 1)
  }

  /** The samples of one time series, in the order of its points. */
  function SeriesSamples(ts: TimeSeries): (r: seq<Sample>)
    ensures |r| == |ts.points|
    ensures forall k :: 0 <= k < |r| ==>
      r[k] == Sample(ts.start + ts.points[k].position - 1, ts.points[k].price)
  {
    seq(|ts.points|, k requires 0 <= k < |ts.points| =>
      Sample(PointHour(ts.start, ts.points[k].position), ts.points[k].price))
  }

  /** The number of points in all time series of a document. */
  function TotalPoints(doc: seq<TimeSeries>): nat
  {
    if doc == [] then 0 else TotalPoints(doc[..|doc| - 1]) + |doc[|doc| - 1].points|
  }

  /** The samples of a whole document: its time series one after another, one sample per point. */
  function DocumentSamples(doc: seq<TimeSeries>): (r: seq<Sample>)
    ensures |r| == TotalPoints(doc)
  {
    if doc == [] then [] else DocumentSamples(doc[..|doc| - 1]) + SeriesSamples(doc[|doc| - 1])
  }

  /** A document of one time series yields exactly the samples of that series. */
  lemma SingleSeriesDocument(ts: TimeSeries)
    ensures DocumentSamples([ts]) == SeriesSamples(ts)
  {
  }

  /** The series of a document that splits in two is the two series one after the other. */
  lemma {:induction false} DocumentSamplesAppend(a: seq<TimeSeries>, b: seq<TimeSeries>)
    ensures DocumentSamples(a + b) == DocumentSamples(a) + DocumentSamples(b)
    decreases |b|
  {
    if b == [] {
      assert a + b == a;
    } else {
      var b', last := b[..|b| - 1], b[|b| - 1];
      assert (a + b)[..|a + b| - 1] == a + b';
      assert (a + b)[|a + b| - 1] == last;
      DocumentSamplesAppend(a, b');
      calc {
        DocumentSamples(a + b);
        DocumentSamples(a + b') + SeriesSamples(last);
        DocumentSamples(a) + DocumentSamples(b') + SeriesSamples(last);
        DocumentSamples(a) + DocumentSamples(b);
      }
    }
  }

  /**
   * The hour rule on the parsed output: point `m` of time series `j` becomes
   * the sample at index (points of the earlier series) + `m`, with hour
   * `start + position - 1` and the point's price.
   */
  lemma ParsedPointHour(doc: seq<TimeSeries>, j: nat, m: nat)
    requires j < |doc| && m < |doc[j].points|
    ensures TotalPoints(doc[..j]) + m < |DocumentSamples(doc)|
    ensures DocumentSamples(doc)[TotalPoints(doc[..j]) + m]
         == Sample(PointHour(doc[j].start, doc[j].points[m].position), doc[j].points[m].price)
  {
    SamplesAround(doc, j);
    assert |DocumentSamples(doc[..j])| == TotalPoints(doc[..j]);
  }

  /** The parsed output around time series `j`: the earlier series' samples, then its own, then the later ones'. */
  lemma SamplesAround(doc: seq<TimeSeries>, j: nat)
    requires j < |doc|
    ensures DocumentSamples(doc) == DocumentSamples(doc[..j]) + SeriesSamples(doc[j]) + DocumentSamples(doc[j + 1..])
  {
    SplitAround(doc, j);
    ThreePartSamples(doc[..j], doc[j], doc[j + 1..]);
  }

  lemma SplitAround(doc: seq<TimeSeries>, j: nat)
    requires j < |doc|
    ensures doc == doc[..j] + [doc[j]] + doc[j + 1..]
  {
  }

  lemma ThreePartSamples(front: seq<TimeSeries>, ts: TimeSeries, back: seq<TimeSeries>)
    ensures DocumentSamples(front + [ts] + back) == DocumentSamples(front) + SeriesSamples(ts) + DocumentSamples(back)
  {
    DocumentSamplesAppend(front + [ts], back);
    DocumentSamplesAppend(front, [ts]);
    SingleSeriesDocument(ts);
  }

  /** Every sample of a document comes from one point of one of its time series. */
  lemma {:induction false} DocumentSampleOrigin(doc: seq<TimeSeries>, k: nat)
    requires k < |DocumentSamples(doc)|
    ensures exists j, m ::
              && 0 <= j < |doc| && 0 <= m < |doc[j].points|
              && DocumentSamples(doc)[k] == Sample(doc[j].start + doc[j].points[m].position - 1, doc[j].points[m].price)
  {
    var n := |doc| - 1;
    var front := DocumentSamples(doc[..n]);
    if k < |front| {
      DocumentSampleOrigin(doc[..n], k);
      var j, m :| 0 <= j < n && 0 <= m < |doc[..n][j].points| &&
        front[k] == Sample(doc[..n][j].start + doc[..n][j].points[m].position - 1, doc[..n][j].points[m].price);
      assert doc[..n][j] == doc[j];
    } else {
      var m := k - |front|;
      assert DocumentSamples(doc)[k] == SeriesSamples(doc[n])[m];
    }
  }

  /** A time series whose points are numbered 1, 2, 3, ... yields consecutive hours from its start. */
  lemma NumberedSeriesIsConsecutive(ts: TimeSeries)
    requires forall k :: 0 <= k < |ts.points| ==> ts.points[k].position == k + 1
    ensures Consecutive(SeriesSamples(ts))
    ensures forall k :: 0 <= k < |ts.points| ==> SeriesSamples(ts)[k].hour == ts.start + k
  {
  }

  /**
   * The price fetch: `None` stands for any network, HTTP or parse failure,
   * which yields the empty series; otherwise the samples of every point of
   * every time series, collected in document order.
   */
  method ParsePrices(document: Option<seq<TimeSeries>>) returns (prices: seq<Sample>)
    ensures document.None? ==> prices == []
    ensures document.Some? ==> prices == DocumentSamples(document.value)
  {
    prices := [];
    if document.None? {
      return;
    }
    var doc := document.value;
    for j := 0 to |doc|
      invariant prices == DocumentSamples(doc[..j])
    {
      var ts := doc[j];
      ghost var before := prices;
      for m := 0 to |ts.points|
        invariant prices == before + SeriesSamples(TimeSeries(ts.start, ts.points[..m]))
      {
        var point := ts.points[m];
        prices := prices + [Sample(PointHour(ts.start, point.position), point.price)];
      }
      assert ts.points[..|ts.points|] == ts.points;
      assert doc[..j + 1][..j] == doc[..j];
    }
    assert doc[..|doc|] == doc;
  }
}
