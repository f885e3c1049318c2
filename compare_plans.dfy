/**
 * The tariff side of the plan comparison (compare_plans.py): the price of an
 * hour under a flat or time-banded tariff, the banded lookup's wrap-around
 * rule, and the mapping of half-hour intervals onto hour keys when a day's
 * consumption is gathered. Prices and consumption figures are opaque.
 */
module ComparePlans {
  import opened Wrappers
  import opened PyBase

  /** `[start, end, price]`, the bounds as 'HHMM' text. */
  datatype Band<P> = Band(start: string, end: string, price: P)

  /** `kwh_incl`: one price, or a list of bands. */
  datatype Tariff<P> = Flat(price: P) | Banded(bands: seq<Band<P>>)

  datatype PriceError =
    | NoPriceFound      // Exception('no price found!')
    | BoundNotInteger   // int(entry[0]) or int(entry[1]) raised ValueError

  /** The test on the parsed bounds: an ordinary band is [start, end); a band
      with end <= start is meant to wrap past midnight, but the condition
      checks `end` on both sides. */
  predicate InBand(hour: int, start: int, end: int) {
    if end > start then start <= hour < end
    else (end <= hour <= 2400) || (0 <= hour < end)
  }

  /** A band's bounds after `int(entry[0])`, `int(entry[1])`; None when either raises. */
  datatype Bounds = Bounds(start: int, end: int)

  function BoundsOf<P>(b: Band<P>): Option<Bounds> {
    var start, end := ParseInt(b.start), ParseInt(b.end);
    if start.Some? && end.Some? then Some(Bounds(start.value, end.value)) else None
  }

  function AllBounds<P>(bands: seq<Band<P>>): seq<Option<Bounds>> {
    seq(|bands|, j requires 0 <= j < |bands| => BoundsOf(bands[j]))
  }

  predicate Hits(hour: int, b: Option<Bounds>)
    requires b.Some?
  {
    InBand(hour, b.value.start, b.value.end)
  }

  /** Index of the band that answers for `hour`, searching from index i. */
  function FirstMatch(hour: int, bounds: seq<Option<Bounds>>, i: nat): (r: Result<nat, PriceError>)
    requires i <= |bounds|
    ensures r.Ok? ==> i <= r.value < |bounds|
    decreases |bounds| - i
  {
    if i == |bounds| then Err(NoPriceFound)
    else if bounds[i].None? then Err(BoundNotInteger)
    else if Hits(hour, bounds[i]) then Ok(i)
    else FirstMatch(hour, bounds, i + 1)
  }

  /** First match wins: the answer is the first band that matches, every band
      before it having parsed and not matched; no price means every band
      parsed and none matched; a bound error means a band failed to parse
      before any band matched. */
  lemma {:induction false} FirstMatchIsFirst(hour: int, bounds: seq<Option<Bounds>>, i: nat)
    requires i <= |bounds|
    ensures var r := FirstMatch(hour, bounds, i);
      && (r.Ok? ==> bounds[r.value].Some? && Hits(hour, bounds[r.value]))
      && (r.Ok? ==> forall j :: i <= j < r.value ==> bounds[j].Some? && !Hits(hour, bounds[j]))
      && (r == Err(NoPriceFound) <==> forall j :: i <= j < |bounds| ==> bounds[j].Some? && !Hits(hour, bounds[j]))
      && (r == Err(BoundNotInteger) ==>
            exists k :: i <= k < |bounds| && bounds[k].None?
                        && forall j :: i <= j < k ==> bounds[j].Some? && !Hits(hour, bounds[j]))
    decreases |bounds| - i
  {
    if i < |bounds| && bounds[i].Some? && !Hits(hour, bounds[i]) {
      FirstMatchIsFirst(hour, bounds, i + 1);
    }
  }

  /** `get_price(hour, data)` as a value. */
  function PriceOf<P>(hour: int, tariff: Tariff<P>): Result<P, PriceError> {
    match tariff
    case Flat(p) => Ok(p)
    case Banded(bands) =>
      match FirstMatch(hour, AllBounds(bands), 0)
      case Ok(i) => Ok(bands[i].price)
      case Err(e) => Err(e)
  }

  /** `get_price(hour, data)`: the loop with its early returns. */
  method GetPrice<P>(hour: int, tariff: Tariff<P>) returns (r: Result<P, PriceError>)
    ensures r == PriceOf(hour, tariff)
    ensures tariff.Flat? ==> r == Ok(tariff.price)
  {
    if tariff.Flat? {
      return Ok(tariff.price);
    }
    var bands := tariff.bands;
    ghost var bounds := AllBounds(bands);
    for i := 0 to |bands|
      invariant FirstMatch(hour, bounds, 0) == FirstMatch(hour, bounds, i)
    {
      var start := ParseInt(bands[i].start);
      var end := ParseInt(bands[i].end);
      if start.None? || end.None? {
        return Err(BoundNotInteger);
      }
      if end.value > start.value {
        if hour >= start.value && hour < end.value {
          return Ok(bands[i].price);
        }
      } else {
        if (hour >= end.value && hour <= 2400) || (hour >= 0 && hour < end.value) {
          return Ok(bands[i].price);
        }
      }
    }
    r := Err(NoPriceFound);
  }

  /** The wrap-around condition ignores `start`: such a band matches every
      hour from 0 to 2400, so it can only be reached by hours no earlier band
      claims. */
  lemma WrapBandMatchesWholeDay(hour: int, start: int, end: int)
    requires end <= start && 0 <= hour <= 2400
    ensures InBand(hour, start, end)
    ensures forall s :: s >= end ==> InBand(hour, s, end)
  {
  }

  // ------------------------------------------------------------- hour keys

  /** Python's `int()` of a float: truncation toward zero. */
  function Trunc(x: real): int {
    if x >= 0.0 then x.Floor else -((-x).Floor)
  }

  /** `int((((interval - 1) * 30) / 60) * 100)`, with `/` true division. For
      the intervals the loop visits every intermediate value is exact in
      binary floating point, so it is computed here over the reals. */
  function HourKey(interval: int): int {
    Trunc(((interval - 1) * 30) as real / 60.0 * 100.0)
  }

  /** The hour keys 0, 100, ..., 2300. */
  function HourKeys(): set<int> {
    KeysBelow(2400)
  }

  /** The whole hours, as hour keys, below n. */
  function KeysBelow(n: int): set<int> {
    set h: int | 0 <= h < n && h % 100 == 0
  }

  /** Each whole hour k adds exactly its own hour key 100 * k. */
  lemma KeysBelowStep(k: nat)
    ensures KeysBelow(100 * (k + 1)) == KeysBelow(100 * k) + {100 * k}
  {
    var after, before := KeysBelow(100 * (k + 1)), KeysBelow(100 * k);
    forall h | h in after
      ensures h in before || h == 100 * k
    {
      var q := h / 100;
      assert h == 100 * q;
    }
  }

  /** `range(1, 48, 2)` visits the intervals 2k + 1 for k in 0..23; interval
      2k + 1 lands on hour key 100k, so the 24 keys are distinct and are
      exactly 0, 100, ..., 2300, and the interval is recovered from its key. */
  lemma HourKeyOfOddInterval(interval: int, k: int)
    requires 0 <= k <= 23 && interval == 2 * k + 1
    ensures HourKey(interval) == 100 * k
    ensures HourKey(interval) in HourKeys()
    ensures HourKey(interval) / 50 + 1 == interval
  {
    assert ((interval - 1) * 30) as real / 60.0 * 100.0 == (100 * k) as real;
  }

  datatype DayError = MissingInterval(interval: int)   // KeyError on str(interval)

  /** Every hour key h in `hours` holds the combination of the two
      intervals h / 50 + 1 and h / 50 + 2 it was built from. */
  ghost predicate Combined<C>(hours: map<int, C>, intervals: map<string, C>, combine: (C, C) -> C) {
    forall h :: h in hours ==>
      && IntToString(h / 50 + 1) in intervals && IntToString(h / 50 + 2) in intervals
      && hours[h] == combine(intervals[IntToString(h / 50 + 1)], intervals[IntToString(h / 50 + 2)])
  }

  /** One round of the day-building loop: storing odd interval i's pair
      under its hour key extends the keys by one hour and keeps `Combined`. */
  lemma BuildStep<C>(hours: map<int, C>, intervals: map<string, C>, combine: (C, C) -> C, interval: int, k: nat)
    requires k <= 23 && interval == 2 * k + 1
    requires IntToString(interval) in intervals && IntToString(interval + 1) in intervals
    requires hours.Keys == KeysBelow(100 * k)
    requires Combined(hours, intervals, combine)
    ensures var next := hours[HourKey(interval) := combine(intervals[IntToString(interval)], intervals[IntToString(interval + 1)])];
      next.Keys == KeysBelow(100 * (k + 1)) && Combined(next, intervals, combine)
  {
    HourKeyOfOddInterval(interval, k);
    KeysBelowStep(k);
  }

  /** The day-building loop: consumption of intervals i and i + 1 (odd i) is
      combined under hour key (i - 1) / 2 * 100. `combine` stands for
      `float(a['consumption']) + float(b['consumption'])`. */
  method BuildDay<C>(intervals: map<string, C>, combine: (C, C) -> C) returns (r: Result<map<int, C>, DayError>)
    ensures r.Ok? <==> forall n :: 1 <= n <= 48 ==> IntToString(n) in intervals
    ensures r.Ok? ==> r.value.Keys == HourKeys() && Combined(r.value, intervals, combine)
  {
    var hours: map<int, C> := map[];
    var interval := 1;
    ghost var k := 0;
    while interval < 48
      invariant 0 <= k <= 24 && interval == 2 * k + 1
      invariant forall n :: 1 <= n < interval ==> IntToString(n) in intervals
      invariant hours.Keys == KeysBelow(100 * k)
      invariant Combined(hours, intervals, combine)
    {
      var a, b := IntToString(interval), IntToString(interval + 1);
      if a !in intervals {
        return Err(MissingInterval(interval));
      }
      if b !in intervals {
        return Err(MissingInterval(interval + 1));
      }
      BuildStep(hours, intervals, combine, interval, k);
      hours := hours[HourKey(interval) := combine(intervals[a], intervals[b])];
      interval, k := interval + 2, k + 1;
    }
    r := Ok(hours);
  }

  // ----------------------------------------------------- the move_master plan

  /** The `move_master` bands, prices left opaque. */
  function MoveMasterBands<P>(peak: P, day: P, evening: P, late: P, night: P): seq<Band<P>> {
    [ Band("0700", "0900", peak), Band("0900", "1700", day), Band("1700", "2100", evening),
      Band("2100", "2300", late), Band("2300", "0700", night) ]
  }

  lemma MoveMasterBounds<P>(peak: P, day: P, evening: P, late: P, night: P)
    ensures AllBounds(MoveMasterBands(peak, day, evening, late, night)) == MoveMasterParsed()
  {
    var bands := MoveMasterBands(peak, day, evening, late, night);
    var parsed := MoveMasterParsed();
    forall j | 0 <= j < 5
      ensures BoundsOf(bands[j]) == parsed[j]
    {
      ClockBand(bands[j], parsed[j].value.start, parsed[j].value.end);
    }
    SameBounds(bands, parsed);
  }

  /** 'HHMM' text of four digits whose value is v. */
  predicate IsClock(s: string, v: int) {
    |s| == 4 && IsDigit(s[0]) && IsDigit(s[1]) && IsDigit(s[2]) && IsDigit(s[3])
    && v == 1000 * DigitValue(s[0]) + 100 * DigitValue(s[1]) + 10 * DigitValue(s[2]) + DigitValue(s[3])
  }

  lemma ClockBand<P>(b: Band<P>, start: int, end: int)
    requires IsClock(b.start, start) && IsClock(b.end, end)
    ensures BoundsOf(b) == Some(Bounds(start, end))
  {
    ClockString(b.start, start);
    ClockString(b.end, end);
  }

  lemma SameBounds<P>(bands: seq<Band<P>>, parsed: seq<Option<Bounds>>)
    requires |bands| == |parsed|
    requires forall j :: 0 <= j < |bands| ==> BoundsOf(bands[j]) == parsed[j]
    ensures AllBounds(bands) == parsed
  {
  }

  /** A four-digit clock string reads as its value. */
  lemma ClockString(s: string, v: int)
    requires IsClock(s, v)
    ensures ParseInt(s) == Some(v)
  {
    ParseDigitRun(s);
    ClockValue(s, v);
  }

  lemma ClockValue(s: string, v: int)
    requires IsClock(s, v)
    ensures DigitsValue(s) == v
  {
    DigitsValuePrefix(s, 1);
    DigitsValuePrefix(s, 2);
    DigitsValuePrefix(s, 3);
    DigitsValuePrefix(s, 4);
    assert s[..0] == [] && s[..4] == s;
  }

  /** The `move_master` bounds as `int()` reads them. */
  function MoveMasterParsed(): seq<Option<Bounds>> {
    [ Some(Bounds(700, 900)), Some(Bounds(900, 1700)), Some(Bounds(1700, 2100)),
      Some(Bounds(2100, 2300)), Some(Bounds(2300, 700)) ]
  }

  /** Under `move_master` every hour key of a day has a price, and the
      wrap-around band answers exactly for 2300 and 0..600. */
  lemma MoveMasterCoversDay<P>(peak: P, day: P, evening: P, late: P, night: P, h: int)
    requires h in HourKeys()
    ensures FirstMatch(h, AllBounds(MoveMasterBands(peak, day, evening, late, night)), 0).Ok?
    ensures FirstMatch(h, AllBounds(MoveMasterBands(peak, day, evening, late, night)), 0) == Ok(4) <==> h == 2300 || h <= 600
  {
    MoveMasterBounds(peak, day, evening, late, night);
    assert h <= 2300 && (h >= 2300 || h < 700 <==> h == 2300 || h <= 600) by {
      var k := h / 100;
      assert h == 100 * k;
    }
    MoveMasterSearch(h);
  }

  lemma MoveMasterSearch(h: int)
    requires 0 <= h <= 2300
    ensures FirstMatch(h, MoveMasterParsed(), 0).Ok?
    ensures FirstMatch(h, MoveMasterParsed(), 0) == Ok(4) <==> h >= 2300 || h < 700
  {
    var bounds := MoveMasterParsed();
    assert FirstMatch(h, bounds, 4) == Ok(4);
    var r3 := FirstMatch(h, bounds, 3);
    assert r3 == if 2100 <= h < 2300 then Ok(3) else Ok(4);
    var r2 := FirstMatch(h, bounds, 2);
    assert r2 == if 1700 <= h < 2100 then Ok(2) else r3;
    var r1 := FirstMatch(h, bounds, 1);
    assert r1 == if 900 <= h < 1700 then Ok(1) else r2;
    assert FirstMatch(h, bounds, 0) == if 700 <= h < 900 then Ok(0) else r1;
  }
}
