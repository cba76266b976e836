/** Distance of an infrared sensor from its voltage: table search and 16 bit interpolation (sensor.c). */
module DistSensor {
  import opened CInt

  const INFINITE := 9999      // SENS_IR_INFINITE

  datatype Entry = Entry(voltage: nat, dist: nat)

  type Table = seq<Entry>

  /** SENS_IR_MIN_DIST and SENS_IR_MAX_DIST: 100 and 690, or 70 and 1000, by the type of the sensor. */
  datatype Limits = Limits(min: nat, max: nat)

  /** lin_interpolate, on 16 bit values. */
  function Interpolate(x1: nat, y1: nat, x2: nat, y2: nat, xs: nat): nat
    requires x2 <= x1
  {
    if x1 == x2 then 0xffff
    else U16(U16(U16(x1 - xs) * Slope(y2 - y1, x1 - x2)) / 256 + y1)
  }

  /** Rise per voltage step, scaled by 256. */
  function Slope(rise: int, run: nat): nat
    requires run > 0
  {
    U16(U16(rise * 256) / run)
  }

  /** Voltages fall strictly, distances rise by at most 255. */
  predicate Calibrated(t: Table) {
    && 2 <= |t| <= 255
    && (forall i :: 0 <= i < |t| ==> t[i].voltage < 65536 && t[i].dist < 65536)
    && (forall i, j :: 0 <= i < j < |t| ==> t[i].voltage > t[j].voltage && t[i].dist <= t[j].dist)
    && (forall i :: 0 < i < |t| ==> t[i].dist <= t[i - 1].dist + 255)
  }

  predicate Fitting(t: Table, l: Limits) {
    Calibrated(t) && l.min <= t[0].dist && l.max <= INFINITE && l.min < l.max
  }

  /** The first entry with a voltage below the given one, by a full search. */
  function FirstBelow(t: Table, volt: nat): (i: nat)
    ensures i <= |t|
    ensures forall k :: 0 <= k < i ==> volt <= t[k].voltage
    ensures i < |t| ==> volt > t[i].voltage
  {
    if t == [] || volt > t[0].voltage then 0 else
      var i := FirstBelow(t[1..], volt);
      assert forall k :: 0 < k < i + 1 ==> t[k] == t[1..][k - 1];
      i + 1
  }

  /** The distance between two entries. */
  function Between(t: Table, i: nat, volt: nat): nat
    requires Calibrated(t) && 0 < i < |t|
  {
    Interpolate(t[i - 1].voltage, t[i - 1].dist, t[i].voltage, t[i].dist, volt)
  }

  /** What the table means for a voltage. */
  function Distance(t: Table, l: Limits, volt: nat): nat
    requires Calibrated(t)
  {
    var i := FirstBelow(t, volt);
    if i == 0 then l.min
    else if i == |t| then INFINITE
    else if Between(t, i, volt) >= l.max then INFINITE
    else Between(t, i, volt)
  }

  /* ---- The interpolation ---- */

  lemma AtMost(q: nat, b: nat, a: nat)
    requires b >= 1 && q * b <= a
    ensures q <= a
  {
    assert q * 1 <= q * b;
  }

  lemma SlopeFits(rise: nat, run: nat)
    requires 0 < run && rise <= 255
    ensures Slope(rise, run) == rise * 256 / run && Slope(rise, run) * run <= rise * 256
  {
    SmallIsItself(rise * 256);
    AtMost(rise * 256 / run, run, rise * 256);
    SmallIsItself(rise * 256 / run);
  }

  lemma ProductsGrow(a: nat, b: nat, m: nat)
    requires a <= b
    ensures a * m <= b * m
  {
  }

  /** Nothing overflows 16 bits, and the result lies between the two distances. */
  lemma InterpolateFits(x1: nat, y1: nat, x2: nat, y2: nat, xs: nat)
    requires x2 < xs <= x1 < 65536 && y1 <= y2 <= y1 + 255 && y2 < 65536
    ensures Interpolate(x1, y1, x2, y2, xs) == (x1 - xs) * Slope(y2 - y1, x1 - x2) / 256 + y1
    ensures (x1 - xs) * Slope(y2 - y1, x1 - x2) < 65536 && y1 <= Interpolate(x1, y1, x2, y2, xs) <= y2
  {
    var m, x := Slope(y2 - y1, x1 - x2), x1 - xs;
    SlopeFits(y2 - y1, x1 - x2);
    ProductsGrow(x, x1 - x2, m);
    SmallIsItself(x);
    SumFits(x * m, y1, y2);
  }

  lemma SumFits(p: nat, y1: nat, y2: nat)
    requires y1 <= y2 <= y1 + 255 && y2 < 65536 && p <= (y2 - y1) * 256
    ensures U16(U16(p) / 256 + y1) == p / 256 + y1 <= y2
  {
    SmallIsItself(p);
    SmallIsItself(p / 256 + y1);
  }

  /** r lies on the straight line between two entries: at most on it, and below it by less than one unit and
      what the slope, kept to a 256th, loses on the way. */
  predicate OnLine(a: Entry, b: Entry, volt: nat, r: nat) {
    var x, run, rise := a.voltage - volt, a.voltage - b.voltage, b.dist - a.dist;
    && a.dist <= r <= b.dist
    && (r - a.dist) * run <= x * rise
    && 256 * x * rise < (256 * (r - a.dist + 1) + x) * run
  }

  /** The products behind it, m being the scaled slope and q the distance gone. */
  lemma LineBounds(x: nat, run: nat, rise: nat, m: nat, q: nat)
    requires m * run <= rise * 256 < (m + 1) * run && 256 * q <= x * m < 256 * (q + 1)
    ensures q * run <= x * rise && 256 * x * rise < (256 * (q + 1) + x) * run
  {
    ProductsGrow(256 * q, x * m, run);
    ProductsGrow(m * run, rise * 256, x);
    assert 256 * (q * run) <= x * m * run == m * run * x <= rise * 256 * x;
    ProductsGrow(rise * 256, (m + 1) * run, x);
    assert (m + 1) * run * x == (x * m + x) * run;
    ProductsFall(x * m + x, 256 * (q + 1) + x, run);
  }

  lemma ProductsFall(a: nat, b: nat, m: nat)
    requires a < b && m > 0
    ensures a * m < b * m
  {
  }

  lemma InterpolateIsLinear(a: Entry, b: Entry, volt: nat)
    requires b.voltage < volt <= a.voltage < 65536 && a.dist <= b.dist <= a.dist + 255 && b.dist < 65536
    ensures OnLine(a, b, volt, Interpolate(a.voltage, a.dist, b.voltage, b.dist, volt))
  {
    var x, run, rise := a.voltage - volt, a.voltage - b.voltage, b.dist - a.dist;
    var m := Slope(rise, run);
    InterpolateFits(a.voltage, a.dist, b.voltage, b.dist, volt);
    SlopeFits(rise, run);
    QuotientBounds(rise * 256, run);
    QuotientBounds(x * m, 256);
    LineBounds(x, run, rise, m, x * m / 256);
  }

  lemma QuotientBounds(a: nat, d: nat)
    requires d > 0
    ensures (a / d) * d <= a < (a / d + 1) * d
  {
  }

  /** A higher voltage between the same two entries gives no larger distance. */
  lemma InterpolateFalls(x1: nat, y1: nat, x2: nat, y2: nat, low: nat, high: nat)
    requires x2 < low <= high <= x1 < 65536 && y1 <= y2 <= y1 + 255 && y2 < 65536
    ensures Interpolate(x1, y1, x2, y2, high) <= Interpolate(x1, y1, x2, y2, low)
  {
    InterpolateFits(x1, y1, x2, y2, low);
    InterpolateFits(x1, y1, x2, y2, high);
    ProductsGrow(x1 - high, x1 - low, Slope(y2 - y1, x1 - x2));
  }

  /** A rise fits 16 bits exactly up to 255; one of 256 counts as none. */
  lemma RiseFits(rise: nat)
    requires rise < 65536
    ensures U16(rise * 256) == rise * 256 <==> rise <= 255
    ensures U16(256 * 256) == 0
  {
  }

  /* ---- The lookup ---- */

  lemma BetweenFits(t: Table, i: nat, volt: nat)
    requires Calibrated(t) && 0 < i < |t| && t[i].voltage < volt <= t[i - 1].voltage
    ensures t[i - 1].dist <= Between(t, i, volt) <= t[i].dist
  {
    InterpolateFits(t[i - 1].voltage, t[i - 1].dist, t[i].voltage, t[i].dist, volt);
  }

  /** Every result is in range: a distance of the table's span below the limit, or one of the two marks. */
  lemma DistanceInRange(t: Table, l: Limits, volt: nat)
    requires Fitting(t, l)
    ensures Distance(t, l, volt) == INFINITE || l.min <= Distance(t, l, volt) < l.max
    ensures Distance(t, l, volt) <= INFINITE < 32768
  {
    var i := FirstBelow(t, volt);
    if 0 < i < |t| {
      BetweenFits(t, i, volt);
      assert l.min <= t[0].dist <= t[i - 1].dist;
    }
  }

  /** The higher the voltage, the smaller the distance. */
  lemma DistanceFalls(t: Table, l: Limits, low: nat, high: nat)
    requires Fitting(t, l) && low <= high
    ensures Distance(t, l, high) <= Distance(t, l, low)
  {
    var i, j := FirstBelow(t, high), FirstBelow(t, low);
    DistanceInRange(t, l, low);
    DistanceInRange(t, l, high);
    assert i <= j;
    if 0 < i && j < |t| {
      BetweenFits(t, i, high);
      BetweenFits(t, j, low);
      if i == j {
        InterpolateFalls(t[i - 1].voltage, t[i - 1].dist, t[i].voltage, t[i].dist, low, high);
      } else {
        assert t[i].dist <= t[j - 1].dist;
      }
    }
  }

  /** At the voltage of an entry, the distance is that of the entry. */
  lemma ExactAtEntries(t: Table, l: Limits, i: nat)
    requires Fitting(t, l) && i + 1 < |t| && t[i].dist < l.max
    ensures Distance(t, l, t[i].voltage) == t[i].dist
  {
    var volt := t[i].voltage;
    FirstIsUnique(t, volt, i + 1);
    InterpolateFits(t[i].voltage, t[i].dist, t[i + 1].voltage, t[i + 1].dist, volt);
  }

  /** Only one entry is the first one below. */
  lemma FirstIsUnique(t: Table, volt: nat, i: nat)
    requires i <= |t| && (forall k :: 0 <= k < i ==> volt <= t[k].voltage) && (i < |t| ==> volt > t[i].voltage)
    ensures FirstBelow(t, volt) == i
  {
  }

  /** Between two entries the value is the distance on their line, or the mark from the limit on. */
  ghost predicate Looked(a: Entry, b: Entry, max: nat, volt: nat, value: int) {
    exists r: nat :: OnLine(a, b, volt, r) && value == if r >= max then 9999 else r
  }

  lemma DistanceOnLine(t: Table, l: Limits, volt: nat)
    requires Fitting(t, l)
    ensures volt > t[0].voltage ==> Distance(t, l, volt) == l.min
    ensures volt <= t[|t| - 1].voltage ==> Distance(t, l, volt) == 9999
    ensures forall i :: 0 < i < |t| && t[i].voltage < volt <= t[i - 1].voltage ==>
              Looked(t[i - 1], t[i], l.max, volt, Distance(t, l, volt))
  {
    forall i | 0 < i < |t| && t[i].voltage < volt <= t[i - 1].voltage
      ensures Looked(t[i - 1], t[i], l.max, volt, Distance(t, l, volt))
    {
      FirstIsUnique(t, volt, i);
      InterpolateIsLinear(t[i - 1], t[i], volt);
      assert OnLine(t[i - 1], t[i], volt, Between(t, i, volt));
    }
    FirstIsUnique(t, volt, if volt > t[0].voltage then 0 else if volt <= t[|t| - 1].voltage then |t| else FirstBelow(t, volt));
  }

  class Sensor {
    var value: int          // the distance
    var toggle: nat

    /** sensor_dist_lookup: searches only one half of the table. */
    method DistLookup(t: Table, l: Limits, volt: nat)
      requires Fitting(t, l) && volt < 65536 && toggle < 256
      modifies this
      ensures value == Distance(t, l, volt) && toggle == 255 - old(toggle)
      ensures volt > t[0].voltage ==> value == l.min
      ensures volt <= t[|t| - 1].voltage ==> value == 9999
      ensures forall i :: 0 < i < |t| && t[i].voltage < volt <= t[i - 1].voltage ==>
                Looked(t[i - 1], t[i], l.max, volt, value)
    {
      DistanceOnLine(t, l, volt);
      var n := |t| / 2;
      var pivot := t[n - 1].voltage;
      var i, ptr := 0, 0;
      if volt <= pivot {
        i, ptr, n := n, n, |t|;
      }
      ghost var upper := n == |t|;
      var tmp := 0;
      while i < n
        invariant i <= n <= |t| && ptr == i
        invariant forall k :: 0 <= k < i ==> volt <= t[k].voltage
        invariant upper ==> n == |t| && i > 0
        invariant !upper ==> n == |t| / 2 && volt > t[n - 1].voltage && i < n
      {
        tmp := t[ptr].voltage;
        if volt > tmp {
          break;
        }
        ptr, i := ptr + 1, i + 1;
      }
      FirstIsUnique(t, volt, i);
      DistanceInRange(t, l, volt);
      toggle := 255 - toggle;
      if i == 0 {
        value := l.min;
        return;
      }
      if i == n {
        value := INFINITE;
        return;
      }
      var distance := Interpolate(t[ptr - 1].voltage, t[ptr - 1].dist, tmp, t[ptr].dist, volt);
      value := if distance >= l.max then INFINITE else distance;
    }
  }
}
