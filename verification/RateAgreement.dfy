/** The device-wide inbound rate agrees with the sum of the interfaces' rates, up to rounding. */
module RateAgreement {
  import opened Common
  import opened MetricRates

  /** A counter reduced to what the inbound rate of its interface depends on. */
  datatype Reading = Reading(name: string, octets: int)

  function Readings(cs: seq<Counter>): (rs: seq<Reading>)
    ensures |rs| == |cs|
    ensures forall k :: 0 <= k < |cs| ==> rs[k].name == cs[k].name && rs[k].octets == OrZero(cs[k].inOctets)
  {
    if cs == [] then []
    else Readings(cs[..|cs| - 1]) + [Reading(cs[|cs| - 1].name, OrZero(cs[|cs| - 1].inOctets))]
  }

  function Total(rs: seq<Reading>): int {
    if rs == [] then 0 else Total(rs[..|rs| - 1]) + rs[|rs| - 1].octets
  }

  lemma {:induction false} TotalIsSumIn(cs: seq<Counter>)
    ensures Total(Readings(cs)) == SumIn(cs)
  {
    if cs != [] {
      TotalIsSumIn(cs[..|cs| - 1]);
      assert Readings(cs)[..|cs| - 1] == Readings(cs[..|cs| - 1]);
    }
  }

  ghost predicate Distinct(rs: seq<Reading>) {
    forall j, k :: 0 <= j < k < |rs| ==> rs[j].name != rs[k].name
  }

  ghost predicate Names(rs: seq<Reading>, name: string) {
    exists k :: 0 <= k < |rs| && rs[k].name == name
  }

  /** The count reported under a name. */
  function Reported(rs: seq<Reading>, name: string): int {
    if rs == [] then 0
    else if rs[|rs| - 1].name == name then rs[|rs| - 1].octets
    else Reported(rs[..|rs| - 1], name)
  }

  lemma {:induction false} ReportedAt(rs: seq<Reading>, k: nat)
    requires Distinct(rs) && k < |rs|
    ensures rs[k].octets == Reported(rs, rs[k].name)
  {
    if k < |rs| - 1 {
      ReportedAt(rs[..|rs| - 1], k);
    }
  }

  // ---------------------------------------------------------------- sums over the same names in two orders

  /** The counts `prev` reports, summed over the names of `rs`. */
  function SumOver(rs: seq<Reading>, prev: seq<Reading>): int {
    if rs == [] then 0 else SumOver(rs[..|rs| - 1], prev) + Reported(prev, rs[|rs| - 1].name)
  }

  function Without(rs: seq<Reading>, j: nat): seq<Reading>
    requires j < |rs|
  {
    rs[..j] + rs[j + 1..]
  }

  /** Leaving one out commutes with leaving the last one off. */
  lemma WithoutInit(rs: seq<Reading>, j: nat)
    requires j < |rs|
    ensures j == |rs| - 1 ==> Without(rs, j) == rs[..|rs| - 1]
    ensures j < |rs| - 1 ==> Without(rs, j) == Without(rs[..|rs| - 1], j) + [rs[|rs| - 1]]
    ensures j < |rs| - 1 ==> Without(rs, j)[..|rs| - 2] == Without(rs[..|rs| - 1], j)
  {
  }

  lemma {:induction false} TotalWithout(rs: seq<Reading>, j: nat)
    requires j < |rs|
    ensures Total(rs) == Total(Without(rs, j)) + rs[j].octets
  {
    WithoutInit(rs, j);
    if j < |rs| - 1 {
      TotalWithout(rs[..|rs| - 1], j);
    }
  }

  lemma {:induction false} ReportedWithout(rs: seq<Reading>, j: nat, name: string)
    requires j < |rs| && rs[j].name != name
    ensures Reported(Without(rs, j), name) == Reported(rs, name)
  {
    WithoutInit(rs, j);
    if j < |rs| - 1 {
      ReportedWithout(rs[..|rs| - 1], j, name);
    }
  }

  lemma {:induction false} SumOverWithout(rs: seq<Reading>, prev: seq<Reading>, j: nat)
    requires j < |prev| && forall k :: 0 <= k < |rs| ==> rs[k].name != prev[j].name
    ensures SumOver(rs, Without(prev, j)) == SumOver(rs, prev)
  {
    if rs != [] {
      SumOverWithout(rs[..|rs| - 1], prev, j);
      ReportedWithout(prev, j, rs[|rs| - 1].name);
    }
  }

  lemma NamesWithout(rs: seq<Reading>, j: nat, name: string)
    requires j < |rs| && Names(rs, name) && name != rs[j].name
    ensures Names(Without(rs, j), name)
  {
    var k :| 0 <= k < |rs| && rs[k].name == name;
    assert Without(rs, j)[if k < j then k else k - 1].name == name;
  }

  /** Summing by name over a reordering of the same interfaces gives the same total. */
  lemma {:induction false} SameNamesSameSum(rs: seq<Reading>, prev: seq<Reading>)
    requires Distinct(rs) && Distinct(prev) && |rs| == |prev|
    requires forall k :: 0 <= k < |rs| ==> Names(prev, rs[k].name)
    ensures SumOver(rs, prev) == Total(prev)
  {
    if rs != [] {
      var init, last := rs[..|rs| - 1], rs[|rs| - 1];
      assert Names(prev, last.name);
      var j :| 0 <= j < |prev| && prev[j].name == last.name;
      LeftOut(rs, prev, j);
      SameNamesSameSum(init, Without(prev, j));
      LastAdds(rs, prev, j);
    }
  }

  lemma LastAdds(rs: seq<Reading>, prev: seq<Reading>, j: nat)
    requires Distinct(prev) && rs != [] && j < |prev| && prev[j].name == rs[|rs| - 1].name
    requires forall k :: 0 <= k < |rs| - 1 ==> rs[k].name != prev[j].name
    ensures SumOver(rs, prev) == SumOver(rs[..|rs| - 1], Without(prev, j)) + prev[j].octets
    ensures Total(prev) == Total(Without(prev, j)) + prev[j].octets
  {
    SumOverWithout(rs[..|rs| - 1], prev, j);
    TotalWithout(prev, j);
    ReportedAt(prev, j);
  }

  /** Leaving out the last name on one side and its reading on the other. */
  lemma LeftOut(rs: seq<Reading>, prev: seq<Reading>, j: nat)
    requires Distinct(rs) && Distinct(prev) && rs != [] && j < |prev| && prev[j].name == rs[|rs| - 1].name
    requires forall k :: 0 <= k < |rs| ==> Names(prev, rs[k].name)
    ensures Distinct(rs[..|rs| - 1]) && Distinct(Without(prev, j))
    ensures forall k :: 0 <= k < |rs| - 1 ==> Names(Without(prev, j), rs[k].name) && rs[k].name != prev[j].name
  {
    forall k | 0 <= k < |rs| - 1 ensures Names(Without(prev, j), rs[k].name) && rs[k].name != prev[j].name {
      NamesWithout(prev, j, rs[k].name);
    }
  }

  lemma {:induction false} SumOverSelf(rs: seq<Reading>, all: seq<Reading>)
    requires Distinct(all) && rs <= all
    ensures SumOver(rs, all) == Total(rs)
  {
    if rs != [] {
      SumOverSelf(rs[..|rs| - 1], all);
      ReportedAt(all, |rs| - 1);
    }
  }

  // ---------------------------------------------------------------- uniform rows

  /** The row carries a time, names its interfaces differently, counts each, and its total is their sum. */
  ghost predicate Complete(row: Row) {
    && row.ts.Some? && InTotal(row) == Some(SumIn(row.counters))
    && Distinct(Readings(row.counters))
    && forall k :: 0 <= k < |row.counters| ==> row.counters[k].name != "" && row.counters[k].inOctets.Some?
  }

  /** The later row reports the same interfaces, and no counter went back. */
  ghost predicate Continues(prev: Row, row: Row) {
    && Complete(prev) && Complete(row) && prev.ts.value < row.ts.value
    && |prev.counters| == |row.counters|
    && forall name :: Names(Readings(row.counters), name) ==>
         && Names(Readings(prev.counters), name)
         && Reported(Readings(prev.counters), name) <= Reported(Readings(row.counters), name)
  }

  ghost predicate ContinuesAt(rows: seq<Row>, i: nat)
    requires 0 < i < |rows|
  {
    Continues(rows[i - 1], rows[i])
  }

  ghost predicate Uniform(rows: seq<Row>) {
    && (rows != [] ==> Complete(rows[0]))
    && (forall i: nat {:trigger ContinuesAt(rows, i)} :: 0 < i < |rows| ==> ContinuesAt(rows, i))
  }

  lemma UniformInit(rows: seq<Row>)
    requires Uniform(rows) && |rows| > 1
    ensures Uniform(rows[..|rows| - 1]) && Continues(rows[|rows| - 2], rows[|rows| - 1])
  {
    var init := rows[..|rows| - 1];
    forall i: nat | 0 < i < |init| ensures ContinuesAt(init, i) {
      assert ContinuesAt(rows, i);
    }
    assert ContinuesAt(rows, |rows| - 1);
  }

  // ---------------------------------------------------------------- what the buckets hold

  function LastIn(b: Buckets, name: string): Option<int> { if name in b.last then b.last[name].inOctets else None }

  lemma NamedStep(b: Buckets, step: string, now: Octets, prevTs: Option<real>, ts: Option<real>, name: string)
    ensures var after := StepNamed(b, step, now, prevTs, ts);
            if name == step then
              && LastIn(after, name) == now.inOctets
              && DeltasOf(after.ins, name) == DeltasOf(b.ins, name) + CounterDelta(LastIn(b, name), now.inOctets, prevTs, ts)
            else LastIn(after, name) == LastIn(b, name) && DeltasOf(after.ins, name) == DeltasOf(b.ins, name)
  {
  }

  lemma {:induction false} StepLeavesOthers(b: Buckets, cs: seq<Counter>, prevTs: Option<real>, ts: Option<real>, name: string)
    requires forall k :: 0 <= k < |cs| ==> cs[k].name != name
    ensures LastIn(StepCounters(b, cs, prevTs, ts), name) == LastIn(b, name)
    ensures DeltasOf(StepCounters(b, cs, prevTs, ts).ins, name) == DeltasOf(b.ins, name)
  {
    if cs != [] {
      var init, c := cs[..|cs| - 1], cs[|cs| - 1];
      StepLeavesOthers(b, init, prevTs, ts, name);
      NamedStep(StepCounters(b, init, prevTs, ts), c.name, Octets(c.inOctets, c.outOctets), prevTs, ts, name);
    }
  }

  /** In a row of distinct names, an interface's bucket is stepped exactly once. */
  lemma {:induction false} StepMovesNamed(b: Buckets, cs: seq<Counter>, prevTs: Option<real>, ts: Option<real>, k: nat)
    requires Distinct(Readings(cs)) && k < |cs| && cs[k].name != ""
    ensures LastIn(StepCounters(b, cs, prevTs, ts), cs[k].name) == cs[k].inOctets
    ensures DeltasOf(StepCounters(b, cs, prevTs, ts).ins, cs[k].name)
         == DeltasOf(b.ins, cs[k].name) + CounterDelta(LastIn(b, cs[k].name), cs[k].inOctets, prevTs, ts)
  {
    var n := |cs| - 1;
    var init, c, rs := cs[..n], cs[n], Readings(cs);
    assert Readings(init) == rs[..n];
    if k < n {
      assert rs[k].name != rs[n].name;
      StepMovesNamed(b, init, prevTs, ts, k);
    } else {
      forall j | 0 <= j < n ensures init[j].name != c.name {
        assert rs[j].name != rs[n].name;
      }
      StepLeavesOthers(b, init, prevTs, ts, c.name);
    }
    NamedStep(StepCounters(b, init, prevTs, ts), c.name, Octets(c.inOctets, c.outOctets), prevTs, ts, cs[k].name);
  }

  /** The movement of one interface between two rows. */
  function PortDelta(prev: Row, row: Row, name: string): Delta
    requires prev.ts.Some? && row.ts.Some?
  {
    Delta(row.ts.value, Reported(Readings(row.counters), name) - Reported(Readings(prev.counters), name),
          row.ts.value - prev.ts.value)
  }

  ghost predicate IsPortDelta(ds: seq<Delta>, rows: seq<Row>, name: string, i: nat)
    requires 0 < i < |rows| && |ds| == |rows| - 1
  {
    && rows[i - 1].ts.Some? && rows[i].ts.Some? && rows[i - 1].ts.value < rows[i].ts.value
    && ds[i - 1] == PortDelta(rows[i - 1], rows[i], name)
  }

  /** The intervals of an interface over uniform rows, one for each pair of rows. */
  ghost predicate OnePerInterval(ds: seq<Delta>, rows: seq<Row>, name: string) {
    && |ds| == |rows| - 1
    && forall i: nat {:trigger IsPortDelta(ds, rows, name, i)} :: 0 < i < |rows| ==> IsPortDelta(ds, rows, name, i)
  }

  /** What one more row does to the bucket of a name it reports. */
  lemma BucketStep(rows: seq<Row>, name: string)
    requires rows != [] && Complete(rows[|rows| - 1]) && Names(Readings(rows[|rows| - 1].counters), name)
    ensures var n, row := |rows| - 1, rows[|rows| - 1];
            var b, now := BucketsAfter(rows[..n]), Some(Reported(Readings(row.counters), name));
            && LastIn(BucketsAfter(rows), name) == now
            && DeltasOf(BucketsAfter(rows).ins, name)
               == DeltasOf(b.ins, name) + CounterDelta(LastIn(b, name), now, if n > 0 then rows[n - 1].ts else None, row.ts)
  {
    var n := |rows| - 1;
    var cs := rows[n].counters;
    var k :| 0 <= k < |cs| && Readings(cs)[k].name == name;
    ReportedAt(Readings(cs), k);
    StepMovesNamed(BucketsAfter(rows[..n]), cs, if n > 0 then rows[n - 1].ts else None, rows[n].ts, k);
  }

  lemma {:induction false} BucketIsPerInterval(rows: seq<Row>, name: string)
    requires rows != [] && Uniform(rows) && Names(Readings(rows[|rows| - 1].counters), name)
    ensures LastIn(BucketsAfter(rows), name) == Some(Reported(Readings(rows[|rows| - 1].counters), name))
    ensures OnePerInterval(DeltasOf(BucketsAfter(rows).ins, name), rows, name)
  {
    var n := |rows| - 1;
    if n == 0 {
      BucketStarts(rows, name);
    } else {
      var init, row := rows[..n], rows[n];
      UniformInit(rows);
      assert init[n - 1] == rows[n - 1] && init + [row] == rows;
      BucketIsPerInterval(init, name);
      BucketGrows(rows, init, row, name);
    }
  }

  lemma BucketStarts(rows: seq<Row>, name: string)
    requires |rows| == 1 && Complete(rows[0]) && Names(Readings(rows[0].counters), name)
    ensures LastIn(BucketsAfter(rows), name) == Some(Reported(Readings(rows[0].counters), name))
    ensures OnePerInterval(DeltasOf(BucketsAfter(rows).ins, name), rows, name)
  {
    BucketStep(rows, name);
  }

  lemma BucketGrows(rows: seq<Row>, init: seq<Row>, row: Row, name: string)
    requires init != [] && rows == init + [row] && Continues(init[|init| - 1], row)
    requires Names(Readings(row.counters), name)
    requires LastIn(BucketsAfter(init), name) == Some(Reported(Readings(init[|init| - 1].counters), name))
    requires OnePerInterval(DeltasOf(BucketsAfter(init).ins, name), init, name)
    ensures LastIn(BucketsAfter(rows), name) == Some(Reported(Readings(row.counters), name))
    ensures OnePerInterval(DeltasOf(BucketsAfter(rows).ins, name), rows, name)
  {
    assert rows[..|rows| - 1] == init;
    BucketStep(rows, name);
    OneMore(DeltasOf(BucketsAfter(init).ins, name), init, row, name);
  }

  lemma OneMore(ds: seq<Delta>, init: seq<Row>, row: Row, name: string)
    requires init != [] && OnePerInterval(ds, init, name) && Continues(init[|init| - 1], row)
    requires Names(Readings(row.counters), name)
    ensures CounterDelta(Some(Reported(Readings(init[|init| - 1].counters), name)),
                         Some(Reported(Readings(row.counters), name)), init[|init| - 1].ts, row.ts)
         == [PortDelta(init[|init| - 1], row, name)]
    ensures OnePerInterval(ds + [PortDelta(init[|init| - 1], row, name)], init + [row], name)
  {
    var rows, ds' := init + [row], ds + [PortDelta(init[|init| - 1], row, name)];
    forall i: nat | 0 < i < |rows| ensures IsPortDelta(ds', rows, name, i) {
      if i < |init| { assert IsPortDelta(ds, init, name, i); }
    }
  }

  // ---------------------------------------------------------------- the device-wide intervals

  /** A later row's total is no smaller, being a sum of counters that did not go back. */
  lemma TotalsGrow(prev: Row, row: Row)
    requires Continues(prev, row)
    ensures SumIn(prev.counters) <= SumIn(row.counters)
  {
    var now, was := Readings(row.counters), Readings(prev.counters);
    forall k | 0 <= k < |now| ensures Names(was, now[k].name) {
      assert Names(now, now[k].name);
    }
    SameNamesSameSum(now, was);
    SumOverSelf(now, now);
    TotalIsSumIn(row.counters);
    TotalIsSumIn(prev.counters);
    SumOverGrows(now, now, was);
  }

  lemma {:induction false} SumOverGrows(rs: seq<Reading>, now: seq<Reading>, was: seq<Reading>)
    requires rs <= now && forall name :: Names(now, name) ==> Reported(was, name) <= Reported(now, name)
    ensures SumOver(rs, was) <= SumOver(rs, now)
  {
    if rs != [] {
      SumOverGrows(rs[..|rs| - 1], now, was);
      assert now[|rs| - 1].name == rs[|rs| - 1].name;
    }
  }

  /** The device-wide movement between two rows. */
  function TotalDelta(prev: Row, row: Row): Delta
    requires prev.ts.Some? && row.ts.Some?
  {
    Delta(row.ts.value, SumIn(row.counters) - SumIn(prev.counters), row.ts.value - prev.ts.value)
  }

  lemma UniformDelta(prev: Row, row: Row)
    requires Continues(prev, row)
    ensures InDelta(prev, row) == [TotalDelta(prev, row)]
  {
    TotalsGrow(prev, row);
  }

  /** Over uniform rows the device-wide list also has exactly one interval per pair of rows. */
  lemma {:induction false} AggregateIsPerInterval(rows: seq<Row>, i: nat)
    requires Uniform(rows) && 0 < i < |rows|
    ensures |InDeltas(rows)| == |rows| - 1 && rows[i - 1].ts.Some? && rows[i].ts.Some?
    ensures InDeltas(rows)[i - 1] == TotalDelta(rows[i - 1], rows[i])
    decreases |rows|
  {
    var n := |rows| - 1;
    var init, prev, row := rows[..n], rows[n - 1], rows[n];
    UniformInit(rows);
    UniformDelta(prev, row);
    assert InDeltas(rows) == InDeltas(init) + [TotalDelta(prev, row)];
    if n == 1 {
      assert InDeltas(init) == [];
    } else if i < n {
      AggregateIsPerInterval(init, i);
    } else {
      AggregateIsPerInterval(init, n - 1);
    }
  }

  // ---------------------------------------------------------------- the agreement

  predicate Within(x: real, y: real, slack: real) { y - slack <= x <= y + slack }

  lemma WithinAdds(x: real, y: real, s: real, x': real, y': real, s': real)
    requires Within(x, y, s) && Within(x', y', s')
    ensures Within(x + x', y + y', s + s')
  {
  }

  /** Half a hundredth for each of `n` roundings. */
  function Slack(n: nat): real { 0.005 * n as real }

  /** Octets the named interfaces moved between two rows, added up. */
  function OctetSum(rs: seq<Reading>, prev: Row, row: Row): int {
    SumOver(rs, Readings(row.counters)) - SumOver(rs, Readings(prev.counters))
  }

  /** The rates of the named interfaces in the interval that ends at row `i`, added up from their series. */
  function RateSum(rs: seq<Reading>, rates: map<string, seq<Point>>, i: nat): real
    requires i > 0 && forall k :: 0 <= k < |rs| ==> |SeriesOf(rates, rs[k].name)| >= i
  {
    if rs == [] then 0.0
    else RateSum(rs[..|rs| - 1], rates, i) + SeriesOf(rates, rs[|rs| - 1].name)[i - 1].v
  }

  /** Each named interface has, in interval `i`, the rate of its movement between the two rows. */
  ghost predicate HasRates(rs: seq<Reading>, rates: map<string, seq<Point>>, i: nat, prev: Row, row: Row) {
    && i > 0 && prev.ts.Some? && row.ts.Some? && prev.ts.value < row.ts.value
    && (forall k :: 0 <= k < |rs| ==> |SeriesOf(rates, rs[k].name)| >= i)
    && (forall k :: 0 <= k < |rs| ==> SeriesOf(rates, rs[k].name)[i - 1] == ToPoint(PortDelta(prev, row, rs[k].name)))
  }

  function Sum(xs: seq<real>): real { if xs == [] then 0.0 else Sum(xs[..|xs| - 1]) + xs[|xs| - 1] }

  /** Numbers that are each within half a hundredth of others add up to within half a hundredth for each. */
  lemma {:induction false} SumsWithin(xs: seq<real>, ys: seq<real>)
    requires |xs| == |ys| && forall k :: 0 <= k < |xs| ==> Within(xs[k], ys[k], 0.005)
    ensures Within(Sum(xs), Sum(ys), Slack(|xs|))
  {
    if xs != [] {
      var n := |xs| - 1;
      SumsWithin(xs[..n], ys[..n]);
      WithinAdds(Sum(xs[..n]), Sum(ys[..n]), Slack(n), xs[n], ys[n], 0.005);
      assert Slack(n + 1) == Slack(n) + 0.005;
    }
  }

  /** The rates of the named interfaces in interval `i`, read off their series. */
  function Measured(rs: seq<Reading>, rates: map<string, seq<Point>>, i: nat): (vs: seq<real>)
    requires i > 0 && forall k :: 0 <= k < |rs| ==> |SeriesOf(rates, rs[k].name)| >= i
    ensures |vs| == |rs| && forall k :: 0 <= k < |rs| ==> vs[k] == SeriesOf(rates, rs[k].name)[i - 1].v
  {
    if rs == [] then []
    else Measured(rs[..|rs| - 1], rates, i) + [SeriesOf(rates, rs[|rs| - 1].name)[i - 1].v]
  }

  /** Their rates before rounding. */
  function Exact(rs: seq<Reading>, prev: Row, row: Row): (es: seq<real>)
    requires prev.ts.Some? && row.ts.Some?
    ensures |es| == |rs|
    ensures forall k :: 0 <= k < |rs| ==>
              es[k] == Bps(PortDelta(prev, row, rs[k].name).octets, row.ts.value - prev.ts.value)
  {
    if rs == [] then []
    else Exact(rs[..|rs| - 1], prev, row)
         + [Bps(PortDelta(prev, row, rs[|rs| - 1].name).octets, row.ts.value - prev.ts.value)]
  }

  lemma BpsAdds(a: int, b: int, dt: real)
    requires dt > 0.0
    ensures Bps(a + b, dt) == Bps(a, dt) + Bps(b, dt)
  {
    QuotientAdds((a * 8) as real, (b * 8) as real, dt);
    assert ((a + b) * 8) as real == (a * 8) as real + (b * 8) as real;
  }

  lemma QuotientAdds(x: real, y: real, dt: real)
    requires dt > 0.0
    ensures (x + y) / dt == x / dt + y / dt
  {
  }

  lemma BpsOfNothing(dt: real)
    ensures Bps(0, dt) == 0.0
  {
    if dt > 0.0 { ZeroQuotient(dt); }
  }

  lemma ZeroQuotient(dt: real)
    requires dt > 0.0
    ensures 0.0 / dt == 0.0
  {
  }

  lemma PointError(d: Delta)
    ensures Within(ToPoint(d).v, Bps(d.octets, d.seconds), 0.005)
  {
    RoundingError(Bps(d.octets, d.seconds));
  }

  lemma {:induction false} RateSumIsSum(rs: seq<Reading>, rates: map<string, seq<Point>>, i: nat)
    requires i > 0 && forall k :: 0 <= k < |rs| ==> |SeriesOf(rates, rs[k].name)| >= i
    ensures RateSum(rs, rates, i) == Sum(Measured(rs, rates, i))
  {
    if rs != [] {
      var init := rs[..|rs| - 1];
      RateSumIsSum(init, rates, i);
      assert Measured(rs, rates, i)[..|init|] == Measured(init, rates, i);
    }
  }

  lemma {:induction false} ExactSum(rs: seq<Reading>, prev: Row, row: Row)
    requires prev.ts.Some? && row.ts.Some? && prev.ts.value < row.ts.value
    ensures Sum(Exact(rs, prev, row)) == Bps(OctetSum(rs, prev, row), row.ts.value - prev.ts.value)
  {
    var dt := row.ts.value - prev.ts.value;
    if rs == [] {
      BpsOfNothing(dt);
    } else {
      var init, d := rs[..|rs| - 1], PortDelta(prev, row, rs[|rs| - 1].name);
      ExactSum(init, prev, row);
      BpsAdds(OctetSum(init, prev, row), d.octets, dt);
      assert Exact(rs, prev, row)[..|init|] == Exact(init, prev, row);
    }
  }

  lemma RateSumBounds(rs: seq<Reading>, rates: map<string, seq<Point>>, i: nat, prev: Row, row: Row)
    requires HasRates(rs, rates, i, prev, row)
    ensures Within(RateSum(rs, rates, i), Bps(OctetSum(rs, prev, row), row.ts.value - prev.ts.value), Slack(|rs|))
  {
    var measured, exact := Measured(rs, rates, i), Exact(rs, prev, row);
    forall k | 0 <= k < |rs| ensures Within(measured[k], exact[k], 0.005) {
      PointError(PortDelta(prev, row, rs[k].name));
    }
    SumsWithin(measured, exact);
    RateSumIsSum(rs, rates, i);
    ExactSum(rs, prev, row);
  }

  /** All rows report the names of the last one. */
  lemma {:induction false} NamesCarryBack(rows: seq<Row>, i: nat)
    requires Uniform(rows) && i < |rows|
    ensures Complete(rows[i]) && |rows[i].counters| == |rows[|rows| - 1].counters|
    ensures forall name :: Names(Readings(rows[|rows| - 1].counters), name) ==> Names(Readings(rows[i].counters), name)
    decreases |rows| - i
  {
    if i < |rows| - 1 {
      NamesCarryBack(rows, i + 1);
      assert ContinuesAt(rows, i + 1);
    } else if i > 0 {
      assert ContinuesAt(rows, i);
    }
  }

  lemma TotalByLastNames(rows: seq<Row>, i: nat)
    requires Uniform(rows) && i < |rows|
    ensures SumOver(Readings(rows[|rows| - 1].counters), Readings(rows[i].counters)) == SumIn(rows[i].counters)
  {
    NamesCarryBack(rows, i);
    NamesCarryBack(rows, |rows| - 1);
    var rs := Readings(rows[|rows| - 1].counters);
    forall k | 0 <= k < |rs| ensures Names(Readings(rows[i].counters), rs[k].name) {
      assert Names(rs, rs[k].name);
    }
    SameNamesSameSum(rs, Readings(rows[i].counters));
    TotalIsSumIn(rows[i].counters);
  }

  lemma BucketsHaveRates(rows: seq<Row>, i: nat)
    requires Uniform(rows) && 0 < i < |rows|
    ensures HasRates(Readings(rows[|rows| - 1].counters), Rates(BucketsAfter(rows).ins), i, rows[i - 1], rows[i])
  {
    var rs, b := Readings(rows[|rows| - 1].counters), BucketsAfter(rows);
    assert ContinuesAt(rows, i);
    forall k | 0 <= k < |rs|
      ensures |SeriesOf(Rates(b.ins), rs[k].name)| >= i
      ensures SeriesOf(Rates(b.ins), rs[k].name)[i - 1] == ToPoint(PortDelta(rows[i - 1], rows[i], rs[k].name))
    {
      BucketIsPerInterval(rows, rs[k].name);
      var ds := DeltasOf(b.ins, rs[k].name);
      assert IsPortDelta(ds, rows, rs[k].name, i);
      assert SeriesOf(Rates(b.ins), rs[k].name) == Points(ds);
    }
  }

  /** The total and the interfaces' movements of interval `i` are movements of the same octets. */
  lemma SameOctets(rows: seq<Row>, i: nat)
    requires Uniform(rows) && 0 < i < |rows|
    ensures |InDeltas(rows)| == |rows| - 1 && rows[i - 1].ts.Some? && rows[i].ts.Some?
    ensures InDeltas(rows)[i - 1].octets == OctetSum(Readings(rows[|rows| - 1].counters), rows[i - 1], rows[i])
    ensures InDeltas(rows)[i - 1].seconds == rows[i].ts.value - rows[i - 1].ts.value
  {
    AggregateIsPerInterval(rows, i);
    TotalByLastNames(rows, i);
    TotalByLastNames(rows, i - 1);
  }

  /** At row `i`, the device-wide rate is the sum of the interfaces' rates, within half a hundredth per rounding. */
  ghost predicate Agrees(series: seq<Point>, rs: seq<Reading>, rates: map<string, seq<Point>>, i: nat)
    requires 0 < i <= |series|
  {
    && (forall k :: 0 <= k < |rs| ==> |SeriesOf(rates, rs[k].name)| >= i)
    && Within(series[i - 1].v, RateSum(rs, rates, i), Slack(|rs| + 1))
  }

  lemma IntervalAgrees(series: seq<Point>, rs: seq<Reading>, rates: map<string, seq<Point>>, i: nat,
                       prev: Row, row: Row, d: Delta)
    requires HasRates(rs, rates, i, prev, row) && i <= |series| && series[i - 1] == ToPoint(d)
    requires d.octets == OctetSum(rs, prev, row) && d.seconds == row.ts.value - prev.ts.value
    ensures Agrees(series, rs, rates, i)
  {
    RateSumBounds(rs, rates, i, prev, row);
    PointError(d);
    WithinBoth(series[i - 1].v, Bps(d.octets, d.seconds), RateSum(rs, rates, i), |rs|);
  }

  /** Over uniform rows there is a device-wide rate for every row but the first, and each agrees with the interfaces'. */
  lemma AggregateAgrees(rows: seq<Row>, i: nat)
    requires Uniform(rows) && 0 < i < |rows|
    ensures |InSeries(rows)| == |rows| - 1
    ensures Agrees(InSeries(rows), Readings(rows[|rows| - 1].counters), Rates(BucketsAfter(rows).ins), i)
  {
    SameOctets(rows, i);
    BucketsHaveRates(rows, i);
    var d := InDeltas(rows)[i - 1];
    assert InSeries(rows)[i - 1] == ToPoint(d);
    IntervalAgrees(InSeries(rows), Readings(rows[|rows| - 1].counters), Rates(BucketsAfter(rows).ins), i,
                   rows[i - 1], rows[i], d);
  }

  lemma WithinBoth(x: real, exact: real, y: real, n: nat)
    requires Within(x, exact, 0.005) && Within(y, exact, Slack(n))
    ensures Within(x, y, Slack(n + 1))
  {
    assert Slack(n + 1) == Slack(n) + 0.005;
  }
}
