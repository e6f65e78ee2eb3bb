/** Turning stored octet counters into bit rates, for the device as a whole and for each interface. */
module MetricRates {
  import opened Common

  /** One interface's counters under its label; an empty label belongs to no interface. */
  datatype Counter = Counter(name: string, inOctets: Option<int>, outOctets: Option<int>)

  /** One stored metric row; time in seconds. */
  datatype Row = Row(ts: Option<real>, inOctets: Option<int>, outOctets: Option<int>, counters: seq<Counter>)

  datatype Point = Point(t: real, v: real)

  // ---------------------------------------------------------------- rounding

  /** Nearest integer, ties to even. */
  function RoundEven(y: real): int {
    var below := y.Floor;
    var part := y - below as real;
    if part < 0.5 || (part == 0.5 && below % 2 == 0) then below else below + 1
  }

  function Round2(x: real): real { RoundEven(x * 100.0) as real / 100.0 }

  lemma RoundingError(x: real)
    ensures x - 0.005 <= Round2(x) <= x + 0.005
    ensures x >= 0.0 ==> Round2(x) >= 0.0
  {
    var y := x * 100.0;
    assert y - 0.5 <= RoundEven(y) as real <= y + 0.5;
    if x >= 0.0 {
      assert y >= 0.0 && y.Floor >= 0;
    }
  }

  /** The nearest integer, and of two equally near ones the even one. */
  lemma RoundEvenIs(y: real)
    ensures y - 0.5 <= RoundEven(y) as real <= y + 0.5
    ensures (RoundEven(y) as real == y - 0.5 || RoundEven(y) as real == y + 0.5) ==> RoundEven(y) % 2 == 0
  {
  }

  /** Octets moved over an interval of `seconds` that ends at time `end`. */
  datatype Delta = Delta(end: real, octets: int, seconds: real)

  /** Bits per second, before rounding. */
  function Bps(octets: int, seconds: real): real {
    if seconds > 0.0 then (octets * 8) as real / seconds else 0.0
  }

  function ToPoint(d: Delta): Point { Point(d.end, Round2(Bps(d.octets, d.seconds))) }

  /** The series of rates a list of intervals gives. */
  function Points(ds: seq<Delta>): (series: seq<Point>)
    ensures |series| == |ds|
    ensures forall k :: 0 <= k < |ds| ==> series[k] == ToPoint(ds[k])
  {
    if ds == [] then [] else Points(ds[..|ds| - 1]) + [ToPoint(ds[|ds| - 1])]
  }

  lemma PointsSnoc(ds: seq<Delta>, d: Delta)
    ensures Points(ds + [d]) == Points(ds) + [ToPoint(d)]
  {
    assert (ds + [d])[..|ds|] == ds;
  }

  lemma {:induction false} PointsJoin(xs: seq<Delta>, ys: seq<Delta>)
    ensures Points(xs + ys) == Points(xs) + Points(ys)
  {
    if ys == [] {
      assert xs + ys == xs;
    } else {
      var init, last := ys[..|ys| - 1], ys[|ys| - 1];
      PointsJoin(xs, init);
      PointsSnoc(xs + init, last);
      assert (xs + init) + [last] == xs + ys;
    }
  }

  // ---------------------------------------------------------------- the aggregate

  function OrZero(x: Option<int>): int { if x.Some? then x.value else 0 }

  function SumIn(counters: seq<Counter>): int {
    if counters == [] then 0
    else SumIn(counters[..|counters| - 1]) + OrZero(counters[|counters| - 1].inOctets)
  }

  function SumOut(counters: seq<Counter>): int {
    if counters == [] then 0
    else SumOut(counters[..|counters| - 1]) + OrZero(counters[|counters| - 1].outOctets)
  }

  /** The summed counters of the row, or their recomputation when either sum is missing. */
  function InTotal(row: Row): Option<int> {
    if (row.inOctets.None? || row.outOctets.None?) && row.counters != [] then Some(SumIn(row.counters)) else row.inOctets
  }

  function OutTotal(row: Row): Option<int> {
    if (row.inOctets.None? || row.outOctets.None?) && row.counters != [] then Some(SumOut(row.counters)) else row.outOctets
  }

  /** Both rows carry a time and an inbound total, and time moved forward. */
  predicate Comparable(prev: Row, row: Row) {
    && prev.ts.Some? && row.ts.Some? && row.ts.value > prev.ts.value
    && InTotal(prev).Some? && InTotal(row).Some?
  }

  /** The inbound movement between two rows, unless it cannot be told or the counter went back. */
  function InDelta(prev: Row, row: Row): seq<Delta> {
    if Comparable(prev, row) && InTotal(row).value >= InTotal(prev).value then
      [Delta(row.ts.value, InTotal(row).value - InTotal(prev).value, row.ts.value - prev.ts.value)]
    else []
  }

  /** Outbound octets of the interval; a missing total counts as nothing sent. */
  function OutMoved(prev: Row, row: Row): int {
    if OutTotal(prev).Some? && OutTotal(row).Some? then OutTotal(row).value - OutTotal(prev).value else 0
  }

  function OutDelta(prev: Row, row: Row): seq<Delta> {
    if Comparable(prev, row) && OutMoved(prev, row) >= 0 then
      [Delta(row.ts.value, OutMoved(prev, row), row.ts.value - prev.ts.value)]
    else []
  }

  function InDeltas(rows: seq<Row>): seq<Delta> {
    if |rows| < 2 then []
    else InDeltas(rows[..|rows| - 1]) + InDelta(rows[|rows| - 2], rows[|rows| - 1])
  }

  function OutDeltas(rows: seq<Row>): seq<Delta> {
    if |rows| < 2 then []
    else OutDeltas(rows[..|rows| - 1]) + OutDelta(rows[|rows| - 2], rows[|rows| - 1])
  }

  function InSeries(rows: seq<Row>): seq<Point> { Points(InDeltas(rows)) }
  function OutSeries(rows: seq<Row>): seq<Point> { Points(OutDeltas(rows)) }

  // ---------------------------------------------------------------- the interfaces

  datatype Octets = Octets(inOctets: Option<int>, outOctets: Option<int>)

  /** What is known per interface name: the last counters seen, and the intervals so far. */
  datatype Buckets = Buckets(last: map<string, Octets>, ins: map<string, seq<Delta>>, outs: map<string, seq<Delta>>)

  function DeltasOf(m: map<string, seq<Delta>>, name: string): seq<Delta> { if name in m then m[name] else [] }

  /** The movement of one counter over the interval between two rows, if it can be told. */
  function CounterDelta(before: Option<int>, now: Option<int>, prevTs: Option<real>, ts: Option<real>): seq<Delta> {
    if prevTs.Some? && ts.Some? && ts.value > prevTs.value && before.Some? && now.Some? && now.value >= before.value then
      [Delta(ts.value, now.value - before.value, ts.value - prevTs.value)]
    else []
  }

  /** The buckets after one reading of the interface `name`. */
  function StepNamed(b: Buckets, name: string, now: Octets, prevTs: Option<real>, ts: Option<real>): Buckets {
    var before := if name in b.last then b.last[name] else Octets(None, None);
    var inDelta := CounterDelta(before.inOctets, now.inOctets, prevTs, ts);
    var outDelta := if before.inOctets.Some? && now.inOctets.Some?
                    then CounterDelta(before.outOctets, now.outOctets, prevTs, ts) else [];
    Buckets(b.last[name := now],
            b.ins[name := DeltasOf(b.ins, name) + inDelta],
            b.outs[name := DeltasOf(b.outs, name) + outDelta])
  }

  function StepCounter(b: Buckets, c: Counter, prevTs: Option<real>, ts: Option<real>): Buckets {
    if c.name == "" then b else StepNamed(b, c.name, Octets(c.inOctets, c.outOctets), prevTs, ts)
  }

  function StepCounters(b: Buckets, counters: seq<Counter>, prevTs: Option<real>, ts: Option<real>): Buckets {
    if counters == [] then b
    else StepCounter(StepCounters(b, counters[..|counters| - 1], prevTs, ts), counters[|counters| - 1], prevTs, ts)
  }

  /** The per-interface buckets after all rows. */
  function BucketsAfter(rows: seq<Row>): Buckets {
    if rows == [] then Buckets(map[], map[], map[])
    else
      var n := |rows| - 1;
      StepCounters(BucketsAfter(rows[..n]), rows[n].counters, if n > 0 then rows[n - 1].ts else None, rows[n].ts)
  }

  /** The rate series of every interface. */
  function Rates(m: map<string, seq<Delta>>): map<string, seq<Point>> { map name | name in m :: Points(m[name]) }

  // ---------------------------------------------------------------- the loop

  /** One pass over the rows. The outbound series is only filled when the inbound one is asked for too. */
  method BuildMetricSeries(rows: seq<Row>, wantIn: bool, wantOut: bool)
    returns (inSeries: seq<Point>, outSeries: seq<Point>, inBps: map<string, seq<Point>>, outBps: map<string, seq<Point>>)
    ensures inSeries == if wantIn then InSeries(rows) else []
    ensures outSeries == if wantIn && wantOut then OutSeries(rows) else []
    ensures inBps == Rates(BucketsAfter(rows).ins) && outBps == Rates(BucketsAfter(rows).outs)
  {
    var prevTs: Option<real>, prevIn: Option<int>, prevOut: Option<int> := None, None, None;
    var prevIfOct: map<string, Octets> := map[];
    inSeries, outSeries, inBps, outBps := [], [], map[], map[];
    for i := 0 to |rows|
      invariant i > 0 ==> (prevTs, prevIn, prevOut) == (rows[i - 1].ts, InTotal(rows[i - 1]), OutTotal(rows[i - 1]))
      invariant i == 0 ==> prevTs == None
      invariant inSeries == if wantIn then InSeries(rows[..i]) else []
      invariant outSeries == if wantIn && wantOut then OutSeries(rows[..i]) else []
      invariant prevIfOct == BucketsAfter(rows[..i]).last
      invariant inBps == Rates(BucketsAfter(rows[..i]).ins) && outBps == Rates(BucketsAfter(rows[..i]).outs)
    {
      assert rows[..i + 1][..i] == rows[..i];
      ghost var prev := if i > 0 then rows[i - 1] else Row(None, None, None, []);
      var inI, outI, inPoint, outPoint := Aggregate(rows[i], prevTs, prevIn, prevOut, wantIn, wantOut, prev);
      if i > 0 {
        PointsJoin(InDeltas(rows[..i]), InDelta(prev, rows[i]));
        PointsJoin(OutDeltas(rows[..i]), OutDelta(prev, rows[i]));
      }
      inSeries, outSeries := inSeries + inPoint, outSeries + outPoint;
      prevIfOct, inBps, outBps :=
        AddCounters(BucketsAfter(rows[..i]), prevIfOct, inBps, outBps, rows[i].counters, prevTs, rows[i].ts);
      prevTs, prevIn, prevOut := rows[i].ts, inI, outI;
    }
    assert rows[..|rows|] == rows;
  }

  /** The aggregate half of one round: the row's totals and the points they give. */
  method Aggregate(row: Row, prevTs: Option<real>, prevIn: Option<int>, prevOut: Option<int>,
                   wantIn: bool, wantOut: bool, ghost prev: Row)
    returns (inI: Option<int>, outI: Option<int>, inPoint: seq<Point>, outPoint: seq<Point>)
    requires prevTs == prev.ts && (prevTs.Some? ==> prevIn == InTotal(prev) && prevOut == OutTotal(prev))
    ensures inI == InTotal(row) && outI == OutTotal(row)
    ensures inPoint == if wantIn then Points(InDelta(prev, row)) else []
    ensures outPoint == if wantIn && wantOut then Points(OutDelta(prev, row)) else []
  {
    inPoint, outPoint := [], [];
    inI, outI := row.inOctets, row.outOctets;
    if (inI.None? || outI.None?) && row.counters != [] {
      inI, outI := Some(SumIn(row.counters)), Some(SumOut(row.counters));
    }
    if row.ts.Some? && prevTs.Some? && inI.Some? && prevIn.Some? && wantIn {
      var dt := row.ts.value - prevTs.value;
      if dt > 0.0 {
        var din := inI.value - prevIn.value;
        var dout := if outI.Some? && prevOut.Some? then outI.value - prevOut.value else 0;
        if din >= 0 {
          inPoint := [Rate(row.ts.value, din, dt)];
        }
        if dout >= 0 && wantOut {
          outPoint := [Rate(row.ts.value, dout, dt)];
        }
      }
    }
  }

  /** One appended point: `round(octets * 8 / dt, 2)` at time `t`. */
  function Rate(t: real, octets: int, dt: real): Point { ToPoint(Delta(t, octets, dt)) }

  function SeriesOf(m: map<string, seq<Point>>, name: string): seq<Point> { if name in m then m[name] else [] }

  method AddCounters(ghost start: Buckets, last0: map<string, Octets>, ins0: map<string, seq<Point>>,
                     outs0: map<string, seq<Point>>, counters: seq<Counter>, prevTs: Option<real>, ts: Option<real>)
    returns (last: map<string, Octets>, ins: map<string, seq<Point>>, outs: map<string, seq<Point>>)
    requires last0 == start.last && ins0 == Rates(start.ins) && outs0 == Rates(start.outs)
    ensures var b := StepCounters(start, counters, prevTs, ts);
            last == b.last && ins == Rates(b.ins) && outs == Rates(b.outs)
  {
    last, ins, outs := last0, ins0, outs0;
    for k := 0 to |counters|
      invariant var b := StepCounters(start, counters[..k], prevTs, ts);
                last == b.last && ins == Rates(b.ins) && outs == Rates(b.outs)
    {
      assert counters[..k + 1][..k] == counters[..k];
      last, ins, outs := AddCounter(StepCounters(start, counters[..k], prevTs, ts), last, ins, outs, counters[k], prevTs, ts);
    }
    assert counters[..|counters|] == counters;
  }

  method AddCounter(ghost b: Buckets, last0: map<string, Octets>, ins0: map<string, seq<Point>>,
                    outs0: map<string, seq<Point>>, c: Counter, prevTs: Option<real>, ts: Option<real>)
    returns (last: map<string, Octets>, ins: map<string, seq<Point>>, outs: map<string, seq<Point>>)
    requires last0 == b.last && ins0 == Rates(b.ins) && outs0 == Rates(b.outs)
    ensures var after := StepCounter(b, c, prevTs, ts);
            last == after.last && ins == Rates(after.ins) && outs == Rates(after.outs)
  {
    last, ins, outs := last0, ins0, outs0;
    if c.name != "" {
      last, ins, outs := AddNamed(b, last, ins, outs, c.name, Octets(c.inOctets, c.outOctets), prevTs, ts);
    }
  }

  method AddNamed(ghost b: Buckets, last0: map<string, Octets>, ins0: map<string, seq<Point>>,
                  outs0: map<string, seq<Point>>, name: string, now: Octets, prevTs: Option<real>, ts: Option<real>)
    returns (last: map<string, Octets>, ins: map<string, seq<Point>>, outs: map<string, seq<Point>>)
    requires last0 == b.last && ins0 == Rates(b.ins) && outs0 == Rates(b.outs)
    ensures var after := StepNamed(b, name, now, prevTs, ts);
            last == after.last && ins == Rates(after.ins) && outs == Rates(after.outs)
  {
    var inPoint, outPoint := CounterPoints(last0, name, now, prevTs, ts);
    ghost var before := if name in b.last then b.last[name] else Octets(None, None);
    RatesStep(b.ins, name, CounterDelta(before.inOctets, now.inOctets, prevTs, ts));
    RatesStep(b.outs, name, if before.inOctets.Some? && now.inOctets.Some?
                            then CounterDelta(before.outOctets, now.outOctets, prevTs, ts) else []);
    ins := ins0[name := SeriesOf(ins0, name) + inPoint];
    outs := outs0[name := SeriesOf(outs0, name) + outPoint];
    last := last0[name := now];
  }

  lemma RatesPut(m: map<string, seq<Delta>>, name: string, ds: seq<Delta>)
    ensures Rates(m[name := ds]) == Rates(m)[name := Points(ds)]
  {
  }

  lemma RatesStep(m: map<string, seq<Delta>>, name: string, ds: seq<Delta>)
    ensures Rates(m[name := DeltasOf(m, name) + ds]) == Rates(m)[name := SeriesOf(Rates(m), name) + Points(ds)]
  {
    RatesPut(m, name, DeltasOf(m, name) + ds);
    PointsJoin(DeltasOf(m, name), ds);
    assert SeriesOf(Rates(m), name) == Points(DeltasOf(m, name));
  }

  method CounterPoints(last: map<string, Octets>, name: string, now: Octets, prevTs: Option<real>, ts: Option<real>)
    returns (inPoint: seq<Point>, outPoint: seq<Point>)
    ensures var before := if name in last then last[name] else Octets(None, None);
            && inPoint == Points(CounterDelta(before.inOctets, now.inOctets, prevTs, ts))
            && outPoint == if before.inOctets.Some? && now.inOctets.Some?
                           then Points(CounterDelta(before.outOctets, now.outOctets, prevTs, ts)) else []
  {
    inPoint, outPoint := [], [];
    if ts.Some? && prevTs.Some? && name in last && now.inOctets.Some? && last[name].inOctets.Some? {
      var dt := ts.value - prevTs.value;
      if dt > 0.0 {
        var din := now.inOctets.value - last[name].inOctets.value;
        if din >= 0 {
          inPoint := [Rate(ts.value, din, dt)];
        }
        if now.outOctets.Some? && last[name].outOctets.Some? {
          var dout := now.outOctets.value - last[name].outOctets.value;
          if dout >= 0 {
            outPoint := [Rate(ts.value, dout, dt)];
          }
        }
      }
    }
  }

  // ---------------------------------------------------------------- rates are non-negative and in time order

  /** Rows are in time order as far as they carry a time. */
  ghost predicate Ascending(rows: seq<Row>) {
    forall i, j :: 0 <= i < j < |rows| && rows[i].ts.Some? && rows[j].ts.Some? ==> rows[i].ts.value <= rows[j].ts.value
  }

  ghost predicate InTimeOrder(ds: seq<Delta>) {
    forall i, j :: 0 <= i < j < |ds| ==> ds[i].end < ds[j].end
  }

  /** Every interval ends at the time of some row, has a length, and nothing moved backwards in it. */
  ghost predicate Sound(ds: seq<Delta>, rows: seq<Row>) {
    forall i :: 0 <= i < |ds| ==> ds[i].octets >= 0 && ds[i].seconds > 0.0 && EndsAtRow(ds[i], rows)
  }

  ghost predicate EndsAtRow(d: Delta, rows: seq<Row>) {
    exists k :: 0 <= k < |rows| && rows[k].ts == Some(d.end)
  }

  lemma {:induction false} IntervalsAreOrdered(rows: seq<Row>)
    ensures Sound(InDeltas(rows), rows) && Sound(OutDeltas(rows), rows)
    ensures Ascending(rows) ==> InTimeOrder(InDeltas(rows)) && InTimeOrder(OutDeltas(rows))
  {
    if |rows| >= 2 {
      var n := |rows| - 1;
      var init := rows[..n];
      IntervalsAreOrdered(init);
      OrderedSnoc(rows, InDeltas(init), InDelta(rows[n - 1], rows[n]));
      OrderedSnoc(rows, OutDeltas(init), OutDelta(rows[n - 1], rows[n]));
      assert Ascending(rows) ==> Ascending(init);
    }
  }

  lemma OrderedSnoc(rows: seq<Row>, ds: seq<Delta>, last: seq<Delta>)
    requires |rows| >= 2 && |last| <= 1 && Sound(ds, rows[..|rows| - 1])
    requires last != [] ==>
               && rows[|rows| - 2].ts.Some? && rows[|rows| - 1].ts == Some(last[0].end)
               && rows[|rows| - 2].ts.value < last[0].end && last[0].octets >= 0 && last[0].seconds > 0.0
    ensures Sound(ds + last, rows)
    ensures Ascending(rows) && InTimeOrder(ds) ==> InTimeOrder(ds + last)
  {
    var n := |rows| - 1;
    forall i | 0 <= i < |ds + last| ensures EndsAtRow((ds + last)[i], rows) {
      if i < |ds| {
        assert EndsAtRow(ds[i], rows[..n]);
        var k :| 0 <= k < n && rows[..n][k].ts == Some(ds[i].end);
        assert rows[k].ts == Some((ds + last)[i].end);
      } else {
        assert rows[n].ts == Some((ds + last)[i].end);
      }
    }
    if Ascending(rows) && last != [] {
      forall i | 0 <= i < |ds| ensures ds[i].end < last[0].end {
        assert EndsAtRow(ds[i], rows[..n]);
        var k :| 0 <= k < n && rows[..n][k].ts == Some(ds[i].end);
        assert k < n - 1 ==> rows[k].ts.value <= rows[n - 1].ts.value;
      }
    }
  }

  /** No rate is negative, and over rows in time order the points are strictly in time order. */
  lemma RatesAreOrdered(rows: seq<Row>)
    ensures forall p :: p in InSeries(rows) || p in OutSeries(rows) ==> p.v >= 0.0
    ensures Ascending(rows) ==>
              && (forall i, j :: 0 <= i < j < |InSeries(rows)| ==> InSeries(rows)[i].t < InSeries(rows)[j].t)
              && (forall i, j :: 0 <= i < j < |OutSeries(rows)| ==> OutSeries(rows)[i].t < OutSeries(rows)[j].t)
  {
    IntervalsAreOrdered(rows);
    PointsKeepOrder(InDeltas(rows), rows);
    PointsKeepOrder(OutDeltas(rows), rows);
  }

  lemma PointsKeepOrder(ds: seq<Delta>, rows: seq<Row>)
    requires Sound(ds, rows)
    ensures forall p :: p in Points(ds) ==> p.v >= 0.0
    ensures InTimeOrder(ds) ==> forall i, j :: 0 <= i < j < |Points(ds)| ==> Points(ds)[i].t < Points(ds)[j].t
  {
    forall p | p in Points(ds) ensures p.v >= 0.0 {
      var k :| 0 <= k < |ds| && Points(ds)[k] == p;
      QuotientNonNegative((ds[k].octets * 8) as real, ds[k].seconds);
      RoundingError(Bps(ds[k].octets, ds[k].seconds));
    }
    if InTimeOrder(ds) {
      forall i, j | 0 <= i < j < |Points(ds)| ensures Points(ds)[i].t < Points(ds)[j].t {
        assert Points(ds)[i] == ToPoint(ds[i]) && Points(ds)[j] == ToPoint(ds[j]);
      }
    }
  }

  ghost predicate NotAfterNext(ds: seq<Delta>) {
    forall i, j :: 0 <= i < j < |ds| ==> ds[i].end <= ds[j].end
  }

  /** What the intervals of one interface keep; a row that names it twice gives two intervals with the same end. */
  ghost predicate PortSound(ds: seq<Delta>, rows: seq<Row>) {
    Sound(ds, rows) && (Ascending(rows) ==> NotAfterNext(ds))
  }

  lemma PortSoundGrows(ds: seq<Delta>, rows: seq<Row>)
    requires rows != [] && PortSound(ds, rows[..|rows| - 1])
    ensures PortSound(ds, rows)
  {
    forall i | 0 <= i < |ds| ensures EndsAtRow(ds[i], rows) {
      assert EndsAtRow(ds[i], rows[..|rows| - 1]);
      var k :| 0 <= k < |rows| - 1 && rows[..|rows| - 1][k].ts == Some(ds[i].end);
      assert rows[k].ts == Some(ds[i].end);
    }
    assert Ascending(rows) ==> Ascending(rows[..|rows| - 1]);
  }

  lemma PortSoundSnoc(ds: seq<Delta>, rows: seq<Row>, last: seq<Delta>)
    requires rows != [] && PortSound(ds, rows) && |last| <= 1
    requires last != [] ==>
               rows[|rows| - 1].ts == Some(last[0].end) && last[0].octets >= 0 && last[0].seconds > 0.0
    ensures PortSound(ds + last, rows)
  {
    forall i | 0 <= i < |ds + last| ensures EndsAtRow((ds + last)[i], rows) {
      if i < |ds| {
        assert EndsAtRow(ds[i], rows);
      } else {
        assert rows[|rows| - 1].ts == Some((ds + last)[i].end);
      }
    }
    if Ascending(rows) && last != [] {
      forall i | 0 <= i < |ds| ensures ds[i].end <= last[0].end {
        assert EndsAtRow(ds[i], rows);
        var k :| 0 <= k < |rows| && rows[k].ts == Some(ds[i].end);
        assert k < |rows| - 1 ==> rows[k].ts.value <= rows[|rows| - 1].ts.value;
      }
    }
  }

  ghost predicate BucketSound(b: Buckets, rows: seq<Row>, name: string) {
    PortSound(DeltasOf(b.ins, name), rows) && PortSound(DeltasOf(b.outs, name), rows)
  }

  lemma {:induction false} CountersKeepSound(
    b: Buckets, counters: seq<Counter>, prevTs: Option<real>, rows: seq<Row>, name: string)
    requires rows != [] && BucketSound(b, rows, name)
    ensures BucketSound(StepCounters(b, counters, prevTs, rows[|rows| - 1].ts), rows, name)
  {
    if counters != [] {
      var init, c, ts := counters[..|counters| - 1], counters[|counters| - 1], rows[|rows| - 1].ts;
      CountersKeepSound(b, init, prevTs, rows, name);
      var here := StepCounters(b, init, prevTs, ts);
      if c.name == name && name != "" {
        var before := if name in here.last then here.last[name] else Octets(None, None);
        PortSoundSnoc(DeltasOf(here.ins, name), rows, CounterDelta(before.inOctets, c.inOctets, prevTs, ts));
        PortSoundSnoc(DeltasOf(here.outs, name), rows,
                      if before.inOctets.Some? && c.inOctets.Some?
                      then CounterDelta(before.outOctets, c.outOctets, prevTs, ts) else []);
      }
    }
  }

  lemma {:induction false} BucketsAreSound(rows: seq<Row>, name: string)
    ensures BucketSound(BucketsAfter(rows), rows, name)
  {
    if rows != [] {
      var n := |rows| - 1;
      BucketsAreSound(rows[..n], name);
      PortSoundGrows(DeltasOf(BucketsAfter(rows[..n]).ins, name), rows);
      PortSoundGrows(DeltasOf(BucketsAfter(rows[..n]).outs, name), rows);
      CountersKeepSound(BucketsAfter(rows[..n]), rows[n].counters, if n > 0 then rows[n - 1].ts else None, rows, name);
    }
  }

  /** No interface's rate is negative, and over rows in time order its points are in time order. */
  lemma PortRatesAreOrdered(rows: seq<Row>, name: string)
    ensures var b := BucketsAfter(rows);
            forall series :: series == SeriesOf(Rates(b.ins), name) || series == SeriesOf(Rates(b.outs), name) ==>
              && (forall p :: p in series ==> p.v >= 0.0)
              && (Ascending(rows) ==> forall i, j :: 0 <= i < j < |series| ==> series[i].t <= series[j].t)
  {
    BucketsAreSound(rows, name);
    PortPointsKeepOrder(DeltasOf(BucketsAfter(rows).ins, name), rows);
    PortPointsKeepOrder(DeltasOf(BucketsAfter(rows).outs, name), rows);
  }

  lemma PortPointsKeepOrder(ds: seq<Delta>, rows: seq<Row>)
    requires PortSound(ds, rows)
    ensures forall p :: p in Points(ds) ==> p.v >= 0.0
    ensures Ascending(rows) ==> forall i, j :: 0 <= i < j < |Points(ds)| ==> Points(ds)[i].t <= Points(ds)[j].t
  {
    PointsKeepOrder(ds, rows);
    forall i, j | 0 <= i < j < |Points(ds)| ensures Ascending(rows) ==> Points(ds)[i].t <= Points(ds)[j].t {
      assert Points(ds)[i] == ToPoint(ds[i]) && Points(ds)[j] == ToPoint(ds[j]);
    }
  }

  lemma QuotientNonNegative(a: real, b: real)
    requires a >= 0.0 && b > 0.0
    ensures a / b >= 0.0
  {
  }

  // ---------------------------------------------------------------- a reset costs only its own interval

  lemma DeltasSnoc(rows: seq<Row>, prev: Row, row: Row)
    requires rows != [] && rows[|rows| - 1] == prev
    ensures InDeltas(rows + [row]) == InDeltas(rows) + InDelta(prev, row)
  {
    assert (rows + [row])[..|rows|] == rows;
  }

  lemma SharedRowSnoc(xs: seq<Row>, ys: seq<Row>, init: seq<Row>, prev: Row, row: Row)
    requires xs != [] && |ys| >= 2 && xs[|xs| - 1] == ys[0]
    requires init == ys[..|ys| - 1] && prev == ys[|ys| - 2] && row == ys[|ys| - 1]
    ensures init + [row] == ys && (xs + init[1..]) + [row] == xs + ys[1..]
    ensures (xs + init[1..])[|xs + init[1..]| - 1] == prev
  {
  }

  /** The series over two stretches that share a row is the two series one after the other. */
  lemma {:induction false} DeltasSplit(xs: seq<Row>, ys: seq<Row>)
    requires xs != [] && ys != [] && xs[|xs| - 1] == ys[0]
    ensures InDeltas(xs + ys[1..]) == InDeltas(xs) + InDeltas(ys)
    decreases |ys|
  {
    if |ys| == 1 {
      assert xs + ys[1..] == xs;
    } else {
      var init, prev, row := ys[..|ys| - 1], ys[|ys| - 2], ys[|ys| - 1];
      DeltasSplit(xs, init);
      SharedRowSnoc(xs, ys, init, prev, row);
      DeltasSnoc(init, prev, row);
      DeltasSnoc(xs + init[1..], prev, row);
      Rejoined(InDeltas(xs), InDeltas(init), InDelta(prev, row));
    }
  }

  lemma DeltasSplitAtReset(xs: seq<Row>, a: Row, b: Row, ys: seq<Row>)
    requires InTotal(a).Some? && InTotal(b).Some? && InTotal(b).value < InTotal(a).value
    ensures InDeltas(xs + [a, b] + ys) == InDeltas(xs + [a]) + InDeltas([b] + ys)
  {
    DeltasSplit(xs + [a] + [b], [b] + ys);
    SharedRow(xs, a, b, ys);
    DeltasSnoc(xs + [a], a, b);
    NothingOverReset(a, b);
  }

  lemma SharedRow(xs: seq<Row>, a: Row, b: Row, ys: seq<Row>)
    ensures (xs + [a] + [b]) + ([b] + ys)[1..] == xs + [a, b] + ys
  {
  }

  lemma NothingOverReset(a: Row, b: Row)
    requires InTotal(a).Some? && InTotal(b).Some? && InTotal(b).value < InTotal(a).value
    ensures InDelta(a, b) == []
  {
  }

  /** When the inbound counter drops from `a` to `b`, only the point of that interval is missing. */
  lemma ResetCostsOneInterval(xs: seq<Row>, a: Row, b: Row, ys: seq<Row>)
    requires InTotal(a).Some? && InTotal(b).Some? && InTotal(b).value < InTotal(a).value
    ensures InSeries(xs + [a, b] + ys) == InSeries(xs + [a]) + InSeries([b] + ys)
  {
    DeltasSplitAtReset(xs, a, b, ys);
    PointsJoin(InDeltas(xs + [a]), InDeltas([b] + ys));
  }

  // ---------------------------------------------------------------- telescoping

  /** Both rows carry a time and a total, time moved on and the total did not drop. */
  ghost predicate IsStep(prev: Row, row: Row) {
    Comparable(prev, row) && InTotal(prev).value <= InTotal(row).value
  }

  ghost predicate Steady(rows: seq<Row>) {
    && (rows != [] ==> rows[0].ts.Some? && InTotal(rows[0]).Some?)
    && (forall i: nat {:trigger StepsAt(rows, i)} :: 0 < i < |rows| ==> StepsAt(rows, i))
  }

  ghost predicate StepsAt(rows: seq<Row>, i: nat)
    requires 0 < i < |rows|
  {
    IsStep(rows[i - 1], rows[i])
  }

  function OctetsIn(ds: seq<Delta>): int { if ds == [] then 0 else OctetsIn(ds[..|ds| - 1]) + ds[|ds| - 1].octets }
  function Seconds(ds: seq<Delta>): real { if ds == [] then 0.0 else Seconds(ds[..|ds| - 1]) + ds[|ds| - 1].seconds }

  /** The octets a list of rates accounts for: each rate times the length of its interval, over eight. */
  function Accounted(series: seq<Point>, ds: seq<Delta>): real
    requires |series| == |ds|
  {
    if ds == [] then 0.0
    else
      var n := |ds| - 1;
      Accounted(series[..n], ds[..n]) + series[n].v * ds[n].seconds / 8.0
  }

  /** A rate accounts for the octets of its interval up to half a hundredth of a bit per second. */
  ghost predicate AccountsFor(p: Point, d: Delta) {
    var slack := 0.005 * d.seconds / 8.0;
    d.octets as real - slack <= p.v * d.seconds / 8.0 <= d.octets as real + slack
  }

  /** Over steady rows there is one interval per pair of rows, and the intervals add up to the whole. */
  lemma {:induction false} DeltasTelescope(rows: seq<Row>)
    requires rows != [] && Steady(rows)
    ensures var ds, first, last := InDeltas(rows), rows[0], rows[|rows| - 1];
            && |ds| == |rows| - 1 && last.ts.Some? && InTotal(last).Some?
            && (forall i :: 0 <= i < |ds| ==> ds[i].seconds > 0.0)
            && OctetsIn(ds) == InTotal(last).value - InTotal(first).value
            && Seconds(ds) == last.ts.value - first.ts.value
  {
    if |rows| > 1 {
      var n := |rows| - 1;
      var init := rows[..n];
      SteadyInit(rows);
      DeltasTelescope(init);
      assert InDeltas(rows)[..n - 1] == InDeltas(init);
    }
  }

  lemma {:induction false} RoundingAddsUp(series: seq<Point>, ds: seq<Delta>)
    requires |series| == |ds| && forall i :: 0 <= i < |ds| ==> AccountsFor(series[i], ds[i])
    ensures OctetsIn(ds) as real - 0.005 * Seconds(ds) / 8.0 <= Accounted(series, ds)
    ensures Accounted(series, ds) <= OctetsIn(ds) as real + 0.005 * Seconds(ds) / 8.0
  {
    if ds != [] {
      var n := |ds| - 1;
      RoundingAddsUp(series[..n], ds[..n]);
      assert AccountsFor(series[n], ds[n]);
      BoundsAdd(OctetsIn(ds[..n]) as real, Seconds(ds[..n]), Accounted(series[..n], ds[..n]),
                ds[n].octets as real, ds[n].seconds, series[n].v * ds[n].seconds / 8.0);
      assert OctetsIn(ds) as real == OctetsIn(ds[..n]) as real + ds[n].octets as real;
    }
  }

  lemma BoundsAdd(o: real, s: real, a: real, o': real, s': real, a': real)
    requires o - 0.005 * s / 8.0 <= a <= o + 0.005 * s / 8.0
    requires o' - 0.005 * s' / 8.0 <= a' <= o' + 0.005 * s' / 8.0
    ensures (o + o') - 0.005 * (s + s') / 8.0 <= a + a' <= (o + o') + 0.005 * (s + s') / 8.0
  {
  }

  lemma SteadyInit(rows: seq<Row>)
    requires |rows| > 1 && Steady(rows)
    ensures Steady(rows[..|rows| - 1]) && StepsAt(rows, |rows| - 1)
  {
    var init := rows[..|rows| - 1];
    forall i: nat | 0 < i < |init| ensures StepsAt(init, i) {
      assert StepsAt(rows, i);
    }
  }

  /** The intervals end at the times of the rows. */
  ghost predicate EndAtRows(ds: seq<Delta>, rows: seq<Row>) {
    |ds| == |rows| - 1 && forall i :: 0 <= i < |ds| ==> rows[i + 1].ts == Some(ds[i].end)
  }

  lemma OneMoreEnds(ds: seq<Delta>, init: seq<Row>, d: Delta, row: Row)
    requires EndAtRows(ds, init) && row.ts == Some(d.end)
    ensures EndAtRows(ds + [d], init + [row])
  {
  }

  lemma {:induction false} IntervalsEndAtRows(rows: seq<Row>)
    requires rows != [] && Steady(rows)
    ensures EndAtRows(InDeltas(rows), rows)
  {
    if |rows| > 1 {
      var n := |rows| - 1;
      SteadyInit(rows);
      IntervalsEndAtRows(rows[..n]);
      OneMoreEnds(InDeltas(rows[..n]), rows[..n], InDelta(rows[n - 1], rows[n])[0], rows[n]);
      assert rows[..n] + [rows[n]] == rows;
    }
  }

  /** The rates account for the octets moved, up to half a hundredth of a bit per second over the whole time. */
  lemma RatesTelescope(rows: seq<Row>)
    requires rows != [] && Steady(rows)
    ensures |InSeries(rows)| == |rows| - 1 && rows[|rows| - 1].ts.Some? && InTotal(rows[|rows| - 1]).Some?
    ensures var total := (InTotal(rows[|rows| - 1]).value - InTotal(rows[0]).value) as real;
            var slack := 0.005 * (rows[|rows| - 1].ts.value - rows[0].ts.value) / 8.0;
            total - slack <= Accounted(InSeries(rows), InDeltas(rows)) <= total + slack
    ensures forall i :: 0 < i < |rows| ==> rows[i].ts == Some(InSeries(rows)[i - 1].t)
  {
    var ds, series := InDeltas(rows), InSeries(rows);
    DeltasTelescope(rows);
    IntervalsEndAtRows(rows);
    PointsAccount(ds);
    RoundingAddsUp(series, ds);
  }

  /** The rows can be compared, and the outbound totals are there and did not drop; the inbound ones may have. */
  ghost predicate OutStepsAt(rows: seq<Row>, i: nat)
    requires 0 < i < |rows|
  {
    && Comparable(rows[i - 1], rows[i])
    && OutTotal(rows[i - 1]).Some? && OutTotal(rows[i]).Some?
    && OutTotal(rows[i - 1]).value <= OutTotal(rows[i]).value
  }

  ghost predicate OutSteady(rows: seq<Row>) {
    && (rows != [] ==> rows[0].ts.Some? && OutTotal(rows[0]).Some?)
    && (forall i: nat {:trigger OutStepsAt(rows, i)} :: 0 < i < |rows| ==> OutStepsAt(rows, i))
  }

  lemma OutSteadyInit(rows: seq<Row>)
    requires |rows| > 1 && OutSteady(rows)
    ensures OutSteady(rows[..|rows| - 1]) && OutStepsAt(rows, |rows| - 1)
  {
    var init := rows[..|rows| - 1];
    forall i: nat | 0 < i < |init| ensures OutStepsAt(init, i) {
      assert OutStepsAt(rows, i);
    }
  }

  lemma {:induction false} OutIntervalsEndAtRows(rows: seq<Row>)
    requires rows != [] && OutSteady(rows)
    ensures EndAtRows(OutDeltas(rows), rows)
  {
    if |rows| > 1 {
      var n := |rows| - 1;
      OutSteadyInit(rows);
      OutIntervalsEndAtRows(rows[..n]);
      OneMoreEnds(OutDeltas(rows[..n]), rows[..n], OutDelta(rows[n - 1], rows[n])[0], rows[n]);
      assert rows[..n] + [rows[n]] == rows;
    }
  }

  lemma {:induction false} OutDeltasTelescope(rows: seq<Row>)
    requires rows != [] && OutSteady(rows)
    ensures var ds, first, last := OutDeltas(rows), rows[0], rows[|rows| - 1];
            && |ds| == |rows| - 1 && last.ts.Some? && OutTotal(last).Some?
            && (forall i :: 0 <= i < |ds| ==> ds[i].seconds > 0.0)
            && OctetsIn(ds) == OutTotal(last).value - OutTotal(first).value
            && Seconds(ds) == last.ts.value - first.ts.value
  {
    if |rows| > 1 {
      var n := |rows| - 1;
      OutSteadyInit(rows);
      OutDeltasTelescope(rows[..n]);
      assert OutDeltas(rows)[..n - 1] == OutDeltas(rows[..n]);
    }
  }

  /**
   * So do the outbound rates for the octets sent, when time moves on and every row has both totals, even where the
   * inbound total drops.
   */
  lemma OutRatesTelescope(rows: seq<Row>)
    requires rows != [] && OutSteady(rows)
    ensures |OutSeries(rows)| == |rows| - 1 && rows[|rows| - 1].ts.Some? && OutTotal(rows[|rows| - 1]).Some?
    ensures var total := (OutTotal(rows[|rows| - 1]).value - OutTotal(rows[0]).value) as real;
            var slack := 0.005 * (rows[|rows| - 1].ts.value - rows[0].ts.value) / 8.0;
            total - slack <= Accounted(OutSeries(rows), OutDeltas(rows)) <= total + slack
    ensures forall i :: 0 < i < |rows| ==> rows[i].ts == Some(OutSeries(rows)[i - 1].t)
  {
    var ds, series := OutDeltas(rows), OutSeries(rows);
    OutDeltasTelescope(rows);
    OutIntervalsEndAtRows(rows);
    PointsAccount(ds);
    RoundingAddsUp(series, ds);
  }

  // ---------------------------------------------------------------- which counters the totals are

  /** Every row has a time, and times increase. */
  ghost predicate TimesIncrease(rows: seq<Row>) {
    && (forall i :: 0 <= i < |rows| ==> rows[i].ts.Some?)
    && forall i :: 0 < i < |rows| ==> rows[i - 1].ts.value < rows[i].ts.value
  }

  ghost predicate Rising(totals: seq<int>) {
    forall i :: 0 < i < |totals| ==> totals[i - 1] <= totals[i]
  }

  /** The series has a point for each row but the first, at its time, and they account for these totals' last less first, up to rounding. */
  ghost predicate Accounts(series: seq<Point>, ds: seq<Delta>, rows: seq<Row>, totals: seq<int>)
    requires |series| == |ds| && |totals| == |rows| > 0 && TimesIncrease(rows)
  {
    var moved := (totals[|rows| - 1] - totals[0]) as real;
    var slack := 0.005 * (rows[|rows| - 1].ts.value - rows[0].ts.value) / 8.0;
    && |series| == |rows| - 1 && (forall i :: 0 < i < |rows| ==> series[i - 1].t == rows[i].ts.value)
    && moved - slack <= Accounted(series, ds) <= moved + slack
  }

  lemma InSeriesFollows(rows: seq<Row>, totals: seq<int>)
    requires |totals| == |rows| > 0 && TimesIncrease(rows) && Rising(totals)
    requires forall i :: 0 <= i < |rows| ==> InTotal(rows[i]) == Some(totals[i])
    ensures Accounts(InSeries(rows), InDeltas(rows), rows, totals)
  {
    forall i: nat | 0 < i < |rows| ensures StepsAt(rows, i) {
      assert totals[i - 1] <= totals[i];
    }
    RatesTelescope(rows);
  }

  lemma OutSeriesFollows(rows: seq<Row>, totals: seq<int>)
    requires |totals| == |rows| > 0 && TimesIncrease(rows) && Rising(totals)
    requires forall i :: 0 <= i < |rows| ==> InTotal(rows[i]).Some? && OutTotal(rows[i]) == Some(totals[i])
    ensures Accounts(OutSeries(rows), OutDeltas(rows), rows, totals)
  {
    forall i: nat | 0 < i < |rows| ensures OutStepsAt(rows, i) {
      assert totals[i - 1] <= totals[i];
    }
    OutRatesTelescope(rows);
  }

  /**
   * Over rows that carry both stored sums, the rates of each direction account for its stored sums, whatever the
   * interface counters in the rows say.
   */
  lemma StoredSumsTelescope(rows: seq<Row>, ins: seq<int>, outs: seq<int>)
    requires |ins| == |outs| == |rows| > 0 && TimesIncrease(rows)
    requires forall i :: 0 <= i < |rows| ==> rows[i].inOctets == Some(ins[i]) && rows[i].outOctets == Some(outs[i])
    ensures Rising(ins) ==> Accounts(InSeries(rows), InDeltas(rows), rows, ins)
    ensures Rising(outs) ==> Accounts(OutSeries(rows), OutDeltas(rows), rows, outs)
  {
    if Rising(ins) { InSeriesFollows(rows, ins); }
    if Rising(outs) { OutSeriesFollows(rows, outs); }
  }

  /** Over rows that lack a stored sum but have counters, both directions account for the sums over the counters. */
  lemma RecomputedSumsTelescope(rows: seq<Row>, ins: seq<int>, outs: seq<int>)
    requires |ins| == |outs| == |rows| > 0 && TimesIncrease(rows)
    requires forall i :: 0 <= i < |rows| ==> rows[i].inOctets.None? || rows[i].outOctets.None?
    requires forall i :: 0 <= i < |rows| ==>
               rows[i].counters != [] && ins[i] == SumIn(rows[i].counters) && outs[i] == SumOut(rows[i].counters)
    ensures Rising(ins) ==> Accounts(InSeries(rows), InDeltas(rows), rows, ins)
    ensures Rising(outs) ==> Accounts(OutSeries(rows), OutDeltas(rows), rows, outs)
  {
    if Rising(ins) { InSeriesFollows(rows, ins); }
    if Rising(outs) { OutSeriesFollows(rows, outs); }
  }

  /** Rows without counters carry the inbound series on their inbound sum alone. */
  lemma InboundSumsTelescope(rows: seq<Row>, ins: seq<int>)
    requires |ins| == |rows| > 0 && TimesIncrease(rows) && Rising(ins)
    requires forall i :: 0 <= i < |rows| ==> rows[i].inOctets == Some(ins[i]) && rows[i].counters == []
    ensures Accounts(InSeries(rows), InDeltas(rows), rows, ins)
  {
    InSeriesFollows(rows, ins);
  }

  /** Where an outbound sum is missing, the outbound rate reads zero. */
  lemma MissingOutboundReadsZero(a: Row, b: Row)
    requires a.ts.Some? && b.ts.Some? && a.ts.value < b.ts.value && a.counters == [] && b.counters == []
    requires a.inOctets.Some? && b.inOctets.Some? && (a.outOctets.None? || b.outOctets.None?)
    ensures OutSeries([a, b]) == [Point(b.ts.value, 0.0)]
  {
    assert [a, b][..1] == [a];
    assert OutDeltas([a, b]) == OutDeltas([a]) + OutDelta(a, b) == [Delta(b.ts.value, 0, b.ts.value - a.ts.value)];
    var ds := OutDeltas([a, b]);
    assert ds[..0] == [];
    ZeroBps(b.ts.value - a.ts.value);
  }

  lemma ZeroBps(dt: real)
    requires dt > 0.0
    ensures Round2(Bps(0, dt)) == 0.0
  {
    assert 0.0 / dt == 0.0;
  }

  /** The sums run over all counters, a missing one counting as zero. */
  lemma {:induction false} SumsSplit(xs: seq<Counter>, ys: seq<Counter>)
    ensures SumIn(xs + ys) == SumIn(xs) + SumIn(ys) && SumOut(xs + ys) == SumOut(xs) + SumOut(ys)
    ensures forall c: Counter :: SumIn([c]) == OrZero(c.inOctets) && SumOut([c]) == OrZero(c.outOctets)
  {
    if ys == [] {
      assert xs + ys == xs;
    } else {
      SumsSplit(xs, ys[..|ys| - 1]);
      assert (xs + ys)[..|xs + ys| - 1] == xs + ys[..|ys| - 1];
    }
    forall c: Counter ensures SumIn([c]) == OrZero(c.inOctets) && SumOut([c]) == OrZero(c.outOctets) {
      assert [c][..0] == [];
    }
  }

  lemma {:induction false} PointsAccount(ds: seq<Delta>)
    requires forall i :: 0 <= i < |ds| ==> ds[i].seconds > 0.0
    ensures forall i :: 0 <= i < |ds| ==> AccountsFor(Points(ds)[i], ds[i])
  {
    if ds != [] {
      var init, last := ds[..|ds| - 1], ds[|ds| - 1];
      PointsAccount(init);
      IntervalError(last.octets, last.seconds);
    }
  }

  lemma IntervalError(octets: int, dt: real)
    requires dt > 0.0
    ensures octets as real - 0.005 * dt / 8.0 <= Round2(Bps(octets, dt)) * dt / 8.0 <= octets as real + 0.005 * dt / 8.0
  {
    var x, d := Bps(octets, dt), octets as real;
    var rounded := Round2(x);
    RoundingError(x);
    assert x * dt == 8.0 * d;
    var m := rounded * dt;
    ScaledBounds(x, rounded, dt, 8.0 * d, m);
    assert m / 8.0 == rounded * dt / 8.0;
  }

  lemma ScaledBounds(x: real, r: real, dt: real, bits: real, m: real)
    requires dt > 0.0 && x - 0.005 <= r <= x + 0.005 && x * dt == bits && m == r * dt
    ensures bits - 0.005 * dt <= m <= bits + 0.005 * dt
  {
    var above, below := r - (x - 0.005), (x + 0.005) - r;
    ProductNonNegative(above, dt);
    ProductNonNegative(below, dt);
    assert above * dt == m - bits + 0.005 * dt;
    assert below * dt == bits - m + 0.005 * dt;
  }

  lemma ProductNonNegative(a: real, b: real)
    requires a >= 0.0 && b > 0.0
    ensures a * b >= 0.0
  {
  }
}
