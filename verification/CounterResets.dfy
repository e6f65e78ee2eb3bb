/** A counter that drops costs the one interval it dropped in: outbound, and for each interface. */
module CounterResets {
  import opened Common
  import opened MetricRates

  // ---------------------------------------------------------------- the outbound aggregate

  lemma OutDeltasSnoc(rows: seq<Row>, prev: Row, row: Row)
    requires rows != [] && rows[|rows| - 1] == prev
    ensures OutDeltas(rows + [row]) == OutDeltas(rows) + OutDelta(prev, row)
  {
    assert (rows + [row])[..|rows|] == rows;
  }

  /** The outbound intervals of two stretches that share a row are those of the one, then those of the other. */
  lemma {:induction false} OutDeltasSplit(xs: seq<Row>, ys: seq<Row>)
    requires xs != [] && ys != [] && xs[|xs| - 1] == ys[0]
    ensures OutDeltas(xs + ys[1..]) == OutDeltas(xs) + OutDeltas(ys)
    decreases |ys|
  {
    if |ys| == 1 {
      assert xs + ys[1..] == xs;
    } else {
      var init, prev, row := ys[..|ys| - 1], ys[|ys| - 2], ys[|ys| - 1];
      OutDeltasSplit(xs, init);
      SharedRowSnoc(xs, ys, init, prev, row);
      OutDeltasSnoc(init, prev, row);
      OutDeltasSnoc(xs + init[1..], prev, row);
      Rejoined(OutDeltas(xs), OutDeltas(init), OutDelta(prev, row));
    }
  }

  lemma OutDeltasSplitAt(xs: seq<Row>, a: Row, b: Row, ys: seq<Row>)
    requires OutDelta(a, b) == []
    ensures OutDeltas(xs + [a, b] + ys) == OutDeltas(xs + [a]) + OutDeltas([b] + ys)
  {
    OutDeltasSplit(xs + [a] + [b], [b] + ys);
    SharedRow(xs, a, b, ys);
    OutDeltasSnoc(xs + [a], a, b);
  }

  /** When the outbound counter drops from `a` to `b`, only the outbound point of that interval is missing. */
  lemma OutResetCostsOneInterval(xs: seq<Row>, a: Row, b: Row, ys: seq<Row>)
    requires OutTotal(a).Some? && OutTotal(b).Some? && OutTotal(b).value < OutTotal(a).value
    ensures OutSeries(xs + [a, b] + ys) == OutSeries(xs + [a]) + OutSeries([b] + ys)
  {
    NothingOutOverReset(a, b);
    OutDeltasSplitAt(xs, a, b, ys);
    PointsJoin(OutDeltas(xs + [a]), OutDeltas([b] + ys));
  }

  lemma NothingOutOverReset(a: Row, b: Row)
    requires OutTotal(a).Some? && OutTotal(b).Some? && OutTotal(b).value < OutTotal(a).value
    ensures OutDelta(a, b) == []
  {
  }

  // ---------------------------------------------------------------- one interface

  /** What the buckets hold for one interface. */
  datatype View = View(last: Option<Octets>, ins: seq<Delta>, outs: seq<Delta>)

  function ViewOf(b: Buckets, name: string): View {
    View(if name in b.last then Some(b.last[name]) else None, DeltasOf(b.ins, name), DeltasOf(b.outs, name))
  }

  function StepView(v: View, now: Octets, prevTs: Option<real>, ts: Option<real>): View {
    var before := if v.last.Some? then v.last.value else Octets(None, None);
    View(Some(now),
         v.ins + CounterDelta(before.inOctets, now.inOctets, prevTs, ts),
         v.outs + if before.inOctets.Some? && now.inOctets.Some?
                  then CounterDelta(before.outOctets, now.outOctets, prevTs, ts) else [])
  }

  lemma CounterStepsView(b: Buckets, c: Counter, prevTs: Option<real>, ts: Option<real>, name: string)
    requires name != ""
    ensures ViewOf(StepCounter(b, c, prevTs, ts), name)
            == if c.name == name then StepView(ViewOf(b, name), Octets(c.inOctets, c.outOctets), prevTs, ts)
               else ViewOf(b, name)
  {
  }

  /** The same last counters, and the same intervals with those of `base` in front. */
  predicate Ahead(v: View, base: View, w: View) {
    v.last == w.last && v.ins == base.ins + w.ins && v.outs == base.outs + w.outs
  }

  lemma StepStaysAhead(v: View, base: View, w: View, now: Octets, prevTs: Option<real>, ts: Option<real>)
    requires Ahead(v, base, w)
    ensures Ahead(StepView(v, now, prevTs, ts), base, StepView(w, now, prevTs, ts))
  {
  }

  lemma {:induction false} RowStaysAhead(
    b: Buckets, base: View, c: Buckets, counters: seq<Counter>, prevTs: Option<real>, ts: Option<real>, name: string)
    requires name != "" && Ahead(ViewOf(b, name), base, ViewOf(c, name))
    ensures Ahead(ViewOf(StepCounters(b, counters, prevTs, ts), name), base,
                  ViewOf(StepCounters(c, counters, prevTs, ts), name))
  {
    if counters != [] {
      var init, last := counters[..|counters| - 1], counters[|counters| - 1];
      RowStaysAhead(b, base, c, init, prevTs, ts, name);
      CounterStepsView(StepCounters(b, init, prevTs, ts), last, prevTs, ts, name);
      CounterStepsView(StepCounters(c, init, prevTs, ts), last, prevTs, ts, name);
      StepStaysAhead(ViewOf(StepCounters(b, init, prevTs, ts), name), base,
                     ViewOf(StepCounters(c, init, prevTs, ts), name), Octets(last.inOctets, last.outOctets), prevTs, ts);
    }
  }

  lemma BucketsSnoc(rows: seq<Row>, row: Row)
    ensures BucketsAfter(rows + [row])
            == StepCounters(BucketsAfter(rows), row.counters,
                            if rows == [] then None else rows[|rows| - 1].ts, row.ts)
  {
    assert (rows + [row])[..|rows|] == rows;
  }

  predicate RowsAhead(zs: seq<Row>, base: View, ws: seq<Row>, name: string) {
    Ahead(ViewOf(BucketsAfter(zs), name), base, ViewOf(BucketsAfter(ws), name))
  }

  lemma OneMoreRowAhead(zs: seq<Row>, base: View, ws: seq<Row>, row: Row, name: string)
    requires name != "" && zs != [] && ws != [] && zs[|zs| - 1] == ws[|ws| - 1] && RowsAhead(zs, base, ws, name)
    ensures RowsAhead(zs + [row], base, ws + [row], name)
  {
    BucketsSnoc(zs, row);
    BucketsSnoc(ws, row);
    RowStaysAhead(BucketsAfter(zs), base, BucketsAfter(ws), row.counters, ws[|ws| - 1].ts, row.ts, name);
  }

  lemma Regrouped(xs: seq<Row>, b: Row, init: seq<Row>, last: Row)
    ensures var ws := [b] + init;
            && xs + ([b] + (init + [last])) == (xs + ws) + [last] && [b] + (init + [last]) == ws + [last]
            && (xs + ws)[|xs + ws| - 1] == ws[|ws| - 1]
  {
  }

  /** From a row on, two histories that agree at that row go on alike. */
  lemma {:induction false} RowsStayAhead(xs: seq<Row>, base: View, b: Row, ys: seq<Row>, name: string)
    requires name != "" && RowsAhead(xs + [b], base, [b], name)
    ensures RowsAhead(xs + ([b] + ys), base, [b] + ys, name)
  {
    if ys == [] {
      assert [b] + ys == [b];
    } else {
      var init, last := ys[..|ys| - 1], ys[|ys| - 1];
      assert ys == init + [last];
      RowsStayAhead(xs, base, b, init, name);
      Regrouped(xs, b, init, last);
      OneMoreRowAhead(xs + ([b] + init), base, [b] + init, last, name);
    }
  }

  /** The counters name the interface once, at place `k`. */
  ghost predicate NamedOnce(counters: seq<Counter>, k: nat, name: string) {
    && k < |counters| && counters[k].name == name && name != ""
    && forall j :: 0 <= j < |counters| && j != k ==> counters[j].name != name
  }

  lemma {:induction false} UnnamedKeepsView(
    b: Buckets, counters: seq<Counter>, prevTs: Option<real>, ts: Option<real>, name: string)
    requires name != "" && forall j :: 0 <= j < |counters| ==> counters[j].name != name
    ensures ViewOf(StepCounters(b, counters, prevTs, ts), name) == ViewOf(b, name)
  {
    if counters != [] {
      var init := counters[..|counters| - 1];
      UnnamedKeepsView(b, init, prevTs, ts, name);
      CounterStepsView(StepCounters(b, init, prevTs, ts), counters[|counters| - 1], prevTs, ts, name);
    }
  }

  lemma LastCounterSteps(b: Buckets, counters: seq<Counter>, prevTs: Option<real>, ts: Option<real>, name: string)
    requires name != "" && counters != []
    ensures var init, last := counters[..|counters| - 1], counters[|counters| - 1];
            ViewOf(StepCounters(b, counters, prevTs, ts), name)
            == if last.name == name
               then StepView(ViewOf(StepCounters(b, init, prevTs, ts), name), Octets(last.inOctets, last.outOctets),
                             prevTs, ts)
               else ViewOf(StepCounters(b, init, prevTs, ts), name)
  {
    var init, last := counters[..|counters| - 1], counters[|counters| - 1];
    CounterStepsView(StepCounters(b, init, prevTs, ts), last, prevTs, ts, name);
  }

  lemma {:induction false} NamedOnceSteps(
    b: Buckets, counters: seq<Counter>, prevTs: Option<real>, ts: Option<real>, k: nat, name: string)
    requires NamedOnce(counters, k, name)
    ensures ViewOf(StepCounters(b, counters, prevTs, ts), name)
            == StepView(ViewOf(b, name), Octets(counters[k].inOctets, counters[k].outOctets), prevTs, ts)
  {
    var n := |counters| - 1;
    LastCounterSteps(b, counters, prevTs, ts, name);
    if k < n {
      NamedOnceSteps(b, counters[..n], prevTs, ts, k, name);
    } else {
      UnnamedKeepsView(b, counters[..n], prevTs, ts, name);
    }
  }

  // ---------------------------------------------------------------- what one reading appends

  /** A rate over the interval between two times, for octets that moved up, if all of them are known. */
  function PointFor(before: Option<int>, now: Option<int>, from: Option<real>, to: Option<real>): seq<Point> {
    if before.Some? && now.Some? && from.Some? && to.Some? && from.value < to.value && before.value <= now.value
    then [Point(to.value, Round2(((now.value - before.value) * 8) as real / (to.value - from.value)))]
    else []
  }

  lemma PointForIs(before: Option<int>, now: Option<int>, from: Option<real>, to: Option<real>)
    ensures Points(CounterDelta(before, now, from, to)) == PointFor(before, now, from, to)
  {
    var ds := CounterDelta(before, now, from, to);
    if ds != [] { assert ds[..0] == []; }
  }

  /**
   * A row that names an interface once appends to its series the rates over the time since the row before, from the last
   * counters seen: the outbound one only when both inbound counters are there. It leaves its own counters as last seen.
   */
  lemma ReadingAppends(xs: seq<Row>, b: Row, k: nat, name: string)
    requires NamedOnce(b.counters, k, name)
    ensures var was, after := BucketsAfter(xs), BucketsAfter(xs + [b]);
            var now, from := b.counters[k], if xs == [] then None else xs[|xs| - 1].ts;
            var last := if name in was.last then was.last[name] else Octets(None, None);
            && name in after.last && after.last[name] == Octets(now.inOctets, now.outOctets)
            && SeriesOf(Rates(after.ins), name)
               == SeriesOf(Rates(was.ins), name) + PointFor(last.inOctets, now.inOctets, from, b.ts)
            && SeriesOf(Rates(after.outs), name)
               == SeriesOf(Rates(was.outs), name)
                  + if last.inOctets.Some? && now.inOctets.Some? then PointFor(last.outOctets, now.outOctets, from, b.ts)
                    else []
  {
    var from := if xs == [] then None else xs[|xs| - 1].ts;
    BucketsSnoc(xs, b);
    NamedOnceSteps(BucketsAfter(xs), b.counters, from, b.ts, k, name);
    SeriesIsPoints(BucketsAfter(xs), name);
    SeriesIsPoints(BucketsAfter(xs + [b]), name);
    var v, now := ViewOf(BucketsAfter(xs), name), b.counters[k];
    ViewAppends(v, Octets(now.inOctets, now.outOctets), from, b.ts);
  }

  lemma ViewAppends(v: View, now: Octets, from: Option<real>, to: Option<real>)
    ensures var w, last := StepView(v, now, from, to), if v.last.Some? then v.last.value else Octets(None, None);
            && Points(w.ins) == Points(v.ins) + PointFor(last.inOctets, now.inOctets, from, to)
            && Points(w.outs) == Points(v.outs)
                                 + if last.inOctets.Some? && now.inOctets.Some?
                                   then PointFor(last.outOctets, now.outOctets, from, to) else []
  {
    var last := if v.last.Some? then v.last.value else Octets(None, None);
    PointForIs(last.inOctets, now.inOctets, from, to);
    PointForIs(last.outOctets, now.outOctets, from, to);
    PointsJoin(v.ins, CounterDelta(last.inOctets, now.inOctets, from, to));
    PointsJoin(v.outs, CounterDelta(last.outOctets, now.outOctets, from, to));
    assert Points(v.outs) + [] == Points(v.outs);
  }

  /** A row that does not name an interface leaves its series and its last counters as they are. */
  lemma SilenceAppendsNothing(xs: seq<Row>, b: Row, name: string)
    requires name != "" && forall j :: 0 <= j < |b.counters| ==> b.counters[j].name != name
    ensures ViewOf(BucketsAfter(xs + [b]), name) == ViewOf(BucketsAfter(xs), name)
  {
    BucketsSnoc(xs, b);
    UnnamedKeepsView(BucketsAfter(xs), b.counters, if xs == [] then None else xs[|xs| - 1].ts, b.ts, name);
  }

  /**
   * When a row leaves an interface out, the next rate spreads the whole movement since the last reading over the time
   * since the row that left it out.
   */
  lemma GapShortensInterval(xs: seq<Row>, a: Row, gap: Row, b: Row, j: nat, k: nat, name: string)
    requires NamedOnce(a.counters, j, name) && NamedOnce(b.counters, k, name)
    requires forall i :: 0 <= i < |gap.counters| ==> gap.counters[i].name != name
    ensures SeriesOf(Rates(BucketsAfter(xs + [a] + [gap] + [b]).ins), name)
            == SeriesOf(Rates(BucketsAfter(xs + [a]).ins), name)
               + PointFor(a.counters[j].inOctets, b.counters[k].inOctets, gap.ts, b.ts)
  {
    ReadingAppends(xs, a, j, name);
    SilenceAppendsNothing(xs + [a], gap, name);
    SeriesIsPoints(BucketsAfter(xs + [a]), name);
    SeriesIsPoints(BucketsAfter(xs + [a] + [gap]), name);
    ReadingAppends(xs + [a] + [gap], b, k, name);
    assert ViewOf(BucketsAfter(xs + [a] + [gap]), name).last == ViewOf(BucketsAfter(xs + [a]), name).last;
  }

  /** The interfaces that have series, possibly empty ones, are those that some row names, the empty name aside. */
  lemma {:induction false} SeriesAreOfNames(rows: seq<Row>, name: string)
    ensures name in BucketsAfter(rows).ins <==> name != "" && SomeRowNames(rows, name)
    ensures name in BucketsAfter(rows).outs <==> name != "" && SomeRowNames(rows, name)
  {
    if rows != [] {
      var n := |rows| - 1;
      SeriesAreOfNames(rows[..n], name);
      CountersAddNames(BucketsAfter(rows[..n]), rows[n].counters, if n > 0 then rows[n - 1].ts else None, rows[n].ts, name);
      if SomeRowNames(rows[..n], name) {
        var i :| 0 <= i < n && RowNames(rows[..n][i], name);
        assert RowNames(rows[i], name);
      }
    }
  }

  predicate RowNames(row: Row, name: string) {
    exists k :: 0 <= k < |row.counters| && row.counters[k].name == name
  }

  predicate SomeRowNames(rows: seq<Row>, name: string) {
    exists i :: 0 <= i < |rows| && RowNames(rows[i], name)
  }

  lemma {:induction false} CountersAddNames(
    b: Buckets, counters: seq<Counter>, prevTs: Option<real>, ts: Option<real>, name: string)
    ensures var named := name != "" && exists k :: 0 <= k < |counters| && counters[k].name == name;
            && (name in StepCounters(b, counters, prevTs, ts).ins <==> name in b.ins || named)
            && (name in StepCounters(b, counters, prevTs, ts).outs <==> name in b.outs || named)
  {
    if counters != [] {
      var init := counters[..|counters| - 1];
      CountersAddNames(b, init, prevTs, ts, name);
      if k :| 0 <= k < |counters| && counters[k].name == name {
        if k < |init| { assert init[k].name == name; }
      }
      if k :| 0 <= k < |init| && init[k].name == name { assert counters[k].name == name; }
    }
  }

  // ---------------------------------------------------------------- drops

  /** The counter was last seen higher than it is now. */
  predicate Dropped(before: Option<int>, now: Option<int>) {
    before.Some? && now.Some? && now.value < before.value
  }

  /** At a row that names the interface once, its intervals split: those before, that of the row, those after. */
  lemma ViewSplitsAt(xs: seq<Row>, b: Row, ys: seq<Row>, k: nat, name: string)
    requires NamedOnce(b.counters, k, name)
    ensures RowsAhead(xs + ([b] + ys), ViewOf(BucketsAfter(xs + [b]), name), [b] + ys, name)
    ensures ViewOf(BucketsAfter(xs + [b]), name)
            == StepView(ViewOf(BucketsAfter(xs), name), Octets(b.counters[k].inOctets, b.counters[k].outOctets),
                        if xs == [] then None else xs[|xs| - 1].ts, b.ts)
  {
    BucketsSnoc(xs, b);
    NamedOnceSteps(BucketsAfter(xs), b.counters, if xs == [] then None else xs[|xs| - 1].ts, b.ts, k, name);
    FirstRowHasNoInterval(b, k, name);
    RowsStayAhead(xs, ViewOf(BucketsAfter(xs + [b]), name), b, ys, name);
  }

  lemma FirstRowHasNoInterval(b: Row, k: nat, name: string)
    requires NamedOnce(b.counters, k, name)
    ensures ViewOf(BucketsAfter([b]), name)
            == View(Some(Octets(b.counters[k].inOctets, b.counters[k].outOctets)), [], [])
  {
    BucketsSnoc([], b);
    assert [] + [b] == [b];
    NamedOnceSteps(BucketsAfter([]), b.counters, None, b.ts, k, name);
  }

  /**
   * When the counter of an interface drops at a row that names it once, only the point of that interval is missing
   * from the series of that counter.
   */
  lemma PortResetCostsOneInterval(xs: seq<Row>, b: Row, ys: seq<Row>, k: nat, name: string)
    requires NamedOnce(b.counters, k, name) && name in BucketsAfter(xs).last
    ensures var all, first, rest := BucketsAfter(xs + ([b] + ys)), BucketsAfter(xs), BucketsAfter([b] + ys);
            var before, now := first.last[name], b.counters[k];
            && (Dropped(before.inOctets, now.inOctets) ==>
                  SeriesOf(Rates(all.ins), name) == SeriesOf(Rates(first.ins), name) + SeriesOf(Rates(rest.ins), name))
            && (Dropped(before.outOctets, now.outOctets) ==>
                  SeriesOf(Rates(all.outs), name) == SeriesOf(Rates(first.outs), name) + SeriesOf(Rates(rest.outs), name))
  {
    ViewSplitsAt(xs, b, ys, k, name);
    var first, rest := ViewOf(BucketsAfter(xs), name), ViewOf(BucketsAfter([b] + ys), name);
    var all := ViewOf(BucketsAfter(xs + ([b] + ys)), name);
    DropGivesNothing(first, b.counters[k], if xs == [] then None else xs[|xs| - 1].ts, b.ts, rest, all);
    PointsJoin(first.ins, rest.ins);
    PointsJoin(first.outs, rest.outs);
    SeriesIsPoints(BucketsAfter(xs), name);
    SeriesIsPoints(BucketsAfter([b] + ys), name);
    SeriesIsPoints(BucketsAfter(xs + ([b] + ys)), name);
  }

  lemma DropGivesNothing(first: View, now: Counter, prevTs: Option<real>, ts: Option<real>, rest: View, all: View)
    requires first.last.Some?
    requires Ahead(all, StepView(first, Octets(now.inOctets, now.outOctets), prevTs, ts), rest)
    ensures Dropped(first.last.value.inOctets, now.inOctets) ==> all.ins == first.ins + rest.ins
    ensures Dropped(first.last.value.outOctets, now.outOctets) ==> all.outs == first.outs + rest.outs
  {
    assert first.ins + [] == first.ins && first.outs + [] == first.outs;
  }

  lemma SeriesIsPoints(b: Buckets, name: string)
    ensures SeriesOf(Rates(b.ins), name) == Points(ViewOf(b, name).ins)
    ensures SeriesOf(Rates(b.outs), name) == Points(ViewOf(b, name).outs)
  {
  }
}
