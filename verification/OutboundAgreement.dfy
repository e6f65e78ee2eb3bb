/**
 * The device-wide outbound rate agrees with the interfaces' as well: where the inbound counters are there, the outbound
 * series are the inbound series of the rows with the two directions exchanged.
 */
module OutboundAgreement {
  import opened Common
  import opened MetricRates
  import opened CounterResets
  import opened RateAgreement

  // ---------------------------------------------------------------- the two directions exchanged

  function Turned(c: Counter): Counter { Counter(c.name, c.outOctets, c.inOctets) }

  function TurnedAll(cs: seq<Counter>): (turned: seq<Counter>)
    ensures |turned| == |cs| && forall k :: 0 <= k < |cs| ==> turned[k] == Turned(cs[k])
  {
    if cs == [] then [] else TurnedAll(cs[..|cs| - 1]) + [Turned(cs[|cs| - 1])]
  }

  function TurnedRow(row: Row): Row { Row(row.ts, row.outOctets, row.inOctets, TurnedAll(row.counters)) }

  function TurnedRows(rows: seq<Row>): (turned: seq<Row>)
    ensures |turned| == |rows| && forall k :: 0 <= k < |rows| ==> turned[k] == TurnedRow(rows[k])
  {
    if rows == [] then [] else TurnedRows(rows[..|rows| - 1]) + [TurnedRow(rows[|rows| - 1])]
  }

  /** The row has an inbound total and an inbound count for every interface. */
  predicate CountsInbound(row: Row) {
    InTotal(row).Some? && forall k :: 0 <= k < |row.counters| ==> row.counters[k].inOctets.Some?
  }

  ghost predicate AllCountInbound(rows: seq<Row>) {
    forall i :: 0 <= i < |rows| ==> CountsInbound(rows[i])
  }

  // ---------------------------------------------------------------- the aggregate

  lemma {:induction false} SumsTurn(cs: seq<Counter>)
    ensures SumIn(TurnedAll(cs)) == SumOut(cs) && SumOut(TurnedAll(cs)) == SumIn(cs)
  {
    if cs != [] {
      SumsTurn(cs[..|cs| - 1]);
      assert TurnedAll(cs)[..|cs| - 1] == TurnedAll(cs[..|cs| - 1]);
    }
  }

  lemma TotalTurns(row: Row)
    ensures InTotal(TurnedRow(row)) == OutTotal(row)
  {
    SumsTurn(row.counters);
  }

  lemma DeltaTurns(prev: Row, row: Row)
    requires CountsInbound(prev) && CountsInbound(row) && OutTotal(prev).Some? && OutTotal(row).Some?
    ensures OutDelta(prev, row) == InDelta(TurnedRow(prev), TurnedRow(row))
  {
    TotalTurns(prev);
    TotalTurns(row);
  }

  lemma {:induction false} DeltasTurn(rows: seq<Row>)
    requires AllCountInbound(rows) && forall i :: 0 <= i < |rows| ==> OutTotal(rows[i]).Some?
    ensures OutDeltas(rows) == InDeltas(TurnedRows(rows))
  {
    if |rows| > 1 {
      var n := |rows| - 1;
      DeltasTurn(rows[..n]);
      DeltaTurns(rows[n - 1], rows[n]);
      assert TurnedRows(rows)[..n] == TurnedRows(rows[..n]);
    }
  }

  // ---------------------------------------------------------------- the interfaces

  function TurnedOctets(o: Octets): Octets { Octets(o.outOctets, o.inOctets) }

  /** The outbound side of the one view is the inbound side of the other, and the inbound count is there. */
  predicate Mirrors(v: View, w: View) {
    && v.outs == w.ins
    && (v.last.None? <==> w.last.None?)
    && (v.last.Some? ==> v.last.value.inOctets.Some? && w.last.value == TurnedOctets(v.last.value))
  }

  lemma StepMirrors(v: View, w: View, now: Octets, prevTs: Option<real>, ts: Option<real>)
    requires Mirrors(v, w) && now.inOctets.Some?
    ensures Mirrors(StepView(v, now, prevTs, ts), StepView(w, TurnedOctets(now), prevTs, ts))
  {
  }

  lemma {:induction false} RowMirrors(
    b: Buckets, c: Buckets, cs: seq<Counter>, prevTs: Option<real>, ts: Option<real>, name: string)
    requires name != "" && Mirrors(ViewOf(b, name), ViewOf(c, name))
    requires forall k :: 0 <= k < |cs| ==> cs[k].inOctets.Some?
    ensures Mirrors(ViewOf(StepCounters(b, cs, prevTs, ts), name),
                    ViewOf(StepCounters(c, TurnedAll(cs), prevTs, ts), name))
  {
    if cs != [] {
      var n := |cs| - 1;
      var init, last := cs[..n], cs[n];
      RowMirrors(b, c, init, prevTs, ts, name);
      assert TurnedAll(cs)[..n] == TurnedAll(init);
      CounterMirrors(StepCounters(b, init, prevTs, ts), StepCounters(c, TurnedAll(init), prevTs, ts), last, prevTs, ts, name);
    }
  }

  lemma CounterMirrors(b: Buckets, c: Buckets, last: Counter, prevTs: Option<real>, ts: Option<real>, name: string)
    requires name != "" && Mirrors(ViewOf(b, name), ViewOf(c, name)) && last.inOctets.Some?
    ensures Mirrors(ViewOf(StepCounter(b, last, prevTs, ts), name), ViewOf(StepCounter(c, Turned(last), prevTs, ts), name))
  {
    CounterStepsView(b, last, prevTs, ts, name);
    CounterStepsView(c, Turned(last), prevTs, ts, name);
    StepMirrors(ViewOf(b, name), ViewOf(c, name), Octets(last.inOctets, last.outOctets), prevTs, ts);
  }

  lemma OneMoreMirrors(init: seq<Row>, turned: seq<Row>, row: Row, name: string)
    requires name != "" && Mirrors(ViewOf(BucketsAfter(init), name), ViewOf(BucketsAfter(turned), name))
    requires CountsInbound(row) && |turned| == |init|
    requires init != [] ==> turned[|turned| - 1].ts == init[|init| - 1].ts
    ensures Mirrors(ViewOf(BucketsAfter(init + [row]), name), ViewOf(BucketsAfter(turned + [TurnedRow(row)]), name))
  {
    BucketsSnoc(init, row);
    BucketsSnoc(turned, TurnedRow(row));
    RowMirrors(BucketsAfter(init), BucketsAfter(turned), row.counters,
               if init == [] then None else init[|init| - 1].ts, row.ts, name);
  }

  lemma TurnedSnoc(init: seq<Row>, row: Row)
    ensures TurnedRows(init + [row]) == TurnedRows(init) + [TurnedRow(row)]
  {
    assert (init + [row])[..|init|] == init;
  }

  lemma {:induction false} RowsMirror(rows: seq<Row>, name: string)
    requires name != "" && AllCountInbound(rows)
    ensures Mirrors(ViewOf(BucketsAfter(rows), name), ViewOf(BucketsAfter(TurnedRows(rows)), name))
  {
    if rows != [] {
      var init, row := rows[..|rows| - 1], rows[|rows| - 1];
      RowsMirror(init, name);
      TurnedSnoc(init, row);
      OneMoreMirrors(init, TurnedRows(init), row, name);
      assert init + [row] == rows;
    }
  }

  /** The outbound rates of an interface are the inbound rates of the exchanged rows. */
  lemma OutboundIsInboundTurned(rows: seq<Row>, name: string)
    requires name != "" && AllCountInbound(rows)
    ensures SeriesOf(Rates(BucketsAfter(rows).outs), name) == SeriesOf(Rates(BucketsAfter(TurnedRows(rows)).ins), name)
  {
    RowsMirror(rows, name);
    SeriesIsPoints(BucketsAfter(rows), name);
    SeriesIsPoints(BucketsAfter(TurnedRows(rows)), name);
  }

  // ---------------------------------------------------------------- the agreement

  /** The readings carry the same names, and the series are the same under each. */
  ghost predicate SameSeries(
    rs: seq<Reading>, rates: map<string, seq<Point>>, qs: seq<Reading>, others: map<string, seq<Point>>) {
    && |rs| == |qs|
    && forall k :: 0 <= k < |rs| ==>
         rs[k].name == qs[k].name && SeriesOf(rates, rs[k].name) == SeriesOf(others, rs[k].name)
  }

  lemma {:induction false} SameSeriesSameSum(
    rs: seq<Reading>, rates: map<string, seq<Point>>, qs: seq<Reading>, others: map<string, seq<Point>>, i: nat)
    requires SameSeries(rs, rates, qs, others)
    requires i > 0 && forall k :: 0 <= k < |rs| ==> |SeriesOf(rates, rs[k].name)| >= i
    ensures forall k :: 0 <= k < |qs| ==> |SeriesOf(others, qs[k].name)| >= i
    ensures RateSum(rs, rates, i) == RateSum(qs, others, i)
  {
    if rs != [] {
      SameSeriesSameSum(rs[..|rs| - 1], rates, qs[..|qs| - 1], others, i);
    }
  }

  lemma AgreesUnderSameSeries(series: seq<Point>, rs: seq<Reading>, rates: map<string, seq<Point>>, qs: seq<Reading>,
                              others: map<string, seq<Point>>, i: nat)
    requires 0 < i <= |series| && Agrees(series, rs, rates, i) && SameSeries(rs, rates, qs, others)
    ensures Agrees(series, qs, others, i)
  {
    SameSeriesSameSum(rs, rates, qs, others, i);
  }

  lemma OutTotalIsThere(rows: seq<Row>, j: nat)
    requires Uniform(TurnedRows(rows)) && j < |rows|
    ensures OutTotal(rows[j]).Some?
  {
    NamesCarryBack(TurnedRows(rows), j);
    TotalTurns(rows[j]);
  }

  lemma OutSeriesTurns(rows: seq<Row>)
    requires Uniform(TurnedRows(rows)) && AllCountInbound(rows)
    ensures OutSeries(rows) == InSeries(TurnedRows(rows))
  {
    forall j | 0 <= j < |rows| ensures OutTotal(rows[j]).Some? {
      OutTotalIsThere(rows, j);
    }
    DeltasTurn(rows);
  }

  lemma NamesSurviveTurning(cs: seq<Counter>, k: nat)
    requires k < |cs|
    ensures Readings(TurnedAll(cs))[k].name == Readings(cs)[k].name == cs[k].name == TurnedAll(cs)[k].name
  {
  }

  lemma PortSeriesTurn(rows: seq<Row>, cs: seq<Counter>)
    requires AllCountInbound(rows) && forall k :: 0 <= k < |cs| ==> cs[k].name != ""
    ensures SameSeries(Readings(TurnedAll(cs)), Rates(BucketsAfter(TurnedRows(rows)).ins),
                       Readings(cs), Rates(BucketsAfter(rows).outs))
  {
    forall k | 0 <= k < |cs|
      ensures Readings(TurnedAll(cs))[k].name == Readings(cs)[k].name
      ensures SeriesOf(Rates(BucketsAfter(TurnedRows(rows)).ins), Readings(TurnedAll(cs))[k].name)
              == SeriesOf(Rates(BucketsAfter(rows).outs), Readings(TurnedAll(cs))[k].name)
    {
      NamesSurviveTurning(cs, k);
      OutboundIsInboundTurned(rows, cs[k].name);
    }
  }

  lemma LastRowIsNamed(rows: seq<Row>, k: nat)
    requires rows != [] && Uniform(TurnedRows(rows)) && k < |rows[|rows| - 1].counters|
    ensures rows[|rows| - 1].counters[k].name != ""
  {
    var turned := TurnedRows(rows);
    NamesCarryBack(turned, |rows| - 1);
    assert turned[|rows| - 1].counters[k].name != "";
  }

  /**
   * The device-wide outbound rate agrees with the interfaces', when every row counts inbound octets as well and the
   * rows are uniform in what they sent. The inbound counters may go back.
   */
  lemma OutboundAgrees(rows: seq<Row>, i: nat)
    requires Uniform(TurnedRows(rows)) && AllCountInbound(rows) && 0 < i < |rows|
    ensures |OutSeries(rows)| == |rows| - 1
    ensures Agrees(OutSeries(rows), Readings(rows[|rows| - 1].counters), Rates(BucketsAfter(rows).outs), i)
  {
    var turned, cs := TurnedRows(rows), rows[|rows| - 1].counters;
    AggregateAgrees(turned, i);
    OutSeriesTurns(rows);
    forall k | 0 <= k < |cs| ensures cs[k].name != "" {
      LastRowIsNamed(rows, k);
    }
    PortSeriesTurn(rows, cs);
    AgreesUnderSameSeries(OutSeries(rows), Readings(TurnedAll(cs)), Rates(BucketsAfter(turned).ins), Readings(cs),
                          Rates(BucketsAfter(rows).outs), i);
  }
}
