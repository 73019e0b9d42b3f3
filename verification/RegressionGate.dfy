/** The per-machine regression gate (`compare`, `buildBaseline`, bench/baseline.js), over the reals. */
module RegressionGate {
  import opened Sequences
  import opened Statistics

  datatype Band = Band(site: string, median: real, spreadPct: real)

  datatype Baseline = Baseline(p95SpreadPct: real, medianSpreadPct: real, bands: seq<Band>)

  datatype Options = Options(spreadTolerance: real, slowdownTolerance: real, noiseTolerance: real,
                             shiftTolerance: real, minSitesForShift: nat)

  const DEFAULTS := Options(1.25, 1.5, 2.0, 0.1, 5)

  datatype Status = Pass | Inconclusive | Fail

  function Spreads(bands: seq<Band>): (r: seq<real>)
    ensures |r| == |bands| && forall i :: 0 <= i < |bands| ==> r[i] == bands[i].spreadPct
  {
    seq(|bands|, i requires 0 <= i < |bands| => bands[i].spreadPct)
  }

  /** `new Map(bands.map((b) => [b.label, b])).get(label)`: the last band of that label. */
  function Recorded(bands: seq<Band>, site: string): (r: Option<Band>)
    ensures r.Some? ==> r.value in bands && r.value.site == site
    ensures r.None? ==> forall i :: 0 <= i < |bands| ==> bands[i].site != site
  {
    if bands == [] then None
    else
      var n := |bands| - 1;
      if bands[n].site == site then Some(bands[n]) else Recorded(bands[..n], site)
  }

  // ----- one site

  /** A band too wide to judge. */
  predicate Widened(band: Band, before: Band, o: Options) {
    before.spreadPct > 0.0 && band.spreadPct > before.spreadPct * o.spreadTolerance
  }

  function ThresholdPct(before: Band, machineSpreadPct: real, o: Options): real {
    (if before.spreadPct > machineSpreadPct then before.spreadPct else machineSpreadPct) * (o.slowdownTolerance - 1.0)
  }

  predicate Slower(band: Band, before: Band, machineSpreadPct: real, o: Options) {
    before.median > 0.0 && band.median > before.median * (1.0 + ThresholdPct(before, machineSpreadPct, o) / 100.0)
  }

  function Delta(band: Band, before: Band): real
    requires before.median > 0.0
  {
    band.median / before.median - 1.0
  }

  predicate Comparable(band: Band, base: Baseline) {
    var before := Recorded(base.bands, band.site);
    before.Some? && before.value.median > 0.0
  }

  /** Past its threshold, with a band that can be judged. */
  predicate Regressed(band: Band, base: Baseline, o: Options) {
    var before := Recorded(base.bands, band.site);
    before.Some? && !Widened(band, before.value, o) && Slower(band, before.value, base.medianSpreadPct, o)
  }

  function DeltaOf(band: Band, base: Baseline): real
    requires Comparable(band, base)
  {
    Delta(band, Recorded(base.bands, band.site).value)
  }

  // ----- the run

  function Deltas(current: seq<Band>, base: Baseline): seq<real> {
    if current == [] then []
    else
      var n := |current| - 1;
      Deltas(current[..n], base) + if Comparable(current[n], base) then [DeltaOf(current[n], base)] else []
  }

  /** The machine's own move: the median relative change, as a percentage. */
  function MachineMovePct(current: seq<Band>, base: Baseline): real {
    AbsoluteValue(Percentile(Deltas(current, base), 50.0) * 100.0)
  }

  predicate Shifted(current: seq<Band>, base: Baseline, o: Options) {
    |Deltas(current, base)| >= o.minSitesForShift && MachineMovePct(current, base) > o.shiftTolerance * 100.0
  }

  predicate NoiseWorse(current: seq<Band>, base: Baseline, o: Options) {
    base.p95SpreadPct > 0.0 && Percentile(Spreads(current), 95.0) > base.p95SpreadPct * o.noiseTolerance
  }

  /** A regression the gate counts: when the machine moved, only one that moved further than the machine. */
  predicate Counted(band: Band, current: seq<Band>, base: Baseline, o: Options) {
    && Regressed(band, base, o)
    && (Shifted(current, base, o) ==> AbsoluteValue(DeltaOf(band, base) * 100.0) > MachineMovePct(current, base))
  }

  ghost predicate AnyCounted(current: seq<Band>, base: Baseline, o: Options) {
    exists i :: 0 <= i < |current| && Counted(current[i], current, base, o)
  }

  /** How many bands of the run have a record. */
  function Compared(current: seq<Band>, base: Baseline): (n: nat)
    ensures n <= |current|
  {
    if current == [] then 0
    else
      var n := |current| - 1;
      Compared(current[..n], base) + if Recorded(base.bands, current[n].site).Some? then 1 else 0
  }

  predicate Noisy(band: Band, base: Baseline, o: Options) {
    var before := Recorded(base.bands, band.site);
    before.Some? && Widened(band, before.value, o)
  }

  /** The bands of the run that are too wide to judge, in the order of the run. */
  function NoisySites(current: seq<Band>, base: Baseline, o: Options): (r: seq<Band>)
    ensures forall b :: b in r <==> b in current && Noisy(b, base, o)
  {
    if current == [] then []
    else
      var n := |current| - 1;
      NoisySites(current[..n], base, o) + if Noisy(current[n], base, o) then [current[n]] else []
  }

  function RegressedSites(current: seq<Band>, base: Baseline, o: Options): (r: seq<Band>)
    ensures forall b :: b in r <==> b in current && Regressed(b, base, o)
  {
    if current == [] then []
    else
      var n := |current| - 1;
      RegressedSites(current[..n], base, o) + if Regressed(current[n], base, o) then [current[n]] else []
  }

  /** The bands of `sites` that count, in order. */
  function CountedSites(sites: seq<Band>, current: seq<Band>, base: Baseline, o: Options): (r: seq<Band>)
    ensures forall b :: b in r <==> b in sites && Counted(b, current, base, o)
  {
    if sites == [] then []
    else
      var n := |sites| - 1;
      CountedSites(sites[..n], current, base, o) + if Counted(sites[n], current, base, o) then [sites[n]] else []
  }

  /** `compare`: the loops over the current bands and the verdict they add up to. */
  method Compare(current: seq<Band>, base: Baseline, o: Options)
    returns (status: Status, beyondShift: seq<Band>, noisy: seq<Band>, checked: nat)
    ensures status == Fail <==> AnyCounted(current, base, o)
    ensures status == Inconclusive <==>
      !AnyCounted(current, base, o) && (Shifted(current, base, o) || NoiseWorse(current, base, o))
    ensures beyondShift == CountedSites(RegressedSites(current, base, o), current, base, o)
    ensures noisy == NoisySites(current, base, o) && checked == Compared(current, base)
  {
    hide Regressed, Noisy, Shifted, NoiseWorse, Counted;
    var regressions;
    regressions, noisy, checked := JudgeSites(current, base, o);
    var shifted, shiftPct := MeasureShift(current, base, o);
    beyondShift := FilterByShift(regressions, current, base, o, shifted, shiftPct);
    status := Pass;
    if shifted || NoiseWorse(current, base, o) {
      status := Inconclusive;
    }
    CountedAreRegressed(current, base, o);
    if |beyondShift| > 0 {
      assert beyondShift[0] in beyondShift;
      status := Fail;
    }
  }

  lemma {:induction false} CountedAreRegressed(current: seq<Band>, base: Baseline, o: Options)
    ensures AnyCounted(current, base, o) <==> CountedSites(RegressedSites(current, base, o), current, base, o) != []
  {
    var counted := CountedSites(RegressedSites(current, base, o), current, base, o);
    hide CountedSites, RegressedSites;
    if AnyCounted(current, base, o) {
      var i :| 0 <= i < |current| && Counted(current[i], current, base, o);
      assert current[i] in RegressedSites(current, base, o);
    }
    assert counted != [] ==> counted[0] in counted;
  }

  /** The first loop. */
  method JudgeSites(current: seq<Band>, base: Baseline, o: Options)
    returns (regressions: seq<Band>, noisy: seq<Band>, checked: nat)
    ensures regressions == RegressedSites(current, base, o) && noisy == NoisySites(current, base, o)
    ensures checked == Compared(current, base)
  {
    regressions, noisy, checked := [], [], 0;
    for i := 0 to |current|
      invariant regressions == RegressedSites(current[..i], base, o) && noisy == NoisySites(current[..i], base, o)
      invariant checked == Compared(current[..i], base)
    {
      var band := current[i];
      assert current[..i + 1][..i] == current[..i];
      var before := Recorded(base.bands, band.site);
      if before.Some? {
        checked := checked + 1;
        if Widened(band, before.value, o) {
          noisy := noisy + [band];
        } else if Slower(band, before.value, base.medianSpreadPct, o) {
          regressions := regressions + [band];
        }
      }
    }
    assert current[..|current|] == current;
  }

  method MeasureShift(current: seq<Band>, base: Baseline, o: Options) returns (shifted: bool, shiftPct: real)
    ensures shifted == Shifted(current, base, o) && shiftPct == MachineMovePct(current, base)
  {
    var deltas := CollectDeltas(current, base);
    shiftPct := AbsoluteValue(Percentile(deltas, 50.0) * 100.0);
    shifted := |deltas| >= o.minSitesForShift && shiftPct > o.shiftTolerance * 100.0;
  }

  /** The filter that a shift applies to the regressions, and the absence of a shift does not. */
  method FilterByShift(regressions: seq<Band>, current: seq<Band>, base: Baseline, o: Options,
                       shifted: bool, shiftPct: real)
    returns (beyondShift: seq<Band>)
    requires forall b :: b in regressions ==> Regressed(b, base, o)
    requires shifted == Shifted(current, base, o) && shiftPct == MachineMovePct(current, base)
    ensures beyondShift == CountedSites(regressions, current, base, o)
  {
    hide Shifted, MachineMovePct;
    beyondShift := [];
    for i := 0 to |regressions|
      invariant beyondShift == CountedSites(regressions[..i], current, base, o)
    {
      var r := regressions[i];
      assert regressions[..i + 1][..i] == regressions[..i];
      assert r in regressions;
      if !shifted || AbsoluteValue(DeltaOf(r, base) * 100.0) > shiftPct {
        beyondShift := beyondShift + [r];
      }
    }
    assert regressions[..|regressions|] == regressions;
  }

  method CollectDeltas(current: seq<Band>, base: Baseline) returns (deltas: seq<real>)
    ensures deltas == Deltas(current, base)
  {
    deltas := [];
    for i := 0 to |current|
      invariant deltas == Deltas(current[..i], base)
    {
      assert current[..i + 1][..i] == current[..i];
      if Comparable(current[i], base) {
        deltas := deltas + [DeltaOf(current[i], base)];
      }
    }
    assert current[..|current|] == current;
  }

  // ----- what the verdict is, in medians and spreads

  /** The last record of a label is the one that counts. */
  lemma {:induction false} RecordedIsLast(bands: seq<Band>, site: string, i: nat)
    requires i < |bands| && bands[i].site == site && forall j :: i < j < |bands| ==> bands[j].site != site
    ensures Recorded(bands, site) == Some(bands[i])
  {
    var n := |bands| - 1;
    if i < n {
      RecordedIsLast(bands[..n], site, i);
    }
  }

  /** `band` is slower than its record by more than `spreadPct`, scaled by how much slowdown is tolerated. */
  ghost predicate PastBand(band: Band, before: Band, spreadPct: real, o: Options) {
    band.median > before.median * (1.0 + spreadPct * (o.slowdownTolerance - 1.0) / 100.0)
  }

  lemma MoreSpreadIsHigher(median: real, low: real, high: real, scale: real)
    requires median > 0.0 && low <= high && scale >= 0.0
    ensures median * (1.0 + low * scale / 100.0) <= median * (1.0 + high * scale / 100.0)
  {
    assert (high - low) * scale >= 0.0;
    assert median * ((high * scale - low * scale) / 100.0) >= 0.0;
  }

  lemma SlowerIff(band: Band, before: Band, machineSpreadPct: real, o: Options)
    requires o.slowdownTolerance >= 1.0 && before.median > 0.0
    ensures Slower(band, before, machineSpreadPct, o)
       <==> PastBand(band, before, before.spreadPct, o) && PastBand(band, before, machineSpreadPct, o)
  {
    var own, scale := before.spreadPct, o.slowdownTolerance - 1.0;
    if own > machineSpreadPct {
      assert ThresholdPct(before, machineSpreadPct, o) == own * scale;
      MoreSpreadIsHigher(before.median, machineSpreadPct, own, scale);
    } else {
      assert ThresholdPct(before, machineSpreadPct, o) == machineSpreadPct * scale;
      MoreSpreadIsHigher(before.median, own, machineSpreadPct, scale);
    }
    hide ThresholdPct;
  }

  /**
   * A site is past its threshold exactly when it is recorded with a positive median, its own band is not wider than the
   * recorded one allows, and it got slower than both its own recorded spread and the machine's median spread excuse.
   */
  lemma RegressedIff(band: Band, base: Baseline, o: Options)
    requires o.slowdownTolerance >= 1.0
    ensures var before := Recorded(base.bands, band.site);
      Regressed(band, base, o) <==>
        && before.Some? && before.value.median > 0.0
        && (before.value.spreadPct <= 0.0 || band.spreadPct <= before.value.spreadPct * o.spreadTolerance)
        && PastBand(band, before.value, before.value.spreadPct, o) && PastBand(band, before.value, base.medianSpreadPct, o)
  {
    var before := Recorded(base.bands, band.site);
    if before.Some? && before.value.median > 0.0 {
      SlowerIff(band, before.value, base.medianSpreadPct, o);
      hide Slower;
    }
    hide Recorded, PastBand;
  }

  /** So a site within either spread never counts against a run, and one past both with an unwidened band is always in the list. */
  lemma {:induction false} WithinEitherSpreadNeverCounts(band: Band, current: seq<Band>, base: Baseline, o: Options)
    requires o.slowdownTolerance >= 1.0 && Recorded(base.bands, band.site).Some?
    ensures var before := Recorded(base.bands, band.site).value;
      && (!PastBand(band, before, before.spreadPct, o) || !PastBand(band, before, base.medianSpreadPct, o) ==>
            !Counted(band, current, base, o) && band !in RegressedSites(current, base, o))
      && (band in current && before.median > 0.0 && band.spreadPct <= before.spreadPct * o.spreadTolerance
          && PastBand(band, before, before.spreadPct, o) && PastBand(band, before, base.medianSpreadPct, o) ==>
            band in RegressedSites(current, base, o))
  {
    RegressedIff(band, base, o);
    hide Regressed, PastBand, Recorded;
  }

  /** The machine moved when enough sites were compared and the median move is beyond the tolerance. */
  ghost predicate MachineMoved(moves: seq<real>, o: Options) {
    |moves| >= o.minSitesForShift && AbsoluteValue(Median(moves)) > o.shiftTolerance
  }

  lemma ScaledBy100(x: real, y: real)
    ensures AbsoluteValue(x * 100.0) == AbsoluteValue(x) * 100.0
    ensures x * 100.0 > y * 100.0 <==> x > y
  {
  }

  /**
   * The verdict: a regressed site counts unless the machine moved at least as far as it did, in either direction; without
   * one, the run is inconclusive when the machine moved or the run is noisier than its record, at the 95th percentile.
   */
  lemma {:induction false} VerdictIff(band: Band, current: seq<Band>, base: Baseline, o: Options)
    ensures var moves := Deltas(current, base);
      && (Counted(band, current, base, o) <==>
            && Regressed(band, base, o)
            && (MachineMoved(moves, o) ==> AbsoluteValue(DeltaOf(band, base)) > AbsoluteValue(Median(moves))))
      && (Shifted(current, base, o) <==> MachineMoved(moves, o))
      && (NoiseWorse(current, base, o) <==>
            0.0 < base.p95SpreadPct && base.p95SpreadPct * o.noiseTolerance < Percentile(Spreads(current), 95.0))
  {
    hide Percentile, Median, Deltas, Recorded, Spreads;
    var moves := Deltas(current, base);
    MedianIsPercentile50(moves);
    var m := Median(moves);
    ScaledBy100(m, 0.0);
    ScaledBy100(AbsoluteValue(m), o.shiftTolerance);
    if Regressed(band, base, o) {
      ScaledBy100(DeltaOf(band, base), 0.0);
      ScaledBy100(AbsoluteValue(DeltaOf(band, base)), AbsoluteValue(m));
    }
  }

  /** The move of one compared site, as a fraction of its recorded median. */
  function MoveOf(band: Band, base: Baseline): seq<real> {
    var before := Recorded(base.bands, band.site);
    if before.Some? && before.value.median > 0.0 then [band.median / before.value.median - 1.0] else []
  }

  /** Every list and count of the report takes the run's bands one by one, in order. */
  lemma {:induction false} BandByBand(a: seq<Band>, b: Band, base: Baseline, o: Options)
    ensures RegressedSites(a + [b], base, o) == RegressedSites(a, base, o) + if Regressed(b, base, o) then [b] else []
    ensures NoisySites(a + [b], base, o) == NoisySites(a, base, o) + if Noisy(b, base, o) then [b] else []
    ensures Deltas(a + [b], base) == Deltas(a, base) + MoveOf(b, base)
    ensures Compared(a + [b], base)
         == Compared(a, base) + if exists i :: 0 <= i < |base.bands| && base.bands[i].site == b.site then 1 else 0
  {
    hide Regressed, Noisy;
    assert (a + [b])[..|a|] == a;
    RecordedIff(base.bands, b.site);
    hide Recorded;
  }

  lemma {:induction false} RecordedIff(bands: seq<Band>, site: string)
    ensures Recorded(bands, site).Some? <==> exists i :: 0 <= i < |bands| && bands[i].site == site
  {
    var r := Recorded(bands, site);
    if r.Some? {
      var i :| 0 <= i < |bands| && bands[i] == r.value;
    }
  }

  /** Sites that a list of regressions keeps as counted, one by one. */
  lemma {:induction false} CountedOneByOne(sites: seq<Band>, b: Band, current: seq<Band>, base: Baseline, o: Options)
    ensures CountedSites(sites + [b], current, base, o)
         == CountedSites(sites, current, base, o) + if Counted(b, current, base, o) then [b] else []
  {
    hide Counted;
    assert (sites + [b])[..|sites|] == sites;
  }

  // ----- what the verdict can and cannot be moved by

  lemma {:induction false} RegressedIsComparable(current: seq<Band>, base: Baseline, o: Options, i: nat)
    requires i < |current| && Regressed(current[i], base, o)
    ensures Deltas(current, base) != []
  {
    var n := |current| - 1;
    if i < n {
      RegressedIsComparable(current[..n], base, o, i);
    }
  }

  /** On each side, fewer than half of the compared sites moved further than `t`. */
  predicate MinorityMoved(current: seq<Band>, base: Baseline, t: real) {
    var deltas := Deltas(current, base);
    2 * CountAbove(deltas, t) < |deltas| && 2 * CountBelow(deltas, -t) < |deltas|
  }

  lemma MinorityIsNoShift(current: seq<Band>, base: Baseline, o: Options)
    requires MinorityMoved(current, base, o.shiftTolerance)
    ensures !Shifted(current, base, o)
  {
    var deltas := Deltas(current, base);
    MedianResistsAMinority(deltas, -o.shiftTolerance, o.shiftTolerance);
    MedianIsPercentile50(deltas);
  }

  /**
   * While fewer than half of the compared sites got slower beyond the tolerance, and fewer than half got faster,
   * one regressed site fails the run, however the others moved.
   */
  lemma MinorityCannotHideARegression(current: seq<Band>, base: Baseline, o: Options)
    requires MinorityMoved(current, base, o.shiftTolerance)
    ensures AnyCounted(current, base, o) <==> exists i :: 0 <= i < |current| && Regressed(current[i], base, o)
  {
    hide Regressed, Shifted, MinorityMoved;
    MinorityIsNoShift(current, base, o);
    if i :| 0 <= i < |current| && Regressed(current[i], base, o) {
      assert Counted(current[i], current, base, o);
    }
  }

  /** Every compared site moved by the same factor. */
  ghost predicate Uniform(current: seq<Band>, base: Baseline, move: real) {
    forall i :: 0 <= i < |current| && Comparable(current[i], base) ==>
      current[i].median == Recorded(base.bands, current[i].site).value.median * (1.0 + move)
  }

  lemma DivideBack(x: real, m: real, factor: real)
    requires m > 0.0 && x == m * factor
    ensures x / m == factor
  {
    var quotient := x / m;
    assert quotient * m == x;
    assert (quotient - factor) * m == 0.0;
  }

  lemma DeltaIsMove(band: Band, before: Band, move: real)
    requires before.median > 0.0 && band.median == before.median * (1.0 + move)
    ensures Delta(band, before) == move
  {
    DivideBack(band.median, before.median, 1.0 + move);
  }

  lemma {:induction false} UniformDeltas(current: seq<Band>, base: Baseline, move: real)
    requires Uniform(current, base, move)
    ensures forall i :: 0 <= i < |Deltas(current, base)| ==> Deltas(current, base)[i] == move
  {
    if current != [] {
      var n := |current| - 1;
      assert forall i :: 0 <= i < n ==> current[..n][i] == current[i];
      UniformDeltas(current[..n], base, move);
      if Comparable(current[n], base) {
        DeltaIsMove(current[n], Recorded(base.bands, current[n].site).value, move);
      }
    }
  }

  /**
   * A uniform move of the machine fails the run exactly when it does not register as a shift, for being
   * within the tolerance or on too few sites, and some site is past its threshold. So a uniform
   * slowdown beyond the tolerance across enough sites never fails.
   */
  lemma {:induction false} UniformMoveFailsOnlyUnshifted(current: seq<Band>, base: Baseline, o: Options, move: real)
    requires Uniform(current, base, move)
    ensures AnyCounted(current, base, o)
       <==> && (|Deltas(current, base)| < o.minSitesForShift || AbsoluteValue(move) <= o.shiftTolerance)
            && (exists i :: 0 <= i < |current| && Regressed(current[i], base, o))
  {
    var deltas := Deltas(current, base);
    UniformDeltas(current, base, move);
    if deltas != [] {
      PercentileWithin(deltas, 50.0, move, move);
      assert MachineMovePct(current, base) == AbsoluteValue(move) * 100.0;
    }
    forall i | 0 <= i < |current| && Regressed(current[i], base, o)
      ensures deltas != [] && DeltaOf(current[i], base) == move
    {
      RegressedIsComparable(current, base, o, i);
      DeltaIsMove(current[i], Recorded(base.bands, current[i].site).value, move);
    }
    if i :| 0 <= i < |current| && Regressed(current[i], base, o) {
      assert Counted(current[i], current, base, o) <==> !Shifted(current, base, o);
    }
  }

  // ----- a report against its own baseline

  /** `Number(x.toFixed(2))` for a non-negative number: the nearest hundredth, ties up. */
  function RoundTo2(x: real): real {
    (x * 100.0 + 0.5).Floor as real / 100.0
  }

  function BuildBaseline(bands: seq<Band>): Baseline {
    Baseline(RoundTo2(Percentile(Spreads(bands), 95.0)), RoundTo2(Percentile(Spreads(bands), 50.0)), bands)
  }

  /** A baseline keeps the bands and records the 95th percentile and the median of their spreads, to the nearest hundredth. */
  lemma BaselineRecords(bands: seq<Band>)
    ensures var base := BuildBaseline(bands);
      && base.bands == bands
      && AbsoluteValue(base.p95SpreadPct - Percentile(Spreads(bands), 95.0)) <= 0.005
      && AbsoluteValue(base.medianSpreadPct - Median(Spreads(bands))) <= 0.005
      && (base.p95SpreadPct * 100.0).Floor as real == base.p95SpreadPct * 100.0
      && (base.medianSpreadPct * 100.0).Floor as real == base.medianSpreadPct * 100.0
  {
    hide Percentile, Median, Spreads;
    MedianIsPercentile50(Spreads(bands));
    NearestHundredth(Percentile(Spreads(bands), 95.0));
    NearestHundredth(Percentile(Spreads(bands), 50.0));
  }

  lemma NearestHundredth(x: real)
    ensures AbsoluteValue(RoundTo2(x) - x) <= 0.005
    ensures (RoundTo2(x) * 100.0).Floor as real == RoundTo2(x) * 100.0
  {
    var k := (x * 100.0 + 0.5).Floor;
    assert RoundTo2(x) * 100.0 == k as real;
  }

  /** Rounding a positive figure to hundredths loses less than a third of what it leaves. */
  lemma RoundingLosesLittle(x: real, tolerance: real)
    requires x >= 0.0 && RoundTo2(x) > 0.0 && tolerance >= 1.5
    ensures x <= RoundTo2(x) * tolerance
  {
    var k := (x * 100.0 + 0.5).Floor;
    assert RoundTo2(x) * 100.0 == k as real;
    assert k >= 1;
    assert x * 100.0 < k as real + 0.5 <= k as real * 1.5;
    assert RoundTo2(x) * 1.5 <= RoundTo2(x) * tolerance;
  }

  lemma {:induction false} RecordedOfDistinct(bands: seq<Band>, i: nat)
    requires i < |bands| && forall j, k :: 0 <= j < k < |bands| ==> bands[j].site != bands[k].site
    ensures Recorded(bands, bands[i].site) == Some(bands[i])
  {
    var n := |bands| - 1;
    if i < n {
      RecordedOfDistinct(bands[..n], i);
    }
  }

  /**
   * A report compared with the baseline built from it passes, two-decimal rounding included, for all
   * tolerances at least as wide as the calibration (1.5 for the noise, where rounding matters).
   */
  lemma {:induction false} OwnBaselinePasses(bands: seq<Band>, o: Options)
    requires forall j, k :: 0 <= j < k < |bands| ==> bands[j].site != bands[k].site
    requires forall i :: 0 <= i < |bands| ==> bands[i].spreadPct >= 0.0
    requires o.spreadTolerance >= 1.0 && o.slowdownTolerance >= 1.0 && o.noiseTolerance >= 1.5 && o.shiftTolerance >= 0.0
    ensures var base := BuildBaseline(bands);
      && !AnyCounted(bands, base, o) && !Shifted(bands, base, o) && !NoiseWorse(bands, base, o)
      && NoisySites(bands, base, o) == []
    ensures forall i :: 0 <= i < |bands| ==> Recorded(BuildBaseline(bands).bands, bands[i].site) == Some(bands[i])
  {
    OwnSitesStand(bands, o);
    NoneNoisy(bands, BuildBaseline(bands), o);
    OwnLevelStands(bands, o);
    OwnNoiseStands(bands, o);
    hide Regressed, Shifted, NoiseWorse, Recorded, BuildBaseline;
  }

  /** In particular by default. */
  lemma {:induction false} OwnBaselinePassesByDefault(bands: seq<Band>)
    requires forall j, k :: 0 <= j < k < |bands| ==> bands[j].site != bands[k].site
    requires forall i :: 0 <= i < |bands| ==> bands[i].spreadPct >= 0.0
    ensures var base := BuildBaseline(bands);
      && !AnyCounted(bands, base, DEFAULTS) && !Shifted(bands, base, DEFAULTS) && !NoiseWorse(bands, base, DEFAULTS)
      && NoisySites(bands, base, DEFAULTS) == []
  {
    OwnBaselinePasses(bands, DEFAULTS);
  }

  lemma {:induction false} NoneNoisy(bands: seq<Band>, base: Baseline, o: Options)
    requires forall i :: 0 <= i < |bands| ==> !Noisy(bands[i], base, o)
    ensures NoisySites(bands, base, o) == []
  {
    hide Noisy;
    if bands != [] {
      NoneNoisy(bands[..|bands| - 1], base, o);
    }
  }

  lemma OwnSitesStand(bands: seq<Band>, o: Options)
    requires forall j, k :: 0 <= j < k < |bands| ==> bands[j].site != bands[k].site
    requires forall i :: 0 <= i < |bands| ==> bands[i].spreadPct >= 0.0
    requires o.spreadTolerance >= 1.0 && o.slowdownTolerance >= 1.0
    ensures forall i :: 0 <= i < |bands| ==>
      && Recorded(BuildBaseline(bands).bands, bands[i].site) == Some(bands[i])
      && !Regressed(bands[i], BuildBaseline(bands), o) && !Noisy(bands[i], BuildBaseline(bands), o)
  {
    var base := BuildBaseline(bands);
    forall i | 0 <= i < |bands|
      ensures Recorded(base.bands, bands[i].site) == Some(bands[i])
      ensures !Regressed(bands[i], base, o) && !Noisy(bands[i], base, o)
    {
      hide Slower, Widened, Recorded, RoundTo2;
      RecordedOfDistinct(bands, i);
      NotSlowerThanItself(bands[i], base.medianSpreadPct, o);
      NotWiderThanItself(bands[i], o);
    }
  }

  lemma OwnLevelStands(bands: seq<Band>, o: Options)
    requires forall j, k :: 0 <= j < k < |bands| ==> bands[j].site != bands[k].site
    requires o.shiftTolerance >= 0.0
    ensures !Shifted(bands, BuildBaseline(bands), o)
  {
    hide Recorded, Percentile;
    var base := BuildBaseline(bands);
    forall i | 0 <= i < |bands| ensures Recorded(base.bands, bands[i].site) == Some(bands[i]) {
      RecordedOfDistinct(bands, i);
    }
    UniformDeltas(bands, base, 0.0);
    hide Deltas;
    if Deltas(bands, base) != [] {
      PercentileWithin(Deltas(bands, base), 50.0, 0.0, 0.0);
    } else {
      PercentileOfNothing(50.0);
    }
  }

  lemma PercentileOfNothing(p: real)
    requires 0.0 <= p <= 100.0
    ensures Percentile([], p) == 0.0
  {
  }

  lemma OwnNoiseStands(bands: seq<Band>, o: Options)
    requires forall i :: 0 <= i < |bands| ==> bands[i].spreadPct >= 0.0
    requires o.noiseTolerance >= 1.5
    ensures !NoiseWorse(bands, BuildBaseline(bands), o)
  {
    hide Percentile, RoundTo2;
    SpreadsNonNegative(bands);
    if BuildBaseline(bands).p95SpreadPct > 0.0 {
      RoundingLosesLittle(Percentile(Spreads(bands), 95.0), o.noiseTolerance);
    }
  }

  lemma NotWiderThanItself(band: Band, o: Options)
    requires o.spreadTolerance >= 1.0
    ensures !Widened(band, band, o)
  {
    assert band.spreadPct > 0.0 ==> band.spreadPct * (o.spreadTolerance - 1.0) >= 0.0;
  }

  lemma NotSlowerThanItself(band: Band, machineSpreadPct: real, o: Options)
    requires band.spreadPct >= 0.0 && o.slowdownTolerance >= 1.0
    ensures !Slower(band, band, machineSpreadPct, o)
  {
    var widest := if band.spreadPct > machineSpreadPct then band.spreadPct else machineSpreadPct;
    assert widest * (o.slowdownTolerance - 1.0) >= 0.0;
    if band.median > 0.0 {
      assert band.median * (1.0 + ThresholdPct(band, machineSpreadPct, o) / 100.0) >= band.median;
    }
  }

  lemma {:induction false} SpreadsNonNegative(bands: seq<Band>)
    requires forall i :: 0 <= i < |bands| ==> bands[i].spreadPct >= 0.0
    ensures Percentile(Spreads(bands), 95.0) >= 0.0
  {
    var spreads := Spreads(bands);
    if spreads != [] {
      SortSorts(spreads);
      var sorted := Sort(spreads);
      forall i | 0 <= i < |sorted| ensures sorted[i] >= 0.0 {
        assert sorted[i] in multiset(spreads);
      }
      if |spreads| > 1 {
        InterpolateBetween(sorted, Rank(95.0, |spreads|));
      }
    }
  }

  // ----- exactly when every report passes against its own baseline

  /** A report as the harness writes it: one band a site, no negative spread. */
  ghost predicate IsReport(bands: seq<Band>) {
    && (forall j, k :: 0 <= j < k < |bands| ==> bands[j].site != bands[k].site)
    && (forall i :: 0 <= i < |bands| ==> bands[i].spreadPct >= 0.0)
  }

  ghost predicate Stands(bands: seq<Band>, o: Options) {
    var base := BuildBaseline(bands);
    && !AnyCounted(bands, base, o) && !Shifted(bands, base, o) && !NoiseWorse(bands, base, o)
    && NoisySites(bands, base, o) == []
  }

  /** Below 1.5, one site with a tiny spread is noisier than its own rounded record. */
  lemma NoisierThanItself(o: Options)
    requires o.noiseTolerance < 1.5
    ensures exists bands :: IsReport(bands) && NoiseWorse(bands, BuildBaseline(bands), o)
  {
    var least := if o.noiseTolerance < 1.0 then 1.0 else o.noiseTolerance;
    var x := 0.005 * (least + 1.5);
    assert (x * 100.0 + 0.5).Floor == 1;
    var bands := [Band("", 1.0, x)];
    assert Spreads(bands) == [x];
    SingleSpread(x);
    assert BuildBaseline(bands).p95SpreadPct == 0.01;
    assert IsReport(bands) && NoiseWorse(bands, BuildBaseline(bands), o);
  }

  lemma SingleSpread(x: real)
    ensures Percentile([x], 95.0) == Percentile([x], 50.0) == x
  {
  }

  lemma SingleIsItself(b: Band, o: Options)
    requires b.spreadPct == 1.0 && b.median == 1.0
    ensures IsReport([b]) && Recorded([b], b.site) == Some(b) && BuildBaseline([b]) == Baseline(1.0, 1.0, [b])
  {
    assert Spreads([b]) == [1.0];
    SingleSpread(1.0);
    assert (1.0 * 100.0 + 0.5).Floor == 100;
  }

  lemma {:induction false} WiderThanItself(o: Options)
    requires o.spreadTolerance < 1.0
    ensures exists bands :: IsReport(bands) && NoisySites(bands, BuildBaseline(bands), o) != []
  {
    var b := Band("", 1.0, 1.0);
    SingleIsItself(b, o);
    hide Recorded, IsReport, BuildBaseline;
    assert Noisy(b, BuildBaseline([b]), o);
    assert b in NoisySites([b], BuildBaseline([b]), o);
  }

  lemma SlowerThanItself(o: Options)
    requires o.spreadTolerance >= 1.0 && o.slowdownTolerance < 1.0 && o.shiftTolerance >= 0.0
    ensures exists bands :: IsReport(bands) && AnyCounted(bands, BuildBaseline(bands), o)
  {
    var b := Band("", 1.0, 1.0);
    SingleIsItself(b, o);
    OwnLevelStands([b], o);
    hide Recorded, IsReport, BuildBaseline, Shifted;
    assert Counted([b][0], [b], BuildBaseline([b]), o);
  }

  /** Any number of sites that never vary. */
  function Fleet(n: nat): (bands: seq<Band>)
    ensures |bands| == n
    ensures forall i :: 0 <= i < n ==> |bands[i].site| == i && bands[i].median == 1.0 && bands[i].spreadPct == 0.0
  {
    if n == 0 then [] else Fleet(n - 1) + [Band(seq(n - 1, _ => 'a'), 1.0, 0.0)]
  }

  lemma {:induction false} AllCompared(current: seq<Band>, base: Baseline)
    requires forall i :: 0 <= i < |current| ==> Comparable(current[i], base)
    ensures |Deltas(current, base)| == |current|
  {
    hide Comparable;
    if current != [] {
      AllCompared(current[..|current| - 1], base);
    }
  }

  lemma {:induction false} FleetIsReport(n: nat)
    ensures IsReport(Fleet(n))
  {
    var bands := Fleet(n);
    forall j, k | 0 <= j < k < n ensures bands[j].site != bands[k].site {
      assert |bands[j].site| == j && |bands[k].site| == k;
    }
  }

  lemma ReportIsRecorded(bands: seq<Band>, i: nat)
    requires IsReport(bands) && i < |bands|
    ensures Recorded(BuildBaseline(bands).bands, bands[i].site) == Some(bands[i])
  {
    RecordedOfDistinct(bands, i);
  }

  lemma {:induction false} FleetDeltas(n: nat)
    ensures var deltas := Deltas(Fleet(n), BuildBaseline(Fleet(n)));
      |deltas| == n && forall i :: 0 <= i < n ==> deltas[i] == 0.0
  {
    var bands, base := Fleet(n), BuildBaseline(Fleet(n));
    FleetIsReport(n);
    hide BuildBaseline, Recorded, IsReport;
    forall i | 0 <= i < n ensures Recorded(base.bands, bands[i].site) == Some(bands[i]) {
      ReportIsRecorded(bands, i);
    }
    AllCompared(bands, base);
    UniformDeltas(bands, base, 0.0);
  }

  /** A negative shift tolerance calls standing still a shift. */
  lemma {:induction false} ShiftedAgainstItself(o: Options)
    requires o.shiftTolerance < 0.0
    ensures exists bands :: IsReport(bands) && Shifted(bands, BuildBaseline(bands), o)
  {
    var n := o.minSitesForShift;
    FleetIsReport(n);
    FleetDeltas(n);
    hide Percentile, BuildBaseline, IsReport, Deltas;
    var deltas := Deltas(Fleet(n), BuildBaseline(Fleet(n)));
    if n > 0 {
      PercentileWithin(deltas, 50.0, 0.0, 0.0);
    } else {
      assert deltas == [];
      PercentileOfNothing(50.0);
    }
    assert Shifted(Fleet(n), BuildBaseline(Fleet(n)), o);
  }

  /**
   * Every report passes against the baseline built from it, with no noisy site, exactly when the tolerances leave
   * room for standing still and for the rounding of the recorded spreads, which takes 1.5 for the noise.
   */
  lemma {:induction false} EveryReportPassesItselfIff(o: Options)
    ensures (forall bands :: IsReport(bands) ==> Stands(bands, o))
       <==> o.spreadTolerance >= 1.0 && o.slowdownTolerance >= 1.0 && o.noiseTolerance >= 1.5 && o.shiftTolerance >= 0.0
  {
    hide AnyCounted, Shifted, NoiseWorse, NoisySites, BuildBaseline;
    if o.noiseTolerance < 1.5 {
      NoisierThanItself(o);
    } else if o.spreadTolerance < 1.0 {
      WiderThanItself(o);
    } else if o.shiftTolerance < 0.0 {
      ShiftedAgainstItself(o);
    } else if o.slowdownTolerance < 1.0 {
      SlowerThanItself(o);
    } else {
      forall bands | IsReport(bands) ensures Stands(bands, o) {
        OwnBaselinePasses(bands, o);
      }
    }
  }
}
