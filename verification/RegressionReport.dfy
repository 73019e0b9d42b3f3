/**
 * The reason lines of `compare` (bench/baseline.js): which are assembled, in which order, and how the site lines
 * are ranked. A line holds the figures it prints, not its wording.
 */
module RegressionReport {
  import opened Sequences
  import opened Statistics
  import opened RegressionGate

  datatype ReasonLine =
    | NoiseLine(currentP95: real, recordedP95: real)
    | ShiftLine(movePct: real, sites: nat)
    | ShareLine(moved: nat, checked: nat, beyondMachine: bool, mostOfTheRun: bool)
    | ExplainedLine(explained: nat, regressed: nat)
    | RegressionLine(site: string, before: real, after: real, deltaPct: real, thresholdPct: real)
    | NoisyLine(site: string, before: real, after: real)

  // ----- ranking

  /** `toFixed(1)` of a non-negative figure. */
  function RoundTo1(x: real): real {
    (x * 10.0 + 0.5).Floor as real / 10.0
  }

  /** A figure as the ranking's pattern finds it in a line: a sign hides it. */
  function Read(x: real): real {
    if x < 0.0 then 0.0 else RoundTo1(x)
  }

  /** The figure that the ranking reads back out of a line: rounded as printed, 0 where no figure is found. */
  function RankOf(line: ReasonLine): real {
    match line
    case RegressionLine(_, _, _, deltaPct, _) => Read(deltaPct)
    case NoisyLine(_, before, after) =>
      if Read(before) == 0.0 then 0.0 else Read(after) / Read(before)
    case _ => 0.0
  }

  function InsertRanked(line: ReasonLine, ranked: seq<ReasonLine>): (r: seq<ReasonLine>)
    ensures |r| == |ranked| + 1
  {
    if ranked == [] || RankOf(line) >= RankOf(ranked[0]) then [line] + ranked
    else [ranked[0]] + InsertRanked(line, ranked[1..])
  }

  /** `sort((a, b) => rank(b) - rank(a))`, which is stable. */
  function Ranked(lines: seq<ReasonLine>): (r: seq<ReasonLine>)
    ensures |r| == |lines|
  {
    if lines == [] then [] else InsertRanked(lines[0], Ranked(lines[1..]))
  }

  ghost predicate Descending(lines: seq<ReasonLine>) {
    forall i, j :: 0 <= i < j < |lines| ==> RankOf(lines[i]) >= RankOf(lines[j])
  }

  /** The lines of one rank, in order. */
  function OfRank(lines: seq<ReasonLine>, rank: real): seq<ReasonLine> {
    if lines == [] then []
    else (if RankOf(lines[0]) == rank then [lines[0]] else []) + OfRank(lines[1..], rank)
  }

  lemma {:induction false} InsertKeepsLines(line: ReasonLine, ranked: seq<ReasonLine>)
    ensures multiset(InsertRanked(line, ranked)) == multiset{line} + multiset(ranked)
  {
    hide RankOf;
    if ranked != [] {
      InsertKeepsLines(line, ranked[1..]);
      assert ranked == [ranked[0]] + ranked[1..];
    }
  }

  lemma {:induction false} InsertDescends(line: ReasonLine, ranked: seq<ReasonLine>)
    requires Descending(ranked)
    ensures Descending(InsertRanked(line, ranked))
  {
    hide RankOf;
    if ranked == [] || RankOf(line) >= RankOf(ranked[0]) {
    } else {
      var first, r := ranked[0], InsertRanked(line, ranked[1..]);
      InsertDescends(line, ranked[1..]);
      InsertKeepsLines(line, ranked[1..]);
      hide Descending;
      forall i | 0 <= i < |r| ensures RankOf(first) >= RankOf(r[i]) {
        FirstIsHighest(line, ranked, r[i]);
      }
      FirstDescends(first, r);
    }
  }

  lemma {:induction false} FirstIsHighest(line: ReasonLine, ranked: seq<ReasonLine>, x: ReasonLine)
    requires ranked != [] && Descending(ranked) && RankOf(line) < RankOf(ranked[0])
    requires x in InsertRanked(line, ranked[1..])
    ensures RankOf(ranked[0]) >= RankOf(x)
  {
    hide RankOf, InsertRanked;
    InsertKeepsLines(line, ranked[1..]);
    assert x in multiset(InsertRanked(line, ranked[1..]));
    assert x == line || x in ranked[1..];
  }

  lemma FirstDescends(first: ReasonLine, rest: seq<ReasonLine>)
    requires Descending(rest) && forall i :: 0 <= i < |rest| ==> RankOf(first) >= RankOf(rest[i])
    ensures Descending([first] + rest)
  {
    hide RankOf;
  }

  lemma {:induction false} InsertKeepsTies(line: ReasonLine, ranked: seq<ReasonLine>, rank: real)
    requires Descending(ranked)
    ensures OfRank(InsertRanked(line, ranked), rank) == OfRank([line] + ranked, rank)
  {
    hide RankOf;
    assert ([line] + ranked)[1..] == ranked;
    if ranked != [] && RankOf(line) < RankOf(ranked[0]) {
      var first, rest := ranked[0], ranked[1..];
      InsertKeepsTies(line, rest, rank);
      assert ([line] + rest)[1..] == rest;
      assert ([first] + InsertRanked(line, rest))[1..] == InsertRanked(line, rest);
    }
  }

  /** The ranking is a stable sort: the same lines as often, in descending rank, ties in their first order. */
  lemma {:induction false} RankSorts(lines: seq<ReasonLine>, rank: real)
    ensures multiset(Ranked(lines)) == multiset(lines) && Descending(Ranked(lines))
    ensures OfRank(Ranked(lines), rank) == OfRank(lines, rank)
  {
    hide RankOf, Descending, InsertRanked;
    if lines == [] {
      NothingDescends();
    } else {
      var first, rest := lines[0], lines[1..];
      RankSorts(rest, rank);
      InsertKeepsLines(first, Ranked(rest));
      InsertDescends(first, Ranked(rest));
      InsertKeepsTies(first, Ranked(rest), rank);
      assert lines == [first] + rest;
      assert ([first] + Ranked(rest))[1..] == Ranked(rest);
    }
  }

  lemma NothingDescends()
    ensures Descending([])
  {
  }

  // ----- the report

  function RegressionLineOf(b: Band, base: Baseline, o: Options): ReasonLine
    requires Regressed(b, base, o)
  {
    var before := Recorded(base.bands, b.site).value;
    RegressionLine(b.site, before.median, b.median, DeltaOf(b, base) * 100.0,
                   ThresholdPct(before, base.medianSpreadPct, o))
  }

  /** A line says how far a site moved, from its recorded median to the one measured now, which is the higher. */
  lemma LineShowsTheMove(b: Band, base: Baseline, o: Options)
    requires Regressed(b, base, o)
    ensures var line := RegressionLineOf(b, base, o);
      && line.site == b.site && line.after == b.median
      && Some(line.before) == (match Recorded(base.bands, b.site) case None => None case Some(r) => Some(r.median))
      && line.before > 0.0 && line.deltaPct == (line.after / line.before - 1.0) * 100.0
      && (o.slowdownTolerance >= 1.0 && base.medianSpreadPct >= 0.0 ==> line.after > line.before && line.thresholdPct >= 0.0)
  {
    hide Recorded;
    var before, t := Recorded(base.bands, b.site).value, RegressionLineOf(b, base, o).thresholdPct;
    var widest := if before.spreadPct > base.medianSpreadPct then before.spreadPct else base.medianSpreadPct;
    if o.slowdownTolerance >= 1.0 && base.medianSpreadPct >= 0.0 {
      assert t == widest * (o.slowdownTolerance - 1.0) >= 0.0;
      assert before.median * (t / 100.0) >= 0.0;
    }
  }

  function RegressionLines(sites: seq<Band>, base: Baseline, o: Options): (r: seq<ReasonLine>)
    requires forall b :: b in sites ==> Regressed(b, base, o)
    ensures |r| == |sites|
    ensures forall i :: 0 <= i < |r| ==> sites[i] in sites && r[i] == RegressionLineOf(sites[i], base, o)
  {
    if sites == [] then []
    else
      var n := |sites| - 1;
      assert sites[n] in sites;
      RegressionLines(sites[..n], base, o) + [RegressionLineOf(sites[n], base, o)]
  }

  function NoisyLineOf(b: Band, base: Baseline, o: Options): ReasonLine
    requires Noisy(b, base, o)
  {
    NoisyLine(b.site, Recorded(base.bands, b.site).value.spreadPct, b.spreadPct)
  }

  function NoisyLines(sites: seq<Band>, base: Baseline, o: Options): (r: seq<ReasonLine>)
    requires forall b :: b in sites ==> Noisy(b, base, o)
    ensures |r| == |sites|
    ensures forall i :: 0 <= i < |r| ==> sites[i] in sites && r[i] == NoisyLineOf(sites[i], base, o)
  {
    if sites == [] then []
    else
      var n := |sites| - 1;
      assert sites[n] in sites;
      NoisyLines(sites[..n], base, o) + [NoisyLineOf(sites[n], base, o)]
  }

  function When(c: bool, line: ReasonLine): (r: seq<ReasonLine>)
    ensures |r| == if c then 1 else 0
    ensures forall l :: l in r <==> c && l == line
  {
    if c then [line] else []
  }

  function Headlines(current: seq<Band>, base: Baseline, o: Options): seq<ReasonLine> {
    var regressed := |RegressedSites(current, base, o)|;
    var counted := |CountedSites(RegressedSites(current, base, o), current, base, o)|;
    var checked, shifted := Compared(current, base), Shifted(current, base, o);
    When(NoiseWorse(current, base, o), NoiseLine(Percentile(Spreads(current), 95.0), base.p95SpreadPct))
    + When(shifted, ShiftLine(Percentile(Deltas(current, base), 50.0) * 100.0, |Deltas(current, base)|))
    + When(counted > 0, ShareLine(counted, checked, shifted, MostOfTheRun(counted, checked)))
    + if regressed > counted then [ExplainedLine(regressed - counted, regressed)] else []
  }

  predicate MostOfTheRun(moved: nat, checked: nat) {
    moved as real >= 0.6 * (if checked < 1 then 1 else checked) as real
  }

  /** The report as it should be: what could not be trusted, how much moved, the sites that count, the sites not judged. */
  function Reasons(current: seq<Band>, base: Baseline, o: Options): seq<ReasonLine> {
    Headlines(current, base, o)
    + Ranked(RegressionLines(CountedSites(RegressedSites(current, base, o), current, base, o), base, o))
    + Ranked(NoisyLines(NoisySites(current, base, o), base, o))
  }

  /** The rest of `compare`: the lines are built as the source builds them, the noisy ones first, and then assembled. */
  method Report(current: seq<Band>, base: Baseline, o: Options)
    returns (status: Status, reasons: seq<ReasonLine>, checked: nat)
    ensures status == Fail <==> AnyCounted(current, base, o)
    ensures status == Inconclusive <==>
      !AnyCounted(current, base, o) && (Shifted(current, base, o) || NoiseWorse(current, base, o))
    ensures reasons == Reasons(current, base, o) && checked == Compared(current, base)
  {
    hide Regressed, Noisy, Shifted, NoiseWorse, Counted, Ranked, AnyCounted, Percentile, MostOfTheRun;
    hide RegressedSites, CountedSites, NoisySites, RegressionLines, NoisyLines;
    var beyondShift, noisy;
    status, beyondShift, noisy, checked := Compare(current, base, o);
    AllRegressed(current, base, o);
    var regressed := |RegressedSites(current, base, o)|;
    var noisyLines := Ranked(NoisyLines(noisy, base, o));
    var regressionLines := Ranked(RegressionLines(beyondShift, base, o));
    reasons := AssembleHeadlines(current, base, o, regressed, |beyondShift|, checked);
    reasons := reasons + regressionLines + noisyLines;
  }

  method AssembleHeadlines(current: seq<Band>, base: Baseline, o: Options, regressed: nat, moved: nat, checked: nat)
    returns (lines: seq<ReasonLine>)
    requires regressed == |RegressedSites(current, base, o)|
    requires moved == |CountedSites(RegressedSites(current, base, o), current, base, o)|
    requires checked == Compared(current, base)
    ensures lines == Headlines(current, base, o)
  {
    hide Shifted, NoiseWorse, Percentile, MostOfTheRun, RegressedSites, CountedSites;
    var deltas := CollectDeltas(current, base);
    var shifted := Shifted(current, base, o);
    lines := [];
    if NoiseWorse(current, base, o) {
      lines := lines + [NoiseLine(Percentile(Spreads(current), 95.0), base.p95SpreadPct)];
    }
    if shifted {
      lines := lines + [ShiftLine(Percentile(deltas, 50.0) * 100.0, |deltas|)];
    }
    if moved > 0 {
      lines := lines + [ShareLine(moved, checked, shifted, MostOfTheRun(moved, checked))];
    }
    if regressed > moved {
      lines := lines + [ExplainedLine(regressed - moved, regressed)];
    }
  }

  lemma {:induction false} AllRegressed(current: seq<Band>, base: Baseline, o: Options)
    ensures forall b :: b in CountedSites(RegressedSites(current, base, o), current, base, o) ==> Regressed(b, base, o)
    ensures forall b :: b in NoisySites(current, base, o) ==> Noisy(b, base, o)
  {
    hide Regressed, Noisy, Counted;
  }

  // ----- what a reader of the report may rely on

  lemma {:induction false} CountedIsSomeOf(sites: seq<Band>, current: seq<Band>, base: Baseline, o: Options)
    ensures |CountedSites(sites, current, base, o)| <= |sites|
    ensures !Shifted(current, base, o) && (forall b :: b in sites ==> Regressed(b, base, o)) ==>
      CountedSites(sites, current, base, o) == sites
  {
    hide Regressed, Shifted;
    if sites != [] {
      var n := |sites| - 1;
      CountedIsSomeOf(sites[..n], current, base, o);
      assert sites == sites[..n] + [sites[n]];
    }
  }

  /**
   * Nothing is dropped silently: every site past its threshold is either a line of its own or counted as explained
   * by the machine, and only a shift explains any; every site too wide to judge is a line of its own.
   */
  lemma {:induction false} NothingIsDropped(current: seq<Band>, base: Baseline, o: Options)
    ensures var regressed, noisy := |RegressedSites(current, base, o)|, |NoisySites(current, base, o)|;
      var counted, headlines := |CountedSites(RegressedSites(current, base, o), current, base, o)|, Headlines(current, base, o);
      && |Reasons(current, base, o)| == |headlines| + counted + noisy && counted <= regressed
      && (counted < regressed ==> Shifted(current, base, o))
      && (forall n, m :: ExplainedLine(n, m) in headlines <==> counted < regressed && n == regressed - counted && m == regressed)
  {
    hide Regressed, Noisy, Shifted, NoiseWorse, Counted, Ranked, RegressedSites, CountedSites, NoisySites, RegressionLines,
         NoisyLines, Percentile, MostOfTheRun;
    LineCounts(current, base, o);
    AllAreRegressed(current, base, o);
    CountedIsSomeOf(RegressedSites(current, base, o), current, base, o);
  }

  lemma {:induction false} AllAreRegressed(current: seq<Band>, base: Baseline, o: Options)
    ensures forall b :: b in RegressedSites(current, base, o) ==> Regressed(b, base, o)
  {
    hide Regressed;
  }

  lemma {:induction false} LineCounts(current: seq<Band>, base: Baseline, o: Options)
    ensures |Reasons(current, base, o)| == |Headlines(current, base, o)|
      + |CountedSites(RegressedSites(current, base, o), current, base, o)| + |NoisySites(current, base, o)|
  {
    hide Regressed, Noisy, Shifted, NoiseWorse, Counted, Headlines;
  }

  /** A passing run without a noisy site has nothing to say, and no other run is silent. */
  lemma {:induction false} SilentIffNothingHappened(current: seq<Band>, base: Baseline, o: Options)
    ensures Reasons(current, base, o) == []
       <==> && !AnyCounted(current, base, o) && !Shifted(current, base, o) && !NoiseWorse(current, base, o)
            && NoisySites(current, base, o) == []
  {
    hide Regressed, Noisy, Shifted, NoiseWorse, Counted, Ranked, AnyCounted, RegressedSites, CountedSites, NoisySites,
         RegressionLines, NoisyLines, Percentile, MostOfTheRun;
    LineCounts(current, base, o);
    AllAreRegressed(current, base, o);
    CountedAreRegressed(current, base, o);
    CountedIsSomeOf(RegressedSites(current, base, o), current, base, o);
  }

  /** Where a line stands in the report. */
  function Place(line: ReasonLine): nat {
    match line
    case NoiseLine(_, _) => 0
    case ShiftLine(_, _) => 1
    case ShareLine(_, _, _, _) => 2
    case ExplainedLine(_, _) => 3
    case RegressionLine(_, _, _, _, _) => 4
    case NoisyLine(_, _, _) => 5
  }

  ghost predicate AllAt(lines: seq<ReasonLine>, low: nat, high: nat) {
    forall i :: 0 <= i < |lines| ==> low <= Place(lines[i]) <= high
  }

  ghost predicate InReadingOrder(lines: seq<ReasonLine>) {
    forall i, j :: 0 <= i < j < |lines| ==> Place(lines[i]) <= Place(lines[j])
  }

  lemma JoinInOrder(a: seq<ReasonLine>, b: seq<ReasonLine>, mid: nat)
    requires InReadingOrder(a) && InReadingOrder(b) && AllAt(a, 0, mid) && AllAt(b, mid, 5)
    ensures InReadingOrder(a + b)
  {
    hide Place;
  }

  lemma {:induction false} RankedAt(lines: seq<ReasonLine>, at: nat)
    requires AllAt(lines, at, at)
    ensures AllAt(Ranked(lines), at, at) && InReadingOrder(Ranked(lines))
  {
    hide Ranked, RankOf, Place;
    RankSorts(lines, 0.0);
    forall i | 0 <= i < |Ranked(lines)| ensures at <= Place(Ranked(lines)[i]) <= at {
      assert Ranked(lines)[i] in multiset(Ranked(lines));
      assert Ranked(lines)[i] in lines;
    }
  }

  lemma HeadlinesInOrder(current: seq<Band>, base: Baseline, o: Options)
    ensures AllAt(Headlines(current, base, o), 0, 3) && InReadingOrder(Headlines(current, base, o))
  {
    hide Shifted, NoiseWorse, Percentile, MostOfTheRun, RegressedSites, CountedSites, Deltas, Spreads, Compared;
  }

  lemma {:induction false} SiteLinesAt(current: seq<Band>, base: Baseline, o: Options)
    ensures var counted := CountedSites(RegressedSites(current, base, o), current, base, o);
      && (forall b :: b in counted ==> Regressed(b, base, o)) && AllAt(RegressionLines(counted, base, o), 4, 4)
      && (forall b :: b in NoisySites(current, base, o) ==> Noisy(b, base, o))
      && AllAt(NoisyLines(NoisySites(current, base, o), base, o), 5, 5)
  {
    AllRegressed(current, base, o);
    hide Regressed, Noisy, CountedSites, RegressedSites, NoisySites, Deltas;
  }

  /** What could not be trusted comes first, then how much moved, then the sites that count, then those not judged. */
  lemma {:induction false} ReasonsAreInReadingOrder(current: seq<Band>, base: Baseline, o: Options)
    ensures InReadingOrder(Reasons(current, base, o))
  {
    hide Regressed, Noisy, CountedSites, RegressedSites, NoisySites, Headlines, Ranked, Place, RegressionLines, NoisyLines;
    HeadlinesInOrder(current, base, o);
    SiteLinesAt(current, base, o);
    var regressions := RegressionLines(CountedSites(RegressedSites(current, base, o), current, base, o), base, o);
    var noisy := NoisyLines(NoisySites(current, base, o), base, o);
    RankedAt(regressions, 4);
    RankedAt(noisy, 5);
    JoinInOrder(Headlines(current, base, o), Ranked(regressions), 4);
    JoinInOrder(Headlines(current, base, o) + Ranked(regressions), Ranked(noisy), 5);
  }

  /** The figures of the headlines: now against recorded, the machine's own move, and the share of the run that counts. */
  lemma {:induction false} HeadlineFigures(current: seq<Band>, base: Baseline, o: Options, line: ReasonLine)
    requires line in Headlines(current, base, o)
    ensures var counted := |CountedSites(RegressedSites(current, base, o), current, base, o)|;
      match line {
        case NoiseLine(now, recorded) => now == Percentile(Spreads(current), 95.0) > recorded * o.noiseTolerance && recorded == base.p95SpreadPct > 0.0
        case ShiftLine(move, sites) => move == Median(Deltas(current, base)) * 100.0 && sites == |Deltas(current, base)| >= o.minSitesForShift
        case ShareLine(moved, checked, beyond, most) =>
          && moved == counted > 0 && checked == Compared(current, base) && beyond == Shifted(current, base, o)
          && (most <==> 5 * moved >= 3 * (if checked < 1 then 1 else checked))
        case ExplainedLine(explained, regressed) =>
          explained == regressed - counted > 0 && regressed == |RegressedSites(current, base, o)|
        case RegressionLine(_, _, _, _, _) => false
        case NoisyLine(_, _, _) => false
      }
  {
    MedianIsPercentile50(Deltas(current, base));
    hide Percentile, Median, RegressedSites, CountedSites, Deltas, Spreads, Compared;
  }

  /** A noisy line says how far the band of a site widened past what its record allows. */
  lemma NoisyLineShowsTheWidening(b: Band, base: Baseline, o: Options)
    requires Noisy(b, base, o)
    ensures var line := NoisyLineOf(b, base, o);
      && line.site == b.site && line.after == b.spreadPct && line.after > line.before * o.spreadTolerance && line.before > 0.0
      && Recorded(base.bands, b.site).Some? && line.before == Recorded(base.bands, b.site).value.spreadPct
  {
    hide Recorded;
  }

  lemma RoundsClosely(x: real)
    requires x >= 0.0
    ensures x - 0.05 < RoundTo1(x) <= x + 0.05
  {
    assert RoundTo1(x) * 10.0 == (x * 10.0 + 0.5).Floor as real;
  }

  lemma ReadsClosely(a: real, b: real)
    requires Read(a) >= Read(b) && b >= 0.05
    ensures a > b - 0.1
  {
    RoundsClosely(b);
    if a >= 0.0 {
      RoundsClosely(a);
    }
  }

  /** The site lines come furthest move first, to within the tenth of a percent that the ranking reads. */
  lemma {:induction false} FurthestMoveFirst(sites: seq<Band>, base: Baseline, o: Options, i: nat, j: nat)
    requires forall b :: b in sites ==> Regressed(b, base, o)
    requires i < j < |sites|
    ensures var lines := Ranked(RegressionLines(sites, base, o));
      && lines[i].RegressionLine? && lines[j].RegressionLine?
      && (lines[j].deltaPct >= 0.05 ==> lines[i].deltaPct > lines[j].deltaPct - 0.1)
  {
    hide Regressed, Read, Ranked;
    var unranked := RegressionLines(sites, base, o);
    RankSorts(unranked, 0.0);
    LinesStay(unranked, i);
    LinesStay(unranked, j);
    var a, b := Ranked(unranked)[i], Ranked(unranked)[j];
    assert RankOf(a) >= RankOf(b);
    if b.deltaPct >= 0.05 {
      ReadsClosely(a.deltaPct, b.deltaPct);
    }
  }

  lemma {:induction false} LinesStay(lines: seq<ReasonLine>, i: nat)
    requires i < |lines| && forall j :: 0 <= j < |lines| ==> lines[j].RegressionLine?
    ensures Ranked(lines)[i].RegressionLine?
  {
    hide Ranked, RankOf;
    RankSorts(lines, 0.0);
    assert Ranked(lines)[i] in multiset(Ranked(lines));
    assert Ranked(lines)[i] in lines;
  }

  lemma {:induction false} NoisyStay(lines: seq<ReasonLine>, i: nat)
    requires i < |lines| && forall j :: 0 <= j < |lines| ==> lines[j].NoisyLine?
    ensures Ranked(lines)[i].NoisyLine? && Ranked(lines)[i] in lines
  {
    hide Ranked, RankOf;
    RankSorts(lines, 0.0);
    assert Ranked(lines)[i] in multiset(Ranked(lines));
  }

  /** A site that can be ranked: spreads that are not negative, the recorded one not printed as 0. */
  predicate Rankable(line: ReasonLine) {
    line.NoisyLine? && line.before >= 0.0 && line.after >= 0.0 && RoundTo1(line.before) > 0.0
  }

  lemma NoisyRank(line: ReasonLine)
    requires Rankable(line)
    ensures RankOf(line) == RoundTo1(line.after) / RoundTo1(line.before)
  {
    hide RoundTo1;
  }

  lemma RanksWider(a: ReasonLine, b: ReasonLine)
    requires RankOf(a) >= RankOf(b)
    ensures Rankable(a) && Rankable(b) ==>
      RoundTo1(a.after) / RoundTo1(a.before) >= RoundTo1(b.after) / RoundTo1(b.before)
  {
    if Rankable(a) && Rankable(b) {
      NoisyRank(a);
      NoisyRank(b);
    }
    hide RankOf, RoundTo1, Rankable;
  }

  /** The lines of the sites not judged come widest first: by the ratio of the two spreads as they are printed. */
  lemma {:induction false} WidestFirst(sites: seq<Band>, base: Baseline, o: Options, i: nat, j: nat)
    requires forall b :: b in sites ==> Noisy(b, base, o)
    requires i < j < |sites|
    ensures var lines := Ranked(NoisyLines(sites, base, o));
      && lines[i].NoisyLine? && lines[j].NoisyLine?
      && (Rankable(lines[i]) && Rankable(lines[j]) ==>
            RoundTo1(lines[i].after) / RoundTo1(lines[i].before) >= RoundTo1(lines[j].after) / RoundTo1(lines[j].before))
  {
    var unranked := NoisyLines(sites, base, o);
    hide Noisy, Ranked, RankOf, RoundTo1;
    RankSorts(unranked, 0.0);
    NoisyStay(unranked, i);
    NoisyStay(unranked, j);
    RanksWider(Ranked(unranked)[i], Ranked(unranked)[j]);
  }

  // ----- the ranking and the thresholds

  /** How far past its own threshold a line's site moved, in percent. */
  function Excess(line: ReasonLine): real
    requires line.RegressionLine?
  {
    line.deltaPct - line.thresholdPct
  }

  /** The order that the comment promises, to within the tenth of a percent that the ranking reads. */
  ghost predicate FurthestPastThresholdFirst(lines: seq<ReasonLine>)
    requires forall i :: 0 <= i < |lines| ==> lines[i].RegressionLine?
  {
    forall i, j :: 0 <= i < j < |lines| ==> Excess(lines[i]) > Excess(lines[j]) - 0.1
  }

  /** A site that can regress: recorded with a positive median. */
  predicate Judged(base: Baseline, site: string) {
    var before := Recorded(base.bands, site);
    before.Some? && before.value.median > 0.0
  }

  function ThresholdOf(base: Baseline, site: string, o: Options): real
    requires Judged(base, site)
  {
    ThresholdPct(Recorded(base.bands, site).value, base.medianSpreadPct, o)
  }

  /** One threshold for every recorded site, not below the rounding (a `slowdownTolerance` of at least 1 makes it so). */
  ghost predicate OneThreshold(base: Baseline, o: Options) {
    forall s, t :: Judged(base, s) && Judged(base, t) ==>
      ThresholdOf(base, s, o) == ThresholdOf(base, t, o) && ThresholdOf(base, s, o) >= -0.05
  }

  lemma LineFacts(b: Band, base: Baseline, o: Options)
    requires Regressed(b, base, o)
    ensures Judged(base, b.site)
    ensures var line := RegressionLineOf(b, base, o);
      line.deltaPct > line.thresholdPct == ThresholdOf(base, b.site, o)
  {
    hide Recorded, ThresholdPct;
    var before := Recorded(base.bands, b.site).value;
    var t := ThresholdPct(before, base.medianSpreadPct, o);
    assert b.median / before.median > 1.0 + t / 100.0 by {
      QuotientExceeds(b.median, before.median, 1.0 + t / 100.0);
    }
  }

  lemma QuotientExceeds(x: real, y: real, z: real)
    requires y > 0.0 && x > y * z
    ensures x / y > z
  {
    var q := x / y;
    assert q * y == x;
    assert (q - z) * y > 0.0;
  }

  lemma {:induction false} RankedLineFacts(sites: seq<Band>, base: Baseline, o: Options, i: nat) returns (b: Band)
    requires forall b :: b in sites ==> Regressed(b, base, o)
    requires i < |sites|
    ensures b in sites && Ranked(RegressionLines(sites, base, o))[i] == RegressionLineOf(b, base, o)
  {
    hide Regressed, Ranked, RankOf, RegressionLineOf;
    var lines := RegressionLines(sites, base, o);
    RankSorts(lines, 0.0);
    assert Ranked(lines)[i] in multiset(Ranked(lines));
    assert Ranked(lines)[i] in lines;
    var k :| 0 <= k < |lines| && lines[k] == Ranked(lines)[i];
    b := sites[k];
  }

  lemma {:induction false} AllRegressionLines(sites: seq<Band>, base: Baseline, o: Options)
    requires forall b :: b in sites ==> Regressed(b, base, o)
    ensures var lines := Ranked(RegressionLines(sites, base, o));
      |lines| == |sites| && forall i :: 0 <= i < |lines| ==> lines[i].RegressionLine?
  {
    hide Regressed, Ranked, RankOf;
    var lines := RegressionLines(sites, base, o);
    forall i | 0 <= i < |sites| ensures Ranked(lines)[i].RegressionLine? {
      LinesStay(lines, i);
    }
  }

  /** With one threshold, ranking by the move is ranking by the move past it. */
  lemma {:induction false} OneThresholdRanks(sites: seq<Band>, base: Baseline, o: Options)
    requires forall b :: b in sites ==> Regressed(b, base, o)
    requires OneThreshold(base, o)
    ensures var lines := Ranked(RegressionLines(sites, base, o));
      (forall i :: 0 <= i < |lines| ==> lines[i].RegressionLine?) && FurthestPastThresholdFirst(lines)
  {
    hide Regressed, Ranked, RegressionLineOf, Judged, ThresholdOf;
    AllRegressionLines(sites, base, o);
    var lines := Ranked(RegressionLines(sites, base, o));
    forall i, j | 0 <= i < j < |lines| ensures Excess(lines[i]) > Excess(lines[j]) - 0.1 {
      var a := RankedLineFacts(sites, base, o, i);
      var b := RankedLineFacts(sites, base, o, j);
      LineFacts(a, base, o);
      LineFacts(b, base, o);
      FurthestMoveFirst(sites, base, o, i, j);
    }
  }

  /** A measurement of a recorded site that moved by `deltaPct` with a band that can be judged. */
  function Mover(base: Baseline, site: string, deltaPct: real, o: Options): Band
    requires Judged(base, site)
  {
    var before := Recorded(base.bands, site).value;
    Band(site, before.median * (1.0 + deltaPct / 100.0), before.spreadPct * o.spreadTolerance)
  }

  lemma MoverMoves(base: Baseline, site: string, deltaPct: real, o: Options)
    requires Judged(base, site) && deltaPct > ThresholdOf(base, site, o)
    ensures var b := Mover(base, site, deltaPct, o);
      && Regressed(b, base, o)
      && RegressionLineOf(b, base, o).deltaPct == deltaPct
      && RegressionLineOf(b, base, o).thresholdPct == ThresholdOf(base, site, o)
  {
    hide Recorded, ThresholdPct;
    var before, b := Recorded(base.bands, site).value, Mover(base, site, deltaPct, o);
    var x, y := 1.0 + deltaPct / 100.0, 1.0 + ThresholdOf(base, site, o) / 100.0;
    MoreByMore(before.median, x, y);
    assert Slower(b, before, base.medianSpreadPct, o) && !Widened(b, before, o);
    DivideBack(b.median, before.median, x);
    assert DeltaOf(b, base) == x - 1.0;
  }

  lemma MoreByMore(m: real, x: real, y: real)
    requires m > 0.0 && x > y
    ensures m * x > m * y
  {
    assert m * (x - y) > 0.0;
  }

  /** Two movers that print the same figure stay in the order in which they were measured. */
  lemma {:induction false} TiedMoversStay(base: Baseline, o: Options, s: string, p: real, t: string, q: real)
    requires Judged(base, s) && p > ThresholdOf(base, s, o) && Judged(base, t) && q > ThresholdOf(base, t, o)
    requires Read(p) == Read(q)
    requires p - ThresholdOf(base, s, o) <= q - ThresholdOf(base, t, o) - 0.1
    ensures var sites := [Mover(base, s, p, o), Mover(base, t, q, o)];
      && (forall b :: b in sites ==> Regressed(b, base, o))
      && (forall i :: 0 <= i < 2 ==> Ranked(RegressionLines(sites, base, o))[i].RegressionLine?)
      && !FurthestPastThresholdFirst(Ranked(RegressionLines(sites, base, o)))
  {
    MoverMoves(base, s, p, o);
    MoverMoves(base, t, q, o);
    hide Regressed, Read, Judged, ThresholdOf, Mover, RegressionLineOf;
    var sites := [Mover(base, s, p, o), Mover(base, t, q, o)];
    var lines := RegressionLines(sites, base, o);
    assert lines == [lines[0], lines[1]];
    PairStays(lines[0], lines[1]);
    assert Excess(lines[0]) <= Excess(lines[1]) - 0.1;
    hide Ranked;
    assert Ranked(lines)[0] == lines[0] && Ranked(lines)[1] == lines[1];
  }

  lemma {:induction false} PairStays(a: ReasonLine, b: ReasonLine)
    requires RankOf(a) >= RankOf(b)
    ensures Ranked([a, b]) == [a, b]
  {
    hide RankOf;
    assert [a, b][1..] == [b] && [b][1..] == [] && Ranked([b]) == [b];
  }

  /** Figures between two thresholds' rounding: both print as `n + 0.1`. */
  lemma SameFigure(n: nat, eps: real)
    requires 0.0 < eps <= 0.1
    ensures Read(n as real + 0.05) == Read(n as real + 0.15 - eps)
  {
    assert ((n as real + 0.05) * 10.0 + 0.5).Floor == 10 * n + 1;
    assert ((n as real + 0.15 - eps) * 10.0 + 0.5).Floor == 10 * n + 1;
  }

  /** Two thresholds: one measurement of each site is ranked against its move past the threshold. */
  lemma {:induction false} TwoThresholdsMisrank(base: Baseline, o: Options, s: string, t: string) returns (sites: seq<Band>)
    requires Judged(base, s) && Judged(base, t) && ThresholdOf(base, s, o) > ThresholdOf(base, t, o)
    ensures forall b :: b in sites ==> Regressed(b, base, o)
    ensures forall i :: 0 <= i < |sites| ==> Ranked(RegressionLines(sites, base, o))[i].RegressionLine?
    ensures !FurthestPastThresholdFirst(Ranked(RegressionLines(sites, base, o)))
  {
    hide Read, Judged, ThresholdOf, FurthestPastThresholdFirst, Ranked, Mover, Regressed;
    var u, v := ThresholdOf(base, s, o), ThresholdOf(base, t, o);
    var n: nat := if u < 0.0 then 0 else u.Floor + 1;
    var eps := if u - v < 0.1 then u - v else 0.1;
    SameFigure(n, eps);
    TiedMoversStay(base, o, s, n as real + 0.05, t, n as real + 0.15 - eps);
    sites := [Mover(base, s, n as real + 0.05, o), Mover(base, t, n as real + 0.15 - eps, o)];
  }

  /** A threshold below the rounding: a site that got faster and one that hardly moved are read alike. */
  lemma {:induction false} NegativeThresholdMisranks(base: Baseline, o: Options, s: string) returns (sites: seq<Band>)
    requires Judged(base, s) && ThresholdOf(base, s, o) < -0.05
    ensures forall b :: b in sites ==> Regressed(b, base, o)
    ensures forall i :: 0 <= i < |sites| ==> Ranked(RegressionLines(sites, base, o))[i].RegressionLine?
    ensures !FurthestPastThresholdFirst(Ranked(RegressionLines(sites, base, o)))
  {
    hide Judged, ThresholdOf, FurthestPastThresholdFirst, Ranked, Mover, Regressed;
    var u := ThresholdOf(base, s, o);
    var gap := if -0.05 - u < 0.02 then (-0.05 - u) / 2.0 else 0.01;
    assert ((0.05 - gap) * 10.0 + 0.5).Floor == 0;
    TiedMoversStay(base, o, s, -0.05 - gap, s, 0.05 - gap);
    sites := [Mover(base, s, -0.05 - gap, o), Mover(base, s, 0.05 - gap, o)];
  }

  /**
   * The comment's order, furthest past its own threshold first, holds of all reports against a baseline exactly
   * when the recorded sites share one threshold.
   */
  lemma {:induction false} RanksByExcessIff(base: Baseline, o: Options)
    ensures (forall sites: seq<Band> :: (forall b :: b in sites ==> Regressed(b, base, o)) ==>
               var lines := Ranked(RegressionLines(sites, base, o));
               (forall i :: 0 <= i < |lines| ==> lines[i].RegressionLine?) && FurthestPastThresholdFirst(lines))
       <==> OneThreshold(base, o)
  {
    hide Regressed, Ranked, Judged, ThresholdOf, FurthestPastThresholdFirst, RegressionLines;
    if OneThreshold(base, o) {
      forall sites: seq<Band> | forall b :: b in sites ==> Regressed(b, base, o)
        ensures var lines := Ranked(RegressionLines(sites, base, o));
          (forall i :: 0 <= i < |lines| ==> lines[i].RegressionLine?) && FurthestPastThresholdFirst(lines)
      {
        OneThresholdRanks(sites, base, o);
      }
    } else {
      var s, t :| Judged(base, s) && Judged(base, t)
               && !(ThresholdOf(base, s, o) == ThresholdOf(base, t, o) && ThresholdOf(base, s, o) >= -0.05);
      var (u, v) := (ThresholdOf(base, s, o), ThresholdOf(base, t, o));
      var sites;
      if u > v {
        sites := TwoThresholdsMisrank(base, o, s, t);
      } else if v > u {
        sites := TwoThresholdsMisrank(base, o, t, s);
      } else {
        sites := NegativeThresholdMisranks(base, o, s);
      }
    }
  }
}
