/** What `query monitor` fetches and shows (crates/sentinel-cli/src/monitor.rs): the data of one poll tick,
    the lines of each tab, the trend series. A line is told by what it is about; how its cells are worded is
    left out, what they are worded from is the snapshot, where one text stands for all the fields that the
    source shows of an entry. */
module MonitorView {
  import opened Permutations
  import opened Resize
  import opened Wrappers

  const TREND_CAPACITY: nat := 240
  const INCIDENTS_POLL_LIMIT: nat := 20

  // ----- tabs

  datatype Tab = Advisor | Energy | Trends | Scrapers | Config | Incidents

  const TABS: seq<Tab> := [Advisor, Energy, Trends, Scrapers, Config, Incidents]

  function TabIndex(t: Tab): (i: nat)
    ensures i < |TABS| && TABS[i] == t
  {
    match t
    case Advisor => 0
    case Energy => 1
    case Trends => 2
    case Scrapers => 3
    case Config => 4
    case Incidents => 5
  }

  // ----- one poll tick

  datatype Region = Region(row: string, co2: real)

  datatype GreenSummary = GreenSummary(
    energyKwh: real, energySource: Option<string>, services: seq<string>, regions: seq<Region>,
    databaseWaste: Option<string>, messagingWaste: Option<string>)

  datatype Status = Status(
    activeTraces: nat, maxActiveTraces: nat, queueDepth: int, queueCapacity: nat,
    storedFindings: nat, maxRetainedFindings: nat)

  /** The optional rows of the Config tab; every other setting is one row whatever its value. */
  datatype DaemonConfig = DaemonConfig(
    readKeySet: Option<bool>, incidentsEnabled: Option<bool>, hubExportEnabled: Option<bool>, settings: string)

  datatype Incident = Incident(id: string, detail: Option<string>, findings: seq<string>)

  /** Why an incidents poll failed; `refused` for the three answers the tab must show. */
  datatype IncidentsError = IncidentsError(reason: string, refused: bool)

  datatype Snapshot = Snapshot(
    green: GreenSummary, warningDetails: seq<string>, warnings: seq<string>,
    scrapers: Option<seq<string>>, status: Option<Status>, config: Option<DaemonConfig>,
    incidents: Result<seq<Incident>, IncidentsError>)

  datatype FetchOutcome = Fetched(snapshot: Snapshot) | Unreachable(reason: Option<string>)

  // ----- the lines of a tab

  datatype Line =
    | Title(tab: Tab) | About(tab: Tab) | Blank | Waiting
    | Hint(tab: Tab) | Heading(number: nat) | Row(text: string)
    | Setting(number: nat) | Explained(number: nat)
    | Summary(id: string) | Capture(id: string) | Reason(text: string)

  function Preamble(tab: Tab, latest: Option<Snapshot>): seq<Line> {
    [Title(tab), About(tab), Blank] + (if latest.None? then [Waiting] else [])
  }

  function Rows(texts: seq<string>): seq<Line> {
    if texts == [] then [] else [Row(texts[0])] + Rows(texts[1..])
  }

  function AdvisorLines(latest: Option<Snapshot>): seq<Line> {
    Preamble(Advisor, latest) +
    match latest
    case None => []
    case Some(s) =>
      if s.warningDetails == [] && s.warnings == [] then [Hint(Advisor)]
      else Rows(s.warningDetails) + (if s.warningDetails == [] then Rows(s.warnings) else [])
  }

  function RegionRows(regions: seq<Region>): seq<Line> {
    if regions == [] then [] else [Row(regions[0].row)] + RegionRows(regions[1..])
  }

  function EnergyLines(latest: Option<Snapshot>): seq<Line> {
    Preamble(Energy, latest) +
    match latest
    case None => []
    case Some(s) =>
      var g := s.green;
      if g.services == [] && g.regions == [] && g.databaseWaste.None? && g.messagingWaste.None? then [Hint(Energy)]
      else
        [Heading(0)]
        + (if g.databaseWaste.Some? then [Heading(1)] else [])
        + (if g.messagingWaste.Some? then [Heading(2)] else [])
        + [Blank]
        + (if g.services != [] then [Heading(3), Heading(4)] + Rows(g.services) + [Blank] else [])
        + (if g.regions != [] then [Heading(5), Heading(6)] + RegionRows(g.regions) else [])
  }

  function ScrapersLines(latest: Option<Snapshot>): seq<Line> {
    Preamble(Scrapers, latest) +
    match latest
    case None => []
    case Some(s) =>
      match s.scrapers
      case None => [Hint(Scrapers)]
      case Some(backends) => [Heading(0)] + Rows(backends) + [Blank, Heading(1), Heading(2)]
  }

  /** `count` settings from `number` on, each a value and its explanation. */
  function Settings(number: nat, count: nat): seq<Line>
    decreases count
  {
    if count == 0 then [] else [Setting(number), Explained(number)] + Settings(number + 1, count - 1)
  }

  /** 18 daemon settings, then the sub-systems (three of them only when reported), then the correlator's 6. */
  function ConfigLines(latest: Option<Snapshot>): seq<Line> {
    Preamble(Config, latest) +
    match latest
    case None => []
    case Some(s) =>
      match s.config
      case None => [Hint(Config)]
      case Some(c) =>
        Settings(0, 18)
        + [Blank, Heading(0), Blank]
        + Settings(18, 3)
        + (if c.readKeySet.Some? then Settings(21, 1) else [])
        + (if c.incidentsEnabled.Some? then Settings(22, 1) else [])
        + (if c.hubExportEnabled.Some? then Settings(23, 1) else [])
        + Settings(24, 2)
        + [Blank, Heading(1), Blank]
        + Settings(26, 6)
  }

  function IncidentLines(i: Incident): seq<Line> {
    [Summary(i.id), Capture(i.id)]
    + (match i.detail case Some(d) => [Row(d)] case None => [])
    + (if i.findings == [] then [Hint(Incidents)] else [])
    + Rows(i.findings)
  }

  /** Incidents one after the other, a blank line between two. */
  function IncidentBlocks(incidents: seq<Incident>): seq<Line> {
    if incidents == [] then []
    else IncidentLines(incidents[0]) + (if |incidents| > 1 then [Blank] else []) + IncidentBlocks(incidents[1..])
  }

  function IncidentsLines(latest: Option<Snapshot>): seq<Line> {
    Preamble(Incidents, latest) +
    match latest
    case None => []
    case Some(s) =>
      match s.incidents
      case Err(e) => [Reason(e.reason)]
      case Ok(incidents) =>
        if incidents == [] then [Hint(Incidents)]
        else IncidentBlocks(incidents) + (if |incidents| >= INCIDENTS_POLL_LIMIT then [Blank, Heading(0)] else [])
  }

  /** The body `draw` builds for a text tab. Trends draws charts. */
  function TabLines(tab: Tab, latest: Option<Snapshot>): seq<Line> {
    match tab
    case Advisor => AdvisorLines(latest)
    case Energy => EnergyLines(latest)
    case Trends => []
    case Scrapers => ScrapersLines(latest)
    case Config => ConfigLines(latest)
    case Incidents => IncidentsLines(latest)
  }

  function ToU16(n: nat): (r: U16)
    ensures n <= U16_MAX ==> r == n
    ensures n > U16_MAX ==> r == U16_MAX
  {
    if n <= U16_MAX then n else U16_MAX
  }

  // ----- how many lines

  lemma {:induction false} OneLineEach(texts: seq<string>)
    ensures |Rows(texts)| == |texts|
  {
    if texts != [] {
      OneLineEach(texts[1..]);
    }
  }

  lemma {:induction false} OneLineARegion(regions: seq<Region>)
    ensures |RegionRows(regions)| == |regions|
  {
    if regions != [] {
      OneLineARegion(regions[1..]);
    }
  }

  lemma {:induction false} TwoLinesASetting(number: nat, count: nat)
    ensures |Settings(number, count)| == 2 * count
    decreases count
  {
    if count > 0 {
      TwoLinesASetting(number + 1, count - 1);
    }
  }

  function IncidentHeight(i: Incident): nat {
    2 + (if i.detail.Some? then 1 else 0) + (if i.findings == [] then 1 else |i.findings|)
  }

  lemma {:induction false} BlocksAreSeparated(incidents: seq<Incident>)
    requires incidents != []
    ensures |IncidentBlocks(incidents)| == SumBy(IncidentHeight, incidents) + |incidents| - 1
  {
    OneLineEach(incidents[0].findings);
    if |incidents| > 1 {
      BlocksAreSeparated(incidents[1..]);
    } else {
      assert IncidentBlocks(incidents[1..]) == [];
    }
  }

  function One(b: bool): nat { if b then 1 else 0 }

  function EnergyHeight(g: GreenSummary): nat {
    if g.services == [] && g.regions == [] && g.databaseWaste.None? && g.messagingWaste.None? then 4
    else
      5 + One(g.databaseWaste.Some?) + One(g.messagingWaste.Some?)
      + (if g.services == [] then 0 else 3 + |g.services|) + (if g.regions == [] then 0 else 2 + |g.regions|)
  }

  /** How long the list of each tab is, by what the snapshot holds. */
  lemma {:induction false} LineCountsAre(s: Snapshot)
    ensures |TabLines(Advisor, Some(s))|
         == if s.warningDetails != [] then 3 + |s.warningDetails| else if s.warnings != [] then 3 + |s.warnings| else 4
    ensures |TabLines(Energy, Some(s))| == EnergyHeight(s.green)
    ensures |TabLines(Trends, Some(s))| == 0
    ensures |TabLines(Scrapers, Some(s))| == if s.scrapers.Some? then 7 + |s.scrapers.value| else 4
    ensures |TabLines(Config, Some(s))|
         == if s.config.None? then 4
            else 67 + 2 * (One(s.config.value.readKeySet.Some?) + One(s.config.value.incidentsEnabled.Some?)
                           + One(s.config.value.hubExportEnabled.Some?))
    ensures |TabLines(Incidents, Some(s))|
         == if s.incidents.Err? || s.incidents.value == [] then 4
            else 2 + SumBy(IncidentHeight, s.incidents.value) + |s.incidents.value|
                   + (if |s.incidents.value| >= 20 then 2 else 0)
  {
    OneLineEach(s.warningDetails);
    OneLineEach(s.warnings);
    OneLineEach(s.green.services);
    OneLineARegion(s.green.regions);
    if s.scrapers.Some? { OneLineEach(s.scrapers.value); }
    ConfigCount(s);
    if s.incidents.Ok? && s.incidents.value != [] { BlocksAreSeparated(s.incidents.value); }
  }

  lemma ConfigCount(s: Snapshot)
    ensures |TabLines(Config, Some(s))|
         == if s.config.None? then 4
            else 67 + 2 * (One(s.config.value.readKeySet.Some?) + One(s.config.value.incidentsEnabled.Some?)
                           + One(s.config.value.hubExportEnabled.Some?))
  {
    TwoLinesASetting(0, 18);
    TwoLinesASetting(18, 3);
    TwoLinesASetting(21, 1);
    TwoLinesASetting(22, 1);
    TwoLinesASetting(23, 1);
    TwoLinesASetting(24, 2);
    TwoLinesASetting(26, 6);
  }

  /** Before the first snapshot every text tab waits. */
  lemma WaitingCounts(tab: Tab)
    ensures |TabLines(tab, None)| == if tab == Trends then 0 else 4
  {
  }

  // ----- trends

  datatype TrendPoint = TrendPoint(
    energyKwh: real, carbonG: real, tracesPct: Option<real>, queuePct: Option<real>, findingsPct: Option<real>)

  function Percent(value: int, cap: nat): Option<real> {
    if cap == 0 then None
    else
      var p := value as real / cap as real * 100.0;
      Some(if p < 0.0 then 0.0 else if p > 100.0 then 100.0 else p)
  }

  function Carbon(regions: seq<Region>): real {
    if regions == [] then 0.0 else regions[0].co2 + Carbon(regions[1..])
  }

  function TrendPointOf(s: Snapshot): TrendPoint {
    match s.status
    case None => TrendPoint(s.green.energyKwh, Carbon(s.green.regions), None, None, None)
    case Some(st) =>
      TrendPoint(s.green.energyKwh, Carbon(s.green.regions),
                 Percent(st.activeTraces, st.maxActiveTraces),
                 Percent(if st.queueDepth < 0 then 0 else st.queueDepth, st.queueCapacity),
                 Percent(st.storedFindings, st.maxRetainedFindings))
  }

  function TotalCo2(regions: seq<Region>): real {
    if regions == [] then 0.0 else TotalCo2(regions[..|regions| - 1]) + regions[|regions| - 1].co2
  }

  lemma {:induction false} CarbonIsTheTotal(regions: seq<Region>)
    ensures Carbon(regions) == TotalCo2(regions)
  {
    if |regions| == 1 {
      assert regions[1..] == [] && regions[..0] == [];
    } else if regions != [] {
      var n := |regions| - 1;
      CarbonIsTheTotal(regions[1..]);
      CarbonIsTheTotal(regions[..n]);
      CarbonIsTheTotal(regions[1..][..n - 1]);
      assert regions[1..][..n - 1] == regions[..n][1..];
    }
  }

  /** A gauge as a percentage of its cap: absent without a cap, never outside [0, 100], exact inside. */
  ghost predicate Gauges(percent: Option<real>, value: int, cap: nat) {
    && (percent.None? <==> cap == 0)
    && (percent.Some? ==>
          && 0.0 <= percent.value <= 100.0
          && (value <= 0 ==> percent.value == 0.0)
          && (value >= cap ==> percent.value == 100.0)
          && (0 <= value <= cap ==> percent.value * cap as real == 100.0 * value as real))
  }

  /** `p` is the trend sample of `s`. */
  ghost predicate Samples(p: TrendPoint, s: Snapshot) {
    && p.energyKwh == s.green.energyKwh && p.carbonG == TotalCo2(s.green.regions)
    && (s.status.None? ==> p.tracesPct.None? && p.queuePct.None? && p.findingsPct.None?)
    && (s.status.Some? ==>
          && Gauges(p.tracesPct, s.status.value.activeTraces, s.status.value.maxActiveTraces)
          && Gauges(p.queuePct, s.status.value.queueDepth, s.status.value.queueCapacity)
          && Gauges(p.findingsPct, s.status.value.storedFindings, s.status.value.maxRetainedFindings))
  }

  lemma PercentGauges(value: int, cap: nat)
    ensures value >= 0 ==> Gauges(Percent(value, cap), value, cap)
    ensures value < 0 ==> Gauges(Percent(0, cap), value, cap)
  {
    if cap > 0 && value >= 0 {
      var v, c := value as real, cap as real;
      var share := v / c;
      assert share * c == v;
      assert share * 100.0 * c == 100.0 * v;
      assert v >= 0.0 && c > 0.0 ==> share >= 0.0;
      assert v <= c ==> share <= 1.0;
      assert v >= c ==> share >= 1.0;
    }
  }

  lemma SampleMeans(s: Snapshot)
    ensures Samples(TrendPointOf(s), s)
  {
    CarbonIsTheTotal(s.green.regions);
    if s.status.Some? {
      PercentGauges(s.status.value.activeTraces, s.status.value.maxActiveTraces);
      PercentGauges(s.status.value.queueDepth, s.status.value.queueCapacity);
      PercentGauges(s.status.value.storedFindings, s.status.value.maxRetainedFindings);
    }
  }

  datatype Series = Series(
    energy: seq<(nat, real)>, carbon: seq<(nat, real)>,
    tracesPct: seq<(nat, real)>, queuePct: seq<(nat, real)>, findingsPct: seq<(nat, real)>)

  /** A chartable series of `value`: strictly increasing x, each x the tick index of the point it shows, no
      tick with a value left out. */
  ghost predicate Aligned(points: seq<(nat, real)>, history: seq<TrendPoint>, value: TrendPoint -> Option<real>) {
    && (forall i, j :: 0 <= i < j < |points| ==> points[i].0 < points[j].0)
    && (forall i :: 0 <= i < |points| ==> points[i].0 < |history| && value(history[points[i].0]) == Some(points[i].1))
    && (forall x: nat :: x < |history| && value(history[x]).Some? ==> (x, value(history[x]).value) in points)
  }

  function EnergyOf(p: TrendPoint): Option<real> { Some(p.energyKwh) }
  function CarbonOf(p: TrendPoint): Option<real> { Some(p.carbonG) }
  function TracesOf(p: TrendPoint): Option<real> { p.tracesPct }
  function QueueOf(p: TrendPoint): Option<real> { p.queuePct }
  function FindingsOf(p: TrendPoint): Option<real> { p.findingsPct }

  method BuildTrendSeries(history: seq<TrendPoint>) returns (s: Series)
    ensures Aligned(s.energy, history, EnergyOf) && Aligned(s.carbon, history, CarbonOf)
    ensures Aligned(s.tracesPct, history, TracesOf) && Aligned(s.queuePct, history, QueueOf)
    ensures Aligned(s.findingsPct, history, FindingsOf)
    ensures |s.energy| == |s.carbon| == |history|
  {
    s := Series([], [], [], [], []);
    for x := 0 to |history|
      invariant Aligned(s.energy, history[..x], EnergyOf) && Aligned(s.carbon, history[..x], CarbonOf)
      invariant Aligned(s.tracesPct, history[..x], TracesOf) && Aligned(s.queuePct, history[..x], QueueOf)
      invariant Aligned(s.findingsPct, history[..x], FindingsOf)
      invariant |s.energy| == |s.carbon| == x
    {
      var p := history[x];
      var energy := PushSome(s.energy, x, Some(p.energyKwh), history, EnergyOf);
      var carbon := PushSome(s.carbon, x, Some(p.carbonG), history, CarbonOf);
      var traces := PushSome(s.tracesPct, x, p.tracesPct, history, TracesOf);
      var queue := PushSome(s.queuePct, x, p.queuePct, history, QueueOf);
      var findings := PushSome(s.findingsPct, x, p.findingsPct, history, FindingsOf);
      s := Series(energy, carbon, traces, queue, findings);
    }
    assert history[..|history|] == history;
  }

  /** Pushes the point of tick `x` when there is a value for it. */
  method PushSome(points: seq<(nat, real)>, x: nat, v: Option<real>,
                  ghost history: seq<TrendPoint>, ghost value: TrendPoint -> Option<real>)
    returns (more: seq<(nat, real)>)
    requires x < |history| && v == value(history[x]) && Aligned(points, history[..x], value)
    ensures Aligned(more, history[..x + 1], value)
    ensures |more| == |points| + (if v.Some? then 1 else 0)
  {
    AlignedGrows(points, history, x, value);
    more := points;
    if v.Some? {
      more := more + [(x, v.value)];
    }
  }

  lemma AlignedGrows(points: seq<(nat, real)>, history: seq<TrendPoint>, x: nat, value: TrendPoint -> Option<real>)
    requires x < |history| && Aligned(points, history[..x], value)
    ensures value(history[x]).Some? ==> Aligned(points + [(x, value(history[x]).value)], history[..x + 1], value)
    ensures value(history[x]).None? ==> Aligned(points, history[..x + 1], value)
  {
    var older, newer, v := history[..x], history[..x + 1], value(history[x]);
    var more := if v.Some? then points + [(x, v.value)] else points;
    assert forall k: nat :: k < x ==> newer[k] == older[k];
    assert newer[x] == history[x];
    forall i | 0 <= i < |more|
      ensures more[i].0 < |newer| && value(newer[more[i].0]) == Some(more[i].1)
    {
      if i < |points| { assert value(older[points[i].0]) == Some(points[i].1); }
    }
    forall k: nat | k < |newer| && value(newer[k]).Some?
      ensures (k, value(newer[k]).value) in more
    {
      if k < x {
        assert (k, value(older[k]).value) in points;
      } else {
        assert more[|points|] == (x, v.value);
      }
    }
  }

  /** The fixed-width window the charts are drawn in. */
  function XBounds(history: seq<TrendPoint>): (int, int) {
    var hi := if |history| <= 2 then 1 else |history| - 1;
    (hi - (TREND_CAPACITY - 1), hi)
  }

  /** Every plotted point, and the newest at the right edge, lies in the window: the ring is no deeper than
      the window is wide, and charts need two points. */
  lemma {:induction false} SeriesFitTheWindow(points: seq<(nat, real)>, history: seq<TrendPoint>,
                                              value: TrendPoint -> Option<real>)
    requires Aligned(points, history, value) && 2 <= |history| <= TREND_CAPACITY
    ensures var (left, right) := XBounds(history);
            && right - left == TREND_CAPACITY - 1
            && (forall i :: 0 <= i < |points| ==> left <= points[i].0 <= right)
            && (value(history[|history| - 1]).Some? ==> points != [] && points[|points| - 1].0 == right)
  {
    var n := |history| - 1;
    if value(history[n]).Some? {
      assert forall k :: 0 <= k < |points| - 1 ==> points[k].0 < points[|points| - 1].0;
      var i :| 0 <= i < |points| && points[i] == (n, value(history[n]).value);
      assert points[|points| - 1].0 <= n;
    }
  }
}
