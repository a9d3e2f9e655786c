/** The state of `query monitor` and what changes it (crates/sentinel-cli/src/monitor.rs): the class with
    the source's fields, each method proved against a function on the value of those fields. */
module MonitorState {
  import opened MonitorView
  import opened Resize
  import opened Wrappers

  datatype Rect = Rect(x: U16, y: U16, width: U16, height: U16)

  datatype Size = Size(columns: U16, rows: U16)

  const NO_AREA: Rect := Rect(0, 0, 0, 0)
  const TRENDS_SPLIT_DEFAULT: seq<nat> := [50, 50]

  /** The fields, as one value. */
  datatype Ui = Ui(
    tab: Tab, scroll: nat,
    latest: Option<Snapshot>, stale: bool, lastError: Option<string>, lastUpdate: Option<nat>,
    lineCounts: seq<nat>, history: seq<TrendPoint>, dirty: bool,
    trendsRows: seq<nat>, trendsCols: seq<nat>,
    mouseMode: bool, drag: Option<DragTarget>, hover: Option<DragTarget>, trendsArea: Rect)

  function Fresh(): Ui {
    Ui(Advisor, 0, None, false, None, None, [0, 0, 0, 0, 0, 0], [], true,
       TRENDS_SPLIT_DEFAULT, TRENDS_SPLIT_DEFAULT, false, None, None, NO_AREA)
  }

  // ----- applying a poll tick

  /** The three carry-forward rules: a missing scraper table or config keeps the previous one, an incident
      list is kept over a transient failure and over nothing else. */
  function Merge(latest: Option<Snapshot>, s: Snapshot): Snapshot {
    match latest
    case None => s
    case Some(previous) =>
      s.(scrapers := if s.scrapers.None? then previous.scrapers else s.scrapers,
         config := if s.config.None? then previous.config else s.config,
         incidents := if s.incidents.Err? && !s.incidents.error.refused && previous.incidents.Ok?
                      then previous.incidents else s.incidents)
  }

  function Pushed(history: seq<TrendPoint>, p: TrendPoint): seq<TrendPoint> {
    var longer := history + [p];
    if |longer| > TREND_CAPACITY then longer[1..] else longer
  }

  /** How many lines `draw` would build for each tab; the charts have none. */
  function CountsOf(latest: Option<Snapshot>): Tab -> nat {
    (tab: Tab) => ToU16(|TabLines(tab, latest)|)
  }

  /** A value for each tab, in tab order. */
  function Tabulated(f: Tab -> nat): seq<nat> {
    seq(|TABS|, i requires 0 <= i < |TABS| => f(TABS[i]))
  }

  function LineCounts(latest: Option<Snapshot>): seq<nat> { Tabulated(CountsOf(latest)) }

  lemma TabulatedInOrder(f: Tab -> nat)
    ensures Tabulated(f) == [f(Advisor), f(Energy), f(Trends), f(Scrapers), f(Config), f(Incidents)]
  {
  }

  function LastLine(count: nat): (r: nat)
    ensures count > 0 ==> r + 1 == count
    ensures count == 0 ==> r == 0
  {
    if count == 0 then 0 else count - 1
  }

  /** The scroll position, no further than the last line of the tab. */
  function ClampedScroll(scroll: nat, counts: seq<nat>, tab: Tab): (r: nat)
    requires |counts| == |TABS|
    ensures r <= scroll && r <= LastLine(counts[TabIndex(tab)]) && (r == scroll || r == LastLine(counts[TabIndex(tab)]))
  {
    if scroll <= LastLine(counts[TabIndex(tab)]) then scroll else LastLine(counts[TabIndex(tab)])
  }

  function Applied(ui: Ui, outcome: FetchOutcome, now: nat): Ui
    requires |ui.lineCounts| == |TABS|
  {
    match outcome
    case Fetched(s) =>
      var merged := Merge(ui.latest, s);
      var counts := LineCounts(Some(merged));
      ui.(latest := Some(merged), stale := false, lastUpdate := Some(now),
          lineCounts := counts, history := Pushed(ui.history, TrendPointOf(s)),
          scroll := ClampedScroll(ui.scroll, counts, ui.tab), dirty := true)
    case Unreachable(reason) =>
      ui.(dirty := ui.dirty || !ui.stale || ui.lastError != reason, stale := true, lastError := reason)
  }

  // ----- keys

  function CycledTab(ui: Ui, forward: bool): Ui {
    var n := |TABS|;
    var i := TabIndex(ui.tab);
    ui.(tab := TABS[if forward then (i + 1) % n else (i + n - 1) % n],
        scroll := 0, drag := None, hover := None, dirty := true)
  }

  function ScrolledUp(ui: Ui): Ui {
    if ui.scroll == 0 then ui else ui.(scroll := ui.scroll - 1, dirty := true)
  }

  function ScrolledDown(ui: Ui): Ui
    requires |ui.lineCounts| == |TABS|
  {
    if ui.scroll < LastLine(ui.lineCounts[TabIndex(ui.tab)]) then ui.(scroll := ui.scroll + 1, dirty := true) else ui
  }

  function MouseToggled(ui: Ui): Ui {
    if ui.mouseMode then ui.(mouseMode := false, drag := None, hover := None, dirty := true)
    else ui.(mouseMode := true, dirty := true)
  }

  function LayoutReset(ui: Ui): Ui {
    ui.(trendsRows := TRENDS_SPLIT_DEFAULT, trendsCols := TRENDS_SPLIT_DEFAULT, dirty := true)
  }

  datatype Key = Quit | TabKey | BackTab | Up | Down | M | R | OtherKey

  function Keyed(ui: Ui, key: Key): Ui
    requires |ui.lineCounts| == |TABS|
  {
    match key
    case Quit => ui
    case TabKey => CycledTab(ui, true)
    case BackTab => CycledTab(ui, false)
    case Up => ScrolledUp(ui)
    case Down => ScrolledDown(ui)
    case M => MouseToggled(ui)
    case R => if ui.tab == Trends then LayoutReset(ui) else ui
    case OtherKey => ui
  }

  // ----- the mouse, on the Trends borders

  predicate TwoWay(splits: seq<nat>) { |splits| == 2 }

  /** The border under the cursor, by the area of the last frame. The one between the two charts is looked
      for first, in the charts' row. */
  function HitTest(ui: Ui, col: nat, row: nat): Option<DragTarget>
    requires TwoWay(ui.trendsRows) && TwoWay(ui.trendsCols)
  {
    var area := ui.trendsArea;
    if area.width == 0 || area.height == 0 then None
    else
      var offset := area.height * ui.trendsRows[0] / 100;
      var top := if offset <= U16_MAX then offset else area.height;
      if InRange(row, area.y, top) && Near(col, BoundaryCell(ui.trendsCols, 0, area.x, area.width)) then
        Some(DragTarget(Horizontal, 0))
      else if Near(row, BoundaryCell(ui.trendsRows, 0, area.y, area.height)) && InRange(col, area.x, area.width) then
        Some(DragTarget(Vertical, 0))
      else None
  }

  function Dragged(ui: Ui, col: nat, row: nat): Ui {
    match ui.drag
    case None => ui
    case Some(DragTarget(Vertical, b)) =>
      ui.(trendsRows := CutSegments(ui.trendsRows, b, PosToPct(row, ui.trendsArea.y, ui.trendsArea.height), MIN_PCT))
    case Some(DragTarget(Horizontal, b)) =>
      ui.(trendsCols := CutSegments(ui.trendsCols, b, PosToPct(col, ui.trendsArea.x, ui.trendsArea.width), MIN_PCT))
  }

  datatype Mouse = LeftDown | LeftDrag | LeftUp | Moved | OtherMouse

  function Moused(ui: Ui, kind: Mouse, col: nat, row: nat): Ui
    requires TwoWay(ui.trendsRows) && TwoWay(ui.trendsCols)
  {
    match kind
    case LeftDown => ui.(drag := HitTest(ui, col, row), dirty := true)
    case LeftDrag => Dragged(ui, col, row).(dirty := true)
    case LeftUp => ui.(drag := None, hover := HitTest(ui, col, row), dirty := true)
    case Moved =>
      var next := HitTest(ui, col, row);
      if next == ui.hover then ui else ui.(hover := next, dirty := true)
    case OtherMouse => ui
  }

  datatype Event =
    | KeyEvent(pressed: bool, key: Key)
    | MouseEvent(kind: Mouse, col: U16, row: U16)
    | ResizeEvent
    | OtherEvent

  predicate Shaped(ui: Ui) {
    |ui.lineCounts| == |TABS| && TwoWay(ui.trendsRows) && TwoWay(ui.trendsCols)
  }

  function Handled(ui: Ui, e: Event): Ui
    requires Shaped(ui)
  {
    match e
    case KeyEvent(pressed, key) => if pressed then Keyed(ui, key) else ui
    case MouseEvent(kind, col, row) => if ui.mouseMode && ui.tab == Trends then Moused(ui, kind, col, row) else ui
    case ResizeEvent => ui.(dirty := true)
    case OtherEvent => ui
  }

  predicate Quits(e: Event) { e.KeyEvent? && e.pressed && e.key == Quit }

  // ----- drawing

  datatype Body =
    | Text(lines: seq<Line>, scroll: nat, shown: Option<Snapshot>)  // the cells are filled from `shown`
    | Collecting(points: nat)
    | Charts(history: seq<TrendPoint>, rows: seq<nat>, cols: seq<nat>, highlight: Option<DragTarget>, hubExport: bool)

  /** All that `draw` and `draw_header` put on the terminal, and all they read of the state, but for the age. */
  datatype Frame = Frame(size: Size, tab: Tab, staleReason: Option<Option<string>>, mouseMode: bool, body: Body)

  function HubExportOn(latest: Option<Snapshot>): bool {
    latest.Some? && latest.value.config.Some? && latest.value.config.value.hubExportEnabled == Some(true)
  }

  function Paint(ui: Ui, size: Size): Frame {
    Frame(size, ui.tab, if ui.stale then Some(ui.lastError) else None, ui.mouseMode,
          if ui.tab != Trends then Text(TabLines(ui.tab, ui.latest), ui.scroll, ui.latest)
          else if |ui.history| < 2 then Collecting(|ui.history|)
          else Charts(ui.history, ui.trendsRows, ui.trendsCols,
                      if !ui.mouseMode then None else if ui.drag.Some? then ui.drag else ui.hover,
                      HubExportOn(ui.latest)))
  }

  /** What `draw` and `draw_header` read of the state, tab by tab: everything but the age. */
  ghost predicate SameRead(a: Ui, b: Ui) {
    && a.tab == b.tab && a.mouseMode == b.mouseMode && a.stale == b.stale
    && (a.stale ==> a.lastError == b.lastError)
    && (a.tab != Trends ==> a.latest == b.latest && a.scroll == b.scroll)
    && (a.tab == Trends ==> |a.history| == |b.history|)
    && (a.tab == Trends && |a.history| >= 2 ==>
          && a.history == b.history && a.trendsRows == b.trendsRows && a.trendsCols == b.trendsCols
          && HubExportOn(a.latest) == HubExportOn(b.latest)
          && (a.mouseMode ==> Highlighted(a) == Highlighted(b)))
  }

  function Highlighted(ui: Ui): Option<DragTarget> { if ui.drag.Some? then ui.drag else ui.hover }

  /** A frame tells all of it: equal frames were drawn from states that agree in everything read. */
  lemma FrameTellsTheState(a: Ui, b: Ui, size: Size)
    ensures Paint(a, size) == Paint(b, size) <==> SameRead(a, b)
  {
  }

  function Less(a: nat, b: nat): U16 { ToU16(if a <= b then 0 else a - b) }

  /** The area inside the border of the body, which is all rows but the header's. */
  function ChartArea(size: Size): Rect {
    Rect(1, 2, Less(size.columns, 2), Less(size.rows, 3))
  }

  function AreaDrawn(ui: Ui, size: Size): Rect {
    if ui.tab != Trends then ui.trendsArea
    else if |ui.history| < 2 then NO_AREA
    else ChartArea(size)
  }

  // ----- what every reachable state is

  ghost predicate Grabs(target: Option<DragTarget>) {
    target.Some? ==> target.value.boundary == 0
  }

  /** Both splits sum to 100 with no panel under the minimum; the cached counts are those of the lines `draw`
      would build, and the scroll position is on one of them; borders are held on Trends in mouse mode only. */
  ghost predicate Consistent(ui: Ui) {
    && TwoWay(ui.trendsRows) && Split(ui.trendsRows)
    && TwoWay(ui.trendsCols) && Split(ui.trendsCols)
    && ui.lineCounts == (if ui.latest.Some? then LineCounts(ui.latest) else [0, 0, 0, 0, 0, 0])
    && ui.scroll <= LastLine(ui.lineCounts[TabIndex(ui.tab)])
    && |ui.history| <= TREND_CAPACITY
    && Grabs(ui.drag) && Grabs(ui.hover)
    && (ui.drag.Some? || ui.hover.Some? ==> ui.tab == Trends && ui.mouseMode)
  }

  lemma DefaultSplit()
    ensures Split(TRENDS_SPLIT_DEFAULT)
  {
    assert TRENDS_SPLIT_DEFAULT[..1] == [50] && [50][..0] == [];
    assert Sum([50]) == 50;
  }

  lemma {:induction false} FreshIsConsistent()
    ensures Consistent(Fresh())
  {
    DefaultSplit();
  }

  lemma {:induction false} ApplyKeepsConsistent(ui: Ui, outcome: FetchOutcome, now: nat)
    requires Consistent(ui)
    ensures Consistent(Applied(ui, outcome, now))
  {
  }

  lemma KeyKeepsConsistent(ui: Ui, key: Key)
    requires Consistent(ui)
    ensures Consistent(Keyed(ui, key))
  {
    DefaultSplit();
  }

  lemma DragKeepsConsistent(ui: Ui, col: nat, row: nat)
    requires Consistent(ui)
    ensures Consistent(Dragged(ui, col, row))
  {
    var rowCut := PosToPct(row, ui.trendsArea.y, ui.trendsArea.height);
    var colCut := PosToPct(col, ui.trendsArea.x, ui.trendsArea.width);
    CutKeepsSplit(ui.trendsRows, 0, rowCut);
    CutKeepsSplit(ui.trendsCols, 0, colCut);
    CutMovesOneBorder(ui.trendsRows, 0, rowCut, MIN_PCT);
    CutMovesOneBorder(ui.trendsCols, 0, colCut, MIN_PCT);
  }

  lemma HitsGrabTheOnlyBoundary(ui: Ui, col: nat, row: nat)
    requires Shaped(ui)
    ensures Grabs(HitTest(ui, col, row))
  {
  }

  lemma MouseKeepsConsistent(ui: Ui, kind: Mouse, col: nat, row: nat)
    requires Consistent(ui) && ui.mouseMode && ui.tab == Trends
    ensures Consistent(Moused(ui, kind, col, row))
  {
    DragKeepsConsistent(ui, col, row);
    HitsGrabTheOnlyBoundary(ui, col, row);
  }

  lemma {:induction false} EventKeepsConsistent(ui: Ui, e: Event)
    requires Consistent(ui)
    ensures Consistent(Handled(ui, e))
  {
    match e
    case KeyEvent(_, key) => KeyKeepsConsistent(ui, key);
    case MouseEvent(kind, col, row) => if ui.mouseMode && ui.tab == Trends { MouseKeepsConsistent(ui, kind, col, row); }
    case ResizeEvent =>
    case OtherEvent =>
  }

  /** The cache is exact from the first snapshot on, and only from then: before it the waiting lines are
      already drawn while the counts are still 0. */
  lemma {:induction false} CacheIsExactIff(ui: Ui)
    requires Consistent(ui)
    ensures (forall t :: ui.lineCounts[TabIndex(t)] == ToU16(|TabLines(t, ui.latest)|)) <==> ui.latest.Some?
  {
    if ui.latest.Some? {
      forall t ensures ui.lineCounts[TabIndex(t)] == ToU16(|TabLines(t, ui.latest)|) {
      }
    } else {
      assert ui.lineCounts[TabIndex(Advisor)] == 0;
      assert |TabLines(Advisor, ui.latest)| == 4;
    }
  }

  /** An event that leaves the dirty flag down leaves the frame as it was. */
  lemma {:induction false} EventRepaintsWhatItChanges(ui: Ui, e: Event, size: Size)
    requires Shaped(ui)
    ensures !Handled(ui, e).dirty ==> !ui.dirty && Paint(Handled(ui, e), size) == Paint(ui, size)
    ensures !Handled(ui, e).dirty ==>
              Handled(ui, e).trendsArea == ui.trendsArea && Handled(ui, e).lastUpdate == ui.lastUpdate
  {
  }

  lemma {:induction false} ApplyRepaintsWhatItChanges(ui: Ui, outcome: FetchOutcome, now: nat, size: Size)
    requires Shaped(ui)
    ensures var next := Applied(ui, outcome, now);
            !next.dirty ==> !ui.dirty && next == ui
  {
  }

  // ----- what the user sees happen

  /** A tick, apart from the data it brings: a good one is dated, ends staleness and keeps the scroll position
      as far as the new list goes; a failed one changes nothing but staleness and its reason. */
  lemma {:induction false} TicksMean(ui: Ui, s: Snapshot, reason: Option<string>, now: nat)
    requires Consistent(ui)
    ensures var next := Applied(ui, Fetched(s), now);
            var last := LastLine(next.lineCounts[TabIndex(ui.tab)]);
            && next.lastUpdate == Some(now) && !next.stale && next.dirty
            && next.scroll == (if ui.scroll <= last then ui.scroll else last)
            && next == ui.(latest := next.latest, history := next.history, lineCounts := next.lineCounts,
                           lastUpdate := next.lastUpdate, stale := false, scroll := next.scroll, dirty := true)
    ensures var next := Applied(ui, Unreachable(reason), now);
            && next == ui.(stale := true, lastError := reason, dirty := next.dirty)
            && (next.dirty <==> ui.dirty || !ui.stale || ui.lastError != reason)
  {
  }

  function TabAfter(tab: Tab): Tab {
    match tab
    case Advisor => Energy
    case Energy => Trends
    case Trends => Scrapers
    case Scrapers => Config
    case Config => Incidents
    case Incidents => Advisor
  }

  /** Tab and back-tab go round the six tabs, undo each other, and drop the scroll position and a held border. */
  lemma {:induction false} TabKeysMean(ui: Ui)
    requires Shaped(ui)
    ensures var next := Keyed(ui, TabKey);
            && next.tab == TabAfter(ui.tab)
            && next == ui.(tab := next.tab, scroll := 0, drag := None, hover := None, dirty := true)
    ensures var next := Keyed(ui, BackTab);
            && TabAfter(next.tab) == ui.tab
            && next == ui.(tab := next.tab, scroll := 0, drag := None, hover := None, dirty := true)
  {
    TabsInOrder(ui.tab);
  }

  /** The arrows move one line, and not off the tab. */
  lemma {:induction false} ArrowKeysMean(ui: Ui)
    requires Shaped(ui)
    ensures ui.scroll == 0 ==> Keyed(ui, Up) == ui
    ensures ui.scroll > 0 ==> Keyed(ui, Up) == ui.(scroll := ui.scroll - 1, dirty := true)
    ensures ui.scroll + 1 < ui.lineCounts[TabIndex(ui.tab)] ==>
              Keyed(ui, Down) == ui.(scroll := ui.scroll + 1, dirty := true)
    ensures ui.scroll + 1 >= ui.lineCounts[TabIndex(ui.tab)] ==> Keyed(ui, Down) == ui
  {
  }

  /** `m` flips the mode, `r` resets the splits on Trends only, and no other key changes anything. */
  lemma {:induction false} LetterKeysMean(ui: Ui)
    requires Shaped(ui)
    ensures !ui.mouseMode ==> Keyed(ui, M) == ui.(mouseMode := true, dirty := true)
    ensures ui.mouseMode ==> Keyed(ui, M) == ui.(mouseMode := false, drag := None, hover := None, dirty := true)
    ensures ui.tab == Trends ==> Keyed(ui, R) == ui.(trendsRows := [50, 50], trendsCols := [50, 50], dirty := true)
    ensures ui.tab != Trends ==> Keyed(ui, R) == ui
    ensures Keyed(ui, Quit) == ui && Keyed(ui, OtherKey) == ui
  {
  }

  lemma TabsInOrder(tab: Tab)
    ensures TABS[(TabIndex(tab) + 1) % 6] == TabAfter(tab)
    ensures TabAfter(TABS[(TabIndex(tab) + 5) % 6]) == tab
  {
  }

  /** What does not repaint: releases, other events, and mouse events off Trends or outside mouse mode, or that
      move within one border or away from all of them. */
  lemma {:induction false} QuietEvents(ui: Ui, e: Event)
    requires Consistent(ui)
    ensures e.KeyEvent? && !e.pressed ==> Handled(ui, e) == ui
    ensures e.OtherEvent? ==> Handled(ui, e) == ui
    ensures e.MouseEvent? && !(ui.mouseMode && ui.tab == Trends) ==> Handled(ui, e) == ui
    ensures e.MouseEvent? && e.kind == OtherMouse ==> Handled(ui, e) == ui
    ensures e.MouseEvent? && e.kind == Moved && HitTest(ui, e.col, e.row) == ui.hover ==> Handled(ui, e) == ui
    ensures e.ResizeEvent? ==> Handled(ui, e) == ui.(dirty := true)
    ensures e.KeyEvent? && e.pressed ==> Handled(ui, e) == Keyed(ui, e.key)
  {
  }

  ghost predicate Within(x: int, low: int, high: int) { low <= x < high && x < 65535 }

  ghost predicate OneCellOff(x: int, y: int) { x - 1 <= y <= x + 1 }

  /** Which border a cell grabs: in the rows of the two charts the one between them, and otherwise the one below
      them, at most a cell away from where its percentage puts it. */
  lemma {:induction false} HitMeans(ui: Ui, col: nat, row: nat)
    requires Consistent(ui)
    ensures var area := ui.trendsArea;
            var across := area.x + area.width * ui.trendsCols[0] / 100;
            var down := area.y + area.height * ui.trendsRows[0] / 100;
            var inside := area.width > 0 && area.height > 0;
            var between := inside && Within(row, area.y, down) && OneCellOff(col, across);
            && (HitTest(ui, col, row) == Some(DragTarget(Horizontal, 0)) <==> between)
            && (HitTest(ui, col, row) == Some(DragTarget(Vertical, 0)) <==>
                  inside && !between && OneCellOff(row, down) && Within(col, area.x, area.x + area.width))
            && (HitTest(ui, col, row).Some? ==> HitTest(ui, col, row).value.boundary == 0)
  {
    var area := ui.trendsArea;
    HalvesFit(ui.trendsRows, area.height);
    HalvesFit(ui.trendsCols, area.width);
    FirstCell(ui.trendsRows, area.y, area.height);
    FirstCell(ui.trendsCols, area.x, area.width);
    assert area.width * ui.trendsCols[0] / 100 <= U16_MAX && area.height * ui.trendsRows[0] / 100 <= U16_MAX;
  }

  lemma HalvesFit(splits: seq<nat>, len: U16)
    requires TwoWay(splits) && Split(splits)
    ensures splits[0] + splits[1] == 100 && Sum(splits[..1]) == splits[0]
    ensures len * splits[0] / 100 <= len
  {
    PairFits(splits, 0);
    assert splits[..0] == [] && splits[2..] == [];
    CellInside(len, splits[0]);
    DivisionRemainder(len * splits[0], 100);
  }

  lemma FirstCell(splits: seq<nat>, start: nat, len: U16)
    requires TwoWay(splits) && Split(splits)
    ensures BoundaryCell(splits, 0, start, len) == start + len * splits[0] / 100
  {
    HalvesFit(splits, len);
    assert splits[..0 + 1] == splits[..1];
  }

  ghost predicate MovesTo(splits: seq<nat>, asked: nat) {
    && |splits| == 2 && splits[0] + splits[1] == 100
    && (10 <= asked <= 90 ==> splits[0] == asked)
    && (asked < 10 ==> splits[0] == 10)
    && (asked > 90 ==> splits[0] == 90)
  }

  lemma TwoWayCut(splits: seq<nat>, asked: nat)
    requires TwoWay(splits) && Split(splits)
    ensures MovesTo(CutSegments(splits, 0, asked, MIN_PCT), asked)
  {
    HalvesFit(splits, 0);
    assert splits[..0] == [];
    LandsWhereAsked(splits, 0, asked, MIN_PCT);
  }

  /** On Trends in mouse mode: a press grabs the border under it, a release lets go, and a move lights up the
      border under it, each and nothing else. */
  lemma {:induction false} ButtonsMean(ui: Ui, col: U16, row: U16)
    requires Consistent(ui) && ui.mouseMode && ui.tab == Trends
    ensures Handled(ui, MouseEvent(LeftDown, col, row)) == ui.(drag := HitTest(ui, col, row), dirty := true)
    ensures Handled(ui, MouseEvent(LeftUp, col, row))
         == ui.(drag := None, hover := HitTest(ui, col, row), dirty := true)
    ensures HitTest(ui, col, row) != ui.hover ==>
              Handled(ui, MouseEvent(Moved, col, row)) == ui.(hover := HitTest(ui, col, row), dirty := true)
  {
  }

  /** A drag moves the border that is held, and no other, to the percentage under the cursor, kept between 10
      and 90; without one it moves nothing. */
  lemma {:induction false} DragMeans(ui: Ui, col: U16, row: U16)
    requires Consistent(ui) && ui.mouseMode && ui.tab == Trends
    ensures var next := Handled(ui, MouseEvent(LeftDrag, col, row));
            && next == ui.(trendsRows := next.trendsRows, trendsCols := next.trendsCols, dirty := true)
            && (ui.drag == None ==> next.trendsRows == ui.trendsRows && next.trendsCols == ui.trendsCols)
            && (ui.drag == Some(DragTarget(Horizontal, 0)) ==>
                  && next.trendsRows == ui.trendsRows
                  && MovesTo(next.trendsCols, PosToPct(col, ui.trendsArea.x, ui.trendsArea.width)))
            && (ui.drag == Some(DragTarget(Vertical, 0)) ==>
                  && next.trendsCols == ui.trendsCols
                  && MovesTo(next.trendsRows, PosToPct(row, ui.trendsArea.y, ui.trendsArea.height)))
  {
    TwoWayCut(ui.trendsCols, PosToPct(col, ui.trendsArea.x, ui.trendsArea.width));
    TwoWayCut(ui.trendsRows, PosToPct(row, ui.trendsArea.y, ui.trendsArea.height));
  }

  /** A whole gesture: pressing on a border, dragging and releasing moves that border to where the drag ended,
      moves no other, and leaves nothing held. */
  lemma {:induction false} GestureMovesBorder(ui: Ui, col: U16, row: U16, toCol: U16, toRow: U16)
    requires Consistent(ui) && ui.mouseMode && ui.tab == Trends
    ensures var grabbed := Handled(ui, MouseEvent(LeftDown, col, row));
            var dragged := Handled(grabbed, MouseEvent(LeftDrag, toCol, toRow));
            var released := Handled(dragged, MouseEvent(LeftUp, toCol, toRow));
            var held := HitTest(ui, col, row);
            && released.drag == None
            && (held == Some(DragTarget(Horizontal, 0)) ==>
                  && released.trendsRows == ui.trendsRows
                  && MovesTo(released.trendsCols, PosToPct(toCol, ui.trendsArea.x, ui.trendsArea.width)))
            && (held == Some(DragTarget(Vertical, 0)) ==>
                  && released.trendsCols == ui.trendsCols
                  && MovesTo(released.trendsRows, PosToPct(toRow, ui.trendsArea.y, ui.trendsArea.height)))
            && (held == None ==> released.trendsRows == ui.trendsRows && released.trendsCols == ui.trendsCols)
  {
    var grabbed := Handled(ui, MouseEvent(LeftDown, col, row));
    ButtonsMean(ui, col, row);
    EventKeepsConsistent(ui, MouseEvent(LeftDown, col, row));
    DragMeans(grabbed, toCol, toRow);
    var dragged := Handled(grabbed, MouseEvent(LeftDrag, toCol, toRow));
    EventKeepsConsistent(grabbed, MouseEvent(LeftDrag, toCol, toRow));
    ButtonsMean(dragged, toCol, toRow);
  }

  /** The area that a draw of the charts stores: the cells inside the border of the body, which is every row but
      the header's. */
  lemma {:induction false} DrawnAreaIsTheInterior(ui: Ui, size: Size, col: nat, row: nat)
    requires ui.tab == Trends && |ui.history| >= 2
    ensures var area := AreaDrawn(ui, size);
            area.x <= col < area.x + area.width && area.y <= row < area.y + area.height
            <==> 1 <= col < size.columns - 1 && 2 <= row < size.rows - 1 && size.columns >= 3 && size.rows >= 4
  {
  }

  // ----- the class

  class MonitorState {
    var tab: Tab
    var scroll: nat
    var latest: Option<Snapshot>
    var stale: bool
    var lastError: Option<string>
    var lastUpdate: Option<nat>
    var lineCounts: seq<nat>
    var history: seq<TrendPoint>
    var dirty: bool
    const trendsRows: array<nat>
    const trendsCols: array<nat>
    var mouseMode: bool
    var drag: Option<DragTarget>
    var hover: Option<DragTarget>
    var trendsArea: Rect

    ghost predicate Valid()
      reads this, trendsRows, trendsCols
    {
      && trendsRows != trendsCols && trendsRows.Length == trendsCols.Length == 2
      && |lineCounts| == |TABS|
      && Split(trendsRows[..]) && Split(trendsCols[..])
    }

    ghost function Value(): Ui
      reads this, trendsRows, trendsCols
    {
      Ui(tab, scroll, latest, stale, lastError, lastUpdate, lineCounts, history, dirty,
         trendsRows[..], trendsCols[..], mouseMode, drag, hover, trendsArea)
    }

    constructor ()
      ensures Valid() && Value() == Fresh()
      ensures fresh(trendsRows) && fresh(trendsCols)
    {
      tab, scroll, latest, stale := Advisor, 0, None, false;
      lastError, lastUpdate := None, None;
      lineCounts, history, dirty := [0, 0, 0, 0, 0, 0], [], true;
      trendsRows := new nat[2](_ => 50);
      trendsCols := new nat[2](_ => 50);
      mouseMode, drag, hover, trendsArea := false, None, None, NO_AREA;
      new;
      assert trendsRows[..] == TRENDS_SPLIT_DEFAULT && trendsCols[..] == TRENDS_SPLIT_DEFAULT;
      DefaultSplit();
    }

    /** Fills what a good tick lost to a transient failure from the snapshot on screen. */
    method CarryForward(fetched: Snapshot) returns (s: Snapshot)
      ensures s == Merge(latest, fetched) && TrendPointOf(s) == TrendPointOf(fetched)
    {
      s := fetched;
      if s.scrapers.None? && latest.Some? && latest.value.scrapers.Some? {
        s := s.(scrapers := latest.value.scrapers);
      }
      if s.config.None? && latest.Some? && latest.value.config.Some? {
        s := s.(config := latest.value.config);
      }
      if s.incidents.Err? && !s.incidents.error.refused && latest.Some? && latest.value.incidents.Ok? {
        s := s.(incidents := latest.value.incidents);
      }
    }

    method RefreshLineCounts()
      modifies `lineCounts
      ensures Value() == old(Value()).(lineCounts := LineCounts(latest))
    {
      var count := CountsOf(latest);
      TabulatedInOrder(count);
      assert count(Trends) == 0;
      lineCounts := [count(Advisor), count(Energy), 0, count(Scrapers), count(Config), count(Incidents)];
    }

    method Apply(outcome: FetchOutcome, now: nat)
      requires Valid()
      modifies this
      ensures Valid() && Value() == Applied(old(Value()), outcome, now)
    {
      match outcome {
        case Fetched(s) => ApplySnapshot(s, now);
        case Unreachable(reason) =>
          dirty := dirty || !stale || lastError != reason;
          stale := true;
          lastError := reason;
      }
    }

    method ApplySnapshot(fetched: Snapshot, now: nat)
      requires |lineCounts| == |TABS|
      modifies this
      ensures Value() == Applied(old(Value()), Fetched(fetched), now)
    {
      var s := CarryForward(fetched);
      Record(s, now);
      RefreshLineCounts();
      ClampScroll();
    }

    /** Adds the trend sample and replaces the snapshot on screen. */
    method Record(s: Snapshot, now: nat)
      modifies `history, `latest, `stale, `lastUpdate, `dirty
      ensures Value() == old(Value()).(history := Pushed(old(history), TrendPointOf(s)), latest := Some(s),
                                       stale := false, lastUpdate := Some(now), dirty := true)
    {
      history := history + [TrendPointOf(s)];
      if |history| > TREND_CAPACITY {
        history := history[1..];
      }
      latest := Some(s);
      stale := false;
      lastUpdate := Some(now);
      dirty := true;
    }

    /** The new snapshot may be shorter than the scroll position. */
    method ClampScroll()
      requires |lineCounts| == |TABS|
      modifies `scroll
      ensures Value() == old(Value()).(scroll := ClampedScroll(old(scroll), lineCounts, tab))
    {
      var last := LastLine(lineCounts[TabIndex(tab)]);
      if scroll > last {
        scroll := last;
      }
    }

    method CycleTab(forward: bool)
      requires Valid()
      modifies this
      ensures Valid() && Value() == CycledTab(old(Value()), forward)
    {
      var n, i := |TABS|, TabIndex(tab);
      var next := if forward then (i + 1) % n else (i + n - 1) % n;
      tab := TABS[next];
      scroll := 0;
      drag, hover := None, None;
      dirty := true;
    }

    method ScrollUp()
      requires Valid()
      modifies `scroll, `dirty
      ensures Valid() && Value() == ScrolledUp(old(Value()))
    {
      var prev := scroll;
      scroll := if scroll == 0 then 0 else scroll - 1;
      dirty := dirty || scroll != prev;
    }

    method ScrollDown()
      requires Valid()
      modifies `scroll, `dirty
      ensures Valid() && Value() == ScrolledDown(old(Value()))
    {
      var max := LastLine(lineCounts[TabIndex(tab)]);
      if scroll < max {
        scroll := scroll + 1;
        dirty := true;
      }
    }

    method ToggleMouseMode()
      requires Valid()
      modifies `mouseMode, `drag, `hover, `dirty
      ensures Valid() && Value() == MouseToggled(old(Value()))
    {
      mouseMode := !mouseMode;
      if !mouseMode {
        drag, hover := None, None;
      }
      dirty := true;
    }

    method ResetLayout()
      requires Valid()
      modifies `dirty, trendsRows, trendsCols
      ensures Valid() && Value() == LayoutReset(old(Value()))
    {
      trendsRows[0], trendsRows[1] := 50, 50;
      trendsCols[0], trendsCols[1] := 50, 50;
      dirty := true;
      assert trendsRows[..] == TRENDS_SPLIT_DEFAULT && trendsCols[..] == TRENDS_SPLIT_DEFAULT;
      DefaultSplit();
    }

    method BorderAt(col: nat, row: nat) returns (hit: Option<DragTarget>)
      requires Valid()
      ensures hit == HitTest(Value(), col, row)
    {
      var area := trendsArea;
      if area.width == 0 || area.height == 0 {
        return None;
      }
      var offset := area.height * trendsRows[0] / 100;
      var top := if offset <= U16_MAX then offset else area.height;
      if InRange(row, area.y, top) && Near(col, BoundaryCell(trendsCols[..], 0, area.x, area.width)) {
        return Some(DragTarget(Horizontal, 0));
      }
      if Near(row, BoundaryCell(trendsRows[..], 0, area.y, area.height)) && InRange(col, area.x, area.width) {
        return Some(DragTarget(Vertical, 0));
      }
      return None;
    }

    method ApplyDrag(col: nat, row: nat)
      requires Valid()
      modifies trendsRows, trendsCols
      ensures Valid() && Value() == Dragged(old(Value()), col, row)
    {
      ghost var rows, cols := trendsRows[..], trendsCols[..];
      var area := trendsArea;
      match drag {
        case None =>
        case Some(DragTarget(Vertical, boundary)) =>
          SmallTotalFits(rows, boundary, MIN_PCT);
          var _ := SetCut(trendsRows, boundary, PosToPct(row, area.y, area.height), MIN_PCT);
          CutKeepsSplit(rows, boundary, PosToPct(row, area.y, area.height));
        case Some(DragTarget(Horizontal, boundary)) =>
          SmallTotalFits(cols, boundary, MIN_PCT);
          var _ := SetCut(trendsCols, boundary, PosToPct(col, area.x, area.width), MIN_PCT);
          CutKeepsSplit(cols, boundary, PosToPct(col, area.x, area.width));
      }
    }

    method HandleMouse(kind: Mouse, col: nat, row: nat) returns (changed: bool)
      requires Valid() && mouseMode && tab == Trends
      modifies `drag, `hover, trendsRows, trendsCols
      ensures Valid()
      ensures Moused(old(Value()), kind, col, row) == if changed then Value().(dirty := true) else Value()
    {
      match kind {
        case LeftDown =>
          drag := BorderAt(col, row);
          return true;
        case LeftDrag =>
          ApplyDrag(col, row);
          return true;
        case LeftUp =>
          drag := None;
          hover := BorderAt(col, row);
          return true;
        case Moved =>
          var next := BorderAt(col, row);
          if next == hover {
            return false;
          }
          hover := next;
          return true;
        case OtherMouse =>
          return false;
      }
    }

    method HandleKey(key: Key) returns (quit: bool)
      requires Valid()
      modifies this, trendsRows, trendsCols
      ensures Valid() && Value() == Keyed(old(Value()), key)
      ensures quit <==> key == Quit
    {
      match key {
        case Quit => return true;
        case TabKey => CycleTab(true);
        case BackTab => CycleTab(false);
        case Up => ScrollUp();
        case Down => ScrollDown();
        case M => ToggleMouseMode();
        case R => if tab == Trends { ResetLayout(); }
        case OtherKey =>
      }
      return false;
    }

    method HandleEvent(e: Event) returns (quit: bool)
      requires Valid()
      modifies this, trendsRows, trendsCols
      ensures Valid() && Value() == Handled(old(Value()), e)
      ensures quit <==> e.KeyEvent? && e.pressed && e.key == Quit
    {
      match e {
        case KeyEvent(pressed, key) =>
          if pressed {
            quit := HandleKey(key);
            return;
          }
        case MouseEvent(kind, col, row) =>
          if mouseMode && tab == Trends {
            var changed := HandleMouse(kind, col, row);
            if changed {
              dirty := true;
            }
          }
        case ResizeEvent => dirty := true;
        case OtherEvent =>
      }
      return false;
    }

    /** Paints the state, and stores the chart area for the next hit tests. */
    method Draw(size: Size) returns (frame: Frame)
      requires Valid()
      modifies `trendsArea
      ensures Valid() && frame == Paint(old(Value()), size)
      ensures Value() == old(Value()).(trendsArea := AreaDrawn(old(Value()), size))
    {
      var reason := if stale then Some(lastError) else None;
      if tab != Trends {
        return Frame(size, tab, reason, mouseMode, Text(TabLines(tab, latest), scroll, latest));
      }
      trendsArea := NO_AREA;
      if |history| < 2 {
        return Frame(size, tab, reason, mouseMode, Collecting(|history|));
      }
      trendsArea := ChartArea(size);
      var highlight := if !mouseMode then None else if drag.Some? then drag else hover;
      return Frame(size, tab, reason, mouseMode,
                   Charts(history, trendsRows[..], trendsCols[..], highlight, HubExportOn(latest)));
    }
  }
}
