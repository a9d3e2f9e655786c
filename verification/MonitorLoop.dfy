/** The poller, the 4-slot channel and the UI loop of `query monitor` (crates/sentinel-cli/src/monitor.rs)
    as one state machine: the poller, the clock and the user may act between any two steps of the loop. */
module MonitorLoop {
  import opened MonitorState
  import opened MonitorView
  import opened Permutations
  import opened Resize
  import opened Wrappers

  const CHANNEL_CAPACITY: nat := 4
  const SECOND: nat := 1_000_000_000

  /** Where the UI loop stands: emptying the channel, about to decide whether to repaint, waiting for input. */
  datatype Phase = Draining | Deciding | Listening | Stopped

  /** What the terminal shows: the painted frame, and the age in its header. */
  datatype Screen = Screen(frame: Frame, age: Option<nat>)

  /** One poll tick, and whether the channel had room for its outcome. */
  datatype Polled = Polled(outcome: FetchOutcome, kept: bool)

  datatype World = World(
    queue: seq<FetchOutcome>, polled: seq<Polled>, applied: seq<FetchOutcome>,
    ui: Ui, size: Size, clock: nat, phase: Phase, screen: Option<Screen>, lastAge: Option<Option<nat>>)

  datatype Action =
    | PollTick(outcome: FetchOutcome)
    | Elapse(time: nat)
    | Receive               // `try_recv` hands an outcome to `apply`
    | FoundEmpty            // `try_recv` finds the channel empty
    | DrawCheck(lag: nat)   // the repaint decision; `lag` passes between it and the header's own clock reading
    | Timeout
    | Input(event: Event, newSize: Size)

  function Begin(size: Size): World {
    World([], [], [], Fresh(), size, 0, Draining, None, None)
  }

  /** Whole seconds since the last good tick. */
  function AgeSince(lastUpdate: Option<nat>, clock: nat): Option<nat> {
    match lastUpdate
    case None => None
    case Some(t) => Some(if clock >= t then (clock - t) / SECOND else 0)
  }

  function Age(ui: Ui, clock: nat): Option<nat> { AgeSince(ui.lastUpdate, clock) }

  function Next(w: World, a: Action): World
    requires Shaped(w.ui)
  {
    match a
    case PollTick(outcome) =>
      var room := |w.queue| < CHANNEL_CAPACITY;
      w.(polled := w.polled + [Polled(outcome, room)], queue := if room then w.queue + [outcome] else w.queue)
    case Elapse(time) => w.(clock := w.clock + time)
    case Receive =>
      if w.phase != Draining || w.queue == [] then w
      else w.(ui := Applied(w.ui, w.queue[0], w.clock), applied := w.applied + [w.queue[0]], queue := w.queue[1..])
    case FoundEmpty => if w.phase == Draining && w.queue == [] then w.(phase := Deciding) else w
    case DrawCheck(lag) =>
      if w.phase != Deciding then w
      else
        var age := Age(w.ui, w.clock);
        if !w.ui.dirty && w.lastAge == Some(age) then w.(phase := Listening)
        else
          w.(screen := Some(Screen(Paint(w.ui, w.size), Age(w.ui, w.clock + lag))),
             ui := w.ui.(trendsArea := AreaDrawn(w.ui, w.size), dirty := false),
             lastAge := Some(age), clock := w.clock + lag, phase := Listening)
    case Timeout => if w.phase == Listening then w.(phase := Draining) else w
    case Input(event, newSize) =>
      if w.phase != Listening then w
      else w.(ui := Handled(w.ui, event), size := if event.ResizeEvent? then newSize else w.size,
              phase := if Quits(event) then Stopped else Draining)
  }

  lemma MouseKeepsShape(ui: Ui, kind: Mouse, col: nat, row: nat)
    requires Shaped(ui)
    ensures Shaped(Moused(ui, kind, col, row))
  {
    assert Shaped(Dragged(ui, col, row));
  }

  lemma KeyKeepsShape(ui: Ui, key: Key)
    requires Shaped(ui)
    ensures Shaped(Keyed(ui, key))
  {
  }

  lemma EventKeepsShape(ui: Ui, e: Event)
    requires Shaped(ui)
    ensures Shaped(Handled(ui, e))
  {
    match e
    case KeyEvent(_, key) => KeyKeepsShape(ui, key);
    case MouseEvent(kind, col, row) => MouseKeepsShape(ui, kind, col, row);
    case ResizeEvent =>
    case OtherEvent =>
  }

  lemma StepKeepsShape(w: World, a: Action)
    requires Shaped(w.ui)
    ensures Shaped(Next(w, a).ui)
  {
    match a
    case Input(e, _) => EventKeepsShape(w.ui, e);
    case _ =>
  }

  /** Any number of steps; an action out of turn does nothing. */
  ghost function Steps(w: World, actions: seq<Action>): (after: World)
    requires Shaped(w.ui)
    ensures Shaped(after.ui)
  {
    if actions == [] then w
    else
      var before := Steps(w, actions[..|actions| - 1]);
      StepKeepsShape(before, actions[|actions| - 1]);
      Next(before, actions[|actions| - 1])
  }

  /** When the program or its environment can take an action at all. */
  predicate Enabled(w: World, a: Action) {
    match a
    case PollTick(_) => true
    case Elapse(_) => true
    case Receive => w.phase == Draining && w.queue != []
    case FoundEmpty => w.phase == Draining && w.queue == []
    case DrawCheck(_) => w.phase == Deciding
    case Timeout => w.phase == Listening
    case Input(_, _) => w.phase == Listening
  }

  /** Every action is taken in its turn. */
  ghost predicate Lawful(w: World, actions: seq<Action>)
    requires Shaped(w.ui)
  {
    actions == [] ||
    var before := actions[..|actions| - 1];
    Lawful(w, before) && Enabled(Steps(w, before), actions[|actions| - 1])
  }

  /** The world after a run from the start. */
  ghost function After(size: Size, actions: seq<Action>): World {
    Steps(Begin(size), actions)
  }

  // ----- what the applied outcomes amount to

  function LastScrapers(applied: seq<FetchOutcome>): Option<seq<string>> {
    if applied == [] then None
    else
      var last := applied[|applied| - 1];
      if last.Fetched? && last.snapshot.scrapers.Some? then last.snapshot.scrapers
      else LastScrapers(applied[..|applied| - 1])
  }

  function LastConfig(applied: seq<FetchOutcome>): Option<DaemonConfig> {
    if applied == [] then None
    else
      var last := applied[|applied| - 1];
      if last.Fetched? && last.snapshot.config.Some? then last.snapshot.config
      else LastConfig(applied[..|applied| - 1])
  }

  function LastSnapshot(applied: seq<FetchOutcome>): Option<Snapshot> {
    if applied == [] then None
    else
      var last := applied[|applied| - 1];
      if last.Fetched? then Some(last.snapshot) else LastSnapshot(applied[..|applied| - 1])
  }

  predicate Transient(r: Result<seq<Incident>, IncidentsError>) { r.Err? && !r.error.refused }

  /** The most recent incident result that is no transient failure: a list, or a refusal. */
  function LastDecisive(applied: seq<FetchOutcome>): Option<Result<seq<Incident>, IncidentsError>> {
    if applied == [] then None
    else
      var last := applied[|applied| - 1];
      if last.Fetched? && !Transient(last.snapshot.incidents) then Some(last.snapshot.incidents)
      else LastDecisive(applied[..|applied| - 1])
  }

  function TrendOf(o: FetchOutcome): Option<TrendPoint> {
    if o.Fetched? then Some(TrendPointOf(o.snapshot)) else None
  }

  /** The last `n` elements, or all of them. */
  function LastOf<T>(s: seq<T>, n: nat): seq<T> {
    if |s| <= n then s else s[|s| - n..]
  }

  /** The state on screen says what the applied outcomes amount to. */
  ghost predicate ShowsSnapshot(ui: Ui, applied: seq<FetchOutcome>) {
    && (ui.latest.Some? <==> LastSnapshot(applied).Some?)
    && (ui.latest.Some? <==> ui.lastUpdate.Some?)
    && (ui.latest.Some? ==>
          var shown, fetched := ui.latest.value, LastSnapshot(applied).value;
          && shown.green == fetched.green && shown.status == fetched.status
          && shown.warningDetails == fetched.warningDetails && shown.warnings == fetched.warnings)
  }

  ghost predicate ShowsCarried(ui: Ui, applied: seq<FetchOutcome>) {
    if ui.latest.Some? then
      && ui.latest.value.scrapers == LastScrapers(applied)
      && ui.latest.value.config == LastConfig(applied)
    else LastScrapers(applied) == None && LastConfig(applied) == None
  }

  /** A list is shown iff the last decisive result was that list; otherwise the last poll's own error is. */
  ghost predicate ShowsIncidents(ui: Ui, applied: seq<FetchOutcome>) {
    var decisive := LastDecisive(applied);
    && (ui.latest.None? ==> decisive.None?)
    && (ui.latest.Some? && LastSnapshot(applied).Some? ==>
          ui.latest.value.incidents == if decisive.Some? && decisive.value.Ok? then decisive.value
                                       else LastSnapshot(applied).value.incidents)
  }

  ghost predicate ShowsStaleness(ui: Ui, applied: seq<FetchOutcome>) {
    && (ui.stale <==> applied != [] && applied[|applied| - 1].Unreachable?)
    && (ui.stale ==> ui.lastError == applied[|applied| - 1].reason)
  }

  ghost predicate Reflects(ui: Ui, applied: seq<FetchOutcome>) {
    && ShowsSnapshot(ui, applied) && ShowsCarried(ui, applied) && ShowsIncidents(ui, applied)
    && ShowsStaleness(ui, applied)
    && ui.history == LastOf(FilterMap(TrendOf, applied), TREND_CAPACITY)
  }

  lemma LastOfOneMore(points: seq<TrendPoint>, p: TrendPoint)
    ensures LastOf(points + [p], TREND_CAPACITY) == Pushed(LastOf(points, TREND_CAPACITY), p)
  {
  }

  lemma {:induction false} RingGrows(applied: seq<FetchOutcome>, o: FetchOutcome, history: seq<TrendPoint>)
    requires history == LastOf(FilterMap(TrendOf, applied), TREND_CAPACITY)
    ensures LastOf(FilterMap(TrendOf, applied + [o]), TREND_CAPACITY)
         == if o.Fetched? then Pushed(history, TrendPointOf(o.snapshot)) else history
  {
    FilterMapAppends(TrendOf, applied, [o]);
    if o.Fetched? {
      assert FilterMap(TrendOf, [o]) == [TrendPointOf(o.snapshot)];
      LastOfOneMore(FilterMap(TrendOf, applied), TrendPointOf(o.snapshot));
    } else {
      assert FilterMap(TrendOf, [o]) == [];
      assert FilterMap(TrendOf, applied) + [] == FilterMap(TrendOf, applied);
    }
  }

  lemma ApplyShowsSnapshot(ui: Ui, applied: seq<FetchOutcome>, o: FetchOutcome, now: nat)
    requires Shaped(ui) && ShowsSnapshot(ui, applied) && ShowsStaleness(ui, applied)
    ensures ShowsSnapshot(Applied(ui, o, now), applied + [o]) && ShowsStaleness(Applied(ui, o, now), applied + [o])
  {
    assert (applied + [o])[..|applied|] == applied;
  }

  lemma ApplyShowsCarried(ui: Ui, applied: seq<FetchOutcome>, o: FetchOutcome, now: nat)
    requires Shaped(ui) && ShowsCarried(ui, applied)
    ensures ShowsCarried(Applied(ui, o, now), applied + [o])
  {
    assert (applied + [o])[..|applied|] == applied;
  }

  lemma ApplyShowsIncidents(ui: Ui, applied: seq<FetchOutcome>, o: FetchOutcome, now: nat)
    requires Shaped(ui) && ShowsSnapshot(ui, applied) && ShowsIncidents(ui, applied)
    ensures ShowsIncidents(Applied(ui, o, now), applied + [o])
  {
    assert (applied + [o])[..|applied|] == applied;
    DecisiveHasSnapshot(applied);
    LatestListIsDecisive(applied);
  }

  lemma {:induction false} ApplyReflects(ui: Ui, applied: seq<FetchOutcome>, o: FetchOutcome, now: nat)
    requires Shaped(ui) && Reflects(ui, applied)
    ensures Reflects(Applied(ui, o, now), applied + [o])
  {
    RingGrows(applied, o, ui.history);
    ApplyShowsSnapshot(ui, applied, o, now);
    ApplyShowsCarried(ui, applied, o, now);
    ApplyShowsIncidents(ui, applied, o, now);
  }

  /** A last poll that answered a list decides it. */
  lemma {:induction false} LatestListIsDecisive(applied: seq<FetchOutcome>)
    ensures LastSnapshot(applied).Some? && LastSnapshot(applied).value.incidents.Ok? ==>
              LastDecisive(applied) == Some(LastSnapshot(applied).value.incidents)
  {
    if applied != [] {
      LatestListIsDecisive(applied[..|applied| - 1]);
    }
  }

  lemma {:induction false} DecisiveHasSnapshot(applied: seq<FetchOutcome>)
    ensures LastDecisive(applied).Some? ==> LastSnapshot(applied).Some?
  {
    if applied != [] {
      DecisiveHasSnapshot(applied[..|applied| - 1]);
    }
  }

  predicate SameData(ui: Ui, next: Ui) {
    && next.latest == ui.latest && next.lastUpdate == ui.lastUpdate && next.history == ui.history
    && next.stale == ui.stale && next.lastError == ui.lastError
  }

  lemma MouseKeepsData(ui: Ui, kind: Mouse, col: nat, row: nat)
    requires Shaped(ui)
    ensures SameData(ui, Moused(ui, kind, col, row))
  {
    assert SameData(ui, Dragged(ui, col, row));
  }

  lemma KeyKeepsData(ui: Ui, key: Key)
    requires Shaped(ui)
    ensures SameData(ui, Keyed(ui, key))
  {
  }

  lemma EventKeepsData(ui: Ui, e: Event)
    requires Shaped(ui)
    ensures SameData(ui, Handled(ui, e))
  {
    match e
    case KeyEvent(_, key) => KeyKeepsData(ui, key);
    case MouseEvent(kind, col, row) => MouseKeepsData(ui, kind, col, row);
    case ResizeEvent =>
    case OtherEvent =>
  }

  lemma EventReflects(ui: Ui, applied: seq<FetchOutcome>, e: Event)
    requires Shaped(ui) && Reflects(ui, applied)
    ensures Reflects(Handled(ui, e), applied)
  {
    EventKeepsData(ui, e);
    SameDataReflects(ui, Handled(ui, e), applied);
  }

  lemma SameDataReflects(ui: Ui, next: Ui, applied: seq<FetchOutcome>)
    requires Reflects(ui, applied) && SameData(ui, next)
    ensures Reflects(next, applied)
  {
  }

  // ----- the channel

  function Kept(p: Polled): Option<FetchOutcome> { if p.kept then Some(p.outcome) else None }

  /** The channel is bounded, and what was kept is what was applied, in order, then what waits in it. */
  ghost predicate Channel(w: World) {
    && |w.queue| <= CHANNEL_CAPACITY
    && FilterMap(Kept, w.polled) == w.applied + w.queue
  }

  lemma {:induction false} StepKeepsChannel(w: World, a: Action)
    requires Shaped(w.ui) && Channel(w)
    ensures Channel(Next(w, a))
  {
    match a
    case PollTick(outcome) =>
      var p := Polled(outcome, |w.queue| < CHANNEL_CAPACITY);
      FilterMapAppends(Kept, w.polled, [p]);
      assert FilterMap(Kept, [p]) == if p.kept then [outcome] else [];
    case Receive =>
      if w.queue != [] {
        assert w.queue == [w.queue[0]] + w.queue[1..];
      }
    case _ =>
  }

  // ----- the screen

  predicate NoLater(a: Option<nat>, b: Option<nat>) {
    (a.None? && b.None?) || (a.Some? && b.Some? && a.value <= b.value)
  }

  /** While the dirty flag is down the screen shows the frame a draw would paint now, the stored chart area is
      that frame's, and the painted age lies between the one the decision read and the present one. */
  ghost predicate UpToDate(w: World) {
    && w.screen.Some? && w.lastAge.Some?
    && w.screen.value.frame == Paint(w.ui, w.size)
    && (w.ui.tab == Trends ==> w.ui.trendsArea == AreaDrawn(w.ui, w.size))
    && NoLater(w.lastAge.value, w.screen.value.age)
    && NoLater(w.screen.value.age, Age(w.ui, w.clock))
  }

  ghost predicate Painted(w: World) {
    && (w.ui.lastUpdate.Some? ==> w.ui.lastUpdate.value <= w.clock)
    && (!w.ui.dirty ==> UpToDate(w))
    && (w.phase == Listening ==> !w.ui.dirty)
  }

  lemma AgeGrows(ui: Ui, clock: nat, later: nat)
    requires clock <= later
    ensures NoLater(Age(ui, clock), Age(ui, later))
  {
  }

  lemma EventKeepsPainted(w: World, e: Event, newSize: Size)
    requires Shaped(w.ui) && Painted(w)
    ensures Painted(Next(w, Input(e, newSize)))
  {
    EventRepaintsWhatItChanges(w.ui, e, w.size);
  }

  lemma DrawKeepsPainted(w: World, lag: nat)
    requires Shaped(w.ui) && Painted(w)
    ensures Painted(Next(w, DrawCheck(lag)))
  {
    AgeGrows(w.ui, w.clock, w.clock + lag);
  }

  lemma {:induction false} StepKeepsPainted(w: World, a: Action)
    requires Shaped(w.ui) && Painted(w)
    ensures Painted(Next(w, a))
  {
    match a
    case PollTick(_) =>
    case Elapse(time) => AgeGrows(w.ui, w.clock, w.clock + time);
    case Receive => if w.queue != [] { ApplyRepaintsWhatItChanges(w.ui, w.queue[0], w.clock, w.size); }
    case FoundEmpty =>
    case DrawCheck(lag) => DrawKeepsPainted(w, lag);
    case Timeout =>
    case Input(e, newSize) => EventKeepsPainted(w, e, newSize);
  }

  // ----- every run

  ghost predicate Invariant(w: World) {
    Consistent(w.ui) && Reflects(w.ui, w.applied) && Channel(w) && Painted(w)
  }

  lemma BeginHolds(size: Size)
    ensures Invariant(Begin(size))
  {
    FreshIsConsistent();
  }

  lemma StepKeepsConsistent(w: World, a: Action)
    requires Consistent(w.ui)
    ensures Consistent(Next(w, a).ui)
  {
    match a
    case Receive => if w.queue != [] { ApplyKeepsConsistent(w.ui, w.queue[0], w.clock); }
    case Input(e, _) => EventKeepsConsistent(w.ui, e);
    case _ =>
  }

  lemma StepKeepsReflecting(w: World, a: Action)
    requires Shaped(w.ui) && Reflects(w.ui, w.applied)
    ensures Reflects(Next(w, a).ui, Next(w, a).applied)
  {
    match a
    case Receive => if w.queue != [] { ApplyReflects(w.ui, w.applied, w.queue[0], w.clock); }
    case Input(e, _) => EventReflects(w.ui, w.applied, e);
    case DrawCheck(_) => SameDataReflects(w.ui, Next(w, a).ui, w.applied);
    case _ =>
  }

  lemma StepKeepsInvariant(w: World, a: Action)
    requires Invariant(w)
    ensures Invariant(Next(w, a))
  {
    StepKeepsConsistent(w, a);
    StepKeepsReflecting(w, a);
    StepKeepsChannel(w, a);
    StepKeepsPainted(w, a);
  }

  lemma {:induction false} EveryRunKeepsInvariant(size: Size, actions: seq<Action>)
    ensures Invariant(After(size, actions))
  {
    if actions == [] {
      BeginHolds(size);
    } else {
      var n := |actions| - 1;
      EveryRunKeepsInvariant(size, actions[..n]);
      StepKeepsInvariant(After(size, actions[..n]), actions[n]);
    }
  }

  /** Every interleaving of poll ticks and UI turns: the channel is bounded and loses nothing but what found it
      full; scrapers and config are the last present ones applied; an incident list is shown iff no refusal
      came after it; and the ring holds the last 240 trend points. */
  lemma {:induction false} EveryRunShowsWhatItApplied(size: Size, actions: seq<Action>)
    ensures var w := After(size, actions);
            && |w.queue| <= CHANNEL_CAPACITY
            && FilterMap(Kept, w.polled) == w.applied + w.queue
            && (w.ui.latest.Some? ==>
                  && w.ui.latest.value.scrapers == LastScrapers(w.applied)
                  && w.ui.latest.value.config == LastConfig(w.applied)
                  && (forall list ::
                        w.ui.latest.value.incidents == Ok(list) <==> LastDecisive(w.applied) == Some(Ok(list))))
            && w.ui.history == LastOf(FilterMap(TrendOf, w.applied), TREND_CAPACITY)
  {
    EveryRunKeepsInvariant(size, actions);
    var w := After(size, actions);
    LatestListIsDecisive(w.applied);
    DecisiveHasSnapshot(w.applied);
  }

  lemma ScrollIsOnALine(ui: Ui)
    requires Consistent(ui)
    ensures ui.scroll <= LastLine(ToU16(|TabLines(ui.tab, ui.latest)|))
  {
    if ui.latest.Some? {
      CacheIsExactIff(ui);
    } else {
      assert ui.lineCounts[TabIndex(ui.tab)] == 0;
    }
  }

  /** Every run keeps both splits at 100 with no panel under 10, the line-count cache equal to what `draw` would
      rebuild from the first snapshot on, and the scroll position on a line of the tab. */
  lemma {:induction false} EveryRunKeepsLayoutAndScroll(size: Size, actions: seq<Action>)
    ensures var ui := After(size, actions).ui;
            && Split(ui.trendsRows) && Split(ui.trendsCols)
            && (ui.latest.Some? ==> forall t :: ui.lineCounts[TabIndex(t)] == ToU16(|TabLines(t, ui.latest)|))
            && ui.scroll <= LastLine(ToU16(|TabLines(ui.tab, ui.latest)|))
  {
    EveryRunKeepsInvariant(size, actions);
    var ui := After(size, actions).ui;
    CacheIsExactIff(ui);
    ScrollIsOnALine(ui);
  }

  /** No lost repaint, over every run: with the flag down, the screen is what a draw would paint. A mouse event
      is only ever tested against the area of the frame on screen. */
  lemma {:induction false} EveryRunRepaints(size: Size, actions: seq<Action>)
    ensures var w := After(size, actions);
            && (!w.ui.dirty ==> w.screen.Some? && w.screen.value.frame == Paint(w.ui, w.size))
            && (w.phase == Listening ==>
                  && w.screen.Some? && w.screen.value.frame == Paint(w.ui, w.size)
                  && (w.ui.tab == Trends ==> w.ui.trendsArea == AreaDrawn(w.ui, w.size)))
  {
    EveryRunKeepsInvariant(size, actions);
  }

  lemma DecisionShowsThePresent(w: World, lag: nat)
    requires Shaped(w.ui) && Painted(w) && w.phase == Deciding
    ensures var next := Next(w, DrawCheck(lag));
            && next.phase == Listening && next.screen.Some? && w.clock <= next.clock
            && next.screen.value.frame == Paint(w.ui, w.size)
            && (next.screen.value.age == Age(w.ui, w.clock) || next.screen.value.age == Age(w.ui, next.clock))
  {
  }

  /** The throttle is unobservable: after the decision the terminal shows the frame that drawing on every turn
      would show, with the age at an instant of that turn. */
  lemma {:induction false} ThrottleIsUnobservable(size: Size, actions: seq<Action>, lag: nat)
    requires After(size, actions).phase == Deciding
    ensures var w := After(size, actions);
            var next := Next(w, DrawCheck(lag));
            && next.phase == Listening && next.screen.Some?
            && next.screen.value.frame == Paint(w.ui, w.size)
            && exists t :: w.clock <= t <= next.clock && next.screen.value.age == Age(w.ui, t)
  {
    EveryRunKeepsInvariant(size, actions);
    DecisionShowsThePresent(After(size, actions), lag);
  }

  // ----- what the channel drops

  function TickOf(a: Action): Option<FetchOutcome> {
    if a.PollTick? then Some(a.outcome) else None
  }

  function Outcomes(polled: seq<Polled>): seq<FetchOutcome> {
    seq(|polled|, i requires 0 <= i < |polled| => polled[i].outcome)
  }

  lemma AfterOneMore(size: Size, actions: seq<Action>)
    requires actions != []
    ensures var n := |actions| - 1; After(size, actions) == Next(After(size, actions[..n]), actions[n])
  {
  }

  lemma StepOnlyAdds(w: World, a: Action)
    requires Shaped(w.ui)
    ensures w.polled <= Next(w, a).polled && w.applied <= Next(w, a).applied && w.clock <= Next(w, a).clock
    ensures Outcomes(Next(w, a).polled) == Outcomes(w.polled) + if a.PollTick? then [a.outcome] else []
  {
  }

  lemma {:induction false} RunsOnlyAdd(size: Size, actions: seq<Action>, m: nat)
    requires m <= |actions|
    ensures After(size, actions[..m]).polled <= After(size, actions).polled
    ensures After(size, actions[..m]).applied <= After(size, actions).applied
    ensures After(size, actions[..m]).clock <= After(size, actions).clock
  {
    if m == |actions| {
      assert actions[..m] == actions;
    } else {
      var n := |actions| - 1;
      RunsOnlyAdd(size, actions[..n], m);
      assert actions[..n][..m] == actions[..m];
      AfterOneMore(size, actions);
      StepOnlyAdds(After(size, actions[..n]), actions[n]);
    }
  }

  /** The poller's record is its ticks, in order. */
  lemma {:induction false} EveryTickIsRecorded(size: Size, actions: seq<Action>)
    ensures Outcomes(After(size, actions).polled) == FilterMap(TickOf, actions)
  {
    if actions != [] {
      var n := |actions| - 1;
      EveryTickIsRecorded(size, actions[..n]);
      AfterOneMore(size, actions);
      StepOnlyAdds(After(size, actions[..n]), actions[n]);
      FilterMapAppends(TickOf, actions[..n], [actions[n]]);
      assert actions == actions[..n] + [actions[n]];
      assert FilterMap(TickOf, [actions[n]]) == if actions[n].PollTick? then [actions[n].outcome] else [];
    }
  }

  lemma TickMeans(w: World, outcome: FetchOutcome)
    requires Shaped(w.ui) && Channel(w)
    ensures var kept := |FilterMap(Kept, w.polled)| - |w.applied| < 4;
            && Next(w, PollTick(outcome)).polled == w.polled + [Polled(outcome, kept)]
            && Next(w, PollTick(outcome)).queue == w.queue + (if kept then [outcome] else [])
            && Next(w, PollTick(outcome)).applied == w.applied
  {
  }

  /** Over every run, an outcome is dropped exactly when four kept ones were still unapplied as it came in. */
  lemma {:induction false} DroppedIffFull(size: Size, actions: seq<Action>, m: nat)
    requires m < |actions| && actions[m].PollTick?
    ensures var before, w := After(size, actions[..m]), After(size, actions);
            var i := |before.polled|;
            && i < |w.polled| && w.polled[..i] == before.polled && w.polled[i].outcome == actions[m].outcome
            && before.applied <= w.applied
            && (w.polled[i].kept <==> |FilterMap(Kept, w.polled[..i])| - |before.applied| < 4)
  {
    var before := After(size, actions[..m]);
    EveryRunKeepsInvariant(size, actions[..m]);
    TickMeans(before, actions[m].outcome);
    AfterOneMore(size, actions[..m + 1]);
    assert actions[..m + 1][..m] == actions[..m];
    RunsOnlyAdd(size, actions, m + 1);
    RunsOnlyAdd(size, actions, m);
  }

  // ----- what the ring holds

  function SnapshotIn(o: FetchOutcome): Option<Snapshot> {
    if o.Fetched? then Some(o.snapshot) else None
  }

  lemma {:induction false} SampledInOrder(applied: seq<FetchOutcome>)
    ensures var points, snapshots := FilterMap(TrendOf, applied), FilterMap(SnapshotIn, applied);
            |points| == |snapshots| && forall i :: 0 <= i < |points| ==> Samples(points[i], snapshots[i])
  {
    if applied != [] {
      SampledInOrder(applied[1..]);
      if applied[0].Fetched? { SampleMeans(applied[0].snapshot); }
    }
  }

  /** Over every run the ring holds, for each of the last 240 snapshots applied, its energy, the CO2 of all its
      regions and its three gauges. */
  lemma {:induction false} EveryRunSamples(size: Size, actions: seq<Action>)
    ensures var w := After(size, actions);
            var snapshots := LastOf(FilterMap(SnapshotIn, w.applied), 240);
            && |w.ui.history| == |snapshots|
            && forall i :: 0 <= i < |snapshots| ==> Samples(w.ui.history[i], snapshots[i])
  {
    EveryRunKeepsInvariant(size, actions);
    SampledInOrder(After(size, actions).applied);
  }

  // ----- the age on screen

  /** Whole seconds, rounded down. */
  lemma AgeMeans(lastUpdate: Option<nat>, clock: nat)
    ensures lastUpdate.None? <==> AgeSince(lastUpdate, clock).None?
    ensures lastUpdate.Some? && lastUpdate.value <= clock ==>
              var age := AgeSince(lastUpdate, clock).value;
              1_000_000_000 * age <= clock - lastUpdate.value < 1_000_000_000 * (age + 1)
  {
  }

  lemma StepKeepsUpdate(w: World, a: Action)
    requires Shaped(w.ui) && !(Enabled(w, a) && a.Receive? && w.queue[0].Fetched?)
    ensures Next(w, a).ui.lastUpdate == w.ui.lastUpdate
  {
    match a
    case Input(e, _) => EventKeepsData(w.ui, e);
    case _ =>
  }

  /** How much time a step takes. */
  lemma StepTakesTime(w: World, a: Action)
    requires Shaped(w.ui)
    ensures a.Elapse? ==> Next(w, a).clock == w.clock + a.time
    ensures !a.Elapse? && !a.DrawCheck? ==> Next(w, a).clock == w.clock
    ensures a.DrawCheck? ==> Next(w, a).clock == w.clock || Next(w, a).clock == w.clock + a.lag
  {
  }

  /** Over every run, the update time is that of the last good tick: the instant its outcome was applied. */
  lemma {:induction false} UpdateIsTheLastGoodTick(size: Size, actions: seq<Action>, m: nat)
    requires m < |actions| && actions[m].Receive?
    requires var w := After(size, actions[..m]); Enabled(w, actions[m]) && w.queue[0].Fetched?
    requires forall j :: m < j < |actions| && actions[j].Receive? ==>
               var w := After(size, actions[..j]); Enabled(w, actions[j]) ==> !w.queue[0].Fetched?
    ensures After(size, actions).ui.lastUpdate == Some(After(size, actions[..m]).clock)
  {
    var n := |actions| - 1;
    AfterOneMore(size, actions);
    if m < n {
      forall j | m < j < n && actions[..n][j].Receive?
        ensures var w := After(size, actions[..n][..j]); Enabled(w, actions[..n][j]) ==> !w.queue[0].Fetched?
      {
        assert actions[..n][..j] == actions[..j];
      }
      assert actions[..n][..m] == actions[..m];
      UpdateIsTheLastGoodTick(size, actions[..n], m);
      StepKeepsUpdate(After(size, actions[..n]), actions[n]);
    }
  }

  /** Where the loop stands after each of its own steps, and what the user's input changes. */
  lemma {:induction false} StepsInTurn(w: World, lag: nat, e: Event, newSize: Size)
    requires Shaped(w.ui)
    ensures w.phase == Draining && w.queue != [] ==>
              && Next(w, Receive).phase == Draining && Next(w, Receive).queue == w.queue[1..]
              && Next(w, Receive).applied == w.applied + [w.queue[0]]
              && Next(w, Receive).ui == Applied(w.ui, w.queue[0], w.clock)
    ensures w.phase == Draining && w.queue == [] ==> Next(w, FoundEmpty) == w.(phase := Deciding)
    ensures w.phase == Deciding ==> Next(w, DrawCheck(lag)).phase == Listening
    ensures w.phase == Listening ==> Next(w, Timeout) == w.(phase := Draining)
    ensures w.phase == Listening ==>
              Next(w, Input(e, newSize))
              == w.(ui := Handled(w.ui, e), size := if e.ResizeEvent? then newSize else w.size,
                    phase := if e.KeyEvent? && e.pressed && e.key == Quit then Stopped else Draining)
  {
  }
}
