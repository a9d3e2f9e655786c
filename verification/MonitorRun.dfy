/** The loop of `query monitor` over its mutable state (crates/sentinel-cli/src/monitor.rs), step by step the
    state machine of `MonitorLoop`. */
module MonitorRun {
  import opened MonitorLoop
  import opened MonitorState
  import opened MonitorTrail
  import opened MonitorView
  import opened Wrappers

  class Monitor {
    const state: MonitorState
    var queue: seq<FetchOutcome>
    var size: Size
    var clock: nat
    var screen: Option<Screen>
    var lastAge: Option<Option<nat>>
    ghost var polled: seq<Polled>
    ghost var applied: seq<FetchOutcome>
    ghost var phase: Phase

    ghost function Value(): World
      reads this, state, state.trendsRows, state.trendsCols
    {
      World(queue, polled, applied, state.Value(), size, clock, phase, screen, lastAge)
    }

    constructor (size: Size)
      ensures state.Valid() && Value() == Begin(size)
      ensures fresh(state) && fresh(state.trendsRows) && fresh(state.trendsCols)
    {
      state := new MonitorState();
      this.size, queue := size, [];
      clock, screen, lastAge := 0, None, None;
      polled, applied, phase := [], [], Draining;
    }

    method Poll(outcome: FetchOutcome)
      requires state.Valid()
      modifies `queue, `polled
      ensures Value() == Next(old(Value()), PollTick(outcome))
      ensures queue == old(queue) + if |old(queue)| < 4 then [outcome] else []
      ensures polled == old(polled) + [Polled(outcome, |old(queue)| < 4)]
    {
      polled := polled + [Polled(outcome, |queue| < CHANNEL_CAPACITY)];
      if |queue| < CHANNEL_CAPACITY {
        queue := queue + [outcome];
      }
    }

    method Receive()
      requires state.Valid() && phase == Draining && queue != []
      modifies `queue, `applied, state
      ensures state.Valid() && Value() == Next(old(Value()), Action.Receive)
    {
      applied := applied + [queue[0]];
      state.Apply(queue[0], clock);
      queue := queue[1..];
    }

    /** One frame: drawn, then `lag` later its header's own reading of the clock. */
    method Show(age: Option<nat>, lag: nat)
      requires state.Valid()
      modifies this, state
      ensures state.Valid()
      ensures Value() == (var w := old(Value());
                          w.(screen := Some(Screen(Paint(w.ui, w.size), Age(w.ui, w.clock + lag))),
                             ui := w.ui.(trendsArea := AreaDrawn(w.ui, w.size), dirty := false),
                             lastAge := Some(age), clock := w.clock + lag))
    {
      var frame := state.Draw(size);
      clock := clock + lag;
      screen := Some(Screen(frame, AgeSince(state.lastUpdate, clock)));
      state.dirty := false;
      lastAge := Some(age);
    }

    /** Repaints when something visible changed, or the age did. */
    method Repaint(lag: nat)
      requires state.Valid() && phase == Deciding
      modifies this, state
      ensures state.Valid() && Value() == Next(old(Value()), DrawCheck(lag))
    {
      var age := AgeSince(state.lastUpdate, clock);
      if state.dirty || lastAge != Some(age) {
        Show(age, lag);
      }
      phase := Listening;
    }

    method Handle(event: Event, newSize: Size) returns (quit: bool)
      requires state.Valid() && phase == Listening
      modifies this, state, state.trendsRows, state.trendsCols
      ensures state.Valid() && Value() == Next(old(Value()), Input(event, newSize))
      ensures quit <==> Quits(event)
    {
      if event.ResizeEvent? {
        size := newSize;
      }
      quit := state.HandleEvent(event);
      phase := if quit then Stopped else Draining;
    }

    /** One thing that the poller or the clock does. */
    method Meanwhile(a: Action, ghost start: World, ghost did: seq<Action>)
      requires state.Valid() && FromOutside(a) && Leads(start, did, Value())
      modifies `queue, `polled, `clock
      ensures state.Valid() && |queue| <= |old(queue)| + 1
      ensures Leads(start, did + [a], Value())
    {
      LeadsOn(start, did, Value(), a);
      match a {
        case PollTick(outcome) => Poll(outcome);
        case Elapse(time) => clock := clock + time;
      }
    }

    /** What the poller and the clock do before the next action of the loop. */
    method Interfere(burst: seq<Action>, ghost start: World, ghost done: seq<Action>)
      requires state.Valid() && forall i :: 0 <= i < |burst| ==> FromOutside(burst[i])
      requires Leads(start, done, Value())
      modifies `queue, `polled, `clock
      ensures state.Valid() && |queue| <= |old(queue)| + |burst|
      ensures Leads(start, done + burst, Value())
    {
      ghost var did := done;
      for i := 0 to |burst|
        invariant state.Valid() && |queue| <= |old(queue)| + i
        invariant did == done + burst[..i] && Leads(start, did, Value())
      {
        Meanwhile(burst[i], start, did);
        did := did + [burst[i]];
      }
      assert done + burst == did;
    }

    /** One outcome applied, then the next burst. */
    method ReceiveOne(schedule: Schedule, turn: nat, ghost start: World, ghost t: Trail) returns (ghost t': Trail)
      requires state.Valid() && phase == Draining && queue != [] && Outside(schedule)
      requires turn == |t.own| && Genuine(t, schedule) && Leads(start, Upto(t, schedule), Value())
      modifies this, state
      ensures state.Valid() && phase == Draining
      ensures |t'.own| == turn + 1 && Genuine(t', schedule)
      ensures t'.lags == t.lags && t'.waits == t.waits
      ensures Leads(start, Upto(t', schedule), Value())
      ensures |queue| + Pending(schedule, turn + 2) < |old(queue)| + Pending(schedule, turn + 1)
    {
      t' := Onward(t, schedule, Action.Receive);
      StaysGenuine(t, schedule, Action.Receive);
      LeadsOn(start, t.did + Burst(schedule, turn), Value(), Action.Receive);
      Receive();
      Interfere(Burst(schedule, turn + 1), start, t'.did);
    }

    ghost method FindEmpty(schedule: Schedule, start: World, t: Trail) returns (t': Trail)
      requires state.Valid() && phase == Draining && queue == [] && Genuine(t, schedule)
      requires Leads(start, t.did + Burst(schedule, |t.own|), Value())
      modifies `phase
      ensures state.Valid() && phase == Deciding
      ensures |t'.own| == |t.own| + 1 && Genuine(t', schedule) && Leads(start, t'.did, Value())
      ensures t'.lags == t.lags && t'.waits == t.waits
    {
      t' := Onward(t, schedule, FoundEmpty);
      StaysGenuine(t, schedule, FoundEmpty);
      LeadsOn(start, t.did + Burst(schedule, |t.own|), Value(), FoundEmpty);
      phase := Deciding;
    }

    /** Applies what waits in the channel, and what comes in meanwhile, until it is found empty. `DrainAdds` says
        that `t'` begins with `t`. */
    method Drain(schedule: Schedule, turn: nat, ghost start: World, ghost t: Trail)
      returns (next: nat, ghost t': Trail)
      requires state.Valid() && phase == Draining && Outside(schedule)
      requires turn == |t.own| && Genuine(t, schedule) && Leads(start, t.did, Value())
      modifies this, state
      ensures state.Valid() && phase == Deciding
      ensures next == |t'.own| && Genuine(t', schedule) && Leads(start, t'.did, Value())
      ensures t'.lags == t.lags && t'.waits == t.waits
    {
      next, t' := turn, t;
      Interfere(Burst(schedule, next), start, t.did);
      while queue != []
        invariant state.Valid() && phase == Draining
        invariant next == |t'.own| && Genuine(t', schedule)
        invariant Leads(start, Upto(t', schedule), Value())
        invariant t'.lags == t.lags && t'.waits == t.waits
        decreases |queue| + Pending(schedule, next + 1)
      {
        t' := ReceiveOne(schedule, next, start, t');
        next := next + 1;
      }
      t' := FindEmpty(schedule, start, t');
      next := next + 1;
    }

    /** The next burst, then the repaint decision. */
    method Decide(schedule: Schedule, turn: nat, lag: nat, ghost start: World, ghost t: Trail)
      returns (ghost t': Trail)
      requires state.Valid() && phase == Deciding && Outside(schedule)
      requires turn == |t.own| && Genuine(t, schedule) && Leads(start, t.did, Value())
      modifies this, state
      ensures state.Valid() && phase == Listening
      ensures |t'.own| == turn + 1 && Genuine(t', schedule) && Leads(start, t'.did, Value())
      ensures t'.lags == t.lags + [lag] && t'.waits == t.waits
    {
      t' := Onward(t, schedule, DrawCheck(lag));
      StaysGenuine(t, schedule, DrawCheck(lag));
      Interfere(Burst(schedule, turn), start, t.did);
      LeadsOn(start, t.did + Burst(schedule, turn), Value(), DrawCheck(lag));
      Repaint(lag);
    }

    /** The timeout, or one event. */
    method Hear(wait: Wait) returns (quit: bool)
      requires state.Valid() && phase == Listening
      modifies this, state, state.trendsRows, state.trendsCols
      ensures state.Valid() && Value() == Next(old(Value()), Answer(wait))
      ensures quit <==> QuitsWait(wait)
      ensures phase == if quit then Stopped else Draining
    {
      match wait {
        case NoEvent => phase, quit := Draining, false;
        case Got(event, newSize) => quit := Handle(event, newSize);
      }
    }

    /** The next burst, then what the wait for input brings. */
    method Listen(schedule: Schedule, turn: nat, wait: Wait, ghost start: World, ghost t: Trail)
      returns (quit: bool, ghost t': Trail)
      requires state.Valid() && phase == Listening && Outside(schedule)
      requires turn == |t.own| && Genuine(t, schedule) && Leads(start, t.did, Value())
      modifies this, state, state.trendsRows, state.trendsCols
      ensures state.Valid()
      ensures |t'.own| == turn + 1 && Genuine(t', schedule) && Leads(start, t'.did, Value())
      ensures t'.lags == t.lags && t'.waits == t.waits + [wait] && EndsWithAnswer(t'.own)
      ensures quit <==> QuitsWait(wait)
      ensures phase == if quit then Stopped else Draining
    {
      t' := Onward(t, schedule, Answer(wait));
      StaysGenuine(t, schedule, Answer(wait));
      Interfere(Burst(schedule, turn), start, t.did);
      LeadsOn(start, t.did + Burst(schedule, turn), Value(), Answer(wait));
      quit := Hear(wait);
    }

    /** One turn of `run_loop`: the channel, the repaint, then the user. */
    method Turn(schedule: Schedule, turn: nat, lag: nat, wait: Wait, ghost start: World, ghost t: Trail)
      returns (quit: bool, next: nat, ghost t': Trail)
      requires state.Valid() && phase == Draining && Outside(schedule)
      requires turn == |t.own| && Genuine(t, schedule) && Leads(start, t.did, Value())
      modifies this, state, state.trendsRows, state.trendsCols
      ensures state.Valid()
      ensures next == |t'.own| && Genuine(t', schedule) && Leads(start, t'.did, Value())
      ensures t'.lags == t.lags + [lag] && t'.waits == t.waits + [wait] && EndsWithAnswer(t'.own)
      ensures quit <==> QuitsWait(wait)
      ensures phase == if quit then Stopped else Draining
    {
      next, t' := Drain(schedule, turn, start, t);
      t' := Decide(schedule, next, lag, start, t');
      quit, t' := Listen(schedule, next + 1, wait, start, t');
      next := next + 2;
    }

    /** The loop of `run_loop`, from a world and a trail that is still empty. */
    method RunTurns(waits: seq<Wait>, lags: seq<nat>, schedule: Schedule, ghost start: World, ghost nothing: Trail)
      returns (quit: bool, turns: nat, ghost t: Trail)
      requires state.Valid() && phase == Draining && Outside(schedule) && |lags| == |waits|
      requires nothing.own == [] && nothing.lags == [] && nothing.waits == []
      requires Genuine(nothing, schedule) && Leads(start, nothing.did, Value())
      modifies this, state, state.trendsRows, state.trendsCols
      ensures Genuine(t, schedule) && Leads(start, t.did, Value())
      ensures turns <= |waits| && t.lags == lags[..turns] && t.waits == waits[..turns] && EndsWithAnswer(t.own)
      ensures StoppedBy(waits, turns, quit)
      ensures phase == if quit then Stopped else Draining
      ensures !quit ==> turns == |waits|
    {
      var next := 0;
      quit, turns, t := false, 0, nothing;
      while !quit && turns < |waits|
        invariant state.Valid() && turns <= |waits|
        invariant next == |t.own| && Genuine(t, schedule) && Leads(start, t.did, Value())
        invariant t.lags == lags[..turns] && t.waits == waits[..turns] && EndsWithAnswer(t.own)
        invariant phase == if quit then Stopped else Draining
        invariant StoppedBy(waits, turns, quit)
      {
        assert lags[..turns + 1] == lags[..turns] + [lags[turns]];
        assert waits[..turns + 1] == waits[..turns] + [waits[turns]];
        quit, next, t := Turn(schedule, next, lags[turns], waits[turns], start, t);
        StoppedByOneMore(waits, turns);
        turns := turns + 1;
      }
    }

    /** `run_loop`, for as many waits as the user's script has, against any schedule of the poller and the
        clock. It stops at the first quit key and nowhere else. What it did is its own actions, each in its turn
        and after its burst: one repaint decision and one answer for each wait, in order, between drains that
        leave the channel empty. `OnlyOneLoop` says that this leaves nothing open. */
    method RunLoop(waits: seq<Wait>, lags: seq<nat>, schedule: Schedule)
      returns (quit: bool, turns: nat, ghost t: Trail)
      requires state.Valid() && Value() == Begin(size)
      requires Outside(schedule) && |lags| == |waits|
      modifies this, state, state.trendsRows, state.trendsCols
      ensures Genuine(t, schedule) && Leads(Begin(old(size)), t.did, Value())
      ensures turns <= |waits| && t.lags == lags[..turns] && t.waits == waits[..turns] && EndsWithAnswer(t.own)
      ensures StoppedBy(waits, turns, quit)
      ensures phase == if quit then Stopped else Draining
      ensures !quit ==> turns == |waits|
    {
      ghost var nothing := NothingDone(Value(), schedule);
      quit, turns, t := RunTurns(waits, lags, schedule, Value(), nothing);
    }
  }
}
