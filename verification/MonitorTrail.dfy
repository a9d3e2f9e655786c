/** What the loop of `query monitor` may have done (crates/sentinel-cli/src/monitor.rs): its own actions, each
    in its turn, between those of the poller and the clock. */
module MonitorTrail {
  import opened MonitorLoop
  import opened MonitorState
  import opened MonitorView
  import opened Permutations
  import opened Wrappers

  /** What the poller and the clock do while the loop runs. */
  predicate FromOutside(a: Action) { a.PollTick? || a.Elapse? }

  /** One burst of outside actions before each of the loop's own, by turn; none once the list is used up. */
  type Schedule = seq<seq<Action>>

  predicate Outside(schedule: Schedule) {
    forall i, j :: 0 <= i < |schedule| && 0 <= j < |schedule[i]| ==> FromOutside(schedule[i][j])
  }

  function Burst(schedule: Schedule, turn: nat): seq<Action> {
    if turn < |schedule| then schedule[turn] else []
  }

  /** The loop's own actions, each after its burst. */
  function Woven(schedule: Schedule, own: seq<Action>): seq<Action> {
    if own == [] then []
    else
      var n := |own| - 1;
      Woven(schedule, own[..n]) + Burst(schedule, n) + [own[n]]
  }

  /** How many outside actions are still to come. */
  function Pending(schedule: Schedule, turn: nat): nat
    decreases |schedule| - turn
  {
    if turn >= |schedule| then 0 else |schedule[turn]| + Pending(schedule, turn + 1)
  }

  /** One wait for input: nothing before the timeout, or an event. */
  datatype Wait = NoEvent | Got(event: Event, newSize: Size)

  predicate QuitsWait(w: Wait) { w.Got? && Quits(w.event) }

  /** The first `n` waits hold a quit key in the last place, if it came to that, and nowhere else. */
  predicate StoppedBy(waits: seq<Wait>, n: nat, quit: bool) {
    n <= |waits| && forall i :: 0 <= i < n ==> (QuitsWait(waits[i]) <==> quit && i == n - 1)
  }

  lemma StoppedByOneMore(waits: seq<Wait>, n: nat)
    requires n < |waits| && StoppedBy(waits, n, false)
    ensures StoppedBy(waits, n + 1, QuitsWait(waits[n]))
  {
  }

  function WaitOf(a: Action): Option<Wait> {
    match a
    case Timeout => Some(NoEvent)
    case Input(event, newSize) => Some(Got(event, newSize))
    case _ => None
  }

  function Answer(wait: Wait): Action {
    match wait
    case NoEvent => Timeout
    case Got(event, newSize) => Input(event, newSize)
  }

  function LagOf(a: Action): Option<nat> {
    if a.DrawCheck? then Some(a.lag) else None
  }

  /** `own` is the loop's doing only, with these repaint decisions and these waits, in order. */
  ghost predicate Does(own: seq<Action>, lags: seq<nat>, waits: seq<Wait>) {
    && (forall i :: 0 <= i < |own| ==> !FromOutside(own[i]))
    && FilterMap(LagOf, own) == lags
    && FilterMap(WaitOf, own) == waits
  }

  lemma DoesMore(own: seq<Action>, lags: seq<nat>, waits: seq<Wait>, a: Action)
    requires Does(own, lags, waits) && !FromOutside(a)
    ensures Does(own + [a], lags + (if LagOf(a).Some? then [LagOf(a).value] else []),
                 waits + (if WaitOf(a).Some? then [WaitOf(a).value] else []))
  {
    FilterMapAppends(LagOf, own, [a]);
    FilterMapAppends(WaitOf, own, [a]);
    assert FilterMap(LagOf, [a]) == if LagOf(a).Some? then [LagOf(a).value] else [];
    assert FilterMap(WaitOf, [a]) == if WaitOf(a).Some? then [WaitOf(a).value] else [];
  }

  /** Taken in turn, `actions` lead from `w` to `w'`. */
  ghost predicate Leads(w: World, actions: seq<Action>, w': World) {
    Shaped(w.ui) && Lawful(w, actions) && w' == Steps(w, actions)
  }

  lemma LeadsOn(w: World, actions: seq<Action>, w': World, a: Action)
    requires Leads(w, actions, w') && Enabled(w', a)
    ensures Shaped(w'.ui) && Leads(w, actions + [a], Next(w', a))
  {
    assert (actions + [a])[..|actions|] == actions;
  }

  /** What the loop has done: its own actions, all that happened, its repaint decisions and its answers. */
  datatype Trail = Trail(own: seq<Action>, did: seq<Action>, lags: seq<nat>, waits: seq<Wait>)

  function Onward(t: Trail, schedule: Schedule, a: Action): Trail {
    Trail(t.own + [a], t.did + Burst(schedule, |t.own|) + [a],
          t.lags + (if LagOf(a).Some? then [LagOf(a).value] else []),
          t.waits + (if WaitOf(a).Some? then [WaitOf(a).value] else []))
  }

  /** With the burst before the next action. */
  function Upto(t: Trail, schedule: Schedule): seq<Action> { t.did + Burst(schedule, |t.own|) }

  ghost predicate Genuine(t: Trail, schedule: Schedule) {
    t.did == Woven(schedule, t.own) && Does(t.own, t.lags, t.waits)
  }

  predicate EndsWithAnswer(own: seq<Action>) {
    own != [] ==> WaitOf(own[|own| - 1]).Some?
  }

  lemma NothingDone(w: World, schedule: Schedule) returns (t: Trail)
    requires Shaped(w.ui)
    ensures t == Trail([], [], [], []) && Genuine(t, schedule) && Leads(w, t.did, w)
  {
    t := Trail([], [], [], []);
  }

  lemma StaysGenuine(t: Trail, schedule: Schedule, a: Action)
    requires Genuine(t, schedule) && !FromOutside(a)
    ensures Genuine(Onward(t, schedule, a), schedule)
  {
    assert (t.own + [a])[..|t.own|] == t.own;
    DoesMore(t.own, t.lags, t.waits, a);
  }

  // ----- what the loop does is determined by its inputs

  lemma {:induction false} LawfulPrefix(w: World, actions: seq<Action>, m: nat)
    requires Shaped(w.ui) && Lawful(w, actions) && m <= |actions|
    ensures Lawful(w, actions[..m])
  {
    if m == |actions| {
      assert actions[..m] == actions;
    } else {
      var n := |actions| - 1;
      LawfulPrefix(w, actions[..n], m);
      assert actions[..n][..m] == actions[..m];
    }
  }

  /** Each own action is taken in its turn, in the world that its burst leaves. */
  lemma {:induction false} OwnTurn(w: World, schedule: Schedule, own: seq<Action>, k: nat)
    requires Shaped(w.ui) && Lawful(w, Woven(schedule, own)) && k < |own|
    ensures Enabled(Steps(w, Woven(schedule, own[..k]) + Burst(schedule, k)), own[k])
  {
    var n := |own| - 1;
    var before := Woven(schedule, own[..n]);
    if k == n {
      assert Woven(schedule, own)[..|before + Burst(schedule, n)|] == before + Burst(schedule, n);
    } else {
      LawfulPrefix(w, Woven(schedule, own), |before|);
      assert Woven(schedule, own)[..|before|] == before;
      OwnTurn(w, schedule, own[..n], k);
      assert own[..n][..k] == own[..k];
    }
  }

  /** In any world only one kind of own action has its turn. */
  lemma OneKindEnabled(w: World, a: Action, b: Action)
    requires Enabled(w, a) && Enabled(w, b) && !FromOutside(a) && !FromOutside(b)
    requires LagOf(a).Some? && LagOf(b).Some? ==> LagOf(a) == LagOf(b)
    requires WaitOf(a).Some? && WaitOf(b).Some? ==> WaitOf(a) == WaitOf(b)
    ensures a == b
  {
  }

  /** The image of element `k` sits behind the images of those before it. */
  lemma ImageAt<T, U>(f: T -> Option<U>, s: seq<T>, k: nat)
    requires k < |s|
    ensures var before := FilterMap(f, s[..k]);
            |before| <= |FilterMap(f, s)| && FilterMap(f, s)[..|before|] == before
            && (f(s[k]).Some? ==> |before| < |FilterMap(f, s)| && FilterMap(f, s)[|before|] == f(s[k]).value)
  {
    assert s == s[..k] + s[k..];
    FilterMapAppends(f, s[..k], s[k..]);
  }

  lemma OneLonger<T>(a: seq<T>, b: seq<T>, i: nat)
    requires i < |a| && i < |b| && a[..i] == b[..i] && a[i] == b[i]
    ensures a[..i + 1] == b[..i + 1]
  {
    assert a[..i + 1] == a[..i] + [a[i]];
  }

  /** Where both have got to, two loops against one schedule have done the same, when one's lags and waits
      begin with the other's. */
  lemma {:induction false} LoopsAgree(w: World, schedule: Schedule, a: seq<Action>, b: seq<Action>,
                                      lags: seq<nat>, waits: seq<Wait>, lags': seq<nat>, waits': seq<Wait>, k: nat)
    requires Shaped(w.ui) && Lawful(w, Woven(schedule, a)) && Lawful(w, Woven(schedule, b))
    requires Does(a, lags, waits) && Does(b, lags', waits') && lags <= lags' && waits <= waits'
    requires k <= |a| && k <= |b|
    ensures a[..k] == b[..k]
  {
    if k > 0 {
      var i := k - 1;
      LoopsAgree(w, schedule, a, b, lags, waits, lags', waits', i);
      NextAgrees(w, schedule, a, b, lags, waits, lags', waits', i);
      OneLonger(a, b, i);
    }
  }

  lemma NextAgrees(w: World, schedule: Schedule, a: seq<Action>, b: seq<Action>,
                   lags: seq<nat>, waits: seq<Wait>, lags': seq<nat>, waits': seq<Wait>, k: nat)
    requires Shaped(w.ui) && Lawful(w, Woven(schedule, a)) && Lawful(w, Woven(schedule, b))
    requires Does(a, lags, waits) && Does(b, lags', waits') && lags <= lags' && waits <= waits'
    requires k < |a| && k < |b| && a[..k] == b[..k]
    ensures a[k] == b[k]
  {
    OwnTurn(w, schedule, a, k);
    OwnTurn(w, schedule, b, k);
    ImageAt(LagOf, a, k);
    ImageAt(LagOf, b, k);
    ImageAt(WaitOf, a, k);
    ImageAt(WaitOf, b, k);
    OneKindEnabled(Steps(w, Woven(schedule, a[..k]) + Burst(schedule, k)), a[k], b[k]);
  }

  /** What the loop does later only adds to what it did before. */
  lemma {:induction false} LaterTrailExtends(w: World, schedule: Schedule, t: Trail, t': Trail)
    requires Shaped(w.ui) && Genuine(t, schedule) && Genuine(t', schedule)
    requires Lawful(w, t.did) && Lawful(w, t'.did)
    requires t.lags <= t'.lags && t.waits <= t'.waits && |t.own| <= |t'.own|
    ensures t.own <= t'.own
  {
    var n := |t.own|;
    LoopsAgree(w, schedule, t.own, t'.own, t.lags, t.waits, t'.lags, t'.waits, n);
    assert t.own[..n] == t.own;
  }

  lemma {:induction false} OutsideKeepsPhase(w: World, before: seq<Action>, burst: seq<Action>)
    requires Shaped(w.ui) && forall i :: 0 <= i < |burst| ==> FromOutside(burst[i])
    ensures Steps(w, before + burst).phase == Steps(w, before).phase
  {
    if burst == [] {
      assert before + burst == before;
    } else {
      var n := |burst| - 1;
      OutsideKeepsPhase(w, before, burst[..n]);
      assert (before + burst)[..|before + burst| - 1] == before + burst[..n];
    }
  }

  /** A drain only adds: what was done when it has found the channel empty begins with what was done at any
      point since the last answer. */
  lemma {:induction false} DrainAdds(w: World, schedule: Schedule, t: Trail, t': Trail)
    requires Shaped(w.ui) && Outside(schedule) && Genuine(t, schedule) && Genuine(t', schedule)
    requires Lawful(w, t.did) && Lawful(w, t'.did) && Steps(w, t'.did).phase == Deciding
    requires t.lags == t'.lags && t.waits == t'.waits
    ensures t.own <= t'.own
  {
    var k := |t'.own|;
    if k < |t.own| {
      LaterTrailExtends(w, schedule, t', t);
      assert t.own[..k] == t'.own;
      OwnTurn(w, schedule, t.own, k);
      OutsideKeepsPhase(w, t'.did, Burst(schedule, k));
      ImageAt(LagOf, t.own, k);
      assert false;
    }
    LaterTrailExtends(w, schedule, t, t');
  }

  lemma {:induction false} OwnActionsAgree(w: World, schedule: Schedule, a: seq<Action>, b: seq<Action>,
                                           lags: seq<nat>, waits: seq<Wait>)
    requires Shaped(w.ui) && Lawful(w, Woven(schedule, a)) && Lawful(w, Woven(schedule, b))
    requires Does(a, lags, waits) && Does(b, lags, waits) && EndsWithAnswer(a) && EndsWithAnswer(b)
    ensures a == b
  {
    var k := if |a| <= |b| then |a| else |b|;
    LoopsAgree(w, schedule, a, b, lags, waits, lags, waits, k);
    assert a[..|a|] == a && b[..|b|] == b;
    if |a| < |b| { LastWaitCounts(b, |a|); }
    if |b| < |a| { LastWaitCounts(a, |b|); }
  }

  /** Against one schedule and with the same lags and waits there is only one thing the loop can have done. */
  lemma {:induction false} OnlyOneLoop(w: World, schedule: Schedule, a: Trail, b: Trail)
    requires Shaped(w.ui) && Genuine(a, schedule) && Genuine(b, schedule)
    requires Lawful(w, a.did) && Lawful(w, b.did) && EndsWithAnswer(a.own) && EndsWithAnswer(b.own)
    requires a.lags == b.lags && a.waits == b.waits
    ensures a == b
  {
    OwnActionsAgree(w, schedule, a.own, b.own, a.lags, a.waits);
  }

  lemma LastWaitCounts(own: seq<Action>, k: nat)
    requires k < |own| && WaitOf(own[|own| - 1]).Some?
    ensures |FilterMap(WaitOf, own[..k])| < |FilterMap(WaitOf, own)|
  {
    var n := |own| - 1;
    ImageAt(WaitOf, own, n);
    if k < n {
      ImageAt(WaitOf, own[..n], k);
      assert own[..n][..k] == own[..k];
    }
  }
}
