/** The polling loop of `perf-sentinel login` (crates/sentinel-cli/src/hub.rs): RFC 8628, sections
    3.2 and 3.5, against an untrusted Hub and a monotone clock. Times are nanoseconds. */
module DeviceFlow {
  import opened Wrappers

  const SECOND: nat := 1_000_000_000
  const SLOW_DOWN: nat := 5 * SECOND
  const RETRY_FLOOR: nat := SECOND
  const DEFAULT_INTERVAL_SECS: nat := 5
  const MAX_CODE_LIFETIME_SECS: nat := 3600
  const U64_MAX: nat := 0xFFFF_FFFF_FFFF_FFFF
  const MAX_DURATION: nat := U64_MAX * SECOND + 999_999_999

  function Min(a: nat, b: nat): (r: nat)
    ensures r <= a && r <= b && (r == a || r == b)
  {
    if a <= b then a else b
  }

  function Max(a: nat, b: nat): (r: nat)
    ensures r >= a && r >= b && (r == a || r == b)
  {
    if a >= b then a else b
  }

  type U64 = n: nat | n <= U64_MAX

  /** What the Hub announced for a sign-in: the two numbers the loop reads. */
  datatype Device = Device(expiresIn: U64, interval: Option<U64>) {
    function Lifetime(): nat { Min(expiresIn, MAX_CODE_LIFETIME_SECS) * SECOND }
    function InitialInterval(): nat {
      (match interval case Some(s) => s case None => DEFAULT_INTERVAL_SECS) * SECOND
    }
  }

  /** One answer to a poll, in the order the loop tells them apart. */
  datatype Reply =
    | Unreachable
    | Granted(token: Option<string>)  // 2xx, None when the body does not parse
    | ServerError
    | Refused(error: string)          // the OAuth error code, or the HTTP status

  datatype Outcome = Token(token: string) | Malformed | Expired | Denied | Forgotten | RefusedBy(error: string)
                   | StillPolling  // the environment's script ended before the loop did

  /** What the environment does during one turn: scheduling delays, the request's duration, its answer. */
  datatype Turn = Turn(idle: nat, oversleep: nat, roundTrip: nat, reply: Reply)

  /** One request that went out: when its sleep began, when the clock let it through, when its answer was
      there, the wait that was asked for and the interval in force. */
  datatype Poll = Poll(from: nat, at: nat, answered: nat, wait: nat, interval: nat, reply: Reply)

  datatype Clockwork = Clockwork(now: nat, interval: nat, wait: nat)

  datatype Next = Stop(outcome: Outcome) | Again(interval: nat, wait: nat)

  function NextInterval(error: string, interval: nat): Result<nat, Outcome> {
    if error == "authorization_pending" then Ok(interval)
    else if error == "slow_down" then Ok(Min(interval + SLOW_DOWN, MAX_DURATION))
    else if error == "access_denied" then Err(Denied)
    else if error == "expired_token" then Err(Expired)
    else if error == "invalid_grant" then Err(Forgotten)
    else Err(RefusedBy(error))
  }

  function Decide(reply: Reply, interval: nat): Next {
    match reply
    case Unreachable => Again(interval, Max(interval, RETRY_FLOOR))
    case ServerError => Again(interval, Max(interval, RETRY_FLOOR))
    case Granted(Some(t)) => Stop(Token(t))
    case Granted(None) => Stop(Malformed)
    case Refused(error) =>
      match NextInterval(error, interval)
      case Ok(i) => Again(i, i)
      case Err(o) => Stop(o)
  }

  /** When the truncated sleep that starts at `from` is over. */
  function Wake(from: nat, wait: nat, deadline: nat, oversleep: nat): nat {
    from + Min(wait, if from < deadline then deadline - from else 0) + oversleep
  }

  /** The whole run, as a function of the environment's script. */
  function Run(s: Clockwork, deadline: nat, env: seq<Turn>): (Outcome, seq<Poll>)
    decreases |env|
  {
    if env == [] then (StillPolling, [])
    else
      var from := s.now + env[0].idle;
      var at := Wake(from, s.wait, deadline, env[0].oversleep);
      if at >= deadline then (Expired, [])
      else
        var poll := Poll(from, at, at + env[0].roundTrip, s.wait, s.interval, env[0].reply);
        match Decide(env[0].reply, s.interval)
        case Stop(outcome) => (outcome, [poll])
        case Again(interval, wait) =>
          var (outcome, rest) := Run(Clockwork(at + env[0].roundTrip, interval, wait), deadline, env[1..]);
          (outcome, [poll] + rest)
  }

  function Start(device: Device, start: nat): Clockwork {
    Clockwork(start, device.InitialInterval(), device.InitialInterval())
  }

  function Login(device: Device, start: nat, env: seq<Turn>): (Outcome, seq<Poll>) {
    Run(Start(device, start), start + device.Lifetime(), env)
  }

  /** Where the loop stands after a turn that neither expired nor was decided. */
  function Resume(s: Clockwork, deadline: nat, e: Turn): Clockwork
    requires Decide(e.reply, s.interval).Again?
  {
    var next := Decide(e.reply, s.interval);
    Clockwork(Wake(s.now + e.idle, s.wait, deadline, e.oversleep) + e.roundTrip, next.interval, next.wait)
  }

  /** A run whose earlier requests are `log`. */
  function Following(log: seq<Poll>, run: (Outcome, seq<Poll>)): (Outcome, seq<Poll>) { (run.0, log + run.1) }

  lemma OneTurn(s: Clockwork, deadline: nat, env: seq<Turn>, log: seq<Poll>)
    requires env != []
    ensures var from := s.now + env[0].idle;
            var at := Wake(from, s.wait, deadline, env[0].oversleep);
            var polled := log + [Poll(from, at, at + env[0].roundTrip, s.wait, s.interval, env[0].reply)];
            Following(log, Run(s, deadline, env)) ==
            if at >= deadline then (Expired, log)
            else match Decide(env[0].reply, s.interval)
                 case Stop(outcome) => (outcome, polled)
                 case Again(_, _) => Following(polled, Run(Resume(s, deadline, env[0]), deadline, env[1..]))
  {
    var from := s.now + env[0].idle;
    var at := Wake(from, s.wait, deadline, env[0].oversleep);
    var poll := Poll(from, at, at + env[0].roundTrip, s.wait, s.interval, env[0].reply);
    if at < deadline && Decide(env[0].reply, s.interval).Again? {
      var rest := Run(Resume(s, deadline, env[0]), deadline, env[1..]).1;
      assert log + ([poll] + rest) == (log + [poll]) + rest;
    } else {
      assert log + [] == log;
    }
  }

  method PollDevice(device: Device, start: nat, env: seq<Turn>) returns (outcome: Outcome, log: seq<Poll>)
    ensures (outcome, log) == Login(device, start, env)
  {
    var deadline := start + device.Lifetime();
    var now: nat, interval: nat := start, device.InitialInterval();
    var wait: nat := interval;
    log := [];
    var turn := 0;
    assert env[0..] == env;
    assert [] + Login(device, start, env).1 == Login(device, start, env).1;
    while turn < |env|
      invariant 0 <= turn <= |env|
      invariant Login(device, start, env) == Following(log, Run(Clockwork(now, interval, wait), deadline, env[turn..]))
    {
      var e := env[turn];
      OneTurn(Clockwork(now, interval, wait), deadline, env[turn..], log);
      assert env[turn..][1..] == env[turn + 1..];
      var from := now + e.idle;
      now := Wake(from, wait, deadline, e.oversleep);
      if now >= deadline {
        return Expired, log;
      }
      log := log + [Poll(from, now, now + e.roundTrip, wait, interval, e.reply)];
      wait := Max(interval, RETRY_FLOOR);
      now := now + e.roundTrip;
      turn := turn + 1;
      match e.reply {
        case Unreachable =>
        case Granted(token) =>
          match token {
            case Some(t) => return Token(t), log;
            case None => return Malformed, log;
          }
        case ServerError =>
        case Refused(error) =>
          match NextInterval(error, interval) {
            case Ok(next) => interval := next; wait := interval;
            case Err(refusal) => return refusal, log;
          }
      }
    }
    assert log + [] == log;
    return StillPolling, log;
  }

  // ----- what every run keeps

  predicate Failed(reply: Reply) { reply.Unreachable? || reply.ServerError? }

  function SlowDowns(log: seq<Poll>): nat {
    if log == [] then 0
    else (if log[0].reply == Refused("slow_down") then 1 else 0) + SlowDowns(log[1..])
  }

  /** The initial interval plus five seconds per `slow_down`, saturating. */
  function IntervalAfter(initial: nat, slowDowns: nat): nat {
    Min(initial + slowDowns * SLOW_DOWN, MAX_DURATION)
  }

  /** The wait the protocol asks for before request `k` of `log`. */
  function DueWait(initial: nat, log: seq<Poll>, k: nat): nat
    requires k < |log|
  {
    var interval := IntervalAfter(initial, SlowDowns(log[..k]));
    if k > 0 && Failed(log[k - 1].reply) then Max(interval, RETRY_FLOOR) else interval
  }

  ghost predicate PacedAt(s: Clockwork, deadline: nat, log: seq<Poll>, k: nat)
    requires k < |log|
  {
    && log[k].from >= (if k == 0 then s.now else log[k - 1].answered)
    && log[k].at >= log[k].from + log[k].wait
    && log[k].answered >= log[k].at
    && log[k].at < deadline
    && log[k].interval == IntervalAfter(s.interval, SlowDowns(log[..k]))
    && log[k].wait == (if k == 0 then s.wait else DueWait(s.interval, log, k))
  }

  lemma {:induction false} LaterPollIsPaced(s: Clockwork, s': Clockwork, deadline: nat, head: Poll,
                                            rest: seq<Poll>, k: nat)
    requires k < |rest| && PacedAt(s', deadline, rest, k)
    requires s'.now >= head.answered
    requires s'.interval == IntervalAfter(s.interval, SlowDowns([head]))
    requires s'.wait == if Failed(head.reply) then Max(s'.interval, RETRY_FLOOR) else s'.interval
    ensures PacedAt(s, deadline, [head] + rest, k + 1)
  {
    var log := [head] + rest;
    assert log[..k + 1][1..] == rest[..k];
    assert SlowDowns(log[..k + 1]) == SlowDowns([head]) + SlowDowns(rest[..k]);
    if k == 0 { assert rest[..0] == []; }
  }

  lemma RunUnfolds(s: Clockwork, deadline: nat, env: seq<Turn>)
    requires |Run(s, deadline, env).1| > 0
    ensures env != []
    ensures var from := s.now + env[0].idle;
            var at := Wake(from, s.wait, deadline, env[0].oversleep);
            && at < deadline
            && Run(s, deadline, env).1[0] == Poll(from, at, at + env[0].roundTrip, s.wait, s.interval, env[0].reply)
    ensures |Run(s, deadline, env).1| > 1 ==> Decide(env[0].reply, s.interval).Again?
    ensures Decide(env[0].reply, s.interval).Again? ==>
              var (outcome, rest) := Run(Resume(s, deadline, env[0]), deadline, env[1..]);
              Run(s, deadline, env).0 == outcome && Run(s, deadline, env).1 == [Run(s, deadline, env).1[0]] + rest
  {
  }

  lemma NextIntervalIsAfter(s: Clockwork, deadline: nat, e: Turn, poll: Poll)
    requires s.interval <= MAX_DURATION && poll.reply == e.reply
    requires Decide(e.reply, s.interval).Again?
    ensures var s' := Resume(s, deadline, e);
            && s'.interval == IntervalAfter(s.interval, SlowDowns([poll]))
            && s'.wait == if Failed(e.reply) then Max(s'.interval, RETRY_FLOOR) else s'.interval
  {
  }

  lemma {:induction false} RunIsPaced(s: Clockwork, deadline: nat, env: seq<Turn>, k: nat)
    requires s.interval <= MAX_DURATION
    requires k < |Run(s, deadline, env).1|
    ensures PacedAt(s, deadline, Run(s, deadline, env).1, k)
    decreases |env|
  {
    RunUnfolds(s, deadline, env);
    var log := Run(s, deadline, env).1;
    if k == 0 {
      FirstPollIsPaced(s, deadline, env[0], log);
    } else {
      var s' := Resume(s, deadline, env[0]);
      NextIntervalIsAfter(s, deadline, env[0], log[0]);
      RunIsPaced(s', deadline, env[1..], k - 1);
      LaterPollIsPaced(s, s', deadline, log[0], Run(s', deadline, env[1..]).1, k - 1);
    }
  }

  lemma FirstPollIsPaced(s: Clockwork, deadline: nat, e: Turn, log: seq<Poll>)
    requires s.interval <= MAX_DURATION && |log| > 0
    requires var from := s.now + e.idle;
             var at := Wake(from, s.wait, deadline, e.oversleep);
             at < deadline && log[0] == Poll(from, at, at + e.roundTrip, s.wait, s.interval, e.reply)
    ensures PacedAt(s, deadline, log, 0)
  {
    assert log[..0] == [];
  }

  /** Sections 3.2 and 3.5 of RFC 8628 over every run: a request is sent only after the whole wait that is
      due, counted from no earlier than the previous answer, and only while the code lives. */
  lemma {:induction false} EveryRequestWaits(device: Device, start: nat, env: seq<Turn>, k: nat)
    requires k < |Login(device, start, env).1|
    ensures var log := Login(device, start, env).1;
            && log[k].at >= (if k == 0 then start else log[k - 1].answered) + DueWait(device.InitialInterval(), log, k)
            && log[k].at < start + device.Lifetime()
            && log[k].answered >= log[k].at
            && (k > 0 && Failed(log[k - 1].reply) ==> log[k].at >= log[k - 1].answered + RETRY_FLOOR)
  {
    RunIsPaced(Start(device, start), start + device.Lifetime(), env, k);
    var log := Login(device, start, env).1;
    assert log[..0] == [];
  }

  lemma OneMoreTime(k: nat, interval: nat)
    requires k > 0
    ensures k * interval == (k - 1) * interval + interval
  {
  }

  lemma DueAtLeastInitial(initial: nat, log: seq<Poll>, k: nat)
    requires k < |log| && initial <= MAX_DURATION
    ensures DueWait(initial, log, k) >= initial
  {
  }

  /** Request k (from 1) of a run goes out after k whole intervals and before the lifetime ends. */
  lemma {:induction false} RequestsFitTheLifetime(device: Device, start: nat, env: seq<Turn>, k: nat)
    requires k <= |Login(device, start, env).1|
    ensures k > 0 ==> start + k * device.InitialInterval() <= Login(device, start, env).1[k - 1].at
    ensures k > 0 ==> Login(device, start, env).1[k - 1].at <= Login(device, start, env).1[k - 1].answered
    ensures k * device.InitialInterval() <= device.Lifetime()
    ensures k > 0 ==> k * device.InitialInterval() < device.Lifetime()
  {
    if k > 0 {
      RequestsFitTheLifetime(device, start, env, k - 1);
      EveryRequestWaits(device, start, env, k - 1);
      OneMoreTime(k, device.InitialInterval());
      DueAtLeastInitial(device.InitialInterval(), Login(device, start, env).1, k - 1);
    }
  }

  lemma {:induction false} RunEndsOrUsesTheScript(s: Clockwork, deadline: nat, env: seq<Turn>)
    ensures Run(s, deadline, env).0 == StillPolling ==> |Run(s, deadline, env).1| == |env|
    ensures Run(s, deadline, env).0 != StillPolling ==> env != []
    decreases |env|
  {
    if env != [] {
      var at := Wake(s.now + env[0].idle, s.wait, deadline, env[0].oversleep);
      match Decide(env[0].reply, s.interval)
      case Stop(_) =>
      case Again(i, w) => RunEndsOrUsesTheScript(Clockwork(at + env[0].roundTrip, i, w), deadline, env[1..]);
    }
  }

  /** A Hub that announced an interval of at least a second cannot keep the loop going. */
  lemma {:induction false} PollingTerminates(device: Device, start: nat, env: seq<Turn>)
    requires device.InitialInterval() > 0
    requires |env| * device.InitialInterval() >= device.Lifetime() && |env| > 0
    ensures Login(device, start, env).0 != StillPolling
  {
    RunEndsOrUsesTheScript(Start(device, start), start + device.Lifetime(), env);
    if Login(device, start, env).0 == StillPolling {
      RequestsFitTheLifetime(device, start, env, |env|);
    }
  }

  /** The Hub that answers `authorization_pending` at once, forever. */
  function Spin(n: nat): seq<Turn> {
    seq(n, _ => Turn(0, 0, 0, Refused("authorization_pending")))
  }

  lemma {:induction false} ZeroIntervalSpins(now: nat, deadline: nat, n: nat)
    requires now < deadline
    ensures var (outcome, log) := Run(Clockwork(now, 0, 0), deadline, Spin(n));
            outcome == StillPolling && |log| == n
  {
    if n > 0 {
      assert Spin(n)[1..] == Spin(n - 1);
      ZeroIntervalSpins(now, deadline, n - 1);
    }
  }

  ghost predicate Bounded(device: Device, start: nat, bound: nat) {
    forall env :: |Login(device, start, env).1| <= bound
  }

  lemma FewRequests(device: Device, start: nat, env: seq<Turn>)
    requires device.InitialInterval() > 0 || device.Lifetime() == 0
    ensures |Login(device, start, env).1| <= device.Lifetime()
  {
    var n := |Login(device, start, env).1|;
    RequestsFitTheLifetime(device, start, env, n);
    if device.InitialInterval() > 0 { LessThanTimes(n, device.InitialInterval()); }
  }

  lemma LessThanTimes(n: nat, m: nat)
    requires m > 0
    ensures n <= n * m
  {
  }

  /** The number of requests of a sign-in is bounded whatever the Hub answers, exactly when it announced an
      interval of at least one second or a code that is dead on arrival: the retry floor covers failed polls
      only, so an announced interval of 0 polls as fast as the Hub answers. */
  lemma {:induction false} RequestsBoundedIff(device: Device, start: nat)
    ensures (exists bound :: Bounded(device, start, bound)) <==> device.interval != Some(0) || device.expiresIn == 0
  {
    var e := device.Lifetime();
    if device.interval != Some(0) || device.expiresIn == 0 {
      forall env
        ensures |Login(device, start, env).1| <= e
      {
        FewRequests(device, start, env);
      }
      assert Bounded(device, start, e);
    } else {
      forall bound: nat
        ensures !Bounded(device, start, bound)
      {
        ZeroIntervalSpins(start, start + e, bound + 1);
        assert |Login(device, start, Spin(bound + 1)).1| > bound;
      }
    }
  }

  /** The outcome is the last answer's: a token exactly when the Hub granted one, and every earlier answer
      was a retry. */
  lemma {:induction false} OnlyTheLastReplyDecides(s: Clockwork, deadline: nat, env: seq<Turn>)
    ensures var (outcome, log) := Run(s, deadline, env);
            && (forall k :: 0 <= k < |log| - 1 ==> Decide(log[k].reply, log[k].interval).Again?)
            && Concludes(outcome, log)
    decreases |env|
  {
    var log := Run(s, deadline, env).1;
    if log != [] {
      RunUnfolds(s, deadline, env);
      if Decide(env[0].reply, s.interval).Again? {
        OnlyTheLastReplyDecides(Resume(s, deadline, env[0]), deadline, env[1..]);
        var rest := Run(Resume(s, deadline, env[0]), deadline, env[1..]).1;
        assert forall k :: 0 < k < |log| ==> log[k] == rest[k - 1];
        ConcludesAfterRetry(log[0], Run(s, deadline, env).0, rest);
      }
    }
  }

  ghost predicate Concludes(outcome: Outcome, log: seq<Poll>) {
    if log != [] && Decide(log[|log| - 1].reply, log[|log| - 1].interval).Stop? then
      outcome == Decide(log[|log| - 1].reply, log[|log| - 1].interval).outcome
    else outcome == Expired || outcome == StillPolling
  }

  lemma ConcludesAfterRetry(head: Poll, outcome: Outcome, rest: seq<Poll>)
    requires Concludes(outcome, rest) && Decide(head.reply, head.interval).Again?
    ensures Concludes(outcome, [head] + rest)
  {
  }

  /** A token comes out exactly when the Hub's last answer granted it. */
  lemma {:induction false} TokenIffGranted(device: Device, start: nat, env: seq<Turn>, token: string)
    ensures var (outcome, log) := Login(device, start, env);
            outcome == Token(token) <==> log != [] && log[|log| - 1].reply == Granted(Some(token))
  {
    OnlyTheLastReplyDecides(Start(device, start), start + device.Lifetime(), env);
  }

  // ----- the run, told by its inputs

  /** The answers after which the loop polls again. */
  predicate Retried(reply: Reply) {
    Failed(reply) || reply == Refused("authorization_pending") || reply == Refused("slow_down")
  }

  function SlowDownsIn(env: seq<Turn>): nat {
    if env == [] then 0
    else SlowDownsIn(env[..|env| - 1]) + if env[|env| - 1].reply == Refused("slow_down") then 1 else 0
  }

  /** The wait that is due before request `k`. */
  function WaitBefore(s: Clockwork, env: seq<Turn>, k: nat): nat
    requires k <= |env|
  {
    if k == 0 then s.wait
    else
      var interval := IntervalAfter(s.interval, SlowDownsIn(env[..k]));
      if Failed(env[k - 1].reply) then Max(interval, RETRY_FLOOR) else interval
  }

  /** When request `k` would go out if no sleep were ever cut short. */
  function TimeOf(s: Clockwork, env: seq<Turn>, k: nat): nat
    requires k < |env|
  {
    (if k == 0 then s.now else TimeOf(s, env, k - 1) + env[k - 1].roundTrip)
    + env[k].idle + WaitBefore(s, env, k) + env[k].oversleep
  }

  lemma {:induction false} SlowDownsFromTheFront(env: seq<Turn>)
    requires env != []
    ensures SlowDownsIn(env) == SlowDownsIn(env[1..]) + if env[0].reply == Refused("slow_down") then 1 else 0
  {
    var n := |env| - 1;
    if n == 0 {
      assert env[..0] == [] && env[1..] == [];
    } else {
      SlowDownsFromTheFront(env[..n]);
      assert env[..n][1..] == env[1..][..n - 1];
    }
  }

  /** Which answers are polled on, and with what. */
  lemma RetriedIff(reply: Reply, interval: nat)
    requires interval <= MAX_DURATION
    ensures Decide(reply, interval).Again? <==> Retried(reply)
    ensures Retried(reply) ==>
              var i := IntervalAfter(interval, if reply == Refused("slow_down") then 1 else 0);
              Decide(reply, interval) == Again(i, if Failed(reply) then Max(i, RETRY_FLOOR) else i)
  {
  }

  lemma WaitAfterOneTurn(s: Clockwork, s': Clockwork, env: seq<Turn>, k: nat)
    requires 0 < k <= |env| && s.interval <= MAX_DURATION && Retried(env[0].reply)
    requires Decide(env[0].reply, s.interval) == Again(s'.interval, s'.wait)
    ensures WaitBefore(s, env, k) == WaitBefore(s', env[1..], k - 1)
  {
    RetriedIff(env[0].reply, s.interval);
    SlowDownsFromTheFront(env[..k]);
    assert env[..k][1..] == env[1..][..k - 1];
    if k == 1 { assert SlowDownsIn(env[1..][..0]) == 0; }
  }

  lemma {:induction false} TimeAfterOneTurn(s: Clockwork, s': Clockwork, env: seq<Turn>, k: nat)
    requires 0 < k < |env| && s.interval <= MAX_DURATION && Retried(env[0].reply)
    requires Decide(env[0].reply, s.interval) == Again(s'.interval, s'.wait)
    requires s'.now == TimeOf(s, env, 0) + env[0].roundTrip
    ensures TimeOf(s, env, k) == TimeOf(s', env[1..], k - 1)
  {
    WaitAfterOneTurn(s, s', env, k);
    if k > 1 {
      TimeAfterOneTurn(s, s', env, k - 1);
    }
  }

  lemma {:induction false} TimeGrows(s: Clockwork, env: seq<Turn>, j: nat, k: nat)
    requires j <= k < |env|
    ensures TimeOf(s, env, j) <= TimeOf(s, env, k)
  {
    if j < k {
      TimeGrows(s, env, j, k - 1);
    }
  }

  /** Cutting a sleep short at the deadline is seen in no request: the clock lets one through exactly when it
      would have without the cut, and then at the same instant. */
  lemma WakesOnTime(from: nat, wait: nat, deadline: nat, oversleep: nat)
    ensures Wake(from, wait, deadline, oversleep) < deadline <==> from + wait + oversleep < deadline
    ensures from + wait + oversleep < deadline ==> Wake(from, wait, deadline, oversleep) == from + wait + oversleep
  {
  }

  ghost predicate OnTime(s: Clockwork, env: seq<Turn>, k: nat, poll: Poll)
    requires k < |env|
  {
    && poll.at == TimeOf(s, env, k) && poll.from + poll.wait + env[k].oversleep == poll.at
    && poll.answered == poll.at + env[k].roundTrip
    && poll.wait == WaitBefore(s, env, k) && poll.reply == env[k].reply
  }

  lemma FirstIsOnTime(s: Clockwork, deadline: nat, env: seq<Turn>)
    requires env != []
    ensures |Run(s, deadline, env).1| > 0 <==> TimeOf(s, env, 0) < deadline
    ensures |Run(s, deadline, env).1| > 0 ==> OnTime(s, env, 0, Run(s, deadline, env).1[0])
  {
    WakesOnTime(s.now + env[0].idle, s.wait, deadline, env[0].oversleep);
  }

  lemma {:induction false} RunIsOnTime(s: Clockwork, deadline: nat, env: seq<Turn>, k: nat)
    requires k < |env| && s.interval <= MAX_DURATION
    ensures k < |Run(s, deadline, env).1| <==>
              (forall j :: 0 <= j < k ==> Retried(env[j].reply)) && TimeOf(s, env, k) < deadline
    ensures k < |Run(s, deadline, env).1| ==> OnTime(s, env, k, Run(s, deadline, env).1[k])
    decreases |env|
  {
    FirstIsOnTime(s, deadline, env);
    RetriedIff(env[0].reply, s.interval);
    TimeGrows(s, env, 0, k);
    var log := Run(s, deadline, env).1;
    if k > 0 && log != [] {
      RunUnfolds(s, deadline, env);
      if Retried(env[0].reply) {
        var s' := Resume(s, deadline, env[0]);
        RunIsOnTime(s', deadline, env[1..], k - 1);
        TimeAfterOneTurn(s, s', env, k);
        WaitAfterOneTurn(s, s', env, k);
        assert forall j :: 0 < j < |env| ==> env[j] == env[1..][j - 1];
      }
    }
  }

  /** A sign-in in the Hub's own numbers: request `k` is made iff every earlier answer was one to poll on and its
      time is before both limits of the code's life, and it goes out at that time. */
  lemma {:induction false} LoginIsOnTime(device: Device, start: nat, env: seq<Turn>, k: nat)
    requires k < |env|
    ensures var interval := 1_000_000_000 * (match device.interval case Some(seconds) => seconds case None => 5);
            var s := Clockwork(start, interval, interval);
            var log := Login(device, start, env).1;
            && (k < |log| <==>
                  && (forall j :: 0 <= j < k ==> Retried(env[j].reply))
                  && TimeOf(s, env, k) < start + 1_000_000_000 * device.expiresIn
                  && TimeOf(s, env, k) < start + 3_600_000_000_000)
            && (k < |log| ==> OnTime(s, env, k, log[k]))
  {
    RunIsOnTime(Start(device, start), start + device.Lifetime(), env, k);
    BothLimits(device, start, TimeOf(Start(device, start), env, k));
  }

  lemma BothLimits(device: Device, start: nat, time: nat)
    ensures time < start + device.Lifetime() <==>
              time < start + 1_000_000_000 * device.expiresIn && time < start + 3_600_000_000_000
    ensures device.InitialInterval()
         == 1_000_000_000 * (match device.interval case Some(seconds) => seconds case None => 5)
  {
  }

  lemma {:induction false} RunConcludes(s: Clockwork, deadline: nat, env: seq<Turn>)
    requires s.interval <= MAX_DURATION
    ensures var (outcome, log) := Run(s, deadline, env);
            && |log| <= |env|
            && (log == [] || Retried(log[|log| - 1].reply) ==>
                  outcome == if |log| < |env| then Expired else StillPolling)
            && (log != [] && !Retried(log[|log| - 1].reply) ==> Decides(log[|log| - 1].reply, outcome))
    decreases |env|
  {
    var log := Run(s, deadline, env).1;
    if log != [] {
      RunUnfolds(s, deadline, env);
      RetriedIff(env[0].reply, s.interval);
      if Retried(env[0].reply) {
        var s' := Resume(s, deadline, env[0]);
        var rest := Run(s', deadline, env[1..]).1;
        RunConcludes(s', deadline, env[1..]);
        if rest != [] { assert log[|log| - 1] == rest[|rest| - 1]; }
      } else {
        DecidesOnReply(env[0].reply, s.interval);
      }
    }
  }

  /** What a deciding answer makes of the sign-in. */
  ghost predicate Decides(reply: Reply, outcome: Outcome) {
    && (forall t :: outcome == Token(t) <==> reply == Granted(Some(t)))
    && (outcome == Malformed <==> reply == Granted(None))
    && (outcome == Denied <==> reply == Refused("access_denied"))
    && (outcome == Expired <==> reply == Refused("expired_token"))
    && (outcome == Forgotten <==> reply == Refused("invalid_grant"))
    && (forall e :: outcome == RefusedBy(e) <==>
          reply == Refused(e) && e != "access_denied" && e != "expired_token" && e != "invalid_grant")
    && outcome != StillPolling
  }

  lemma DecidesOnReply(reply: Reply, interval: nat)
    requires Decide(reply, interval).Stop?
    ensures Decides(reply, Decide(reply, interval).outcome)
  {
  }

  /** How a sign-in ends: by its last answer when that one decides, and otherwise by expiry. */
  lemma {:induction false} OutcomeIff(device: Device, start: nat, env: seq<Turn>)
    ensures var (outcome, log) := Login(device, start, env);
            && |log| <= |env|
            && (log == [] || Retried(log[|log| - 1].reply) ==>
                  outcome == if |log| < |env| then Expired else StillPolling)
            && (log != [] && !Retried(log[|log| - 1].reply) ==> Decides(log[|log| - 1].reply, outcome))
  {
    RunConcludes(Start(device, start), start + device.Lifetime(), env);
  }

  lemma DecidedRunStops(s: Clockwork, deadline: nat, env: seq<Turn>, k: nat)
    requires s.interval <= MAX_DURATION && k < |Run(s, deadline, env).1| && k < |env| && !Retried(env[k].reply)
    ensures |Run(s, deadline, env).1| == k + 1 && Run(s, deadline, env).1[k].reply == env[k].reply
  {
    RunConcludes(s, deadline, env);
    RunIsOnTime(s, deadline, env, k);
    if k + 1 < |env| {
      RunIsOnTime(s, deadline, env, k + 1);
    }
  }

  lemma GrantEndsIt(device: Device, start: nat, env: seq<Turn>, k: nat, token: string)
    requires k < |env| && env[k].reply == Granted(Some(token)) && k < |Login(device, start, env).1|
    ensures Login(device, start, env).0 == Token(token)
  {
    DecidedRunStops(Start(device, start), start + device.Lifetime(), env, k);
    TokenIffGranted(device, start, env, token);
  }

  /** A grant that the clock lets through yields its token. */
  lemma {:induction false} GrantInTimeSignsIn(device: Device, start: nat, env: seq<Turn>, k: nat, token: string)
    requires k < |env| && env[k].reply == Granted(Some(token))
    requires forall j :: 0 <= j < k ==> Retried(env[j].reply)
    requires TimeOf(Start(device, start), env, k) < start + device.Lifetime()
    ensures Login(device, start, env).0 == Token(token)
  {
    RunIsOnTime(Start(device, start), start + device.Lifetime(), env, k);
    GrantEndsIt(device, start, env, k, token);
  }
}
