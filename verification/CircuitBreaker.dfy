/** The breaker of control_plane/scheduler/circuit_breaker.go. Times are nanoseconds. */
module CircuitBreaker {

  datatype CircuitState = Closed | HalfOpen | Open

  datatype Config = Config(queueThreshold: int, saturationThreshold: real, cooldown: int, testLimit: int)

  datatype Breaker = Breaker(state: CircuitState, openedAt: int, testCount: int)

  /** What the floating-point quotient of running and allowed tasks may be: a number, or for a limit of
      zero an infinity or not a number, which compares with nothing. */
  datatype Saturation = Ratio(r: real) | PositiveInfinity | NegativeInfinity | NotANumber
  {
    predicate Above(t: real) { PositiveInfinity? || (Ratio? && r > t) }
    predicate Below(t: real) { NegativeInfinity? || (Ratio? && r < t) }
  }

  function Quotient(a: int, b: int): Saturation {
    if b != 0 then Ratio(a as real / b as real)
    else if a > 0 then PositiveInfinity
    else if a < 0 then NegativeInfinity
    else NotANumber
  }

  /** Integer division that drops the fraction, toward zero. */
  function Half(x: int): int {
    if x >= 0 then x / 2 else -((-x) / 2)
  }

  predicate Overloaded(cfg: Config, depth: nat, saturation: Saturation) {
    depth > cfg.queueThreshold || saturation.Above(cfg.saturationThreshold)
  }

  predicate Healthy(cfg: Config, depth: nat, saturation: Saturation) {
    depth < Half(cfg.queueThreshold) && saturation.Below(cfg.saturationThreshold)
  }

  function CoolDown(cfg: Config, b: Breaker, now: int): Breaker {
    if b.state.Open? && now - b.openedAt > cfg.cooldown then b.(state := HalfOpen, testCount := 0) else b
  }

  function Admit(cfg: Config, b: Breaker, depth: nat, saturation: Saturation, now: int): (Breaker, bool) {
    var c := CoolDown(cfg, b, now);
    if c.state.HalfOpen? then
      if c.testCount < cfg.testLimit then (c.(testCount := c.testCount + 1), true)
      else if Healthy(cfg, depth, saturation) then (c.(state := Closed), true)
      else (c, false)
    else if Overloaded(cfg, depth, saturation) then (c.(state := Open, openedAt := now), false)
    else (c, c.state.Closed?)
  }

  function Success(cfg: Config, b: Breaker): Breaker {
    if b.state.HalfOpen? && b.testCount >= cfg.testLimit then b.(state := Closed) else b
  }

  function Failure(b: Breaker, now: int): Breaker {
    if b.state.HalfOpen? then Breaker(Open, now, 0) else b
  }

  class CircuitBreaker {
    var state: CircuitState
    const config: Config
    var openedAt: int
    var testCount: int

    ghost function View(): Breaker
      reads this
    {
      Breaker(state, openedAt, testCount)
    }

    /** The production defaults. */
    constructor (queueThreshold: int)
      ensures View() == Breaker(Closed, 0, 0)
      ensures config == Config(queueThreshold, 0.95, 30_000_000_000, 5)
    {
      state, openedAt, testCount := Closed, 0, 0;
      config := Config(queueThreshold, 0.95, 30_000_000_000, 5);
    }

    method ShouldAdmit(queueDepth: nat, workerSaturation: Saturation, now: int) returns (admitted: bool)
      modifies this
      ensures (View(), admitted) == Admit(config, old(View()), queueDepth, workerSaturation, now)
    {
      if state == Open && now - openedAt > config.cooldown {
        state := HalfOpen;
        testCount := 0;
      }
      if state == HalfOpen {
        if testCount < config.testLimit {
          testCount := testCount + 1;
          return true;
        }
        if queueDepth < Half(config.queueThreshold) && workerSaturation.Below(config.saturationThreshold) {
          state := Closed;
          return true;
        }
        return false;
      }
      if queueDepth > config.queueThreshold || workerSaturation.Above(config.saturationThreshold) {
        state := Open;
        openedAt := now;
        return false;
      }
      admitted := state == Closed;
    }

    method RecordSuccess()
      modifies this
      ensures View() == Success(config, old(View()))
    {
      if state == HalfOpen {
        if testCount >= config.testLimit {
          state := Closed;
        }
      }
    }

    method RecordFailure(now: int)
      modifies this
      ensures View() == Failure(old(View()), now)
    {
      if state == HalfOpen {
        state := Open;
        openedAt := now;
        testCount := 0;
      }
    }
  }

  // ---------- Runs ----------

  datatype Event = Ask(depth: nat, saturation: Saturation, now: int) | Succeeded(now: int) | Broke(now: int)

  function Step(cfg: Config, b: Breaker, e: Event): Breaker {
    match e
    case Ask(depth, saturation, now) => Admit(cfg, b, depth, saturation, now).0
    case Succeeded(_) => Success(cfg, b)
    case Broke(now) => Failure(b, now)
  }

  predicate Admitted(cfg: Config, b: Breaker, e: Event) {
    e.Ask? && Admit(cfg, b, e.depth, e.saturation, e.now).1
  }

  function Run(cfg: Config, b: Breaker, es: seq<Event>): Breaker {
    if es == [] then b else Step(cfg, Run(cfg, b, es[..|es|-1]), es[|es|-1])
  }

  /** The event opens the breaker, or opens it again. */
  predicate Opens(cfg: Config, b: Breaker, e: Event) {
    match e
    case Ask(depth, saturation, now) =>
      var c := CoolDown(cfg, b, now);
      !c.state.HalfOpen? && Overloaded(cfg, depth, saturation)
    case Succeeded(_) => false
    case Broke(_) => b.state.HalfOpen?
  }

  ghost predicate ClockNeverGoesBack(es: seq<Event>) {
    forall i, j :: 0 <= i < j < |es| ==> es[i].now <= es[j].now
  }

  /** bs[i] is the breaker before event i. */
  ghost predicate IsTrace(cfg: Config, bs: seq<Breaker>, es: seq<Event>) {
    |bs| == |es| + 1 && forall i :: 0 <= i < |es| ==> bs[i+1] == Step(cfg, bs[i], es[i])
  }

  /** Opened last at t, and either open since or cooled down by time. */
  predicate CoolingSince(cfg: Config, b: Breaker, t: int, time: int) {
    b.openedAt == t && (!b.state.Open? ==> time - t > cfg.cooldown)
  }

  lemma OpeningStartsCooling(cfg: Config, b: Breaker, e: Event)
    requires Opens(cfg, b, e)
    ensures CoolingSince(cfg, Step(cfg, b, e), e.now, e.now)
  {
  }

  lemma StepKeepsCooling(cfg: Config, b: Breaker, e: Event, t: int, time: int)
    requires CoolingSince(cfg, b, t, time) && time <= e.now && !Opens(cfg, b, e)
    ensures CoolingSince(cfg, Step(cfg, b, e), t, e.now)
  {
  }

  /** After an opening and before the next one, the breaker either is still open since then or has
      cooled down. */
  lemma {:induction false} OpenUntilCooled(cfg: Config, bs: seq<Breaker>, es: seq<Event>, i: nat, j: nat)
    requires IsTrace(cfg, bs, es) && ClockNeverGoesBack(es) && i < j <= |es|
    requires Opens(cfg, bs[i], es[i]) && forall k :: i < k < j ==> !Opens(cfg, bs[k], es[k])
    ensures CoolingSince(cfg, bs[j], es[i].now, es[j-1].now)
  {
    if j > i + 1 {
      OpenUntilCooled(cfg, bs, es, i, j - 1);
      StepKeepsCooling(cfg, bs[j-1], es[j-1], es[i].now, es[j-2].now);
    } else {
      OpeningStartsCooling(cfg, bs[i], es[i]);
    }
  }

  /** In every run with a clock that never goes back, nothing is admitted until more than the
      cooldown after the latest opening. */
  lemma NothingAdmittedWhileCooling(cfg: Config, bs: seq<Breaker>, es: seq<Event>, i: nat, j: nat)
    requires IsTrace(cfg, bs, es) && ClockNeverGoesBack(es) && i < j < |es|
    requires Opens(cfg, bs[i], es[i]) && forall k :: i < k < j ==> !Opens(cfg, bs[k], es[k])
    requires Admitted(cfg, bs[j], es[j])
    ensures es[j].now - es[i].now > cfg.cooldown
  {
    OpenUntilCooled(cfg, bs, es, i, j);
  }

  // ---------- What each state answers ----------

  /** The saturation is a number above the limit, or infinite. */
  predicate Exceeds(saturation: Saturation, limit: real) {
    match saturation
    case Ratio(r) => limit < r
    case PositiveInfinity => true
    case _ => false
  }

  /** The saturation is a number below the limit, or infinitely below it. */
  predicate IsUnder(saturation: Saturation, limit: real) {
    match saturation
    case Ratio(r) => r < limit
    case NegativeInfinity => true
    case _ => false
  }

  /** A closed breaker admits a request, and stays closed, if and only if the queue is at most at its
      threshold and the saturation not above its own; else it refuses and opens at that clock reading. */
  lemma ClosedAdmitsExactly(cfg: Config, b: Breaker, depth: nat, saturation: Saturation, now: int)
    requires b.state == Closed
    ensures var e := Ask(depth, saturation, now);
            var light := depth <= cfg.queueThreshold && !Exceeds(saturation, cfg.saturationThreshold);
            && (Admitted(cfg, b, e) <==> light)
            && (light ==> Step(cfg, b, e) == b)
            && (!light ==> Step(cfg, b, e).state == Open && Step(cfg, b, e).openedAt == now)
  {
  }

  /** An open breaker refuses every request until the cooldown is over, and stays open; after it, it admits
      the first probe whatever the load. */
  lemma OpenAdmitsExactly(cfg: Config, b: Breaker, depth: nat, saturation: Saturation, now: int)
    requires b.state == Open && cfg.testLimit > 0
    ensures var e := Ask(depth, saturation, now);
            && (Admitted(cfg, b, e) <==> cfg.cooldown < now - b.openedAt)
            && (Admitted(cfg, b, e) ==> Step(cfg, b, e).state == HalfOpen && Step(cfg, b, e).testCount == 1)
            && (!Admitted(cfg, b, e) ==> Step(cfg, b, e).state == Open)
  {
  }

  /** A half-open breaker admits while probes are left, whatever the load; then it admits, and closes, if
      and only if the queue is below half its threshold and the saturation below its own. */
  lemma HalfOpenAdmitsExactly(cfg: Config, b: Breaker, depth: nat, saturation: Saturation, now: int)
    requires b.state == HalfOpen
    ensures var e := Ask(depth, saturation, now);
            var left := b.testCount < cfg.testLimit;
            var calm := 2 * (depth + 1) <= cfg.queueThreshold && IsUnder(saturation, cfg.saturationThreshold);
            && (Admitted(cfg, b, e) <==> left || calm)
            && Step(cfg, b, e) == if left then Breaker(HalfOpen, b.openedAt, b.testCount + 1)
                                  else if calm then Breaker(Closed, b.openedAt, b.testCount) else b
  {
  }

  /** A recorded success closes, and a recorded failure opens anew, nothing but a half-open breaker; the
      success only once the probes are used up. */
  lemma RecordsActExactly(cfg: Config, b: Breaker, now: int)
    ensures var closed, broken := Step(cfg, b, Succeeded(now)), Step(cfg, b, Broke(now));
            && (b.state != HalfOpen ==> closed == b && broken == b)
            && (b.state == HalfOpen ==> broken.state == Open && broken.openedAt == now)
            && (b.state == HalfOpen ==> closed.state == if b.testCount < cfg.testLimit then HalfOpen else Closed)
  {
  }

  predicate Light(cfg: Config, e: Event) {
    e.Ask? ==> e.depth <= cfg.queueThreshold && !Exceeds(e.saturation, cfg.saturationThreshold)
  }

  /** A closed breaker that meets no request over a threshold stays closed and admits every one of them. */
  lemma {:induction false} LightLoadIsAdmitted(cfg: Config, b: Breaker, es: seq<Event>)
    requires b.state == Closed && forall i :: 0 <= i < |es| ==> Light(cfg, es[i])
    ensures Run(cfg, b, es) == b
    ensures forall i :: 0 <= i < |es| && es[i].Ask? ==> Admitted(cfg, Run(cfg, b, es[..i]), es[i])
  {
    if es != [] {
      var n := |es| - 1;
      LightLoadIsAdmitted(cfg, b, es[..n]);
      assert forall i :: 0 <= i < n ==> es[..n][..i] == es[..i];
      assert Light(cfg, es[n]);
    }
  }

  // ---------- Probes ----------

  /** The requests admitted since the breaker last became half-open; none in another state. */
  function Probes(cfg: Config, b: Breaker, es: seq<Event>): nat {
    if es == [] then 0 else
    var before, e := Run(cfg, b, es[..|es|-1]), es[|es|-1];
    if !Step(cfg, before, e).state.HalfOpen? then 0
    else (if before.state.HalfOpen? then Probes(cfg, b, es[..|es|-1]) else 0) + (if Admitted(cfg, before, e) then 1 else 0)
  }

  lemma {:induction false} TestCountCountsProbes(cfg: Config, b: Breaker, es: seq<Event>)
    requires !b.state.HalfOpen? && cfg.testLimit > 0
    ensures var c := Run(cfg, b, es);
            c.state.HalfOpen? ==> c.testCount == Probes(cfg, b, es) <= cfg.testLimit
  {
    if es != [] {
      TestCountCountsProbes(cfg, b, es[..|es|-1]);
    }
  }

  /** Each return from half-open to closed follows exactly testLimit admitted probes in that
      half-open episode. */
  lemma ClosesAfterExactlyTheLimit(cfg: Config, b: Breaker, es: seq<Event>, e: Event)
    requires !b.state.HalfOpen? && cfg.testLimit > 0
    requires Run(cfg, b, es).state.HalfOpen? && Step(cfg, Run(cfg, b, es), e).state.Closed?
    ensures Probes(cfg, b, es) == cfg.testLimit
  {
    TestCountCountsProbes(cfg, b, es);
  }

  // ---------- Recovery ----------

  function Asks(es: seq<Event>): nat {
    if es == [] then 0 else Asks(es[..|es|-1]) + (if es[|es|-1].Ask? then 1 else 0)
  }

  /** Low load and no recorded failure, after the breaker has cooled down. */
  ghost predicate CalmAfter(cfg: Config, b: Breaker, es: seq<Event>) {
    forall i :: 0 <= i < |es| ==>
      !es[i].Broke? && es[i].now - b.openedAt > cfg.cooldown && (es[i].Ask? ==> Healthy(cfg, es[i].depth, es[i].saturation))
  }

  lemma {:induction false} RecoveryProgress(cfg: Config, b: Breaker, es: seq<Event>)
    requires b.state.Open? && cfg.testLimit > 0 && CalmAfter(cfg, b, es)
    ensures var c := Run(cfg, b, es);
            match c.state
            case Open => Asks(es) == 0 && c.openedAt == b.openedAt
            case HalfOpen => c.testCount == Asks(es) <= cfg.testLimit
            case Closed => Asks(es) >= cfg.testLimit
  {
    if es != [] {
      var n := |es| - 1;
      RecoveryProgress(cfg, b, es[..n]);
      assert !es[n].Broke? && es[n].now - b.openedAt > cfg.cooldown;
    }
  }

  /** From open, under sustained low load after the cooldown and without failures, the breaker is
      closed once testLimit + 1 requests have asked. */
  lemma LowLoadCloses(cfg: Config, b: Breaker, es: seq<Event>)
    requires b.state.Open? && cfg.testLimit > 0 && CalmAfter(cfg, b, es)
    requires Asks(es) >= cfg.testLimit + 1
    ensures Run(cfg, b, es).state.Closed?
  {
    RecoveryProgress(cfg, b, es);
  }

  ghost predicate OnlyAsks(es: seq<Event>) {
    forall i :: 0 <= i < |es| ==> es[i].Ask?
  }

  lemma {:induction false} StaysUnclosed(cfg: Config, b: Breaker, es: seq<Event>)
    requires !b.state.Closed? && cfg.queueThreshold < 2 && OnlyAsks(es)
    ensures !Run(cfg, b, es).state.Closed?
  {
    if es != [] {
      StaysUnclosed(cfg, b, es[..|es|-1]);
    }
  }

  lemma {:induction false} AsksCountAll(es: seq<Event>)
    requires OnlyAsks(es)
    ensures Asks(es) == |es|
  {
    if es != [] {
      AsksCountAll(es[..|es|-1]);
    }
  }

  /** Requests alone can close an open breaker exactly if the threshold is at least two: below that
      no queue is short enough, since a queue is never shorter than empty. */
  lemma ClosableExactly(cfg: Config, b: Breaker)
    requires b.state.Open? && cfg.saturationThreshold > 0.0 && cfg.testLimit > 0
    ensures (exists es :: OnlyAsks(es) && Run(cfg, b, es).state.Closed?) <==> cfg.queueThreshold >= 2
  {
    if cfg.queueThreshold >= 2 {
      var es := seq(cfg.testLimit + 1, _ => Ask(0, Ratio(0.0), b.openedAt + cfg.cooldown + 1));
      AsksCountAll(es);
      LowLoadCloses(cfg, b, es);
    } else {
      forall es | OnlyAsks(es) ensures !Run(cfg, b, es).state.Closed? {
        StaysUnclosed(cfg, b, es);
      }
    }
  }
}
