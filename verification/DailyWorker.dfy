/** `DailyWorker`: one task a day at a scheduled local time.

    The clock counts microseconds; local time is UTC plus a constant offset. One pass
    of the handler's loop takes from outside the times it reads, what the waiter
    answers, and the calls of `SetScheduleTime` by the moment at which they arrive.
 */
module DailyWorker {
  import opened Common

  const SECOND := 1_000_000
  const DAY_SECONDS := 86_400
  const DAY := DAY_SECONDS * SECOND
  const POSTPONEMENT := 30 * SECOND

  datatype TimeOfDay = TimeOfDay(hour: nat, min: nat, sec: nat)

  function Seconds(t: TimeOfDay): nat { t.hour * 3600 + t.min * 60 + t.sec }

  /** The instant of day d (counted from the epoch, local time) at time of day t. */
  function Instant(zone: int, t: TimeOfDay, d: int): int {
    (d * DAY_SECONDS + Seconds(t) - zone) * SECOND
  }

  /** The local day of a clock reading. */
  function DayOf(zone: int, now: nat): int { (now / SECOND + zone) / DAY_SECONDS }

  /** `GetNextExecutionTimePoint` */
  function NextInstant(zone: int, t: TimeOfDay, now: nat): int {
    var today := Instant(zone, t, DayOf(zone, now));
    if today <= now then today + DAY else today
  }

  /** The local clock shows a time of day at r, on the second. */
  predicate Shows(zone: int, r: int, t: TimeOfDay) {
    var x := r / 1_000_000 + zone;
    r % 1_000_000 == 0 && x % 86_400 / 3_600 == t.hour && x % 3_600 / 60 == t.min && x % 60 == t.sec
  }

  predicate ValidTime(t: TimeOfDay) { t.hour < 24 && t.min < 60 && t.sec < 60 }

  lemma BySecond(x: int, q: int)
    requires x == q * 1_000_000
    ensures x / 1_000_000 == q && x % 1_000_000 == 0
  {
  }

  lemma ByDay(x: int, q: int, r: int)
    requires x == q * 86_400 + r && 0 <= r < 86_400
    ensures x / 86_400 == q && x % 86_400 == r
  {
  }

  lemma ByHour(x: int, q: int, r: int)
    requires x == q * 3_600 + r && 0 <= r < 3_600
    ensures x / 3_600 == q && x % 3_600 == r
  {
  }

  lemma ByMinute(x: int, q: int, r: int)
    requires x == q * 60 + r && 0 <= r < 60
    ensures x / 60 == q && x % 60 == r
  {
  }

  lemma InstantShows(zone: int, t: TimeOfDay, d: int)
    ensures Shows(zone, Instant(zone, t, d), t) <==> ValidTime(t)
  {
    var x := d * 86_400 + Seconds(t);
    BySecond(Instant(zone, t, d), x - zone);
    if ValidTime(t) {
      var inHour := t.min * 60 + t.sec;
      ByDay(x, d, Seconds(t));
      ByHour(Seconds(t), t.hour, inHour);
      ByHour(x, 24 * d + t.hour, inHour);
      ByMinute(inHour, t.min, t.sec);
      ByMinute(x, 1_440 * d + 60 * t.hour + t.min, t.sec);
    }
  }

  /** Within 24 hours from now the local clock shows the scheduled hour, minute and
      second: the result is that instant, and exactly for valid fields it shows them. */
  lemma NextInstantShows(zone: int, t: TimeOfDay, now: nat)
    ensures Shows(zone, NextInstant(zone, t, now), t) <==> ValidTime(t)
    ensures ValidTime(t) ==> now < NextInstant(zone, t, now) <= now + 86_400_000_000
  {
    var d, s := DayOf(zone, now), now / 1_000_000;
    InstantShows(zone, t, d);
    InstantShows(zone, t, d + 1);
    assert Instant(zone, t, d + 1) == Instant(zone, t, d) + DAY;
    assert d * 86_400 <= s + zone < (d + 1) * 86_400;
    assert s * 1_000_000 <= now < (s + 1) * 1_000_000;
  }

  /** And there is no other such instant. */
  lemma NextInstantOnly(zone: int, t: TimeOfDay, now: nat, r: int)
    requires ValidTime(t) && now < r <= now + 86_400_000_000 && Shows(zone, r, t)
    ensures r == NextInstant(zone, t, now)
  {
    var q := NextInstant(zone, t, now);
    NextInstantShows(zone, t, now);
    var a := ShowsSeconds(zone, q, t);
    var b := ShowsSeconds(zone, r, t);
    assert q - r == (a - b) * 86_400_000_000;
  }

  /** An instant that shows t is so many seconds into some local day. */
  lemma ShowsSeconds(zone: int, r: int, t: TimeOfDay) returns (d: int)
    requires Shows(zone, r, t)
    ensures r == (d * 86_400 + t.hour * 3_600 + t.min * 60 + t.sec - zone) * 1_000_000
  {
    var x := r / 1_000_000 + zone;
    d := x / 86_400;
    var y := x % 86_400;
    ByHour(x, 24 * d + y / 3_600, y % 3_600);
    ByMinute(x, 1_440 * d + 60 * (y / 3_600) + y % 3_600 / 60, y % 3_600 % 60);
  }

  // ---------------------------------------------------------------- specification

  /** One pass of the loop. The calls of `SetScheduleTime` fall in four windows: before
      the flag is cleared (that includes the previous pass's `DoTask`), during the wait,
      between waking and planning, and between planning and the test of the flag. */
  datatype Pass = Pass(
    before: Option<TimeOfDay>, waiting: Option<TimeOfDay>, wakeAt: nat,
    woken: Option<TimeOfDay>, free: bool, readAt: nat, planned: Option<TimeOfDay>, quits: bool)

  /** A clock reading for which the next instant was computed, and the schedule used. */
  datatype Plan = Plan(at: nat, time: TimeOfDay)

  /** A run of `DoTask`: the clock reading of the pass that enters it, and the plan it follows. */
  datatype TaskRun = TaskRun(at: nat, plan: Plan)

  /** `plan` and `postponed` are history: nothing in the loop depends on them. */
  datatype State = State(
    time: TimeOfDay, reset: bool, quit: bool, next: int, clock: nat, runs: seq<TaskRun>,
    plan: Plan, postponed: bool)

  function Due(zone: int, plan: Plan): int { NextInstant(zone, plan.time, plan.at) }

  function Start(zone: int, t: TimeOfDay, reset: bool, now: nat): State {
    State(t, reset, false, NextInstant(zone, t, now), now, [], Plan(now, t), false)
  }

  function Latest(t: TimeOfDay, call: Option<TimeOfDay>): TimeOfDay {
    if call.Some? then call.value else t
  }

  /** The schedule in force when the pass plans, from the one in force before it. */
  function TimeToPlan(t: TimeOfDay, p: Pass): TimeOfDay {
    Latest(Latest(Latest(t, p.before), p.waiting), p.woken)
  }

  /** The wait ends at the deadline or on a call that arrives during it; the clock does not go back. */
  predicate Possible(s: State, p: Pass) {
    s.clock <= p.wakeAt <= p.readAt && (p.waiting.Some? || p.wakeAt >= s.next)
  }

  function Step(zone: int, s: State, p: Pass): State {
    var flag := p.waiting.Some? || p.woken.Some?;
    var s' := s.(time := TimeToPlan(s.time, p), reset := flag, quit := s.quit || p.quits, clock := p.readAt);
    if !p.free then
      s'.(next := p.readAt + POSTPONEMENT, postponed := true)
    else
      var t := s'.time;
      var after := s'.(time := Latest(t, p.planned), reset := flag || p.planned.Some?,
                       next := NextInstant(zone, t, p.readAt), plan := Plan(p.readAt, t), postponed := false);
      if after.reset then after else after.(runs := s.runs + [TaskRun(p.readAt, s.plan)])
  }

  function Behave(zone: int, s: State, passes: seq<Pass>): State
    decreases |passes|
  {
    if passes == [] || s.quit then s else Behave(zone, Step(zone, s, passes[0]), passes[1..])
  }

  predicate Plausible(zone: int, s: State, passes: seq<Pass>)
    decreases |passes|
  {
    passes == [] || s.quit || (Possible(s, passes[0]) && Plausible(zone, Step(zone, s, passes[0]), passes[1..]))
  }

  // ------------------------------------------------------------------- the object

  class DailyWorker {
    const zone: int
    var scheduleTime: TimeOfDay
    var reset: bool
    var quit: bool
    ghost var runs: seq<TaskRun>

    constructor (zone: int)
      ensures this.zone == zone && scheduleTime == TimeOfDay(0, 1, 0) && !reset && !quit && runs == []
    {
      this.zone := zone;
      scheduleTime := TimeOfDay(0, 1, 0);
      reset, quit, runs := false, false, [];
    }

    method SetScheduleTime(hour: nat, min: nat, sec: nat)
      modifies this`scheduleTime, this`reset
      ensures scheduleTime == TimeOfDay(hour, min, sec) && reset
    {
      scheduleTime := TimeOfDay(hour, min, sec);
      reset := true;
    }

    /** The calls that arrive in one window; the last one counts. */
    method Arrive(call: Option<TimeOfDay>)
      modifies this`scheduleTime, this`reset
      ensures scheduleTime == Latest(old(scheduleTime), call) && reset == (old(reset) || call.Some?)
    {
      if call.Some? { SetScheduleTime(call.value.hour, call.value.min, call.value.sec); }
    }

    method GetNextExecutionTimePoint(now: nat) returns (nextExecutionTimePoint: int)
      ensures nextExecutionTimePoint == NextInstant(zone, scheduleTime, now)
      // the first moment after now, within 24 hours, at which the local clock shows the schedule
      ensures ValidTime(scheduleTime) ==> Shows(zone, nextExecutionTimePoint, scheduleTime)
      ensures ValidTime(scheduleTime) ==> now < nextExecutionTimePoint <= now + 86_400_000_000
    {
      NextInstantShows(zone, scheduleTime, now);
      var today := (now / SECOND + zone) / DAY_SECONDS;
      nextExecutionTimePoint := (today * DAY_SECONDS + Seconds(scheduleTime) - zone) * SECOND;
      if nextExecutionTimePoint <= now {
        nextExecutionTimePoint := nextExecutionTimePoint + 24 * 3600 * SECOND;
      }
    }

    /** The loop, for as many passes as are given. */
    method Handler(start: nat, passes: seq<Pass>)
      requires !quit && runs == []
      requires Plausible(zone, Start(zone, scheduleTime, reset, start), passes)
      modifies this
      ensures var end := Behave(zone, Start(zone, old(scheduleTime), old(reset), start), passes);
        scheduleTime == end.time && reset == end.reset && quit == end.quit && runs == end.runs
    {
      var nextExecutionTime := GetNextExecutionTimePoint(start);
      ghost var s := Start(zone, scheduleTime, reset, start);
      ghost var end := Behave(zone, s, passes);
      var i := 0;
      while !quit && i < |passes|
        invariant 0 <= i <= |passes|
        invariant Behave(zone, s, passes[i..]) == end && Plausible(zone, s, passes[i..])
        invariant scheduleTime == s.time && reset == s.reset && quit == s.quit && runs == s.runs
        invariant nextExecutionTime == s.next
      {
        var p := passes[i];
        assert passes[i..][0] == p && passes[i..][1..] == passes[i + 1..];
        Arrive(p.before);
        reset := false;
        Arrive(p.waiting);
        assert reset || p.wakeAt >= nextExecutionTime; // the wait is over
        Arrive(p.woken);
        if !p.free {
          nextExecutionTime := p.readAt + 30 * SECOND;
        } else {
          nextExecutionTime := GetNextExecutionTimePoint(p.readAt);
          Arrive(p.planned);
          if !reset {
            runs := runs + [TaskRun(p.readAt, s.plan)];
          }
        }
        quit := quit || p.quits;
        s := Step(zone, s, p);
        i := i + 1;
      }
    }
  }

  // -------------------------------------------------------------- the next instant

  const ONE_DAY := 86_400_000_000  // in microseconds
  const HALF_MINUTE := 30_000_000

  ghost predicate LeastAfter(zone: int, t: TimeOfDay, now: nat, r: int) {
    && r > now
    && (exists d :: r == Instant(zone, t, d))
    && (forall d :: Instant(zone, t, d) > now ==> r <= Instant(zone, t, d))
  }

  lemma InstantOrder(zone: int, t: TimeOfDay, d: int, e: int)
    ensures d < e ==> Instant(zone, t, d) + ONE_DAY <= Instant(zone, t, e)
    ensures Instant(zone, t, d + 1) == Instant(zone, t, d) + ONE_DAY
  {
  }

  lemma AroundNow(zone: int, t: TimeOfDay, now: nat)
    ensures Instant(zone, t, DayOf(zone, now) + 1) > now
    ensures Seconds(t) <= DAY_SECONDS ==> Instant(zone, t, DayOf(zone, now) - 1) <= now
  {
    var d, s := DayOf(zone, now), now / SECOND;
    assert d * DAY_SECONDS <= s + zone < (d + 1) * DAY_SECONDS;
    assert s * SECOND <= now < (s + 1) * SECOND;
  }

  lemma NextIsLeast(zone: int, t: TimeOfDay, now: nat)
    requires Seconds(t) <= DAY_SECONDS
    ensures LeastAfter(zone, t, now, NextInstant(zone, t, now))
  {
    var d := DayOf(zone, now);
    AroundNow(zone, t, now);
    InstantOrder(zone, t, d, d + 1);
    InstantOrder(zone, t, d - 1, d);
    forall e | Instant(zone, t, e) > now ensures NextInstant(zone, t, now) <= Instant(zone, t, e) {
      InstantOrder(zone, t, e, d - 1);
      InstantOrder(zone, t, d, e);
      InstantOrder(zone, t, d + 1, e);
    }
  }

  /** Exactly for a time of day up to 24:00:00 is the result the least scheduled
      instant after now, whatever the clock shows. */
  lemma NextIsLeastIff(zone: int, t: TimeOfDay)
    ensures (forall now: nat :: LeastAfter(zone, t, now, NextInstant(zone, t, now))) <==> Seconds(t) <= DAY_SECONDS
  {
    if Seconds(t) <= DAY_SECONDS {
      forall now: nat ensures LeastAfter(zone, t, now, NextInstant(zone, t, now)) { NextIsLeast(zone, t, now); }
    } else {
      var d: nat := if zone > 0 then zone else 0;
      var now: nat := (d * DAY_SECONDS - zone) * SECOND;
      assert DayOf(zone, now) == d;
      InstantOrder(zone, t, d - 1, d);
      assert now < Instant(zone, t, d - 1) < NextInstant(zone, t, now);
    }
  }

  // ------------------------------------------------------------------ every run

  /** An unpostponed deadline is the planned instant, and no plan is older than the last run. */
  predicate Good(zone: int, s: State) {
    && s.plan.at <= s.clock
    && (!s.postponed ==> s.next == Due(zone, s.plan))
    && (forall i {:trigger s.runs[i].plan} :: 0 < i < |s.runs| ==> s.runs[i].plan.at >= s.runs[i - 1].at)
    && (s.runs != [] ==> s.plan.at >= s.runs[|s.runs| - 1].at)
  }

  lemma GoodStep(zone: int, s: State, p: Pass)
    requires Good(zone, s) && Possible(s, p)
    ensures Good(zone, Step(zone, s, p))
  {
  }

  lemma {:induction false} GoodBehaviour(zone: int, s: State, passes: seq<Pass>)
    requires Good(zone, s) && Plausible(zone, s, passes)
    ensures Good(zone, Behave(zone, s, passes))
    decreases |passes|
  {
    if passes != [] && !s.quit {
      GoodStep(zone, s, passes[0]);
      GoodBehaviour(zone, Step(zone, s, passes[0]), passes[1..]);
    }
  }

  lemma NextIsAfter(zone: int, t: TimeOfDay, now: nat)
    ensures NextInstant(zone, t, now) > now
    ensures exists d :: NextInstant(zone, t, now) == Instant(zone, t, d)
  {
    AroundNow(zone, t, now);
    InstantOrder(zone, t, DayOf(zone, now), DayOf(zone, now) + 1);
  }

  predicate OnTime(zone: int, run: TaskRun) { run.at >= Due(zone, run.plan) }

  predicate AllOnTime(zone: int, runs: seq<TaskRun>) {
    forall i :: 0 <= i < |runs| ==> OnTime(zone, runs[i])
  }

  ghost predicate InstantBetween(zone: int, t: TimeOfDay, after: nat, upTo: nat) {
    exists d :: after < Instant(zone, t, d) <= upTo
  }

  /** A run is on time exactly if an instant of its schedule has passed since it was planned. */
  lemma OnTimeMeans(zone: int, run: TaskRun)
    requires Seconds(run.plan.time) <= DAY_SECONDS
    ensures OnTime(zone, run) <==> InstantBetween(zone, run.plan.time, run.plan.at, run.at)
  {
    NextIsLeast(zone, run.plan.time, run.plan.at);
  }

  /** With schedule changes at any moment and any waiter: before a run that is on time
      an instant of its schedule has passed since the previous run. */
  lemma InstantBetweenRuns(zone: int, t: TimeOfDay, reset: bool, start: nat, passes: seq<Pass>, i: nat)
    requires Plausible(zone, Start(zone, t, reset, start), passes)
    requires 0 < i < |Behave(zone, Start(zone, t, reset, start), passes).runs|
    ensures var runs := Behave(zone, Start(zone, t, reset, start), passes).runs;
      OnTime(zone, runs[i]) ==> InstantBetween(zone, runs[i].plan.time, runs[i - 1].at, runs[i].at)
  {
    GoodBehaviour(zone, Start(zone, t, reset, start), passes);
    var run := Behave(zone, Start(zone, t, reset, start), passes).runs[i];
    NextIsAfter(zone, run.plan.time, run.plan.at);
  }

  // ----------------------------------------------------- when a run can be early

  /** The deadline is not before the planned instant. */
  predicate Safe(zone: int, s: State) { s.next >= Due(zone, s.plan) }

  /** Exactly which passes leave a deadline that is not before the planned instant. */
  lemma SafeAfterIff(zone: int, s: State, p: Pass)
    ensures Safe(zone, Step(zone, s, p)) <==> p.free || p.readAt + HALF_MINUTE >= Due(zone, s.plan)
  {
  }

  /** The pass enters `DoTask` before the planned instant. */
  predicate RunsEarly(zone: int, s: State, p: Pass) {
    var s' := Step(zone, s, p);
    Possible(s, p) && |s'.runs| == |s.runs| + 1 && !OnTime(zone, s'.runs[|s.runs|])
  }

  /** A pass with a free waiter and no call, as soon as it is possible. */
  function AtOnce(s: State): Pass {
    var now: nat := if s.next > s.clock then s.next else s.clock;
    Pass(None, None, now, None, true, now, None, false)
  }

  /** Exactly in which states the next pass may run early. */
  lemma EarlyRunPossibleIff(zone: int, s: State)
    ensures (exists p :: RunsEarly(zone, s, p)) <==> s.next < Due(zone, s.plan) && s.clock < Due(zone, s.plan)
  {
    if s.next < Due(zone, s.plan) && s.clock < Due(zone, s.plan) {
      assert Step(zone, s, AtOnce(s)).runs == s.runs + [TaskRun(AtOnce(s).readAt, s.plan)];
      assert RunsEarly(zone, s, AtOnce(s));
    }
  }

  /** The postponement that lets the worker run early: the waiter is busy more than 30
      seconds before the planned instant. */
  predicate Hurried(zone: int, s: State, p: Pass) {
    !p.free && !p.quits && p.readAt + HALF_MINUTE < Due(zone, s.plan)
  }

  predicate NoHurry(zone: int, s: State, passes: seq<Pass>)
    decreases |passes|
  {
    passes == [] || s.quit || (!Hurried(zone, s, passes[0]) && NoHurry(zone, Step(zone, s, passes[0]), passes[1..]))
  }

  /** Whatever pass comes next, at any moment: no run is early. */
  ghost predicate AlwaysOnTime(zone: int, s: State, passes: seq<Pass>) {
    forall k: nat, q :: k <= |passes| && Plausible(zone, s, passes[..k] + [q]) ==>
      AllOnTime(zone, Behave(zone, s, passes[..k] + [q]).runs)
  }

  lemma OneMorePass(zone: int, s: State, q: Pass)
    requires !s.quit
    ensures Behave(zone, s, [q]) == Step(zone, s, q) && (Plausible(zone, s, [q]) <==> Possible(s, q))
  {
    assert [q][1..] == [];
    assert Behave(zone, Step(zone, s, q), []) == Step(zone, s, q);
  }

  lemma OnTimeStep(zone: int, s: State, p: Pass)
    requires Safe(zone, s) && AllOnTime(zone, s.runs) && Possible(s, p)
    ensures AllOnTime(zone, Step(zone, s, p).runs)
  {
  }

  lemma {:induction false} NoHurryOnTime(zone: int, s: State, passes: seq<Pass>, k: nat, q: Pass)
    requires (s.quit || Safe(zone, s)) && AllOnTime(zone, s.runs) && NoHurry(zone, s, passes)
    requires k <= |passes| && Plausible(zone, s, passes[..k] + [q])
    ensures AllOnTime(zone, Behave(zone, s, passes[..k] + [q]).runs)
    decreases k
  {
    if !s.quit {
      if k == 0 {
        assert passes[..0] + [q] == [q];
        OneMorePass(zone, s, q);
        OnTimeStep(zone, s, q);
      } else {
        var all := passes[..k] + [q];
        assert all[0] == passes[0] && all[1..] == passes[1..][..k - 1] + [q];
        OnTimeStep(zone, s, passes[0]);
        SafeAfterIff(zone, s, passes[0]);
        NoHurryOnTime(zone, Step(zone, s, passes[0]), passes[1..], k - 1, q);
      }
    }
  }

  /** After a hurried postponement the task can run before the planned instant. */
  lemma HurryRunsEarly(zone: int, s: State, p: Pass)
    requires !s.quit && Possible(s, p) && Hurried(zone, s, p)
    ensures var mid := Step(zone, s, p);
      !mid.quit && RunsEarly(zone, mid, AtOnce(mid)) && AtOnce(mid).readAt == p.readAt + HALF_MINUTE
  {
    var mid := Step(zone, s, p);
    assert Step(zone, mid, AtOnce(mid)).runs == mid.runs + [TaskRun(p.readAt + HALF_MINUTE, s.plan)];
  }

  lemma {:induction false} HurryLeadsEarly(zone: int, s: State, passes: seq<Pass>) returns (k: nat, q: Pass)
    requires Plausible(zone, s, passes) && !NoHurry(zone, s, passes)
    ensures k <= |passes| && Plausible(zone, s, passes[..k] + [q])
    ensures !AllOnTime(zone, Behave(zone, s, passes[..k] + [q]).runs)
    decreases |passes|
  {
    var p, mid := passes[0], Step(zone, s, passes[0]);
    if Hurried(zone, s, p) {
      HurryRunsEarly(zone, s, p);
      k, q := 1, AtOnce(mid);
      assert (passes[..1] + [q])[1..] == [q];
      OneMorePass(zone, mid, q);
    } else {
      k, q := HurryLeadsEarly(zone, mid, passes[1..]);
      assert (passes[..k + 1] + [q])[1..] == passes[1..][..k] + [q];
      k := k + 1;
    }
  }

  /** Exactly when no run can be early, over whole runs and with calls at any moment:
      if and only if the waiter is never busy more than 30 seconds before the instant
      then planned. */
  lemma OnTimeIff(zone: int, t: TimeOfDay, reset: bool, start: nat, passes: seq<Pass>)
    requires Plausible(zone, Start(zone, t, reset, start), passes)
    ensures AlwaysOnTime(zone, Start(zone, t, reset, start), passes) <==> NoHurry(zone, Start(zone, t, reset, start), passes)
  {
    var s := Start(zone, t, reset, start);
    if NoHurry(zone, s, passes) {
      forall k: nat, q | k <= |passes| && Plausible(zone, s, passes[..k] + [q])
        ensures AllOnTime(zone, Behave(zone, s, passes[..k] + [q]).runs)
      {
        NoHurryOnTime(zone, s, passes, k, q);
      }
    } else {
      var k, q := HurryLeadsEarly(zone, s, passes);
    }
  }

  /** No call of `SetScheduleTime` that wakes the worker finds the waiter busy. */
  predicate FreeOnCalls(passes: seq<Pass>) {
    forall i :: 0 <= i < |passes| ==> passes[i].waiting.Some? ==> passes[i].free
  }

  /** Enough for that: a wake-up at the deadline is never more than 30 seconds early. */
  lemma {:induction false} FreeOnCallsNoHurry(zone: int, s: State, passes: seq<Pass>)
    requires Safe(zone, s) && Plausible(zone, s, passes) && FreeOnCalls(passes)
    ensures NoHurry(zone, s, passes)
    decreases |passes|
  {
    if passes != [] && !s.quit {
      assert passes[0].waiting.Some? ==> passes[0].free;
      assert FreeOnCalls(passes[1..]);
      SafeAfterIff(zone, s, passes[0]);
      FreeOnCallsNoHurry(zone, Step(zone, s, passes[0]), passes[1..]);
    }
  }

  /** From the start of the program: scheduled for 18:41:40 and changed to 21:25:00 at
      once while the waiter is busy, the task runs at half a minute past midnight. */
  lemma EarlyRunFromStart(t: TimeOfDay, u: TimeOfDay, p: Pass, q: Pass)
    requires t == TimeOfDay(18, 41, 40) && u == TimeOfDay(21, 25, 0)
    requires p == Pass(None, Some(u), 0, None, false, 0, None, false)
    requires q == Pass(None, None, HALF_MINUTE, None, true, HALF_MINUTE, None, false)
    ensures var s := Start(0, t, false, 0);
      && Plausible(0, s, [p, q])
      && Behave(0, s, [p, q]).runs == [TaskRun(HALF_MINUTE, Plan(0, t))]
      && HALF_MINUTE < Due(0, Plan(0, t)) == 67_300_000_000 < NextInstant(0, u, 0) == 77_100_000_000
  {
    var s := Start(0, t, false, 0);
    var mid := Step(0, s, p);
    assert DayOf(0, 0) == 0;
    assert [p, q][1..] == [q];
    OneMorePass(0, mid, q);
  }

  // ----------------------------------------------------- a schedule left unchanged

  predicate Quiet(passes: seq<Pass>) {
    forall i :: 0 <= i < |passes| ==>
      passes[i].before == passes[i].waiting == passes[i].woken == passes[i].planned == None
  }

  /** The reading before the i-th run: of the run before it, or of the start. */
  function ReadingBefore(start: nat, runs: seq<TaskRun>, i: nat): nat
    requires i <= |runs|
  {
    if i == 0 then start else runs[i - 1].at
  }

  /** What a fixed schedule t keeps, from a start at the given reading. */
  predicate Steady(zone: int, t: TimeOfDay, start: nat, s: State) {
    && s.time == t && AllOnTime(zone, s.runs) && Safe(zone, s) && Good(zone, s)
    && s.plan == Plan(ReadingBefore(start, s.runs, |s.runs|), t)
    && Chained(t, start, s.runs)
  }

  /** Each run was planned at the reading of the run before it. */
  predicate Chained(t: TimeOfDay, start: nat, runs: seq<TaskRun>) {
    forall i {:trigger runs[i].plan} :: 0 <= i < |runs| ==> runs[i].plan == Plan(ReadingBefore(start, runs, i), t)
  }

  lemma ChainedSnoc(t: TimeOfDay, start: nat, runs: seq<TaskRun>, run: TaskRun)
    requires Chained(t, start, runs) && run.plan == Plan(ReadingBefore(start, runs, |runs|), t)
    ensures Chained(t, start, runs + [run])
  {
    var longer := runs + [run];
    forall i | 0 <= i < |longer| ensures longer[i].plan == Plan(ReadingBefore(start, longer, i), t) {
      if i < |runs| { assert longer[i] == runs[i]; }
    }
  }

  lemma SteadyStep(zone: int, t: TimeOfDay, start: nat, s: State, p: Pass)
    requires Steady(zone, t, start, s) && Possible(s, p)
    requires p.before == p.waiting == p.woken == p.planned == None
    ensures Steady(zone, t, start, Step(zone, s, p))
  {
    GoodStep(zone, s, p);
    var s' := Step(zone, s, p);
    OnTimeStep(zone, s, p);
    assert s'.runs == if p.free then s.runs + [TaskRun(p.readAt, s.plan)] else s.runs;
    if p.free { ChainedSnoc(t, start, s.runs, TaskRun(p.readAt, s.plan)); }
  }

  lemma {:induction false} StaysSteady(zone: int, t: TimeOfDay, start: nat, s: State, passes: seq<Pass>)
    requires Steady(zone, t, start, s) && Quiet(passes) && Plausible(zone, s, passes)
    ensures Steady(zone, t, start, Behave(zone, s, passes))
    decreases |passes|
  {
    if passes != [] && !s.quit {
      assert passes[0].before == passes[0].waiting == passes[0].woken == passes[0].planned == None;
      assert Quiet(passes[1..]);
      SteadyStep(zone, t, start, s, passes[0]);
      StaysSteady(zone, t, start, Step(zone, s, passes[0]), passes[1..]);
    }
  }

  /** From one planned instant to the next is at least a day. */
  lemma NextAfterInstant(zone: int, t: TimeOfDay, first: int, k: nat, now: nat)
    requires (exists d :: first == Instant(zone, t, d)) && now >= first + k * ONE_DAY
    ensures NextInstant(zone, t, now) >= first + (k + 1) * ONE_DAY
    ensures Seconds(t) <= DAY_SECONDS && now < first + (k + 1) * ONE_DAY ==> NextInstant(zone, t, now) == first + (k + 1) * ONE_DAY
  {
    var d :| first == Instant(zone, t, d);
    assert Instant(zone, t, d + k) == first + k * ONE_DAY;
    assert Instant(zone, t, d + (k + 1)) == first + (k + 1) * ONE_DAY;
    NextIsAfter(zone, t, now);
    var e :| NextInstant(zone, t, now) == Instant(zone, t, e);
    InstantOrder(zone, t, d + k, e);
    InstantOrder(zone, t, e, d + k);
    InstantOrder(zone, t, d + (k + 1), e);
    InstantOrder(zone, t, e, d + (k + 1));
    if Seconds(t) <= DAY_SECONDS { NextIsLeast(zone, t, now); }
  }

  /** The i-th run (from 0) comes after i + 1 scheduled instants have passed. */
  lemma {:induction false} RateBound(zone: int, t: TimeOfDay, start: nat, s: State, i: nat)
    requires Steady(zone, t, start, s) && i < |s.runs|
    ensures s.runs[i].at >= NextInstant(zone, t, start) + i * ONE_DAY
  {
    NextIsAfter(zone, t, start);
    if i > 0 {
      RateBound(zone, t, start, s, i - 1);
      NextAfterInstant(zone, t, NextInstant(zone, t, start), i - 1, s.runs[i - 1].at);
    }
  }

  lemma SteadyRuns(zone: int, t: TimeOfDay, start: nat, s: State, i: nat)
    requires Steady(zone, t, start, s) && i < |s.runs|
    ensures InstantBetween(zone, t, ReadingBefore(start, s.runs, i), s.runs[i].at)
  {
    var plan := s.runs[i].plan;
    assert plan == Plan(ReadingBefore(start, s.runs, i), t) && OnTime(zone, s.runs[i]);
    NextIsAfter(zone, t, plan.at);
  }

  /** However often the waiter postpones: between two runs a scheduled instant passes,
      and there are never more runs than scheduled instants. */
  lemma AtMostOncePerInstant(zone: int, t: TimeOfDay, reset: bool, start: nat, passes: seq<Pass>, i: nat)
    requires Quiet(passes) && Plausible(zone, Start(zone, t, reset, start), passes)
    requires i < |Behave(zone, Start(zone, t, reset, start), passes).runs|
    ensures var runs := Behave(zone, Start(zone, t, reset, start), passes).runs;
      && InstantBetween(zone, t, ReadingBefore(start, runs, i), runs[i].at)
      && runs[i].at >= NextInstant(zone, t, start) + i * ONE_DAY
  {
    var s := Start(zone, t, reset, start);
    StaysSteady(zone, t, start, s, passes);
    RateBound(zone, t, start, Behave(zone, s, passes), i);
    SteadyRuns(zone, t, start, Behave(zone, s, passes), i);
  }

  predicate EachDayServed(zone: int, t: TimeOfDay, start: nat, runs: seq<TaskRun>) {
    forall i :: 0 <= i < |runs| ==>
      NextInstant(zone, t, start) + i * ONE_DAY <= runs[i].at < NextInstant(zone, t, start) + (i + 1) * ONE_DAY
  }

  predicate AllPrompt(zone: int, runs: seq<TaskRun>) {
    forall i :: 0 <= i < |runs| ==> runs[i].at < Due(zone, runs[i].plan) + ONE_DAY
  }

  /** The j-th run is not early, and less than a day late by its own plan or by the count of days. */
  predicate InTime(zone: int, first: int, run: TaskRun, j: nat) {
    first + j * ONE_DAY <= run.at && (run.at < Due(zone, run.plan) + ONE_DAY || run.at < first + (j + 1) * ONE_DAY)
  }

  lemma {:induction false} DueOfRun(zone: int, t: TimeOfDay, start: nat, runs: seq<TaskRun>, i: nat)
    requires Chained(t, start, runs) && i < |runs| && Seconds(t) <= DAY_SECONDS
    requires forall j: nat {:trigger InTime(zone, NextInstant(zone, t, start), runs[j], j)} :: j < i ==>
      InTime(zone, NextInstant(zone, t, start), runs[j], j)
    ensures Due(zone, runs[i].plan) == NextInstant(zone, t, start) + i * ONE_DAY
  {
    if i > 0 {
      var run := runs[i - 1];
      DueOfRun(zone, t, start, runs, i - 1);
      DueNext(zone, t, start, run, i - 1);
      assert runs[i].plan == Plan(run.at, t);
    }
  }

  lemma DueNext(zone: int, t: TimeOfDay, start: nat, run: TaskRun, k: nat)
    requires Seconds(t) <= DAY_SECONDS && InTime(zone, NextInstant(zone, t, start), run, k)
    requires Due(zone, run.plan) == NextInstant(zone, t, start) + k * ONE_DAY
    ensures NextInstant(zone, t, run.at) == NextInstant(zone, t, start) + (k + 1) * ONE_DAY
  {
    NextIsAfter(zone, t, start);
    NextAfterInstant(zone, t, NextInstant(zone, t, start), k, run.at);
  }

  lemma {:induction false} ServedIffPrompt(zone: int, t: TimeOfDay, start: nat, s: State)
    requires Steady(zone, t, start, s) && Seconds(t) <= DAY_SECONDS
    ensures EachDayServed(zone, t, start, s.runs) <==> AllPrompt(zone, s.runs)
  {
    if EachDayServed(zone, t, start, s.runs) || AllPrompt(zone, s.runs) {
      var first := NextInstant(zone, t, start);
      forall j: nat | j < |s.runs| ensures InTime(zone, first, s.runs[j], j) { RateBound(zone, t, start, s, j); }
      forall i | 0 <= i < |s.runs| ensures Due(zone, s.runs[i].plan) == first + i * ONE_DAY {
        DueOfRun(zone, t, start, s.runs, i);
      }
    }
  }

  /** Exactly when no run is a day late is every day served by its own run. */
  lemma EachDayServedIff(zone: int, t: TimeOfDay, reset: bool, start: nat, passes: seq<Pass>)
    requires Quiet(passes) && Plausible(zone, Start(zone, t, reset, start), passes) && Seconds(t) <= DAY_SECONDS
    ensures var runs := Behave(zone, Start(zone, t, reset, start), passes).runs;
      EachDayServed(zone, t, start, runs) <==> AllPrompt(zone, runs)
  {
    var s := Start(zone, t, reset, start);
    StaysSteady(zone, t, start, s, passes);
    ServedIffPrompt(zone, t, start, Behave(zone, s, passes));
  }

  // ------------------------------------------------------ schedule changes heeded

  /** The deadline that the pass waits for belongs to the schedule in force during the wait. */
  predicate WaitsInForce(s: State, p: Pass) { s.postponed || s.plan.time == Latest(s.time, p.before) }

  /** The last call after the planning of one pass and before the flag is cleared by the
      next, if any, asks for what has just been planned. */
  predicate NothingMissed(planned: TimeOfDay, p: Pass, q: Pass) {
    Latest(Latest(planned, p.planned), q.before) == planned
  }

  /** Exactly which calls are missed by the next wait. */
  lemma WaitInForceIff(zone: int, s: State, p: Pass, q: Pass)
    ensures WaitsInForce(Step(zone, s, p), q) <==> !p.free || NothingMissed(TimeToPlan(s.time, p), p, q)
  {
  }

  /** Every wait is for the schedule in force. */
  predicate AllInForce(zone: int, s: State, passes: seq<Pass>)
    decreases |passes|
  {
    passes == [] || s.quit || (WaitsInForce(s, passes[0]) && AllInForce(zone, Step(zone, s, passes[0]), passes[1..]))
  }

  /** The schedule in force after a pass; only a pass with a planning has the last window. */
  function TimeAfter(t: TimeOfDay, p: Pass): TimeOfDay {
    if p.free then Latest(TimeToPlan(t, p), p.planned) else TimeToPlan(t, p)
  }

  /** No call between a planning and the next clearing of the flag asks for anything
      but what was planned - a condition on the calls alone. */
  predicate NoneMissed(t: TimeOfDay, passes: seq<Pass>)
    decreases |passes|
  {
    |passes| < 2 ||
    ((passes[0].free ==> NothingMissed(TimeToPlan(t, passes[0]), passes[0], passes[1]))
     && NoneMissed(TimeAfter(t, passes[0]), passes[1..]))
  }

  predicate NoneQuits(passes: seq<Pass>) { forall i :: 0 <= i < |passes| ==> !passes[i].quits }

  lemma {:induction false} InForceFrom(zone: int, s: State, passes: seq<Pass>)
    requires !s.quit && NoneQuits(passes)
    ensures AllInForce(zone, s, passes) <==> (passes != [] ==> WaitsInForce(s, passes[0])) && NoneMissed(s.time, passes)
    decreases |passes|
  {
    if passes != [] {
      var s' := Step(zone, s, passes[0]);
      assert !passes[0].quits && s'.time == TimeAfter(s.time, passes[0]);
      assert NoneQuits(passes[1..]);
      InForceFrom(zone, s', passes[1..]);
      if |passes| > 1 { WaitInForceIff(zone, s, passes[0], passes[1]); }
    }
  }

  /** Exactly when every wait of a run is for the schedule in force at that moment: no
      call falls, with a new schedule, after a planning and before the next clearing. */
  lemma HeededIff(zone: int, t: TimeOfDay, reset: bool, start: nat, passes: seq<Pass>)
    requires NoneQuits(passes)
    ensures AllInForce(zone, Start(zone, t, reset, start), passes) <==>
      (passes != [] ==> Latest(t, passes[0].before) == t) && NoneMissed(t, passes)
  {
    InForceFrom(zone, Start(zone, t, reset, start), passes);
  }

  /** `DoTask` as it is wired up: every run sets the schedule to t. */
  predicate SetsFromTask(t: TimeOfDay, passes: seq<Pass>) {
    forall i :: 0 <= i < |passes| ==>
      && passes[i].waiting == passes[i].woken == passes[i].planned == None
      && (i > 0 ==> passes[i].before == if passes[i - 1].free then Some(t) else None)
  }

  /** The schedules by which the runs were planned. */
  predicate OneRunLate(t1: TimeOfDay, t2: TimeOfDay, s: State) {
    && (forall i :: 0 <= i < |s.runs| ==> s.runs[i].plan.time == if i <= 1 then t1 else t2)
    && s.plan.time == (if |s.runs| <= 1 then t1 else t2)
  }

  lemma {:induction false} SetFromTaskTakesEffectLate(zone: int, t1: TimeOfDay, t2: TimeOfDay, s: State, passes: seq<Pass>)
    requires OneRunLate(t1, t2, s) && SetsFromTask(t2, passes)
    requires passes != [] ==> Latest(s.time, passes[0].before) == if s.runs == [] then t1 else t2
    ensures OneRunLate(t1, t2, Behave(zone, s, passes))
    decreases |passes|
  {
    if passes != [] && !s.quit {
      var p, s' := passes[0], Step(zone, s, passes[0]);
      assert p.waiting == p.woken == p.planned == None;
      assert s'.runs == if p.free then s.runs + [TaskRun(p.readAt, s.plan)] else s.runs;
      if |passes| > 1 { assert passes[1].before == if p.free then Some(t2) else None; }
      assert SetsFromTask(t2, passes[1..]);
      SetFromTaskTakesEffectLate(zone, t1, t2, s', passes[1..]);
    }
  }

  // --------------------------------------------------------------------- quitting

  /** The destructor's notification does not end the wait, which does not look at the
      flag: a pass in which it is called, without a call of `SetScheduleTime`, ends no
      earlier than the deadline, and still enters `DoTask` when the waiter is free. It
      is the last pass. */
  lemma QuitWaitsForDeadline(zone: int, s: State, p: Pass, more: seq<Pass>)
    requires !s.quit && p.quits && Possible(s, p)
    requires p.before == p.waiting == p.woken == p.planned == None
    ensures var end := Behave(zone, s, [p] + more);
      && end.quit && end.clock >= s.next
      && end.runs == if p.free then s.runs + [TaskRun(p.readAt, s.plan)] else s.runs
  {
    assert ([p] + more)[1..] == more;
  }

  /** A pass that is not told to quit, and the same pass told to: the same wait, the same run. */
  lemma {:induction false} QuitEndsOnlyTheLoop(zone: int, s: State, passes: seq<Pass>, k: nat)
    requires k < |passes| && NoneQuits(passes) && !s.quit && Plausible(zone, s, passes)
    ensures var told := passes[k := passes[k].(quits := true)];
      Plausible(zone, s, told) && Behave(zone, s, told) == Behave(zone, s, passes[..k + 1]).(quit := true)
    decreases |passes|
  {
    var told := passes[k := passes[k].(quits := true)];
    assert !passes[0].quits;
    var s' := Step(zone, s, passes[0]);
    assert passes[..k + 1][1..] == passes[1..][..k];
    if k == 0 {
      assert Behave(zone, s', []) == s';
      assert Step(zone, s, told[0]) == s'.(quit := true);
    } else {
      assert told[1..] == passes[1..][k - 1 := passes[1..][k - 1].(quits := true)];
      assert NoneQuits(passes[1..]);
      QuitEndsOnlyTheLoop(zone, s', passes[1..], k - 1);
    }
  }
}
