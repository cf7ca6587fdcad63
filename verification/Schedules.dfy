/** Schedule arithmetic (`schedules.py`). Time is in microseconds; every zone has a fixed offset;
    zone names, cron validity and the next cron instant are parameters. */
module Schedules {
  import opened Wrappers
  import opened Texts

  const SECOND := 1_000_000
  const MINUTE := 60 * SECOND
  const DAY := 1440 * MINUTE
  const MIN_INTERVAL_SECONDS := 60
  const FALLBACK_ZONE := "Asia/Bangkok"

  datatype Environment = Environment(
    zone: string -> Option<int>,
    cronValid: string -> bool,
    cronNext: (string, int) -> int)
  {
    /** A cron iterator always moves on. */
    ghost predicate CronAdvances() {
      forall e, t :: t < cronNext(e, t)
    }
  }

  /** A schedule configuration, before or after normalizing. */
  datatype Config = Config(
    scheduleType: Option<string>,
    timezone: Option<string>,
    overlapPolicy: Option<string>,
    intervalSeconds: Option<int>,
    timeOfDay: Option<string>,
    cronExpression: Option<string>)

  function ResolveZone(env: Environment, name: Option<string>): Option<int> {
    env.zone(OrDefault(name, FALLBACK_ZONE))
  }

  /** Hour and minute of `HH:MM`; `None` is the ValueError. */
  function ParseTime(raw: string): Option<(nat, nat)> {
    match SplitColon(raw)
    case None => None
    case Some((h, m)) =>
      match (ParseInt(h), ParseInt(m))
      case (Some(hour), Some(minute)) =>
        if 0 <= hour < 24 && 0 <= minute < 60 then Some((hour, minute)) else None
      case _ => None
  }

  lemma {:induction false} NoColonNoSplit(s: string)
    ensures ':' !in s ==> SplitColon(s) == None
  {
    if s != "" {
      NoColonNoSplit(s[1..]);
    }
  }

  function ClockText(hour: nat, minute: nat): string
    requires hour < 24 && minute < 60
  {
    TwoDigits(hour) + ":" + TwoDigits(minute)
  }

  lemma ClockTextParses(hour: nat, minute: nat)
    requires hour < 24 && minute < 60
    ensures ParseTime(ClockText(hour, minute)) == Some((hour, minute))
  {
    TwoDigitsParse(hour);
    TwoDigitsParse(minute);
    SplitAtColon(TwoDigits(hour), TwoDigits(minute));
  }

  /** `validate`: what to persist, or the SCHEDULE_INVALID error. */
  function Validate(env: Environment, config: Config, workspaceZone: string): Option<Config> {
    var kind := Upper(OrDefault(config.scheduleType, "INTERVAL"));
    var zoneName := OrDefault(config.timezone, workspaceZone);
    if kind !in {"INTERVAL", "DAILY", "CRON"} || ResolveZone(env, Some(zoneName)).None? then None else
      var normalized := Config(
        Some(kind), Some(zoneName), Some(OrDefault(config.overlapPolicy, "SKIP_IF_RUNNING")), None, None, None);
      if kind == "INTERVAL" then
        var seconds := config.intervalSeconds.GetOr(0);
        if seconds < MIN_INTERVAL_SECONDS then None else Some(normalized.(intervalSeconds := Some(seconds)))
      else if kind == "DAILY" then
        match ParseTime(OrDefault(config.timeOfDay, "02:00"))
        case None => None
        case Some((hour, minute)) => Some(normalized.(timeOfDay := Some(ClockText(hour, minute))))
      else
        var expression := Strip(config.cronExpression.GetOr(""));
        if env.cronValid(expression) then Some(normalized.(cronExpression := Some(expression))) else None
  }

  /** `Invalid` is the service's own error, `Crash` any other exception. */
  datatype NextRun = At(time: int) | Invalid | Crash

  /** The first instant after `local` with a given clock reading, in local time. */
  function NextAtClock(local: int, clock: int): int {
    var candidate := local - local % DAY + clock;
    if candidate <= local then candidate + DAY else candidate
  }

  function NextDaily(base: int, offset: int, hour: nat, minute: nat): int {
    NextAtClock(base + offset, (hour * 60 + minute) * MINUTE) - offset
  }

  function NextRunAt(env: Environment, config: Config, base: int): NextRun {
    var kind := OrDefault(config.scheduleType, "INTERVAL");
    if kind !in {"INTERVAL", "DAILY", "CRON"} then Crash else
      match ResolveZone(env, config.timezone)
      case None => Invalid
      case Some(offset) =>
        if kind == "INTERVAL" then
          var seconds := config.intervalSeconds.GetOr(0);
          At(base + (if seconds == 0 then 3600 else seconds) * SECOND)
        else if kind == "DAILY" then
          match ParseTime(OrDefault(config.timeOfDay, "02:00"))
          case None => Crash
          case Some((hour, minute)) => At(NextDaily(base, offset, hour, minute))
        else if config.cronExpression.None? then Crash
        else At(env.cronNext(config.cronExpression.value, base + offset) - offset)
  }

  // ---- what validated configurations promise ----

  /** Validating what validation returned changes nothing. */
  lemma ValidateIdempotent(env: Environment, config: Config, workspaceZone: string)
    ensures var once := Validate(env, config, workspaceZone);
      once.Some? ==> Validate(env, once.value, workspaceZone) == once
  {
    var kind := Upper(OrDefault(config.scheduleType, "INTERVAL"));
    assert Upper("INTERVAL") == "INTERVAL" && Upper("DAILY") == "DAILY" && Upper("CRON") == "CRON";
    if kind == "DAILY" && ParseTime(OrDefault(config.timeOfDay, "02:00")).Some? {
      var (hour, minute) := ParseTime(OrDefault(config.timeOfDay, "02:00")).value;
      ClockTextParses(hour, minute);
    }
  }

  /** `u` shows this clock reading, in microseconds since local midnight. */
  predicate Shows(u: int, offset: int, clock: int) {
    (u + offset) % DAY == clock
  }

  lemma DayAndClock(t: int)
    ensures t == t / DAY * DAY + t % DAY && 0 <= t % DAY < DAY
  {
  }

  lemma ClockReading(day: int, clock: int)
    requires 0 <= clock < DAY
    ensures (day * DAY + clock) % DAY == clock
  {
  }

  lemma LaterDay(a: int, b: int)
    requires a < b
    ensures a / DAY <= b / DAY
  {
    DayAndClock(a);
    DayAndClock(b);
  }

  lemma NextAtClockShows(local: int, clock: int)
    requires 0 <= clock < DAY
    ensures local < NextAtClock(local, clock) <= local + DAY && NextAtClock(local, clock) % DAY == clock
  {
    DayAndClock(local);
    ClockReading(local / DAY, clock);
    ClockReading(local / DAY + 1, clock);
  }

  lemma NextAtClockIsLeast(local: int, clock: int, later: int)
    requires 0 <= clock < DAY && local < later && later % DAY == clock
    ensures NextAtClock(local, clock) <= later
  {
    DayAndClock(local);
    DayAndClock(later);
    LaterDay(local, later);
    assert later / DAY > local / DAY ==> later / DAY * DAY >= local / DAY * DAY + DAY;
  }

  /** In its zone a daily schedule fires at the least later instant with that wall-clock time. */
  lemma DailyIsLeastLater(base: int, offset: int, hour: nat, minute: nat)
    requires hour < 24 && minute < 60
    ensures var t := NextDaily(base, offset, hour, minute);
      var clock := (hour * 60 + minute) * MINUTE;
      && base < t <= base + DAY
      && Shows(t, offset, clock)
      && forall u :: base < u && Shows(u, offset, clock) ==> t <= u
  {
    var clock := (hour * 60 + minute) * MINUTE;
    assert clock < DAY;
    NextAtClockShows(base + offset, clock);
    forall u | base < u && Shows(u, offset, clock) ensures NextDaily(base, offset, hour, minute) <= u {
      NextAtClockIsLeast(base + offset, clock, u + offset);
    }
  }

  /** The shape of what validation returns. */
  predicate IsNormalized(config: Config) {
    match OrDefault(config.scheduleType, "")
    case "INTERVAL" => config.intervalSeconds.GetOr(0) >= MIN_INTERVAL_SECONDS
    case "DAILY" => ParseTime(OrDefault(config.timeOfDay, "")).Some?
    case "CRON" => config.cronExpression.Some?
    case _ => false
  }

  lemma ValidateNormalizes(env: Environment, config: Config, workspaceZone: string)
    ensures var normalized := Validate(env, config, workspaceZone);
      normalized.Some? ==> IsNormalized(normalized.value) && ResolveZone(env, normalized.value.timezone).Some?
  {
    var time := ParseTime(OrDefault(config.timeOfDay, "02:00"));
    if time.Some? {
      ClockTextParses(time.value.0, time.value.1);
    }
  }

  lemma DailyRunsLater(env: Environment, config: Config, base: int)
    requires config.scheduleType == Some("DAILY") && ParseTime(OrDefault(config.timeOfDay, "")).Some?
    ensures var next := NextRunAt(env, config, base);
      if ResolveZone(env, config.timezone).None? then next == Invalid else next.At? && base < next.time
  {
    assert OrDefault(config.timeOfDay, "") != "" by {
      assert SplitColon("") == None;
    }
    var time := ParseTime(OrDefault(config.timeOfDay, "")).value;
    if ResolveZone(env, config.timezone).Some? {
      DailyIsLeastLater(base, ResolveZone(env, config.timezone).value, time.0, time.1);
    }
  }

  /** Computing a normalized schedule's next run never crashes: it is strictly after its base,
      and it fails exactly when the zone no longer resolves. */
  lemma NormalizedRunsLater(env: Environment, config: Config, base: int)
    requires env.CronAdvances() && IsNormalized(config)
    ensures var next := NextRunAt(env, config, base);
      if ResolveZone(env, config.timezone).None? then next == Invalid else next.At? && base < next.time
  {
    if config.scheduleType == Some("DAILY") {
      DailyRunsLater(env, config, base);
    }
  }

  // ---- when a validated schedule runs next ----

  /** The kind a raw configuration asks for, in capitals. */
  function KindAsked(config: Config): string {
    Upper(if config.scheduleType.Some? && config.scheduleType.value != "" then config.scheduleType.value else "INTERVAL")
  }

  /** Its own zone, else the workspace's, else Bangkok. */
  function ZoneInForce(config: Config, workspaceZone: string): string {
    if config.timezone.Some? && config.timezone.value != "" then config.timezone.value
    else if workspaceZone != "" then workspaceZone
    else "Asia/Bangkok"
  }

  /** `HH:MM` is read as two decimal numbers within a day; without a colon it is not read. */
  lemma ParseTimeMeans(hour: nat, minute: nat, raw: string)
    ensures ParseTime(Decimal(hour) + ":" + Decimal(minute)) ==
      if hour < 24 && minute < 60 then Some((hour, minute)) else None
    ensures ':' !in raw ==> ParseTime(raw) == None
  {
    DecimalParses(hour);
    DecimalParses(minute);
    SplitAtColon(Decimal(hour), Decimal(minute));
    NoColonNoSplit(raw);
  }

  /** An interval runs exactly its seconds after its base. */
  lemma IntervalRunsNext(env: Environment, config: Config, workspaceZone: string, base: int)
    requires Validate(env, config, workspaceZone).Some? && KindAsked(config) == "INTERVAL"
    ensures config.intervalSeconds.Some? && config.intervalSeconds.value >= 60
    ensures NextRunAt(env, Validate(env, config, workspaceZone).value, base) ==
      At(base + config.intervalSeconds.value * 1_000_000)
  {
  }

  /** A configuration without a kind or a period, as none was ever validated, runs hourly in the zone
      it names, else Bangkok's. */
  lemma UncheckedRunsHourly(env: Environment, config: Config, base: int)
    requires config.scheduleType in {None, Some("INTERVAL")} && config.intervalSeconds in {None, Some(0)}
    ensures NextRunAt(env, config, base) ==
      if env.zone(ZoneInForce(config, "")).Some? then At(base + 3_600_000_000) else Invalid
  {
  }

  /** A daily schedule runs at the least later instant that shows its hour and minute in its zone. */
  lemma DailyRunsNext(env: Environment, config: Config, workspaceZone: string, base: int, offset: int, hour: nat, minute: nat)
    requires Validate(env, config, workspaceZone).Some? && KindAsked(config) == "DAILY"
    requires env.zone(ZoneInForce(config, workspaceZone)) == Some(offset)
    requires ParseTime(if config.timeOfDay.Some? && config.timeOfDay.value != "" then config.timeOfDay.value else "02:00")
      == Some((hour, minute))
    ensures var next := NextRunAt(env, Validate(env, config, workspaceZone).value, base);
      var clock := (hour * 60 + minute) * 60_000_000;
      && next.At? && base < next.time <= base + 86_400_000_000
      && Shows(next.time, offset, clock)
      && forall u :: base < u && Shows(u, offset, clock) ==> next.time <= u
  {
    ClockTextParses(hour, minute);
    DailyIsLeastLater(base, offset, hour, minute);
    var normalized := Validate(env, config, workspaceZone).value;
    assert ResolveZone(env, normalized.timezone) == Some(offset);
    assert normalized.timeOfDay == Some(ClockText(hour, minute));
  }

  /** A cron schedule runs at the cron successor of its base, both as its zone's clock shows them. */
  lemma CronRunsNext(env: Environment, config: Config, workspaceZone: string, base: int, offset: int)
    requires Validate(env, config, workspaceZone).Some? && KindAsked(config) == "CRON"
    requires env.zone(ZoneInForce(config, workspaceZone)) == Some(offset)
    ensures var next := NextRunAt(env, Validate(env, config, workspaceZone).value, base);
      var expression := Strip(config.cronExpression.GetOr(""));
      env.cronValid(expression) && next.At? && next.time + offset == env.cronNext(expression, base + offset)
  {
  }

  /** What is accepted: one of the three kinds, a zone that resolves, and a period, a time or an
      expression that the kind allows. */
  lemma AcceptedSchedules(env: Environment, config: Config, workspaceZone: string)
    ensures Validate(env, config, workspaceZone).Some? <==>
      && env.zone(ZoneInForce(config, workspaceZone)).Some?
      && (|| (KindAsked(config) == "INTERVAL" && config.intervalSeconds.Some? && config.intervalSeconds.value >= 60)
          || (KindAsked(config) == "DAILY"
              && ParseTime(if config.timeOfDay.Some? && config.timeOfDay.value != "" then config.timeOfDay.value else "02:00").Some?)
          || (KindAsked(config) == "CRON" && env.cronValid(Strip(config.cronExpression.GetOr("")))))
  {
  }

  /** The overlap policy is the one asked for, or to skip. */
  lemma ValidateKeepsPolicy(env: Environment, config: Config, workspaceZone: string)
    requires Validate(env, config, workspaceZone).Some?
    ensures Validate(env, config, workspaceZone).value.overlapPolicy ==
      if config.overlapPolicy.Some? && config.overlapPolicy.value != "" then config.overlapPolicy else Some("SKIP_IF_RUNNING")
  {
  }

  // ---- previews ----

  /** Whenever a next run exists, it is later than its base. */
  ghost predicate AlwaysAdvances(env: Environment, config: Config) {
    forall base :: NextRunAt(env, config, base).At? && base < NextRunAt(env, config, base).time
  }

  function LastOr(start: int, times: seq<int>): int {
    if times == [] then start else times[|times| - 1]
  }

  /** Each time is the next run computed from the one before it. */
  predicate Chained(env: Environment, config: Config, start: int, times: seq<int>) {
    times == [] ||
    var front := times[..|times| - 1];
    Chained(env, config, start, front) && NextRunAt(env, config, LastOr(start, front)) == At(times[|times| - 1])
  }

  lemma {:induction false} ChainIncreases(env: Environment, config: Config, start: int, times: seq<int>)
    requires AlwaysAdvances(env, config) && Chained(env, config, start, times)
    ensures forall i :: 0 <= i < |times| ==> start < times[i]
    ensures forall i, j :: 0 <= i < j < |times| ==> times[i] < times[j]
  {
    if times != [] {
      ChainIncreases(env, config, start, times[..|times| - 1]);
    }
  }

  /** The next fire times shown in the editor; `None` when computing one raises. */
  method PreviewRuns(env: Environment, config: Config, now: int, count: int) returns (times: Option<seq<int>>)
    ensures times.Some? ==>
      |times.value| == (if count < 1 then 1 else count) && Chained(env, config, now, times.value)
    ensures times.None? ==>
      exists done :: Chained(env, config, now, done) && !NextRunAt(env, config, LastOr(now, done)).At?
    ensures AlwaysAdvances(env, config) ==>
      times.Some? && forall i, j :: 0 <= i < j < |times.value| ==> now < times.value[i] < times.value[j]
  {
    var out: seq<int> := [];
    var cursor := now;
    for k := 0 to if count < 1 then 1 else count
      invariant |out| == k && cursor == LastOr(now, out) && Chained(env, config, now, out)
    {
      var next := NextRunAt(env, config, cursor);
      if !next.At? {
        return None;
      }
      cursor := next.time;
      assert (out + [cursor])[..k] == out;
      out := out + [cursor];
    }
    if AlwaysAdvances(env, config) {
      ChainIncreases(env, config, now, out);
    }
    times := Some(out);
  }

  /** So every validated schedule previews strictly increasing times. */
  lemma ValidatedAlwaysAdvances(env: Environment, config: Config, workspaceZone: string)
    requires env.CronAdvances() && Validate(env, config, workspaceZone).Some?
    ensures AlwaysAdvances(env, Validate(env, config, workspaceZone).value)
  {
    var normalized := Validate(env, config, workspaceZone).value;
    ValidateNormalizes(env, config, workspaceZone);
    forall base ensures NextRunAt(env, normalized, base).At? && base < NextRunAt(env, normalized, base).time {
      NormalizedRunsLater(env, normalized, base);
    }
  }
}
