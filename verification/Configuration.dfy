/** Configuration from the Python client (_client.py) through the command line (lib.rs) to the policy
    machine and the sampler (runtime.rs): bounds, bands, quality windows and defaults. */
module Configuration {
  import opened Common
  import opened Quantities
  import Policy
  import Sampling
  import Report

  const MS: nat := 1_000_000
  const MAX_WALL_TIME_MS: nat := 2_592_000_000
  const MIN_CHECKPOINT_TIMEOUT_MS: nat := 10
  const MAX_CHECKPOINT_TIMEOUT_MS: nat := 60_000
  const MIN_SAMPLE_WINDOW: Duration := 250 * MS
  const MIN_SAMPLE_AGE: Duration := 500 * MS
  const REQUIRED_BREACH_SAMPLES: u32 := 2
  const MAX_MISSING_SAMPLES: u32 := 3
  const DEFAULT_CHECKPOINT_TIMEOUT: Duration := 1000 * MS
  const TERM_GRACE: Duration := 1000 * MS
  const DEFAULT_SAMPLE_INTERVAL: Duration := 50 * MS
  const CHECKPOINT_FD_ENV: string := "MLX_GUARD_CHECKPOINT_FD"
  const I32_MAX: nat := 0x7FFF_FFFF

  // ---- The Python client ----

  /** A `RunConfig` after its own normalization: paths as their text, which is never empty. */
  datatype RunConfig = RunConfig(
    command: seq<string>, report: string, maxFootprintBytes: int, sampleIntervalMs: int, wallTimeMs: Option<int>,
    checkpointTimeoutMs: Option<int>, cwd: Option<string>, clearEnv: bool, env: seq<(string, string)>,
    onParentExit: Option<string>)

  /** The numeric checks of `__post_init__` and `_validate_common`; Python floors its division. */
  predicate ClientNumbers(c: RunConfig) {
    && 10 <= c.sampleIntervalMs <= 10_000
    && 2 <= c.maxFootprintBytes <= U64_MAX
    && c.maxFootprintBytes + Max(c.maxFootprintBytes / 10, 1) <= U64_MAX
    && (c.wallTimeMs.Some? ==> 1 <= c.wallTimeMs.value <= MAX_WALL_TIME_MS)
    && (c.checkpointTimeoutMs.Some? ==>
          MIN_CHECKPOINT_TIMEOUT_MS <= c.checkpointTimeoutMs.value <= MAX_CHECKPOINT_TIMEOUT_MS)
  }

  predicate NulFree(s: string) {
    '\0' !in s
  }

  predicate ClientEnv(env: seq<(string, string)>) {
    && (forall i :: 0 <= i < |env| ==>
          env[i].0 != "" && '=' !in env[i].0 && NulFree(env[i].0) && NulFree(env[i].1)
          && env[i].0 != CHECKPOINT_FD_ENV)
    && (forall i, j :: 0 <= i < j < |env| ==> env[i].0 != env[j].0)
  }

  predicate ClientAccepts(c: RunConfig) {
    && ClientNumbers(c) && ClientEnv(c.env)
    && c.command != [] && (forall i :: 0 <= i < |c.command| ==> NulFree(c.command[i]))
    && c.report != "" && NulFree(c.report)
    && (c.cwd.Some? ==> c.cwd.value != "" && NulFree(c.cwd.value))
    && (c.onParentExit.Some? ==> c.onParentExit.value == "terminate" || c.onParentExit.value == "detach")
  }

  /** A Python integer as text. */
  function Text(i: int): string {
    if i < 0 then "-" + Render(-i) else Render(i)
  }

  function EnvFlags(env: seq<(string, string)>): seq<string> {
    if env == [] then []
    else EnvFlags(env[..|env| - 1]) + ["--env", env[|env| - 1].0 + "=" + env[|env| - 1].1]
  }

  function Flag(name: string, value: Option<string>): seq<string> {
    if value.Some? then [name, value.value] else []
  }

  function Suffixed(i: Option<int>, suffix: string): Option<string> {
    if i.Some? then Some(Text(i.value) + suffix) else None
  }

  /** Everything after the executable and the command word, in the order it is written. */
  function Arguments(c: RunConfig, readyFd: Option<int>): seq<string> {
    Flag("--max-footprint", Some(Text(c.maxFootprintBytes) + "B"))
    + (Flag("--wall-time", Suffixed(c.wallTimeMs, "ms"))
       + (Flag("--checkpoint-timeout", Suffixed(c.checkpointTimeoutMs, "ms"))
          + (Flag("--sample-interval", Some(Text(c.sampleIntervalMs) + "ms"))
             + (Flag("--report", Some(c.report)) + OtherArguments(c, readyFd)))))
  }

  function OtherArguments(c: RunConfig, readyFd: Option<int>): seq<string> {
    Flag("--client-ready-fd", Suffixed(readyFd, ""))
    + (Flag("--cwd", c.cwd)
       + ((if c.clearEnv then ["--clear-env"] else [])
          + (EnvFlags(c.env) + (Flag("--on-parent-exit", c.onParentExit) + (["--"] + c.command)))))
  }

  /** Appending a part moves it from what is still to come to what is written. */
  lemma Moves(written: seq<string>, part: seq<string>, rest: seq<string>)
    ensures (written + part) + rest == written + (part + rest)
  {
  }

  method ArgvFor(executable: string, c: RunConfig, readyFd: Option<int>) returns (argv: seq<string>)
    ensures argv == [executable, "run"] + Arguments(c, readyFd)
  {
    hide Text, Flag;
    var footprint := Flag("--max-footprint", Some(Text(c.maxFootprintBytes) + "B"));
    var wall := Flag("--wall-time", Suffixed(c.wallTimeMs, "ms"));
    var timeout := Flag("--checkpoint-timeout", Suffixed(c.checkpointTimeoutMs, "ms"));
    var interval := Flag("--sample-interval", Some(Text(c.sampleIntervalMs) + "ms"));
    var report := Flag("--report", Some(c.report));
    ghost var others := OtherArguments(c, readyFd);
    argv := [executable, "run"];
    Moves(argv, footprint, wall + (timeout + (interval + (report + others))));
    argv := argv + footprint;
    Moves(argv, wall, timeout + (interval + (report + others)));
    argv := argv + wall;
    Moves(argv, timeout, interval + (report + others));
    argv := argv + timeout;
    Moves(argv, interval, report + others);
    argv := argv + interval;
    Moves(argv, report, others);
    argv := argv + report;
    argv := AppendOthers(argv, c, readyFd);
  }

  method AppendOthers(start: seq<string>, c: RunConfig, readyFd: Option<int>) returns (argv: seq<string>)
    ensures argv == start + OtherArguments(c, readyFd)
  {
    hide Text, Flag;
    var descriptor := Flag("--client-ready-fd", Suffixed(readyFd, ""));
    var cwd := Flag("--cwd", c.cwd);
    var cleared := if c.clearEnv then ["--clear-env"] else [];
    var onExit := Flag("--on-parent-exit", c.onParentExit);
    ghost var ending := onExit + (["--"] + c.command);
    argv := start;
    Moves(argv, descriptor, cwd + (cleared + (EnvFlags(c.env) + ending)));
    argv := argv + descriptor;
    Moves(argv, cwd, cleared + (EnvFlags(c.env) + ending));
    argv := argv + cwd;
    Moves(argv, cleared, EnvFlags(c.env) + ending);
    argv := argv + cleared;
    ghost var before := argv;
    for i := 0 to |c.env|
      invariant argv == before + EnvFlags(c.env[..i])
    {
      assert c.env[..i + 1][..i] == c.env[..i];
      argv := argv + ["--env", c.env[i].0 + "=" + c.env[i].1];
    }
    assert c.env[..|c.env|] == c.env;
    Moves(before, EnvFlags(c.env), ending);
    Moves(argv, onExit, ["--"] + c.command);
    argv := argv + onExit;
    Moves(argv, ["--"], c.command);
    argv := argv + ["--"];
    argv := argv + c.command;
  }

  // ---- The command line ----

  /** Values that begin with a hyphen are taken for other flags; a lone hyphen is a value. */
  predicate HyphenLed(value: string) {
    |value| > 1 && value[0] == '-'
  }

  predicate TakesValue(name: string) {
    || name == "--max-footprint" || name == "--wall-time" || name == "--checkpoint-timeout"
    || name == "--sample-interval" || name == "--report" || name == "--client-ready-fd" || name == "--cwd"
    || name == "--env" || name == "--on-parent-exit"
  }

  /** What stands on the line: the flags with their values, how often the environment is cleared, and the
      command after the separator. */
  datatype Scanned = Scanned(values: seq<(string, string)>, cleared: nat, command: seq<string>)

  function Scan(args: seq<string>): Option<Scanned> {
    if args == [] then Some(Scanned([], 0, []))
    else if args[0] == "--" then Some(Scanned([], 0, args[1..]))
    else if args[0] == "--clear-env" then
      match Scan(args[1..])
      case None => None
      case Some(s) => Some(s.(cleared := s.cleared + 1))
    else if !TakesValue(args[0]) || |args| < 2 || HyphenLed(args[1]) then None
    else
      match Scan(args[2..])
      case None => None
      case Some(s) => Some(s.(values := [(args[0], args[1])] + s.values))
  }

  /** Every value given under a name. */
  function Given(values: seq<(string, string)>, name: string): seq<string> {
    if values == [] then []
    else (if values[0].0 == name then [values[0].1] else []) + Given(values[1..], name)
  }

  function First(values: seq<(string, string)>, name: string): Option<string> {
    if Given(values, name) == [] then None else Some(Given(values, name)[0])
  }

  /** Only `--env` may be repeated. */
  predicate Repeats(s: Scanned) {
    s.cleared > 1 || exists i :: 0 <= i < |s.values| && s.values[i].0 != "--env" && |Given(s.values, s.values[i].0)| > 1
  }

  datatype CommonOptions = CommonOptions(
    sampleInterval: Duration, report: string, cwd: Option<string>, clearEnv: bool, env: map<string, string>,
    clientReadyFd: Option<int>, onParentExit: Report.OnParentExit, command: seq<string>)

  datatype RunOptions = RunOptions(
    maxFootprintBytes: u64, wallTime: Option<Duration>, checkpointTimeout: Option<Duration>, common: CommonOptions)

  function PolicyBandStep(limit: u64): u64 {
    var tenth := limit / 10;
    if tenth == 0 then 1 else tenth
  }

  function ParseWallTime(s: string): Option<Duration> {
    match ParseDuration(s)
    case None => None
    case Some(d) => if d > MAX_WALL_TIME_MS * MS then None else Some(d)
  }

  function ParseCheckpointTimeout(s: string): Option<Duration> {
    match ParseDuration(s)
    case None => None
    case Some(d) => if MIN_CHECKPOINT_TIMEOUT_MS * MS <= d <= MAX_CHECKPOINT_TIMEOUT_MS * MS then Some(d) else None
  }

  /** An absent flag stays absent; a present one must parse. */
  function Optional<T>(value: Option<string>, parsed: Option<T>): Option<Option<T>> {
    if value.None? then Some(None) else if parsed.None? then None else Some(parsed)
  }

  function TextOr(value: Option<string>): string {
    if value.Some? then value.value else ""
  }

  datatype Numbers = Numbers(limit: u64, wall: Option<Duration>, timeout: Option<Duration>, interval: Duration)

  /** The four numeric options, when every one of them is accepted. */
  function ReadNumbers(values: seq<(string, string)>): Option<Numbers> {
    var footprint, interval := First(values, "--max-footprint"), First(values, "--sample-interval");
    var wall, timeout := First(values, "--wall-time"), First(values, "--checkpoint-timeout");
    var limit := ParseBytes(TextOr(footprint));
    var every := if interval.None? then Some(DEFAULT_SAMPLE_INTERVAL) else ParseDuration(interval.value);
    var walls := Optional(wall, ParseWallTime(TextOr(wall)));
    var timeouts := Optional(timeout, ParseCheckpointTimeout(TextOr(timeout)));
    if limit.None? || every.None? || walls.None? || timeouts.None? then None
    else if limit.value < 2 || limit.value + PolicyBandStep(limit.value) > U64_MAX then None
    else if !(Sampling.MIN_SAMPLE_INTERVAL <= every.value <= Sampling.MAX_SAMPLE_INTERVAL) then None
    else Some(Numbers(limit.value, walls.value, timeouts.value, every.value))
  }

  /** Everything before the first equals sign, and everything after it. */
  function SplitOnce(s: string): Option<(string, string)> {
    if s == [] then None
    else if s[0] == '=' then Some(("", s[1..]))
    else
      match SplitOnce(s[1..])
      case None => None
      case Some(parts) => Some(([s[0]] + parts.0, parts.1))
  }

  function ReadEnv(assignments: seq<string>): Option<map<string, string>> {
    if assignments == [] then Some(map[])
    else
      var before := ReadEnv(assignments[..|assignments| - 1]);
      var parts := SplitOnce(assignments[|assignments| - 1]);
      if before.None? || parts.None? || parts.value.0 == "" || parts.value.0 in before.value then None
      else Some(before.value[parts.value.0 := parts.value.1])
  }

  /** A 32-bit descriptor above standard error; a plus sign is allowed. */
  function ParseDescriptor(s: string): Option<int> {
    var digits := if s != [] && s[0] == '+' then s[1..] else s;
    if digits == [] || !AllDigits(digits) then None
    else if 3 <= Value(digits) <= I32_MAX then Some(Value(digits))
    else None
  }

  function ParseOnParentExit(s: string): Option<Report.OnParentExit> {
    if s == "terminate" then Some(Report.OnParentExit.Terminate)
    else if s == "detach" then Some(Report.OnParentExit.Detach)
    else None
  }

  function ReadCommon(s: Scanned, interval: Duration): Option<CommonOptions> {
    var report, cwd := First(s.values, "--report"), First(s.values, "--cwd");
    var fd, onExit := First(s.values, "--client-ready-fd"), First(s.values, "--on-parent-exit");
    var descriptor := Optional(fd, ParseDescriptor(TextOr(fd)));
    var env := ReadEnv(Given(s.values, "--env"));
    var policy := ParseOnParentExit(if onExit.Some? then onExit.value else "terminate");
    if TextOr(report) == "" || cwd == Some("") || s.command == [] then None
    else if descriptor.None? || env.None? || policy.None? then None
    else Some(CommonOptions(interval, report.value, cwd, s.cleared > 0, env.value, descriptor.value, policy.value,
                            s.command))
  }

  /** The command line of a run, after the word `run`. */
  function ParseRun(args: seq<string>): Option<RunOptions> {
    var s := Scan(args);
    if s.None? || Repeats(s.value) then None
    else
      var numbers := ReadNumbers(s.value.values);
      if numbers.None? then None
      else
        var n := numbers.value;
        match ReadCommon(s.value, n.interval)
        case None => None
        case Some(common) => Some(RunOptions(n.limit, n.wall, n.timeout, common))
  }

  predicate ValidOptions(o: RunOptions) {
    && o.maxFootprintBytes >= 2 && o.maxFootprintBytes + PolicyBandStep(o.maxFootprintBytes) <= U64_MAX
    && Sampling.MIN_SAMPLE_INTERVAL <= o.common.sampleInterval <= Sampling.MAX_SAMPLE_INTERVAL
    && (o.wallTime.Some? ==> 0 < o.wallTime.value <= MAX_WALL_TIME_MS * MS)
    && (o.checkpointTimeout.Some? ==>
          MIN_CHECKPOINT_TIMEOUT_MS * MS <= o.checkpointTimeout.value <= MAX_CHECKPOINT_TIMEOUT_MS * MS)
  }

  // ---- Reading the client's arguments back ----

  lemma TextIsNumber(i: int)
    ensures ParseBytes(Text(i) + "B") == if 0 < i <= U64_MAX then Some(i) else None
    ensures ParseDuration(Text(i) + "ms") == if 0 < i <= U64_MAX then Some(i * MS) else None
  {
    hide ParseQuantity, Render;
    if i >= 0 {
      RenderedBytesParse(i);
      RenderedMillisecondsParse(i);
    } else {
      NegativeIsRefused(-i);
    }
  }

  lemma NegativeIsRefused(n: nat)
    ensures ParseBytes("-" + Render(n) + "B").None? && ParseDuration("-" + Render(n) + "ms").None?
  {
    hide ParseQuantity, Render;
    Negative(n, BYTE_UNITS, "B");
    Negative(n, DURATION_UNITS, "ms");
  }

  /** A sign is never a digit, so no unit makes sense of it. */
  lemma {:induction false} Negative(n: nat, units: seq<Unit>, suffix: string)
    requires forall i :: 0 <= i < |units| ==> |units[i].suffix| > 0
    requires suffix == "B" || suffix == "ms"
    requires forall i :: 0 <= i < |units| ==> |units[i].suffix| <= 3 && units[i].suffix[0] != '-'
    ensures ParseQuantity("-" + Render(n) + suffix, units).None?
  {
    if units != [] {
      var s := "-" + Render(n) + suffix;
      var stripped := StripSuffix(s, units[0].suffix);
      if stripped.Some? && stripped.value != [] {
        assert s[0] == stripped.value[0] == '-';
        assert !IsDigit(stripped.value[0]);
      }
      Negative(n, units[1..], suffix);
    }
  }

  predicate PlainValue(value: Option<string>) {
    value.Some? ==> !HyphenLed(value.value)
  }

  function Pair(flag: string, value: Option<string>): seq<(string, string)> {
    if value.Some? then [(flag, value.value)] else []
  }

  /** A line read after some flags that were read before it. */
  function Before(plain: bool, pairs: seq<(string, string)>, rest: Option<Scanned>): Option<Scanned> {
    if !plain || rest.None? then None else Some(rest.value.(values := pairs + rest.value.values))
  }

  lemma FlagIsScanned(flag: string, value: Option<string>, rest: seq<string>)
    requires TakesValue(flag)
    ensures Scan(Flag(flag, value) + rest) == Before(PlainValue(value), Pair(flag, value), Scan(rest))
  {
    if value.Some? {
      assert (Flag(flag, value) + rest)[2..] == rest;
    } else {
      assert Flag(flag, value) + rest == rest;
      assert Scan(rest).Some? ==> [] + Scan(rest).value.values == Scan(rest).value.values;
    }
  }

  function Assignment(entry: (string, string)): string {
    entry.0 + "=" + entry.1
  }

  function Assignments(env: seq<(string, string)>): seq<string> {
    if env == [] then [] else Assignments(env[..|env| - 1]) + [Assignment(env[|env| - 1])]
  }

  function EnvPairs(env: seq<(string, string)>): seq<(string, string)> {
    if env == [] then [] else EnvPairs(env[..|env| - 1]) + [("--env", Assignment(env[|env| - 1]))]
  }

  predicate PlainEnv(env: seq<(string, string)>) {
    forall i :: 0 <= i < |env| ==> !HyphenLed(Assignment(env[i]))
  }

  lemma {:induction false} EnvIsScanned(env: seq<(string, string)>, rest: seq<string>)
    ensures Scan(EnvFlags(env) + rest) == Before(PlainEnv(env), EnvPairs(env), Scan(rest))
  {
    hide Scan, HyphenLed, Before;
    if env == [] {
      NoEnvIsScanned(rest);
    } else {
      var front, text := env[..|env| - 1], Assignment(env[|env| - 1]);
      EnvIsScanned(front, Flag("--env", Some(text)) + rest);
      FlagIsScanned("--env", Some(text), rest);
      assert EnvFlags(env) + rest == EnvFlags(front) + (Flag("--env", Some(text)) + rest);
      assert PlainEnv(env) <==> PlainEnv(front) && !HyphenLed(text);
      BeforeTwice(PlainEnv(front), EnvPairs(front), !HyphenLed(text), Pair("--env", Some(text)), Scan(rest));
      assert EnvPairs(env) == EnvPairs(front) + Pair("--env", Some(text));
    }
  }

  lemma NoEnvIsScanned(rest: seq<string>)
    ensures Scan(EnvFlags([]) + rest) == Before(PlainEnv([]), EnvPairs([]), Scan(rest))
  {
    assert EnvFlags([]) + rest == rest;
    assert Scan(rest).Some? ==> [] + Scan(rest).value.values == Scan(rest).value.values;
  }

  lemma BeforeTwice(p: bool, xs: seq<(string, string)>, q: bool, ys: seq<(string, string)>, rest: Option<Scanned>)
    ensures Before(p, xs, Before(q, ys, rest)) == Before(p && q, xs + ys, rest)
  {
    if rest.Some? {
      assert xs + (ys + rest.value.values) == (xs + ys) + rest.value.values;
    }
  }

  lemma EndIsScanned(c: RunConfig)
    ensures Scan(["--"] + c.command) == Some(Scanned([], 0, c.command))
  {
    assert (["--"] + c.command)[1..] == c.command;
  }

  lemma ClearingIsScanned(clear: bool, rest: seq<string>)
    ensures var s := Scan(rest);
            Scan((if clear then ["--clear-env"] else []) + rest)
            == if s.None? || !clear then s else Some(s.value.(cleared := s.value.cleared + 1))
  {
    if clear {
      assert (["--clear-env"] + rest)[1..] == rest;
    } else {
      assert [] + rest == rest;
    }
  }

  /** The flags after the report. */
  function OtherValues(c: RunConfig, readyFd: Option<int>): seq<(string, string)> {
    Pair("--client-ready-fd", Suffixed(readyFd, ""))
    + (Pair("--cwd", c.cwd) + (EnvPairs(c.env) + Pair("--on-parent-exit", c.onParentExit)))
  }

  predicate OthersPlain(c: RunConfig, readyFd: Option<int>) {
    PlainValue(Suffixed(readyFd, "")) && PlainValue(c.cwd) && PlainEnv(c.env) && PlainValue(c.onParentExit)
  }

  lemma OthersAreScanned(c: RunConfig, readyFd: Option<int>)
    ensures Scan(OtherArguments(c, readyFd))
         == if OthersPlain(c, readyFd)
            then Some(Scanned(OtherValues(c, readyFd), if c.clearEnv then 1 else 0, c.command)) else None
  {
    hide Scan, Flag, Text, Pair, EnvFlags, EnvPairs, PlainEnv, PlainValue;
    EndIsScanned(c);
    var onExit := Flag("--on-parent-exit", c.onParentExit) + (["--"] + c.command);
    FlagIsScanned("--on-parent-exit", c.onParentExit, ["--"] + c.command);
    assert Pair("--on-parent-exit", c.onParentExit) + [] == Pair("--on-parent-exit", c.onParentExit);
    EnvIsScanned(c.env, onExit);
    ClearingIsScanned(c.clearEnv, EnvFlags(c.env) + onExit);
    var cleared := (if c.clearEnv then ["--clear-env"] else []) + (EnvFlags(c.env) + onExit);
    FlagIsScanned("--cwd", c.cwd, cleared);
    FlagIsScanned("--client-ready-fd", Suffixed(readyFd, ""), Flag("--cwd", c.cwd) + cleared);
  }

  function Values(c: RunConfig, readyFd: Option<int>): seq<(string, string)> {
    Pair("--max-footprint", Some(Text(c.maxFootprintBytes) + "B"))
    + (Pair("--wall-time", Suffixed(c.wallTimeMs, "ms"))
       + (Pair("--checkpoint-timeout", Suffixed(c.checkpointTimeoutMs, "ms"))
          + (Pair("--sample-interval", Some(Text(c.sampleIntervalMs) + "ms"))
             + (Pair("--report", Some(c.report)) + OtherValues(c, readyFd)))))
  }

  predicate Plain(c: RunConfig, readyFd: Option<int>) {
    && !HyphenLed(Text(c.maxFootprintBytes) + "B") && PlainValue(Suffixed(c.wallTimeMs, "ms"))
    && PlainValue(Suffixed(c.checkpointTimeoutMs, "ms")) && !HyphenLed(Text(c.sampleIntervalMs) + "ms")
    && !HyphenLed(c.report) && OthersPlain(c, readyFd)
  }

  /** The scan finds exactly the flags the client wrote, unless a value begins with a hyphen. */
  lemma ArgumentsAreScanned(c: RunConfig, readyFd: Option<int>)
    ensures Scan(Arguments(c, readyFd))
         == if Plain(c, readyFd)
            then Some(Scanned(Values(c, readyFd), if c.clearEnv then 1 else 0, c.command)) else None
  {
    hide Scan, Flag, Text, Pair, OtherArguments, OtherValues, OthersPlain, HyphenLed, Suffixed;
    var others := OtherArguments(c, readyFd);
    var interval, footprint := Some(Text(c.sampleIntervalMs) + "ms"), Some(Text(c.maxFootprintBytes) + "B");
    OthersAreScanned(c, readyFd);
    FlagIsScanned("--report", Some(c.report), others);
    var reported := Flag("--report", Some(c.report)) + others;
    FlagIsScanned("--sample-interval", interval, reported);
    var sampled := Flag("--sample-interval", interval) + reported;
    FlagIsScanned("--checkpoint-timeout", Suffixed(c.checkpointTimeoutMs, "ms"), sampled);
    var timed := Flag("--checkpoint-timeout", Suffixed(c.checkpointTimeoutMs, "ms")) + sampled;
    FlagIsScanned("--wall-time", Suffixed(c.wallTimeMs, "ms"), timed);
    FlagIsScanned("--max-footprint", footprint, Flag("--wall-time", Suffixed(c.wallTimeMs, "ms")) + timed);
  }

  // ---- Each option gets its own value ----

  lemma {:induction false} GivenConcat(a: seq<(string, string)>, b: seq<(string, string)>, name: string)
    ensures Given(a + b, name) == Given(a, name) + Given(b, name)
  {
    if a == [] {
      assert a + b == b;
    } else {
      assert (a + b)[1..] == a[1..] + b;
      GivenConcat(a[1..], b, name);
    }
  }

  function Items(value: Option<string>): seq<string> {
    if value.Some? then [value.value] else []
  }

  lemma GivenPair(flag: string, value: Option<string>, rest: seq<(string, string)>, name: string)
    ensures Given(Pair(flag, value) + rest, name) == (if flag == name then Items(value) else []) + Given(rest, name)
  {
    GivenConcat(Pair(flag, value), rest, name);
  }

  lemma {:induction false} GivenEnv(env: seq<(string, string)>, name: string)
    ensures Given(EnvPairs(env), name) == if name == "--env" then Assignments(env) else []
  {
    if env != [] {
      GivenEnv(env[..|env| - 1], name);
      GivenConcat(EnvPairs(env[..|env| - 1]), [("--env", Assignment(env[|env| - 1]))], name);
    }
  }

  /** The values the client wrote under a name. */
  function Written(c: RunConfig, readyFd: Option<int>, name: string): seq<string> {
    if name == "--max-footprint" then [Text(c.maxFootprintBytes) + "B"]
    else if name == "--wall-time" then Items(Suffixed(c.wallTimeMs, "ms"))
    else if name == "--checkpoint-timeout" then Items(Suffixed(c.checkpointTimeoutMs, "ms"))
    else if name == "--sample-interval" then [Text(c.sampleIntervalMs) + "ms"]
    else if name == "--report" then [c.report]
    else WrittenOthers(c, readyFd, name)
  }

  function WrittenOthers(c: RunConfig, readyFd: Option<int>, name: string): seq<string> {
    if name == "--client-ready-fd" then Items(Suffixed(readyFd, ""))
    else if name == "--cwd" then Items(c.cwd)
    else if name == "--env" then Assignments(c.env)
    else if name == "--on-parent-exit" then Items(c.onParentExit)
    else []
  }

  lemma OthersAreGiven(c: RunConfig, readyFd: Option<int>, name: string)
    ensures Given(OtherValues(c, readyFd), name) == WrittenOthers(c, readyFd, name)
  {
    hide Text, Items;
    var onExit := Pair("--on-parent-exit", c.onParentExit);
    assert onExit + [] == onExit;
    GivenPair("--on-parent-exit", c.onParentExit, [], name);
    GivenEnv(c.env, name);
    GivenConcat(EnvPairs(c.env), onExit, name);
    GivenPair("--cwd", c.cwd, EnvPairs(c.env) + onExit, name);
    GivenPair("--client-ready-fd", Suffixed(readyFd, ""), Pair("--cwd", c.cwd) + (EnvPairs(c.env) + onExit), name);
    hide Given, Pair, EnvPairs, Assignments;
  }

  lemma ValuesAreGiven(c: RunConfig, readyFd: Option<int>, name: string)
    ensures Given(Values(c, readyFd), name) == Written(c, readyFd, name)
  {
    hide Text, Given, Pair, OtherValues, Suffixed, WrittenOthers;
    var others := OtherValues(c, readyFd);
    OthersAreGiven(c, readyFd, name);
    OnlyOthers(c, readyFd);
    GivenPair("--report", Some(c.report), others, name);
    var reported := Pair("--report", Some(c.report)) + others;
    var interval := Some(Text(c.sampleIntervalMs) + "ms");
    GivenPair("--sample-interval", interval, reported, name);
    var sampled := Pair("--sample-interval", interval) + reported;
    GivenPair("--checkpoint-timeout", Suffixed(c.checkpointTimeoutMs, "ms"), sampled, name);
    var timed := Pair("--checkpoint-timeout", Suffixed(c.checkpointTimeoutMs, "ms")) + sampled;
    GivenPair("--wall-time", Suffixed(c.wallTimeMs, "ms"), timed, name);
    GivenPair("--max-footprint", Some(Text(c.maxFootprintBytes) + "B"),
              Pair("--wall-time", Suffixed(c.wallTimeMs, "ms")) + timed, name);
  }

  lemma OnlyOthers(c: RunConfig, readyFd: Option<int>)
    ensures WrittenOthers(c, readyFd, "--max-footprint") == WrittenOthers(c, readyFd, "--wall-time") == []
    ensures WrittenOthers(c, readyFd, "--checkpoint-timeout") == WrittenOthers(c, readyFd, "--sample-interval") == []
    ensures WrittenOthers(c, readyFd, "--report") == []
  {
  }

  // ---- Reading the values back ----

  lemma {:induction false} SplitOfAssignment(key: string, value: string)
    requires '=' !in key
    ensures SplitOnce(key + "=" + value) == Some((key, value))
  {
    var s := key + "=" + value;
    if key == "" {
      assert s[1..] == value;
    } else {
      assert s[1..] == key[1..] + "=" + value && s[0] == key[0] && [key[0]] + key[1..] == key;
      SplitOfAssignment(key[1..], value);
    }
  }

  /** The environment a list of pairs describes. */
  function EnvMap(env: seq<(string, string)>): map<string, string> {
    if env == [] then map[] else EnvMap(env[..|env| - 1])[env[|env| - 1].0 := env[|env| - 1].1]
  }

  /** With distinct keys it holds exactly the pairs. */
  lemma {:induction false} EnvMapHolds(env: seq<(string, string)>, k: string)
    requires ClientEnv(env)
    ensures k in EnvMap(env) <==> exists i :: 0 <= i < |env| && env[i].0 == k
    ensures forall i :: 0 <= i < |env| && env[i].0 == k ==> k in EnvMap(env) && EnvMap(env)[k] == env[i].1
  {
    if env != [] {
      var front := env[..|env| - 1];
      EnvMapHolds(front, k);
      assert forall i :: 0 <= i < |front| ==> front[i] == env[i];
      if k in EnvMap(front) {
        var i :| 0 <= i < |front| && front[i].0 == k;
        assert env[i].0 == k;
      }
    }
  }

  lemma {:induction false} EnvIsReadBack(env: seq<(string, string)>)
    requires ClientEnv(env)
    ensures ReadEnv(Assignments(env)) == Some(EnvMap(env))
  {
    if env != [] {
      var last := |env| - 1;
      var front := env[..last];
      assert Assignments(env) == Assignments(front) + [Assignment(env[last])];
      assert Assignments(env)[..|Assignments(front)|] == Assignments(front);
      EnvIsReadBack(front);
      SplitOfAssignment(env[last].0, env[last].1);
      EnvMapHolds(front, env[last].0);
    }
  }

  lemma DescriptorIsReadBack(fd: int)
    ensures !HyphenLed(Text(fd) + "") <==> fd >= 0
    ensures fd >= 0 ==> ParseDescriptor(Text(fd) + "") == if 3 <= fd <= I32_MAX then Some(fd) else None
  {
    var s := Text(fd) + "";
    assert s == Text(fd);
    if fd >= 0 {
      ValueOfRender(fd);
      assert IsDigit(s[0]);
    }
  }

  function Milliseconds(i: Option<int>): Option<int> {
    if i.Some? then Some(i.value * MS) else None
  }

  /** What the command line can say of a configuration the client accepts: its options take no value that
      begins with a hyphen. */
  predicate Expressible(c: RunConfig, readyFd: Option<int>)
    requires ClientAccepts(c)
  {
    && !HyphenLed(c.report) && (c.cwd.Some? ==> !HyphenLed(c.cwd.value))
    && (forall i :: 0 <= i < |c.env| ==> c.env[i].0[0] != '-')
    && (readyFd.Some? ==> 3 <= readyFd.value <= I32_MAX)
  }

  function OptionsOf(c: RunConfig, readyFd: Option<int>): RunOptions
    requires ClientAccepts(c) && (readyFd.Some? ==> readyFd.value >= 0)
  {
    RunOptions(
      c.maxFootprintBytes, Milliseconds(c.wallTimeMs), Milliseconds(c.checkpointTimeoutMs),
      CommonOptions(c.sampleIntervalMs * MS, c.report, c.cwd, c.clearEnv, EnvMap(c.env), readyFd,
                    if c.onParentExit == Some("detach") then Report.OnParentExit.Detach
                    else Report.OnParentExit.Terminate,
                    c.command))
  }

  lemma NumbersAreReadBack(c: RunConfig, readyFd: Option<int>)
    ensures ReadNumbers(Values(c, readyFd)).Some? <==> ClientNumbers(c)
    ensures ClientNumbers(c) ==>
              ReadNumbers(Values(c, readyFd))
              == Some(Numbers(c.maxFootprintBytes, Milliseconds(c.wallTimeMs), Milliseconds(c.checkpointTimeoutMs),
                              c.sampleIntervalMs * MS))
  {
    hide Text, Values, Given, ParseBytes, ParseDuration;
    ValuesAreGiven(c, readyFd, "--max-footprint");
    ValuesAreGiven(c, readyFd, "--wall-time");
    ValuesAreGiven(c, readyFd, "--checkpoint-timeout");
    ValuesAreGiven(c, readyFd, "--sample-interval");
    TextIsNumber(c.maxFootprintBytes);
    TextIsNumber(c.sampleIntervalMs);
    if c.wallTimeMs.Some? {
      TextIsNumber(c.wallTimeMs.value);
    }
    if c.checkpointTimeoutMs.Some? {
      TextIsNumber(c.checkpointTimeoutMs.value);
    }
  }

  lemma NothingRepeats(c: RunConfig, readyFd: Option<int>)
    ensures !Repeats(Scanned(Values(c, readyFd), if c.clearEnv then 1 else 0, c.command))
  {
    hide Values, Given, Text;
    var values := Values(c, readyFd);
    forall i | 0 <= i < |values| && values[i].0 != "--env" ensures |Given(values, values[i].0)| <= 1 {
      ValuesAreGiven(c, readyFd, values[i].0);
    }
  }

  lemma CommonIsReadBack(c: RunConfig, readyFd: Option<int>)
    requires ClientAccepts(c) && (readyFd.Some? ==> readyFd.value >= 0)
    ensures ReadCommon(Scanned(Values(c, readyFd), if c.clearEnv then 1 else 0, c.command), c.sampleIntervalMs * MS)
         == if readyFd.Some? && !(3 <= readyFd.value <= I32_MAX) then None
            else Some(OptionsOf(c, readyFd).common)
  {
    hide Values, Given, Text, ParseDescriptor, ReadEnv, Assignments, EnvMap, ClientNumbers;
    ValuesAreGiven(c, readyFd, "--report");
    ValuesAreGiven(c, readyFd, "--cwd");
    ValuesAreGiven(c, readyFd, "--client-ready-fd");
    ValuesAreGiven(c, readyFd, "--on-parent-exit");
    ValuesAreGiven(c, readyFd, "--env");
    EnvIsReadBack(c.env);
    if readyFd.Some? {
      DescriptorIsReadBack(readyFd.value);
    }
  }

  lemma PlainIsExpressible(c: RunConfig, readyFd: Option<int>)
    requires ClientAccepts(c) && (readyFd.Some? ==> readyFd.value >= 0)
    ensures Plain(c, readyFd) && (readyFd.Some? ==> 3 <= readyFd.value <= I32_MAX) <==> Expressible(c, readyFd)
  {
    if readyFd.Some? {
      DescriptorIsReadBack(readyFd.value);
    }
    NumbersArePlain(c);
    hide Text;
    forall i | 0 <= i < |c.env| ensures HyphenLed(Assignment(c.env[i])) <==> c.env[i].0[0] == '-' {
    }
  }

  lemma NumbersArePlain(c: RunConfig)
    requires ClientNumbers(c)
    ensures !HyphenLed(Text(c.maxFootprintBytes) + "B") && !HyphenLed(Text(c.sampleIntervalMs) + "ms")
    ensures PlainValue(Suffixed(c.wallTimeMs, "ms")) && PlainValue(Suffixed(c.checkpointTimeoutMs, "ms"))
  {
    hide Render, Value;
    assert IsDigit(Text(c.maxFootprintBytes)[0]) && IsDigit(Text(c.sampleIntervalMs)[0]);
    assert c.wallTimeMs.Some? ==> IsDigit(Text(c.wallTimeMs.value)[0]);
    assert c.checkpointTimeoutMs.Some? ==> IsDigit(Text(c.checkpointTimeoutMs.value)[0]);
  }

  /** Closure across the two languages. The command line applies the client's four numeric checks. A
      configuration the client accepts is read back whole, unless the command line cannot express it: a
      report, directory or environment key that begins with a hyphen is refused. */
  lemma ClientIsReadBack(c: RunConfig, readyFd: Option<int>)
    ensures ParseRun(Arguments(c, readyFd)).Some? ==> ClientNumbers(c)
    ensures ClientAccepts(c) ==>
              ParseRun(Arguments(c, readyFd))
              == if Expressible(c, readyFd) then Some(OptionsOf(c, readyFd)) else None
  {
    hide Values, Arguments, Scan, ReadNumbers, ReadCommon, Repeats, Plain, Expressible, ClientNumbers, Text, EnvMap,
         HyphenLed;
    ArgumentsAreScanned(c, readyFd);
    NumbersAreReadBack(c, readyFd);
    NothingRepeats(c, readyFd);
    if ClientAccepts(c) {
      if readyFd.Some? && readyFd.value < 0 {
        NegativeDescriptor(c, readyFd.value);
      } else {
        PlainIsExpressible(c, readyFd);
        CommonIsReadBack(c, readyFd);
      }
    }
  }

  lemma NegativeDescriptor(c: RunConfig, fd: int)
    requires fd < 0 && ClientAccepts(c)
    ensures !Plain(c, Some(fd)) && !Expressible(c, Some(fd))
  {
    DescriptorIsReadBack(fd);
  }

  /** A configuration that uses every option is accepted by both sides and read back option by option. */
  lemma EveryOptionIsReadBack()
    ensures var c := RunConfig(["job", "--flag"], "run.json", 1000, 100, Some(60_000), Some(500), Some("work"), true,
                               [("A", "1"), ("B", "x=y")], Some("detach"));
            && ClientAccepts(c)
            && ParseRun(Arguments(c, Some(5)))
               == Some(RunOptions(1000, Some(60_000 * MS), Some(500 * MS),
                                  CommonOptions(100 * MS, "run.json", Some("work"), true, map["A" := "1", "B" := "x=y"], Some(5),
                                                Report.OnParentExit.Detach, ["job", "--flag"])))
  {
    var env := [("A", "1"), ("B", "x=y")];
    var c := RunConfig(["job", "--flag"], "run.json", 1000, 100, Some(60_000), Some(500), Some("work"), true, env, Some("detach"));
    assert |CHECKPOINT_FD_ENV| > 1;
    assert ClientAccepts(c);
    assert Expressible(c, Some(5));
    assert env[..1] == [("A", "1")] && env[..1][..0] == [];
    assert EnvMap(env) == map["A" := "1", "B" := "x=y"];
    hide ParseRun, Arguments, ClientAccepts, Expressible;
    ClientIsReadBack(c, Some(5));
  }

  /** A report named with a leading hyphen passes every check of the client and is refused by the command
      line. */
  lemma HyphenReportIsRefused()
    ensures var c := RunConfig(["job"], "-out.json", 1000, 50, None, None, None, false, [], None);
            ClientAccepts(c) && ParseRun(Arguments(c, None)) == None
  {
    var c := RunConfig(["job"], "-out.json", 1000, 50, None, None, None, false, [], None);
    assert ClientAccepts(c);
    hide ParseRun, Arguments;
    ClientIsReadBack(c, None);
  }

  lemma {:induction false} GivenMeans(values: seq<(string, string)>, name: string)
    ensures Given(values, name) == [] <==> forall i :: 0 <= i < |values| ==> values[i].0 != name
  {
    if values != [] {
      GivenMeans(values[1..], name);
      assert forall i :: 0 < i < |values| ==> values[i] == values[1..][i - 1];
    }
  }

  /** A line is refused when it gives any flag but `--env` twice, clears the environment twice, or lacks the
      limit, the report or the command. */
  lemma LineRules(args: seq<string>, name: string)
    ensures Scan(args).None? ==> ParseRun(args).None?
    ensures Scan(args).Some? ==>
              var s := Scan(args).value;
              && (name != "--env" && |Given(s.values, name)| > 1 ==> ParseRun(args).None?)
              && (s.cleared > 1 || s.command == [] ==> ParseRun(args).None?)
              && ((forall i :: 0 <= i < |s.values| ==> s.values[i].0 != "--max-footprint") ==> ParseRun(args).None?)
              && ((forall i :: 0 <= i < |s.values| ==> s.values[i].0 != "--report") ==> ParseRun(args).None?)
  {
    if Scan(args).Some? {
      var s := Scan(args).value;
      GivenMeans(s.values, name);
      GivenMeans(s.values, "--max-footprint");
      GivenMeans(s.values, "--report");
      EmptyIsNoQuantity();
    }
    hide Scan, Given;
  }

  lemma EmptyIsNoQuantity()
    ensures ParseBytes("").None?
  {
    var s: string := "";
    assert forall i :: 0 <= i < |BYTE_UNITS| ==> StripSuffix(s, BYTE_UNITS[i].suffix).None?;
    if ParseBytes(s).Some? {
      var j := ParsedIsSpelled(s, BYTE_UNITS);
      assert false;
    }
  }

  /** The shortest accepted line, and the defaults it stands for. */
  lemma DefaultsAsDocumented()
    ensures ParseRun(["--max-footprint", "26GiB", "--report", "run.json", "--", "job"])
         == Some(RunOptions(27_917_287_424, None, None,
                            CommonOptions(50 * MS, "run.json", None, false, map[], None, Report.OnParentExit.Terminate, ["job"])))
  {
    hide ParseBytes, ParseDuration, Given, Scan;
    ShortestIsScanned();
    var values := [("--max-footprint", "26GiB"), ("--report", "run.json")];
    OnlyTwoGiven(values);
    assert !Repeats(Scanned(values, 0, ["job"]));
    ShortestMeans(values);
    ShortestNames(values);
    hide ReadNumbers, ReadCommon, Repeats;
  }

  lemma ShortestMeans(values: seq<(string, string)>)
    requires Given(values, "--max-footprint") == ["26GiB"]
    requires forall name :: name != "--max-footprint" && name != "--report" ==> Given(values, name) == []
    ensures ReadNumbers(values) == Some(Numbers(27_917_287_424, None, None, 50 * MS))
  {
    hide ParseBytes, ParseDuration, Given;
    TwentySixGibibytes();
  }

  lemma ShortestNames(values: seq<(string, string)>)
    requires Given(values, "--report") == ["run.json"]
    requires forall name :: name != "--max-footprint" && name != "--report" ==> Given(values, name) == []
    ensures ReadCommon(Scanned(values, 0, ["job"]), 50 * MS)
         == Some(CommonOptions(50 * MS, "run.json", None, false, map[], None, Report.OnParentExit.Terminate, ["job"]))
  {
    hide Given;
  }

  lemma ShortestIsScanned()
    ensures Scan(["--max-footprint", "26GiB", "--report", "run.json", "--", "job"])
         == Some(Scanned([("--max-footprint", "26GiB"), ("--report", "run.json")], 0, ["job"]))
  {
    var command, report, limit := ["--", "job"], Flag("--report", Some("run.json")), Flag("--max-footprint", Some("26GiB"));
    assert command[1..] == ["job"] && Scan(command) == Some(Scanned([], 0, ["job"]));
    hide Scan;
    FlagIsScanned("--report", Some("run.json"), command);
    FlagIsScanned("--max-footprint", Some("26GiB"), report + command);
    assert limit + (report + command) == ["--max-footprint", "26GiB", "--report", "run.json", "--", "job"];
    assert Pair("--report", Some("run.json")) + [] == [("--report", "run.json")];
    assert Pair("--max-footprint", Some("26GiB")) + [("--report", "run.json")]
        == [("--max-footprint", "26GiB"), ("--report", "run.json")];
  }

  lemma OnlyTwoGiven(values: seq<(string, string)>)
    requires values == [("--max-footprint", "26GiB"), ("--report", "run.json")]
    ensures Given(values, "--max-footprint") == ["26GiB"] && Given(values, "--report") == ["run.json"]
    ensures forall name :: name != "--max-footprint" && name != "--report" ==> Given(values, name) == []
  {
    var rest := [("--report", "run.json")];
    assert values[1..] == rest && rest[1..] == [];
    assert |"--max-footprint"| != |"--report"|;
    assert Given(rest, "--report") == ["run.json"] && Given(rest, "--max-footprint") == [];
    assert Given(values, "--report") == [] + Given(rest, "--report");
    forall name | name != "--max-footprint" && name != "--report" ensures Given(values, name) == [] {
      GivenMeans(values, name);
    }
  }

  // ---- The runtime's configuration ----

  function SampleQualityBounds(interval: Duration): (Duration, Duration) {
    (Max(interval, MIN_SAMPLE_WINDOW), Max(Min(2 * interval, DURATION_MAX), MIN_SAMPLE_AGE))
  }

  function RunPolicyConfig(o: RunOptions): Policy.PolicyConfig {
    var limit := o.maxFootprintBytes;
    var step := PolicyBandStep(limit);
    var (window, age) := SampleQualityBounds(o.common.sampleInterval);
    Policy.PolicyConfig(
      limit, SatSub(limit, step), SatSub(SatSub(limit, step), step), SatAdd64(limit, step),
      REQUIRED_BREACH_SAMPLES, MAX_MISSING_SAMPLES, age, window,
      Some(if o.checkpointTimeout.Some? then o.checkpointTimeout.value else DEFAULT_CHECKPOINT_TIMEOUT),
      TERM_GRACE, o.wallTime)
  }

  function RunSamplingConfig(o: RunOptions): Result<Sampling.SamplingConfig, Sampling.SamplingConfigError> {
    var (window, age) := SampleQualityBounds(o.common.sampleInterval);
    Sampling.NewSamplingConfig(o.common.sampleInterval, age, window, Sampling.MAX_SAMPLE_HISTORY_CAPACITY)
  }

  function MillisOf(d: Option<Duration>): Option<u64> {
    if d.Some? then Some(Ms(d.value)) else None
  }

  /** The configuration a run's report records. */
  function ReportedConfiguration(o: RunOptions, watch: Report.ParentWatch): Report.Configuration
  {
    var p := RunPolicyConfig(o);
    Report.Configuration(
      Report.ReportMode.Enforce, Some(p.limitBytes), Some(p.warningBytes), Some(p.recoveryBytes),
      Some(p.emergencyBytes), p.requiredBreachSamples, p.maxMissingSamples, MillisOf(p.wallTime),
      Ms(o.common.sampleInterval), Ms(p.maxSampleAge), Ms(p.maxSampleWindow), MillisOf(p.checkpointTimeout),
      Ms(p.termGrace), Some(o.common.onParentExit), Some(watch))
  }

  lemma BandsFit(limit: u64)
    requires limit >= 2 && limit + PolicyBandStep(limit) <= U64_MAX
    ensures 2 * PolicyBandStep(limit) <= limit
  {
  }

  lemma ParsedIsValid(args: seq<string>)
    ensures ParseRun(args).Some? ==> ValidOptions(ParseRun(args).value)
  {
    if ParseRun(args).Some? {
      PositiveDuration(TextOr(First(Scan(args).value.values, "--wall-time")));
    }
    hide Scan, ReadCommon, Repeats, ParseDuration, ParseBytes, First;
  }

  lemma PositiveDuration(s: string)
    ensures ParseDuration(s).Some? ==> ParseDuration(s).value > 0 && Ms(ParseDuration(s).value) > 0
  {
    if ParseDuration(s).Some? {
      var j := ParsedIsSpelled(s, DURATION_UNITS);
      var digits :| SpelledWith(s, digits, DURATION_UNITS[j], ParseQuantity(s, DURATION_UNITS).value);
      assert DURATION_UNITS[j].multiplier > 0;
    }
  }

  /** Whatever the command line accepts gives strictly ordered bands without saturation, a machine and a
      sampler whose construction cannot fail and agree on the quality window, and a report configuration
      the validator accepts. */
  lemma AcceptedOptionsConstruct(args: seq<string>, watch: Report.ParentWatch, outcome: Report.TerminalOutcome)
    requires ParseRun(args).Some?
    requires watch.DetachedWatch? ==> ParseRun(args).value.common.onParentExit.Detach?
    requires ParseRun(args).value.common.onParentExit.Detach? ==> watch.DetachedWatch? || watch.ParentUnobservable?
    requires outcome.parentExitedAtMs.Some? ==> watch.Active? || watch.DetachedWatch?
    ensures var o := ParseRun(args).value;
            var p := RunPolicyConfig(o);
            && Policy.ValidConfig(p)
            && p.recoveryBytes + 2 * PolicyBandStep(p.limitBytes) == p.limitBytes
            && p.emergencyBytes == p.limitBytes + PolicyBandStep(p.limitBytes)
            && RunSamplingConfig(o).Ok? && Sampling.ValidSampling(RunSamplingConfig(o).value)
            && RunSamplingConfig(o).value.historyCapacity == Sampling.MAX_SAMPLE_HISTORY_CAPACITY
            && p.maxSampleWindow == RunSamplingConfig(o).value.maxSampleWindow
            && p.maxSampleAge == RunSamplingConfig(o).value.maxSampleAge
            && Report.ValidConfiguration(ReportedConfiguration(o, watch), outcome)
  {
    hide ParseRun;
    ParsedIsValid(args);
    var o := ParseRun(args).value;
    BandsFit(o.maxFootprintBytes);
    WallInMillis(args);
  }

  /** An accepted wall time is a whole positive number of milliseconds, so the report shows it. */
  lemma WallInMillis(args: seq<string>)
    requires ParseRun(args).Some?
    ensures ParseRun(args).value.wallTime.Some? ==> Ms(ParseRun(args).value.wallTime.value) > 0
  {
    hide Scan, ReadCommon, Repeats, ParseDuration, ParseBytes, First, Ms;
    PositiveDuration(TextOr(First(Scan(args).value.values, "--wall-time")));
  }
}
