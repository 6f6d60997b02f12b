/** Decimal integers, and the byte and duration quantities of the command line (lib.rs). */
module Quantities {
  import opened Common

  predicate IsDigit(c: char) {
    '0' <= c <= '9'
  }

  predicate AllDigits(s: string) {
    forall i :: 0 <= i < |s| ==> IsDigit(s[i])
  }

  function DigitOf(d: nat): char
    requires d < 10
  {
    '0' + d as char
  }

  function DigitValue(c: char): nat
    requires IsDigit(c)
  {
    c as int - '0' as int
  }

  /** The number a digit string denotes; leading zeros are allowed. */
  function Value(s: string): nat
    requires AllDigits(s)
  {
    if s == [] then 0 else Value(s[..|s| - 1]) * 10 + DigitValue(s[|s| - 1])
  }

  /** The decimal rendering without leading zeros. */
  function Render(n: nat): (s: string)
    ensures AllDigits(s) && |s| > 0
  {
    if n < 10 then [DigitOf(n)] else Render(n / 10) + [DigitOf(n % 10)]
  }

  lemma {:induction false} ValueOfRender(n: nat)
    ensures Value(Render(n)) == n
  {
    if n >= 10 {
      ValueOfRender(n / 10);
      assert Render(n)[..|Render(n)| - 1] == Render(n / 10);
    } else {
      assert Render(n)[..0] == [];
    }
  }

  lemma RenderInjective(m: nat, n: nat)
    ensures Render(m) == Render(n) ==> m == n
  {
    ValueOfRender(m);
    ValueOfRender(n);
  }

  /** A positive 64-bit integer in plain digits. */
  function ParsePositive(s: string): (r: Option<u64>)
    ensures r.Some? ==> r.value > 0
  {
    if s == [] || !AllDigits(s) then None
    else if Value(s) > U64_MAX || Value(s) == 0 then None
    else Some(Value(s))
  }

  /** The digits before a suffix. */
  function StripSuffix(s: string, suffix: string): (r: Option<string>)
    ensures r.Some? <==> |suffix| <= |s| && s[|s| - |suffix|..] == suffix
    ensures r.Some? ==> s == r.value + suffix
  {
    if |suffix| <= |s| && s[|s| - |suffix|..] == suffix then Some(s[..|s| - |suffix|]) else None
  }

  datatype Unit = Unit(suffix: string, multiplier: nat)

  const BYTE_UNITS: seq<Unit> := [
    Unit("TiB", 0x100_0000_0000), Unit("GiB", 0x4000_0000), Unit("MiB", 0x10_0000), Unit("KiB", 1024), Unit("B", 1)]

  const DURATION_UNITS: seq<Unit> := [Unit("ms", 1), Unit("s", 1_000), Unit("m", 60_000), Unit("h", 3_600_000)]

  /** The first listed unit whose suffix ends the text decides. */
  function ParseQuantity(s: string, units: seq<Unit>): Option<u64> {
    if units == [] then None
    else match StripSuffix(s, units[0].suffix)
      case None => ParseQuantity(s, units[1..])
      case Some(digits) =>
        match ParsePositive(digits)
        case None => None
        case Some(v) => if v * units[0].multiplier > U64_MAX then None else Some(v * units[0].multiplier)
  }

  function ParseBytes(s: string): Option<u64> {
    ParseQuantity(s, BYTE_UNITS)
  }

  /** In nanoseconds. */
  function ParseDuration(s: string): Option<Duration> {
    match ParseQuantity(s, DURATION_UNITS)
    case None => None
    case Some(ms) => Some(ms * 1_000_000)
  }

  /** `s` is a positive 64-bit count of units in plain digits, followed by the unit's suffix. */
  predicate SpelledWith(s: string, digits: string, u: Unit, v: nat) {
    && s == digits + u.suffix && digits != [] && AllDigits(digits)
    && 0 < Value(digits) <= U64_MAX && v == Value(digits) * u.multiplier
  }

  ghost predicate Spells(s: string, u: Unit, v: nat) {
    exists digits: string :: SpelledWith(s, digits, u, v)
  }

  lemma OneSuffix(s: string, digits: string, u: Unit, v: nat)
    requires SpelledWith(s, digits, u, v)
    ensures StripSuffix(s, u.suffix) == Some(digits)
  {
  }

  /** A text with another character `back` places from its end does not have the suffix. */
  lemma NotTheSuffix(s: string, suffix: string, back: nat)
    requires back < |suffix| && back < |s| && s[|s| - 1 - back] != suffix[|suffix| - 1 - back]
    ensures StripSuffix(s, suffix).None?
  {
    if |suffix| <= |s| {
      assert s[|s| - |suffix|..][|suffix| - 1 - back] == s[|s| - 1 - back];
    }
  }

  /** An amount spelled in a later byte unit has no earlier unit's suffix. */
  lemma ByteUnitsApart(s: string, digits: string, v: nat, i: nat, j: nat)
    requires i < j < |BYTE_UNITS| && SpelledWith(s, digits, BYTE_UNITS[j], v)
    ensures StripSuffix(s, BYTE_UNITS[i].suffix).None?
  {
    var later := BYTE_UNITS[j].suffix;
    if j == 4 {
      assert s[|s| - 2] == digits[|digits| - 1];
      NotTheSuffix(s, BYTE_UNITS[i].suffix, 1);
    } else {
      assert s[|s| - 3] == later[0];
      NotTheSuffix(s, BYTE_UNITS[i].suffix, 2);
    }
  }

  lemma DurationUnitsApart(s: string, digits: string, v: nat, i: nat, j: nat)
    requires i < j < |DURATION_UNITS| && SpelledWith(s, digits, DURATION_UNITS[j], v)
    ensures StripSuffix(s, DURATION_UNITS[i].suffix).None?
  {
    assert s[|s| - 1] == DURATION_UNITS[j].suffix[0];
    if i == 0 && j == 1 {
      assert s[|s| - 2] == digits[|digits| - 1];
      NotTheSuffix(s, "ms", 1);
    } else {
      NotTheSuffix(s, DURATION_UNITS[i].suffix, 0);
    }
  }

  /** The unit at an index decides when no earlier suffix fits. */
  lemma {:induction false} UnitDecides(s: string, units: seq<Unit>, j: nat, digits: string, v: nat)
    requires j < |units| && SpelledWith(s, digits, units[j], v)
    requires forall i :: 0 <= i < j ==> StripSuffix(s, units[i].suffix).None?
    ensures ParseQuantity(s, units) == if v > U64_MAX then None else Some(v)
  {
    if j == 0 {
      OneSuffix(s, digits, units[0], v);
    } else {
      UnitDecides(s, units[1..], j - 1, digits, v);
    }
  }

  lemma {:induction false} ParsedIsSpelled(s: string, units: seq<Unit>) returns (j: nat)
    requires ParseQuantity(s, units).Some?
    ensures j < |units| && Spells(s, units[j], ParseQuantity(s, units).value)
    decreases units
  {
    if StripSuffix(s, units[0].suffix).Some? {
      j := 0;
      assert SpelledWith(s, StripSuffix(s, units[0].suffix).value, units[0], ParseQuantity(s, units).value);
    } else {
      var k := ParsedIsSpelled(s, units[1..]);
      j := k + 1;
    }
  }

  /** A byte quantity is accepted as `v` exactly when it spells `v` in one of the five units. */
  lemma ParseBytesExactly(s: string, v: nat)
    requires v <= U64_MAX
    ensures ParseBytes(s) == Some(v) <==> exists j :: 0 <= j < |BYTE_UNITS| && Spells(s, BYTE_UNITS[j], v)
  {
    hide ParseQuantity, SpelledWith, StripSuffix;
    if ParseBytes(s).Some? {
      var j := ParsedIsSpelled(s, BYTE_UNITS);
    }
    if j :| 0 <= j < |BYTE_UNITS| && Spells(s, BYTE_UNITS[j], v) {
      var digits :| SpelledWith(s, digits, BYTE_UNITS[j], v);
      forall i | 0 <= i < j ensures StripSuffix(s, BYTE_UNITS[i].suffix).None? {
        ByteUnitsApart(s, digits, v, i, j);
      }
      UnitDecides(s, BYTE_UNITS, j, digits, v);
    }
  }

  /** A duration is accepted as `ms` milliseconds exactly when it spells them in one of the four units. */
  lemma ParseDurationExactly(s: string, ms: nat)
    requires ms <= U64_MAX
    ensures ParseDuration(s) == Some(ms * 1_000_000)
            <==> exists j :: 0 <= j < |DURATION_UNITS| && Spells(s, DURATION_UNITS[j], ms)
  {
    hide ParseQuantity, SpelledWith, StripSuffix;
    if ParseDuration(s).Some? {
      var j := ParsedIsSpelled(s, DURATION_UNITS);
    }
    if j :| 0 <= j < |DURATION_UNITS| && Spells(s, DURATION_UNITS[j], ms) {
      var digits :| SpelledWith(s, digits, DURATION_UNITS[j], ms);
      forall i | 0 <= i < j ensures StripSuffix(s, DURATION_UNITS[i].suffix).None? {
        DurationUnitsApart(s, digits, ms, i, j);
      }
      UnitDecides(s, DURATION_UNITS, j, digits, ms);
    }
  }

  lemma RenderedIsPositive(n: nat)
    ensures ParsePositive(Render(n)) == if 0 < n <= U64_MAX then Some(n) else None
  {
    ValueOfRender(n);
  }

  /** What a plain rendering in bytes parses to. */
  lemma RenderedBytesParse(n: nat)
    ensures ParseBytes(Render(n) + "B") == if 0 < n <= U64_MAX then Some(n) else None
  {
    var digits, s := Render(n), Render(n) + "B";
    assert s[|s| - 2] == digits[|digits| - 1];
    ValueOfRender(n);
    RenderedIsPositive(n);
    hide Render, ParsePositive, StripSuffix, ParseQuantity;
    forall i | 0 <= i < 4 ensures StripSuffix(s, BYTE_UNITS[i].suffix).None? {
      NotTheSuffix(s, BYTE_UNITS[i].suffix, 1);
    }
    if 0 < n <= U64_MAX {
      UnitDecides(s, BYTE_UNITS, 4, digits, n);
    } else {
      NotPositive(s, BYTE_UNITS, 4, digits);
    }
  }

  /** What a plain rendering in milliseconds parses to. */
  lemma RenderedMillisecondsParse(n: nat)
    ensures ParseDuration(Render(n) + "ms") == if 0 < n <= U64_MAX then Some(n * 1_000_000) else None
  {
    ValueOfRender(n);
    RenderedIsPositive(n);
    hide Render, ParsePositive, StripSuffix, ParseQuantity;
    if 0 < n <= U64_MAX {
      UnitDecides(Render(n) + "ms", DURATION_UNITS, 0, Render(n), n);
    } else {
      NotPositive(Render(n) + "ms", DURATION_UNITS, 0, Render(n));
    }
  }

  lemma {:induction false} NotPositive(s: string, units: seq<Unit>, j: nat, digits: string)
    requires j < |units| && s == digits + units[j].suffix && ParsePositive(digits).None?
    ensures (forall i :: 0 <= i < j ==> StripSuffix(s, units[i].suffix).None?) ==> ParseQuantity(s, units).None?
  {
    if j == 0 {
      assert StripSuffix(s, units[0].suffix).value == digits;
    } else {
      NotPositive(s, units[1..], j - 1, digits);
    }
  }

  // ---- The documented units ----

  function InRange(v: nat): Option<u64> {
    if v <= U64_MAX then Some(v) else None
  }

  lemma UnitParses(n: nat, units: seq<Unit>, j: nat)
    requires 0 < n <= U64_MAX && j < |units|
    requires forall i :: 0 <= i < j ==> StripSuffix(Render(n) + units[j].suffix, units[i].suffix).None?
    ensures ParseQuantity(Render(n) + units[j].suffix, units) == InRange(n * units[j].multiplier)
  {
    hide Render, ParseQuantity, StripSuffix;
    ValueOfRender(n);
    UnitDecides(Render(n) + units[j].suffix, units, j, Render(n), n * units[j].multiplier);
  }

  lemma ByteUnitParses(n: nat, j: nat)
    requires 0 < n <= U64_MAX && j < |BYTE_UNITS|
    ensures ParseBytes(Render(n) + BYTE_UNITS[j].suffix) == InRange(n * BYTE_UNITS[j].multiplier)
  {
    hide Render, ParseQuantity, StripSuffix;
    ValueOfRender(n);
    var s := Render(n) + BYTE_UNITS[j].suffix;
    forall i | 0 <= i < j ensures StripSuffix(s, BYTE_UNITS[i].suffix).None? {
      ByteUnitsApart(s, Render(n), n * BYTE_UNITS[j].multiplier, i, j);
    }
    UnitParses(n, BYTE_UNITS, j);
  }

  lemma DurationUnitParses(n: nat, j: nat)
    requires 0 < n <= U64_MAX && j < |DURATION_UNITS|
    ensures ParseQuantity(Render(n) + DURATION_UNITS[j].suffix, DURATION_UNITS) == InRange(n * DURATION_UNITS[j].multiplier)
  {
    hide Render, ParseQuantity, StripSuffix;
    ValueOfRender(n);
    var s := Render(n) + DURATION_UNITS[j].suffix;
    forall i | 0 <= i < j ensures StripSuffix(s, DURATION_UNITS[i].suffix).None? {
      DurationUnitsApart(s, Render(n), n * DURATION_UNITS[j].multiplier, i, j);
    }
    UnitParses(n, DURATION_UNITS, j);
  }

  /** Every documented suffix, for every positive 64-bit count written plainly: what it stands for, and nothing
      when that is too large. */
  lemma UnitsAsDocumented(n: nat)
    requires 0 < n <= U64_MAX
    ensures ParseBytes(Render(n) + "B") == Some(n)
    ensures ParseBytes(Render(n) + "KiB") == InRange(n * 1024)
    ensures ParseBytes(Render(n) + "MiB") == InRange(n * 1_048_576)
    ensures ParseBytes(Render(n) + "GiB") == InRange(n * 1_073_741_824)
    ensures ParseBytes(Render(n) + "TiB") == InRange(n * 1_099_511_627_776)
    ensures ParseDuration(Render(n) + "ms") == Some(n * 1_000_000)
    ensures ParseDuration(Render(n) + "s") == if n * 1_000 <= U64_MAX then Some(n * 1_000 * 1_000_000) else None
    ensures ParseDuration(Render(n) + "m") == if n * 60_000 <= U64_MAX then Some(n * 60_000 * 1_000_000) else None
    ensures ParseDuration(Render(n) + "h") == if n * 3_600_000 <= U64_MAX then Some(n * 3_600_000 * 1_000_000) else None
  {
    hide Render, ParseQuantity;
    ByteUnitParses(n, 4);
    ByteUnitParses(n, 3);
    ByteUnitParses(n, 2);
    ByteUnitParses(n, 1);
    ByteUnitParses(n, 0);
    DurationUnitParses(n, 0);
    DurationUnitParses(n, 1);
    DurationUnitParses(n, 2);
    DurationUnitParses(n, 3);
  }

  /** The manual's own example. */
  lemma TwentySixGibibytes()
    ensures ParseBytes("26GiB") == Some(27_917_287_424)
  {
    assert Render(2) == "2" && Render(26) == Render(2) + "6";
    assert Render(26) + "GiB" == "26GiB";
    UnitsAsDocumented(26);
  }
}
