/** The byte and duration formatters, in Rust (explain.rs) and in Python (_explain.py): integer rounding
    with unit steps. */
module Formatting {
  import opened Common
  import opened Quantities

  // ---- Bytes ----

  const KIB: nat := 1024
  const MIB: nat := 1_048_576
  const GIB: nat := 1_073_741_824

  const UNITS: seq<(nat, string)> := [(KIB, "KiB"), (MIB, "MiB"), (GIB, "GiB")]

  /** What is printed: plain bytes, or hundredths of a unit. */
  datatype Shown = Plain(bytes: nat) | Hundredths(count: nat, index: nat)

  function Hundredth(value: nat, unit: nat): nat
    requires unit > 0
  {
    (value * 100 + unit / 2) / unit
  }

  /** The last unit that fits, as `rposition` finds it. */
  function LastFitting(value: nat): Option<nat> {
    if value >= GIB then Some(2) else if value >= MIB then Some(1) else if value >= KIB then Some(0) else None
  }

  function ShowBytes(value: nat): Shown {
    match LastFitting(value)
    case None => Plain(value)
    case Some(index) =>
      var first := Hundredth(value, UNITS[index].0);
      if first >= 102_400 && index + 1 < |UNITS| then Hundredths(Hundredth(value, UNITS[index + 1].0), index + 1)
      else Hundredths(first, index)
  }

  function TwoDigits(n: nat): string
    requires n < 100
  {
    if n < 10 then "0" + Render(n) else Render(n)
  }

  function BytesText(s: Shown): string
    requires s.Hundredths? ==> s.index < |UNITS|
  {
    match s
    case Plain(bytes) => Render(bytes) + " B"
    case Hundredths(count, index) =>
      Render(count / 100) + "." + TwoDigits(count % 100) + " " + UNITS[index].1
  }

  function FormatBytes(bytes: u64): string {
    BytesText(ShowBytes(bytes))
  }

  /** The Python side: the indices of the units that fit, and the last of them. */
  function Fitting(value: nat, from: nat): seq<nat>
    requires from <= |UNITS|
    decreases |UNITS| - from
  {
    if from == |UNITS| then []
    else (if value >= UNITS[from].0 then [from] else []) + Fitting(value, from + 1)
  }

  lemma FittingIndices(value: nat)
    ensures Fitting(value, 0) == (if value >= KIB then [0] else []) + (if value >= MIB then [1] else [])
                                 + (if value >= GIB then [2] else [])
  {
    assert Fitting(value, 3) == [];
    assert Fitting(value, 2) == if value >= GIB then [2] else [];
    assert Fitting(value, 1) == (if value >= MIB then [1] else []) + Fitting(value, 2);
  }

  function ClientFormatBytes(value: nat): string {
    var fitting := Fitting(value, 0);
    FittingIndices(value);
    if fitting == [] then Render(value) + " B"
    else
      var index := fitting[|fitting| - 1];
      var rendered := (value * 100 + UNITS[index].0 / 2) / UNITS[index].0;
      var stepped := rendered >= 102_400 && index + 1 < |UNITS|;
      var unit := if stepped then index + 1 else index;
      var shown := if stepped then (value * 100 + UNITS[unit].0 / 2) / UNITS[unit].0 else rendered;
      Render(shown / 100) + "." + TwoDigits(shown % 100) + " " + UNITS[unit].1
  }

  /** Both languages print every byte count alike. */
  lemma BytesAgree(bytes: u64)
    ensures ClientFormatBytes(bytes) == FormatBytes(bytes)
  {
    hide Render, TwoDigits, Fitting;
    FittingIndices(bytes);
    var fitting := Fitting(bytes, 0);
    assert fitting != [] ==> LastFitting(bytes) == Some(fitting[|fitting| - 1]);
  }

  /** The printed quantity in hundredths of a byte. */
  function ShownHundredths(s: Shown): nat
    requires s.Hundredths? ==> s.index < |UNITS|
  {
    match s
    case Plain(bytes) => bytes * 100
    case Hundredths(count, index) => count * UNITS[index].0
  }

  lemma RoundsToNearest(value: nat, unit: nat)
    requires unit == KIB || unit == MIB || unit == GIB
    ensures var count := Hundredth(value, unit);
            -(unit as int) <= 2 * (count * unit - 100 * value) <= unit
  {
  }

  /** The printed byte count is off by at most half of its last digit, no number below the largest unit
      reaches 1024.00, and none below the first decimal unit is shown as zero point something. */
  lemma BytesAreFaithful(bytes: nat)
    ensures var s := ShowBytes(bytes);
            match s
            case Plain(n) => n == bytes < KIB
            case Hundredths(count, index) =>
              && index < |UNITS| && 100 <= count && (index < 2 ==> count < 102_400)
              && -(UNITS[index].0 as int) <= 2 * (ShownHundredths(s) - 100 * bytes) <= UNITS[index].0
  {
    RoundsToNearest(bytes, KIB);
    RoundsToNearest(bytes, MIB);
    RoundsToNearest(bytes, GIB);
  }

  lemma HundredthMonotone(a: nat, b: nat, unit: nat)
    requires a <= b && (unit == KIB || unit == MIB || unit == GIB)
    ensures Hundredth(a, unit) * unit <= Hundredth(b, unit) * unit
  {
  }

  /** A larger count is never printed as a smaller quantity, whatever units the two are shown in. */
  lemma BytesAreMonotone(a: nat, b: nat)
    requires a <= b
    ensures ShownHundredths(ShowBytes(a)) <= ShownHundredths(ShowBytes(b))
  {
    hide Hundredth;
    BytesAreFaithful(a);
    BytesAreFaithful(b);
    HundredthMonotone(a, b, KIB);
    HundredthMonotone(a, b, MIB);
    HundredthMonotone(a, b, GIB);
  }

  // ---- Compared values ----

  function FormatAll(values: seq<u64>): (r: seq<string>)
    ensures |r| == |values| && forall i :: 0 <= i < |r| ==> r[i] == FormatBytes(values[i])
  {
    if values == [] then [] else [FormatBytes(values[0])] + FormatAll(values[1..])
  }

  function ExactAll(values: seq<u64>): (r: seq<string>)
    ensures |r| == |values| && forall i :: 0 <= i < |r| ==> r[i] == Render(values[i]) + " bytes"
  {
    if values == [] then [] else [Render(values[0]) + " bytes"] + ExactAll(values[1..])
  }

  predicate Ambiguous(values: seq<u64>, rendered: seq<string>)
    requires |values| == |rendered|
  {
    exists i, j :: 0 <= i < j < |values| && values[i] != values[j] && rendered[i] == rendered[j]
  }

  function ComparedBytes(values: seq<u64>): (r: seq<string>)
    ensures |r| == |values|
  {
    if Ambiguous(values, FormatAll(values)) then ExactAll(values) else FormatAll(values)
  }

  /** Values that a sentence compares are printed alike exactly when they are equal. */
  lemma ComparedAreDistinct(values: seq<u64>, i: nat, j: nat)
    requires i < |values| && j < |values|
    ensures ComparedBytes(values)[i] == ComparedBytes(values)[j] <==> values[i] == values[j]
  {
    hide FormatBytes, Render;
    var rendered := FormatAll(values);
    if Ambiguous(values, rendered) {
      var a, b := Render(values[i]), Render(values[j]);
      assert (a + " bytes")[..|a + " bytes"| - 6] == a && (b + " bytes")[..|b + " bytes"| - 6] == b;
      RenderInjective(values[i], values[j]);
    } else if values[i] != values[j] {
      var low, high := if i < j then i else j, if i < j then j else i;
      assert rendered[low] != rendered[high];
    }
  }

  // ---- Durations ----

  datatype ShownTime = Millis(ms: nat) | Tenths(tenths: nat) | MinutesSeconds(minutes: nat, seconds: nat)
                     | HoursMinutes(hours: nat, rest: nat)

  function ShowDuration(ms: nat): ShownTime {
    if ms < 1000 then Millis(ms)
    else
      var tenths := (ms + 50) / 100;
      if tenths < 600 then Tenths(tenths)
      else
        var seconds := (ms + 500) / 1000;
        if seconds < 3600 then MinutesSeconds(seconds / 60, seconds % 60)
        else
          var minutes := (ms + 30_000) / 60_000;
          HoursMinutes(minutes / 60, minutes % 60)
  }

  function DurationText(s: ShownTime): string {
    match s
    case Millis(ms) => Render(ms) + " ms"
    case Tenths(t) => Render(t / 10) + "." + Render(t % 10) + " s"
    case MinutesSeconds(m, r) => if r == 0 then Render(m) + " min" else Render(m) + " min " + Render(r) + " s"
    case HoursMinutes(h, r) => if r == 0 then Render(h) + " h" else Render(h) + " h " + Render(r) + " min"
  }

  function FormatDurationMs(ms: u64): string {
    DurationText(ShowDuration(ms))
  }

  function ClientFormatDuration(ms: nat): string {
    if ms < 1000 then Render(ms) + " ms"
    else
      var tenths := (ms + 50) / 100;
      if tenths < 600 then Render(tenths / 10) + "." + Render(tenths % 10) + " s"
      else
        var seconds := (ms + 500) / 1000;
        if seconds < 3600 then
          (if seconds % 60 == 0 then Render(seconds / 60) + " min"
           else Render(seconds / 60) + " min " + Render(seconds % 60) + " s")
        else
          var minutes := (ms + 30_000) / 60_000;
          if minutes % 60 == 0 then Render(minutes / 60) + " h"
          else Render(minutes / 60) + " h " + Render(minutes % 60) + " min"
  }

  lemma DurationsAgree(ms: u64)
    ensures ClientFormatDuration(ms) == FormatDurationMs(ms)
  {
    hide Render;
  }

  /** The printed duration in milliseconds, and the size of its last printed unit. */
  function ShownMs(s: ShownTime): nat {
    match s
    case Millis(ms) => ms
    case Tenths(t) => t * 100
    case MinutesSeconds(m, r) => (m * 60 + r) * 1000
    case HoursMinutes(h, r) => (h * 60 + r) * 60_000
  }

  function LastUnit(s: ShownTime): nat {
    match s
    case Millis(_) => 1
    case Tenths(_) => 100
    case MinutesSeconds(_, _) => 1000
    case HoursMinutes(_, _) => 60_000
  }

  /** The printed duration is off by at most half of its last unit, and neither 60.0 seconds, 60 minutes
      nor a remainder of 60 is ever printed. */
  lemma DurationsAreFaithful(ms: nat)
    ensures var s := ShowDuration(ms);
            && -(LastUnit(s) as int) <= 2 * (ShownMs(s) - ms) <= LastUnit(s)
            && (match s
                case Millis(n) => n < 1000
                case Tenths(t) => 10 <= t < 600
                case MinutesSeconds(m, r) => 1 <= m < 60 && r < 60
                case HoursMinutes(h, r) => 1 <= h && r < 60)
  {
    var seconds, minutes := (ms + 500) / 1000, (ms + 30_000) / 60_000;
    assert seconds == (seconds / 60) * 60 + seconds % 60;
    assert minutes == (minutes / 60) * 60 + minutes % 60;
  }

  function Rounded(ms: nat, unit: nat): nat
    requires unit > 0
  {
    (ms + unit / 2) / unit * unit
  }

  /** The printed total: the first unit whose rounding stays below its ceiling. */
  function Total(ms: nat): nat {
    if ms < 1000 then ms
    else if ms < 59_950 then Rounded(ms, 100)
    else if ms < 3_599_500 then Rounded(ms, 1000)
    else Rounded(ms, 60_000)
  }

  /** The printed total, without splitting it into units. */
  lemma TotalMs(ms: nat)
    ensures ShownMs(ShowDuration(ms)) == Total(ms)
  {
    var seconds, minutes := (ms + 500) / 1000, (ms + 30_000) / 60_000;
    assert seconds == (seconds / 60) * 60 + seconds % 60;
    assert minutes == (minutes / 60) * 60 + minutes % 60;
  }

  lemma RoundedMonotone(a: nat, b: nat, unit: nat)
    requires a <= b && (unit == 100 || unit == 1000 || unit == 60_000)
    ensures Rounded(a, unit) <= Rounded(b, unit)
  {
  }

  /** A longer duration is never printed as a shorter one, whatever units the two are shown in. */
  lemma DurationsAreMonotone(a: nat, b: nat)
    requires a <= b
    ensures ShownMs(ShowDuration(a)) <= ShownMs(ShowDuration(b))
  {
    TotalMs(a);
    TotalMs(b);
    hide ShowDuration, ShownMs, Rounded;
    if 1000 <= a {
      RoundedMonotone(a, b, 100);
      RoundedMonotone(a, b, 1000);
      RoundedMonotone(a, b, 60_000);
    }
    Ceilings(a, b);
  }

  /** Where one unit hands over to the next, no printed total of the smaller unit exceeds the larger's. */
  lemma Ceilings(a: nat, b: nat)
    ensures 1000 <= b ==> 1000 <= Rounded(b, 100)
    ensures a < 59_950 <= b ==> Rounded(a, 100) <= 60_000 <= Rounded(b, 1000)
    ensures a < 3_599_500 <= b ==> Rounded(a, 1000) <= 3_600_000 <= Rounded(b, 60_000)
    ensures 59_950 <= b ==> 60_000 <= Rounded(b, 1000)
    ensures 3_599_500 <= b ==> 3_600_000 <= Rounded(b, 60_000)
    ensures a < 59_950 ==> Rounded(a, 100) <= 60_000
    ensures a < 3_599_500 ==> Rounded(a, 1000) <= 3_600_000
  {
  }

  // ---- The texts themselves ----

  lemma SmallNumbers()
    ensures Render(0) == "0" && Render(1) == "1" && Render(2) == "2" && Render(3) == "3" && Render(5) == "5" && Render(6) == "6"
    ensures Render(10) == "10" && Render(20) == "20" && Render(30) == "30" && Render(40) == "40" && Render(59) == "59"
    ensures Render(102) == "102" && Render(999) == "999" && Render(1023) == "1023"
  {
    assert Render(4) == "4" && Render(9) == "9";
    assert Render(10) == Render(1) + "0" && Render(20) == Render(2) + "0" && Render(30) == Render(3) + "0";
    assert Render(40) == Render(4) + "0" && Render(59) == Render(5) + "9" && Render(99) == Render(9) + "9";
    assert Render(102) == Render(10) + "2" && Render(999) == Render(99) + "9" && Render(1023) == Render(102) + "3";
  }

  /** Hundredths are always two digits, of the number they stand for. */
  lemma TwoDigitsSpell(n: nat)
    requires n < 100
    ensures AllDigits(TwoDigits(n)) && |TwoDigits(n)| == 2 && Value(TwoDigits(n)) == n
  {
    ValueOfRender(n);
    if n < 10 {
      assert TwoDigits(n)[..1] == "0" && "0"[..0] == "";
      assert Value("0") == 0;
    }
  }

  /** What the formatters' own tests print. */
  lemma BytesAsTested()
    ensures FormatBytes(1023) == "1023 B" && FormatBytes(1024) == "1.00 KiB"
    ensures FormatBytes(1_258_291) == "1.20 MiB" && FormatBytes(1_048_575) == "1.00 MiB"
    ensures FormatBytes(6_499_453_256) == "6.05 GiB" && FormatBytes(1_073_741_823) == "1.00 GiB"
  {
    SmallNumbers();
    hide Render;
    assert TwoDigits(0) == "00" && TwoDigits(20) == "20" && TwoDigits(5) == "05";
  }

  lemma DurationsAsTested()
    ensures FormatDurationMs(999) == "999 ms" && FormatDurationMs(1000) == "1.0 s" && FormatDurationMs(39_964) == "40.0 s"
    ensures FormatDurationMs(59_960) == "1 min" && FormatDurationMs(90_000) == "1 min 30 s"
    ensures FormatDurationMs(3_600_000) == "1 h" && FormatDurationMs(7_384_200) == "2 h 3 min"
  {
    SmallNumbers();
    hide Render;
  }
}
