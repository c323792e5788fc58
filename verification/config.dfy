/** The `Watcher` options, their defaults, and the interval text shown in
    the header. Durations are nanoseconds, as in `time.Duration`. */
module Config {
  import opened Wrappers
  import Text

  const Second: int := 1_000_000_000
  const DefaultInterval: int := 2 * Second
  const DefaultTimeFormat: string := "Mon Jan _2 15:04:05 2006"

  /** The options as the caller sets them; zero values mean "use the default". */
  datatype Watcher = Watcher(
    interval: int,
    noTitle: bool,
    exec: bool,
    hostname: Option<string>,
    timeFormat: string)

  /** The options after defaults have been applied. */
  datatype Settings = Settings(
    interval: int,
    noTitle: bool,
    exec: bool,
    hostname: string,
    timeFormat: string)

  /** Applies the defaults. `systemHostname` is what the operating system
      reports, or "" when asking it fails. */
  function Resolve(w: Watcher, systemHostname: string): (s: Settings)
    ensures w.interval == 0 ==> s.interval == DefaultInterval
    ensures w.interval != 0 ==> s.interval == w.interval
    ensures s.interval != 0
    ensures w.timeFormat == "" ==> s.timeFormat == DefaultTimeFormat
    ensures w.timeFormat != "" ==> s.timeFormat == w.timeFormat
    ensures s.timeFormat != ""
    ensures w.hostname.Some? ==> s.hostname == w.hostname.value
    ensures w.hostname.None? ==> s.hostname == systemHostname
    ensures s.noTitle == w.noTitle && s.exec == w.exec
  {
    Settings(
      if w.interval == 0 then DefaultInterval else w.interval,
      w.noTitle,
      w.exec,
      w.hostname.GetOr(systemHostname),
      if w.timeFormat == "" then DefaultTimeFormat else w.timeFormat)
  }

  /** The resolved settings written back as explicit options. */
  function Explicit(s: Settings): Watcher {
    Watcher(s.interval, s.noTitle, s.exec, Some(s.hostname), s.timeFormat)
  }

  /** Resolving is idempotent: options that were already resolved come
      back unchanged, whatever the system would report as hostname. */
  lemma ResolveIdempotent(w: Watcher, systemHostname: string, otherHostname: string)
    ensures Resolve(Explicit(Resolve(w, systemHostname)), otherHostname) == Resolve(w, systemHostname)
  {
  }

  /** Go's `%`, which truncates toward zero (its sign follows `a`). */
  function GoRem(a: int, m: int): (r: int)
    requires m > 0
    ensures a >= 0 ==> 0 <= r < m
    ensures a < 0 ==> -m < r <= 0
  {
    if a >= 0 then a % m else -((-a) % m)
  }

  const Tenth: int := 100_000_000

  /** `d.Truncate(time.Second/10)`: `d` rounded toward zero to a whole
      number of tenths of a second. */
  function TruncateToTenth(d: int): (r: int)
    ensures r % Tenth == 0
    ensures d >= 0 ==> 0 <= r <= d < r + Tenth
    ensures d < 0 ==> r - Tenth < d <= r <= 0
  {
    if d >= 0 then
      var q := d / Tenth;
      assert d == q * Tenth + d % Tenth;
      assert d - GoRem(d, Tenth) == q * Tenth;
      d - GoRem(d, Tenth)
    else
      var q := (-d) / Tenth;
      assert -d == q * Tenth + (-d) % Tenth;
      assert d - GoRem(d, Tenth) == (-q) * Tenth;
      d - GoRem(d, Tenth)
  }

  /** The interval in whole tenths of a second, truncated. */
  function Tenths(interval: int): (t: nat)
    requires interval > 0
    ensures t * Tenth <= interval < (t + 1) * Tenth
  {
    TruncateToTenth(interval) / Tenth
  }

  /** The header's rendering of a positive interval in seconds with one
      decimal, as `%.1f` prints the truncated duration: whole seconds,
      a dot, and the tenths digit. */
  function IntervalLabel(interval: int): string
    requires interval > 0
  {
    var t := Tenths(interval);
    Text.Decimal(t / 10) + "." + [Text.Digit(t % 10)]
  }

  /** The label is whole seconds without a leading zero, a point and one
      digit, and reading it back as a decimal number gives the interval in
      whole tenths of a second. */
  lemma IntervalLabelReadsBack(interval: int)
    requires interval > 0
    ensures var text := IntervalLabel(interval);
            && |text| >= 3 && text[|text| - 2] == '.'
            && Text.IsDigits(text[..|text| - 2]) && Text.IsDigits(text[|text| - 1..])
            && (|text| > 3 ==> text[0] != '0')
            && Text.DecimalValue(text[..|text| - 2]) * 10 + Text.DecimalValue(text[|text| - 1..])
               == Tenths(interval)
  {
    var t := Tenths(interval);
    var whole := Text.Decimal(t / 10);
    var text := IntervalLabel(interval);
    assert text[..|text| - 2] == whole;
    assert text[|text| - 1..] == [Text.Digit(t % 10)];
    assert Text.DecimalValue([Text.Digit(t % 10)]) == t % 10 by {
      assert [Text.Digit(t % 10)][..0] == "";
    }
  }
}
