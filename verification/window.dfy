/** The time-window resolver of the trajectory endpoint: five optional query
    parameters (`start`, `end`, `hours`, `minutes`, `seconds`) become either a
    closed range of instants or the fifteen-minute look-back used whenever no
    branch applies or a parse fails. */
module TimeWindow {
  import opened Wrappers
  import opened PyInt
  import opened Timestamp

  /** `Range(s, e)` selects timestamps `s <= t <= e`; `Lookback15` selects
      timestamps no older than fifteen minutes before the store's `NOW()`. */
  datatype Window = Range(start: int, end: int) | Lookback15

  const LookbackSeconds: int := 15 * 60

  datatype QueryArgs = QueryArgs(
    start: Option<string>,
    end: Option<string>,
    hours: Option<string>,
    minutes: Option<string>,
    seconds: Option<string>)

  /** `int(x or 0)`: an absent or empty parameter counts as 0. */
  function DurationPart(x: Option<string>): Option<int> {
    match x
    case None => Some(0)
    case Some(text) => if text == "" then Some(0) else ParseInt(text)
  }

  /** `timedelta(hours=h, minutes=m, seconds=s)` in seconds, or `None` when
      one of the `int` conversions raises. */
  function Duration(args: QueryArgs): Option<int> {
    match (DurationPart(args.hours), DurationPart(args.minutes), DurationPart(args.seconds))
    case (Some(h), Some(m), Some(s)) => Some(3600 * h + 60 * m + s)
    case _ => None
  }

  predicate AnyDurationGiven(args: QueryArgs) {
    args.hours.Some? || args.minutes.Some? || args.seconds.Some?
  }

  /** An instant shifted by a duration, or `None` where the `datetime`
      arithmetic overflows. */
  function Shift(t: int, d: int): Option<int> {
    if InDatetimeRange(t + d) then Some(t + d) else None
  }

  /** The body of the `try` block: which branch applies is decided by which
      parameters are present; `None` stands for an exception raised inside the
      chosen branch. */
  function TryResolve(args: QueryArgs): Option<Window> {
    if args.start.Some? && args.end.Some? then
      match (ParseTimestamp(args.start.value), ParseTimestamp(args.end.value))
      case (Some(s), Some(e)) => Some(Range(s, e))
      case _ => None
    else if args.start.Some? && AnyDurationGiven(args) then
      match (ParseTimestamp(args.start.value), Duration(args))
      case (Some(s), Some(d)) =>
        (match Shift(s, d)
         case Some(e) => Some(Range(s, e))
         case None => None)
      case _ => None
    else if args.end.Some? && AnyDurationGiven(args) then
      match (ParseTimestamp(args.end.value), Duration(args))
      case (Some(e), Some(d)) =>
        (match Shift(e, -d)
         case Some(s) => Some(Range(s, e))
         case None => None)
      case _ => None
    else
      Some(Lookback15)
  }

  /** The window the handler filters by: any exception in the `try` block
      selects the look-back, so resolution never fails. */
  function ResolveWindow(args: QueryArgs): (w: Window)
    ensures w.Range? ==> InDatetimeRange(w.start) && InDatetimeRange(w.end)
    ensures w.Range? ==> args.start.Some? || args.end.Some?
    ensures w.Range? && args.start.Some? ==> ParseTimestamp(args.start.value) == Some(w.start)
    ensures w.Range? && args.end.Some? ==> ParseTimestamp(args.end.value) == Some(w.end)
  {
    TryResolve(args).GetOr(Lookback15)
  }

  /** Both timestamps given and readable: the window is exactly the two
      instants, inclusive at both ends. */
  lemma BothGivenIsExact(args: QueryArgs, a: int, b: int)
    requires args.start.Some? && args.end.Some?
    requires ParseTimestamp(args.start.value) == Some(a)
    requires ParseTimestamp(args.end.value) == Some(b)
    ensures ResolveWindow(args) == Range(a, b)
  {
  }

  /** Both timestamps given but one unreadable: the look-back is chosen
      even when durations are present and the other timestamp is readable;
      the duration branches are not consulted. */
  lemma BothGivenUnreadableFallsBack(args: QueryArgs)
    requires args.start.Some? && args.end.Some?
    requires ParseTimestamp(args.start.value).None? || ParseTimestamp(args.end.value).None?
    ensures ResolveWindow(args) == Lookback15
  {
  }

  /** With both timestamps given, the duration parameters have no influence. */
  lemma DurationsIgnoredWhenBothGiven(args: QueryArgs, hours: Option<string>, minutes: Option<string>, seconds: Option<string>)
    requires args.start.Some? && args.end.Some?
    ensures ResolveWindow(args) == ResolveWindow(args.(hours := hours, minutes := minutes, seconds := seconds))
  {
  }

  /** Only `start` and some duration given: the window runs from `start`
      for `3600*h + 60*m + s` seconds, absent or empty components counting
      as 0; an end outside the `datetime` range selects the look-back. */
  lemma StartPlusDuration(args: QueryArgs, a: int, h: int, m: int, s: int)
    requires args.start.Some? && args.end.None? && AnyDurationGiven(args)
    requires ParseTimestamp(args.start.value) == Some(a)
    requires args.hours.None? || args.hours == Some("") || ParseInt(args.hours.value) == Some(h)
    requires args.hours.None? || args.hours == Some("") ==> h == 0
    requires args.minutes.None? || args.minutes == Some("") || ParseInt(args.minutes.value) == Some(m)
    requires args.minutes.None? || args.minutes == Some("") ==> m == 0
    requires args.seconds.None? || args.seconds == Some("") || ParseInt(args.seconds.value) == Some(s)
    requires args.seconds.None? || args.seconds == Some("") ==> s == 0
    ensures InDatetimeRange(a + 3600 * h + 60 * m + s) ==> ResolveWindow(args) == Range(a, a + 3600 * h + 60 * m + s)
    ensures !InDatetimeRange(a + 3600 * h + 60 * m + s) ==> ResolveWindow(args) == Lookback15
  {
  }

  /** Only `end` and some duration given: the window ends at `end` and
      starts `3600*h + 60*m + s` seconds earlier, absent or empty components
      counting as 0; a start outside the `datetime` range selects the
      look-back. */
  lemma EndMinusDuration(args: QueryArgs, b: int, h: int, m: int, s: int)
    requires args.start.None? && args.end.Some? && AnyDurationGiven(args)
    requires ParseTimestamp(args.end.value) == Some(b)
    requires args.hours.None? || args.hours == Some("") || ParseInt(args.hours.value) == Some(h)
    requires args.hours.None? || args.hours == Some("") ==> h == 0
    requires args.minutes.None? || args.minutes == Some("") || ParseInt(args.minutes.value) == Some(m)
    requires args.minutes.None? || args.minutes == Some("") ==> m == 0
    requires args.seconds.None? || args.seconds == Some("") || ParseInt(args.seconds.value) == Some(s)
    requires args.seconds.None? || args.seconds == Some("") ==> s == 0
    ensures InDatetimeRange(b - (3600 * h + 60 * m + s)) ==> ResolveWindow(args) == Range(b - (3600 * h + 60 * m + s), b)
    ensures !InDatetimeRange(b - (3600 * h + 60 * m + s)) ==> ResolveWindow(args) == Lookback15
  {
  }

  /** Neither timestamp given (no parameters at all, or durations alone):
      the look-back. */
  lemma NoTimestampFallsBack(args: QueryArgs)
    requires args.start.None? && args.end.None?
    ensures ResolveWindow(args) == Lookback15
  {
  }

  /** A single timestamp without any duration: the look-back. */
  lemma LoneTimestampFallsBack(args: QueryArgs)
    requires args.start.None? || args.end.None?
    requires !AnyDurationGiven(args)
    ensures ResolveWindow(args) == Lookback15
  {
  }

  /** A single timestamp with a duration component that is not an integer:
      the look-back. */
  lemma NonIntegerDurationFallsBack(args: QueryArgs)
    requires args.start.None? || args.end.None?
    requires Duration(args).None?
    ensures ResolveWindow(args) == Lookback15
  {
  }

  /** The three ways of naming the same window agree: `start` plus a
      duration, `end` minus it, and both endpoints. */
  lemma BranchesAgree(st: string, en: string, a: int, d: int, hours: Option<string>, minutes: Option<string>, seconds: Option<string>)
    requires ParseTimestamp(st) == Some(a)
    requires ParseTimestamp(en) == Some(a + d)
    requires hours.Some? || minutes.Some? || seconds.Some?
    requires Duration(QueryArgs(None, None, hours, minutes, seconds)) == Some(d)
    ensures ResolveWindow(QueryArgs(Some(st), None, hours, minutes, seconds)) == Range(a, a + d)
    ensures ResolveWindow(QueryArgs(None, Some(en), hours, minutes, seconds)) == Range(a, a + d)
    ensures ResolveWindow(QueryArgs(Some(st), Some(en), None, None, None)) == Range(a, a + d)
  {
  }

  /** Negative durations are not clamped: `hours=-1` after `start` gives a
      window whose end precedes its start. */
  lemma NegativeDurationReverses(st: string, a: int)
    requires ParseTimestamp(st) == Some(a)
    requires InDatetimeRange(a - 3600)
    ensures ResolveWindow(QueryArgs(Some(st), None, Some("-1"), None, None)) == Range(a, a - 3600)
  {
    ParseFormatInt(-1);
    assert FormatInt(-1) == "-1";
  }
}
