/**
  The logic of the main screen in `app/index.tsx`: the horizontal-swipe decision,
  the forward and backward navigation handlers, the date-picker handler, the
  effect that runs when the current date changes, and `fetchApods` with its loop
  that skips days whose record is not an image.

  The remote service is a total function `api` from a date string to the record
  that `fetch` and `response.json()` produce, `None` when either throws. "Today"
  and the swipe threshold are parameters; the device runs in UTC.
 */
module IndexScreen {
  import opened Wrappers
  import opened Calendar
  import opened DateFormatting
  import opened Store

  /** `MAX_APOD_SKIPS`: how many extra days `fetchApods` may try. */
  const MaxApodSkips := 5

  /** The remote service: one request and its parsed body per date. */
  type Api = string -> Option<Apod>

  predicate IsImage(r: Apod) {
    r.mediaType == "image"
  }

  // ---------------------------------------------------------------------------
  // Gesture end

  datatype PanAction = GoToNextDay | GoToPrevDay | NoNavigation

  /** The test at the end of a horizontal pan: past the threshold to the right or left, or neither. */
  function PanDecision(offset: int, threshold: int): (a: PanAction)
    requires threshold > 0
    ensures a == GoToNextDay <==> offset > threshold
    ensures a == GoToPrevDay <==> offset < -threshold
    ensures a == NoNavigation <==> -threshold <= offset <= threshold
  {
    if offset > threshold then GoToNextDay
    else if offset < -threshold then GoToPrevDay
    else NoNavigation
  }

  // ---------------------------------------------------------------------------
  // Navigation handlers

  /**
    What a navigation handler does: returns false with the store untouched,
    calls `setApodDate(date, direction)` and returns true, or throws the
    RangeError of `toISOString` on an invalid date with the store untouched.
   */
  datatype NavOutcome = NotNavigated | Moved(date: string, direction: SwipeDirection) | Threw

  /** `navigateToPrevDay`: refuses when no APOD is shown; otherwise there is no lower bound. */
  function PrevDayOutcome(apodLoaded: bool, currentDate: string): (o: NavOutcome)
    ensures o == NotNavigated <==> !apodLoaded
    ensures o.Moved? <==> apodLoaded && IsDateString(currentDate)
    ensures o.Moved? ==> o.direction == Left && DecrementDate(currentDate) == Some(o.date)
  {
    if !apodLoaded then NotNavigated
    else match DecrementDate(currentDate)
      case None => Threw
      case Some(prev) => Moved(prev, Left)
  }

  /**
    `navigateToNextDay`: refuses when no APOD is shown, and when the day after the
    current date is not before today. `nextDay >= today` compares time values;
    both are at midnight UTC, so it compares day numbers. On an invalid current
    date the comparison with NaN is false and `toISOString` throws.
   */
  function NextDayOutcome(apodLoaded: bool, currentDate: string, today: Date): (o: NavOutcome)
    requires IsValid(today)
    ensures o == NotNavigated <==>
      !apodLoaded || (IsDateString(currentDate) && !Before(NextDay(ParseDate(currentDate).value), today))
    ensures o == Threw <==> apodLoaded && !IsDateString(currentDate)
    ensures o.Moved? ==> o.direction == Right && IncrementDate(currentDate) == Some(o.date)
    ensures o.Moved? ==> Before(NextDay(ParseDate(currentDate).value), today)
  {
    if !apodLoaded then NotNavigated
    else match ParseDate(currentDate)
      case None => Threw
      case Some(d) =>
        var next := NextDay(d);
        BeforeIffEarlierDayNumber(next, today);
        if DayNumber(next) >= DayNumber(today) then NotNavigated
        else Moved(IsoDatePart(next), Right)
  }

  /**
    `nextDay >= today` compares the time values of two midnights, each
    `EpochDay * 86400000`; that holds exactly when the next day is not before today.
   */
  lemma MidnightComparisonIsDateOrder(nextDay: Date, today: Date)
    requires IsValid(nextDay) && IsValid(today)
    ensures EpochDay(nextDay) * MsPerDay >= EpochDay(today) * MsPerDay <==> !Before(nextDay, today)
  {
    DayNumberIsEpochDay(nextDay);
    DayNumberIsEpochDay(today);
    BeforeIffEarlierDayNumber(nextDay, today);
  }

  /** A forward swipe never lands on today or later, in string order as well. */
  lemma ForwardNeverReachesToday(apodLoaded: bool, currentDate: string, today: Date)
    requires IsValid(today) && IsFourDigitYear(today.year)
    ensures var o := NextDayOutcome(apodLoaded, currentDate, today);
      o.Moved? ==> LexLess(o.date, IsoDatePart(today))
  {
    var o := NextDayOutcome(apodLoaded, currentDate, today);
    if o.Moved? {
      var next := NextDay(ParseDate(currentDate).value);
      IsoOrderIsChronological(next, today);
    }
  }

  /**
    From today, and also from yesterday, a forward swipe is refused: with both
    dates at midnight UTC, the day after yesterday equals today and `>=` holds.
   */
  lemma ForwardRefusedFromTodayAndYesterday(today: Date)
    requires IsValid(today) && IsFourDigitYear(today.year) && IsFourDigitYear(PrevDay(today).year)
    ensures NextDayOutcome(true, IsoDatePart(today), today) == NotNavigated
    ensures NextDayOutcome(true, IsoDatePart(PrevDay(today)), today) == NotNavigated
  {
    FormatThenParse(today);
    FormatThenParse(PrevDay(today));
    NextPrevInverse(today);
    NextDayIsSuccessor(today, today);
    BeforeIffEarlierDayNumber(today, NextDay(today));
  }

  /** The whole effect of a pan gesture's end on the navigation. */
  function PanEndOutcome(offset: int, threshold: int, apodLoaded: bool, currentDate: string, today: Date): (o: NavOutcome)
    requires threshold > 0 && IsValid(today)
    ensures -threshold <= offset <= threshold ==> o == NotNavigated
    ensures offset > threshold ==> o == NextDayOutcome(apodLoaded, currentDate, today)
    ensures offset < -threshold ==> o == PrevDayOutcome(apodLoaded, currentDate)
    ensures o.Moved? && o.direction == Right <==> offset > threshold && NextDayOutcome(apodLoaded, currentDate, today).Moved?
    ensures o.Moved? && o.direction == Left <==> offset < -threshold && PrevDayOutcome(apodLoaded, currentDate).Moved?
  {
    match PanDecision(offset, threshold)
    case GoToNextDay => NextDayOutcome(apodLoaded, currentDate, today)
    case GoToPrevDay => PrevDayOutcome(apodLoaded, currentDate)
    case NoNavigation => NotNavigated
  }

  // ---------------------------------------------------------------------------
  // The skip loop of `fetchApods`

  /** The requests made, and the final date and record, or a failure. */
  datatype Fetch =
    | Fetched(requested: seq<string>, date: string, record: Apod)
    | Failed(requested: seq<string>)

  /** A one-day step on date strings; `None` when it throws. */
  type Stepper = string -> Option<string>

  /** The skip step: forward only for a right swipe, backward for left and for no direction. */
  function DayStep(direction: Option<SwipeDirection>): Stepper {
    if direction == Some(Right) then IncrementDate else DecrementDate
  }

  function Prefixed(prefix: seq<string>, f: Fetch): Fetch {
    f.(requested := prefix + f.requested)
  }

  /**
    Request `date`; while the record is not an image and skips remain, step one
    day in `direction` and request again. A failed request, or a step that throws,
    fails the whole search.
   */
  function SkipSearch(api: Api, step: Stepper, date: string, skipsLeft: nat): Fetch
    decreases skipsLeft
  {
    match api(date)
    case None => Failed([date])
    case Some(data) =>
      if IsImage(data) || skipsLeft == 0 then Fetched([date], date, data)
      else match step(date)
        case None => Failed([date])
        case Some(next) => Prefixed([date], SkipSearch(api, step, next, skipsLeft - 1))
  }

  /**
    The requests the search makes: at most `skipsLeft + 1`, the first for `date`,
    each next one a single `step` from the one before, and every one but the last
    answered with a non-image.
   */
  lemma {:induction false} SkipSearchRequests(api: Api, step: Stepper, date: string, skipsLeft: nat)
    ensures var r := SkipSearch(api, step, date, skipsLeft);
      && 1 <= |r.requested| <= skipsLeft + 1 && r.requested[0] == date
      && (forall k {:trigger step(r.requested[k])} :: 0 <= k < |r.requested| - 1 ==>
            step(r.requested[k]) == Some(r.requested[k + 1]))
      && (forall k :: 0 <= k < |r.requested| - 1 ==>
            api(r.requested[k]).Some? && !IsImage(api(r.requested[k]).value))
    decreases skipsLeft
  {
    var data := api(date);
    if data.Some? && !IsImage(data.value) && skipsLeft > 0 && step(date).Some? {
      var next := step(date).value;
      SkipSearchRequests(api, step, next, skipsLeft - 1);
      var rest := SkipSearch(api, step, next, skipsLeft - 1);
      var r := SkipSearch(api, step, date, skipsLeft);
      assert r.requested == [date] + rest.requested;
      forall k {:trigger step(r.requested[k])} | 1 <= k < |r.requested| - 1
        ensures step(r.requested[k]) == Some(r.requested[k + 1])
      {
        assert r.requested[k] == rest.requested[k - 1] && r.requested[k + 1] == rest.requested[k];
      }
      forall k | 1 <= k < |r.requested| - 1
        ensures api(r.requested[k]).Some? && !IsImage(api(r.requested[k]).value)
      {
        assert r.requested[k] == rest.requested[k - 1];
      }
    }
  }

  /**
    How the search ends: a success returns the record of the last request, and a
    non-image success means every skip was used; a failure is a failed request,
    or a non-image answer with skips left whose `step` threw.
   */
  lemma {:induction false} SkipSearchOutcome(api: Api, step: Stepper, date: string, skipsLeft: nat)
    ensures var r := SkipSearch(api, step, date, skipsLeft);
      && 1 <= |r.requested| <= skipsLeft + 1
      && (r.Fetched? ==> r.date == r.requested[|r.requested| - 1] && api(r.date) == Some(r.record))
      && (r.Fetched? && !IsImage(r.record) ==> |r.requested| == skipsLeft + 1)
      && (r.Failed? ==>
            var last := r.requested[|r.requested| - 1];
            api(last).None? || (|r.requested| <= skipsLeft && !IsImage(api(last).value) && step(last).None?))
    decreases skipsLeft
  {
    var data := api(date);
    if data.Some? && !IsImage(data.value) && skipsLeft > 0 && step(date).Some? {
      var next := step(date).value;
      SkipSearchOutcome(api, step, next, skipsLeft - 1);
      var rest := SkipSearch(api, step, next, skipsLeft - 1);
      var r := SkipSearch(api, step, date, skipsLeft);
      assert r.requested == [date] + rest.requested;
      assert r.requested[|r.requested| - 1] == rest.requested[|rest.requested| - 1];
    }
  }

  /** The first and last days with four-digit years, as day numbers. */
  const FirstFourDigitDay := 0
  const LastFourDigitDay := 3652424

  /**
    How far along a date string lies in the direction a skip moves: its day
    number going forward, the negated day number going backward; `None` when
    the string is not a date string.
   */
  function Progress(forward: bool): string -> Option<int> {
    if forward then ForwardProgress else BackwardProgress
  }

  function ForwardProgress(s: string): Option<int> {
    if IsDateString(s) then Some(DayNumber(ParseDate(s).value)) else None
  }

  function BackwardProgress(s: string): Option<int> {
    if IsDateString(s) then Some(-DayNumber(ParseDate(s).value)) else None
  }

  /** The furthest progress within four-digit years: 9999-12-31 forward, 0000-01-01 backward. */
  function ProgressLimit(forward: bool): int {
    if forward then LastFourDigitDay else -FirstFourDigitDay
  }

  /** `date` is a date string, and `steps` more days in `direction` from it stay within four-digit years. */
  predicate HasRoom(date: string, direction: Option<SwipeDirection>, steps: nat) {
    var forward := direction == Some(Right);
    Progress(forward)(date).Some? && Progress(forward)(date).value + steps <= ProgressLimit(forward)
  }

  /** The boundary constants are the day numbers of 0000-01-01 and 9999-12-31. */
  lemma FourDigitDayNumbers()
    ensures DayNumber(Date(0, 1, 1)) == FirstFourDigitDay
    ensures DayNumber(Date(9999, 12, 31)) == LastFourDigitDay
  {
    DaysBeforeYearClosedForm(9999);
  }

  /** A date string whose day precedes 9999-12-31 is not that date. */
  lemma BeforeLastFourDigitDay(date: string)
    requires IsDateString(date) && DayNumber(ParseDate(date).value) < LastFourDigitDay
    ensures date != LastFourDigitDate
  {
    ParseOfBoundaries();
    FourDigitDayNumbers();
  }

  /** A date string whose day follows 0000-01-01 is not that date. */
  lemma AfterFirstFourDigitDay(date: string)
    requires IsDateString(date) && DayNumber(ParseDate(date).value) > FirstFourDigitDay
    ensures date != FirstFourDigitDate
  {
    ParseOfBoundaries();
    FourDigitDayNumbers();
  }

  /** The day after a date string before 9999-12-31 is a date string one day later. */
  lemma IncrementBeforeLastDay(date: string)
    requires IsDateString(date) && DayNumber(ParseDate(date).value) < LastFourDigitDay
    ensures IncrementDate(date).Some? && IsDateString(IncrementDate(date).value)
    ensures DayNumber(ParseDate(IncrementDate(date).value).value) == DayNumber(ParseDate(date).value) + 1
  {
    BeforeLastFourDigitDay(date);
    IncrementDateIsNextCalendarDay(date);
  }

  /** The day before a date string after 0000-01-01 is a date string one day earlier. */
  lemma DecrementAfterFirstDay(date: string)
    requires IsDateString(date) && DayNumber(ParseDate(date).value) > FirstFourDigitDay
    ensures DecrementDate(date).Some? && IsDateString(DecrementDate(date).value)
    ensures DayNumber(ParseDate(DecrementDate(date).value).value) == DayNumber(ParseDate(date).value) - 1
  {
    AfterFirstFourDigitDay(date);
    DecrementDateIsPrevCalendarDay(date);
  }

  /**
    `step` moves `s`, when it is measured below `limit`, exactly one further
    along `measure`.
   */
  ghost predicate AdvancesAt(step: Stepper, measure: string -> Option<int>, limit: int, s: string) {
    measure(s).Some? && measure(s).value < limit ==>
      step(s).Some? && measure(step(s).value) == Some(measure(s).value + 1)
  }

  /** `step` moves every string measured below `limit` exactly one further along `measure`. */
  ghost predicate Advances(step: Stepper, measure: string -> Option<int>, limit: int) {
    forall s :: AdvancesAt(step, measure, limit, s)
  }

  /** A forward skip from a date before 9999-12-31 lands on the next day. */
  lemma ForwardStep(date: string)
    requires IsDateString(date) && DayNumber(ParseDate(date).value) < LastFourDigitDay
    ensures AdvancesAt(IncrementDate, ForwardProgress, ProgressLimit(true), date)
  {
    IncrementBeforeLastDay(date);
    var next := IncrementDate(date).value;
    assert ForwardProgress(date) == Some(DayNumber(ParseDate(date).value));
    assert ForwardProgress(next) == Some(DayNumber(ParseDate(next).value));
  }

  /** A backward skip from a date after 0000-01-01 lands on the previous day. */
  lemma BackwardStep(date: string)
    requires IsDateString(date) && DayNumber(ParseDate(date).value) > FirstFourDigitDay
    ensures AdvancesAt(DecrementDate, BackwardProgress, ProgressLimit(false), date)
  {
    DecrementAfterFirstDay(date);
    var next := DecrementDate(date).value;
    assert BackwardProgress(date) == Some(-DayNumber(ParseDate(date).value));
    assert BackwardProgress(next) == Some(-DayNumber(ParseDate(next).value));
  }

  /** The skip step of every swipe direction advances progress in that direction. */
  lemma DayStepAdvances(direction: Option<SwipeDirection>)
    ensures var forward := direction == Some(Right);
      Advances(DayStep(direction), Progress(forward), ProgressLimit(forward))
  {
    if direction == Some(Right) {
      forall s ensures AdvancesAt(IncrementDate, ForwardProgress, ProgressLimit(true), s) {
        if IsDateString(s) && DayNumber(ParseDate(s).value) < LastFourDigitDay {
          ForwardStep(s);
        }
      }
    } else {
      forall s ensures AdvancesAt(DecrementDate, BackwardProgress, ProgressLimit(false), s) {
        if IsDateString(s) && DayNumber(ParseDate(s).value) > FirstFourDigitDay {
          BackwardStep(s);
        }
      }
    }
  }

  /** A search along an advancing step, with room for every skip and a record for every request, cannot fail. */
  lemma {:induction false} AdvancingSearchSucceeds(
    api: Api, step: Stepper, measure: string -> Option<int>, limit: int, date: string, skipsLeft: nat)
    requires Advances(step, measure, limit)
    requires measure(date).Some? && measure(date).value + skipsLeft <= limit
    requires forall s :: api(s).Some?
    ensures SkipSearch(api, step, date, skipsLeft).Fetched?
    decreases skipsLeft
  {
    if !IsImage(api(date).value) && skipsLeft > 0 {
      assert AdvancesAt(step, measure, limit, date);
      AdvancingSearchSucceeds(api, step, measure, limit, step(date).value, skipsLeft - 1);
    }
  }

  /**
    The search from `date` succeeded after using all `skipsLeft` skips: it made
    `skipsLeft + 1` requests, returned the record of the last one, and that last
    date lies `skipsLeft` further along `measure` than `date`.
   */
  ghost predicate ExhaustsBound(api: Api, step: Stepper, measure: string -> Option<int>, date: string, skipsLeft: nat) {
    var r := SkipSearch(api, step, date, skipsLeft);
    && r.Fetched? && |r.requested| == skipsLeft + 1 && api(r.requested[skipsLeft]) == Some(r.record)
    && measure(date).Some? && measure(r.date) == Some(measure(date).value + skipsLeft)
  }

  /**
    Along an advancing step with room for every skip, when every request returns
    a non-image record, the search uses the whole bound and lands `skipsLeft`
    steps further along.
   */
  lemma {:induction false} AdvancingSearchExhausts(
    api: Api, step: Stepper, measure: string -> Option<int>, limit: int, date: string, skipsLeft: nat)
    requires Advances(step, measure, limit)
    requires measure(date).Some? && measure(date).value + skipsLeft <= limit
    requires forall s :: api(s).Some? && !IsImage(api(s).value)
    ensures ExhaustsBound(api, step, measure, date, skipsLeft)
    decreases skipsLeft
  {
    if skipsLeft > 0 {
      assert AdvancesAt(step, measure, limit, date);
      var next := step(date).value;
      AdvancingSearchExhausts(api, step, measure, limit, next, skipsLeft - 1);
      var rest := SkipSearch(api, step, next, skipsLeft - 1);
      var r := SkipSearch(api, step, date, skipsLeft);
      assert r.requested == [date] + rest.requested;
      assert r.requested[skipsLeft] == rest.requested[skipsLeft - 1];
    }
  }

  /** With room for every skip and a record for every request, the search cannot fail. */
  lemma SearchWithRoomSucceeds(api: Api, direction: Option<SwipeDirection>, date: string, skipsLeft: nat)
    requires HasRoom(date, direction, skipsLeft)
    requires forall s :: api(s).Some?
    ensures SkipSearch(api, DayStep(direction), date, skipsLeft).Fetched?
  {
    var forward := direction == Some(Right);
    DayStepAdvances(direction);
    AdvancingSearchSucceeds(api, DayStep(direction), Progress(forward), ProgressLimit(forward), date, skipsLeft);
  }

  /**
    When every request returns a record and none is an image, the search makes
    exactly `skipsLeft + 1` requests (the bound, not one more) and returns the
    last record, `skipsLeft` days further in the direction of the swipe.
   */
  lemma NonImageDaysExhaustTheBound(api: Api, direction: Option<SwipeDirection>, date: string, skipsLeft: nat)
    requires HasRoom(date, direction, skipsLeft)
    requires forall s :: api(s).Some? && !IsImage(api(s).value)
    ensures ExhaustsBound(api, DayStep(direction), Progress(direction == Some(Right)), date, skipsLeft)
  {
    var forward := direction == Some(Right);
    DayStepAdvances(direction);
    AdvancingSearchExhausts(api, DayStep(direction), Progress(forward), ProgressLimit(forward), date, skipsLeft);
  }

  /**
    The skip loop is not bounded by today: starting from yesterday with a right
    swipe, and no image for any day, the search ends four days after today.
   */
  lemma SkipLoopCanPassToday(api: Api, today: Date)
    requires IsValid(today) && 1 <= today.year <= 9998
    requires forall s :: api(s).Some? && !IsImage(api(s).value)
    ensures var r := SkipSearch(api, DayStep(Some(Right)), IsoDatePart(PrevDay(today)), MaxApodSkips);
      r.Fetched? && IsDateString(r.date) && Before(today, ParseDate(r.date).value)
  {
    var start := IsoDatePart(PrevDay(today));
    var r := SkipSearch(api, DayStep(Some(Right)), start, MaxApodSkips);
    assert r.Fetched? && ForwardProgress(r.date) == Some(DayNumber(today) - 1 + MaxApodSkips) by {
      YesterdayHasRoom(today);
      NonImageDaysExhaustTheBound(api, Some(Right), start, MaxApodSkips);
      assert Progress(Some(Right) == Some(Right)) == ForwardProgress;
      assert ExhaustsBound(api, DayStep(Some(Right)), ForwardProgress, start, MaxApodSkips);
    }
    BeforeIffEarlierDayNumber(today, ParseDate(r.date).value);
  }

  /** Yesterday, for a today before year 9999, is a date string with room for every skip forward. */
  lemma YesterdayHasRoom(today: Date)
    requires IsValid(today) && 1 <= today.year <= 9998
    ensures ForwardProgress(IsoDatePart(PrevDay(today))) == Some(DayNumber(today) - 1)
    ensures HasRoom(IsoDatePart(PrevDay(today)), Some(Right), MaxApodSkips)
  {
    FormatThenParse(PrevDay(today));
    PrevDayIsOneDayEarlier(today);
    BeforeLastFourDigitYear(today);
  }

  /** A date before year 9999 lies at least a year's worth of days before 9999-12-31. */
  lemma BeforeLastFourDigitYear(d: Date)
    requires IsValid(d) && d.year <= 9998
    ensures DayNumber(d) + 365 <= LastFourDigitDay
  {
    DayOfYearBounds(d);
    DaysBeforeYearMonotone(d.year, 9999);
    FourDigitDayNumbers();
  }

  lemma PrefixedNothing(f: Fetch)
    ensures Prefixed([], f) == f
  {
    assert [] + f.requested == f.requested;
  }

  lemma PrefixedTwice(p: seq<string>, q: seq<string>, f: Fetch)
    ensures Prefixed(p, Prefixed(q, f)) == Prefixed(p + q, f)
  {
    assert p + (q + f.requested) == (p + q) + f.requested;
  }

  /** How the search ends at `date` when it does not skip further. */
  lemma SkipEnds(api: Api, step: Stepper, date: string, skipsLeft: nat)
    ensures api(date).None? ==> SkipSearch(api, step, date, skipsLeft) == Failed([date])
    ensures api(date).Some? && (IsImage(api(date).value) || skipsLeft == 0) ==>
      SkipSearch(api, step, date, skipsLeft) == Fetched([date], date, api(date).value)
    ensures api(date).Some? && !IsImage(api(date).value) && skipsLeft > 0 && step(date).None? ==>
      SkipSearch(api, step, date, skipsLeft) == Failed([date])
  {
  }

  /** One unfolding of the search at a non-image record with a skip left. */
  lemma SkipOnce(api: Api, step: Stepper, date: string, skipsLeft: nat)
    requires api(date).Some? && !IsImage(api(date).value) && skipsLeft > 0
    requires step(date).Some?
    ensures SkipSearch(api, step, date, skipsLeft)
            == Prefixed([date], SkipSearch(api, step, step(date).value, skipsLeft - 1))
  {
  }

  /**
    The request loop of `fetchApods`: request `date`, then keep stepping while the
    record is not an image and fewer than `MaxApodSkips` skips were made, stopping
    at the first failed request or step.
   */
  method SkipLoop(api: Api, step: Stepper, date: string) returns (result: Fetch)
    ensures result == SkipSearch(api, step, date, MaxApodSkips)
  {
    var response := api(date);
    if response.None? {
      SkipEnds(api, step, date, MaxApodSkips);
      return Failed([date]);
    }
    var data := response.value;
    var current := date;
    var requested := [date];
    var i := 0;
    ghost var done: seq<string> := [];
    PrefixedNothing(SkipSearch(api, step, date, MaxApodSkips));
    while !IsImage(data) && i < MaxApodSkips
      invariant 0 <= i <= MaxApodSkips
      invariant requested == done + [current] && |done| == i
      invariant api(current) == Some(data)
      invariant SkipSearch(api, step, date, MaxApodSkips)
                == Prefixed(done, SkipSearch(api, step, current, MaxApodSkips - i))
    {
      var next := step(current);
      if next.None? {
        SkipEnds(api, step, current, MaxApodSkips - i);
        return Failed(requested);
      }
      SkipOnce(api, step, current, MaxApodSkips - i);
      PrefixedTwice(done, [current], SkipSearch(api, step, next.value, MaxApodSkips - i - 1));
      done := done + [current];
      current := next.value;
      var nextResponse := api(current);
      requested := requested + [current];
      if nextResponse.None? {
        SkipEnds(api, step, current, MaxApodSkips - i - 1);
        return Failed(requested);
      }
      data := nextResponse.value;
      i := i + 1;
    }
    SkipEnds(api, step, current, MaxApodSkips - i);
    result := Fetched(requested, current, data);
  }

  // ---------------------------------------------------------------------------
  // The date-change effect

  datatype DateLookup = CacheHit(date: string, record: Apod) | CacheMiss(date: string)

  /** The date to show (an empty date means today) and whether the cache holds it. */
  function LookupDate(pastQueries: map<string, Apod>, currentDate: string, today: Date): (l: DateLookup)
    requires IsValid(today) && IsIsoYear(today.year)
    ensures currentDate != "" ==> l.date == currentDate
    ensures currentDate == "" ==> l.date == IsoDatePart(today)
    ensures l.CacheHit? <==> l.date in pastQueries
    ensures l.CacheHit? ==> l.record == pastQueries[l.date]
  {
    var date := if currentDate == "" then IsoDatePart(today) else currentDate;
    if date in pastQueries then CacheHit(date, pastQueries[date]) else CacheMiss(date)
  }

  // ---------------------------------------------------------------------------
  // The screen

  /** The store is unchanged except for what a navigation outcome sets. */
  twostate predicate StoreFollows(store: ApodStore, outcome: NavOutcome)
    reads store
  {
    && store.pastQueries == old(store.pastQueries)
    && store.isSheetOpen == old(store.isSheetOpen)
    && (if outcome.Moved?
        then store.currentDate == outcome.date && store.swipeDirection == Some(outcome.direction)
        else store.currentDate == old(store.currentDate) && store.swipeDirection == old(store.swipeDirection))
  }

  class Index {
    const store: ApodStore
    var apod: Option<Apod>
    var showPicker: bool
    var datePicked: JsDate

    /** The screen's state on mount: no record, picker hidden, picker value `new Date()`. */
    constructor (store: ApodStore, now: JsDate)
      ensures this.store == store && apod == None && !showPicker && datePicked == now
    {
      this.store := store;
      apod := None;
      showPicker := false;
      datePicked := now;
    }

    /** The effect of `fetchApods` on the store and on the displayed record; the picker is untouched. */
    twostate predicate FetchEffect(result: Fetch, direction: Option<SwipeDirection>)
      reads this, store
    {
      && showPicker == old(showPicker) && datePicked == old(datePicked)
      && if result.Fetched? then
        && store.pastQueries == Cached(old(store.pastQueries), result.date, result.record)
        && store.currentDate == result.date && store.swipeDirection == direction
        && store.isSheetOpen == old(store.isSheetOpen)
        && apod == Some(result.record)
      else
        && store.pastQueries == old(store.pastQueries)
        && store.currentDate == old(store.currentDate) && store.swipeDirection == old(store.swipeDirection)
        && store.isSheetOpen == old(store.isSheetOpen)
        && apod == old(apod)
    }

    /**
      `fetchApods` for the date and direction of the current render. On success
      the final record is shown, written into the store's map under the final
      date, and that date becomes the current date with the direction kept. On a
      failure nothing changes.
     */
    method FetchApods(date: string, direction: Option<SwipeDirection>, api: Api) returns (result: Fetch)
      modifies this, store
      ensures result == SkipSearch(api, DayStep(direction), date, MaxApodSkips)
      ensures FetchEffect(result, direction)
    {
      result := SkipLoop(api, DayStep(direction), date);
      if result.Fetched? {
        apod := Some(result.record);
        // `pastQueries[date] = data` writes into the store's own map, not through `cacheApodData`.
        store.pastQueries := store.pastQueries[result.date := result.record];
        store.SetApodDate(result.date, direction);
      }
    }

    /**
      The effect on a change of the current date: an empty date means today; a
      cached date is shown from the cache with no request; otherwise `fetchApods`.
     */
    method OnDateChanged(today: Date, clockMs: int, api: Api) returns (lookup: DateLookup, fetch: Option<Fetch>)
      requires IsValid(today) && IsIsoYear(today.year) && 0 <= clockMs < MsPerDay
      modifies this, store
      ensures lookup == LookupDate(old(store.pastQueries), old(store.currentDate), today)
      ensures lookup.CacheHit? ==>
        && fetch == None && apod == Some(lookup.record)
        && showPicker == old(showPicker) && datePicked == old(datePicked)
        && store.pastQueries == old(store.pastQueries) && store.isSheetOpen == old(store.isSheetOpen)
        && store.currentDate == old(store.currentDate) && store.swipeDirection == old(store.swipeDirection)
      ensures lookup.CacheMiss? ==>
        && fetch == Some(SkipSearch(api, DayStep(old(store.swipeDirection)), lookup.date, MaxApodSkips))
        && FetchEffect(fetch.value, old(store.swipeDirection))
    {
      var date := store.currentDate;
      if date == "" {
        var now := new JsDate(today, clockMs);
        date := FormatDateToStr(now);
      }
      lookup := LookupDate(store.pastQueries, store.currentDate, today);
      if date in store.pastQueries {
        apod := Some(store.pastQueries[date]);
        fetch := None;
      } else {
        var result := FetchApods(date, store.swipeDirection, api);
        fetch := Some(result);
      }
    }

    /** `navigateToPrevDay`. */
    method NavigateToPrevDay() returns (outcome: NavOutcome)
      modifies store
      ensures outcome == PrevDayOutcome(apod.Some?, old(store.currentDate))
      ensures StoreFollows(store, outcome)
    {
      if apod == None {
        return NotNavigated;
      }
      var prevDay := DecrementDate(store.currentDate);
      if prevDay.None? {
        return Threw;
      }
      store.SetApodDate(prevDay.value, Some(Left));
      outcome := Moved(prevDay.value, Left);
    }

    /** `navigateToNextDay`, with `today` the result of `createCurrentDate`. */
    method NavigateToNextDay(today: Date) returns (outcome: NavOutcome)
      requires IsValid(today)
      modifies store
      ensures outcome == NextDayOutcome(apod.Some?, old(store.currentDate), today)
      ensures StoreFollows(store, outcome)
    {
      if apod == None {
        return NotNavigated;
      }
      var parsed := ParseDate(store.currentDate);
      if parsed.None? {
        return Threw;
      }
      var nextDay := NextDay(parsed.value);
      if DayNumber(nextDay) >= DayNumber(today) {
        return NotNavigated;
      }
      var nextStr := IsoDatePart(nextDay);
      store.SetApodDate(nextStr, Some(Right));
      outcome := Moved(nextStr, Right);
    }

    /**
      `panHorizontal.onEnd`: navigate when past the threshold; snap the card
      back when no navigation happened. A thrown RangeError leaves the handler
      before the snap-back.
     */
    method OnPanEnd(offset: int, threshold: int, today: Date) returns (outcome: NavOutcome, snapBack: bool)
      requires threshold > 0 && IsValid(today)
      modifies store
      ensures outcome == PanEndOutcome(offset, threshold, apod.Some?, old(store.currentDate), today)
      ensures snapBack <==> outcome == NotNavigated
      ensures StoreFollows(store, outcome)
    {
      match PanDecision(offset, threshold) {
        case GoToNextDay =>
          outcome := NavigateToNextDay(today);
        case GoToPrevDay =>
          outcome := NavigateToPrevDay();
        case NoNavigation =>
          outcome := NotNavigated;
      }
      snapBack := outcome == NotNavigated;
    }

    /**
      `onDateSelected`: hides the picker; on a "set" event with a date, keeps that
      `Date` as the picker value, moves it to midnight, and makes its day the
      current date with direction LEFT.
     */
    method OnDateSelected(eventType: string, selectedDate: JsDate?)
      requires selectedDate != null ==> selectedDate.Valid()
      modifies this, store, selectedDate
      ensures !showPicker && apod == old(apod)
      ensures store.pastQueries == old(store.pastQueries) && store.isSheetOpen == old(store.isSheetOpen)
      ensures eventType == "set" && selectedDate != null ==>
        && datePicked == selectedDate
        && selectedDate.date == old(selectedDate.date) && selectedDate.msOfDay == 0
        && store.currentDate == IsoDatePart(selectedDate.date) && store.swipeDirection == Some(Left)
      ensures !(eventType == "set" && selectedDate != null) ==>
        && datePicked == old(datePicked)
        && store.currentDate == old(store.currentDate) && store.swipeDirection == old(store.swipeDirection)
        && (selectedDate != null ==> unchanged(selectedDate))
    {
      showPicker := false;
      if eventType == "set" && selectedDate != null {
        datePicked := selectedDate;
        var selectedDateStr := FormatDateToStr(selectedDate);
        store.SetApodDate(selectedDateStr, Some(Left));
      }
    }

    /** The upward fling: opens the explanation sheet. */
    method OnSwipeUp()
      modifies store
      ensures store.isSheetOpen && store.pastQueries == old(store.pastQueries)
      ensures store.currentDate == old(store.currentDate) && store.swipeDirection == old(store.swipeDirection)
    {
      store.OpenSheet();
    }

    /** The bottom sheet's `onClose`: records that the sheet is closed. */
    method OnSheetClosed()
      modifies store
      ensures !store.isSheetOpen && store.pastQueries == old(store.pastQueries)
      ensures store.currentDate == old(store.currentDate) && store.swipeDirection == old(store.swipeDirection)
    {
      store.CloseSheet();
    }
  }
}
